/** Packages files as they are written, and what packages/base-installer/pkgdetails.c
    reads in them: stanzas that set some of the fields, with a blank line after each
    of them but perhaps the last. */
module PkgDetailsText {
  import opened Wrappers
  import opened CText
  import opened PkgDetails
  import opened PkgDetailsLaws

  // ---------------------------------------------------------------- writing

  datatype FieldName = Version | Architecture | Size | Checksum | Filename

  /** A line that sets a field, or one that is not read. */
  datatype Entry = Entry(field: FieldName, value: string) | Extra(line: string)

  datatype Stanza = Stanza(name: string, entries: seq<Entry>)

  predicate Clean(v: string) {
    v == "" || !IsSpace(v[0])
  }

  predicate CleanEntry(e: Entry, checksumField: string) {
    match e
    case Entry(_, value) => Clean(value)
    case Extra(line) => Classify(line, checksumField).Other?
  }

  predicate CleanStanza(s: Stanza, checksumField: string) {
    Clean(s.name) && forall i :: 0 <= i < |s.entries| ==> CleanEntry(s.entries[i], checksumField)
  }

  predicate AllClean(stanzas: seq<Stanza>, checksumField: string) {
    forall i :: 0 <= i < |stanzas| ==> CleanStanza(stanzas[i], checksumField)
  }

  /** Equal up to case. */
  predicate SameWord(a: string, b: string) {
    |a| == |b| && forall i :: 0 <= i < |a| ==> Lower(a[i]) == Lower(b[i])
  }

  /** Characters are compared up to case: they are the same, or a capital letter and its
      small one, which is 32 further on. */
  lemma SameLetter(c: char, d: char)
    ensures Lower(c) == Lower(d) <==>
            c == d || ('A' <= c <= 'Z' && d as int == c as int + 32) || ('A' <= d <= 'Z' && c as int == d as int + 32)
  {
  }

  /** A checksum field that is not another field read here. */
  predicate OwnField(checksumField: string) {
    && ':' !in checksumField
    && !SameWord(checksumField, "Package") && !SameWord(checksumField, "Version") && !SameWord(checksumField, "Architecture")
    && !SameWord(checksumField, "Size") && !SameWord(checksumField, "Filename")
  }

  function FieldLine(field: string, v: string): string {
    field + (": " + v)
  }

  function EntryLine(e: Entry, checksumField: string): string {
    match e
    case Extra(line) => line
    case Entry(field, value) =>
      match field
      case Version => FieldLine("Version", value)
      case Architecture => FieldLine("Architecture", value)
      case Size => FieldLine("Size", value)
      case Checksum => FieldLine(checksumField, value)
      case Filename => FieldLine("Filename", value)
  }

  function EntryLines(entries: seq<Entry>, checksumField: string): seq<string> {
    if entries == [] then
      []
    else
      EntryLines(entries[..|entries| - 1], checksumField) + [EntryLine(entries[|entries| - 1], checksumField)]
  }

  function StanzaLines(s: Stanza, checksumField: string): seq<string> {
    [FieldLine("Package", s.name)] + EntryLines(s.entries, checksumField)
  }

  /** closed says that the last stanza has its blank line too. */
  function Text(stanzas: seq<Stanza>, checksumField: string, closed: bool): seq<string> {
    if stanzas == [] then
      []
    else
      var last := |stanzas| - 1;
      Text(stanzas[..last], checksumField, true) + StanzaLines(stanzas[last], checksumField) + if closed then [""] else []
  }

  // ---------------------------------------------------------------- the fields of a stanza

  function Get(f: Fields, field: FieldName): string {
    match field
    case Version => f.ver
    case Architecture => f.arch
    case Size => f.size
    case Checksum => f.checksum
    case Filename => f.filename
  }

  function Set(f: Fields, field: FieldName, v: string): Fields {
    match field
    case Version => f.(ver := v)
    case Architecture => f.(arch := v)
    case Size => f.(size := v)
    case Checksum => f.(checksum := v)
    case Filename => f.(filename := v)
  }

  function Apply(f: Fields, entries: seq<Entry>): Fields {
    if entries == [] then
      f
    else
      ApplyOne(Apply(f, entries[..|entries| - 1]), entries[|entries| - 1])
  }

  function ApplyOne(f: Fields, e: Entry): Fields {
    match e
    case Entry(field, value) => Set(f, field, value)
    case Extra(_) => f
  }

  /** The fields after some stanzas: those of the last one are kept with it. */
  function FieldsAfter(stanzas: seq<Stanza>, start: Fields): Fields {
    if stanzas == [] then
      start
    else
      var s := stanzas[|stanzas| - 1];
      Apply(FieldsAfter(stanzas[..|stanzas| - 1], start).(pkg := s.name), s.entries)
  }

  /** What a stanza itself says about a field: the last line that sets it. */
  function Given(entries: seq<Entry>, field: FieldName): Option<string> {
    if entries == [] then
      None
    else
      var e := entries[|entries| - 1];
      if e.Entry? && e.field == field then Some(e.value) else Given(entries[..|entries| - 1], field)
  }

  /** What the nearest earlier stanza with the field says about it, or else the start. */
  function Inherited(stanzas: seq<Stanza>, field: FieldName, start: Fields): string {
    if stanzas == [] then
      Get(start, field)
    else
      var given := Given(stanzas[|stanzas| - 1].entries, field);
      if given.Some? then given.value else Inherited(stanzas[..|stanzas| - 1], field, start)
  }

  const BLANK_FIELDS := Fields("", "", "", "", "", "")

  /** The record that holds just what the stanza says. */
  function OwnFields(s: Stanza): Fields {
    Apply(BLANK_FIELDS.(pkg := s.name), s.entries)
  }

  lemma {:induction false} ApplyGives(f: Fields, entries: seq<Entry>, field: FieldName)
    ensures Apply(f, entries).pkg == f.pkg
    ensures Get(Apply(f, entries), field) ==
            if Given(entries, field).Some? then Given(entries, field).value else Get(f, field)
  {
    if entries != [] {
      ApplyGives(f, entries[..|entries| - 1], field);
    }
  }

  lemma {:induction false} FieldsAreInherited(stanzas: seq<Stanza>, field: FieldName, start: Fields)
    ensures Get(FieldsAfter(stanzas, start), field) == Inherited(stanzas, field, start)
    ensures stanzas != [] ==> FieldsAfter(stanzas, start).pkg == stanzas[|stanzas| - 1].name
  {
    if stanzas != [] {
      var front, s := stanzas[..|stanzas| - 1], stanzas[|stanzas| - 1];
      FieldsAreInherited(front, field, start);
      ApplyGives(FieldsAfter(front, start).(pkg := s.name), s.entries, field);
    }
  }

  lemma SameFields(f: Fields, g: Fields)
    requires f.pkg == g.pkg && forall field :: Get(f, field) == Get(g, field)
    ensures f == g
  {
    assert Get(f, Version) == Get(g, Version) && Get(f, Architecture) == Get(g, Architecture);
    assert Get(f, Size) == Get(g, Size) && Get(f, Checksum) == Get(g, Checksum) && Get(f, Filename) == Get(g, Filename);
  }

  lemma FieldIsOwnIff(stanzas: seq<Stanza>, start: Fields, k: nat, field: FieldName)
    requires k < |stanzas|
    ensures var record, own := FieldsAfter(stanzas[..k + 1], start), OwnFields(stanzas[k]);
      && record.pkg == own.pkg
      && (Get(record, field) == Get(own, field) <==>
          (Given(stanzas[k].entries, field).None? ==> Inherited(stanzas[..k], field, start) == ""))
  {
    assert stanzas[..k + 1][..k] == stanzas[..k];
    FieldsAreInherited(stanzas[..k + 1], field, start);
    ApplyGives(BLANK_FIELDS.(pkg := stanzas[k].name), stanzas[k].entries, field);
  }

  /** Each field that stanza k does not set was last set to nothing. */
  ghost predicate NothingInherited(stanzas: seq<Stanza>, start: Fields, k: nat)
    requires k < |stanzas|
  {
    forall field :: Given(stanzas[k].entries, field).None? ==> Inherited(stanzas[..k], field, start) == ""
  }

  /** The record of a stanza is what the stanza says exactly when each field that it
      does not set was last set to nothing. */
  lemma RecordIsOwnIff(stanzas: seq<Stanza>, start: Fields, k: nat)
    requires k < |stanzas|
    ensures FieldsAfter(stanzas[..k + 1], start) == OwnFields(stanzas[k]) <==> NothingInherited(stanzas, start, k)
  {
    var record, own := FieldsAfter(stanzas[..k + 1], start), OwnFields(stanzas[k]);
    FieldIsOwnIff(stanzas, start, k, Version);
    if record == own {
      forall field ensures Given(stanzas[k].entries, field).None? ==> Inherited(stanzas[..k], field, start) == "" {
        FieldIsOwnIff(stanzas, start, k, field);
      }
    }
    if NothingInherited(stanzas, start, k) {
      forall field ensures Get(record, field) == Get(own, field) {
        FieldIsOwnIff(stanzas, start, k, field);
      }
      SameFields(record, own);
    }
  }

  // ---------------------------------------------------------------- reading lines

  lemma {:induction false} ValueOfField(field: string, v: string)
    requires ':' !in field && Clean(v)
    ensures Value(FieldLine(field, v)) == v
  {
    var s := FieldLine(field, v);
    if field == "" {
      assert s[0] == ':' && s[1..] == " " + v && (" " + v)[1..] == v;
      assert SkipSpaces(" " + v) == SkipSpaces(v);
    } else {
      ValueOfField(field[1..], v);
      assert s[1..] == FieldLine(field[1..], v);
    }
  }

  lemma PrefixOfField(field: string, v: string, word: string)
    requires ':' !in field && ':' !in word
    ensures StartsWith(FieldLine(field, v), word + ":") <==> SameWord(field, word)
  {
    var s, p := FieldLine(field, v), word + ":";
    assert s[|field|] == ':' && p[|word|] == ':';
    if StartsWith(s, p) {
      if |field| < |word| {
        assert false;
      } else if |word| < |field| {
        assert false;
      }
      forall i | 0 <= i < |field| ensures Lower(field[i]) == Lower(word[i]) {
        assert s[i] == field[i] && p[i] == word[i];
      }
    }
  }

  lemma ClassifyField(field: string, v: string, checksumField: string)
    requires ':' !in field && Clean(v) && ':' !in checksumField
    ensures Classify(FieldLine(field, v), checksumField) ==
      if SameWord(field, "Package") then PackageIs(v)
      else if SameWord(field, "Version") then VersionIs(v)
      else if SameWord(field, "Architecture") then ArchitectureIs(v)
      else if SameWord(field, "Size") then SizeIs(v)
      else if SameWord(field, checksumField) then ChecksumIs(v)
      else if SameWord(field, "Filename") then FilenameIs(v)
      else Other
  {
    var s := FieldLine(field, v);
    ValueOfField(field, v);
    PrefixOfField(field, v, "Package");
    PrefixOfField(field, v, "Version");
    PrefixOfField(field, v, "Architecture");
    PrefixOfField(field, v, "Size");
    PrefixOfField(field, v, checksumField);
    PrefixOfField(field, v, "Filename");
    assert "Package" + ":" == "Package:" && "Version" + ":" == "Version:" && "Architecture" + ":" == "Architecture:";
    assert "Size" + ":" == "Size:" && "Filename" + ":" == "Filename:";
  }

  lemma ParseMore(lines: seq<string>, s: string, checksumField: string, start: Fields)
    ensures Parse(lines + [s], checksumField, start) == Feed(Parse(lines, checksumField, start), Classify(s, checksumField))
  {
    assert (lines + [s])[..|lines|] == lines;
  }

  lemma DistinctWords()
    ensures !SameWord("Version", "Package")
    ensures !SameWord("Architecture", "Package") && !SameWord("Architecture", "Version")
    ensures !SameWord("Size", "Package") && !SameWord("Size", "Version") && !SameWord("Size", "Architecture")
    ensures !SameWord("Filename", "Package") && !SameWord("Filename", "Version") && !SameWord("Filename", "Architecture")
    ensures !SameWord("Filename", "Size")
  {
    assert Lower("Version"[0]) != Lower("Package"[0]);
  }

  function Reads(e: Entry): Line {
    match e
    case Extra(_) => Other
    case Entry(field, value) =>
      match field
      case Version => VersionIs(value)
      case Architecture => ArchitectureIs(value)
      case Size => SizeIs(value)
      case Checksum => ChecksumIs(value)
      case Filename => FilenameIs(value)
  }

  lemma ClassifyEntry(e: Entry, checksumField: string)
    requires CleanEntry(e, checksumField) && OwnField(checksumField)
    ensures Classify(EntryLine(e, checksumField), checksumField) == Reads(e)
  {
    DistinctWords();
    if e.Entry? {
      match e.field {
        case Version => ClassifyField("Version", e.value, checksumField);
        case Architecture => ClassifyField("Architecture", e.value, checksumField);
        case Size => ClassifyField("Size", e.value, checksumField);
        case Checksum => ClassifyField(checksumField, e.value, checksumField);
        case Filename => ClassifyField("Filename", e.value, checksumField);
      }
    }
  }

  // ---------------------------------------------------------------- reading files

  lemma ParseEntry(lines: seq<string>, e: Entry, checksumField: string, start: Fields)
    requires OwnField(checksumField) && CleanEntry(e, checksumField)
    ensures var p := Parse(lines, checksumField, start);
      Parse(lines + [EntryLine(e, checksumField)], checksumField, start) == p.(fields := ApplyOne(p.fields, e))
  {
    ClassifyEntry(e, checksumField);
    ParseMore(lines, EntryLine(e, checksumField), checksumField, start);
  }

  lemma Associate<T>(a: seq<T>, b: seq<T>, c: seq<T>)
    ensures a + (b + c) == a + b + c
  {
  }

  lemma {:induction false} ParseEntries(lines: seq<string>, entries: seq<Entry>, checksumField: string, start: Fields)
    requires OwnField(checksumField) && forall i :: 0 <= i < |entries| ==> CleanEntry(entries[i], checksumField)
    ensures var p := Parse(lines, checksumField, start);
      Parse(lines + EntryLines(entries, checksumField), checksumField, start) == p.(fields := Apply(p.fields, entries))
  {
    if entries == [] {
      assert lines + [] == lines;
    } else {
      var front, e := entries[..|entries| - 1], entries[|entries| - 1];
      var written := EntryLines(front, checksumField);
      ParseEntries(lines, front, checksumField, start);
      ParseEntry(lines + written, e, checksumField, start);
      Associate(lines, written, [EntryLine(e, checksumField)]);
    }
  }

  lemma ParsePackage(lines: seq<string>, name: string, checksumField: string, start: Fields)
    requires OwnField(checksumField) && Clean(name)
    ensures var p := Parse(lines, checksumField, start);
      Parse(lines + [FieldLine("Package", name)], checksumField, start) ==
      Parsed(p.segs + [Segment(name, [])], p.fields.(pkg := name))
  {
    ClassifyField("Package", name, checksumField);
    ParseMore(lines, FieldLine("Package", name), checksumField, start);
  }

  lemma ParseStanza(lines: seq<string>, s: Stanza, checksumField: string, start: Fields)
    requires OwnField(checksumField) && CleanStanza(s, checksumField)
    ensures var p := Parse(lines, checksumField, start);
      Parse(lines + StanzaLines(s, checksumField), checksumField, start) ==
      Parsed(p.segs + [Segment(s.name, [])], Apply(p.fields.(pkg := s.name), s.entries))
  {
    var head := [FieldLine("Package", s.name)];
    ParsePackage(lines, s.name, checksumField, start);
    ParseEntries(lines + head, s.entries, checksumField, start);
    Associate(lines, head, EntryLines(s.entries, checksumField));
  }

  /** A blank line keeps the fields with the last segment. */
  lemma ParseBlank(lines: seq<string>, checksumField: string, start: Fields)
    ensures var p := Parse(lines, checksumField, start);
      var last := Last(p.segs);
      Parse(lines + [""], checksumField, start) ==
      Parsed(Front(p.segs) + [Segment(last.name, last.blanks + [p.fields])], p.fields)
  {
    ParseMore(lines, "", checksumField, start);
  }

  function SegmentsOf(stanzas: seq<Stanza>, start: Fields, closed: bool): seq<Segment> {
    if stanzas == [] then
      []
    else
      var last := |stanzas| - 1;
      SegmentsOf(stanzas[..last], start, true) + [Segment(stanzas[last].name, if closed then [FieldsAfter(stanzas, start)] else [])]
  }

  /** Reading back a written file: a segment per stanza, with one record where there is
      a blank line and with none where there is not. */
  lemma {:induction false} ParseText(stanzas: seq<Stanza>, checksumField: string, start: Fields, closed: bool)
    requires OwnField(checksumField) && AllClean(stanzas, checksumField)
    ensures Parse(Text(stanzas, checksumField, closed), checksumField, start) ==
            Parsed([Segment("", [])] + SegmentsOf(stanzas, start, closed), FieldsAfter(stanzas, start))
  {
    if stanzas == [] {
      assert [Segment("", [])] + [] == [Segment("", [])];
    } else {
      var front, s := stanzas[..|stanzas| - 1], stanzas[|stanzas| - 1];
      var text := Text(front, checksumField, true);
      ParseText(front, checksumField, start, true);
      ParseStanza(text, s, checksumField, start);
      Associate([Segment("", [])], SegmentsOf(front, start, true), [Segment(s.name, [])]);
      if closed {
        ParseClosed(text, stanzas, checksumField, start);
      } else {
        assert text + StanzaLines(s, checksumField) + [] == text + StanzaLines(s, checksumField);
      }
    }
  }

  lemma ParseClosed(text: seq<string>, stanzas: seq<Stanza>, checksumField: string, start: Fields)
    requires stanzas != []
    requires Parse(text + StanzaLines(stanzas[|stanzas| - 1], checksumField), checksumField, start) ==
             Parsed([Segment("", [])] + SegmentsOf(stanzas, start, false), FieldsAfter(stanzas, start))
    ensures Parse(text + StanzaLines(stanzas[|stanzas| - 1], checksumField) + [""], checksumField, start) ==
            Parsed([Segment("", [])] + SegmentsOf(stanzas, start, true), FieldsAfter(stanzas, start))
  {
    var before := SegmentsOf(stanzas[..|stanzas| - 1], start, true);
    var open, record := Segment(stanzas[|stanzas| - 1].name, []), FieldsAfter(stanzas, start);
    ParseBlank(text + StanzaLines(stanzas[|stanzas| - 1], checksumField), checksumField, start);
    var segs := [Segment("", [])] + (before + [open]);
    assert Last(segs) == open && Front(segs) == [Segment("", [])] + before && [] + [record] == [record];
    Associate([Segment("", [])], before, [Segment(open.name, [record])]);
  }

  /** The records of the stanzas of a name that end a run of it and have a blank line. */
  function LastOfRuns(stanzas: seq<Stanza>, start: Fields, closed: bool, name: string, k: nat): seq<Fields>
    requires k <= |stanzas|
  {
    if k == 0 then
      []
    else
      LastOfRuns(stanzas, start, closed, name, k - 1) +
      if stanzas[k - 1].name == name && (if k == |stanzas| then closed else stanzas[k].name != name)
      then [FieldsAfter(stanzas[..k], start)] else []
  }

  lemma {:induction false} SegmentAt(stanzas: seq<Stanza>, start: Fields, closed: bool, k: nat)
    requires k < |stanzas|
    ensures |SegmentsOf(stanzas, start, closed)| == |stanzas|
    ensures SegmentsOf(stanzas, start, closed)[k] ==
            Segment(stanzas[k].name, if k + 1 < |stanzas| || closed then [FieldsAfter(stanzas[..k + 1], start)] else [])
  {
    var front := stanzas[..|stanzas| - 1];
    if k < |front| {
      SegmentAt(front, start, true, k);
      assert front[..k + 1] == stanzas[..k + 1];
    } else {
      assert stanzas[..k + 1] == stanzas;
      if front != [] {
        SegmentAt(front, start, true, 0);
      }
    }
  }

  lemma {:induction false} RunsOfText(stanzas: seq<Stanza>, start: Fields, closed: bool, name: string, k: nat)
    requires k <= |stanzas| == |SegmentsOf(stanzas, start, closed)|
    ensures Runs([Segment("", [])] + SegmentsOf(stanzas, start, closed), name, k + 1) ==
            LastOfRuns(stanzas, start, closed, name, k)
  {
    var segs := [Segment("", [])] + SegmentsOf(stanzas, start, closed);
    if k == 0 {
      assert Runs(segs, name, 0) == [];
    } else {
      RunsOfText(stanzas, start, closed, name, k - 1);
      SegmentAt(stanzas, start, closed, k - 1);
      assert segs[k] == SegmentsOf(stanzas, start, closed)[k - 1];
      if k < |stanzas| {
        SegmentAt(stanzas, start, closed, k);
        assert segs[k + 1] == SegmentsOf(stanzas, start, closed)[k];
      }
    }
  }

  /** A slot's wanted answer in terms of the stanzas written. */
  lemma WantedInText(names: seq<string>, slot: nat, stanzas: seq<Stanza>, checksumField: string, start: Fields, closed: bool)
    requires slot < |names| && OwnField(checksumField) && AllClean(stanzas, checksumField)
    ensures Wanted(names, Parse(Text(stanzas, checksumField, closed), checksumField, start).segs, slot) ==
            At(LastOfRuns(stanzas, start, closed, names[slot], |stanzas|), Earlier(names, names[slot], slot))
  {
    ParseText(stanzas, checksumField, start, closed);
    SegmentCount(stanzas, start, closed);
    RunsOfText(stanzas, start, closed, names[slot], |stanzas|);
    var segs := [Segment("", [])] + SegmentsOf(stanzas, start, closed);
    assert |segs| == |stanzas| + 1;
    assert Wanted(names, segs, slot) == At(Runs(segs, names[slot], |segs|), Earlier(names, names[slot], slot));
  }

  lemma SegmentCount(stanzas: seq<Stanza>, start: Fields, closed: bool)
    ensures |SegmentsOf(stanzas, start, closed)| == |stanzas|
  {
    if stanzas != [] {
      SegmentAt(stanzas, start, closed, 0);
    }
  }
}

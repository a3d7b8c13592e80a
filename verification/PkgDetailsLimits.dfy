/** Where the PKGS mode of packages/base-installer/pkgdetails.c does not print the
    record that was asked for: empty requests, a last stanza without a blank line, and
    fields that a stanza does not set. */
module PkgDetailsLimits {
  import opened Wrappers
  import opened CText
  import opened PkgDetails
  import opened PkgDetailsLaws
  import opened PkgDetailsText

  // ---------------------------------------------------------------- the last stanza

  /** The slot whose turn it is at the last stanza gets its record exactly when the
      stanza has its blank line. */
  lemma LastStanzaAnswersIff(names: seq<string>, slot: nat, stanzas: seq<Stanza>, checksumField: string, start: Fields, closed: bool)
    requires OwnField(checksumField) && AllClean(stanzas, checksumField)
    requires slot < |names| && stanzas != [] && stanzas[|stanzas| - 1].name == names[slot]
    requires Earlier(names, names[slot], slot) == |LastOfRuns(stanzas, start, closed, names[slot], |stanzas| - 1)|
    ensures Wanted(names, Parse(Text(stanzas, checksumField, closed), checksumField, start).segs, slot) ==
            if closed then Some(FieldsAfter(stanzas, start)) else None
  {
    WantedInText(names, slot, stanzas, checksumField, start, closed);
    assert stanzas[..|stanzas|] == stanzas;
  }

  lemma {:induction false} NoRunEndsInside(stanzas: seq<Stanza>, start: Fields, closed: bool, name: string, k: nat)
    requires k < |stanzas| && forall i :: 0 <= i < |stanzas| ==> stanzas[i].name == name
    ensures LastOfRuns(stanzas, start, closed, name, k) == []
  {
    if k > 0 {
      NoRunEndsInside(stanzas, start, closed, name, k - 1);
    }
  }

  /** A single request is answered by the line that is wanted. */
  lemma ExtractOne(mirror: string, name: string, lines: seq<string>, checksumField: string, start: Fields)
    requires name != ""
    ensures Extract(mirror, [name], lines, checksumField, start) ==
            [LineOf(mirror, name, Wanted([name], Parse(lines, checksumField, start).segs, 0))]
  {
    ExtractIsWanted(mirror, [name], lines, checksumField, start);
    ExtractIsOneEach(mirror, [name], lines, checksumField, start);
    SameSingle(Extract(mirror, [name], lines, checksumField, start), WantedLines(mirror, [name], lines, checksumField, start));
    WantedOne(mirror, name, lines, checksumField, start);
  }

  lemma WantedOne(mirror: string, name: string, lines: seq<string>, checksumField: string, start: Fields)
    ensures WantedLines(mirror, [name], lines, checksumField, start) ==
            [LineOf(mirror, name, Wanted([name], Parse(lines, checksumField, start).segs, 0))]
  {
  }

  lemma SameSingle<T>(a: seq<T>, b: seq<T>)
    requires |a| == |b| == 1 && multiset(a) == multiset(b)
    ensures a == b
  {
    assert a[0] in multiset(a);
    assert b == [b[0]];
  }

  /** Any number of stanzas of one package: what is printed for it is the last record
      if the file ends with a blank line, and otherwise that it is missing. */
  lemma OnePackageIff(mirror: string, stanzas: seq<Stanza>, name: string, checksumField: string, start: Fields, closed: bool)
    requires OwnField(checksumField) && AllClean(stanzas, checksumField) && name != "" && stanzas != []
    requires forall i :: 0 <= i < |stanzas| ==> stanzas[i].name == name
    ensures Extract(mirror, [name], Text(stanzas, checksumField, closed), checksumField, start) ==
            [if closed then Render(mirror, FieldsAfter(stanzas, start)) else NotFound(name)]
  {
    NoRunEndsInside(stanzas, start, closed, name, |stanzas| - 1);
    LastStanzaAnswersIff([name], 0, stanzas, checksumField, start, closed);
    ExtractOne(mirror, name, Text(stanzas, checksumField, closed), checksumField, start);
  }

  /** A file whose last line is not blank: the package is reported missing, although
      an earlier stanza of it is complete. */
  lemma UnclosedPackageIsMissing(mirror: string, name: string, version: string, checksumField: string, start: Fields)
    requires OwnField(checksumField) && Clean(name) && name != "" && Clean(version)
    ensures Extract(mirror, [name], ["Package: " + name, "", "Package: " + name, "Version: " + version], checksumField, start) ==
            [name + " -"]
  {
    OnePackageIff(mirror, [Stanza(name, []), Stanza(name, [Entry(Version, version)])], name, checksumField, start, false);
    UnclosedText(name, version, checksumField);
  }

  lemma UnclosedText(name: string, version: string, checksumField: string)
    ensures Text([Stanza(name, []), Stanza(name, [Entry(Version, version)])], checksumField, false) ==
            ["Package: " + name, "", "Package: " + name, "Version: " + version]
  {
    TextOfTwo(Stanza(name, []), Stanza(name, [Entry(Version, version)]), checksumField, false);
    EntriesOfOne(Entry(Version, version), checksumField);
    LinesOf(name, version);
  }

  lemma InheritedText(a: string, b: string, file: string, checksumField: string)
    ensures Text([Stanza(a, [Entry(Filename, file)]), Stanza(b, [])], checksumField, true) ==
            ["Package: " + a, "Filename: " + file, "", "Package: " + b, ""]
  {
    TextOfTwo(Stanza(a, [Entry(Filename, file)]), Stanza(b, []), checksumField, true);
    EntriesOfOne(Entry(Filename, file), checksumField);
    LinesOf(a, "");
    LinesOf(b, "");
    LinesOf(file, "");
  }

  lemma LinesOf(name: string, version: string)
    ensures FieldLine("Package", name) == "Package: " + name && FieldLine("Version", version) == "Version: " + version
    ensures FieldLine("Filename", name) == "Filename: " + name
  {
    assert "Package" + ": " == "Package: " && "Version" + ": " == "Version: " && "Filename" + ": " == "Filename: ";
    Associate("Package", ": ", name);
    Associate("Version", ": ", version);
    Associate("Filename", ": ", name);
  }

  lemma EntriesOfOne(e: Entry, checksumField: string)
    ensures EntryLines([e], checksumField) == [EntryLine(e, checksumField)]
  {
    assert [e][..0] == [];
  }

  lemma TextOfTwo(s: Stanza, t: Stanza, checksumField: string, closed: bool)
    ensures Text([s, t], checksumField, closed) ==
            StanzaLines(s, checksumField) + [""] + StanzaLines(t, checksumField) + if closed then [""] else []
  {
    assert [s, t][..1] == [s] && [s][..0] == [];
    assert Text([s], checksumField, true) == StanzaLines(s, checksumField) + [""];
  }

  // ---------------------------------------------------------------- fields that are not set

  /** What is printed for the only stanza of a package, behind another one. */
  lemma SecondOfTwo(mirror: string, s: Stanza, t: Stanza, checksumField: string, start: Fields)
    requires OwnField(checksumField) && CleanStanza(s, checksumField) && CleanStanza(t, checksumField)
    requires s.name != t.name && t.name != ""
    ensures Extract(mirror, [t.name], Text([s, t], checksumField, true), checksumField, start) ==
            [Render(mirror, FieldsAfter([s, t], start))]
  {
    assert LastOfRuns([s, t], start, true, t.name, 0) == [];
    assert LastOfRuns([s, t], start, true, t.name, 1) == [];
    LastStanzaAnswersIff([t.name], 0, [s, t], checksumField, start, true);
    ExtractOne(mirror, t.name, Text([s, t], checksumField, true), checksumField, start);
  }

  /** A package without a Filename field is printed with that of the one before. */
  lemma FilenameIsInherited(mirror: string, a: string, b: string, file: string, checksumField: string, start: Fields)
    requires OwnField(checksumField) && Clean(a) && Clean(b) && Clean(file) && a != b && b != ""
    ensures Extract(mirror, [b], ["Package: " + a, "Filename: " + file, "", "Package: " + b, ""], checksumField, start) ==
            [Render(mirror, start.(pkg := b, filename := file))]
    ensures OwnFields(Stanza(b, [])).filename == ""
  {
    var s, t := Stanza(a, [Entry(Filename, file)]), Stanza(b, []);
    SecondOfTwo(mirror, s, t, checksumField, start);
    InheritedText(a, b, file, checksumField);
    FieldsOfTwo(s, t, start);
    FieldsOfOne(start.(pkg := a), Entry(Filename, file));
    assert Apply(start.(pkg := b, filename := file), []) == start.(pkg := b, filename := file);
  }

  lemma FieldsOfOne(f: Fields, e: Entry)
    ensures Apply(f, [e]) == ApplyOne(f, e)
  {
    assert [e][..0] == [];
  }

  lemma FieldsOfTwo(s: Stanza, t: Stanza, start: Fields)
    ensures FieldsAfter([s, t], start) == Apply(Apply(start.(pkg := s.name), s.entries).(pkg := t.name), t.entries)
  {
    assert [s, t][..1] == [s] && [s][..0] == [];
    assert FieldsAfter([s], start) == Apply(start.(pkg := s.name), s.entries);
  }

  // ---------------------------------------------------------------- empty requests

  /** A package with a second blank line after it. */
  function TwiceBlank(z: string): seq<string> {
    [FieldLine("Package", z), "", ""]
  }

  lemma ParseTwiceBlank(z: string, checksumField: string, start: Fields)
    requires OwnField(checksumField) && Clean(z)
    ensures var f := start.(pkg := z);
      Parse(TwiceBlank(z), checksumField, start).segs == [Segment("", []), Segment(z, [f, f])]
  {
    var f, head := start.(pkg := z), [FieldLine("Package", z)];
    ParsePackage([], z, checksumField, start);
    assert [] + head == head && [Segment("", [])] + [Segment(z, [])] == [Segment("", []), Segment(z, [])];
    ParseBlank(head, checksumField, start);
    assert head + [""] == [head[0], ""] && [] + [f] == [f];
    assert Parse([head[0], ""], checksumField, start) == Parsed([Segment("", []), Segment(z, [f])], f);
    ParseBlank([head[0], ""], checksumField, start);
    assert [head[0], ""] + [""] == TwiceBlank(z) && [f] + [f] == [f, f];
  }

  /** Wanted there: the record for the first request of the package, nothing else. */
  lemma WantedTwiceBlank(names: seq<string>, slot: nat, z: string, checksumField: string, start: Fields)
    requires slot < |names| && z != "" && Clean(z) && OwnField(checksumField)
    ensures Wanted(names, Parse(TwiceBlank(z), checksumField, start).segs, slot) ==
            if names[slot] == z && Earlier(names, z, slot) == 0 then Some(start.(pkg := z)) else None
  {
    var f := start.(pkg := z);
    var name, segs := names[slot], [Segment("", []), Segment(z, [f, f])];
    ParseTwiceBlank(z, checksumField, start);
    assert Runs(segs, name, 0) == [] && Runs(segs, name, 1) == [];
    assert Runs(segs, name, 2) == if name == z then [f] else [];
  }

  lemma ItemsOfTwo(s: Segment, t: Segment, name: string)
    ensures Items([s, t], name) == Item(s, name) + Item(t, name)
  {
    assert Front([s, t]) == [s] && Front([s]) == [];
    assert Items([s], name) == [] + Item(s, name);
  }

  /** The first empty request takes the record of the package, whatever else is asked. */
  lemma EmptyRequestTakes(names: seq<string>, z: string, checksumField: string, start: Fields) returns (k: nat)
    requires "" in names && z != "" && Clean(z) && OwnField(checksumField)
    ensures k < |names| && names[k] == ""
    ensures var ends := RunEnds(Parse(TwiceBlank(z), checksumField, start).segs);
      Takings(names, ends) == [Taking(k, start.(pkg := z))] && Items(ends, "") == []
  {
    var f := start.(pkg := z);
    var none, one := Segment("", []), Segment(z, [f, f]);
    ParseTwiceBlank(z, checksumField, start);
    assert Front([none, one]) == [none] && Front([none]) == [];
    assert RunEnds([none, one]) == [none, one];
    ItemsOfTwo(none, one, "");
    var slots := Slots(names, []);
    var i :| 0 <= i < |names| && names[i] == "";
    assert slots[i] == Some("");
    k := FirstOpen(slots, "").value;
    assert Takings(names, [none]) == [] + AsSeq(Answer(slots, "", []));
    assert Answer(slots, z, [f, f]) == Some(Taking(k, f));
    assert Takings(names, [none, one]) == [] + AsSeq(Answer(slots, z, [f, f]));
  }

  /** So a package that is found is reported missing, if it is requested too. */
  lemma FoundPackageIsMissing(mirror: string, name: string, checksumField: string, start: Fields)
    requires OwnField(checksumField) && Clean(name) && name != ""
    ensures Extract(mirror, [name, ""], TwiceBlank(name), checksumField, start) == [Render(mirror, start.(pkg := name)), name + " -"]
    ensures Wanted([name, ""], Parse(TwiceBlank(name), checksumField, start).segs, 0) == Some(start.(pkg := name))
  {
    var names := [name, ""];
    var k := EmptyRequestTakes(names, name, checksumField, start);
    WantedTwiceBlank(names, 0, name, checksumField, start);
    assert names[0] == name && k == 1;
    SecondTaken(mirror, names, start.(pkg := name));
  }

  lemma SecondTaken(mirror: string, names: seq<string>, f: Fields)
    requires |names| == 2
    ensures Output(mirror, names, [Taking(1, f)]) == [Render(mirror, f), NotFound(names[0])]
  {
    var taken := [Taking(1, f)];
    assert taken[0].slot == 1 && IsTaken(taken, 1) && !IsTaken(taken, 0);
    assert Lack(names, taken, 0) == [NotFound(names[0])] && Lack(names, taken, 1) == [];
    MissingOfTwo(names, taken);
  }

  lemma MissingOfTwo(names: seq<string>, taken: seq<Taking>)
    requires |names| == 2
    ensures Missing(names, taken, 2) == Lack(names, taken, 0) + Lack(names, taken, 1)
  {
    assert Missing(names, taken, 0) == [];
    assert Missing(names, taken, 1) == Lack(names, taken, 0);
  }

  /** A word longer than any of the requests. */
  lemma {:induction false} LongerWord(names: seq<string>) returns (z: string)
    ensures z != "" && z[0] == 'z' && Shorter(names, z)
  {
    if names == [] {
      z := "z";
    } else {
      var y := LongerWord(names[1..]);
      z := y + seq(|names[0]|, _ => 'z');
      forall i | 0 <= i < |names| ensures |names[i]| < |z| {
        if i > 0 {
          assert names[i] == names[1..][i - 1];
        }
      }
    }
  }

  predicate Shorter(names: seq<string>, z: string) {
    forall i :: 0 <= i < |names| ==> |names[i]| < |z|
  }

  /** The line of a package that nobody asked for, and that is too long for "name -". */
  lemma StrayLine(names: seq<string>, z: string, mirror: string, checksumField: string, start: Fields)
    requires OwnField(checksumField) && z != "" && Clean(z) && Shorter(names, z)
    ensures var line := Render(mirror, start.(pkg := z));
      && ("" in names ==> line in Extract(mirror, names, TwiceBlank(z), checksumField, start))
      && line !in WantedLines(mirror, names, TwiceBlank(z), checksumField, start)
  {
    var f := start.(pkg := z);
    if "" in names {
      var k := EmptyRequestTakes(names, z, checksumField, start);
      var taken := [Taking(k, f)];
      assert Rendered(mirror, taken)[0] == Render(mirror, f);
      assert Output(mirror, names, taken)[0] == Render(mirror, f);
    }
    var wanted := WantedLines(mirror, names, TwiceBlank(z), checksumField, start);
    forall i | 0 <= i < |wanted| ensures wanted[i] != Render(mirror, f) {
      WantedTwiceBlank(names, i, z, checksumField, start);
      assert wanted[i] == NotFound(names[i]);
      assert |Render(mirror, f)| >= |z| + 6 && |NotFound(names[i])| == |names[i]| + 2;
    }
  }

  ghost predicate WantedIn(names: seq<string>, mirror: string, lines: seq<string>, checksumField: string, start: Fields) {
    multiset(Extract(mirror, names, lines, checksumField, start)) == multiset(WantedLines(mirror, names, lines, checksumField, start))
  }

  lemma OwnMd5()
    ensures OwnField("MD5sum")
  {
  }

  lemma EmptyRequestDiffers(names: seq<string>, checksumField: string, start: Fields) returns (lines: seq<string>)
    requires "" in names && OwnField(checksumField)
    ensures !WantedIn(names, "", lines, checksumField, start)
  {
    var z := LongerWord(names);
    lines := TwiceBlank(z);
    StrayLine(names, z, "", checksumField, start);
    var line := Render("", start.(pkg := z));
    assert line in multiset(Extract("", names, lines, checksumField, start));
    assert line !in multiset(WantedLines("", names, lines, checksumField, start));
  }

  lemma NoEmptyRequest(names: seq<string>, mirror: string, lines: seq<string>, checksumField: string, start: Fields)
    requires "" !in names
    ensures WantedIn(names, mirror, lines, checksumField, start)
  {
    ExtractIsWanted(mirror, names, lines, checksumField, start);
  }

  lemma EmptyRequest(names: seq<string>)
    requires "" in names
    ensures exists mirror, lines, checksumField, start :: !WantedIn(names, mirror, lines, checksumField, start)
  {
    OwnMd5();
    var lines := EmptyRequestDiffers(names, "MD5sum", BLANK_FIELDS);
    assert !WantedIn(names, "", lines, "MD5sum", BLANK_FIELDS);
  }

  /** The law of the records holds for every file exactly when no request is empty. */
  lemma ExtractIsWantedIff(names: seq<string>)
    ensures "" !in names <==> forall mirror, lines, checksumField, start :: WantedIn(names, mirror, lines, checksumField, start)
  {
    if "" in names {
      EmptyRequest(names);
    } else {
      forall mirror, lines, checksumField, start ensures WantedIn(names, mirror, lines, checksumField, start) {
        NoEmptyRequest(names, mirror, lines, checksumField, start);
      }
    }
  }

  ghost predicate MatchesIn(names: seq<string>, lines: seq<string>, checksumField: string, start: Fields) {
    var ends := RunEnds(Parse(lines, checksumField, start).segs);
    Matches(names, ends, Takings(names, ends))
  }

  lemma EmptyRequestMismatch(names: seq<string>, checksumField: string, start: Fields) returns (lines: seq<string>)
    requires "" in names && OwnField(checksumField)
    ensures !MatchesIn(names, lines, checksumField, start)
  {
    var z := LongerWord(names);
    lines := TwiceBlank(z);
    var k := EmptyRequestTakes(names, z, checksumField, start);
    var ends := RunEnds(Parse(lines, checksumField, start).segs);
    assert TakenFor(Takings(names, ends), k) != At(Items(ends, names[k]), Earlier(names, names[k], k));
  }

  /** Each slot has the answer that is its turn in every file, exactly when no request
      is empty. */
  lemma TakingsMatchIff(names: seq<string>)
    ensures "" !in names <==> forall lines, checksumField, start :: MatchesIn(names, lines, checksumField, start)
  {
    if "" in names {
      OwnMd5();
      var lines := EmptyRequestMismatch(names, "MD5sum", BLANK_FIELDS);
    } else {
      forall lines, checksumField, start ensures MatchesIn(names, lines, checksumField, start) {
        TakingsMatch(names, RunEnds(Parse(lines, checksumField, start).segs));
      }
    }
  }

  // ---------------------------------------------------------------- chunks

  lemma {:induction false} ChunkedHas<S, T>(args: seq<S>, call: (seq<S>, nat) -> seq<T>, c: nat, arg: S, line: T)
    requires arg in args && forall chunk, n :: arg in chunk && (forall x :: x in chunk ==> x in args) ==> line in call(chunk, n)
    ensures line in Chunked(args, call, c)
    decreases |args|
  {
    if |args| > MAX_PKGS && arg !in args[..MAX_PKGS] {
      assert args == args[..MAX_PKGS] + args[MAX_PKGS..];
      ChunkedHas(args[MAX_PKGS..], call, c + 1, arg, line);
    }
  }

  lemma {:induction false} ChunkedHasNot<S, T>(args: seq<S>, call: (seq<S>, nat) -> seq<T>, c: nat, line: T)
    requires forall chunk, n :: (forall x :: x in chunk ==> x in args) ==> line !in call(chunk, n)
    ensures line !in Chunked(args, call, c)
    decreases |args|
  {
    if |args| > MAX_PKGS {
      ChunkedHasNot(args[MAX_PKGS..], call, c + 1, line);
    }
  }

  ghost predicate AllWantedIn(args: seq<string>, mirror: string, lines: seq<string>, checksumField: string, stack: nat -> (string, string)) {
    multiset(Chunked(args, ExtractCall(mirror, lines, checksumField, stack), 0)) ==
    multiset(Chunked(args, WantedCall(mirror, lines, checksumField, stack), 0))
  }

  function EmptyBuffers(): (stack: nat -> (string, string))
    ensures forall n :: stack(n) == ("", "")
  {
    n => ("", "")
  }

  lemma EmptyArgumentDiffers(args: seq<string>, checksumField: string, stack: nat -> (string, string)) returns (lines: seq<string>)
    requires "" in args && OwnField(checksumField) && stack == EmptyBuffers()
    ensures !AllWantedIn(args, "", lines, checksumField, stack)
  {
    var z := LongerWord(args);
    lines := TwiceBlank(z);
    var call, want := ExtractCall("", lines, checksumField, stack), WantedCall("", lines, checksumField, stack);
    var start := Start(("", ""));
    var line := Render("", start.(pkg := z));
    forall chunk: seq<string>, n: nat | forall x :: x in chunk ==> x in args
      ensures line !in want(chunk, n) && ("" in chunk ==> line in call(chunk, n))
    {
      ShorterChunk(args, chunk, z);
      StrayLine(chunk, z, "", checksumField, start);
      assert want(chunk, n) == WantedLines("", chunk, lines, checksumField, start);
      assert call(chunk, n) == Extract("", chunk, lines, checksumField, start);
    }
    ChunkedHas(args, call, 0, "", line);
    ChunkedHasNot(args, want, 0, line);
    assert line in multiset(Chunked(args, call, 0)) && line !in multiset(Chunked(args, want, 0));
  }

  lemma ShorterChunk(args: seq<string>, chunk: seq<string>, z: string)
    requires Shorter(args, z) && forall x :: x in chunk ==> x in args
    ensures Shorter(chunk, z)
  {
    forall i | 0 <= i < |chunk| ensures |chunk[i]| < |z| {
      assert chunk[i] in args;
    }
  }

  lemma NoEmptyArgument(args: seq<string>, mirror: string, lines: seq<string>, checksumField: string, stack: nat -> (string, string))
    requires "" !in args
    ensures AllWantedIn(args, mirror, lines, checksumField, stack)
  {
    AllWanted(mirror, args, lines, checksumField, stack);
  }

  lemma EmptyArgument(args: seq<string>)
    requires "" in args
    ensures exists mirror, lines, checksumField, stack :: !AllWantedIn(args, mirror, lines, checksumField, stack)
  {
    OwnMd5();
    var lines := EmptyArgumentDiffers(args, "MD5sum", EmptyBuffers());
    assert !AllWantedIn(args, "", lines, "MD5sum", EmptyBuffers());
  }

  /** Over all the calls of main too. */
  lemma AllWantedIff(args: seq<string>)
    ensures "" !in args <==> forall mirror, lines, checksumField, stack :: AllWantedIn(args, mirror, lines, checksumField, stack)
  {
    if "" in args {
      EmptyArgument(args);
    } else {
      forall mirror, lines, checksumField, stack ensures AllWantedIn(args, mirror, lines, checksumField, stack) {
        NoEmptyArgument(args, mirror, lines, checksumField, stack);
      }
    }
  }
}

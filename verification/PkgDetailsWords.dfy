/** The words of the lines that the PKGS mode of packages/base-installer/pkgdetails.c
    prints, as its caller splits them, and what a Packages file says in their places. */
module PkgDetailsWords {
  import opened Wrappers
  import opened CText
  import opened PkgDetails
  import opened PkgDetailsLaws
  import opened PkgDetailsText
  import opened PkgDetailsLimits

  // ---------------------------------------------------------------- splitting

  /** What stands between the blanks of a line. */
  function SplitBlanks(s: string): (words: seq<string>)
    ensures words != []
  {
    if s == [] then
      [""]
    else
      var words := SplitBlanks(s[1..]);
      if s[0] == ' ' then [""] + words else [[s[0]] + words[0]] + words[1..]
  }

  predicate Plain(s: string) {
    ' ' !in s
  }

  lemma {:induction false} SplitJoined(a: string, b: string)
    ensures SplitBlanks(a + " " + b) == SplitBlanks(a) + SplitBlanks(b)
  {
    if a == [] {
      assert a + " " + b == [' '] + b && ([' '] + b)[1..] == b;
    } else {
      SplitJoined(a[1..], b);
      assert (a + " " + b)[1..] == a[1..] + " " + b;
      Prefixed(a[0], SplitBlanks(a[1..]), SplitBlanks(b));
    }
  }

  lemma Prefixed<T>(c: T, words: seq<seq<T>>, more: seq<seq<T>>)
    requires words != []
    ensures [[c] + (words + more)[0]] + (words + more)[1..] == [[c] + words[0]] + words[1..] + more
    ensures [[]] + (words + more) == [[]] + words + more
  {
  }

  /** One word exactly when there is no blank. */
  lemma {:induction false} SplitPlain(s: string)
    ensures |SplitBlanks(s)| == 1 <==> Plain(s)
    ensures Plain(s) ==> SplitBlanks(s) == [s]
  {
    if s != [] {
      SplitPlain(s[1..]);
      assert s == [s[0]] + s[1..];
    }
  }

  function Joined(parts: seq<string>): string
    requires parts != []
  {
    var last := |parts| - 1;
    if last == 0 then parts[0] else Joined(parts[..last]) + " " + parts[last]
  }

  function SplitAll(parts: seq<string>): seq<string> {
    if parts == [] then [] else SplitAll(parts[..|parts| - 1]) + SplitBlanks(parts[|parts| - 1])
  }

  lemma {:induction false} SplitJoinedAll(parts: seq<string>)
    requires parts != []
    ensures SplitBlanks(Joined(parts)) == SplitAll(parts)
  {
    var last := |parts| - 1;
    if last == 0 {
      assert SplitAll(parts[..0]) == [];
    } else {
      SplitJoinedAll(parts[..last]);
      SplitJoined(Joined(parts[..last]), parts[last]);
    }
  }

  predicate AllPlain(parts: seq<string>) {
    forall i :: 0 <= i < |parts| ==> Plain(parts[i])
  }

  lemma {:induction false} SplitAllPlain(parts: seq<string>)
    ensures |SplitAll(parts)| >= |parts|
    ensures SplitAll(parts) == parts <==> AllPlain(parts)
  {
    if parts != [] {
      var front, last := parts[..|parts| - 1], parts[|parts| - 1];
      assert parts == front + [last];
      SplitPlain(last);
      SplitAllPlain(front);
      if SplitAll(parts) == parts {
        SameEnd(SplitAll(front), SplitBlanks(last), front, last);
      }
    }
  }

  lemma SameEnd<T>(a: seq<T>, b: seq<T>, front: seq<T>, x: T)
    requires b != [] && |a| >= |front| && a + b == front + [x]
    ensures a == front && b == [x]
  {
    assert |b| == 1;
    assert (a + b)[..|a|] == a && (front + [x])[..|a|] == front;
    assert (a + b)[|a|] == b[0];
  }

  // ---------------------------------------------------------------- the printed line

  /** The words of a line: name, version, architecture, mirror, file name, checksum and
      size, in this order, exactly when none of them has a blank. */
  lemma RenderedWordsIff(mirror: string, f: Fields)
    ensures var words := [f.pkg, f.ver, f.arch, mirror, f.filename, f.checksum, f.size];
      SplitBlanks(Render(mirror, f)) == words <==> AllPlain(words)
  {
    var words := [f.pkg, f.ver, f.arch, mirror, f.filename, f.checksum, f.size];
    RenderIsJoined(mirror, f);
    SplitJoinedAll(words);
    SplitAllPlain(words);
  }

  lemma RenderIsJoined(mirror: string, f: Fields)
    ensures Render(mirror, f) == Joined([f.pkg, f.ver, f.arch, mirror, f.filename, f.checksum, f.size])
  {
    JoinedMore([f.pkg], f.ver);
    JoinedMore([f.pkg, f.ver], f.arch);
    JoinedMore([f.pkg, f.ver, f.arch], mirror);
    JoinedMore([f.pkg, f.ver, f.arch, mirror], f.filename);
    JoinedMore([f.pkg, f.ver, f.arch, mirror, f.filename], f.checksum);
    JoinedMore([f.pkg, f.ver, f.arch, mirror, f.filename, f.checksum], f.size);
    assert [f.pkg, f.ver, f.arch, mirror, f.filename, f.checksum] + [f.size] ==
           [f.pkg, f.ver, f.arch, mirror, f.filename, f.checksum, f.size];
    assert [f.pkg, f.ver, f.arch, mirror, f.filename] + [f.checksum] == [f.pkg, f.ver, f.arch, mirror, f.filename, f.checksum];
    assert [f.pkg, f.ver, f.arch, mirror] + [f.filename] == [f.pkg, f.ver, f.arch, mirror, f.filename];
    assert [f.pkg, f.ver, f.arch] + [mirror] == [f.pkg, f.ver, f.arch, mirror];
    assert [f.pkg, f.ver] + [f.arch] == [f.pkg, f.ver, f.arch] && [f.pkg] + [f.ver] == [f.pkg, f.ver];
  }

  lemma JoinedMore(parts: seq<string>, part: string)
    requires parts != []
    ensures Joined(parts + [part]) == Joined(parts) + " " + part
  {
    assert (parts + [part])[..|parts|] == parts;
  }

  // ---------------------------------------------------------------- what the stanzas say

  /** The values for stanza k: for each field the last line of the stanza that sets it,
      or what it inherits. */
  function Says(mirror: string, stanzas: seq<Stanza>, start: Fields, k: nat): (words: seq<string>)
    requires k < |stanzas|
    ensures |words| == 7
  {
    var upTo := stanzas[..k + 1];
    [stanzas[k].name, Inherited(upTo, Version, start), Inherited(upTo, Architecture, start), mirror,
     Inherited(upTo, Filename, start), Inherited(upTo, Checksum, start), Inherited(upTo, Size, start)]
  }

  lemma RecordWords(mirror: string, stanzas: seq<Stanza>, start: Fields, k: nat)
    requires k < |stanzas| && AllPlain(Says(mirror, stanzas, start, k))
    ensures SplitBlanks(Render(mirror, FieldsAfter(stanzas[..k + 1], start))) == Says(mirror, stanzas, start, k)
  {
    var upTo, f := stanzas[..k + 1], FieldsAfter(stanzas[..k + 1], start);
    FieldsAreInherited(upTo, Version, start);
    FieldsAreInherited(upTo, Architecture, start);
    FieldsAreInherited(upTo, Filename, start);
    FieldsAreInherited(upTo, Checksum, start);
    FieldsAreInherited(upTo, Size, start);
    assert Says(mirror, stanzas, start, k) == [f.pkg, f.ver, f.arch, mirror, f.filename, f.checksum, f.size];
    RenderedWordsIff(mirror, f);
  }

  /** Stanza k is the last of a run of its name, and a blank line follows it. */
  predicate ClosesRun(stanzas: seq<Stanza>, closed: bool, k: nat)
    requires k < |stanzas|
  {
    if k + 1 == |stanzas| then closed else stanzas[k + 1].name != stanzas[k].name
  }

  /** How many runs of the name are closed before stanza k. */
  function ClosedRuns(stanzas: seq<Stanza>, closed: bool, name: string, k: nat): nat
    requires k <= |stanzas|
  {
    if k == 0 then 0
    else ClosedRuns(stanzas, closed, name, k - 1) + if stanzas[k - 1].name == name && ClosesRun(stanzas, closed, k - 1) then 1 else 0
  }

  lemma {:induction false} RunsCounted(stanzas: seq<Stanza>, start: Fields, closed: bool, name: string, k: nat)
    requires k <= |stanzas|
    ensures |LastOfRuns(stanzas, start, closed, name, k)| == ClosedRuns(stanzas, closed, name, k)
  {
    if k > 0 {
      RunsCounted(stanzas, start, closed, name, k - 1);
    }
  }

  lemma {:induction false} RunAt(stanzas: seq<Stanza>, start: Fields, closed: bool, k: nat, n: nat)
    requires k < n <= |stanzas| && ClosesRun(stanzas, closed, k)
    ensures var runs := LastOfRuns(stanzas, start, closed, stanzas[k].name, n);
      At(runs, ClosedRuns(stanzas, closed, stanzas[k].name, k)) == Some(FieldsAfter(stanzas[..k + 1], start))
  {
    if n > k + 1 {
      RunAt(stanzas, start, closed, k, n - 1);
    } else {
      RunsCounted(stanzas, start, closed, stanzas[k].name, k);
    }
  }

  /** The words of the line wanted for a request that is the turn of stanza k. */
  lemma SlotWords(mirror: string, names: seq<string>, slot: nat, stanzas: seq<Stanza>, checksumField: string,
                  start: Fields, closed: bool, k: nat)
    requires OwnField(checksumField) && AllClean(stanzas, checksumField)
    requires slot < |names| && k < |stanzas| && stanzas[k].name == names[slot] && ClosesRun(stanzas, closed, k)
    requires Earlier(names, names[slot], slot) == ClosedRuns(stanzas, closed, names[slot], k)
    requires AllPlain(Says(mirror, stanzas, start, k))
    ensures SplitBlanks(WantedLines(mirror, names, Text(stanzas, checksumField, closed), checksumField, start)[slot]) ==
            Says(mirror, stanzas, start, k)
  {
    WantedInText(names, slot, stanzas, checksumField, start, closed);
    RunAt(stanzas, start, closed, k, |stanzas|);
    RecordWords(mirror, stanzas, start, k);
  }

  /** And of a request whose turn no stanza is: its own, and a dash. */
  lemma MissingWords(mirror: string, names: seq<string>, slot: nat, stanzas: seq<Stanza>, checksumField: string,
                     start: Fields, closed: bool)
    requires OwnField(checksumField) && AllClean(stanzas, checksumField) && slot < |names| && Plain(names[slot])
    requires Earlier(names, names[slot], slot) >= ClosedRuns(stanzas, closed, names[slot], |stanzas|)
    ensures SplitBlanks(WantedLines(mirror, names, Text(stanzas, checksumField, closed), checksumField, start)[slot]) ==
            [names[slot], "-"]
  {
    WantedInText(names, slot, stanzas, checksumField, start, closed);
    RunsCounted(stanzas, start, closed, names[slot], |stanzas|);
    SplitJoined(names[slot], "-");
    SplitPlain(names[slot]);
    SplitPlain("-");
    assert names[slot] + " " + "-" == NotFound(names[slot]);
  }

  /** So main prints, for the argument at a place of call q, a line whose words are the
      values that the stanza whose turn it is gives or inherits. */
  lemma PrintedWords(mirror: string, args: seq<string>, q: nat, r: nat, stanzas: seq<Stanza>, checksumField: string,
                     stack: nat -> (string, string), closed: bool, k: nat) returns (line: string)
    requires OwnField(checksumField) && AllClean(stanzas, checksumField) && "" !in args
    requires Offset(q) < |args| && r < |Chunk(args, q)| && k < |stanzas|
    requires var names := Chunk(args, q);
      && stanzas[k].name == names[r] && ClosesRun(stanzas, closed, k)
      && Earlier(names, names[r], r) == ClosedRuns(stanzas, closed, names[r], k)
    requires AllPlain(Says(mirror, stanzas, Start(stack(q)), k))
    ensures line in Chunked(args, ExtractCall(mirror, Text(stanzas, checksumField, closed), checksumField, stack), 0)
    ensures SplitBlanks(line) == Says(mirror, stanzas, Start(stack(q)), k)
  {
    var lines := Text(stanzas, checksumField, closed);
    line := WantedLines(mirror, Chunk(args, q), lines, checksumField, Start(stack(q)))[r];
    SlotWords(mirror, Chunk(args, q), r, stanzas, checksumField, Start(stack(q)), closed, k);
    WantedIsPrinted(mirror, args, q, r, lines, checksumField, stack);
  }

  lemma WantedIsPrinted(mirror: string, args: seq<string>, q: nat, r: nat, lines: seq<string>, checksumField: string,
                        stack: nat -> (string, string))
    requires "" !in args && Offset(q) < |args| && r < |Chunk(args, q)|
    ensures WantedLines(mirror, Chunk(args, q), lines, checksumField, Start(stack(q)))[r] in
            Chunked(args, ExtractCall(mirror, lines, checksumField, stack), 0)
  {
    AllWanted(mirror, args, lines, checksumField, stack);
    WantedAt(mirror, lines, checksumField, stack, Chunk(args, q), q);
    InPermuted(args, ExtractCall(mirror, lines, checksumField, stack), WantedCall(mirror, lines, checksumField, stack), q, r);
  }

  lemma InPermuted<S, T>(args: seq<S>, call: (seq<S>, nat) -> seq<T>, want: (seq<S>, nat) -> seq<T>, q: nat, r: nat)
    requires forall chunk, n :: |want(chunk, n)| == |chunk|
    requires multiset(Chunked(args, call, 0)) == multiset(Chunked(args, want, 0))
    requires Offset(q) < |args| && r < |Chunk(args, q)|
    ensures want(Chunk(args, q), q)[r] in Chunked(args, call, 0)
  {
    ChunkedAt(args, want, 0, q, r);
    assert Chunked(args, want, 0)[Offset(q) + r] in multiset(Chunked(args, want, 0));
  }

  lemma WantedAt(mirror: string, lines: seq<string>, checksumField: string, stack: nat -> (string, string), names: seq<string>, c: nat)
    ensures WantedCall(mirror, lines, checksumField, stack)(names, c) == WantedLines(mirror, names, lines, checksumField, Start(stack(c)))
  {
  }

  // ---------------------------------------------------------------- one stanza, literally

  lemma FieldLines(name: string, ver: string, arch: string, size: string, file: string)
    ensures FieldLine("Package", name) == "Package: " + name && FieldLine("Version", ver) == "Version: " + ver
    ensures FieldLine("Architecture", arch) == "Architecture: " + arch && FieldLine("Size", size) == "Size: " + size
    ensures FieldLine("Filename", file) == "Filename: " + file
  {
    LinesOf(name, ver);
    LinesOf(file, "");
    assert "Architecture" + ": " == "Architecture: " && "Size" + ": " == "Size: ";
    Associate("Architecture", ": ", arch);
    Associate("Size", ": ", size);
  }

  lemma EntriesMore(entries: seq<Entry>, e: Entry, checksumField: string)
    ensures EntryLines(entries + [e], checksumField) == EntryLines(entries, checksumField) + [EntryLine(e, checksumField)]
  {
    assert (entries + [e])[..|entries|] == entries;
  }

  lemma ApplyMore(f: Fields, entries: seq<Entry>, e: Entry)
    ensures Apply(f, entries + [e]) == ApplyOne(Apply(f, entries), e)
  {
    assert (entries + [e])[..|entries|] == entries;
  }

  function FullEntries(f: Fields): seq<Entry> {
    [Entry(Version, f.ver)] + [Entry(Architecture, f.arch)] + [Entry(Size, f.size)] + [Entry(Checksum, f.checksum)] +
    [Entry(Filename, f.filename)]
  }

  lemma FullText(f: Fields, checksumField: string)
    ensures Text([Stanza(f.pkg, FullEntries(f))], checksumField, true) ==
            ["Package: " + f.pkg, "Version: " + f.ver, "Architecture: " + f.arch, "Size: " + f.size,
             checksumField + (": " + f.checksum), "Filename: " + f.filename, ""]
  {
    var s := Stanza(f.pkg, FullEntries(f));
    var one := [Entry(Version, f.ver)];
    var two := one + [Entry(Architecture, f.arch)];
    var three := two + [Entry(Size, f.size)];
    var four := three + [Entry(Checksum, f.checksum)];
    EntriesOfOne(Entry(Version, f.ver), checksumField);
    EntriesMore(one, Entry(Architecture, f.arch), checksumField);
    EntriesMore(two, Entry(Size, f.size), checksumField);
    EntriesMore(three, Entry(Checksum, f.checksum), checksumField);
    EntriesMore(four, Entry(Filename, f.filename), checksumField);
    FieldLines(f.pkg, f.ver, f.arch, f.size, f.filename);
    assert [s][..0] == [];
    assert Text([s], checksumField, true) == StanzaLines(s, checksumField) + [""];
  }

  lemma FullFields(f: Fields, start: Fields)
    ensures FieldsAfter([Stanza(f.pkg, FullEntries(f))], start) == f
  {
    var s, g := Stanza(f.pkg, FullEntries(f)), start.(pkg := f.pkg);
    var one := [Entry(Version, f.ver)];
    var two := one + [Entry(Architecture, f.arch)];
    var three := two + [Entry(Size, f.size)];
    var four := three + [Entry(Checksum, f.checksum)];
    FieldsOfOne(g, Entry(Version, f.ver));
    ApplyMore(g, one, Entry(Architecture, f.arch));
    ApplyMore(g, two, Entry(Size, f.size));
    ApplyMore(g, three, Entry(Checksum, f.checksum));
    ApplyMore(g, four, Entry(Filename, f.filename));
    assert [s][..0] == [];
    assert FieldsAfter([s], start) == Apply(g, FullEntries(f));
  }

  /** A file with one full stanza and its blank line. */
  lemma StanzaIsPrinted(mirror: string, f: Fields, checksumField: string, start: Fields)
    requires OwnField(checksumField) && f.pkg != ""
    requires Clean(f.pkg) && Clean(f.ver) && Clean(f.arch) && Clean(f.size) && Clean(f.checksum) && Clean(f.filename)
    ensures Extract(mirror, [f.pkg],
                    ["Package: " + f.pkg, "Version: " + f.ver, "Architecture: " + f.arch, "Size: " + f.size,
                     checksumField + (": " + f.checksum), "Filename: " + f.filename, ""], checksumField, start) ==
            [f.pkg + " " + f.ver + " " + f.arch + " " + mirror + " " + f.filename + " " + f.checksum + " " + f.size]
  {
    FullText(f, checksumField);
    FullFields(f, start);
    OnePackageIff(mirror, [Stanza(f.pkg, FullEntries(f))], f.pkg, checksumField, start, true);
  }
}

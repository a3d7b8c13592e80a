/** The PKGS mode of packages/base-installer/pkgdetails.c: one pass over a Packages
    file that answers every requested package with one line. */
module PkgDetails {
  import opened Wrappers
  import opened CText

  const MAX_PKGS: nat := 100

  // ---------------------------------------------------------------- lines

  datatype Line =
    | PackageIs(value: string)
    | VersionIs(value: string)
    | ArchitectureIs(value: string)
    | SizeIs(value: string)
    | ChecksumIs(value: string)
    | FilenameIs(value: string)
    | Blank
    | Other

  function Lower(c: char): char {
    if 'A' <= c <= 'Z' then c - 'A' + 'a' else c
  }

  /** strncasecmp over the length of the prefix. */
  predicate StartsWith(s: string, prefix: string) {
    |prefix| <= |s| && forall i :: 0 <= i < |prefix| ==> Lower(s[i]) == Lower(prefix[i])
  }

  /** What follows the first colon. */
  function Value(s: string): string {
    if s == [] then [] else if s[0] == ':' then SkipSpaces(s[1..]) else Value(s[1..])
  }

  function Classify(s: string, checksumField: string): Line {
    if StartsWith(s, "Package:") then PackageIs(Value(s))
    else if StartsWith(s, "Version:") then VersionIs(Value(s))
    else if StartsWith(s, "Architecture:") then ArchitectureIs(Value(s))
    else if StartsWith(s, "Size:") then SizeIs(Value(s))
    else if StartsWith(s, checksumField + ":") then ChecksumIs(Value(s))
    else if StartsWith(s, "Filename:") then FilenameIs(Value(s))
    else if s == "" then Blank
    else Other
  }

  /** fieldcpy. */
  method FieldCopy(s: string) returns (v: string)
    ensures v == Value(s)
  {
    var i := 0;
    while i < |s| && s[i] != ':'
      invariant i <= |s| && Value(s) == Value(s[i..])
    {
      assert s[i..][1..] == s[i + 1..];
      i := i + 1;
    }
    if i == |s| {
      return "";
    }
    assert s[i..][1..] == s[i + 1..];
    i := i + 1;
    while i < |s| && IsSpace(s[i])
      invariant i <= |s| && Value(s) == SkipSpaces(s[i..])
    {
      assert s[i..][1..] == s[i + 1..];
      i := i + 1;
    }
    v := s[i..];
  }

  // ---------------------------------------------------------------- what a file says

  datatype Fields = Fields(pkg: string, ver: string, arch: string, filename: string, checksum: string, size: string)

  /** A "Package:" line and what follows up to the next one. The fields as they stand
      at each of its blank lines. */
  datatype Segment = Segment(name: string, blanks: seq<Fields>)

  datatype Parsed = Parsed(segs: seq<Segment>, fields: Fields)

  function Last(segs: seq<Segment>): Segment
    requires segs != []
  {
    segs[|segs| - 1]
  }

  function Front(segs: seq<Segment>): seq<Segment>
    requires segs != []
  {
    segs[..|segs| - 1]
  }

  function Feed(p: Parsed, line: Line): (p': Parsed)
    requires p.segs != []
    ensures p'.segs != []
  {
    match line
    case PackageIs(v) => Parsed(p.segs + [Segment(v, [])], p.fields.(pkg := v))
    case VersionIs(v) => p.(fields := p.fields.(ver := v))
    case ArchitectureIs(v) => p.(fields := p.fields.(arch := v))
    case SizeIs(v) => p.(fields := p.fields.(size := v))
    case ChecksumIs(v) => p.(fields := p.fields.(checksum := v))
    case FilenameIs(v) => p.(fields := p.fields.(filename := v))
    case Blank =>
      var last := Last(p.segs);
      p.(segs := Front(p.segs) + [last.(blanks := last.blanks + [p.fields])])
    case Other => p
  }

  /** Fields are never cleared between stanzas; lines before the first "Package:" make
      a segment of their own. */
  function Parse(lines: seq<string>, checksumField: string, start: Fields): (p: Parsed)
    ensures p.segs != []
  {
    if lines == [] then
      Parsed([Segment("", [])], start)
    else
      Feed(Parse(lines[..|lines| - 1], checksumField, start), Classify(lines[|lines| - 1], checksumField))
  }

  /** The last segment of each run of consecutive segments with one name. */
  function RunEnds(segs: seq<Segment>): (ends: seq<Segment>)
    requires segs != []
    ensures ends != [] && Last(ends) == Last(segs)
  {
    if |segs| == 1 then
      segs
    else
      var ends := RunEnds(Front(segs));
      (if Last(Front(segs)).name == Last(segs).name then Front(ends) else ends) + [Last(segs)]
  }

  // ---------------------------------------------------------------- who is answered

  /** A requested slot, and the fields that answer it. */
  datatype Taking = Taking(slot: nat, fields: Fields)

  predicate IsTaken(taken: seq<Taking>, slot: nat) {
    exists k :: 0 <= k < |taken| && taken[k].slot == slot
  }

  /** The array pkgs once the taken slots are set to NULL. */
  function Slots(names: seq<string>, taken: seq<Taking>): (slots: seq<Option<string>>)
    ensures |slots| == |names|
  {
    seq(|names|, i requires 0 <= i < |names| => if IsTaken(taken, i) then None else Some(names[i]))
  }

  function FirstOpen<T(==)>(slots: seq<Option<T>>, field: T): (i: Option<nat>)
    ensures i.Some? ==> i.value < |slots| && slots[i.value] == Some(field)
    ensures forall j :: 0 <= j < (if i.Some? then i.value else |slots|) ==> slots[j] != Some(field)
  {
    if slots == [] then
      None
    else
      var i := FirstOpen(slots[..|slots| - 1], field);
      if i.None? && slots[|slots| - 1] == Some(field) then Some(|slots| - 1) else i
  }

  /** The pending answer after the blank lines of a segment: the first of them stands
      for the name, the later ones for an empty field. */
  function Answer(slots: seq<Option<string>>, name: string, blanks: seq<Fields>): (t: Option<Taking>)
    ensures t.Some? ==> t.value.slot < |slots| && slots[t.value.slot].Some?
  {
    if blanks == [] then
      None
    else
      var n := |blanks| - 1;
      match FirstOpen(slots, if n == 0 then name else "")
      case Some(i) => Some(Taking(i, blanks[n]))
      case None => Answer(slots, name, blanks[..n])
  }

  function AsSeq(t: Option<Taking>): seq<Taking> {
    if t.Some? then [t.value] else []
  }

  function Takings(names: seq<string>, ends: seq<Segment>): (taken: seq<Taking>) {
    if ends == [] then
      []
    else
      var prior := Takings(names, Front(ends));
      prior + AsSeq(Answer(Slots(names, prior), Last(ends).name, Last(ends).blanks))
  }

  // ---------------------------------------------------------------- what is printed

  function Render(mirror: string, f: Fields): string {
    f.pkg + " " + f.ver + " " + f.arch + " " + mirror + " " + f.filename + " " + f.checksum + " " + f.size
  }

  function NotFound(name: string): string {
    name + " -"
  }

  function Rendered(mirror: string, taken: seq<Taking>): (out: seq<string>)
    ensures |out| == |taken|
  {
    seq(|taken|, k requires 0 <= k < |taken| => Render(mirror, taken[k].fields))
  }

  /** The lines for the slots below n that nothing answered. */
  function Missing(names: seq<string>, taken: seq<Taking>, n: nat): seq<string>
    requires n <= |names|
  {
    if n == 0 then [] else Missing(names, taken, n - 1) + Lack(names, taken, n - 1)
  }

  function Lack(names: seq<string>, taken: seq<Taking>, i: nat): seq<string>
    requires i < |names|
  {
    if IsTaken(taken, i) then [] else [NotFound(names[i])]
  }

  function Output(mirror: string, names: seq<string>, taken: seq<Taking>): seq<string> {
    Rendered(mirror, taken) + Missing(names, taken, |names|)
  }

  function Extract(mirror: string, names: seq<string>, lines: seq<string>, checksumField: string, start: Fields): seq<string> {
    Output(mirror, names, Takings(names, RunEnds(Parse(lines, checksumField, start).segs)))
  }

  // ---------------------------------------------------------------- the pass

  ghost function Prior(names: seq<string>, p: Parsed): seq<Taking>
    requires p.segs != []
  {
    Takings(names, Front(RunEnds(p.segs)))
  }

  ghost function Pending(names: seq<string>, p: Parsed): Option<Taking>
    requires p.segs != []
  {
    Answer(Slots(names, Prior(names, p)), Last(p.segs).name, Last(p.segs).blanks)
  }

  lemma AllTakings(names: seq<string>, p: Parsed)
    requires p.segs != []
    ensures Takings(names, RunEnds(p.segs)) == Prior(names, p) + AsSeq(Pending(names, p))
  {
  }

  lemma AfterPackage(names: seq<string>, p: Parsed, v: string)
    requires p.segs != []
    ensures var p' := Feed(p, PackageIs(v));
      && Pending(names, p').None?
      && Prior(names, p') == Prior(names, p) + if Last(p.segs).name == v then [] else AsSeq(Pending(names, p))
  {
    var p' := Feed(p, PackageIs(v));
    assert Front(p'.segs) == p.segs;
    var ends := RunEnds(p.segs);
    assert Front(RunEnds(p'.segs)) == if Last(p.segs).name == v then Front(ends) else ends;
  }

  lemma AfterBlank(names: seq<string>, p: Parsed)
    requires p.segs != []
    ensures var p' := Feed(p, Blank);
      var last := Last(p.segs);
      && Last(p'.segs) == last.(blanks := last.blanks + [p.fields])
      && Prior(names, p') == Prior(names, p)
      && var found := FirstOpen(Slots(names, Prior(names, p)), if last.blanks == [] then last.name else "");
         Pending(names, p') == if found.Some? then Some(Taking(found.value, p.fields)) else Pending(names, p)
  {
    var p', last := Feed(p, Blank), Last(p.segs);
    assert Front(p'.segs) == Front(p.segs) && Last(p'.segs) == last.(blanks := last.blanks + [p.fields]);
    assert Front(RunEnds(p'.segs)) == Front(RunEnds(p.segs));
    assert (last.blanks + [p.fields])[..|last.blanks|] == last.blanks;
  }

  lemma ParseNext(lines: seq<string>, k: nat, checksumField: string, start: Fields)
    requires k < |lines|
    ensures Parse(lines[..k + 1], checksumField, start) ==
            Feed(Parse(lines[..k], checksumField, start), Classify(lines[k], checksumField))
  {
    assert lines[..k + 1][..k] == lines[..k];
  }

  ghost predicate AllClosed<T>(slots: seq<Option<T>>) {
    forall i :: 0 <= i < |slots| ==> slots[i].None?
  }

  lemma NothingPending(names: seq<string>, p: Parsed)
    requires p.segs != [] && AllClosed(Slots(names, Prior(names, p)))
    ensures Pending(names, p).None?
  {
  }

  lemma StaysClosed(names: seq<string>, p: Parsed, line: Line)
    requires p.segs != [] && AllClosed(Slots(names, Prior(names, p)))
    ensures Prior(names, Feed(p, line)) == Prior(names, p)
  {
    NothingPending(names, p);
    match line {
      case PackageIs(v) => AfterPackage(names, p, v);
      case Blank => AfterBlank(names, p);
      case _ =>
    }
  }

  /** Once every slot is NULL nothing more is printed: leaving the loop early is
      the same as reading on. */
  lemma {:induction false} Exhausted(names: seq<string>, lines: seq<string>, k: nat, checksumField: string, start: Fields)
    requires k <= |lines|
    requires AllClosed(Slots(names, Prior(names, Parse(lines[..k], checksumField, start))))
    ensures Takings(names, RunEnds(Parse(lines, checksumField, start).segs)) == Prior(names, Parse(lines[..k], checksumField, start))
    decreases |lines| - k
  {
    var p := Parse(lines[..k], checksumField, start);
    if k == |lines| {
      assert lines[..k] == lines;
      AllTakings(names, p);
      NothingPending(names, p);
    } else {
      assert lines[..k + 1][..k] == lines[..k];
      StaysClosed(names, p, Classify(lines[k], checksumField));
      Exhausted(names, lines, k + 1, checksumField, start);
    }
  }

  lemma FileTakings(names: seq<string>, lines: seq<string>, k: nat, checksumField: string, start: Fields)
    requires k <= |lines|
    requires k == |lines| || AllClosed(Slots(names, Prior(names, Parse(lines[..k], checksumField, start))))
    ensures var p := Parse(lines[..k], checksumField, start);
      Takings(names, RunEnds(Parse(lines, checksumField, start).segs)) == Prior(names, p) + AsSeq(Pending(names, p))
  {
    var p := Parse(lines[..k], checksumField, start);
    if k == |lines| {
      assert lines[..k] == lines;
      AllTakings(names, p);
    } else {
      Exhausted(names, lines, k, checksumField, start);
      NothingPending(names, p);
    }
  }

  lemma RenderedMore(mirror: string, taken: seq<Taking>, t: Taking)
    ensures Rendered(mirror, taken + [t]) == Rendered(mirror, taken) + [Render(mirror, t.fields)]
  {
  }

  lemma SlotsMore(names: seq<string>, taken: seq<Taking>, t: Taking)
    requires t.slot < |names|
    ensures Slots(names, taken + [t]) == Slots(names, taken)[t.slot := None]
  {
    var more := taken + [t];
    assert more[|taken|] == t;
    forall i: nat | i < |names| ensures IsTaken(more, i) <==> IsTaken(taken, i) || i == t.slot {
      if IsTaken(taken, i) {
        var k :| 0 <= k < |taken| && taken[k].slot == i;
        assert more[k].slot == i;
      }
    }
  }

  /** The classification of one line, by the chain of comparisons of the loop. */
  method ReadLine(s: string, checksumField: string) returns (line: Line)
    ensures line == Classify(s, checksumField)
  {
    var v := FieldCopy(s);
    if StartsWith(s, "Package:") {
      line := PackageIs(v);
    } else if StartsWith(s, "Version:") {
      line := VersionIs(v);
    } else if StartsWith(s, "Architecture:") {
      line := ArchitectureIs(v);
    } else if StartsWith(s, "Size:") {
      line := SizeIs(v);
    } else if StartsWith(s, checksumField + ":") {
      line := ChecksumIs(v);
    } else if StartsWith(s, "Filename:") {
      line := FilenameIs(v);
    } else {
      line := if s == "" then Blank else Other;
    }
  }

  /** The search at a blank line. */
  method Search(pkgs: array<Option<string>>, field: string) returns (found: Option<nat>, any: bool)
    ensures found == FirstOpen(pkgs[..], field)
    ensures !any <==> AllClosed(pkgs[..])
  {
    any := false;
    for i := 0 to pkgs.Length
      invariant forall j :: 0 <= j < i ==> pkgs[j] != Some(field)
      invariant any <==> exists j :: 0 <= j < i && pkgs[j].Some?
    {
      if pkgs[i].Some? {
        any := true;
        if pkgs[i].value == field {
          assert pkgs[..][i].Some?;
          return Some(i), any;
        }
      }
    }
    found := None;
    assert forall j :: 0 <= j < pkgs.Length ==> pkgs[..][j] == pkgs[j];
  }

  /** The variables of dopkgmirrorpkgs in unique mode. */
  class Pass {
    const mirror: string
    const names: seq<string>
    const pkgs: array<Option<string>>
    var cur: Fields
    var curField: string
    var prevPkg: string
    var output: Option<string>
    var outputPkg: int
    var printed: seq<string>

    constructor (mirror: string, names: seq<string>, start: Fields)
      ensures this.mirror == mirror && this.names == names && fresh(pkgs)
      ensures At(Parsed([Segment("", [])], start))
    {
      this.mirror, this.names := mirror, names;
      pkgs := new Option<string>[|names|](i requires 0 <= i < |names| => Some(names[i]));
      cur, curField, prevPkg := start, "", "";
      output, outputPkg, printed := None, -1, [];
      new;
      assert pkgs[..] == Slots(names, []);
    }

    /** The pending answer is in the output variables, earlier ones are printed and
        their slots NULL. */
    ghost predicate Holds(prior: seq<Taking>, pending: Option<Taking>)
      reads this, pkgs
    {
      && pkgs[..] == Slots(names, prior) && printed == Rendered(mirror, prior)
      && match pending
         case None => output.None? && outputPkg == -1
         case Some(t) => t.slot < |names| && output == Some(Render(mirror, t.fields)) && outputPkg == t.slot
    }

    ghost predicate At(p: Parsed)
      reads this, pkgs
    {
      && p.segs != [] && cur == p.fields
      && Holds(Prior(names, p), Pending(names, p))
      && prevPkg == Last(p.segs).name
      && curField == if Last(p.segs).blanks == [] then prevPkg else ""
    }

    /** Printing the pending answer and setting its slot to NULL. */
    method Flush(ghost prior: seq<Taking>, ghost pending: Option<Taking>)
      requires Holds(prior, pending)
      modifies this`printed, this`output, this`outputPkg, pkgs
      ensures Holds(prior + AsSeq(pending), None)
    {
      if output.Some? {
        printed := printed + [output.value];
        RenderedMore(mirror, prior, pending.value);
      }
      if outputPkg != -1 {
        SlotsMore(names, prior, pending.value);
        pkgs[outputPkg] := None;
      } else {
        assert prior + AsSeq(pending) == prior;
      }
      output, outputPkg := None, -1;
    }

    method TakePackage(v: string, ghost p: Parsed)
      requires At(p)
      modifies this, pkgs
      ensures At(Feed(p, PackageIs(v)))
    {
      AfterPackage(names, p, v);
      cur, curField := cur.(pkg := v), v;
      if v != prevPkg {
        Flush(Prior(names, p), Pending(names, p));
        prevPkg := v;
      }
      output, outputPkg := None, -1;
    }

    /** The search at a blank line, for the field read since the last one. */
    method Match(ghost prior: seq<Taking>, ghost was: Option<Taking>) returns (any: bool)
      requires Holds(prior, was)
      modifies this`output, this`outputPkg
      ensures !any <==> AllClosed(pkgs[..])
      ensures var found := FirstOpen(Slots(names, prior), curField);
        Holds(prior, if found.Some? then Some(Taking(found.value, cur)) else was)
    {
      var found;
      found, any := Search(pkgs, curField);
      if found.Some? {
        output, outputPkg := Some(Render(mirror, cur)), found.value;
      }
    }

    method TakeBlank(ghost p: Parsed) returns (any: bool)
      requires At(p)
      modifies this
      ensures At(Feed(p, Blank)) && (!any <==> AllClosed(pkgs[..]))
    {
      AfterBlank(names, p);
      any := Match(Prior(names, p), Pending(names, p));
      curField := "";
    }

    /** A line that only sets a field. */
    method TakeField(line: Line, ghost p: Parsed)
      requires At(p) && !line.PackageIs? && !line.Blank?
      modifies this`cur
      ensures At(Feed(p, line))
    {
      match line {
        case VersionIs(v) => cur := cur.(ver := v);
        case ArchitectureIs(v) => cur := cur.(arch := v);
        case SizeIs(v) => cur := cur.(size := v);
        case ChecksumIs(v) => cur := cur.(checksum := v);
        case FilenameIs(v) => cur := cur.(filename := v);
        case Other =>
      }
    }

    /** The loop over what was not found. */
    method PrintMissing(ghost taken: seq<Taking>)
      requires pkgs[..] == Slots(names, taken)
      modifies this`printed
      ensures printed == old(printed) + Missing(names, taken, |names|)
    {
      for i := 0 to pkgs.Length
        invariant |names| == pkgs.Length && printed == old(printed) + Missing(names, taken, i)
      {
        assert pkgs[i] == pkgs[..][i];
        if pkgs[i].Some? {
          printed := printed + [NotFound(pkgs[i].value)];
        }
      }
    }

    method Take(line: Line, ghost p: Parsed) returns (stop: bool)
      requires At(p)
      modifies this, pkgs
      ensures At(Feed(p, line)) && (stop ==> AllClosed(pkgs[..]))
    {
      stop := false;
      match line {
        case PackageIs(v) =>
          TakePackage(v, p);
        case Blank =>
          var any := TakeBlank(p);
          stop := !any;
        case _ =>
          TakeField(line, p);
      }
    }

    /** The loop over the file, which stops when every slot is NULL. */
    method ReadFile(lines: seq<string>, checksumField: string)
      requires At(Parsed([Segment("", [])], cur))
      modifies this, pkgs
      ensures Holds(Takings(names, RunEnds(Parse(lines, checksumField, old(cur)).segs)), None)
    {
      ghost var start := cur;
      ghost var p := Parse([], checksumField, start);
      var k, stop := 0, false;
      while k < |lines| && !stop
        invariant k <= |lines| && p == Parse(lines[..k], checksumField, start) && At(p)
        invariant stop ==> AllClosed(pkgs[..])
      {
        var line := ReadLine(lines[k], checksumField);
        stop := Take(line, p);
        ParseNext(lines, k, checksumField, start);
        p := Feed(p, line);
        k := k + 1;
      }
      FileTakings(names, lines, k, checksumField, start);
      Finish(p);
    }

    /** After the file the pending answer is printed too. */
    method Finish(ghost p: Parsed)
      requires At(p)
      modifies this`printed, this`output, this`outputPkg, pkgs
      ensures Holds(Prior(names, p) + AsSeq(Pending(names, p)), None)
    {
      Flush(Prior(names, p), Pending(names, p));
    }
  }

  /** dopkgmirrorpkgs in unique mode, from whatever the size and checksum buffers held. */
  method MirrorPackages(mirror: string, names: seq<string>, lines: seq<string>, checksumField: string, size0: string, checksum0: string)
    returns (printed: seq<string>)
    ensures printed == Extract(mirror, names, lines, checksumField, Fields("", "", "", "", checksum0, size0))
  {
    var start := Fields("", "", "", "", checksum0, size0);
    var pass := new Pass(mirror, names, start);
    pass.ReadFile(lines, checksumField);
    pass.PrintMissing(Takings(names, RunEnds(Parse(lines, checksumField, start).segs)));
    printed := pass.printed;
  }

  // ---------------------------------------------------------------- the arguments

  /** What one call leaves unset: the checksum and the size buffer. */
  function Start(buffers: (string, string)): Fields {
    Fields("", "", "", "", buffers.0, buffers.1)
  }

  /** The calls of main from number c on, and what they print together. */
  function Chunked<S, T>(args: seq<S>, call: (seq<S>, nat) -> seq<T>, c: nat): seq<T> {
    if |args| <= MAX_PKGS then call(args, c) else call(args[..MAX_PKGS], c) + Chunked(args[MAX_PKGS..], call, c + 1)
  }

  /** Call number c reads the same file, from its own uninitialized buffers. */
  function ExtractCall(mirror: string, lines: seq<string>, checksumField: string, stack: nat -> (string, string)):
    (seq<string>, nat) -> seq<string>
  {
    (names: seq<string>, c: nat) => Extract(mirror, names, lines, checksumField, Start(stack(c)))
  }

  lemma ChunkNext<S, T>(args: seq<S>, call: (seq<S>, nat) -> seq<T>, printed: seq<T>, i: nat, c: nat, part: seq<T>)
    requires |args| - i > MAX_PKGS && part == call(args[i..i + MAX_PKGS], c)
    ensures printed + Chunked(args[i..], call, c) == printed + part + Chunked(args[i + MAX_PKGS..], call, c + 1)
  {
    assert args[i..][..MAX_PKGS] == args[i..i + MAX_PKGS] && args[i..][MAX_PKGS..] == args[i + MAX_PKGS..];
  }

  method MirrorCall(mirror: string, names: seq<string>, lines: seq<string>, checksumField: string,
                    stack: nat -> (string, string), c: nat)
    returns (printed: seq<string>)
    ensures printed == ExtractCall(mirror, lines, checksumField, stack)(names, c)
  {
    printed := MirrorPackages(mirror, names, lines, checksumField, stack(c).1, stack(c).0);
    assert Start(stack(c)) == Fields("", "", "", "", stack(c).0, stack(c).1);
    assert ExtractCall(mirror, lines, checksumField, stack)(names, c) == Extract(mirror, names, lines, checksumField, Start(stack(c)));
  }

  /** The PKGS branch of main, over the arguments from the fourth on. */
  method PrintPackages(mirror: string, args: seq<string>, lines: seq<string>, checksumField: string, stack: nat -> (string, string))
    returns (printed: seq<string>)
    ensures printed == Chunked(args, ExtractCall(mirror, lines, checksumField, stack), 0)
  {
    printed := [];
    var i, c := 0, 0;
    var part;
    ghost var call := ExtractCall(mirror, lines, checksumField, stack);
    while |args| - i > MAX_PKGS
      invariant i <= |args|
      invariant printed + Chunked(args[i..], call, c) == Chunked(args, call, 0)
    {
      part := MirrorCall(mirror, args[i..i + MAX_PKGS], lines, checksumField, stack, c);
      ChunkNext(args, call, printed, i, c, part);
      printed := printed + part;
      i, c := i + MAX_PKGS, c + 1;
    }
    part := MirrorCall(mirror, args[i..], lines, checksumField, stack, c);
    printed := printed + part;
  }
}

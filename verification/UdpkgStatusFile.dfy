/** The status file of udpkg: reading it into a tree, and merging processed
    packages back into it line by line (packages/udpkg/status.c). A file is the
    sequence of its lines. */
module UdpkgStatusFile {
  import opened Wrappers
  import opened UdpkgStatusWords

  // ---------------------------------------------------------------------
  // Lines

  datatype Field = Blank | PackageIs(value: string) | StatusIs(value: string) | ProvidesIs(value: string) | Other

  const PACKAGE := "Package: "
  const STATUS := "Status: "
  const PROVIDES := "Provides: "

  function Classify(line: string): Field {
    if line == "" then Blank
    else if PACKAGE <= line then PackageIs(line[|PACKAGE|..])
    else if STATUS <= line then StatusIs(line[|STATUS|..])
    else if PROVIDES <= line then ProvidesIs(line[|PROVIDES|..])
    else Other
  }

  lemma ClassifyFields(value: string)
    ensures Classify(PACKAGE + value) == PackageIs(value)
    ensures Classify(STATUS + value) == StatusIs(value)
    ensures Classify(PROVIDES + value) == ProvidesIs(value)
    ensures PACKAGE == "Package: " && STATUS == "Status: " && PROVIDES == "Provides: "
  {
    assert (PROVIDES + value)[0] == 'P' && (PROVIDES + value)[1] == 'r' && (PROVIDES + value)[|PROVIDES|..] == value;
    assert (PACKAGE + value)[|PACKAGE|..] == value;
    assert (STATUS + value)[0] == 'S';
    assert (STATUS + value)[|STATUS|..] == value;
  }

  // ---------------------------------------------------------------------
  // Reading

  datatype Stanza = Stanza(package: Option<string>, status: StatusBits, provided: Option<string>)

  const NO_STANZA := Stanza(None, {}, None)

  function Absorb(m: Stanza, line: string): Stanza {
    match Classify(line)
    case PackageIs(value) => m.(package := Some(value))
    case StatusIs(value) => m.(status := ParseStatus(value).Value())
    case ProvidesIs(value) => m.(provided := Some(value))
    case _ => m
  }

  /** The number of lines up to and including the next blank one. */
  function StanzaLength(lines: seq<string>): (n: nat)
    ensures n <= |lines| && (lines != [] ==> n > 0)
  {
    if lines == [] then 0 else if lines[0] == "" then 1 else 1 + StanzaLength(lines[1..])
  }

  function ReadInto(m: Stanza, lines: seq<string>): Stanza
    decreases |lines|
  {
    if lines == [] || lines[0] == "" then m else ReadInto(Absorb(m, lines[0]), lines[1..])
  }

  function Stanzas(lines: seq<string>): seq<Stanza> {
    if lines == [] then []
    else [ReadInto(NO_STANZA, lines)] + Stanzas(lines[StanzaLength(lines)..])
  }

  datatype Entry = Entry(status: StatusBits, isReal: bool)
  type Tree = map<string, Entry>

  /** A real package replaces what is there; what it provides is only added. */
  function Insert(tree: Tree, m: Stanza): Tree {
    if m.package.None? then tree
    else
      var tree' := tree[m.package.value := Entry(m.status, true)];
      if m.provided.Some? && m.provided.value !in tree' then tree'[m.provided.value := Entry(m.status, false)] else tree'
  }

  function TreeFrom(tree: Tree, stanzas: seq<Stanza>): Tree
    decreases |stanzas|
  {
    if stanzas == [] then tree else TreeFrom(Insert(tree, stanzas[0]), stanzas[1..])
  }

  /** control_read, from a position in the file. */
  method ControlRead(lines: seq<string>, from: nat) returns (m: Stanza, next: nat)
    requires from <= |lines|
    ensures m == ReadInto(NO_STANZA, lines[from..])
    ensures next == from + StanzaLength(lines[from..])
  {
    m, next := NO_STANZA, from;
    while next < |lines|
      invariant from <= next <= |lines|
      invariant ReadInto(NO_STANZA, lines[from..]) == ReadInto(m, lines[next..])
      invariant from + StanzaLength(lines[from..]) == next + StanzaLength(lines[next..])
    {
      assert lines[next..][1..] == lines[next + 1..];
      if lines[next] == "" {
        return m, next + 1;
      }
      m := Absorb(m, lines[next]);
      next := next + 1;
    }
  }

  /** The body of the loop of status_read. */
  method InsertStanza(tree: Tree, m: Stanza) returns (tree': Tree)
    ensures tree' == Insert(tree, m)
  {
    tree' := tree;
    if m.package.Some? {
      tree' := tree' - {m.package.value};                            // tdelete
      tree' := tree'[m.package.value := Entry(m.status, true)];      // tsearch
      assert tree' == tree[m.package.value := Entry(m.status, true)];
      if m.provided.Some? && m.provided.value !in tree' {
        tree' := tree'[m.provided.value := Entry(m.status, false)];
      }
    }
  }

  lemma StanzasStep(lines: seq<string>, at: nat)
    requires at < |lines|
    ensures var next := at + StanzaLength(lines[at..]);
      next <= |lines| && Stanzas(lines[at..]) == [ReadInto(NO_STANZA, lines[at..])] + Stanzas(lines[next..])
  {
    assert lines[at..][StanzaLength(lines[at..])..] == lines[at + StanzaLength(lines[at..])..];
  }

  /** status_read. */
  method StatusRead(lines: seq<string>) returns (tree: Tree)
    ensures tree == TreeFrom(map[], Stanzas(lines))
  {
    tree := map[];
    var at := 0;
    while at < |lines|
      invariant 0 <= at <= |lines|
      invariant TreeFrom(map[], Stanzas(lines)) == TreeFrom(tree, Stanzas(lines[at..]))
      decreases |lines| - at
    {
      var m, next := ControlRead(lines, at);
      StanzasStep(lines, at);
      tree := InsertStanza(tree, m);
      at := next;
    }
  }

  // ---------------------------------------------------------------------
  // What the tree holds

  /** The status of the last stanza of a package. */
  function LastReal(stanzas: seq<Stanza>, name: string): Option<StatusBits> {
    if stanzas == [] then None
    else
      var later := LastReal(stanzas[1..], name);
      if later.Some? then later
      else if stanzas[0].package == Some(name) then Some(stanzas[0].status) else None
  }

  /** The status of the first package that provides a name. */
  function FirstProvider(stanzas: seq<Stanza>, name: string): Option<StatusBits> {
    if stanzas == [] then None
    else if stanzas[0].package.Some? && stanzas[0].provided == Some(name) then Some(stanzas[0].status)
    else FirstProvider(stanzas[1..], name)
  }

  function Lookup(tree: Tree, name: string): Option<Entry> {
    if name in tree then Some(tree[name]) else None
  }

  /** A real package wins over what others provide, whatever the order. */
  lemma {:induction false} TreeMeaning(tree: Tree, stanzas: seq<Stanza>, name: string)
    ensures Lookup(TreeFrom(tree, stanzas), name) ==
      if LastReal(stanzas, name).Some? then Some(Entry(LastReal(stanzas, name).value, true))
      else if name in tree then Some(tree[name])
      else if FirstProvider(stanzas, name).Some? then Some(Entry(FirstProvider(stanzas, name).value, false))
      else None
    decreases |stanzas|
  {
    if stanzas != [] {
      TreeMeaning(Insert(tree, stanzas[0]), stanzas[1..], name);
    }
  }

  // ---------------------------------------------------------------------
  // Well-formed files

  predicate IsBody(line: string) {
    Classify(line).Other? || Classify(line).ProvidesIs?
  }

  /** A stanza that starts with its Package line and has one Status line. */
  datatype Block = Block(name: string, before: seq<string>, statusText: string, after: seq<string>) {
    predicate Valid() {
      && (forall i :: 0 <= i < |before| ==> IsBody(before[i]))
      && (forall i :: 0 <= i < |after| ==> IsBody(after[i]))
      && !ParseStatus(statusText).Crash?
    }

    function Lines(): seq<string> {
      [PACKAGE + name] + before + [STATUS + statusText] + after + [""]
    }

    function Status(): StatusBits {
      ParseStatus(statusText).Value()
    }
  }

  predicate AllValid(blocks: seq<Block>) {
    forall i :: 0 <= i < |blocks| ==> blocks[i].Valid()
  }

  function Render(blocks: seq<Block>): seq<string> {
    if blocks == [] then [] else blocks[0].Lines() + Render(blocks[1..])
  }

  /** The status of the last block of that name. */
  function StatusIn(blocks: seq<Block>, name: string): Option<StatusBits> {
    if blocks == [] then None
    else
      var later := StatusIn(blocks[1..], name);
      if later.Some? then later else if blocks[0].name == name then Some(blocks[0].Status()) else None
  }

  /** The line begins with "Provides: ". */
  predicate SaysProvides(line: string) {
    |line| >= 10 && line[0] == 'P' && line[1] == 'r' && line[..10] == "Provides: "
  }

  /** What the last "Provides: " line of some lines says. */
  function ProvidedBy(lines: seq<string>): Option<string> {
    if lines == [] then None
    else
      var last := lines[|lines| - 1];
      if SaysProvides(last) then Some(last[10..]) else ProvidedBy(lines[..|lines| - 1])
  }

  function Or(a: Option<string>, b: Option<string>): Option<string> {
    if a.Some? then a else b
  }

  lemma BodyLine(line: string)
    requires IsBody(line)
    ensures Classify(line) == if SaysProvides(line) then ProvidesIs(line[10..]) else Other
  {
    assert |PROVIDES| == 10;
    if PROVIDES <= line {
      assert line[..10] == PROVIDES && line[0] == PROVIDES[0] && line[1] == PROVIDES[1];
    }
    if SaysProvides(line) {
      assert PACKAGE[1] == 'a' && STATUS[0] == 'S';
    }
  }

  lemma {:induction false} ProvidedByTwo(a: seq<string>, b: seq<string>)
    ensures ProvidedBy(a + b) == Or(ProvidedBy(b), ProvidedBy(a))
  {
    if b == [] {
      assert a + b == a;
    } else {
      ProvidedByTwo(a, b[..|b| - 1]);
      assert (a + b)[..|a + b| - 1] == a + b[..|b| - 1];
    }
  }

  lemma ProvidedByFirst(lines: seq<string>)
    requires lines != []
    ensures ProvidedBy(lines) == Or(ProvidedBy(lines[1..]), if SaysProvides(lines[0]) then Some(lines[0][10..]) else None)
  {
    ProvidedByTwo([lines[0]], lines[1..]);
    assert [lines[0]] + lines[1..] == lines;
    assert [lines[0]][..0] == [];
  }

  lemma {:induction false} ReadBody(m: Stanza, body: seq<string>, rest: seq<string>)
    requires forall i :: 0 <= i < |body| ==> IsBody(body[i])
    ensures ReadInto(m, body + rest) == ReadInto(m.(provided := Or(ProvidedBy(body), m.provided)), rest)
    ensures StanzaLength(body + rest) == |body| + StanzaLength(rest)
    decreases |body|
  {
    if body == [] {
      assert body + rest == rest;
    } else {
      assert IsBody(body[0]);
      assert (body + rest)[1..] == body[1..] + rest;
      BodyLine(body[0]);
      ReadBody(Absorb(m, body[0]), body[1..], rest);
      ProvidedByFirst(body);
    }
  }

  lemma ReadPieces(head: string, before: seq<string>, status: string, after: seq<string>, rest: seq<string>)
    requires Classify(head).PackageIs? && Classify(status).StatusIs?
    requires forall i :: 0 <= i < |before| ==> IsBody(before[i])
    requires forall i :: 0 <= i < |after| ==> IsBody(after[i])
    ensures var all := [head] + (before + ([status] + (after + ([""] + rest))));
      && StanzaLength(all) == |before| + |after| + 3
      && ReadInto(NO_STANZA, all) ==
         Stanza(Some(Classify(head).value), ParseStatus(Classify(status).value).Value(), Or(ProvidedBy(after), ProvidedBy(before)))
  {
    var end := [""] + rest;
    var fromStatus := [status] + (after + end);
    var all := [head] + (before + fromStatus);
    assert all[1..] == before + fromStatus && fromStatus[1..] == after + end;
    var m1 := Absorb(NO_STANZA, head);
    ReadBody(m1, before, fromStatus);
    var m2 := Absorb(m1.(provided := ProvidedBy(before)), status);
    ReadBody(m2, after, end);
  }

  /** Reading a block gives its name, its status and what it provides, and stops at its
      end. */
  lemma ReadBlock(b: Block, rest: seq<string>)
    requires b.Valid()
    ensures StanzaLength(b.Lines() + rest) == |b.Lines()|
    ensures ReadInto(NO_STANZA, b.Lines() + rest) == Stanza(Some(b.name), b.Status(), ProvidedBy(b.before + b.after))
  {
    ClassifyFields(b.name);
    ClassifyFields(b.statusText);
    var head, status := PACKAGE + b.name, STATUS + b.statusText;
    ReadPieces(head, b.before, status, b.after, rest);
    ProvidedByTwo(b.before, b.after);
    BlockPieces(b);
    PiecesThen([head], b.before, [status], b.after + [""], rest);
    Associate(b.after, [""], rest);
  }

  /** The status of the first block with a "Provides: " line of that name. */
  function ProviderIn(blocks: seq<Block>, name: string): Option<StatusBits> {
    if blocks == [] then None
    else if ProvidedBy(blocks[0].before + blocks[0].after) == Some(name) then Some(blocks[0].Status())
    else ProviderIn(blocks[1..], name)
  }

  lemma {:induction false} ReadProviders(blocks: seq<Block>, name: string)
    requires AllValid(blocks)
    ensures FirstProvider(Stanzas(Render(blocks)), name) == ProviderIn(blocks, name)
  {
    if blocks != [] {
      var b, rest := blocks[0], Render(blocks[1..]);
      ReadBlock(b, rest);
      ReadProviders(blocks[1..], name);
      assert (b.Lines() + rest)[|b.Lines()|..] == rest;
      assert Stanzas(Render(blocks))[1..] == Stanzas(rest);
    }
  }

  /** The tree of a well-formed file: a name has the status of its last block, or else
      that of the first block that provides it, and is not there without either. */
  lemma ReadTree(blocks: seq<Block>, name: string)
    requires AllValid(blocks)
    ensures Lookup(TreeFrom(map[], Stanzas(Render(blocks))), name) ==
      if StatusIn(blocks, name).Some? then Some(Entry(StatusIn(blocks, name).value, true))
      else if ProviderIn(blocks, name).Some? then Some(Entry(ProviderIn(blocks, name).value, false))
      else None
  {
    TreeMeaning(map[], Stanzas(Render(blocks)), name);
    ReadBlocks(blocks, name);
    ReadProviders(blocks, name);
  }

  lemma {:induction false} ReadBlocks(blocks: seq<Block>, name: string)
    requires AllValid(blocks)
    ensures LastReal(Stanzas(Render(blocks)), name) == StatusIn(blocks, name)
  {
    if blocks != [] {
      var b, rest := blocks[0], Render(blocks[1..]);
      ReadBlock(b, rest);
      ReadBlocks(blocks[1..], name);
      assert (b.Lines() + rest)[|b.Lines()|..] == rest;
      var stanzas := Stanzas(Render(blocks));
      assert stanzas[1..] == Stanzas(rest);
    }
  }

  // ---------------------------------------------------------------------
  // Merging

  /** A package that udpkg has processed: body are its other fields as printed. */
  datatype Processed = Processed(name: string, status: StatusBits, body: seq<string>) {
    function AsBlock(): Block {
      Block(name, [], PrintStatus(status), body)
    }
  }

  predicate AllBodies(pkgs: seq<Processed>) {
    forall i, j :: 0 <= i < |pkgs| && 0 <= j < |pkgs[i].body| ==> IsBody(pkgs[i].body[j])
  }

  predicate Has(pkgs: seq<Processed>, name: string) {
    exists i :: 0 <= i < |pkgs| && pkgs[i].name == name
  }

  function Blocks(pkgs: seq<Processed>): (r: seq<Block>)
    ensures |r| == |pkgs| && forall i :: 0 <= i < |r| ==> r[i] == pkgs[i].AsBlock()
  {
    seq(|pkgs|, i requires 0 <= i < |pkgs| => pkgs[i].AsBlock())
  }

  /** The loop of status_merge: skip says whether the current package is one of the
      processed ones, stat is its cached status. */
  datatype MergeState = MergeState(skip: bool, stat: Option<StatusBits>)

  function NextState(tree: Tree, pkgs: seq<Processed>, s: MergeState, line: string): MergeState {
    match Classify(line)
    case PackageIs(name) => MergeState(Has(pkgs, name), if name in tree then Some(tree[name].status) else None)
    case _ => s
  }

  /** What is written for a line, given the state after looking at it. */
  function Written(s: MergeState, line: string): seq<string> {
    if s.skip then []
    else if Classify(line).StatusIs? && s.stat.Some? then [STATUS + PrintStatus(s.stat.value)]
    else [line]
  }

  function MergeFrom(tree: Tree, pkgs: seq<Processed>, s: MergeState, lines: seq<string>): seq<string>
    decreases |lines|
  {
    if lines == [] then []
    else
      var s' := NextState(tree, pkgs, s, lines[0]);
      Written(s', lines[0]) + MergeFrom(tree, pkgs, s', lines[1..])
  }

  const START := MergeState(false, None)

  function Merge(tree: Tree, pkgs: seq<Processed>, lines: seq<string>): seq<string> {
    MergeFrom(tree, pkgs, START, lines) + Render(Blocks(pkgs))
  }

  /** One line of the loop of status_merge. */
  method MergeLine(tree: Tree, pkgs: seq<Processed>, s: MergeState, line: string) returns (s': MergeState, written: seq<string>)
    ensures s' == NextState(tree, pkgs, s, line) && written == Written(s', line)
  {
    s' := s;
    var field := Classify(line);
    if field.PackageIs? {
      var k := 0;
      while k < |pkgs| && pkgs[k].name != field.value
        invariant 0 <= k <= |pkgs| && forall j :: 0 <= j < k ==> pkgs[j].name != field.value
      {
        k := k + 1;
      }
      s' := MergeState(k < |pkgs|, if field.value in tree then Some(tree[field.value].status) else None);
    }
    if s'.skip {
      return s', [];
    }
    written := [if field.StatusIs? && s'.stat.Some? then STATUS + PrintStatus(s'.stat.value) else line];
  }

  /** status_merge. */
  method StatusMerge(tree: Tree, pkgs: seq<Processed>, lines: seq<string>) returns (out: seq<string>)
    ensures out == Merge(tree, pkgs, lines)
  {
    out := [];
    var s := START;
    for i := 0 to |lines|
      invariant MergeFrom(tree, pkgs, START, lines) == out + MergeFrom(tree, pkgs, s, lines[i..])
    {
      assert lines[i..][1..] == lines[i + 1..];
      var written;
      s, written := MergeLine(tree, pkgs, s, lines[i]);
      Associate(out, written, MergeFrom(tree, pkgs, s, lines[i + 1..]));
      out := out + written;
    }
    out := AppendProcessed(pkgs, out);
  }

  method AppendProcessed(pkgs: seq<Processed>, out: seq<string>) returns (out': seq<string>)
    ensures out' == out + Render(Blocks(pkgs))
  {
    out' := out;
    var blocks := Blocks(pkgs);
    for i := 0 to |pkgs|
      invariant out + Render(blocks) == out' + Render(blocks[i..])
    {
      assert blocks[i..][1..] == blocks[i + 1..];
      out' := out' + pkgs[i].AsBlock().Lines();
    }
  }

  // ---------------------------------------------------------------------
  // What a merge does to the packages of a file

  function Restatus(tree: Tree, b: Block): Block {
    if b.name in tree then b.(statusText := PrintStatus(tree[b.name].status)) else b
  }

  /** The blocks that stay, with the cached status. */
  function Kept(tree: Tree, pkgs: seq<Processed>, blocks: seq<Block>): seq<Block> {
    if blocks == [] then []
    else (if Has(pkgs, blocks[0].name) then [] else [Restatus(tree, blocks[0])]) + Kept(tree, pkgs, blocks[1..])
  }

  function Merged(tree: Tree, pkgs: seq<Processed>, blocks: seq<Block>): seq<Block> {
    Kept(tree, pkgs, blocks) + Blocks(pkgs)
  }

  lemma {:induction false} MergeBody(tree: Tree, pkgs: seq<Processed>, s: MergeState, body: seq<string>, rest: seq<string>)
    requires forall i :: 0 <= i < |body| ==> IsBody(body[i]) || body[i] == ""
    ensures MergeFrom(tree, pkgs, s, body + rest) == (if s.skip then [] else body) + MergeFrom(tree, pkgs, s, rest)
  {
    if body == [] {
      assert body + rest == rest;
    } else {
      assert (body + rest)[1..] == body[1..] + rest && body == [body[0]] + body[1..];
      assert IsBody(body[0]) || body[0] == "";
      MergeBody(tree, pkgs, s, body[1..], rest);
      Associate([body[0]], body[1..], MergeFrom(tree, pkgs, s, rest));
    }
  }

  lemma Associate(a: seq<string>, b: seq<string>, c: seq<string>)
    ensures a + (b + c) == (a + b) + c
  {
  }

  /** A head line, a body, a status line and a tail, whatever they look like. */
  lemma MergePieces(tree: Tree, pkgs: seq<Processed>, s: MergeState, head: string, before: seq<string>, status: string,
                    tail: seq<string>, rest: seq<string>)
    requires Classify(head).PackageIs? && Classify(status).StatusIs?
    requires forall i :: 0 <= i < |before| ==> IsBody(before[i])
    requires forall i :: 0 <= i < |tail| ==> IsBody(tail[i]) || tail[i] == ""
    ensures var s' := NextState(tree, pkgs, s, head);
      MergeFrom(tree, pkgs, s, [head] + (before + ([status] + (tail + rest)))) ==
      (if s'.skip then [] else [head] + (before + (Written(s', status) + tail))) + MergeFrom(tree, pkgs, s', rest)
  {
    var s' := NextState(tree, pkgs, s, head);
    var fromStatus := [status] + (tail + rest);
    assert ([head] + (before + fromStatus))[1..] == before + fromStatus && fromStatus[1..] == tail + rest;
    MergeBody(tree, pkgs, s', before, fromStatus);
    MergeBody(tree, pkgs, s', tail, rest);
    var end := MergeFrom(tree, pkgs, s', rest);
    assert !s'.skip ==> MergeFrom(tree, pkgs, s', fromStatus) == Written(s', status) + (tail + end);
    assert !s'.skip ==> [head] + (before + (Written(s', status) + (tail + end))) == [head] + (before + (Written(s', status) + tail)) + end;
  }

  lemma BlockPieces(b: Block)
    ensures b.Lines() == [PACKAGE + b.name] + (b.before + ([STATUS + b.statusText] + (b.after + [""])))
  {
  }

  lemma PiecesThen(head: seq<string>, before: seq<string>, status: seq<string>, tail: seq<string>, rest: seq<string>)
    ensures head + (before + (status + tail)) + rest == head + (before + (status + (tail + rest)))
  {
  }

  lemma MergeBlock(tree: Tree, pkgs: seq<Processed>, s: MergeState, b: Block, rest: seq<string>) returns (s': MergeState)
    requires b.Valid()
    ensures MergeFrom(tree, pkgs, s, b.Lines() + rest) ==
      (if Has(pkgs, b.name) then [] else Restatus(tree, b).Lines()) + MergeFrom(tree, pkgs, s', rest)
  {
    ClassifyFields(b.name);
    ClassifyFields(b.statusText);
    var head, status, tail := PACKAGE + b.name, STATUS + b.statusText, b.after + [""];
    s' := NextState(tree, pkgs, s, head);
    BlockPieces(b);
    PiecesThen([head], b.before, [status], tail, rest);
    MergePieces(tree, pkgs, s, head, b.before, status, tail, rest);
    BlockPieces(Restatus(tree, b));
  }

  /** Line by line or block by block: the result is the same. */
  lemma {:induction false} MergeBlocks(tree: Tree, pkgs: seq<Processed>, s: MergeState, blocks: seq<Block>)
    requires AllValid(blocks)
    ensures MergeFrom(tree, pkgs, s, Render(blocks)) == Render(Kept(tree, pkgs, blocks))
    decreases |blocks|
  {
    if blocks != [] {
      var s' := MergeBlock(tree, pkgs, s, blocks[0], Render(blocks[1..]));
      MergeBlocks(tree, pkgs, s', blocks[1..]);
      if Has(pkgs, blocks[0].name) {
        assert Kept(tree, pkgs, blocks) == Kept(tree, pkgs, blocks[1..]);
      } else {
        assert Kept(tree, pkgs, blocks)[1..] == Kept(tree, pkgs, blocks[1..]);
      }
    }
  }

  lemma {:induction false} RenderConcat(a: seq<Block>, b: seq<Block>)
    ensures Render(a + b) == Render(a) + Render(b)
  {
    if a == [] {
      assert a + b == b;
    } else {
      RenderConcat(a[1..], b);
      assert (a + b)[1..] == a[1..] + b;
      Associate(a[0].Lines(), Render(a[1..]), Render(b));
    }
  }

  lemma {:induction false} KeptIsValid(tree: Tree, pkgs: seq<Processed>, blocks: seq<Block>)
    requires AllValid(blocks)
    ensures AllValid(Kept(tree, pkgs, blocks))
  {
    if blocks != [] {
      KeptIsValid(tree, pkgs, blocks[1..]);
      if blocks[0].name in tree {
        StatusRoundTripIff(tree[blocks[0].name].status);
      }
    }
  }

  /** A merge turns a well-formed file into a well-formed file. */
  lemma MergeIsWellFormed(tree: Tree, pkgs: seq<Processed>, blocks: seq<Block>)
    requires AllValid(blocks) && AllBodies(pkgs)
    ensures AllValid(Merged(tree, pkgs, blocks))
    ensures Merge(tree, pkgs, Render(blocks)) == Render(Merged(tree, pkgs, blocks))
  {
    KeptIsValid(tree, pkgs, blocks);
    MergeBlocks(tree, pkgs, START, blocks);
    RenderConcat(Kept(tree, pkgs, blocks), Blocks(pkgs));
    forall i | 0 <= i < |pkgs| ensures Blocks(pkgs)[i].Valid() {
      StatusRoundTripIff(pkgs[i].status);
    }
  }

  /** What a status is after it has been written and read again. */
  function Reread(bits: StatusBits): StatusBits {
    ParseStatus(PrintStatus(bits)).Value()
  }

  /** The status of the last processed package of that name. */
  function StatusOf(pkgs: seq<Processed>, name: string): Option<StatusBits> {
    if pkgs == [] then None
    else
      var later := StatusOf(pkgs[1..], name);
      if later.Some? then later else if pkgs[0].name == name then Some(pkgs[0].status) else None
  }

  /** The processed status, else the cached one, else the old one. */
  function MergedStatus(tree: Tree, pkgs: seq<Processed>, old': Option<StatusBits>, name: string): Option<StatusBits> {
    if StatusOf(pkgs, name).Some? then Some(Reread(StatusOf(pkgs, name).value))
    else if old'.Some? && name in tree then Some(Reread(tree[name].status))
    else old'
  }

  lemma {:induction false} StatusInKept(tree: Tree, pkgs: seq<Processed>, blocks: seq<Block>, name: string)
    ensures StatusIn(Kept(tree, pkgs, blocks), name) ==
      if Has(pkgs, name) then None
      else if StatusIn(blocks, name).Some? && name in tree then Some(Reread(tree[name].status))
      else StatusIn(blocks, name)
  {
    if blocks != [] {
      StatusInKept(tree, pkgs, blocks[1..], name);
      if !Has(pkgs, blocks[0].name) {
        assert Kept(tree, pkgs, blocks)[1..] == Kept(tree, pkgs, blocks[1..]);
      } else {
        assert Kept(tree, pkgs, blocks) == Kept(tree, pkgs, blocks[1..]);
      }
    }
  }

  lemma {:induction false} StatusInConcat(a: seq<Block>, b: seq<Block>, name: string)
    ensures StatusIn(a + b, name) == if StatusIn(b, name).Some? then StatusIn(b, name) else StatusIn(a, name)
  {
    if a == [] {
      assert a + b == b;
    } else {
      StatusInConcat(a[1..], b, name);
      assert (a + b)[1..] == a[1..] + b;
    }
  }

  lemma {:induction false} StatusInBlocks(pkgs: seq<Processed>, name: string)
    ensures StatusIn(Blocks(pkgs), name) == if StatusOf(pkgs, name).Some? then Some(Reread(StatusOf(pkgs, name).value)) else None
    ensures StatusOf(pkgs, name).Some? <==> Has(pkgs, name)
  {
    if pkgs != [] {
      StatusInBlocks(pkgs[1..], name);
      assert Blocks(pkgs)[1..] == Blocks(pkgs[1..]);
      assert Has(pkgs, name) <==> pkgs[0].name == name || Has(pkgs[1..], name) by {
        if Has(pkgs, name) && pkgs[0].name != name {
          var i :| 0 <= i < |pkgs| && pkgs[i].name == name;
          assert pkgs[1..][i - 1].name == name;
        }
      }
    }
  }

  lemma StatusInMerged(tree: Tree, pkgs: seq<Processed>, blocks: seq<Block>, name: string)
    ensures StatusIn(Merged(tree, pkgs, blocks), name) == MergedStatus(tree, pkgs, StatusIn(blocks, name), name)
  {
    StatusInConcat(Kept(tree, pkgs, blocks), Blocks(pkgs), name);
    StatusInKept(tree, pkgs, blocks, name);
    StatusInBlocks(pkgs, name);
  }

  /** Reading back what a merge has written. */
  lemma ReadBack(tree: Tree, pkgs: seq<Processed>, blocks: seq<Block>, name: string)
    requires AllValid(blocks) && AllBodies(pkgs)
    ensures LastReal(Stanzas(Merge(tree, pkgs, Render(blocks))), name) ==
            MergedStatus(tree, pkgs, LastReal(Stanzas(Render(blocks)), name), name)
  {
    MergeIsWellFormed(tree, pkgs, blocks);
    ReadBlocks(Merged(tree, pkgs, blocks), name);
    ReadBlocks(blocks, name);
    StatusInMerged(tree, pkgs, blocks, name);
  }

  // ---------------------------------------------------------------------
  // The text of a merge

  /** What is printed for a processed package: its name, its status, its other fields,
      and a blank line. */
  lemma ProcessedText(p: Processed)
    ensures p.AsBlock().Lines() == ["Package: " + p.name, "Status: " + PrintStatus(p.status)] + p.body + [""]
  {
    ClassifyFields(p.name);
  }

  /** All of a stanza but its status, which is the cached one where there is one. */
  predicate Rewritten(tree: Tree, was: Block, b: Block) {
    && b.name == was.name && b.before == was.before && b.after == was.after
    && b.statusText == if b.name in tree then PrintStatus(tree[b.name].status) else was.statusText
  }

  /** A stanza that is not processed is kept with all its lines but the status. */
  lemma {:induction false} KeptText(tree: Tree, pkgs: seq<Processed>, blocks: seq<Block>, k: nat) returns (i: nat)
    requires k < |blocks| && !Has(pkgs, blocks[k].name)
    ensures i < |Kept(tree, pkgs, blocks)| && Rewritten(tree, blocks[k], Kept(tree, pkgs, blocks)[i])
  {
    if k == 0 {
      i := 0;
    } else {
      i := KeptText(tree, pkgs, blocks[1..], k - 1);
      i := i + |Kept(tree, pkgs, blocks)| - |Kept(tree, pkgs, blocks[1..])|;
    }
  }

  lemma {:induction false} ProvidedSomewhere(blocks: seq<Block>, k: nat, name: string)
    requires k < |blocks| && ProvidedBy(blocks[k].before + blocks[k].after) == Some(name)
    ensures ProviderIn(blocks, name).Some?
  {
    if k > 0 {
      ProvidedSomewhere(blocks[1..], k - 1, name);
    }
  }
}

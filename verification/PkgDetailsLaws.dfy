/** What the lines printed by the PKGS mode of packages/base-installer/pkgdetails.c
    mean, for every file and every list of requests. */
module PkgDetailsLaws {
  import opened Wrappers
  import opened PkgDetails

  // ---------------------------------------------------------------- one line per slot

  ghost predicate OneEach(names: seq<string>, taken: seq<Taking>) {
    && (forall k :: 0 <= k < |taken| ==> taken[k].slot < |names|)
    && (forall k, l :: 0 <= k < l < |taken| ==> taken[k].slot != taken[l].slot)
  }

  /** What answers a slot, if anything. */
  function TakenFor(taken: seq<Taking>, slot: nat): (f: Option<Fields>)
    ensures f.Some? <==> IsTaken(taken, slot)
  {
    if taken == [] then
      None
    else
      var last := |taken| - 1;
      if taken[last].slot == slot then
        Some(taken[last].fields)
      else
        assert IsTaken(taken, slot) ==> IsTaken(taken[..last], slot);
        TakenFor(taken[..last], slot)
  }

  function LineOf(mirror: string, name: string, answer: Option<Fields>): string {
    if answer.Some? then Render(mirror, answer.value) else NotFound(name)
  }

  function Lines(mirror: string, names: seq<string>, taken: seq<Taking>): (lines: seq<string>)
    ensures |lines| == |names|
  {
    seq(|names|, i requires 0 <= i < |names| => LineOf(mirror, names[i], TakenFor(taken, i)))
  }

  lemma {:induction false} TakingsOneEach(names: seq<string>, ends: seq<Segment>)
    ensures OneEach(names, Takings(names, ends))
  {
    if ends != [] {
      TakingsOneEach(names, Front(ends));
    }
  }

  lemma LackMore(names: seq<string>, taken: seq<Taking>, t: Taking, i: nat)
    requires i < |names|
    ensures Lack(names, taken + [t], i) == if i == t.slot then [] else Lack(names, taken, i)
    ensures !IsTaken(taken, i) ==> Lack(names, taken, i) == [NotFound(names[i])]
  {
    TakenMore(taken, t, i);
  }

  lemma {:induction false} MissingSame(names: seq<string>, taken: seq<Taking>, t: Taking, n: nat)
    requires n <= t.slot < |names|
    ensures Missing(names, taken + [t], n) == Missing(names, taken, n)
  {
    if n > 0 {
      MissingSame(names, taken, t, n - 1);
      LackMore(names, taken, t, n - 1);
    }
  }

  lemma {:induction false} MissingLess(names: seq<string>, taken: seq<Taking>, t: Taking, n: nat)
    returns (pre: seq<string>, post: seq<string>)
    requires t.slot < n <= |names| && !IsTaken(taken, t.slot)
    ensures Missing(names, taken, n) == pre + [NotFound(names[t.slot])] + post
    ensures Missing(names, taken + [t], n) == pre + post
  {
    LackMore(names, taken, t, n - 1);
    if n - 1 == t.slot {
      MissingSame(names, taken, t, n - 1);
      pre, post := Missing(names, taken, n - 1), [];
    } else {
      var line := [NotFound(names[t.slot])];
      var lack := Lack(names, taken, n - 1);
      pre, post := MissingLess(names, taken, t, n - 1);
      ThenLack(pre, line, post, lack);
      post := post + lack;
    }
  }

  lemma ThenLack<T>(pre: seq<T>, line: seq<T>, post: seq<T>, lack: seq<T>)
    ensures pre + line + post + lack == pre + line + (post + lack)
    ensures pre + post + lack == pre + (post + lack)
  {
  }

  lemma TakenMore(taken: seq<Taking>, t: Taking, i: nat)
    ensures IsTaken(taken + [t], i) <==> IsTaken(taken, i) || i == t.slot
  {
    var more := taken + [t];
    assert more[|taken|] == t;
    if IsTaken(taken, i) {
      var k :| 0 <= k < |taken| && taken[k].slot == i;
      assert more[k].slot == i;
    }
  }

  lemma Replace<T>(a: seq<T>, pre: seq<T>, post: seq<T>, lines: seq<T>, i: nat, x: T)
    requires i < |lines| && multiset(a + (pre + [lines[i]] + post)) == multiset(lines)
    ensures multiset(a + [x] + (pre + post)) == multiset(lines[i := x])
  {
  }

  lemma LinesMore(mirror: string, names: seq<string>, taken: seq<Taking>, t: Taking)
    requires t.slot < |names|
    ensures Lines(mirror, names, taken + [t]) == Lines(mirror, names, taken)[t.slot := Render(mirror, t.fields)]
  {
    assert (taken + [t])[..|taken|] == taken;
  }

  lemma {:induction false} NothingTaken(mirror: string, names: seq<string>, n: nat)
    requires n <= |names|
    ensures Missing(names, [], n) == Lines(mirror, names, [])[..n]
  {
    if n > 0 {
      NothingTaken(mirror, names, n - 1);
    }
  }

  /** The output is the slots' lines in some order. */
  lemma {:induction false} OutputIsLines(mirror: string, names: seq<string>, taken: seq<Taking>)
    requires OneEach(names, taken)
    ensures multiset(Output(mirror, names, taken)) == multiset(Lines(mirror, names, taken))
  {
    if taken == [] {
      NothingTaken(mirror, names, |names|);
      assert Output(mirror, names, taken) == Lines(mirror, names, taken);
    } else {
      var prior, t := taken[..|taken| - 1], taken[|taken| - 1];
      assert taken == prior + [t];
      OutputIsLines(mirror, names, prior);
      RenderedMore(mirror, prior, t);
      var pre, post := MissingLess(names, prior, t, |names|);
      LinesMore(mirror, names, prior, t);
      assert Lines(mirror, names, prior)[t.slot] == NotFound(names[t.slot]);
      Replace(Rendered(mirror, prior), pre, post, Lines(mirror, names, prior), t.slot, Render(mirror, t.fields));
    }
  }

  // ---------------------------------------------------------------- which run answers

  predicate EndsRun(segs: seq<Segment>, i: nat)
    requires i < |segs|
  {
    i + 1 == |segs| || segs[i + 1].name != segs[i].name
  }

  function Item(s: Segment, name: string): seq<Fields> {
    if s.name == name && s.blanks != [] then [s.blanks[0]] else []
  }

  /** The fields at the first blank line of each run of the name that has one after
      its last "Package:" line, for the runs that end below k. */
  function Runs(segs: seq<Segment>, name: string, k: nat): seq<Fields>
    requires k <= |segs|
  {
    if k == 0 then [] else Runs(segs, name, k - 1) + if EndsRun(segs, k - 1) then Item(segs[k - 1], name) else []
  }

  /** How many earlier slots ask for a name. */
  function Earlier<T(==)>(names: seq<T>, name: T, k: nat): nat
    requires k <= |names|
  {
    if k == 0 then 0 else Earlier(names, name, k - 1) + if names[k - 1] == name then 1 else 0
  }

  function At(records: seq<Fields>, k: nat): Option<Fields> {
    if k < |records| then Some(records[k]) else None
  }

  /** The answer a slot should get: the n-th request of a name gets its n-th run. */
  function Wanted(names: seq<string>, segs: seq<Segment>, slot: nat): Option<Fields>
    requires slot < |names|
  {
    At(Runs(segs, names[slot], |segs|), Earlier(names, names[slot], slot))
  }

  function Items(ends: seq<Segment>, name: string): seq<Fields> {
    if ends == [] then [] else Items(Front(ends), name) + Item(Last(ends), name)
  }

  lemma {:induction false} RunsStable(segs: seq<Segment>, s: Segment, name: string, k: nat)
    requires k < |segs|
    ensures Runs(segs + [s], name, k) == Runs(segs, name, k)
  {
    if k > 0 {
      RunsStable(segs, s, name, k - 1);
    }
  }

  lemma RunsFront(front: seq<Segment>, s: Segment, name: string)
    requires front != []
    ensures Runs(front + [s], name, |front|) ==
            Runs(front, name, |front| - 1) + if Last(front).name == s.name then [] else Item(Last(front), name)
  {
    RunsStable(front, s, name, |front| - 1);
    assert EndsRun(front + [s], |front| - 1) <==> Last(front).name != s.name;
  }

  /** Keeping the run ends on the way is picking them afterwards. */
  lemma {:induction false} ItemsFront(segs: seq<Segment>, name: string)
    requires segs != []
    ensures Items(Front(RunEnds(segs)), name) == Runs(segs, name, |segs| - 1)
  {
    if |segs| > 1 {
      var front, ends := Front(segs), RunEnds(Front(segs));
      ItemsFront(front, name);
      RunsFront(front, Last(segs), name);
      assert segs == front + [Last(segs)];
      assert Front(RunEnds(segs)) == if Last(front).name == Last(segs).name then Front(ends) else ends;
    }
  }

  lemma ItemsAreRuns(segs: seq<Segment>, name: string)
    requires segs != []
    ensures Items(RunEnds(segs), name) == Runs(segs, name, |segs|)
  {
    ItemsFront(segs, name);
    assert EndsRun(segs, |segs| - 1);
  }

  lemma {:induction false} EarlierGrows<T>(names: seq<T>, i: nat, j: nat)
    requires i < j < |names| && names[i] == names[j]
    ensures Earlier(names, names[i], i) < Earlier(names, names[j], j)
  {
    if i + 1 < j {
      EarlierBelow(names, names[i], i + 1, j);
    }
  }

  lemma {:induction false} EarlierBelow<T>(names: seq<T>, name: T, i: nat, j: nat)
    requires i <= j <= |names|
    ensures Earlier(names, name, i) <= Earlier(names, name, j)
  {
    if i < j {
      EarlierBelow(names, name, i, j - 1);
    }
  }

  /** Every smaller count belongs to an earlier slot. */
  lemma {:induction false} EarlierSlot<T>(names: seq<T>, name: T, k: nat, c: nat) returns (i: nat)
    requires k <= |names| && c < Earlier(names, name, k)
    ensures i < k && names[i] == name && Earlier(names, name, i) == c
  {
    if Earlier(names, name, k - 1) == c {
      i := k - 1;
    } else {
      i := EarlierSlot(names, name, k - 1, c);
    }
  }

  /** Without an empty request only the first blank line of a segment matters. */
  lemma {:induction false} PlainAnswer(slots: seq<Option<string>>, name: string, blanks: seq<Fields>)
    requires Some("") !in slots
    ensures Answer(slots, name, blanks) ==
            if blanks == [] || FirstOpen(slots, name).None? then None else Some(Taking(FirstOpen(slots, name).value, blanks[0]))
  {
    if |blanks| > 1 {
      PlainAnswer(slots, name, blanks[..|blanks| - 1]);
    }
  }

  ghost predicate Matches(names: seq<string>, ends: seq<Segment>, taken: seq<Taking>) {
    forall i :: 0 <= i < |names| ==>
      TakenFor(taken, i) == At(Items(ends, names[i]), Earlier(names, names[i], i))
  }

  /** The first open slot of a name is the one that waits for the next run. */
  lemma FirstOpenIsNext(names: seq<string>, ends: seq<Segment>, taken: seq<Taking>, name: string)
    requires Matches(names, ends, taken)
    ensures var found := FirstOpen(Slots(names, taken), name);
      forall i :: 0 <= i < |names| && names[i] == name ==>
        (found == Some(i) <==> Earlier(names, name, i) == |Items(ends, name)|)
  {
    var slots := Slots(names, taken);
    OpenSlots(names, ends, taken, name);
    forall i | 0 <= i < |names| && names[i] == name
      ensures FirstOpen(slots, name) == Some(i) <==> Earlier(names, name, i) == |Items(ends, name)|
    {
      NextSlot(names, slots, |Items(ends, name)|, i);
    }
  }

  lemma OpenSlots(names: seq<string>, ends: seq<Segment>, taken: seq<Taking>, name: string)
    requires Matches(names, ends, taken)
    ensures var slots := Slots(names, taken);
      && (forall j :: 0 <= j < |slots| && slots[j].Some? ==> slots[j].value == names[j])
      && (forall j :: 0 <= j < |slots| && names[j] == name ==> (slots[j].Some? <==> Earlier(names, name, j) >= |Items(ends, name)|))
  {
    forall j | 0 <= j < |names| && names[j] == name
      ensures IsTaken(taken, j) <==> Earlier(names, name, j) < |Items(ends, name)|
    {
      assert TakenFor(taken, j) == At(Items(ends, names[j]), Earlier(names, names[j], j));
    }
  }

  lemma NextSlot<T>(names: seq<T>, slots: seq<Option<T>>, c: nat, i: nat)
    requires i < |names| == |slots|
    requires forall j :: 0 <= j < |slots| && slots[j].Some? ==> slots[j].value == names[j]
    requires forall j :: 0 <= j < |slots| && names[j] == names[i] ==> (slots[j].Some? <==> Earlier(names, names[i], j) >= c)
    ensures FirstOpen(slots, names[i]) == Some(i) <==> Earlier(names, names[i], i) == c
  {
    var found, e := FirstOpen(slots, names[i]), Earlier(names, names[i], i);
    if found == Some(i) {
      if e > c {
        var j := EarlierSlot(names, names[i], i, c);
        assert false;
      }
    } else if e == c {
      assert slots[i] == Some(names[i]);
      EarlierGrows(names, found.value, i);
      assert false;
    }
  }

  lemma {:induction false} TakingsMatch(names: seq<string>, ends: seq<Segment>)
    requires "" !in names
    ensures Matches(names, ends, Takings(names, ends))
  {
    if ends != [] {
      var front, e := Front(ends), Last(ends);
      var prior := Takings(names, front);
      TakingsMatch(names, front);
      var slots := Slots(names, prior);
      PlainAnswer(slots, e.name, e.blanks);
      FirstOpenIsNext(names, front, prior, e.name);
      MatchesMore(names, front, e, prior);
    }
  }

  lemma MatchesMore(names: seq<string>, front: seq<Segment>, e: Segment, prior: seq<Taking>)
    requires Matches(names, front, prior)
    requires var found := FirstOpen(Slots(names, prior), e.name);
      forall i :: 0 <= i < |names| && names[i] == e.name ==>
        (found == Some(i) <==> Earlier(names, e.name, i) == |Items(front, e.name)|)
    ensures var found := FirstOpen(Slots(names, prior), e.name);
      Matches(names, front + [e],
              prior + AsSeq(if e.blanks == [] || found.None? then None else Some(Taking(found.value, e.blanks[0]))))
  {
    var found := FirstOpen(Slots(names, prior), e.name);
    var more := AsSeq(if e.blanks == [] || found.None? then None else Some(Taking(found.value, e.blanks[0])));
    var ends := front + [e];
    assert Front(ends) == front;
    forall i | 0 <= i < |names|
      ensures TakenFor(prior + more, i) == At(Items(ends, names[i]), Earlier(names, names[i], i))
    {
      if more == [] {
        assert prior + more == prior;
      } else {
        assert (prior + more)[..|prior|] == prior;
      }
    }
  }

  /** The whole law: the lines printed are, in some order, one line per slot, and the
      n-th request of a name is answered by the last stanza of its n-th run. */
  lemma ExtractIsWanted(mirror: string, names: seq<string>, lines: seq<string>, checksumField: string, start: Fields)
    requires "" !in names
    ensures multiset(Extract(mirror, names, lines, checksumField, start)) ==
            multiset(WantedLines(mirror, names, lines, checksumField, start))
  {
    var segs := Parse(lines, checksumField, start).segs;
    var ends := RunEnds(segs);
    var taken := Takings(names, ends);
    TakingsOneEach(names, ends);
    OutputIsLines(mirror, names, taken);
    TakingsMatch(names, ends);
    forall i | 0 <= i < |names|
      ensures Lines(mirror, names, taken)[i] == WantedLines(mirror, names, lines, checksumField, start)[i]
    {
      ItemsAreRuns(segs, names[i]);
    }
    assert Lines(mirror, names, taken) == WantedLines(mirror, names, lines, checksumField, start);
  }

  function WantedLines(mirror: string, names: seq<string>, lines: seq<string>, checksumField: string, start: Fields): (wanted: seq<string>)
    ensures |wanted| == |names|
  {
    var segs := Parse(lines, checksumField, start).segs;
    seq(|names|, i requires 0 <= i < |names| => LineOf(mirror, names[i], Wanted(names, segs, i)))
  }

  // ---------------------------------------------------------------- any request list

  /** Whatever is requested, each slot has its line. */
  lemma ExtractIsOneEach(mirror: string, names: seq<string>, lines: seq<string>, checksumField: string, start: Fields)
    ensures var taken := Takings(names, RunEnds(Parse(lines, checksumField, start).segs));
      && multiset(Extract(mirror, names, lines, checksumField, start)) == multiset(Lines(mirror, names, taken))
      && |Extract(mirror, names, lines, checksumField, start)| == |names|
  {
    var ends := RunEnds(Parse(lines, checksumField, start).segs);
    var taken := Takings(names, ends);
    TakingsOneEach(names, ends);
    OutputIsLines(mirror, names, taken);
    assert |multiset(Output(mirror, names, taken))| == |Output(mirror, names, taken)|;
    assert |multiset(Lines(mirror, names, taken))| == |Lines(mirror, names, taken)|;
  }

  /** The fields come from a blank line of a run's last segment: its first one when the
      request is the name, a later one only when the request is empty. */
  lemma {:induction false} AnswerMeaning(slots: seq<Option<string>>, name: string, blanks: seq<Fields>)
    requires Answer(slots, name, blanks).Some?
    ensures var t := Answer(slots, name, blanks).value;
      exists b :: 0 <= b < |blanks| && t.fields == blanks[b] && slots[t.slot] == Some(if b == 0 then name else "")
  {
    var n := |blanks| - 1;
    if FirstOpen(slots, if n == 0 then name else "").None? {
      AnswerMeaning(slots, name, blanks[..n]);
    }
  }

  lemma {:induction false} TakingMeaning(names: seq<string>, ends: seq<Segment>, k: nat)
    requires k < |Takings(names, ends)|
    ensures var t := Takings(names, ends)[k];
      t.slot < |names| &&
      exists e, b :: 0 <= e < |ends| && 0 <= b < |ends[e].blanks| && t.fields == ends[e].blanks[b] &&
        names[t.slot] == if b == 0 then ends[e].name else ""
  {
    var front, last := Front(ends), Last(ends);
    var prior := Takings(names, front);
    if k < |prior| {
      TakingMeaning(names, front, k);
      var e, b :| 0 <= e < |front| && 0 <= b < |front[e].blanks| && prior[k].fields == front[e].blanks[b] &&
        names[prior[k].slot] == if b == 0 then front[e].name else "";
      assert ends[e] == front[e];
    } else {
      AnswerMeaning(Slots(names, prior), last.name, last.blanks);
      assert ends[|ends| - 1] == last;
    }
  }

  /** The fields kept with a segment carry its own name. */
  lemma {:induction false} SegmentFields(lines: seq<string>, checksumField: string, start: Fields)
    requires start.pkg == ""
    ensures var p := Parse(lines, checksumField, start);
      && p.fields.pkg == Last(p.segs).name
      && forall i, b :: 0 <= i < |p.segs| && 0 <= b < |p.segs[i].blanks| ==> p.segs[i].blanks[b].pkg == p.segs[i].name
  {
    if lines != [] {
      SegmentFields(lines[..|lines| - 1], checksumField, start);
    }
  }

  // ---------------------------------------------------------------- chunks of arguments

  /** The wanted lines of one call. */
  function WantedCall(mirror: string, lines: seq<string>, checksumField: string, stack: nat -> (string, string)):
    (want: (seq<string>, nat) -> seq<string>)
    ensures forall names, c :: |want(names, c)| == |names|
  {
    var want := (names: seq<string>, c: nat) => WantedLines(mirror, names, lines, checksumField, Start(stack(c)));
    assert forall names, c :: want(names, c) == WantedLines(mirror, names, lines, checksumField, Start(stack(c)));
    want
  }

  /** Where the arguments of call q begin. */
  function Offset(q: nat): nat {
    if q == 0 then 0 else MAX_PKGS + Offset(q - 1)
  }

  /** The arguments of call q. */
  function Chunk<T>(args: seq<T>, q: nat): (chunk: seq<T>)
    requires Offset(q) < |args|
    ensures 0 < |chunk| <= MAX_PKGS
  {
    if q > 0 then Chunk(args[MAX_PKGS..], q - 1) else if |args| <= MAX_PKGS then args else args[..MAX_PKGS]
  }

  /** The calls take a hundred arguments each, and the last one the rest, in order. */
  lemma {:induction false} ChunkMeaning<T>(args: seq<T>, q: nat, r: nat)
    requires Offset(q) < |args| && r < |Chunk(args, q)|
    ensures Offset(q) == 100 * q
    ensures |Chunk(args, q)| == if |args| - Offset(q) > 100 then 100 else |args| - Offset(q)
    ensures Offset(q) + r < |args| && Chunk(args, q)[r] == args[Offset(q) + r]
    decreases q
  {
    if q > 0 {
      ChunkMeaning(args[MAX_PKGS..], q - 1, r);
    }
  }

  /** Each argument is in one call, at its own place. */
  lemma {:induction false} ChunkAt<T>(args: seq<T>, p: nat) returns (q: nat, r: nat)
    requires p < |args|
    ensures Offset(q) < |args| && r < |Chunk(args, q)| && p == Offset(q) + r && Chunk(args, q)[r] == args[p]
    decreases p
  {
    if p < MAX_PKGS {
      q, r := 0, p;
    } else {
      q, r := ChunkAt(args[MAX_PKGS..], p - MAX_PKGS);
      q := q + 1;
    }
  }

  lemma {:induction false} ChunkedLength<S, T>(args: seq<S>, call: (seq<S>, nat) -> seq<T>, c: nat)
    requires forall chunk, n :: |call(chunk, n)| == |chunk|
    ensures |Chunked(args, call, c)| == |args|
    decreases |args|
  {
    if |args| > MAX_PKGS {
      ChunkedLength(args[MAX_PKGS..], call, c + 1);
    }
  }

  /** The whole has, at an argument's place, what its own call gives it there. */
  lemma {:induction false} ChunkedAt<S, T>(args: seq<S>, call: (seq<S>, nat) -> seq<T>, c: nat, q: nat, r: nat)
    requires forall chunk, n :: |call(chunk, n)| == |chunk|
    requires Offset(q) < |args| && r < |Chunk(args, q)|
    ensures |Chunked(args, call, c)| == |args| && Offset(q) + r < |args|
    ensures Chunked(args, call, c)[Offset(q) + r] == call(Chunk(args, q), c + q)[r]
    decreases q
  {
    ChunkedLength(args, call, c);
    if q > 0 {
      ChunkedAt(args[MAX_PKGS..], call, c + 1, q - 1, r);
      ChunkedLater(args, call, c, Offset(q - 1) + r);
    }
  }

  lemma ChunkedLater<S, T>(args: seq<S>, call: (seq<S>, nat) -> seq<T>, c: nat, p: nat)
    requires forall chunk, n :: |call(chunk, n)| == |chunk|
    requires MAX_PKGS < |args| && p < |Chunked(args[MAX_PKGS..], call, c + 1)|
    ensures MAX_PKGS + p < |Chunked(args, call, c)|
    ensures Chunked(args, call, c)[MAX_PKGS + p] == Chunked(args[MAX_PKGS..], call, c + 1)[p]
  {
  }

  lemma {:induction false} ChunkedPermutes<S, T>(args: seq<S>, call: (seq<S>, nat) -> seq<T>, other: (seq<S>, nat) -> seq<T>, c: nat)
    requires forall chunk, n :: (forall x :: x in chunk ==> x in args) ==> multiset(call(chunk, n)) == multiset(other(chunk, n))
    ensures multiset(Chunked(args, call, c)) == multiset(Chunked(args, other, c))
    decreases |args|
  {
    if |args| > MAX_PKGS {
      ChunkedPermutes(args[MAX_PKGS..], call, other, c + 1);
    }
  }

  /** Every argument gets exactly one line. */
  lemma AllAnswered(mirror: string, args: seq<string>, lines: seq<string>, checksumField: string, stack: nat -> (string, string))
    ensures |Chunked(args, ExtractCall(mirror, lines, checksumField, stack), 0)| == |args|
  {
    var call := ExtractCall(mirror, lines, checksumField, stack);
    forall chunk, n ensures |call(chunk, n)| == |chunk| {
      ExtractIsOneEach(mirror, chunk, lines, checksumField, Start(stack(n)));
    }
    ChunkedLength(args, call, 0);
  }

  /** The lines printed are, in some order, the wanted line of each argument. */
  lemma AllWanted(mirror: string, args: seq<string>, lines: seq<string>, checksumField: string, stack: nat -> (string, string))
    requires "" !in args
    ensures multiset(Chunked(args, ExtractCall(mirror, lines, checksumField, stack), 0)) ==
            multiset(Chunked(args, WantedCall(mirror, lines, checksumField, stack), 0))
  {
    var call, want := ExtractCall(mirror, lines, checksumField, stack), WantedCall(mirror, lines, checksumField, stack);
    forall chunk: seq<string>, n: nat | forall x :: x in chunk ==> x in args
      ensures multiset(call(chunk, n)) == multiset(want(chunk, n))
    {
      ExtractIsWanted(mirror, chunk, lines, checksumField, Start(stack(n)));
    }
    ChunkedPermutes(args, call, want, 0);
  }
}

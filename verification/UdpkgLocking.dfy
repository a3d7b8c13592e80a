/** Several udpkg processes on one status file: unpacking holds the lock from its
    read to its merge, configuring drops it in between
    (packages/udpkg/udpkg.c, packages/udpkg/status.c). */
module UdpkgLocking {
  import opened Wrappers
  import opened UdpkgStatusWords
  import opened UdpkgStatusFile

  /** How far a process is; tree is its cached copy of the status file. */
  datatype Phase =
    | Idle
    | Locked                      // before status_read
    | Caching(tree: Tree)         // has read, still holds the lock
    | Working(tree: Tree)         // configuring, without the lock
    | MergeReady(tree: Tree)      // holds the lock again
    | Merging                     // has merged, still holds the lock
    | Finished

  datatype Process = Process(configures: bool, phase: Phase)

  datatype System = System(file: seq<Block>, lock: Option<nat>, processes: seq<Process>)

  /** What dpkg_doconfigure leaves: nothing done, scripts failed, or installed. */
  datatype Script = AlreadyInstalled | ScriptFailed | Succeeded

  datatype Action =
    | Lock(pid: nat)
    | Unlock(pid: nat)
    | ReadStatus(pid: nat)
    | Configure(pid: nat, name: string, script: Script)
    | MergeStatus(pid: nat, pkgs: seq<Processed>)

  const HALF_CONFIGURED := Bit(2, 2)

  function ConfiguredBits(bits: StatusBits, script: Script): StatusBits {
    var others := set b | b in bits && b < FieldStart(2);
    match script
    case AlreadyInstalled => bits
    case ScriptFailed => others + {HALF_CONFIGURED}
    case Succeeded => others + {STATUS_INSTALLED}
  }

  function ConfigureIn(tree: Tree, name: string, script: Script): Tree {
    if name in tree then tree[name := tree[name].(status := ConfiguredBits(tree[name].status, script))] else tree
  }

  function TreeOf(file: seq<Block>): Tree {
    TreeFrom(map[], Stanzas(Render(file)))
  }

  function SetPhase(s: System, pid: nat, phase: Phase): System
    requires pid < |s.processes|
  {
    s.(processes := s.processes[pid := s.processes[pid].(phase := phase)])
  }

  predicate BodiesOf(a: Action) {
    a.MergeStatus? ==> AllBodies(a.pkgs)
  }

  /** One step of one process. The order of the steps is that of the program;
      only taking the lock has to wait for the others. */
  function Do(s: System, a: Action): System {
    if a.pid >= |s.processes| then s
    else
      var p := s.processes[a.pid];
      match a
      case Lock(pid) =>
        if s.lock.Some? then s
        else if p.phase.Idle? then SetPhase(s, pid, Locked).(lock := Some(pid))
        else if p.phase.Working? then SetPhase(s, pid, MergeReady(p.phase.tree)).(lock := Some(pid))
        else s
      case ReadStatus(pid) =>
        if p.phase.Locked? then SetPhase(s, pid, Caching(TreeOf(s.file))) else s
      case Configure(pid, name, script) =>
        if p.phase.Working? then SetPhase(s, pid, Working(ConfigureIn(p.phase.tree, name, script))) else s
      case MergeStatus(pid, pkgs) =>
        if p.phase.Caching? && !p.configures
        then SetPhase(s, pid, Merging).(file := Merged(p.phase.tree, pkgs, s.file))
        else if p.phase.MergeReady?
        then SetPhase(s, pid, Merging).(file := Merged(p.phase.tree, [], s.file))
        else s
      case Unlock(pid) =>
        if p.phase.Caching? then SetPhase(s, pid, if p.configures then Working(p.phase.tree) else Finished).(lock := None)
        else if p.phase.Merging? then SetPhase(s, pid, Finished).(lock := None)
        else s
  }

  function Run(s: System, actions: seq<Action>): System {
    if actions == [] then s
    else Do(Run(s, actions[..|actions| - 1]), actions[|actions| - 1])
  }

  // ---------------------------------------------------------------------
  // Safety of the lock

  predicate HoldsLock(p: Phase) {
    p.Locked? || p.Caching? || p.MergeReady? || p.Merging?
  }

  /** The lock belongs to the one process between its lock and its unlock; what an
      unpacking process has cached is what the file holds; the file is well formed. */
  ghost predicate Safe(s: System) {
    && AllValid(s.file)
    && (forall i :: 0 <= i < |s.processes| ==> (HoldsLock(s.processes[i].phase) <==> s.lock == Some(i)))
    && (forall i :: 0 <= i < |s.processes| && s.processes[i].phase.Caching? ==> s.processes[i].phase.tree == TreeOf(s.file))
  }

  lemma DoIsSafe(s: System, a: Action)
    requires Safe(s) && BodiesOf(a)
    ensures Safe(Do(s, a))
  {
    if a.MergeStatus? && a.pid < |s.processes| {
      var phase := s.processes[a.pid].phase;
      if phase.Caching? || phase.MergeReady? {
        MergeIsWellFormed(phase.tree, a.pkgs, s.file);
        MergeIsWellFormed(phase.tree, [], s.file);
      }
    }
  }

  lemma {:induction false} RunIsSafe(s: System, actions: seq<Action>)
    requires Safe(s) && forall a :: a in actions ==> BodiesOf(a)
    ensures Safe(Run(s, actions))
  {
    if actions != [] {
      RunIsSafe(s, actions[..|actions| - 1]);
      DoIsSafe(Run(s, actions[..|actions| - 1]), actions[|actions| - 1]);
    }
  }

  // ---------------------------------------------------------------------
  // What becomes of a package

  /** A merge that happens in this state, with the tree and the packages it uses. */
  datatype MergeStep = MergeStep(tree: Tree, pkgs: seq<Processed>)

  function MergeOf(s: System, a: Action): Option<MergeStep> {
    if !a.MergeStatus? || a.pid >= |s.processes| then None
    else
      var p := s.processes[a.pid];
      if p.phase.Caching? && !p.configures then Some(MergeStep(p.phase.tree, a.pkgs))
      else if p.phase.MergeReady? then Some(MergeStep(p.phase.tree, []))
      else None
  }

  lemma DoWrites(s: System, a: Action)
    ensures Do(s, a).file == if MergeOf(s, a).Some? then Merged(MergeOf(s, a).value.tree, MergeOf(s, a).value.pkgs, s.file) else s.file
  {
  }

  lemma FileAfter(s: System, a: Action, name: string)
    ensures StatusIn(Do(s, a).file, name) ==
      match MergeOf(s, a)
      case None => StatusIn(s.file, name)
      case Some(m) => MergedStatus(m.tree, m.pkgs, StatusIn(s.file, name), name)
  {
    DoWrites(s, a);
    if MergeOf(s, a).Some? {
      StatusInMerged(MergeOf(s, a).value.tree, MergeOf(s, a).value.pkgs, s.file, name);
    }
  }

  /** In every interleaving no name is lost. */
  lemma {:induction false} NamesNeverShrink(s: System, actions: seq<Action>, name: string)
    requires StatusIn(s.file, name).Some?
    ensures StatusIn(Run(s, actions).file, name).Some?
  {
    if actions != [] {
      NamesNeverShrink(s, actions[..|actions| - 1], name);
      FileAfter(Run(s, actions[..|actions| - 1]), actions[|actions| - 1], name);
    }
  }

  /** The status given to a name by the last merge of a run that touched it: that
      had the name among its packages, or in its cache. */
  ghost function LastGiven(s: System, actions: seq<Action>, name: string): Option<StatusBits> {
    if actions == [] then StatusIn(s.file, name)
    else
      var init := actions[..|actions| - 1];
      var m := MergeOf(Run(s, init), actions[|actions| - 1]);
      if m.Some? && StatusOf(m.value.pkgs, name).Some? then Some(Reread(StatusOf(m.value.pkgs, name).value))
      else if m.Some? && name in m.value.tree && LastGiven(s, init, name).Some? then Some(Reread(m.value.tree[name].status))
      else LastGiven(s, init, name)
  }

  /** So a package that another process added and that is absent from this process's
      cache keeps the status the other process gave it. */
  lemma {:induction false} StatusIsLastGiven(s: System, actions: seq<Action>, name: string)
    ensures StatusIn(Run(s, actions).file, name) == LastGiven(s, actions, name)
  {
    if actions != [] {
      StatusIsLastGiven(s, actions[..|actions| - 1], name);
      FileAfter(Run(s, actions[..|actions| - 1]), actions[|actions| - 1], name);
    }
  }

  /** A merge leaves the status of a package that it has not processed as it is
      exactly when the package is not cached, or cached with that status. */
  lemma MergeKeepsIff(s: System, a: Action, name: string)
    requires MergeOf(s, a).Some? && StatusIn(s.file, name).Some? && !Has(MergeOf(s, a).value.pkgs, name)
    ensures var tree := MergeOf(s, a).value.tree;
      StatusIn(Do(s, a).file, name) == StatusIn(s.file, name)
      <==> name !in tree || Reread(tree[name].status) == StatusIn(s.file, name).value
  {
    FileAfter(s, a, name);
    StatusInBlocks(MergeOf(s, a).value.pkgs, name);
  }

  lemma {:induction false} ParsedIsNormal(words: seq<seq<string>>, line: string, i: nat)
    requires Table(words) && i <= 3 && ParseFrom(words, line, i).Bits?
    ensures i == 3 ==> ParseFrom(words, line, i).bits == {}
    ensures i == 2 ==> exists s :: 0 <= s < FieldSize(2) && ParseFrom(words, line, i).bits == {Bit(2, s)}
    ensures i == 1 ==> exists f, s :: 0 <= f < FieldSize(1) && 0 <= s < FieldSize(2) && ParseFrom(words, line, i).bits == {Bit(1, f), Bit(2, s)}
    ensures i == 0 ==> OneBitEach(ParseFrom(words, line, i).bits)
    decreases 3 - i
  {
    if i < 3 {
      var k := FirstSpace(line);
      var j := IndexIn(words[i], line[..k]);
      if k < |line| {
        var rest := ParseFrom(words, line[k + 1..], i + 1);
        ParsedIsNormal(words, line[k + 1..], i + 1);
        assert ParseFrom(words, line, i).bits == {Bit(i, j)} + rest.bits;
        if i == 1 {
          var s :| 0 <= s < FieldSize(2) && rest.bits == {Bit(2, s)};
          assert ParseFrom(words, line, i).bits == {Bit(1, j), Bit(2, s)};
        } else if i == 0 {
          var f, s :| 0 <= f < FieldSize(1) && 0 <= s < FieldSize(2) && rest.bits == {Bit(1, f), Bit(2, s)};
          assert ParseFrom(words, line, i).bits == {Bit(0, j), Bit(1, f), Bit(2, s)};
        }
      }
    }
  }

  lemma {:induction false} StatusInIsNormal(blocks: seq<Block>, name: string)
    requires StatusIn(blocks, name).Some?
    ensures Reread(StatusIn(blocks, name).value) == StatusIn(blocks, name).value
  {
    if StatusIn(blocks[1..], name).Some? {
      StatusInIsNormal(blocks[1..], name);
    } else {
      StatusWordsAreTable();
      if ParseStatus(blocks[0].statusText).Bits? {
        ParsedIsNormal(STATUS_WORDS, blocks[0].statusText, 0);
      }
      StatusRoundTripIff(blocks[0].Status());
    }
  }

  /** Unpacking holds the lock throughout, so it changes no other package. */
  lemma UnpackKeepsOthers(s: System, a: Action, name: string)
    requires Safe(s) && BodiesOf(a) && MergeOf(s, a).Some? && !s.processes[a.pid].configures
    requires s.processes[a.pid].phase.Caching? && StatusIn(s.file, name).Some? && !Has(a.pkgs, name)
    ensures StatusIn(Do(s, a).file, name) == StatusIn(s.file, name)
  {
    ReadBlocks(s.file, name);
    TreeMeaning(map[], Stanzas(Render(s.file)), name);
    StatusInIsNormal(s.file, name);
    MergeKeepsIff(s, a, name);
  }

  /** Lock, merge, unlock by one configuring process. */
  function MergeTurn(s: System, pid: nat): System {
    Do(Do(Do(s, Lock(pid)), MergeStatus(pid, [])), Unlock(pid))
  }

  lemma MergeTurnWrites(s: System, pid: nat, name: string)
    requires s.lock.None? && pid < |s.processes| && s.processes[pid].phase.Working?
    ensures var s' := MergeTurn(s, pid);
      && s'.lock.None? && |s'.processes| == |s.processes|
      && (forall i :: 0 <= i < |s.processes| && i != pid ==> s'.processes[i] == s.processes[i])
      && StatusIn(s'.file, name) == MergedStatus(s.processes[pid].phase.tree, [], StatusIn(s.file, name), name)
  {
    FileAfter(Do(s, Lock(pid)), MergeStatus(pid, []), name);
  }

  /** Two configuring processes that have both cached a package: whatever the first
      one to merge has made of it, the second one puts back what it has cached. */
  lemma LastMergeWins(s: System, p: nat, q: nat, name: string)
    requires s.lock.None? && p < |s.processes| && q < |s.processes| && p != q
    requires s.processes[p].phase.Working? && s.processes[q].phase.Working?
    requires StatusIn(s.file, name).Some? && name in s.processes[p].phase.tree && name in s.processes[q].phase.tree
    ensures StatusIn(MergeTurn(s, p).file, name) == Some(Reread(s.processes[p].phase.tree[name].status))
    ensures StatusIn(MergeTurn(MergeTurn(s, p), q).file, name) == Some(Reread(s.processes[q].phase.tree[name].status))
  {
    MergeTurnWrites(s, p, name);
    MergeTurnWrites(MergeTurn(s, p), q, name);
  }

  // ---------------------------------------------------------------------
  // A lost update

  function ReadTurn(pid: nat): seq<Action> {
    [Lock(pid), ReadStatus(pid), Unlock(pid)]
  }

  function WriteTurn(pid: nat): seq<Action> {
    [Lock(pid), MergeStatus(pid, []), Unlock(pid)]
  }

  /** p and q read the file, p configures the package and merges. */
  function UntilFirstMerge(p: nat, q: nat, name: string): seq<Action> {
    ReadTurn(p) + ReadTurn(q) + [Configure(p, name, Succeeded)] + WriteTurn(p)
  }

  lemma {:induction false} RunConcat(s: System, a: seq<Action>, b: seq<Action>)
    ensures Run(s, a + b) == Run(Run(s, a), b)
  {
    if b == [] {
      assert a + b == a;
    } else {
      var front := b[..|b| - 1];
      RunConcat(s, a, front);
      assert (a + b)[..|a + b| - 1] == a + front;
    }
  }

  lemma RunThree(s: System, a: Action, b: Action, c: Action)
    ensures Run(s, [a, b, c]) == Do(Do(Do(s, a), b), c)
  {
    assert [a, b, c][..2] == [a, b] && [a, b][..1] == [a] && [a][..0] == [];
    assert Run(s, [a]) == Do(s, a);
    assert Run(s, [a, b]) == Do(Do(s, a), b);
  }

  /** p and q have read the file and dropped the lock. */
  function BothRead(s: System, p: nat, q: nat): System
    requires p < |s.processes| && q < |s.processes|
  {
    var working := Process(true, Working(TreeOf(s.file)));
    s.(processes := s.processes[p := working][q := working])
  }

  lemma ReadTurnReads(s: System, pid: nat)
    requires s.lock.None? && pid < |s.processes| && s.processes[pid] == Process(true, Idle)
    ensures Run(s, ReadTurn(pid)) == s.(processes := s.processes[pid := Process(true, Working(TreeOf(s.file)))])
  {
    RunThree(s, Lock(pid), ReadStatus(pid), Unlock(pid));
  }

  lemma BothTurnsRead(s: System, p: nat, q: nat)
    requires s.lock.None? && p < |s.processes| && q < |s.processes| && p != q
    requires s.processes[p] == Process(true, Idle) && s.processes[q] == Process(true, Idle)
    ensures Run(s, ReadTurn(p) + ReadTurn(q)) == BothRead(s, p, q)
  {
    RunConcat(s, ReadTurn(p), ReadTurn(q));
    ReadTurnReads(s, p);
    ReadTurnReads(Run(s, ReadTurn(p)), q);
  }

  lemma RunIsTurns(s: System, p: nat, q: nat, name: string)
    ensures var configured := Do(Run(s, ReadTurn(p) + ReadTurn(q)), Configure(p, name, Succeeded));
      && Run(s, UntilFirstMerge(p, q, name)) == MergeTurn(configured, p)
      && Run(s, UntilFirstMerge(p, q, name) + WriteTurn(q)) == MergeTurn(MergeTurn(configured, p), q)
  {
    var turns, one := ReadTurn(p) + ReadTurn(q), [Configure(p, name, Succeeded)];
    RunConcat(s, turns, one);
    assert one[..0] == [];
    assert Run(Run(s, turns), one) == Do(Run(s, turns), one[0]);
    RunConcat(s, turns + one, WriteTurn(p));
    RunThree(Run(s, turns + one), Lock(p), MergeStatus(p, []), Unlock(p));
    RunConcat(s, UntilFirstMerge(p, q, name), WriteTurn(q));
    RunThree(Run(s, UntilFirstMerge(p, q, name)), Lock(q), MergeStatus(q, []), Unlock(q));
  }

  lemma CachedStatus(file: seq<Block>, name: string)
    requires AllValid(file) && StatusIn(file, name).Some?
    ensures name in TreeOf(file) && TreeOf(file)[name].status == StatusIn(file, name).value
  {
    ReadBlocks(file, name);
    TreeMeaning(map[], Stanzas(Render(file)), name);
  }

  /** Two configuring processes that start on the same file, in which a package is
      not installed: after p has merged it is installed, and after q has merged it is
      what it was in the beginning. */
  lemma LostUpdate(s: System, p: nat, q: nat, name: string)
    requires Safe(s) && s.lock.None? && p < |s.processes| && q < |s.processes| && p != q
    requires s.processes[p] == Process(true, Idle) && s.processes[q] == Process(true, Idle)
    requires StatusIn(s.file, name).Some? && OneBitEach(StatusIn(s.file, name).value)
    requires STATUS_INSTALLED !in StatusIn(s.file, name).value
    ensures var first := StatusIn(Run(s, UntilFirstMerge(p, q, name)).file, name);
      first.Some? && STATUS_INSTALLED in first.value
    ensures StatusIn(Run(s, UntilFirstMerge(p, q, name) + WriteTurn(q)).file, name) == StatusIn(s.file, name)
  {
    BothTurnsRead(s, p, q);
    RunIsTurns(s, p, q, name);
    CachedStatus(s.file, name);
    StatusInIsNormal(s.file, name);
    SecondPutsBack(BothRead(s, p, q), p, q, name, StatusIn(s.file, name).value);
  }

  lemma SecondPutsBack(s: System, p: nat, q: nat, name: string, bits: StatusBits)
    requires s.lock.None? && p < |s.processes| && q < |s.processes| && p != q
    requires s.processes[p].phase.Working? && s.processes[q].phase.Working?
    requires name in s.processes[p].phase.tree && s.processes[p].phase.tree[name].status == bits
    requires name in s.processes[q].phase.tree && s.processes[q].phase.tree[name].status == bits
    requires StatusIn(s.file, name).Some? && OneBitEach(bits)
    ensures var configured := Do(s, Configure(p, name, Succeeded));
      && StatusIn(MergeTurn(configured, p).file, name) == Some(Reread(ConfiguredBits(bits, Succeeded)))
      && STATUS_INSTALLED in Reread(ConfiguredBits(bits, Succeeded))
      && StatusIn(MergeTurn(MergeTurn(configured, p), q).file, name) == Some(Reread(bits))
  {
    LastMergeWins(Do(s, Configure(p, name, Succeeded)), p, q, name);
    InstalledStatus(bits);
  }

  lemma InstalledStatus(bits: StatusBits)
    requires OneBitEach(bits)
    ensures STATUS_INSTALLED in Reread(ConfiguredBits(bits, Succeeded))
  {
    var w, f, s :| 0 <= w < FieldSize(0) && 0 <= f < FieldSize(1) && 0 <= s < FieldSize(2)
                   && bits == {Bit(0, w), Bit(1, f), Bit(2, s)};
    assert ConfiguredBits(bits, Succeeded) == {Bit(0, w), Bit(1, f), Bit(2, 3)};
    StatusRoundTripIff(ConfiguredBits(bits, Succeeded));
  }

  lemma OneBlock(name: string, bits: StatusBits, w: nat, f: nat, s: nat)
    requires w < FieldSize(0) && f < FieldSize(1) && s < FieldSize(2) && bits == {Bit(0, w), Bit(1, f), Bit(2, s)}
    ensures OneBitEach(bits)
    ensures var file := [Block(name, [], PrintStatus(bits), [])]; AllValid(file) && StatusIn(file, name) == Some(bits)
  {
    StatusRoundTripIff(bits);
    assert StatusIn([], name) == None;
  }

  /** There is such a file: one package, "install ok unpacked". */
  lemma LostUpdateExample(name: string) returns (unpacked: StatusBits, s: System)
    ensures unpacked == {Bit(0, 1), Bit(1, 0), Bit(2, 1)}
    ensures s == System([Block(name, [], PrintStatus(unpacked), [])], None, [Process(true, Idle), Process(true, Idle)])
    ensures StatusIn(s.file, name) == Some(unpacked)
    ensures var first := StatusIn(Run(s, UntilFirstMerge(0, 1, name)).file, name); first.Some? && STATUS_INSTALLED in first.value
    ensures StatusIn(Run(s, UntilFirstMerge(0, 1, name) + WriteTurn(1)).file, name) == Some(unpacked)
  {
    unpacked := {Bit(0, 1), Bit(1, 0), Bit(2, 1)};
    s := System([Block(name, [], PrintStatus(unpacked), [])], None, [Process(true, Idle), Process(true, Idle)]);
    OneBlock(name, unpacked, 1, 0, 1);
    LostUpdate(s, 0, 1, name);
  }

  // ---------------------------------------------------------------------
  // What the steps write

  /** In words: configuring keeps the want and flag words; the status word becomes number
      2, "half-configured", when a script fails and number 3, "installed", when none does. */
  lemma ConfiguredWords(w: nat, f: nat, s: nat)
    requires w < FieldSize(0) && f < FieldSize(1) && s < FieldSize(2)
    ensures ConfiguredBits({w, 5 + f, 9 + s}, AlreadyInstalled) == {w, 5 + f, 9 + s}
    ensures PrintedAs(ConfiguredBits({w, 5 + f, 9 + s}, ScriptFailed), w, f, 2)
    ensures PrintedAs(ConfiguredBits({w, 5 + f, 9 + s}, Succeeded), w, f, 3)
  {
    ConfiguredSets(w, f, s);
    PrintsAs(ConfiguredBits({w, 5 + f, 9 + s}, ScriptFailed), w, f, 2);
    PrintsAs(ConfiguredBits({w, 5 + f, 9 + s}, Succeeded), w, f, 3);
  }

  lemma PrintsAs(bits: StatusBits, w: nat, f: nat, s: nat)
    requires w < FieldSize(0) && f < FieldSize(1) && s < FieldSize(2) && bits == {w, 5 + f, 9 + s}
    ensures PrintedAs(bits, w, f, s)
  {
    WordsOfBits(w, f, s);
  }

  predicate PrintedAs(bits: StatusBits, w: nat, f: nat, s: nat)
    requires w < FieldSize(0) && f < FieldSize(1) && s < FieldSize(2)
  {
    PrintStatus(bits) == STATUS_WORDS[0][w] + " " + (STATUS_WORDS[1][f] + " " + STATUS_WORDS[2][s])
  }

  lemma ConfiguredSets(w: nat, f: nat, s: nat)
    requires w < 5 && f < 4
    ensures ConfiguredBits({w, 5 + f, 9 + s}, AlreadyInstalled) == {w, 5 + f, 9 + s}
    ensures ConfiguredBits({w, 5 + f, 9 + s}, ScriptFailed) == {w, 5 + f, 9 + 2}
    ensures ConfiguredBits({w, 5 + f, 9 + s}, Succeeded) == {w, 5 + f, 9 + 3}
  {
  }

  /** Lock, read, merge, unlock by one unpacking process: the file is the merge of the
      packages into what it has just read, and the others are where they were. */
  lemma UnpackTurn(s: System, pid: nat, pkgs: seq<Processed>)
    requires s.lock.None? && pid < |s.processes| && s.processes[pid] == Process(false, Idle)
    ensures Run(s, [Lock(pid), ReadStatus(pid), MergeStatus(pid, pkgs)] + [Unlock(pid)]) ==
            System(Merged(TreeOf(s.file), pkgs, s.file), None, s.processes[pid := Process(false, Finished)])
  {
    var three := [Lock(pid), ReadStatus(pid), MergeStatus(pid, pkgs)];
    RunThree(s, Lock(pid), ReadStatus(pid), MergeStatus(pid, pkgs));
    RunConcat(s, three, [Unlock(pid)]);
    assert [Unlock(pid)][..0] == [];
    assert Run(Run(s, three), [Unlock(pid)]) == Do(Run(s, three), Unlock(pid));
  }
}

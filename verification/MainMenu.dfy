/** main-menu's dependency configurator: configuring a package configures what it
    depends on first, and a virtual package through one that provides it
    (packages/main-menu/main-menu.c). */
module MainMenu {
  import opened Wrappers

  const EXIT_OK: int := 0
  const EXIT_BACKUP: int := 10
  const EXIT_INSTALLER: int := 11
  const MAX_DEPTH: nat := 1000

  datatype Kind = Real | Virtual | NonExistent
  datatype Status = Unpacked | HalfConfigured | Installed
  datatype Relation = Depends | ReverseProvides | OtherRelation
  datatype Dependency = Dependency(relation: Relation, target: Package)

  class Package {
    const kind: Kind
    const depends: seq<Dependency>
    const menuItem: nat          // 0 when the package is not a menu item
    const entry: string          // its line in a menu
    var status: Status

    constructor (kind: Kind, depends: seq<Dependency>, menuItem: nat, entry: string)
      ensures this.kind == kind && this.depends == depends && this.menuItem == menuItem && this.entry == entry
      ensures status == Unpacked
    {
      this.kind, this.depends, this.menuItem, this.entry := kind, depends, menuItem, entry;
      status := Unpacked;
    }
  }

  /** The packages of the status file: their dependencies point into it, and those
      of a virtual package point at packages that are not virtual. */
  ghost predicate Closed(world: set<Package>) {
    forall p, d :: p in world && d in p.depends ==> d.target in world && (p.kind.Virtual? ==> !d.target.kind.Virtual?)
  }

  ghost function InstalledIn(world: set<Package>): set<Package>
    reads world`status
  {
    set p | p in world && p.status.Installed?
  }

  /** A run of "udpkg --configure": what was installed, which virtual packages the user
      had declined to choose a provider for, and what the command answered. */
  datatype ConfigureRun = ConfigureRun(package: Package, installed: set<Package>, declined: set<Package>, answer: int)

  /** A question which provider of a virtual package to use; None is "go back". */
  datatype Question = Question(package: Package, choice: Option<string>)

  /** Every direct dependency was in place when the package was configured. */
  ghost predicate InPlace(c: ConfigureRun) {
    forall d :: d in c.package.depends && d.relation.Depends? ==>
      || d.target in c.installed
      || d.target.kind.NonExistent?
      || (d.target.kind.Virtual? && d.target in c.declined)
  }

  ghost predicate AllInPlace(log: seq<ConfigureRun>) {
    forall i :: 0 <= i < |log| ==> InPlace(log[i])
  }

  predicate Failed(ret: int) {
    ret == -1 || ret == EXIT_BACKUP
  }

  /** What main-menu makes of the answer of a command. */
  function Mangled(answer: int): int {
    if answer in {EXIT_OK, EXIT_INSTALLER, EXIT_BACKUP} then answer else -1
  }

  predicate RunFailed(c: ConfigureRun) {
    Failed(Mangled(c.answer))
  }

  class Menu {
    const udpkg: nat -> int                    // what the n-th command answers
    const debconf: nat -> Option<string>       // what the n-th question is answered with
    var depth: nat                     // di_config_package_depth
    ghost var aborts: nat              // how often the deep-recursion abort fired
    ghost var declined: set<Package>
    ghost var log: seq<ConfigureRun>
    ghost var questions: seq<Question>
    var commands: nat                  // how many commands were run
    var asked: nat                     // how many questions were put

    constructor (udpkg: nat -> int, debconf: nat -> Option<string>)
      ensures this.udpkg == udpkg && this.debconf == debconf
      ensures depth == 0 && aborts == 0 && declined == {} && log == [] && questions == [] && Recorded()
    {
      this.udpkg, this.debconf := udpkg, debconf;
      depth, aborts, declined, log, questions, commands, asked := 0, 0, {}, [], [], 0, 0;
    }

    /** The log and the questions are those really put, with the answers really given,
        and who declined was asked. */
    ghost predicate Recorded()
      reads this
    {
      && AllInPlace(log)
      && |log| == commands && (forall i :: 0 <= i < |log| ==> log[i].answer == udpkg(i))
      && |questions| == asked && (forall i :: 0 <= i < |questions| ==> questions[i].choice == debconf(i))
      && (forall q :: q in declined ==> Question(q, None) in questions)
    }

    ghost function Budget(): nat
      reads this`depth
    {
      if depth < MAX_DEPTH then MAX_DEPTH - depth else 0
    }

    /** A command for the package has succeeded since the n-th one. */
    ghost predicate RanFrom(q: Package, n: nat)
      reads this`log
    {
      exists i :: n <= i < |log| && log[i].package == q && !RunFailed(log[i])
    }

    /** Every command from the n-th on, but for the last m, succeeded. */
    ghost predicate CleanFrom(n: nat, m: nat)
      reads this`log
    {
      forall i :: n <= i < |log| - m ==> !RunFailed(log[i])
    }

    /** What every call promises: the log only grows, by configurations whose
        dependencies were in place; the counter is as before, plus one exactly when
        the abort fired; a call fails exactly when the abort fired in it or its last
        command failed, and then with the answer of that command; and a call that does
        not fail leaves installed what was installed. Nothing is installed without a
        command that succeeded. */
    twostate predicate Kept(world: set<Package>, ret: int)
      reads this, world`status
    {
      && Recorded()
      && old(log) <= log && old(questions) <= questions
      && old(declined) <= declined
      && old(aborts) <= aborts <= old(aborts) + 1
      && depth - old(depth) == aborts - old(aborts)
      && (aborts > old(aborts) ==> ret == -1 && CleanFrom(old(|log|), 0))
      && (aborts == old(aborts) ==>
           if Failed(ret)
           then |log| > old(|log|) && CleanFrom(old(|log|), 1) && ret == Mangled(log[|log| - 1].answer)
           else CleanFrom(old(|log|), 0))
      && (!Failed(ret) ==> old(InstalledIn(world)) <= InstalledIn(world))
      && (forall q :: q in world && q.kind.Real? && q.status.Installed? && !old(q.status.Installed?) ==> RanFrom(q, old(|log|)))
    }

    /** di_config_package. */
    method ConfigPackage(p: Package, ghost world: set<Package>) returns (ret: int)
      requires Closed(world) && p in world && Recorded()
      modifies this, world`status
      ensures Kept(world, ret)
      ensures p.kind.Real? ==> ret in {EXIT_OK, EXIT_INSTALLER, EXIT_BACKUP, -1}
      ensures p.kind.Real? && !Failed(ret) ==>
        p.status.Installed? && |log| > old(|log|) && log[|log| - 1].package == p && ret == log[|log| - 1].answer
      ensures p.kind.Virtual? && !Failed(ret) ==> p.status.Installed? || p in declined
      // where every command succeeds and the abort does not fire, the call does not fail
      ensures aborts == old(aborts) && CleanFrom(old(|log|), 0) ==> !Failed(ret)
      ensures p.kind.NonExistent? ==> ret == 0 && log == old(log) && questions == old(questions) && depth == old(depth)
      // the counter is never reset: after as many aborts, nothing with an unmet dependency can be configured
      ensures p.kind.Real? && old(depth) >= MAX_DEPTH ==> (aborts > old(aborts) <==> old(Unmet(p, |p.depends|)))
      decreases Budget(), if p.kind.Virtual? then 7 else 3
    {
      if p.kind.Virtual? {
        ghost var choice;
        ret, choice := SatisfyVirtual(p, world);
        return;
      } else if p.kind.NonExistent? {
        return 0;
      }
      ret := ConfigDependencies(p, world);
      if ret != 0 {
        return;
      }
      ret := RunConfigure(p, world);
    }

    /** The loop over the dependencies: 0, or the failure of one. */
    method ConfigDependencies(p: Package, ghost world: set<Package>) returns (ret: int)
      requires Closed(world) && p in world && p.kind.Real? && Recorded()
      modifies this, world`status
      ensures Kept(world, ret) && (ret == 0 || Failed(ret))
      ensures ret == 0 ==> InPlaceUpTo(p, |p.depends|, InstalledIn(world), declined)
      ensures old(depth) >= MAX_DEPTH ==> (aborts > old(aborts) <==> old(Unmet(p, |p.depends|)))
      ensures old(depth) >= MAX_DEPTH && aborts == old(aborts) ==> ret == 0
      decreases Budget(), 2
    {
      var i := 0;
      while i < |p.depends|
        invariant 0 <= i <= |p.depends|
        invariant Kept(world, 0)
        invariant depth == old(depth) && aborts == old(aborts)
        invariant InPlaceUpTo(p, i, InstalledIn(world), declined)
        invariant old(depth) >= MAX_DEPTH ==> InstalledIn(world) == old(InstalledIn(world)) && !old(Unmet(p, i))
      {
        var d := p.depends[i];
        assert d in p.depends;
        if !d.target.status.Installed? && d.relation.Depends? {
          ret := ConfigDependency(d.target, world);
          if ret == -1 || ret == EXIT_BACKUP {
            assert old(depth) >= MAX_DEPTH ==> d.target !in old(InstalledIn(world)) && !old(d.target.status.Installed?);
            return;
          }
        }
        assert old(depth) >= MAX_DEPTH && d.relation.Depends? ==> d.target in old(InstalledIn(world));
        i := i + 1;
      }
      ret := 0;
    }

    /** One dependency, one level deeper. */
    method ConfigDependency(q: Package, ghost world: set<Package>) returns (ret: int)
      requires Closed(world) && q in world && Recorded()
      modifies this, world`status
      ensures Kept(world, ret)
      ensures !Failed(ret) ==> q.status.Installed? || q.kind.NonExistent? || (q.kind.Virtual? && q in declined)
      ensures old(depth) >= MAX_DEPTH ==> ret == -1 && aborts > old(aborts)
      decreases Budget(), 1
    {
      depth := depth + 1;
      if depth > MAX_DEPTH {
        aborts := aborts + 1;
        return -1;
      }
      ret := ConfigPackage(q, world);
      depth := depth - 1;
    }

    /** Lines 834-853: run udpkg, whatever it answers. */
    method RunConfigure(p: Package, ghost world: set<Package>) returns (ret: int)
      requires p in world && p.kind.Real? && Recorded()
      requires InPlaceUpTo(p, |p.depends|, InstalledIn(world), declined)
      modifies this`log, this`commands, p`status
      ensures log == old(log) + [ConfigureRun(p, old(InstalledIn(world)), declined, udpkg(old(commands)))] && Recorded()
      ensures ret == Mangled(udpkg(old(commands)))
      ensures p.status == if Failed(ret) then HalfConfigured else Installed
    {
      ret := udpkg(commands);
      log := log + [ConfigureRun(p, InstalledIn(world), declined, ret)];
      commands := commands + 1;
      if ret == EXIT_OK || ret == EXIT_INSTALLER {
        p.status := Installed;
      } else {
        if ret != EXIT_BACKUP {
          ret := -1;
        }
        p.status := HalfConfigured;
      }
    }

    /** The question which provider to use. */
    method Ask(p: Package) returns (choice: Option<string>)
      requires Recorded()
      modifies this`questions, this`asked, this`declined
      ensures choice == debconf(old(asked)) && questions == old(questions) + [Question(p, choice)]
      ensures declined == (if choice.None? then old(declined) + {p} else old(declined)) && Recorded()
    {
      choice := debconf(asked);
      questions := questions + [Question(p, choice)];
      asked := asked + 1;
      if choice.None? {
        declined := declined + {p};
      }
    }

    /** satisfy_virtual. The user is asked where a provider is a menu item and none is
        installed yet; unless he was, a virtual package that has providers ends up with one
        of them installed; if he was, the first entry with the chosen line is installed. */
    method SatisfyVirtual(p: Package, ghost world: set<Package>) returns (ret: int, ghost choice: Option<string>)
      requires Closed(world) && p in world && p.kind.Virtual? && Recorded()
      modifies this, world`status
      ensures Kept(world, ret)
      ensures !Failed(ret) ==> ret in {0, 1} && (ret == 1 ==> p.status.Installed?) && (ret == 0 ==> p in declined)
      ensures ret == 0 ==> |questions| > old(|questions|) && questions[|questions| - 1] == Question(p, None)
      ensures choice.Some? ==> Question(p, choice) in questions[old(|questions|)..]
      ensures ret == 0 || choice.Some? ==> MenuProvider(p, |p.depends|)
      ensures ret == 1 && choice.None? && MenuProvider(p, |p.depends|) ==> ProviderInstalled(p)
      ensures ret == 1 && choice.None? && HasProvider(p) && RealTargets(p) ==> ProviderInstalled(p)
      ensures ret == 1 && choice.Some? && RealTargets(p) ==>
        var k := FirstEntry(p.depends, choice.value);
        k < |p.depends| ==> p.depends[k].target.status.Installed?
      decreases Budget(), 6
    {
      choice := None;
      var provided, candidates, isMenuItem;
      ret, candidates, provided, isMenuItem := CollectProviders(p, world);
      if ret != 0 {
        return;
      }
      if candidates && !provided {
        var back;
        ret, back, choice := UseProvider(p, world, isMenuItem);
        if back || ret != 0 {
          return;
        }
      }
      p.status := Installed;
      ret := 1;
    }

    /** Lines 504-549: the question, where one is to be put, and the second loop. */
    method UseProvider(p: Package, ghost world: set<Package>, isMenuItem: bool)
      returns (ret: int, back: bool, ghost choice: Option<string>)
      requires Closed(world) && p in world && p.kind.Virtual? && Recorded()
      modifies this, world`status
      ensures Kept(world, ret) && (ret == 0 || Failed(ret))
      ensures back ==> isMenuItem && ret == 0 && p in declined && questions == old(questions) + [Question(p, None)]
      ensures !back ==> (choice.Some? <==> isMenuItem)
      ensures choice.Some? ==> !back && Question(p, choice) in questions[old(|questions|)..]
      ensures ret == 0 && !back && !isMenuItem ==> RealInstalled(p, |p.depends|, InstalledIn(world))
      ensures ret == 0 && choice.Some? ==>
        var k := FirstEntry(p.depends, choice.value);
        k < |p.depends| && p.depends[k].target.kind.Real? ==> p.depends[k].target.status.Installed?
      decreases Budget(), 5
    {
      back, choice := false, None;
      var line: string := "";
      if isMenuItem {
        var answer := Ask(p);
        if answer.None? {
          return 0, true, None;
        }
        line, choice := answer.value, answer;
        assert questions[|questions| - 1] == Question(p, choice);
      }
      ret := ConfigureProviders(p, world, isMenuItem, line);
    }

    /** The first loop of satisfy_virtual: 0, or the failure of a plain dependency. */
    method CollectProviders(p: Package, ghost world: set<Package>)
      returns (ret: int, candidates: bool, provided: bool, isMenuItem: bool)
      requires Closed(world) && p in world && p.kind.Virtual? && Recorded()
      modifies this, world`status
      ensures Kept(world, ret) && (ret == 0 || Failed(ret))
      ensures ret == 0 && provided ==> ProviderInstalled(p)
      ensures ret == 0 && !provided ==> (candidates <==> HasProvider(p)) && (isMenuItem <==> MenuProvider(p, |p.depends|))
      decreases Budget(), 4
    {
      candidates, provided, isMenuItem := false, false, false;
      var i := 0;
      while i < |p.depends|
        invariant 0 <= i <= |p.depends| && Kept(world, 0)
        invariant candidates <==> exists k :: 0 <= k < i && p.depends[k].relation.ReverseProvides?
        invariant isMenuItem <==> MenuProvider(p, i)
      {
        var d := p.depends[i];
        assert d in p.depends;
        if d.relation.Depends? {
          if !d.target.status.Installed? {
            ret := ConfigPackage(d.target, world);
            if ret == -1 || ret == EXIT_BACKUP {
              return;
            }
          }
        } else if d.relation.ReverseProvides? {
          if d.target.status.Installed? {
            provided := true;
            return 0, candidates, provided, isMenuItem;
          }
          candidates := true;
          isMenuItem := isMenuItem || d.target.menuItem != 0;
        }
        i := i + 1;
      }
      ret := 0;
    }

    /** The second loop: the chosen entry, or all of them. */
    method ConfigureProviders(p: Package, ghost world: set<Package>, isMenuItem: bool, choice: string) returns (ret: int)
      requires Closed(world) && p in world && p.kind.Virtual? && Recorded()
      modifies this, world`status
      ensures Kept(world, ret) && (ret == 0 || Failed(ret))
      ensures ret == 0 && !isMenuItem ==> RealInstalled(p, |p.depends|, InstalledIn(world))
      ensures ret == 0 && isMenuItem ==>
        var k := FirstEntry(p.depends, choice);
        k < |p.depends| && p.depends[k].target.kind.Real? ==> p.depends[k].target.status.Installed?
      decreases Budget(), 4
    {
      var i := 0;
      while i < |p.depends|
        invariant 0 <= i <= |p.depends| && Kept(world, 0)
        invariant !isMenuItem ==> RealInstalled(p, i, InstalledIn(world))
        invariant isMenuItem ==> FirstEntry(p.depends, choice) >= i
      {
        var d := p.depends[i];
        assert d in p.depends;
        if !isMenuItem || choice == d.target.entry {
          ret := ConfigPackage(d.target, world);
          if ret == -1 || ret == EXIT_BACKUP {
            return;
          }
          if isMenuItem {
            return 0;
          }
        }
        i := i + 1;
      }
      ret := 0;
    }
  }

  /** One of the first n dependencies is not installed. */
  ghost predicate Unmet(p: Package, n: nat)
    requires n <= |p.depends|
    reads set d | d in p.depends :: d.target
  {
    exists k :: 0 <= k < n && p.depends[k].relation.Depends? && !p.depends[k].target.status.Installed?
  }

  /** One of the first n dependencies is a provider with a place in the menu. */
  ghost predicate MenuProvider(p: Package, n: nat)
    requires n <= |p.depends|
  {
    exists k :: 0 <= k < n && p.depends[k].relation.ReverseProvides? && p.depends[k].target.menuItem != 0
  }

  ghost predicate HasProvider(p: Package) {
    exists k :: 0 <= k < |p.depends| && p.depends[k].relation.ReverseProvides?
  }

  ghost predicate RealTargets(p: Package) {
    forall k :: 0 <= k < |p.depends| ==> p.depends[k].target.kind.Real?
  }

  ghost predicate ProviderInstalled(p: Package)
    reads set d | d in p.depends :: d.target
  {
    exists k :: 0 <= k < |p.depends| && p.depends[k].relation.ReverseProvides? && p.depends[k].target.status.Installed?
  }

  ghost predicate RealInstalled(p: Package, n: nat, installed: set<Package>)
    requires n <= |p.depends|
  {
    forall k :: 0 <= k < n && p.depends[k].target.kind.Real? ==> p.depends[k].target in installed
  }

  /** The first dependency whose menu line is the choice. */
  function FirstEntry(depends: seq<Dependency>, choice: string): (k: nat)
    ensures k <= |depends|
    ensures k < |depends| ==> depends[k].target.entry == choice
    ensures forall j :: 0 <= j < k ==> depends[j].target.entry != choice
  {
    if depends == [] || depends[0].target.entry == choice then 0 else 1 + FirstEntry(depends[1..], choice)
  }

  /** The first n dependencies of p are in place. */
  ghost predicate InPlaceUpTo(p: Package, n: nat, installed: set<Package>, declined: set<Package>)
    requires n <= |p.depends|
  {
    forall i :: 0 <= i < n && p.depends[i].relation.Depends? ==>
      || p.depends[i].target in installed
      || p.depends[i].target.kind.NonExistent?
      || (p.depends[i].target.kind.Virtual? && p.depends[i].target in declined)
  }
}

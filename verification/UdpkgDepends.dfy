/** Dependency resolution of udpkg (packages/udpkg/depends.c): the split of a
    Depends field, the requirement graph, and the in-place topological sort that
    re-uses the `next` links of the list it is walking. */
module UdpkgDepends {
  import opened Wrappers
  import opened UdpkgDependsField
  import opened UdpkgStatusWords

  const DEPENDSMAX: nat := VECTOR_SIZE

  datatype Color = White | Gray | Black

  class Package {
    const package: string
    const depends: string          // "" when the control file has no Depends field
    const provided: Option<string>   // the Provides field
    var color: Color
    var requiredfor: seq<Package>  // requiredfor[0..requiredcount]
    var next: Package?

    constructor (package: string, depends: string, provided: Option<string>, next: Package?)
      ensures this.package == package && this.depends == depends && this.provided == provided
      ensures this.next == next && requiredfor == []
    {
      this.package, this.depends, this.provided := package, depends, provided;
      color, requiredfor, this.next := White, [], next;
    }
  }

  // ---------------------------------------------------------------------
  // Requirement graphs

  /** g[c] are the packages that wait for c. */
  type Graph = map<Package, seq<Package>>

  ghost predicate Closed(g: Graph) {
    forall p, s :: p in g && s in g[p] ==> s in g
  }

  ghost predicate Steps(g: Graph, a: Package, b: Package, n: nat) {
    if n == 0 then a == b
    else exists m :: m in g && Steps(g, a, m, n - 1) && b in g[m]
  }

  ghost predicate Reach(g: Graph, a: Package, b: Package) {
    exists n: nat :: Steps(g, a, b, n)
  }

  /** What a leads to, and what leads to b. */
  ghost function From(g: Graph, a: Package): set<Package> {
    set b | b in g && Reach(g, a, b)
  }

  ghost function Into(g: Graph, b: Package): set<Package> {
    set a | a in g && Reach(g, a, b)
  }

  lemma EdgeExtends(g: Graph, a: Package, b: Package)
    requires Closed(g) && a in g && b in g[a]
    ensures From(g, b) <= From(g, a) && Into(g, a) <= Into(g, b)
  {
    ReachSelf(g, a);
    ReachStep(g, a, a, b);
    forall c | c in From(g, b) ensures c in From(g, a) {
      ReachTransitive(g, a, b, c);
    }
    forall c | c in Into(g, a) ensures c in Into(g, b) {
      ReachStep(g, c, a, b);
    }
  }

  /** No package that the head leads to lies on a cycle. */
  ghost predicate AcyclicFrom(g: Graph, head: Package) {
    forall b, s :: b in g && Reach(g, head, b) && s in g[b] ==> !Reach(g, s, b)
  }

  lemma ReachSelf(g: Graph, a: Package)
    ensures Reach(g, a, a)
  {
    assert Steps(g, a, a, 0);
  }

  lemma ReachStep(g: Graph, a: Package, b: Package, c: Package)
    requires b in g && Reach(g, a, b) && c in g[b]
    ensures Reach(g, a, c)
  {
    var n: nat :| Steps(g, a, b, n);
    assert Steps(g, a, c, n + 1);
  }

  lemma {:induction false} StepsCompose(g: Graph, a: Package, b: Package, c: Package, m: nat, n: nat)
    requires Steps(g, a, b, m) && Steps(g, b, c, n)
    ensures Steps(g, a, c, m + n)
  {
    if n > 0 {
      var d :| d in g && Steps(g, b, d, n - 1) && c in g[d];
      StepsCompose(g, a, b, d, m, n - 1);
      assert Steps(g, a, d, m + n - 1);
    }
  }

  lemma ReachTransitive(g: Graph, a: Package, b: Package, c: Package)
    requires Reach(g, a, b) && Reach(g, b, c)
    ensures Reach(g, a, c)
  {
    var m: nat :| Steps(g, a, b, m);
    var n: nat :| Steps(g, b, c, n);
    StepsCompose(g, a, b, c, m, n);
  }

  /** A set that contains a and is closed under the edges holds all a reaches. */
  lemma {:induction false} StepsStayInside(g: Graph, s: set<Package>, a: Package, b: Package, n: nat)
    requires a in s && (forall p, q :: p in s && p in g && q in g[p] ==> q in s)
    requires Steps(g, a, b, n)
    ensures b in s
  {
    if n > 0 {
      var m :| m in g && Steps(g, a, m, n - 1) && b in g[m];
      StepsStayInside(g, s, a, m, n - 1);
    }
  }

  // ---------------------------------------------------------------------
  // Orders

  ghost function Elems(out: seq<Package>): set<Package> {
    set p | p in out
  }

  lemma ElemsPrefix(out: seq<Package>, i: nat)
    requires i < |out|
    ensures Elems(out[..i + 1]) == Elems(out[..i]) + {out[i]}
  {
    assert out[..i + 1] == out[..i] + [out[i]];
  }

  ghost predicate Distinct(out: seq<Package>) {
    forall i, j :: 0 <= i < j < |out| ==> out[i] != out[j]
  }

  /** Every edge out of a listed package leads further down the list, except the
      ones that close a cycle. */
  ghost predicate SortedUpToCycles(g: Graph, out: seq<Package>)
    requires forall p :: p in out ==> p in g
  {
    out == [] ||
    (ForwardOrBack(g, out[0], out[1..]) && SortedUpToCycles(g, out[1..]))
  }

  ghost predicate ForwardOrBack(g: Graph, p: Package, later: seq<Package>)
    requires p in g
  {
    forall s :: s in g[p] ==> s in later || Reach(g, s, p)
  }

  /** out lists each package after all the listed packages it waits for. */
  ghost predicate TopologicalOrder(g: Graph, out: seq<Package>)
    requires forall p :: p in out ==> p in g
  {
    forall i, s :: 0 <= i < |out| && s in g[out[i]] ==> s in out[i + 1..]
  }

  lemma {:induction false} SortedAt(g: Graph, out: seq<Package>, i: nat)
    requires i < |out| && (forall p :: p in out ==> p in g) && SortedUpToCycles(g, out)
    ensures ForwardOrBack(g, out[i], out[i + 1..])
  {
    if i > 0 {
      SortedAt(g, out[1..], i - 1);
      assert out[1..][i..] == out[i + 1..];
    }
  }

  /** In a topological order everything reachable in one or more steps is later. */
  lemma {:induction false} LaterInOrder(g: Graph, out: seq<Package>, i: nat, b: Package, n: nat)
    requires i < |out| && (forall p :: p in out ==> p in g) && TopologicalOrder(g, out)
    requires n > 0 && Steps(g, out[i], b, n)
    ensures b in out[i + 1..]
  {
    var m :| m in g && Steps(g, out[i], m, n - 1) && b in g[m];
    if n > 1 {
      LaterInOrder(g, out, i, m, n - 1);
      var j :| i + 1 <= j < |out| && out[j] == m;
      assert out[j + 1..] == out[i + 1..][j - i..];
    }
  }

  lemma OrderForbidsCycle(g: Graph, out: seq<Package>, b: Package, s: Package)
    requires (forall p :: p in out ==> p in g) && TopologicalOrder(g, out) && Distinct(out)
    requires b in out && s in g[b]
    ensures !Reach(g, s, b)
  {
    if Reach(g, s, b) {
      var i :| 0 <= i < |out| && out[i] == b;
      var n: nat :| Steps(g, s, b, n);
      assert Steps(g, b, b, 0);
      assert Steps(g, b, s, 1);
      StepsCompose(g, b, s, b, 1, n);
      LaterInOrder(g, out, i, b, n + 1);
    }
  }

  /** The depth-first order is a topological one exactly for acyclic graphs. */
  lemma OrderedIffAcyclic(g: Graph, head: Package, out: seq<Package>)
    requires Distinct(out)
    requires forall p :: p in out <==> p in g && Reach(g, head, p)
    requires SortedUpToCycles(g, out)
    ensures TopologicalOrder(g, out) <==> AcyclicFrom(g, head)
  {
    if AcyclicFrom(g, head) {
      forall i, s | 0 <= i < |out| && s in g[out[i]]
        ensures s in out[i + 1..]
      {
        SortedAt(g, out, i);
      }
    } else {
      var b, s :| b in g && Reach(g, head, b) && s in g[b] && Reach(g, s, b);
      if TopologicalOrder(g, out) {
        OrderForbidsCycle(g, out, b, s);
      }
    }
  }

  // ---------------------------------------------------------------------
  // The sort, in place on the linked packages

  ghost predicate Linked(head: Package?, out: seq<Package>)
    reads out`next
  {
    if out == [] then head == null
    else head == out[0] && Linked(out[0].next, out[1..])
  }

  lemma {:induction false} LinkedAt(head: Package?, out: seq<Package>, i: nat)
    requires i < |out| && Linked(head, out)
    ensures out[i].next == if i + 1 < |out| then out[i + 1] else null
  {
    if i > 0 {
      LinkedAt(out[0].next, out[1..], i - 1);
    }
  }

  ghost predicate GraphInHeap(g: Graph)
    reads g.Keys`requiredfor
  {
    Closed(g) && forall p :: p in g ==> p.requiredfor == g[p]
  }

  ghost function Whites(g: Graph): set<Package>
    reads g.Keys`color
  {
    set p | p in g && p.color == White
  }

  ghost predicate Expanded(g: Graph, p: Package)
    requires p in g
    reads g.Keys`color
  {
    forall s :: s in g[p] ==> s !in Whites(g)
  }

  /** The list built so far: linked from head, without repetition, sorted. */
  ghost predicate SortedList(g: Graph, head: Package?, out: seq<Package>)
    reads out`next
  {
    if out == [] then head == null
    else
      && head == out[0] && out[0] in g && out[0] !in out[1..]
      && ForwardOrBack(g, out[0], out[1..])
      && SortedList(g, out[0].next, out[1..])
  }

  lemma {:induction false} SortedListFacts(g: Graph, head: Package?, out: seq<Package>)
    requires SortedList(g, head, out)
    ensures Linked(head, out) && Distinct(out) && (forall p :: p in out ==> p in g)
    ensures SortedUpToCycles(g, out)
  {
    if out != [] {
      SortedListFacts(g, out[0].next, out[1..]);
      assert out == [out[0]] + out[1..];
    }
  }

  lemma {:induction false} SortedListAt(g: Graph, head: Package?, out: seq<Package>, i: nat)
    requires i < |out| && SortedList(g, head, out)
    ensures out[i].next == if i + 1 < |out| then out[i + 1] else null
  {
    if i > 0 {
      SortedListAt(g, out[0].next, out[1..], i - 1);
    }
  }

  /** What holds between two visits: the gray packages are those being visited,
      the black ones are done, and done packages lead to no white one. */
  ghost predicate Painted(g: Graph, gray: set<Package>, done: set<Package>)
    reads g.Keys`color
  {
    && done <= g.Keys
    && (forall p :: p in g ==> (p.color == Gray <==> p in gray) && (p.color == Black <==> p in done))
    && (forall p :: p in done ==> Expanded(g, p))
  }

  ghost predicate SortState(g: Graph, gray: set<Package>, ordered: Package?, out: seq<Package>)
    reads g.Keys`color, g.Keys`requiredfor, out`next
  {
    GraphInHeap(g) && Painted(g, gray, Elems(out)) && SortedList(g, ordered, out)
  }

  /** depends_sort_visit: everything still white that pkg leads to is put in
      front of the list, pkg itself first. */
  method Visit(ghost g: Graph, ghost gray: set<Package>, ordered: Package?, ghost out: seq<Package>, pkg: Package)
    returns (ordered': Package?, ghost out': seq<Package>)
    requires SortState(g, gray, ordered, out)
    requires pkg in g && pkg.color == White
    requires gray <= Into(g, pkg)
    modifies g.Keys`color, g.Keys`next
    ensures SortState(g, gray, ordered', out')
    ensures out' != [] && out'[0] == pkg && Elems(out) <= Elems(out') <= Elems(out) + From(g, pkg)
    ensures Whites(g) < old(Whites(g))
    decreases Whites(g), 0
  {
    assert pkg in Whites(g);
    pkg.color := Gray;
    assert pkg !in Whites(g);
    ReachSelf(g, pkg);
    ordered', out' := VisitRequired(g, gray + {pkg}, ordered, out, pkg);
    ordered', out' := Push(g, gray, ordered', out', pkg);
  }

  /** The loop of depends_sort_visit over the packages that wait for pkg. */
  method VisitRequired(ghost g: Graph, ghost gray: set<Package>, ordered: Package?, ghost out: seq<Package>, pkg: Package)
    returns (ordered': Package?, ghost out': seq<Package>)
    requires SortState(g, gray, ordered, out)
    requires pkg in g && pkg in gray
    requires gray <= Into(g, pkg)
    modifies g.Keys`color, g.Keys`next
    ensures SortState(g, gray, ordered', out')
    ensures Elems(out) <= Elems(out') <= Elems(out) + From(g, pkg)
    ensures Expanded(g, pkg)
    ensures Whites(g) <= old(Whites(g))
    decreases Whites(g), 2
  {
    ordered', out' := ordered, out;
    var i := 0;
    while i < |pkg.requiredfor|
      invariant 0 <= i <= |g[pkg]|
      invariant SortState(g, gray, ordered', out')
      invariant Elems(out) <= Elems(out') <= Elems(out) + From(g, pkg)
      invariant Whites(g) <= old(Whites(g))
      invariant Elems(g[pkg][..i]) !! Whites(g)
    {
      ElemsPrefix(g[pkg], i);
      ordered', out' := VisitIfWhite(g, gray, ordered', out', pkg, pkg.requiredfor[i]);
      i := i + 1;
    }
    assert g[pkg][..i] == g[pkg];
    AllMet(g, pkg);
  }

  lemma AllMet(g: Graph, pkg: Package)
    requires pkg in g && Elems(g[pkg]) !! Whites(g)
    ensures Expanded(g, pkg)
  {
    assert forall s :: s in g[pkg] ==> s in Elems(g[pkg]);
  }

  method VisitIfWhite(ghost g: Graph, ghost gray: set<Package>, ordered: Package?, ghost out: seq<Package>,
                      ghost pkg: Package, child: Package)
    returns (ordered': Package?, ghost out': seq<Package>)
    requires SortState(g, gray, ordered, out)
    requires pkg in g && child in g[pkg]
    requires gray <= Into(g, pkg)
    modifies g.Keys`color, g.Keys`next
    ensures SortState(g, gray, ordered', out')
    ensures Elems(out) <= Elems(out') <= Elems(out) + From(g, pkg)
    ensures Whites(g) <= old(Whites(g)) && child !in Whites(g)
    decreases Whites(g), 1
  {
    ordered', out' := ordered, out;
    if child.color == White {
      EdgeExtends(g, pkg, child);
      ordered', out' := Visit(g, gray, ordered', out', child);
    }
  }

  /** Lines 74-78: pkg, whose successors have all been met, becomes the new head. */
  method Push(ghost g: Graph, ghost gray: set<Package>, ordered: Package?, ghost out: seq<Package>, pkg: Package)
    returns (ordered': Package?, ghost out': seq<Package>)
    requires SortState(g, gray + {pkg}, ordered, out)
    requires pkg in g && pkg !in gray
    requires gray <= Into(g, pkg)
    requires Expanded(g, pkg)
    modifies pkg`color, pkg`next
    ensures ordered' == pkg && out' == [pkg] + out
    ensures SortState(g, gray, ordered', out')
    ensures Whites(g) == old(Whites(g))
  {
    ReachSelf(g, pkg);
    assert ForwardOrBack(g, pkg, out);
    pkg.next := ordered;
    ordered', out' := pkg, [pkg] + out;
    pkg.color := Black;
    assert out'[1..] == out && Elems(out') == Elems(out) + {pkg};
    assert pkg !in Elems(out);
  }

  /** With nothing left gray, the list holds exactly what its head leads to. */
  lemma FinishedSort(g: Graph, head: Package, out: seq<Package>)
    requires SortState(g, {}, head, out) && Elems(out) <= From(g, head)
    ensures Distinct(out) && (forall p :: p in out ==> p in g)
    ensures Elems(out) == From(g, head)
    ensures TopologicalOrder(g, out) <==> AcyclicFrom(g, head)
  {
    SortedListFacts(g, head, out);
    forall p | p in From(g, head) ensures p in Elems(out) {
      var n: nat :| Steps(g, head, p, n);
      StepsStayInside(g, Elems(out), head, p, n);
    }
    forall p | p in out ensures p in From(g, head) {
      assert p in Elems(out);
    }
    OrderedIffAcyclic(g, head, out);
  }

  /** The first loop of depends_sort. */
  method PaintWhite(ghost g: Graph, ghost list: seq<Package>, pkgs: Package?)
    requires Linked(pkgs, list) && Elems(list) == g.Keys
    modifies g.Keys`color
    ensures Whites(g) == g.Keys
  {
    var pkg := pkgs;
    ghost var k := 0;
    while pkg != null
      invariant 0 <= k <= |list| && pkg == (if k < |list| then list[k] else null)
      invariant Linked(pkgs, list)
      invariant forall j :: 0 <= j < k ==> list[j].color == White
      decreases |list| - k
    {
      LinkedAt(pkgs, list, k);
      pkg.color := White;
      pkg, k := pkg.next, k + 1;
    }
    forall p | p in g ensures p in Whites(g) {
      assert p in Elems(list);
    }
  }

  /** depends_sort: the walk over `next` continues on links that the first visit
      has rewritten, so after it it only ever sees packages that are done. */
  method DependsSort(ghost g: Graph, ghost list: seq<Package>, pkgs: Package?) returns (ordered: Package?, ghost out: seq<Package>)
    requires GraphInHeap(g) && Linked(pkgs, list) && Elems(list) == g.Keys
    modifies g.Keys`color, g.Keys`next
    ensures ordered == pkgs
    ensures Linked(ordered, out) && Distinct(out) && (forall p :: p in out ==> p in g)
    ensures Elems(out) == if pkgs == null then {} else From(g, pkgs)
    ensures pkgs != null ==> (TopologicalOrder(g, out) <==> AcyclicFrom(g, pkgs))
  {
    PaintWhite(g, list, pkgs);
    ordered, out := null, [];
    var pkg := pkgs;
    ghost var k := 0;
    while pkg != null
      invariant SortState(g, {}, ordered, out)
      invariant ordered == if out == [] then null else pkgs
      invariant k <= |out| && (out == [] ==> pkg == pkgs)
      invariant out != [] ==> pkgs != null && Elems(out) <= From(g, pkgs) && pkg == if k < |out| then out[k] else null
      decreases out == [], |out| - k
    {
      if pkg.color == White {
        ordered, out := Visit(g, {}, ordered, out, pkg);
      }
      SortedListAt(g, ordered, out, k);
      pkg, k := pkg.next, k + 1;
    }
    SortedListFacts(g, ordered, out);
    if pkgs != null {
      FinishedSort(g, ordered, out);
    }
  }

  // ---------------------------------------------------------------------
  // Building the requirement graph

  type Request = (Package, string)

  /** A dependency is met when the "ok" flag and the "installed" status are both set. */
  predicate IsInstalled(status: map<string, StatusBits>, name: string) {
    name in status && {FLAG_OK, STATUS_INSTALLED} <= status[name]
  }

  /** In the words of the status file: flag "ok" and status "installed". */
  lemma InstalledMeaning(status: map<string, StatusBits>, name: string, w: nat, f: nat, s: nat)
    requires w < FieldSize(0) && f < FieldSize(1) && s < FieldSize(2)
    requires name in status && status[name] == ParseStatus(STATUS_WORDS[0][w] + " " + (STATUS_WORDS[1][f] + " " + STATUS_WORDS[2][s])).Value()
    ensures IsInstalled(status, name) <==> STATUS_WORDS[1][f] == "ok" && STATUS_WORDS[2][s] == "installed"
  {
    WordsOfBits(w, f, s);
    InstalledBits(status, name, w, f, s);
    OkInstalledWords(f, s);
  }

  lemma InstalledBits(status: map<string, StatusBits>, name: string, w: nat, f: nat, s: nat)
    requires w < 5 && f < 4 && s < 8 && name in status && status[name] == {w, 5 + f, 9 + s}
    ensures IsInstalled(status, name) <==> f == 0 && s == 3
  {
  }

  /** Line 136: the package has the name, or its Provides field starts with it. */
  predicate Satisfies(p: Package, name: string) {
    p.package == name || (p.provided.Some? && name <= p.provided.value)
  }

  /** The first package of the list that satisfies a name. */
  function Target(list: seq<Package>, name: string): Option<Package> {
    if list == [] then None
    else if Satisfies(list[0], name) then Some(list[0])
    else Target(list[1..], name)
  }

  /** Written out: the package found has the name, or a Provides field that starts with
      it, no earlier one has either, and there is none exactly when no package has. */
  lemma {:induction false} TargetMeaning(list: seq<Package>, name: string)
    ensures Target(list, name).Some? ==> exists k ::
      && 0 <= k < |list| && Target(list, name) == Some(list[k])
      && (list[k].package == name || StartsWithName(list[k].provided, name))
      && forall j :: 0 <= j < k ==> list[j].package != name && !StartsWithName(list[j].provided, name)
    ensures Target(list, name).None? <==>
      forall j :: 0 <= j < |list| ==> list[j].package != name && !StartsWithName(list[j].provided, name)
  {
    if list != [] && !Satisfies(list[0], name) {
      TargetMeaning(list[1..], name);
      assert forall j :: 0 < j < |list| ==> list[j] == list[1..][j - 1];
      if Target(list, name).Some? {
        var k :| 0 <= k < |list[1..]| && Target(list[1..], name) == Some(list[1..][k])
          && (list[1..][k].package == name || StartsWithName(list[1..][k].provided, name))
          && forall j :: 0 <= j < k ==> list[1..][j].package != name && !StartsWithName(list[1..][j].provided, name);
        assert list[k + 1] == list[1..][k];
      }
    }
  }

  /** strncmp over the length of the name. */
  predicate StartsWithName(provided: Option<string>, name: string) {
    match provided
    case None => false
    case Some(text) => |text| >= |name| && forall i :: 0 <= i < |name| ==> text[i] == name[i]
  }

  function UnmetOf(p: Package, names: seq<string>, status: map<string, StatusBits>): seq<Request> {
    if names == [] then []
    else
      var name := names[|names| - 1];
      UnmetOf(p, names[..|names| - 1], status) + if IsInstalled(status, name) then [] else [(p, name)]
  }

  /** Every dependency that status does not meet, in the order it is looked at. */
  function Requests(list: seq<Package>, status: map<string, StatusBits>): seq<Request> {
    if list == [] then []
    else
      var p := list[|list| - 1];
      Requests(list[..|list| - 1], status) + UnmetOf(p, Dependencies(p.depends), status)
  }

  /** The packages that wait for c after some requests have been resolved. */
  function Waiting(list: seq<Package>, requests: seq<Request>, c: Package): seq<Package> {
    if requests == [] then []
    else
      var (p, name) := requests[|requests| - 1];
      Waiting(list, requests[..|requests| - 1], c)
      + if Target(list, name) == Some(c) && p != c then [p] else []
  }

  /** A request can be resolved: something to be installed satisfies it and has
      room for one more waiting package. */
  predicate CanResolve(list: seq<Package>, earlier: seq<Request>, name: string) {
    var target := Target(list, name);
    target.Some? && |Waiting(list, earlier, target.value)| < DEPENDSMAX
  }

  predicate AllResolve(list: seq<Package>, requests: seq<Request>) {
    requests == [] ||
    (var last := |requests| - 1;
     AllResolve(list, requests[..last]) && CanResolve(list, requests[..last], requests[last].1))
  }

  ghost function GraphOf(list: seq<Package>, requests: seq<Request>): Graph {
    map c | c in Elems(list) :: Waiting(list, requests, c)
  }

  /** p cannot be configured before c. */
  ghost predicate DependsOn(list: seq<Package>, status: map<string, StatusBits>, p: Package, c: Package) {
    && p in list && p != c
    && exists name :: name in Dependencies(p.depends) && !IsInstalled(status, name) && Target(list, name) == Some(c)
  }

  lemma {:induction false} UnmetMeaning(p: Package, names: seq<string>, status: map<string, StatusBits>, q: Package, name: string)
    ensures (q, name) in UnmetOf(p, names, status) <==> q == p && name in names && !IsInstalled(status, name)
  {
    if names != [] {
      UnmetMeaning(p, names[..|names| - 1], status, q, name);
      assert names == names[..|names| - 1] + [names[|names| - 1]];
    }
  }

  lemma {:induction false} RequestsMeaning(list: seq<Package>, status: map<string, StatusBits>, q: Package, name: string)
    ensures (q, name) in Requests(list, status)
            <==> q in list && name in Dependencies(q.depends) && !IsInstalled(status, name)
  {
    if list != [] {
      var last := |list| - 1;
      RequestsMeaning(list[..last], status, q, name);
      UnmetMeaning(list[last], Dependencies(list[last].depends), status, q, name);
      assert list == list[..last] + [list[last]];
    }
  }

  lemma {:induction false} WaitingMeaning(list: seq<Package>, requests: seq<Request>, c: Package, p: Package)
    ensures p in Waiting(list, requests, c)
            <==> p != c && exists name :: (p, name) in requests && Target(list, name) == Some(c)
  {
    if requests != [] {
      var last := |requests| - 1;
      WaitingMeaning(list, requests[..last], c, p);
      assert requests == requests[..last] + [requests[last]];
      if p != c && Target(list, requests[last].1) == Some(c) && requests[last].0 == p {
        assert (p, requests[last].1) in requests;
      }
    }
  }

  /** The edges of the graph that is built are the unmet dependencies. */
  lemma EdgeMeaning(list: seq<Package>, status: map<string, StatusBits>, c: Package, p: Package)
    requires c in list
    ensures p in GraphOf(list, Requests(list, status))[c] <==> DependsOn(list, status, p, c)
  {
    var requests := Requests(list, status);
    assert c in Elems(list);
    WaitingMeaning(list, requests, c, p);
    forall name ensures (p, name) in requests <==> p in list && name in Dependencies(p.depends) && !IsInstalled(status, name) {
      RequestsMeaning(list, status, p, name);
    }
  }

  /** Each listed package comes after the listed packages it depends on. */
  ghost predicate DependencyOrder(list: seq<Package>, status: map<string, StatusBits>, out: seq<Package>) {
    forall i, j :: 0 <= i < |out| && 0 <= j < |out| && DependsOn(list, status, out[j], out[i]) ==> i < j
  }

  lemma IndexOrder(g: Graph, out: seq<Package>)
    requires Distinct(out) && forall p :: p in out ==> p in g
    requires forall i, s :: 0 <= i < |out| && s in g[out[i]] ==> s in out
    ensures TopologicalOrder(g, out) <==>
            forall i, j :: 0 <= i < |out| && 0 <= j < |out| && out[j] in g[out[i]] ==> i < j
  {
    if TopologicalOrder(g, out) {
      forall i, j | 0 <= i < |out| && 0 <= j < |out| && out[j] in g[out[i]] ensures i < j {
        var k :| i + 1 <= k < |out| && out[k] == out[j];
      }
    }
    if forall i, j :: 0 <= i < |out| && 0 <= j < |out| && out[j] in g[out[i]] ==> i < j {
      forall i, s | 0 <= i < |out| && s in g[out[i]] ensures s in out[i + 1..] {
        assert s in out;
        var j :| 0 <= j < |out| && out[j] == s;
        assert out[i + 1..][j - i - 1] == s;
      }
    }
  }

  lemma OrdersAgree(list: seq<Package>, status: map<string, StatusBits>, g: Graph, out: seq<Package>, head: Package)
    requires g == GraphOf(list, Requests(list, status)) && Closed(g)
    requires Distinct(out) && (forall p :: p in out ==> p in g) && Elems(out) == From(g, head)
    ensures TopologicalOrder(g, out) <==> DependencyOrder(list, status, out)
  {
    forall i, s | 0 <= i < |out| && s in g[out[i]] ensures s in out {
      assert out[i] in Elems(out);
      ReachStep(g, head, out[i], s);
      assert s in Elems(out);
    }
    forall i, j | 0 <= i < |out| && 0 <= j < |out|
      ensures out[j] in g[out[i]] <==> DependsOn(list, status, out[j], out[i])
    {
      assert out[i] in g;
      EdgeMeaning(list, status, out[i], out[j]);
    }
    IndexOrder(g, out);
  }

  // ---------------------------------------------------------------------
  // depends_resolve

  lemma {:induction false} ResolvePrefix(list: seq<Package>, requests: seq<Request>, k: nat)
    requires k <= |requests| && AllResolve(list, requests)
    ensures AllResolve(list, requests[..k])
    ensures k < |requests| ==> CanResolve(list, requests[..k], requests[k].1)
  {
    var last := |requests| - 1;
    if k < |requests| {
      assert requests[..last][..k] == requests[..k];
      if k < last {
        ResolvePrefix(list, requests[..last], k);
      }
    } else {
      assert requests[..k] == requests;
    }
  }

  lemma {:induction false} UnmetPrefix(p: Package, names: seq<string>, status: map<string, StatusBits>, k: nat)
    requires k <= |names|
    ensures UnmetOf(p, names[..k], status) <= UnmetOf(p, names, status)
    decreases |names| - k
  {
    if k < |names| {
      UnmetPrefix(p, names, status, k + 1);
      assert names[..k + 1][..k] == names[..k];
    } else {
      assert names[..k] == names;
    }
  }

  lemma {:induction false} RequestsPrefix(list: seq<Package>, status: map<string, StatusBits>, k: nat)
    requires k <= |list|
    ensures Requests(list[..k], status) <= Requests(list, status)
    decreases |list| - k
  {
    if k < |list| {
      RequestsPrefix(list, status, k + 1);
      assert list[..k + 1][..k] == list[..k];
    } else {
      assert list[..k] == list;
    }
  }

  /** The requests looked at before the i-th dependency of the k-th package. */
  ghost function Earlier(list: seq<Package>, status: map<string, StatusBits>, k: nat, i: nat): seq<Request>
    requires k < |list| && i <= |Dependencies(list[k].depends)|
  {
    Requests(list[..k], status) + UnmetOf(list[k], Dependencies(list[k].depends)[..i], status)
  }

  lemma PrefixOfConcat(a: seq<Request>, b: seq<Request>, c: seq<Request>, d: seq<Request>)
    requires b <= c && a + c <= d
    ensures a + b <= d
  {
    assert a + b == (a + c)[..|a| + |b|] == d[..|a| + |b|];
  }

  lemma RequestsStep(list: seq<Package>, status: map<string, StatusBits>, k: nat)
    requires k < |list|
    ensures Requests(list[..k + 1], status) ==
            Requests(list[..k], status) + UnmetOf(list[k], Dependencies(list[k].depends), status)
  {
    assert list[..k + 1][..k] == list[..k] && list[..k + 1][k] == list[k];
  }

  lemma EarlierPrefix(list: seq<Package>, status: map<string, StatusBits>, k: nat, i: nat)
    requires k < |list| && i <= |Dependencies(list[k].depends)|
    ensures Earlier(list, status, k, i) <= Requests(list, status)
  {
    var names := Dependencies(list[k].depends);
    RequestsPrefix(list, status, k + 1);
    RequestsStep(list, status, k);
    UnmetPrefix(list[k], names, status, i);
    PrefixOfConcat(Requests(list[..k], status), UnmetOf(list[k], names[..i], status), UnmetOf(list[k], names, status), Requests(list, status));
  }

  lemma EarlierNext(list: seq<Package>, status: map<string, StatusBits>, k: nat, i: nat)
    requires k < |list| && i < |Dependencies(list[k].depends)|
    ensures var name := Dependencies(list[k].depends)[i];
      Earlier(list, status, k, i + 1) == Earlier(list, status, k, i) + if IsInstalled(status, name) then [] else [(list[k], name)]
  {
    UnmetStep(list[k], Dependencies(list[k].depends), status, i);
  }

  lemma UnmetStep(p: Package, names: seq<string>, status: map<string, StatusBits>, i: nat)
    requires i < |names|
    ensures UnmetOf(p, names[..i + 1], status) ==
            UnmetOf(p, names[..i], status) + if IsInstalled(status, names[i]) then [] else [(p, names[i])]
  {
    assert names[..i + 1][..i] == names[..i] && names[..i + 1][i] == names[i];
  }

  lemma EarlierEnd(list: seq<Package>, status: map<string, StatusBits>, k: nat)
    requires k < |list|
    ensures Earlier(list, status, k, |Dependencies(list[k].depends)|) == Requests(list[..k + 1], status)
  {
    var names := Dependencies(list[k].depends);
    assert names[..|names|] == names;
    RequestsStep(list, status, k);
  }

  /** A request that finds no target, or no room, sinks the whole list. */
  lemma Unresolved(list: seq<Package>, status: map<string, StatusBits>, k: nat, i: nat)
    requires k < |list| && i < |Dependencies(list[k].depends)|
    requires !IsInstalled(status, Dependencies(list[k].depends)[i])
    requires !CanResolve(list, Earlier(list, status, k, i), Dependencies(list[k].depends)[i])
    ensures !AllResolve(list, Requests(list, status))
  {
    EarlierPrefix(list, status, k, i);
    EarlierPrefix(list, status, k, i + 1);
    EarlierNext(list, status, k, i);
    var all, earlier := Requests(list, status), Earlier(list, status, k, i);
    assert all[..|earlier|] == earlier;
    assert all[|earlier|] == Earlier(list, status, k, i + 1)[|earlier|];
    if AllResolve(list, all) {
      ResolvePrefix(list, all, |earlier|);
    }
  }

  /** The inner search of depends_resolve. */
  method FindTarget(ghost list: seq<Package>, pkgs: Package?, name: string) returns (chk: Package?)
    requires Linked(pkgs, list)
    ensures chk == match Target(list, name) case None => null case Some(p) => p
    ensures chk != null ==> chk in list && (chk.package == name || StartsWithName(chk.provided, name))
    ensures chk == null ==> forall p :: p in list ==> p.package != name && !StartsWithName(p.provided, name)
  {
    TargetMeaning(list, name);
    chk := pkgs;
    ghost var k := 0;
    while chk != null && !Satisfies(chk, name)
      invariant k <= |list| && Linked(chk, list[k..]) && (chk != null ==> chk in list)
      invariant Target(list, name) == Target(list[k..], name)
      decreases |list| - k
    {
      assert list[k..][1..] == list[k + 1..];
      chk, k := chk.next, k + 1;
    }
  }

  ghost predicate WaitingInHeap(list: seq<Package>, requests: seq<Request>)
    reads list`requiredfor
  {
    forall c :: c in list ==> c.requiredfor == Waiting(list, requests, c)
  }

  /** All the requests so far were resolved, and the packages record who waits. */
  ghost predicate Resolved(list: seq<Package>, requests: seq<Request>)
    reads list`requiredfor
  {
    WaitingInHeap(list, requests) && AllResolve(list, requests)
  }

  /** One unmet dependency (lines 134-155): record that pkg waits for its target. */
  method ResolveOne(ghost list: seq<Package>, ghost requests: seq<Request>, pkgs: Package?, pkg: Package, name: string)
    returns (ok: bool)
    requires Linked(pkgs, list) && Resolved(list, requests)
    modifies list`requiredfor
    ensures ok <==> CanResolve(list, requests, name)
    ensures ok ==> Resolved(list, requests + [(pkg, name)])
  {
    var chk := FindTarget(list, pkgs, name);
    if chk == null || |chk.requiredfor| >= DEPENDSMAX {
      return false;
    }
    assert (requests + [(pkg, name)])[..|requests|] == requests;
    if chk != pkg {
      chk.requiredfor := chk.requiredfor + [pkg];
    }
    return true;
  }

  /** The i-th dependency of the k-th package. */
  method ResolveName(ghost list: seq<Package>, ghost k: nat, ghost i: nat, pkgs: Package?, pkg: Package, name: string,
                     status: map<string, StatusBits>)
    returns (ok: bool)
    requires k < |list| && pkg == list[k] && Linked(pkgs, list)
    requires i < |Dependencies(pkg.depends)| && name == Dependencies(pkg.depends)[i]
    requires Resolved(list, Earlier(list, status, k, i))
    modifies list`requiredfor
    ensures ok ==> Resolved(list, Earlier(list, status, k, i + 1))
    ensures !ok ==> !AllResolve(list, Requests(list, status))
  {
    EarlierNext(list, status, k, i);
    ok := true;
    if IsInstalled(status, name) {
      assert Earlier(list, status, k, i + 1) == Earlier(list, status, k, i);
    } else {
      ok := ResolveOne(list, Earlier(list, status, k, i), pkgs, pkg, name);
      if !ok {
        Unresolved(list, status, k, i);
      }
    }
  }

  /** The dependencies of one package, in order. */
  method ResolvePackage(ghost list: seq<Package>, ghost k: nat, pkgs: Package?, pkg: Package, status: map<string, StatusBits>)
    returns (ok: bool)
    requires k < |list| && pkg == list[k] && Linked(pkgs, list)
    requires Resolved(list, Requests(list[..k], status))
    modifies list`requiredfor
    ensures ok ==> Resolved(list, Requests(list[..k + 1], status))
    ensures !ok ==> !AllResolve(list, Requests(list, status))
  {
    var names := ReadDepends(pkg.depends);
    var i := 0;
    assert Earlier(list, status, k, 0) == Requests(list[..k], status);
    while i < |names|
      invariant 0 <= i <= |names|
      invariant Resolved(list, Earlier(list, status, k, i))
    {
      ok := ResolveName(list, k, i, pkgs, pkg, names[i], status);
      if !ok {
        return;
      }
      i := i + 1;
    }
    EarlierEnd(list, status, k);
    ok := true;
  }

  /** depends_resolve. The result is null exactly when there is nothing to install
      or some dependency cannot be resolved. Otherwise it is linked from the old
      head, holds what the head leads to (and nothing else of the list), and is in
      dependency order exactly when no cycle can be reached from the head. */
  method DependsResolve(ghost list: seq<Package>, pkgs: Package?, status: map<string, StatusBits>)
    returns (ordered: Package?, ghost out: seq<Package>)
    requires Linked(pkgs, list) && Distinct(list)
    requires forall p :: p in list ==> p.requiredfor == []
    modifies list`requiredfor, list`color, list`next
    ensures ordered == null <==> list == [] || !AllResolve(list, Requests(list, status))
    ensures ordered != null ==> ordered == pkgs && Linked(ordered, out) && SortedFrom(list, status, pkgs, out)
  {
    ordered, out := null, [];
    var pkg := pkgs;
    ghost var k := 0;
    while pkg != null
      invariant 0 <= k <= |list| && pkg == (if k < |list| then list[k] else null)
      invariant Linked(pkgs, list)
      invariant Resolved(list, Requests(list[..k], status))
      decreases |list| - k
    {
      var ok := ResolvePackage(list, k, pkgs, pkg, status);
      if !ok {
        return;
      }
      LinkedAt(pkgs, list, k);
      pkg, k := pkg.next, k + 1;
    }
    assert list[..k] == list;
    ordered, out := SortResolved(list, pkgs, status);
  }

  /** The call of depends_sort on the graph that has been built. */
  method SortResolved(ghost list: seq<Package>, pkgs: Package?, ghost status: map<string, StatusBits>)
    returns (ordered: Package?, ghost out: seq<Package>)
    requires Linked(pkgs, list) && WaitingInHeap(list, Requests(list, status))
    modifies list`color, list`next
    ensures ordered == pkgs
    ensures ordered != null ==> SortedFrom(list, status, pkgs, out) && Linked(ordered, out)
  {
    ghost var g := GraphOf(list, Requests(list, status));
    GraphIsBuilt(list, status);
    assert Elems(list) == g.Keys;
    assert forall p :: p in g ==> p in list;
    ordered, out := DependsSort(g, list, pkgs);
    if pkgs != null {
      OrdersAgree(list, status, g, out, pkgs);
    }
  }

  /** What the head leads to, each package once, in dependency order exactly when
      no cycle can be reached from the head. */
  ghost predicate SortedFrom(list: seq<Package>, status: map<string, StatusBits>, head: Package, out: seq<Package>) {
    var g := GraphOf(list, Requests(list, status));
    && Distinct(out)
    && Elems(out) == From(g, head)
    && (DependencyOrder(list, status, out) <==> AcyclicFrom(g, head))
  }

  lemma GraphIsBuilt(list: seq<Package>, status: map<string, StatusBits>)
    requires WaitingInHeap(list, Requests(list, status))
    ensures GraphInHeap(GraphOf(list, Requests(list, status)))
  {
    var g := GraphOf(list, Requests(list, status));
    forall p | p in g ensures p.requiredfor == g[p] {
      assert p in Elems(list);
    }
    forall p, s | p in g && s in g[p] ensures s in g {
      EdgeMeaning(list, status, p, s);
      assert s in Elems(list);
    }
  }

  /** The walk starts at the head only: any other package that waits for nothing
      in the list is not returned, so it is not installed. */
  lemma WaitsForNothingIsDropped(list: seq<Package>, status: map<string, StatusBits>, head: Package, p: Package)
    requires head in list && p in list && p != head
    requires forall c :: c in list ==> !DependsOn(list, status, p, c)
    ensures p !in From(GraphOf(list, Requests(list, status)), head)
  {
    var g := GraphOf(list, Requests(list, status));
    if p in From(g, head) {
      var n: nat :| Steps(g, head, p, n);
      var m :| m in g && Steps(g, head, m, n - 1) && p in g[m];
      assert m in Elems(list);
      EdgeMeaning(list, status, m, p);
    }
  }

  /** A dependency that one package of the list meets, and that is not met yet, is a
      dependency on that package: so in a sorted list the package comes first. */
  lemma OnlyProviderIsNeeded(list: seq<Package>, status: map<string, StatusBits>, p: Package, c: Package, name: string)
    requires p in list && c in list && p != c && name in Dependencies(p.depends) && !IsInstalled(status, name)
    requires c.package == name || StartsWithName(c.provided, name)
    requires forall q :: q in list && q != c ==> q.package != name && !StartsWithName(q.provided, name)
    ensures DependsOn(list, status, p, c)
    ensures forall out :: DependencyOrder(list, status, out) ==>
      forall i, j :: 0 <= i < |out| && 0 <= j < |out| && out[i] == c && out[j] == p ==> i < j
  {
    TargetMeaning(list, name);
    assert Target(list, name) == Some(c);
  }

  /** Two packages, the first of which only the second one's name or Provides field can
      satisfy: the list can be resolved, whichever comes first. */
  lemma ProvidedResolves(p: Package, c: Package, status: map<string, StatusBits>, name: string)
    requires p != c && Dependencies(p.depends) == [name] && Dependencies(c.depends) == [] && !IsInstalled(status, name)
    requires c.package == name || StartsWithName(c.provided, name)
    requires p.package != name && !StartsWithName(p.provided, name)
    ensures AllResolve([c, p], Requests([c, p], status)) && AllResolve([p, c], Requests([p, c], status))
    ensures DependsOn([c, p], status, p, c) && DependsOn([p, c], status, p, c)
  {
    OnlyProviderIsNeeded([c, p], status, p, c, name);
    OnlyProviderIsNeeded([p, c], status, p, c, name);
    RequestsOfTwo(c, p, status);
    RequestsOfTwo(p, c, status);
    UnmetOne(p, name, status);
    OneRequestResolves([c, p], p, c, name);
    OneRequestResolves([p, c], p, c, name);
  }

  lemma RequestsOfTwo(p: Package, q: Package, status: map<string, StatusBits>)
    ensures Requests([p, q], status) == UnmetOf(p, Dependencies(p.depends), status) + UnmetOf(q, Dependencies(q.depends), status)
  {
    assert [p, q][..1] == [p] && [p][..0] == [];
    assert Requests([p], status) == [] + UnmetOf(p, Dependencies(p.depends), status);
  }

  lemma UnmetOne(p: Package, name: string, status: map<string, StatusBits>)
    requires !IsInstalled(status, name)
    ensures UnmetOf(p, [name], status) == [(p, name)]
  {
    assert [name][..0] == [];
  }

  lemma OneRequestResolves(list: seq<Package>, p: Package, c: Package, name: string)
    requires Target(list, name) == Some(c)
    ensures AllResolve(list, [(p, name)])
  {
    assert [(p, name)][..0] == [] && Waiting(list, [], c) == [] && AllResolve(list, []);
    assert CanResolve(list, [], name);
  }
}

/** udpkg --install (packages/udpkg/udpkg.c): the packages are sorted by their
    dependencies and installed, and then merged into the status file by a walk over the
    links that the sort has rewritten. */
module UdpkgInstall {
  import opened Wrappers
  import opened UdpkgDepends
  import opened UdpkgStatusWords
  import opened UdpkgStatusFile
  import opened UdpkgLocking

  /** The statuses in a tree, as the dependency check looks them up. */
  function StatusesOf(tree: Tree): map<string, StatusBits> {
    map name | name in tree :: tree[name].status
  }

  /** The other fields that are printed for a package. */
  function BodyOf(p: Package): seq<string> {
    (if p.depends == "" then [] else ["Depends: " + p.depends]) +
    (if p.provided.None? then [] else [PROVIDES + p.provided.value])
  }

  /** What is merged for the packages, given the statuses that installing left. */
  function ProcessedOf(out: seq<Package>, outcome: Package -> StatusBits): (pkgs: seq<Processed>)
    ensures |pkgs| == |out|
    ensures forall i :: 0 <= i < |pkgs| ==> pkgs[i] == Processed(out[i].package, outcome(out[i]), BodyOf(out[i]))
  {
    seq(|out|, i requires 0 <= i < |out| => Processed(out[i].package, outcome(out[i]), BodyOf(out[i])))
  }

  /** Something is installed: the control information was unpacked, and the dependencies
      of all packages can be resolved. */
  predicate Installs(list: seq<Package>, status: map<string, StatusBits>, unpacked: bool) {
    unpacked && list != [] && AllResolve(list, Requests(list, status))
  }

  /** dpkg_install between lock and unlock; unpacked says whether the control
      information of all packages could be read. The file is left alone unless something
      is installed; then it is merged with exactly the list that the sort returns. */
  method DpkgInstall(ghost list: seq<Package>, pkgs: Package?, file: seq<Block>, unpacked: bool, outcome: Package -> StatusBits)
    returns (file': seq<Block>, ghost out: seq<Package>)
    requires Linked(pkgs, list) && Distinct(list)
    requires forall p :: p in list ==> p.requiredfor == []
    modifies list`requiredfor, list`color, list`next
    ensures var tree := TreeOf(file);
      if Installs(list, StatusesOf(tree), unpacked) then
        && SortedFrom(list, StatusesOf(tree), list[0], out)
        && file' == Merged(tree, ProcessedOf(out, outcome), file)
      else
        file' == file
  {
    var tree := TreeOf(file);
    var status := StatusesOf(tree);
    out := [];
    if !unpacked {
      return file, out;
    }
    var ordered;
    ordered, out := DependsResolve(list, pkgs, status);
    if ordered == null {
      return file, out;
    }
    var processed := MergeList(ordered, out, outcome);
    file' := Merged(tree, processed, file);
  }

  /** The walk of status_merge over the packages. */
  method MergeList(pkgs: Package?, ghost out: seq<Package>, outcome: Package -> StatusBits) returns (processed: seq<Processed>)
    requires Linked(pkgs, out)
    ensures processed == ProcessedOf(out, outcome)
  {
    processed := [];
    var p := pkgs;
    ghost var k := 0;
    while p != null
      invariant k <= |out| && p == (if k < |out| then out[k] else null)
      invariant processed == ProcessedOf(out[..k], outcome)
      decreases |out| - k
    {
      LinkedAt(pkgs, out, k);
      processed := processed + [Processed(p.package, outcome(p), BodyOf(p))];
      assert out[..k + 1] == out[..k] + [out[k]];
      p, k := p.next, k + 1;
    }
    assert out[..k] == out;
  }

  predicate Named(out: seq<Package>, name: string) {
    exists i :: 0 <= i < |out| && out[i].package == name
  }

  lemma HasIsNamed(out: seq<Package>, outcome: Package -> StatusBits, name: string)
    ensures Has(ProcessedOf(out, outcome), name) <==> Named(out, name)
  {
    var pkgs := ProcessedOf(out, outcome);
    if Named(out, name) {
      var i :| 0 <= i < |out| && out[i].package == name;
      assert pkgs[i].name == name;
    }
    if Has(pkgs, name) {
      var i :| 0 <= i < |pkgs| && pkgs[i].name == name;
      assert out[i].package == name;
    }
  }

  lemma {:induction false} StatusOfHas(pkgs: seq<Processed>, name: string)
    ensures StatusOf(pkgs, name).Some? <==> Has(pkgs, name)
  {
    if pkgs != [] {
      StatusOfHas(pkgs[1..], name);
      if Has(pkgs, name) {
        var i :| 0 <= i < |pkgs| && pkgs[i].name == name;
        assert i > 0 ==> pkgs[1..][i - 1].name == name;
      }
      if Has(pkgs[1..], name) {
        var i :| 0 <= i < |pkgs[1..]| && pkgs[1..][i].name == name;
        assert pkgs[i + 1].name == name;
      }
    }
  }

  /** After an install the file names what it named before and the packages that the
      sort returned, nothing else; and the others have the status they had. */
  lemma InstalledFile(file: seq<Block>, out: seq<Package>, outcome: Package -> StatusBits, name: string)
    requires AllValid(file)
    ensures var file' := Merged(TreeOf(file), ProcessedOf(out, outcome), file);
      && (StatusIn(file', name).Some? <==> Named(out, name) || StatusIn(file, name).Some?)
      && (!Named(out, name) ==> StatusIn(file', name) == StatusIn(file, name))
  {
    var tree, pkgs := TreeOf(file), ProcessedOf(out, outcome);
    StatusInMerged(tree, pkgs, file, name);
    HasIsNamed(out, outcome, name);
    StatusOfHas(pkgs, name);
    if StatusIn(file, name).Some? {
      CachedStatus(file, name);
      StatusInIsNormal(file, name);
    }
  }

  /** A new package whose name no other one has is recorded exactly when the head of the
      list leads to it. */
  lemma RecordedIffReached(list: seq<Package>, file: seq<Block>, out: seq<Package>, outcome: Package -> StatusBits, p: Package)
    requires AllValid(file) && list != [] && p in list && StatusIn(file, p.package).None?
    requires SortedFrom(list, StatusesOf(TreeOf(file)), list[0], out)
    requires forall q :: q in list && q.package == p.package ==> q == p
    ensures var g := GraphOf(list, Requests(list, StatusesOf(TreeOf(file))));
      StatusIn(Merged(TreeOf(file), ProcessedOf(out, outcome), file), p.package).Some? <==> Reach(g, list[0], p)
  {
    var g := GraphOf(list, Requests(list, StatusesOf(TreeOf(file))));
    InstalledFile(file, out, outcome, p.package);
    assert p in Elems(list);
    assert p in From(g, list[0]) <==> Reach(g, list[0], p);
    if Named(out, p.package) {
      var i :| 0 <= i < |out| && out[i].package == p.package;
      assert out[i] in Elems(out);
      assert out[i] in list;
    }
    if p in Elems(out) {
      var i :| 0 <= i < |out| && out[i] == p;
    }
  }

  /** In particular every package but the first, when none waits for another. */
  lemma OnlyFirstIsRecorded(list: seq<Package>, file: seq<Block>, out: seq<Package>, outcome: Package -> StatusBits, p: Package)
    requires AllValid(file) && list != [] && p in list && p != list[0] && StatusIn(file, p.package).None?
    requires SortedFrom(list, StatusesOf(TreeOf(file)), list[0], out)
    requires forall q :: q in list && q.package == p.package ==> q == p
    requires forall c :: c in list ==> !DependsOn(list, StatusesOf(TreeOf(file)), p, c)
    ensures StatusIn(Merged(TreeOf(file), ProcessedOf(out, outcome), file), p.package).None?
  {
    RecordedIffReached(list, file, out, outcome, p);
    WaitsForNothingIsDropped(list, StatusesOf(TreeOf(file)), list[0], p);
    assert p in Elems(list);
  }

  lemma BodyIsBody(p: Package, i: nat)
    requires i < |BodyOf(p)|
    ensures IsBody(BodyOf(p)[i])
  {
    var line := BodyOf(p)[i];
    if p.depends != "" && i == 0 {
      assert line[0] == 'D' && PACKAGE[0] == 'P' && STATUS[0] == 'S' && PROVIDES[0] == 'P';
    } else {
      assert line[0] == 'P' && line[1] == 'r' && PACKAGE[1] == 'a' && STATUS[0] == 'S';
    }
  }

  /** The file stays well formed. */
  lemma InstalledIsWellFormed(file: seq<Block>, out: seq<Package>, outcome: Package -> StatusBits)
    requires AllValid(file)
    ensures AllValid(Merged(TreeOf(file), ProcessedOf(out, outcome), file))
  {
    var pkgs := ProcessedOf(out, outcome);
    forall i, j | 0 <= i < |pkgs| && 0 <= j < |pkgs[i].body| ensures IsBody(pkgs[i].body[j]) {
      BodyIsBody(out[i], j);
    }
    MergeIsWellFormed(TreeOf(file), pkgs, file);
  }

  lemma BodyProvides(p: Package)
    ensures ProvidedBy(BodyOf(p)) == p.provided
  {
    var depends := if p.depends == "" then [] else ["Depends: " + p.depends];
    var names := if p.provided.None? then [] else [PROVIDES + p.provided.value];
    ProvidedByTwo(depends, names);
    if p.depends != "" {
      assert depends[0][0] == 'D' && depends[..0] == [];
    }
    if p.provided.Some? {
      var line := names[0];
      ClassifyFields(p.provided.value);
      assert line[..10] == PROVIDES && line[10..] == p.provided.value && line[0] == PROVIDES[0] && line[1] == PROVIDES[1];
    }
  }

  /** What the file says of a package that was installed. */
  lemma InstalledStanza(file: seq<Block>, out: seq<Package>, outcome: Package -> StatusBits, i: nat)
    requires i < |out|
    ensures var p, file' := out[i], Merged(TreeOf(file), ProcessedOf(out, outcome), file);
      exists k :: 0 <= k < |file'| && file'[k].Lines() ==
        ["Package: " + p.package, "Status: " + PrintStatus(outcome(p))]
        + ((if p.depends == "" then [] else ["Depends: " + p.depends])
           + (if p.provided.None? then [] else ["Provides: " + p.provided.value]))
        + [""]
  {
    var tree, pkgs := TreeOf(file), ProcessedOf(out, outcome);
    var file' := Merged(tree, pkgs, file);
    var k := |Kept(tree, pkgs, file)| + i;
    assert file'[k] == pkgs[i].AsBlock();
    ProcessedText(pkgs[i]);
    ClassifyFields("");
  }

  /** The names that installed packages provide are known from then on. */
  lemma ProvidedIsKnown(file: seq<Block>, out: seq<Package>, outcome: Package -> StatusBits, i: nat)
    requires AllValid(file) && i < |out| && out[i].provided.Some?
    ensures out[i].provided.value in TreeOf(Merged(TreeOf(file), ProcessedOf(out, outcome), file))
  {
    var tree, pkgs := TreeOf(file), ProcessedOf(out, outcome);
    var file' := Merged(tree, pkgs, file);
    var k := |Kept(tree, pkgs, file)| + i;
    assert file'[k] == pkgs[i].AsBlock();
    assert [] + BodyOf(out[i]) == BodyOf(out[i]);
    BodyProvides(out[i]);
    ProvidedSomewhere(file', k, out[i].provided.value);
    InstalledIsWellFormed(file, out, outcome);
    ReadTree(file', out[i].provided.value);
  }
}

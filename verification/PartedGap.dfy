/** The gap at the end of a disk over runs of commands: which commands of parted_server
    keep it, and how a resize loses it (packages/partman-base/parted_server.c). */
module PartedGap {
  import opened Wrappers
  import opened PartedTable
  import opened PartedSpec

  /** Every ordinary partition leaves the gap on a device of so many sectors. */
  ghost predicate InGap(t: Table, length: nat) {
    forall p :: p in ListedOf(t.parts) ==> p.end <= GapEnd(t.sectorSize, length)
  }

  ghost predicate DeviceInGap(d: Device, sizes: string -> nat) {
    d.dev.Some? && d.disk.Some? ==> InGap(d.disk.value, sizes(d.dev.value))
  }

  ghost predicate StorageInGap(storage: map<string, Table>, sizes: string -> nat) {
    forall path :: path in storage ==> InGap(storage[path], sizes(path))
  }

  ghost predicate StateInGap(s: State, sizes: string -> nat) {
    StorageInGap(s.storage, sizes) && forall i :: 0 <= i < |s.devices| ==> DeviceInGap(s.devices[i], sizes)
  }

  /** Any command but the two that resize. The size that constrains a new partition is
      that of the device, and a new label does not itself fill the gap. */
  ghost predicate Careful(d: Device, c: Command, sizes: string -> nat) {
    && !c.ResizePartition? && !c.VirtualResizePartition?
    && (d.dev.Some? ==>
        && (c.NewPartition? ==> c.placed.sectors == Some(sizes(d.dev.value)))
        && (c.NewLabel? && c.newTable.Some? ==> InGap(c.newTable.value, sizes(d.dev.value))))
  }

  // ---------------------------------------------------------------------
  // Tables

  lemma SameListedInGap(t: Table, t': Table, length: nat)
    requires InGap(t, length) && t'.sectorSize == t.sectorSize
    requires forall p :: p in ListedOf(t'.parts) ==> exists q :: q in ListedOf(t.parts) && q.end == p.end
    ensures InGap(t', length)
  {
  }

  lemma StretchedInGap(t: Table, moved: Table, length: nat)
    requires InGap(t, length)
    ensures InGap(Stretched(t, moved), length) && InGap(Minimized(t, moved), length)
  {
  }

  lemma {:induction false} NotLogicalOf(parts: seq<Partition>, p: Partition)
    requires p in NotLogical(parts)
    ensures p in parts
  {
    if p in NotLogical(parts[..|parts| - 1]) {
      NotLogicalOf(parts[..|parts| - 1], p);
    }
  }

  lemma RemainingOf(place: ValidPlace, p: Partition)
    requires p in Remaining(place)
    ensures p in ListedOf(place.table.parts)
  {
    var parts, i := place.table.parts, place.index;
    if place.Part().kind.Extended? {
      NotLogicalOf(ListedOf(parts), p);
    } else {
      ListedMeaning(parts[..i], p);
      ListedMeaning(parts[i + 1..], p);
      ListedMeaning(parts, p);
    }
  }

  lemma WithoutPartInGap(place: ValidPlace, after: Table, length: nat)
    requires InGap(place.table, length)
    ensures InGap(WithoutPart(place, after), length)
  {
    StretchedInGap(place.table, after, length);
    forall p | p in Remaining(place) ensures p.end <= GapEnd(place.table.sectorSize, length) {
      RemainingOf(place, p);
    }
  }

  lemma WithPartInGap(place: ValidPlace, p: Partition, length: nat)
    requires InGap(place.table, length)
    requires p.start == place.Part().start && p.end == place.Part().end && p.kind == place.Part().kind
    ensures InGap(WithPart(place, p).value, length)
  {
    var t, t' := place.table, WithPart(place, p).value;
    forall q | q in ListedOf(t'.parts) ensures q.end <= GapEnd(t.sectorSize, length) {
      ListedMeaning(t'.parts, q);
      var k :| 0 <= k < |t'.parts| && t'.parts[k] == q;
      ListedMeaning(t.parts, t.parts[k]);
      assert t.parts[k] in ListedOf(t.parts);
    }
  }

  lemma WithNewInGap(t: Table, r: NewRequest, a: Placement, length: nat)
    requires InGap(t, length) && a.sectors == Some(length)
    ensures InGap(WithNew(t, r, a), length)
  {
    if Created(t, r, a) {
      CreatedAdds(t, r, a);
    } else {
      StretchedInGap(t, a.after, length);
    }
  }

  // ---------------------------------------------------------------------
  // Commands

  lemma EditInGap(d: Device, storage: map<string, Table>, c: Command, sizes: string -> nat)
    requires Edits(c) && Careful(d, c, sizes) && DeviceInGap(d, sizes) && d.dev.Some? && StepEdit(d, storage, c).Go?
    ensures DeviceInGap(StepEdit(d, storage, c).device, sizes) && StepEdit(d, storage, c).storage == storage
  {
    var length := sizes(d.dev.value);
    match c {
      case SetFlags(_, id, flags, _) =>
        var place := Find(d, id).place;
        AttributeInGap(d, place, place.Part().(flags := flags), StepEdit(d, storage, c).device, sizes);
      case SetName(_, id, _, newName) =>
        var place := Find(d, id).place;
        AttributeInGap(d, place, place.Part().(name := newName.value), StepEdit(d, storage, c).device, sizes);
      case ChangeFileSystem(_, id, fs) =>
        ChangeFsInGap(d, storage, Find(d, id).place, fs, sizes);
      case NewPartition(_, request, _, placed) =>
        WithNewInGap(d.disk.value, request.value, placed, length);
      case DeletePartition(_, id, _, after) =>
        var f := Find(d, id);
        if f.At? {
          WithoutPartInGap(f.place, after, length);
        }
      case _ =>
    }
  }

  lemma ChangeFsInGap(d: Device, storage: map<string, Table>, place: ValidPlace, fs: FsChoice, sizes: string -> nat)
    requires DeviceInGap(d, sizes) && d.dev.Some? && d.disk == Some(place.table) && ChangeFsEffect(d, storage, place, fs).Go?
    ensures DeviceInGap(ChangeFsEffect(d, storage, place, fs).device, sizes)
    ensures ChangeFsEffect(d, storage, place, fs).storage == storage
  {
    var p, e := place.Part(), ChangeFsEffect(d, storage, place, fs).device;
    match fs {
      case Flag(flag, _) => AttributeInGap(d, place, p.(flags := p.flags + {flag}), e, sizes);
      case System(system) => AttributeInGap(d, place, p.(system := system), e, sizes);
    }
  }

  lemma AttributeInGap(d: Device, place: ValidPlace, p: Partition, e: Device, sizes: string -> nat)
    requires DeviceInGap(d, sizes) && d.dev.Some? && d.disk == Some(place.table)
    requires p.start == place.Part().start && p.end == place.Part().end && p.kind == place.Part().kind
    requires e == d || e == d.(changed := true, disk := WithPart(place, p))
    ensures DeviceInGap(e, sizes)
  {
    WithPartInGap(place, p, sizes(d.dev.value));
  }

  lemma WriteInGap(d: Device, storage: map<string, Table>, raised: seq<Reply>, written: bool, sizes: string -> nat)
    requires DeviceInGap(d, sizes) && StorageInGap(storage, sizes) && d.dev.Some? && d.disk.Some?
    requires WriteAndRemember(d, storage, raised, written).Go?
    ensures var e := WriteAndRemember(d, storage, raised, written); DeviceInGap(e.device, sizes) && StorageInGap(e.storage, sizes)
  {
  }

  lemma MinimizeInGap(d: Device, storage: map<string, Table>, c: Command, sizes: string -> nat)
    requires c.Partitions? && DeviceInGap(d, sizes) && d.dev.Some? && StepQuery(d, storage, c).Go?
    ensures DeviceInGap(StepQuery(d, storage, c).device, sizes) && StepQuery(d, storage, c).storage == storage
  {
    var e := StepQuery(d, storage, c);
    if d.disk.Some? {
      StretchedInGap(d.disk.value, c.moved, sizes(d.dev.value));
      assert e.device == d || e.device == d.(disk := Some(Minimized(d.disk.value, c.moved)));
    }
  }

  lemma RangeInGap(d: Device, storage: map<string, Table>, place: ValidPlace, moved: Table, sizes: string -> nat)
    requires DeviceInGap(d, sizes) && d.disk == Some(place.table)
    ensures var e := RangeEffect(d, storage, place, moved); DeviceInGap(e.device, sizes) && e.storage == storage
  {
    if d.dev.Some? {
      StretchedInGap(place.table, moved, sizes(d.dev.value));
    }
  }

  lemma StretchInGap(d: Device, storage: map<string, Table>, c: Command, sizes: string -> nat)
    requires c.GetResizeRange? || c.GetVirtualResizeRange?
    requires DeviceInGap(d, sizes) && d.dev.Some? && StepQuery(d, storage, c).Go?
    ensures DeviceInGap(StepQuery(d, storage, c).device, sizes) && StepQuery(d, storage, c).storage == storage
  {
    var f, e := Find(d, c.id), StepQuery(d, storage, c);
    RangeInGap(d, storage, f.place, c.moved, sizes);
    assert e == Go(d, storage) || e == RangeEffect(d, storage, f.place, c.moved);
  }

  lemma ReadInGap(d: Device, storage: map<string, Table>, c: Command, sizes: string -> nat)
    requires c.Commit? || c.Undo?
    requires DeviceInGap(d, sizes) && StorageInGap(storage, sizes) && d.dev.Some? && StepQuery(d, storage, c).Go?
    ensures DeviceInGap(StepQuery(d, storage, c).device, sizes) && StorageInGap(StepQuery(d, storage, c).storage, sizes)
  {
    if c.Commit? && d.disk.Some? && d.changed {
      WriteInGap(d, storage, c.raised, c.written, sizes);
    }
  }

  lemma QueryInGap(d: Device, storage: map<string, Table>, c: Command, sizes: string -> nat)
    requires !c.Quit? && !c.Open? && !c.Close? && !c.Opened? && !c.GetLabelType? && !Edits(c)
    requires DeviceInGap(d, sizes) && StorageInGap(storage, sizes) && d.dev.Some? && StepQuery(d, storage, c).Go?
    ensures DeviceInGap(StepQuery(d, storage, c).device, sizes) && StorageInGap(StepQuery(d, storage, c).storage, sizes)
  {
    if c.Partitions? {
      MinimizeInGap(d, storage, c, sizes);
    } else if c.GetResizeRange? || c.GetVirtualResizeRange? {
      StretchInGap(d, storage, c, sizes);
    } else if c.Commit? || c.Undo? {
      ReadInGap(d, storage, c, sizes);
    } else {
      var e := StepQuery(d, storage, c);
      assert e.device.disk == d.disk && e.device.dev == d.dev && e.storage == storage;
    }
  }

  /** A command that does not resize keeps the gap, in memory and on storage. */
  lemma StepDeviceInGap(d: Device, storage: map<string, Table>, c: Command, sizes: string -> nat)
    requires !c.Quit? && Careful(d, c, sizes) && DeviceInGap(d, sizes) && StorageInGap(storage, sizes)
    requires StepDevice(d, storage, c).Go?
    ensures DeviceInGap(StepDevice(d, storage, c).device, sizes) && StorageInGap(StepDevice(d, storage, c).storage, sizes)
  {
    if c.Open? || c.Close? || c.Opened? || c.GetLabelType? {
    } else if Edits(c) {
      EditInGap(d, storage, c, sizes);
    } else {
      QueryInGap(d, storage, c, sizes);
    }
  }

  lemma StepInGap(s: State, c: Command, sizes: string -> nat)
    requires StateInGap(s, sizes) && Step(s, c).Running? && Careful(DeviceNamed(s, c.name), c, sizes)
    ensures StateInGap(Step(s, c).state, sizes)
  {
    StepDeviceInGap(DeviceNamed(s, c.name), s.storage, c, sizes);
  }

  /** Each command of a run is careful where it is carried out. */
  ghost predicate AllCareful(s: State, commands: seq<Command>, sizes: string -> nat) {
    commands == [] ||
    (var init, c := commands[..|commands| - 1], commands[|commands| - 1];
     AllCareful(s, init, sizes) &&
     match Run(s, init)
     case Running(s') => c.Quit? || Careful(DeviceNamed(s', c.name), c, sizes)
     case Stopped(_) => true)
  }

  /** Over every run without a resize each ordinary partition leaves the gap. */
  lemma {:induction false} RunKeepsGap(s: State, commands: seq<Command>, sizes: string -> nat)
    requires StateInGap(s, sizes) && AllCareful(s, commands, sizes) && Run(s, commands).Running?
    ensures StateInGap(Run(s, commands).state, sizes)
  {
    if commands != [] {
      var init := commands[..|commands| - 1];
      RunKeepsGap(s, init, sizes);
      StepInGap(Run(s, init).state, commands[|commands| - 1], sizes);
    }
  }

  /** So no superblock of a partition is that of its disk. */
  lemma SuperblocksApart(t: Table, length: nat, p: Partition)
    requires InGap(t, length) && p in ListedOf(t.parts) && p.start >= 0 && SectorsFit(t.sectorSize)
    ensures SuperblockBelow(t.sectorSize, length, p.start, p.end)
  {
    ListedMeaning(t.parts, p);
    GapSuffices(t.sectorSize, length, p.start, p.end);
  }

  // ---------------------------------------------------------------------
  // Resizing

  /** A resize that fails keeps the gap too, when the old geometry is put back. */
  lemma FailedResizeInGap(place: ValidPlace, start: int, end: int, openFs: bool, a: ResizeAnswer, length: nat)
    requires var r := Resize(place, start, end, openFs, a); r.Resized? && !r.ok
    requires (a.restored || a.refused || !a.fits) && InGap(place.table, length)
    ensures InGap(Resize(place, start, end, openFs, a).place.table, length)
  {
    FailedResizeKeeps(place, start, end, openFs, a);
  }

  /** A resize to the last sector of a partition on storage, with no file system or
      exception in the way. */
  predicate ResizesToTheEnd(d: Device, c: Command, place: ValidPlace, length: nat) {
    && c.ResizePartition? && c.size.Some? && c.raised == [] && c.written && d.dev.Some? && d.disk.Some?
    && Find(d, c.id) == At(place) && !IsVirtual(d, place.Part())
    && EndFor(place, c.size.value) == length - 1 != place.Part().end
    && !c.answer.refused && c.answer.raised == [] && c.answer.fits && !c.answer.hasFs
    && |Geometries(Some(c.answer.after.table))| < MAX_PARTITION
    && c.answer.after.table.sectorSize == place.table.sectorSize
    && c.answer.after.Part() == place.Part().(end := length - 1)
  }

  /** It goes through, in memory and on storage. */
  lemma ResizeGoes(d: Device, storage: map<string, Table>, c: Command, place: ValidPlace, length: nat)
    requires ResizesToTheEnd(d, c, place, length)
    ensures var e := StepDevice(d, storage, c);
      e.Go? && e.device.disk == Some(c.answer.after.table) && e.storage == storage[d.dev.value := c.answer.after.table]
  {
    assert !AnyFatal([]);
  }

  /** Resizing is not held to the gap: where the partition begins and the disk ends at
      a boundary of 64 KiB, the partition that reaches the end has its superblock where
      the disk has its own. */
  lemma ResizeLosesGap(place: ValidPlace, after: ValidPlace, length: nat)
    requires place.Part().IsListed() && after.table.sectorSize == place.table.sectorSize
    requires after.Part() == place.Part().(end := length - 1)
    requires var g := GrainSize(place.table.sectorSize);
      g * place.table.sectorSize == 65536 && 0 <= place.Part().start < length && place.Part().start % g == 0 && length % g == 0
    ensures var p, ss := after.Part(), place.table.sectorSize;
      && p in ListedOf(after.table.parts) && !InGap(after.table, length)
      && p.start * ss + MdSuperblock((p.end - p.start + 1) * ss) == MdSuperblock(length * ss)
  {
    ListedMeaning(after.table.parts, after.Part());
    SameSuperblock(GrainSize(place.table.sectorSize), place.table.sectorSize, place.Part().start, length);
  }

  lemma SameSuperblock(g: int, ss: int, start: nat, length: nat)
    requires g > 0 && ss > 0 && g * ss == 65536 && start % g == 0 && length % g == 0 && start < length
    ensures start * ss + MdSuperblock((length - start) * ss) == MdSuperblock(length * ss)
  {
    var a, b := start / g, length / g;
    Blocks(g, ss, a);
    Blocks(g, ss, b);
    Distribute(length - start, start, ss);
    assert start == a * g && length == b * g;
    assert length * ss == b * 65536 && start * ss == a * 65536 && (length - start) * ss == (b - a) * 65536;
  }

  lemma Blocks(g: int, ss: int, k: int)
    requires g * ss == 65536
    ensures k * g * ss == k * 65536
  {
    Associate(k, g, ss);
  }

  /** The resize of the only partition of a disk to the end. */
  lemma OnlyPartition(t: Table, t': Table, length: nat) returns (d: Device, c: Command, place: ValidPlace)
    requires |t.parts| == |t'.parts| == 1 && t'.sectorSize == t.sectorSize && t.parts[0].IsListed()
    requires t'.parts[0] == t.parts[0].(end := length - 1) && 0 <= t.parts[0].start < length && t.parts[0].end != length - 1
    requires Geometries(Some(t)) == [(t.parts[0].start, t.parts[0].end)] && |Geometries(Some(t'))| < MAX_PARTITION
    ensures place == Place(t, 0) && ResizesToTheEnd(d, c, place, length) && DeviceInvariant(d)
  {
    var p, ss := t.parts[0], t.sectorSize;
    place := Place(t, 0);
    d := Device("sda", Some("/dev/sda"), Some(t), false, Geometries(Some(t)));
    var answer := ResizeAnswer(false, [], true, false, [], false, [], true, Place(t', 0));
    c := ResizePartition("sda", Some(IdOf(t, p)), Some((length - p.start) * ss), answer, [], true);
    IdRoundTrip(t, 0);
    MulDiv(length - p.start, ss);
    assert (p.start, p.end) == Geometries(Some(t))[0];
  }

  /** A disk with 512-byte sectors and one ordinary partition, from 2048 to this one. */
  ghost predicate OnePart(t: Table, end: int) {
    t.sectorSize == 512 && t.parts == [Partition(2048, end, Ordinary(false), "", {}, "")]
  }

  lemma ListedOnePart(t: Table, end: int)
    requires OnePart(t, end)
    ensures |t.parts| == 1 && t.parts[0].start == 2048 && t.parts[0].end == end && t.parts[0].kind.Ordinary?
    ensures ListedOf(t.parts) == [t.parts[0]]
  {
    assert t.parts[..0] == [];
    ListedSnoc([], t.parts[0]);
    assert [] + [t.parts[0]] == t.parts;
  }

  lemma GeometryOfOne(t: Table)
    requires |t.parts| == 1 && ListedOf(t.parts) == [t.parts[0]]
    ensures Geometries(Some(t)) == [(t.parts[0].start, t.parts[0].end)]
  {
  }

  lemma ListedSnoc(parts: seq<Partition>, p: Partition)
    requires p.kind.Ordinary?
    ensures ListedOf(parts + [p]) == ListedOf(parts) + [p]
  {
    assert (parts + [p])[..|parts|] == parts;
  }

  lemma GapOf8192()
    ensures GapEnd(512, 8192) == 8190
  {
  }

  lemma OnePartInGap(t: Table, end: int)
    requires OnePart(t, end)
    ensures InGap(t, 8192) <==> end <= 8190
  {
    GapOf8192();
    ListedOnePart(t, end);
    InGapOfOne(t, t.parts[0], 8192, 8190);
  }

  lemma InGapOfOne(t: Table, p: Partition, length: nat, last: int)
    requires ListedOf(t.parts) == [p] && GapEnd(t.sectorSize, length) == last
    ensures InGap(t, length) <==> p.end <= last
  {
    assert p in ListedOf(t.parts);
  }

  lemma TwoSizes(t: Table, t': Table)
    requires OnePart(t, 4095) && OnePart(t', 8191)
    ensures |t.parts| == |t'.parts| == 1 && t'.sectorSize == t.sectorSize && t.parts[0].IsListed()
    ensures t'.parts[0] == t.parts[0].(end := 8191)
    ensures Geometries(Some(t)) == [(t.parts[0].start, t.parts[0].end)] && |Geometries(Some(t'))| < MAX_PARTITION
  {
    ListedOnePart(t, 4095);
    ListedOnePart(t', 8191);
    GeometryOfOne(t);
    GeometryOfOne(t');
  }

  /** There is such a resize, of a partition that leaves the gap on a disk of 8192
      sectors. */
  lemma LosingResize(t: Table, t': Table) returns (d: Device, c: Command, place: ValidPlace)
    requires OnePart(t, 4095) && OnePart(t', 8191)
    ensures place == Place(t, 0) && ResizesToTheEnd(d, c, place, 8192) && DeviceInvariant(d)
  {
    TwoSizes(t, t');
    d, c, place := OnlyPartition(t, t', 8192);
  }

  lemma LosingSizes(t: Table)
    requires OnePart(t, 4095)
    ensures InGap(t, 8192) && t.parts[0].start == 2048
    ensures GrainSize(512) * 512 == 65536 && 2048 % GrainSize(512) == 8192 % GrainSize(512) == 0
  {
    OnePartInGap(t, 4095);
    assert GrainSize(512) == 128;
  }

  lemma OnePartExists(end: int) returns (t: Table)
    requires end >= 2048
    ensures OnePart(t, end)
  {
    t := Table("gpt", 512, 128, false, [Partition(2048, end, Ordinary(false), "", {}, "")]);
  }
}

/** What each command of parted_server does to the registry of devices and to the
    tables on storage, and what holds over every run of commands
    (packages/partman-base/parted_server.c). The answers of libparted, of the
    client and of the file system are arguments of the commands. */
module PartedSpec {
  import opened Wrappers
  import opened PartedTable

  // ---------------------------------------------------------------------
  // State

  datatype Device = Device(name: string, dev: Option<string>, disk: Option<Table>, changed: bool, geometries: seq<Range>)

  /** The registry, and the table that can be read from each device path. */
  datatype State = State(devices: seq<Device>, storage: map<string, Table>)

  datatype StopReason = QuitRequested | CriticalError | RegistryAssertion | CommandAssertion | NullPointer | Hangs

  datatype Outcome = Running(state: State) | Stopped(reason: StopReason)

  const MAX_PARTITION: nat := 50

  function Unopened(name: string): Device {
    Device(name, None, None, false, [])
  }

  function IndexOf(devices: seq<Device>, name: string): (i: nat)
    ensures i <= |devices|
    ensures i < |devices| ==> devices[i].name == name
    ensures forall k :: 0 <= k < i ==> devices[k].name != name
  {
    if devices == [] || devices[0].name == name then 0 else 1 + IndexOf(devices[1..], name)
  }

  function DeviceNamed(s: State, name: string): (d: Device)
    ensures d.name == name
  {
    var i := IndexOf(s.devices, name);
    if i < |s.devices| then s.devices[i] else Unopened(name)
  }

  /** The registry with the entry of that name replaced, or added at its end. */
  function WithDevice(devices: seq<Device>, d: Device): seq<Device> {
    var i := IndexOf(devices, d.name);
    if i < |devices| then devices[i := d] else devices + [d]
  }

  // ---------------------------------------------------------------------
  // Answers from outside

  /** The reply of the client to an exception: the server exits when there is
      none and when it is not among the options. */
  datatype Reply = Unhandled | Chosen | BadOption | EndOfInput

  predicate Fatal(r: Reply) {
    r.BadOption? || r.EndOfInput?
  }

  predicate AnyFatal(replies: seq<Reply>) {
    exists i :: 0 <= i < |replies| && Fatal(replies[i])
  }

  datatype TimerEvent = Tick | Raised(reply: Reply)

  predicate AnyFatalEvent(events: seq<TimerEvent>) {
    exists i :: 0 <= i < |events| && events[i].Raised? && Fatal(events[i].reply)
  }

  /** A partition in its table. */
  datatype Place = Place(table: Table, index: nat) {
    predicate Valid() {
      index < |table.parts|
    }

    function Part(): Partition
      requires Valid()
    {
      table.parts[index]
    }
  }

  const SAMPLE_PLACE := Place(Table("", 1, 0, false, [Partition(0, 0, Ordinary(false), "", {}, "")]), 0)

  type ValidPlace = p: Place | p.Valid() witness SAMPLE_PLACE

  /** What libparted answers while one partition is resized: whether there is a
      file system that cannot be handled, the exceptions raised by the change of
      geometry and whether it succeeds, whether there is a file system to resize,
      what happens while it is, how the old geometry is put back if that fails, and
      where the partition is in the end. */
  datatype ResizeAnswer = ResizeAnswer(refused: bool, raised: seq<Reply>, fits: bool, hasFs: bool, events: seq<TimerEvent>,
                                       resized: bool, restoring: seq<Reply>, restored: bool, after: ValidPlace)

  /** What NEW_PARTITION asks for, in bytes. */
  datatype NewRequest = NewRequest(logical: bool, system: string, range: Range, position: Position, length: int)

  /** What libparted makes of it: the size of the device in sectors (None on a
      device-mapper device), whether the sectors asked for meet its constraints, and the
      table with the new partition at an index. */
  datatype Placement = Placement(sectors: Option<nat>, asAsked: bool, created: bool, index: nat, after: Table)

  datatype FsChoice = System(system: string) | Flag(flag: string, available: bool)

  datatype Query =
    | PartitionInfo | GetChs | LabelTypes | ValidFlags | GetFlags | UsesNames | GetMaxPrimary
    | UsesExtended | FileSystemTypes | GetFileSystem | IsBusy | AlignmentOffset(cylinder: bool)

  /** An id that is None could not be parsed. */
  type Id = Option<Range>

  datatype Command =
    | Quit
    | Open(name: string, path: string, reply: Reply, raised: seq<Reply>, found: bool, readable: bool)
    | Close(name: string, reply: Reply)
    | Opened(name: string)
    | GetLabelType(name: string)
    | Virtual(name: string, id: Id)
    | DiskUnchanged(name: string)
    | IsChanged(name: string)
    | Dump(name: string, writable: bool, reply: Reply)
    | Commit(name: string, firmware: bool, raised: seq<Reply>, written: bool)
    | Undo(name: string, readable: bool)
    | Partitions(name: string, moved: Table)
    | Ask(name: string, query: Query, id: Id)
    | SetFlags(name: string, id: Id, flags: set<string>, complete: bool)
    | SetName(name: string, id: Id, allowed: bool, newName: Option<string>)
    | ChangeFileSystem(name: string, id: Id, fs: FsChoice)
    | NewLabel(name: string, known: bool, raised: seq<Reply>, reopened: bool, newTable: Option<Table>, reply: Reply)
    | NewPartition(name: string, request: Option<NewRequest>, raised: seq<Reply>, placed: Placement)
    | DeletePartition(name: string, id: Id, raised: seq<Reply>, after: Table)
    | ResizePartition(name: string, id: Id, size: Option<int>, answer: ResizeAnswer, raised: seq<Reply>, written: bool)
    | VirtualResizePartition(name: string, id: Id, size: Option<int>, answers: seq<ResizeAnswer>, raised: seq<Reply>, written: bool)
    | GetResizeRange(name: string, id: Id, unusableFs: bool, moved: Table)
    | GetVirtualResizeRange(name: string, id: Id, moved: Table)

  /** The commands that mark the device as changed. */
  predicate Edits(c: Command) {
    || c.SetFlags? || c.SetName? || c.ChangeFileSystem? || c.NewLabel? || c.NewPartition?
    || c.DeletePartition? || c.ResizePartition? || c.VirtualResizePartition?
  }

  // ---------------------------------------------------------------------
  // One command on one device

  datatype Effect = Go(device: Device, storage: map<string, Table>) | Halt(reason: StopReason)

  function Read(storage: map<string, Table>, path: string, readable: bool): Option<Table> {
    if readable && path in storage then Some(storage[path]) else None
  }

  /** Maximizing or minimizing the extended partition: libparted may move or
      remove it, and the free space and metadata around it, and nothing else. */
  predicate OnlyExtendedMoved(t: Table, t': Table) {
    t'.(parts := []) == t.(parts := []) && ListedOf(t'.parts) == ListedOf(t.parts)
  }

  /** minimize_extended_partition, which leaves dvh labels alone. */
  function Minimized(t: Table, moved: Table): Table {
    if t.labelType != "dvh" then Stretched(t, moved) else t
  }

  /** Maximizing it first, as for logical partitions, is done for every label. */
  function Stretched(t: Table, moved: Table): Table {
    if OnlyExtendedMoved(t, moved) then moved else t
  }

  /** unchange_named. */
  function Remember(d: Device, storage: map<string, Table>): Effect {
    var geometries := Geometries(d.disk);
    if |geometries| >= MAX_PARTITION then Halt(CriticalError)
    else Go(d.(changed := false, geometries := geometries), storage)
  }

  predicate IsVirtual(d: Device, p: Partition) {
    (p.start, p.end) !in d.geometries
  }

  datatype Found = At(place: ValidPlace) | Nowhere | BadId | NoTable

  /** partition_with_id, with the ways in which it does not come back. */
  function Find(d: Device, id: Id): (f: Found)
    ensures f.At? ==> d.disk == Some(f.place.table)
    ensures f.Nowhere? ==> d.disk.Some?
  {
    if id.None? then BadId
    else if d.disk.None? then NoTable
    else
      var i := FindFrom(d.disk.value, id.value, 0);
      if i.Some? then At(Place(d.disk.value, i.value)) else Nowhere
  }

  /** What a failed lookup leads to, given what the caller does without one. */
  function NotFound(f: Found, missing: StopReason): StopReason {
    match f
    case BadId => CriticalError
    case NoTable => NullPointer
    case _ => missing
  }

  lemma SoundWithPart(place: ValidPlace, p: Partition)
    requires p.start == place.Part().start && p.end == place.Part().end && p.kind == place.Part().kind
    ensures place.table.(parts := place.table.parts[place.index := p]).Sound()
  {
    var t := place.table;
    var t' := t.(parts := t.parts[place.index := p]);
    assert forall j :: 0 <= j < |t.parts| ==>
      t'.parts[j].kind == t.parts[j].kind && t'.parts[j].start == t.parts[j].start && t'.parts[j].end == t.parts[j].end;
    SameKinds(t, t');
  }

  lemma SameKinds(t: Table, t': RawTable)
    requires |t'.parts| == |t.parts|
    requires forall j :: 0 <= j < |t.parts| ==>
      t'.parts[j].kind == t.parts[j].kind && t'.parts[j].start == t.parts[j].start && t'.parts[j].end == t.parts[j].end
    ensures t'.Sound()
  {
    if t.HasExtended() {
      var e :| 0 <= e < |t.parts| && t.parts[e].kind.Extended?;
      assert t'.parts[e].kind.Extended?;
    }
    forall j | 0 <= j < |t'.parts| && t'.parts[j].IsLogical() ensures t'.HasExtended() {
      assert t.parts[j].IsLogical();
    }
  }

  function WithPart(place: ValidPlace, p: Partition): Option<Table>
    requires p.start == place.Part().start && p.end == place.Part().end && p.kind == place.Part().kind
  {
    SoundWithPart(place, p);
    Some(place.table.(parts := place.table.parts[place.index := p]))
  }

  datatype Resized = Resized(ok: bool, place: ValidPlace) | Interrupted

  /** The partition as it was, in a table whose extended partition may have moved. */
  function Unmoved(place: ValidPlace, after: ValidPlace): ValidPlace {
    if OnlyExtendedMoved(place.table, after.table) && after.Part() == place.Part() then after else place
  }

  /** resize_partition. */
  function Resize(place: ValidPlace, start: int, end: int, openFs: bool, a: ResizeAnswer): Resized {
    if place.Part().start == start && place.Part().end == end then Resized(true, place)
    else if a.refused then Resized(false, place)
    else if AnyFatal(a.raised) then Interrupted
    else if !a.fits then Resized(false, Unmoved(place, a.after))
    else if !openFs || !a.hasFs then Resized(true, a.after)
    else if AnyFatalEvent(a.events) then Interrupted
    else if a.resized then Resized(true, a.after)
    else if AnyFatal(a.restoring) then Interrupted
    else Resized(false, if a.restored then Unmoved(place, a.after) else a.after)
  }

  /** A resize that fails leaves the partition and all the others as they were, unless
      the old geometry could not be put back. */
  lemma FailedResizeKeeps(place: ValidPlace, start: int, end: int, openFs: bool, a: ResizeAnswer)
    requires var r := Resize(place, start, end, openFs, a); r.Resized? && !r.ok
    requires a.restored || a.refused || !a.fits
    ensures var r := Resize(place, start, end, openFs, a);
      r.place.Part() == place.Part() && ListedOf(r.place.table.parts) == ListedOf(place.table.parts)
  {
  }

  function ByteLength(place: ValidPlace): int {
    (place.Part().end - place.Part().start + 1) * place.table.sectorSize
  }

  /** The loop of VIRTUAL_RESIZE_PARTITION: the end grows by one sector until the
      partition is large enough. None when the answers run out before it is. */
  function ResizeUntil(place: ValidPlace, start: int, end: int, size: int, answers: seq<ResizeAnswer>): Option<Resized>
    decreases |answers|
  {
    if answers == [] then None
    else
      var r := Resize(place, start, end, false, answers[0]);
      if r.Interrupted? || ByteLength(r.place) >= size then Some(r)
      else ResizeUntil(r.place, start, end + 1, size, answers[1..])
  }

  /** The sectors a partition of that many bytes would end at. */
  function EndFor(place: ValidPlace, size: int): int {
    place.Part().start + CDiv(size, place.table.sectorSize) - 1
  }

  /** ped_disk_commit, then unchange_named. */
  function WriteAndRemember(d: Device, storage: map<string, Table>, raised: seq<Reply>, written: bool): Effect
    requires d.dev.Some? && d.disk.Some?
  {
    if AnyFatal(raised) then Halt(CriticalError)
    else Remember(d, if written then storage[d.dev.value := d.disk.value] else storage)
  }

  function OpenEffect(d: Device, storage: map<string, Table>, c: Command): Effect
    requires c.Open?
  {
    if d.dev.Some? && Fatal(c.reply) then Halt(CriticalError)
    else if d.dev.None? && AnyFatal(c.raised) then Halt(CriticalError)
    else
      var dev := if d.dev.Some? then d.dev else if c.found then Some(c.path) else None;
      if dev.None? then Go(d, storage)
      else Remember(d.(dev := dev, disk := Read(storage, dev.value, c.readable)), storage)
  }

  function AskEffect(d: Device, storage: map<string, Table>, query: Query, id: Id): Effect {
    var f := Find(d, id);
    match query
    case LabelTypes | GetMaxPrimary | UsesExtended | FileSystemTypes => Go(d, storage)
    case UsesNames => if d.disk.None? then Halt(NullPointer) else Go(d, storage)
    case PartitionInfo | GetChs | ValidFlags =>
      if f.BadId? || f.NoTable? then Halt(NotFound(f, NullPointer)) else Go(d, storage)
    case GetFlags =>
      if f.At? && f.place.Part().IsActive() then Go(d, storage) else Halt(NotFound(f, CriticalError))
    case GetFileSystem | IsBusy =>
      if f.At? then Go(d, storage) else Halt(NotFound(f, NullPointer))
    case AlignmentOffset(cylinder) =>
      if f.At? || (f.Nowhere? && cylinder) then Go(d, storage) else Halt(NotFound(f, NullPointer))
  }

  function ChangeFsEffect(d: Device, storage: map<string, Table>, place: ValidPlace, fs: FsChoice): Effect {
    var p := place.Part();
    match fs
    case Flag(flag, available) =>
      if !available then Halt(CriticalError)
      else if flag in p.flags then Go(d, storage)
      else Go(d.(changed := true, disk := WithPart(place, p.(flags := p.flags + {flag}))), storage)
    case System(system) =>
      if p.IsListed() && p.system != system
      then Go(d.(changed := true, disk := WithPart(place, p.(system := system))), storage)
      else Go(d, storage)
  }

  function NewLabelEffect(d: Device, storage: map<string, Table>, c: Command): Effect
    requires c.NewLabel? && d.dev.Some?
  {
    if !c.known || AnyFatal(c.raised) || !c.reopened then Halt(CriticalError)
    else if c.newTable.None? && Fatal(c.reply) then Halt(CriticalError)
    else Go(d.(changed := true, disk := c.newTable), storage)
  }

  function ResizeEffect(d: Device, storage: map<string, Table>, c: Command, place: ValidPlace): Effect
    requires c.ResizePartition? && d.dev.Some? && c.size.Some?
  {
    var openFs := !IsVirtual(d, place.Part());
    var r := Resize(place, place.Part().start, EndFor(place, c.size.value), openFs, c.answer);
    if r.Interrupted? then Halt(CriticalError)
    else
      var d' := d.(changed := true, disk := Some(r.place.table));
      if openFs && r.ok then WriteAndRemember(d', storage, c.raised, c.written) else Go(d', storage)
  }

  function VirtualResizeEffect(d: Device, storage: map<string, Table>, c: Command, place: ValidPlace): Effect
    requires c.VirtualResizePartition? && d.dev.Some? && c.size.Some?
  {
    match ResizeUntil(place, place.Part().start, EndFor(place, c.size.value), c.size.value, c.answers)
    case None => Halt(Hangs)
    case Some(Interrupted) => Halt(CriticalError)
    case Some(Resized(_, p)) =>
      WriteAndRemember(d.(changed := true, disk := Some(p.table)), storage, c.raised, c.written)
  }

  /** A command other than QUIT on the device it names. */
  function StepDevice(d: Device, storage: map<string, Table>, c: Command): Effect
    requires !c.Quit?
  {
    if c.Open? then OpenEffect(d, storage, c)
    else if c.Close? then
      if d.dev.None? then Halt(if Fatal(c.reply) then CriticalError else RegistryAssertion)
      else Go(d.(dev := None, disk := None), storage)
    else if c.Opened? || c.GetLabelType? then Go(d, storage)
    else if d.dev.None? then Halt(CriticalError)
    else StepOpened(d, storage, c)
  }

  function StepOpened(d: Device, storage: map<string, Table>, c: Command): Effect
    requires d.dev.Some?
    requires !(c.Quit? || c.Open? || c.Close? || c.Opened? || c.GetLabelType?)
  {
    if c.ResizePartition? then StepResize(d, storage, c)
    else if c.VirtualResizePartition? then StepVirtualResize(d, storage, c)
    else if Edits(c) then StepEdit(d, storage, c)
    else StepQuery(d, storage, c)
  }

  /** The range queries stretch the extended partition for a logical one. */
  function RangeEffect(d: Device, storage: map<string, Table>, place: ValidPlace, moved: Table): Effect {
    if place.Part().IsLogical() then Go(d.(disk := Some(Stretched(place.table, moved))), storage) else Go(d, storage)
  }

  function StepQuery(d: Device, storage: map<string, Table>, c: Command): Effect
    requires d.dev.Some?
    requires !(c.Quit? || c.Open? || c.Close? || c.Opened? || c.GetLabelType? || Edits(c))
  {
    match c
    case Virtual(_, id) =>
      var f := Find(d, id);
      if f.At? then Go(d, storage) else Halt(NotFound(f, NullPointer))
    case DiskUnchanged(_) => Remember(d, storage)
    case IsChanged(_) => Go(d, storage)
    case Dump(_, writable, reply) => if !writable && Fatal(reply) then Halt(CriticalError) else Go(d, storage)
    case Commit(_, firmware, raised, written) =>
      if firmware && d.disk.None? then Halt(NullPointer)
      else if d.disk.Some? && d.changed then WriteAndRemember(d, storage, raised, written)
      else Remember(d, storage)
    case Undo(_, readable) => Remember(d.(disk := Read(storage, d.dev.value, readable)), storage)
    case Partitions(_, moved) =>
      if d.disk.Some? && d.disk.value.HasExtended()
      then Go(d.(disk := Some(Minimized(d.disk.value, moved))), storage) else Go(d, storage)
    case Ask(_, query, id) => AskEffect(d, storage, query, id)
    case GetResizeRange(_, id, unusableFs, moved) =>
      var f := Find(d, id);
      if d.disk.None? then Halt(CommandAssertion)
      else if !f.At? then Halt(CriticalError)
      else if !IsVirtual(d, f.place.Part()) && unusableFs then Go(d, storage)
      else RangeEffect(d, storage, f.place, moved)
    case GetVirtualResizeRange(_, id, moved) =>
      var f := Find(d, id);
      if d.disk.None? then Halt(CommandAssertion)
      else if !f.At? then Halt(CriticalError)
      else RangeEffect(d, storage, f.place, moved)
  }

  function StepEdit(d: Device, storage: map<string, Table>, c: Command): Effect
    requires d.dev.Some? && Edits(c) && !c.ResizePartition? && !c.VirtualResizePartition?
  {
    match c
    case SetFlags(_, id, flags, complete) =>
      var f := Find(d, id);
      if !f.At? || !f.place.Part().IsActive() then Halt(NotFound(f, CriticalError))
      else if !complete then Halt(CriticalError)
      else Go(d.(changed := true, disk := WithPart(f.place, f.place.Part().(flags := flags))), storage)
    case SetName(_, id, allowed, newName) =>
      var f := Find(d, id);
      if d.disk.None? then Halt(NullPointer)
      else if !allowed || !f.At? || !f.place.Part().IsActive() || newName.None? then Halt(CriticalError)
      else Go(d.(changed := true, disk := WithPart(f.place, f.place.Part().(name := newName.value))), storage)
    case ChangeFileSystem(_, id, fs) =>
      var f := Find(d, id);
      if f.At? then ChangeFsEffect(d, storage, f.place, fs) else Halt(NotFound(f, CriticalError))
    case NewLabel(_, _, _, _, _, _) => NewLabelEffect(d, storage, c)
    case NewPartition(_, request, raised, placed) =>
      if d.disk.None? then Halt(CommandAssertion)
      else if request.None? || AnyFatal(raised) then Halt(CriticalError)
      else Go(d.(changed := true, disk := Some(WithNew(d.disk.value, request.value, placed))), storage)
    case DeletePartition(_, id, raised, after) =>
      var f := Find(d, id);
      if f.BadId? || f.NoTable? then Halt(NotFound(f, CriticalError))
      else if f.Nowhere? then Go(d.(changed := true), storage)
      else if AnyFatal(raised) then Halt(CriticalError)
      else Go(d.(changed := true, disk := Some(WithoutPart(f.place, after))), storage)
  }

  function NotLogical(parts: seq<Partition>): seq<Partition> {
    if parts == [] then []
    else
      var p := parts[|parts| - 1];
      NotLogical(parts[..|parts| - 1]) + if p.IsLogical() then [] else [p]
  }

  /** The ordinary partitions that a deletion leaves; with the extended partition the
      logical ones go too. */
  function Remaining(place: ValidPlace): seq<Partition> {
    var parts, i := place.table.parts, place.index;
    if place.Part().kind.Extended? then NotLogical(ListedOf(parts)) else ListedOf(parts[..i]) + ListedOf(parts[i + 1..])
  }

  /** The table after a deletion, or with the extended partition minimized if that fails. */
  function WithoutPart(place: ValidPlace, after: Table): Table {
    if after.(parts := []) == place.table.(parts := []) && ListedOf(after.parts) == Remaining(place) then after
    else Minimized(place.table, after)
  }

  /** libparted has created a partition: the other ordinary ones are as they were, the
      new one leaves the gap at the end, and it has the sectors asked for when they
      meet the constraints. */
  predicate Created(t: Table, r: NewRequest, a: Placement) {
    && a.created && a.index < |a.after.parts|
    && a.after.(parts := []) == t.(parts := [])
    && ListedOf(a.after.parts[..a.index]) + ListedOf(a.after.parts[a.index + 1..]) == ListedOf(t.parts)
    && var p := a.after.parts[a.index];
       && p.kind == Ordinary(r.logical) && p.system == r.system
       && (a.sectors.Some? ==> p.end <= GapEnd(t.sectorSize, a.sectors.value))
       && (a.asAsked ==> (p.start, p.end) == Span(t.sectorSize, r.range, r.position, r.length))
  }

  /** A failure leaves at most the extended partition moved. */
  function WithNew(t: Table, r: NewRequest, a: Placement): Table {
    if Created(t, r, a) then a.after else Stretched(t, a.after)
  }

  function StepResize(d: Device, storage: map<string, Table>, c: Command): Effect
    requires d.dev.Some? && c.ResizePartition?
  {
    var f := Find(d, c.id);
    if d.disk.None? then Halt(CommandAssertion)
    else if !f.At? || c.size.None? then Halt(CriticalError)
    else ResizeEffect(d, storage, c, f.place)
  }

  function StepVirtualResize(d: Device, storage: map<string, Table>, c: Command): Effect
    requires d.dev.Some? && c.VirtualResizePartition?
  {
    var f := Find(d, c.id);
    if d.disk.None? then Halt(CommandAssertion)
    else if !f.At? || c.size.None? then Halt(CriticalError)
    else VirtualResizeEffect(d, storage, c, f.place)
  }

  // ---------------------------------------------------------------------
  // Runs

  function Step(s: State, c: Command): Outcome {
    if c.Quit? then Stopped(QuitRequested)
    else
      match StepDevice(DeviceNamed(s, c.name), s.storage, c)
      case Go(d, storage) => Running(State(WithDevice(s.devices, d), storage))
      case Halt(reason) => Stopped(reason)
  }

  function Run(s: State, commands: seq<Command>): Outcome {
    if commands == [] then Running(s)
    else
      match Run(s, commands[..|commands| - 1])
      case Running(s') => Step(s', commands[|commands| - 1])
      case Stopped(reason) => Stopped(reason)
  }

  /** A table in memory belongs to an open device; and an open device that is not
      marked as changed remembers exactly the ranges of its ordinary partitions. */
  predicate DeviceInvariant(d: Device) {
    && (d.disk.Some? ==> d.dev.Some?)
    && (d.dev.Some? && !d.changed ==> d.geometries == Geometries(d.disk))
  }

  predicate Invariant(s: State) {
    && (forall i :: 0 <= i < |s.devices| ==> DeviceInvariant(s.devices[i]))
    && (forall i, j :: 0 <= i < j < |s.devices| ==> s.devices[i].name != s.devices[j].name)
  }

  lemma ResizeKeeps(d: Device, storage: map<string, Table>, c: Command)
    requires (c.ResizePartition? || c.VirtualResizePartition?) && DeviceInvariant(d) && StepDevice(d, storage, c).Go?
    ensures DeviceInvariant(StepDevice(d, storage, c).device)
  {
  }

  lemma EditKeeps(d: Device, storage: map<string, Table>, c: Command)
    requires Edits(c) && !c.ResizePartition? && !c.VirtualResizePartition?
    requires DeviceInvariant(d) && StepDevice(d, storage, c).Go?
    ensures DeviceInvariant(StepDevice(d, storage, c).device)
  {
  }

  lemma QueryKeeps(d: Device, storage: map<string, Table>, c: Command)
    requires !c.Quit? && !Edits(c) && DeviceInvariant(d) && StepDevice(d, storage, c).Go?
    ensures DeviceInvariant(StepDevice(d, storage, c).device)
  {
  }

  lemma StepDeviceKeeps(d: Device, storage: map<string, Table>, c: Command)
    requires !c.Quit? && DeviceInvariant(d) && StepDevice(d, storage, c).Go?
    ensures DeviceInvariant(StepDevice(d, storage, c).device)
  {
    if c.ResizePartition? || c.VirtualResizePartition? {
      ResizeKeeps(d, storage, c);
    } else if Edits(c) {
      EditKeeps(d, storage, c);
    } else {
      QueryKeeps(d, storage, c);
    }
  }

  lemma StepKeepsInvariant(s: State, c: Command)
    requires Invariant(s) && Step(s, c).Running?
    ensures Invariant(Step(s, c).state)
  {
    StepDeviceKeeps(DeviceNamed(s, c.name), s.storage, c);
    StepDeviceName(DeviceNamed(s, c.name), s.storage, c);
  }

  /** After every command of every run. */
  lemma {:induction false} RunKeepsInvariant(s: State, commands: seq<Command>)
    requires Invariant(s) && Run(s, commands).Running?
    ensures Invariant(Run(s, commands).state)
  {
    if commands != [] {
      var init := commands[..|commands| - 1];
      RunKeepsInvariant(s, init);
      StepKeepsInvariant(Run(s, init).state, commands[|commands| - 1]);
    }
  }

  // ---------------------------------------------------------------------
  // Virtual partitions

  /** On an unchanged device VIRTUAL answers "no" for every ordinary partition,
      and "yes" for a range that none of them has. */
  lemma UnchangedIsNotVirtual(d: Device, t: Table, p: Partition)
    requires DeviceInvariant(d) && d.dev.Some? && !d.changed && d.disk == Some(t) && p in t.parts
    ensures p.IsListed() ==> !IsVirtual(d, p)
    ensures IsVirtual(d, p) <==> forall q :: q in t.parts && q.IsListed() ==> (q.start, q.end) != (p.start, p.end)
  {
    GeometriesMeaning(t, (p.start, p.end));
  }

  lemma StepDeviceUnchanged(d: Device, storage: map<string, Table>, c: Command)
    requires DeviceInvariant(d) && d.dev.Some? && !d.changed
    requires !c.Quit? && !c.Close? && !Edits(c) && StepDevice(d, storage, c).Go?
    ensures var d' := StepDevice(d, storage, c).device; d'.dev == d.dev && !d'.changed
    ensures !(c.Open? || c.Undo?) ==> StepDevice(d, storage, c).device.geometries == d.geometries
  {
  }

  lemma LookupAfter(s: State, d: Device, storage: map<string, Table>, name: string)
    ensures DeviceNamed(State(WithDevice(s.devices, d), storage), name) == if d.name == name then d else DeviceNamed(s, name)
  {
    var devices, after := s.devices, WithDevice(s.devices, d);
    var i, j, k := IndexOf(devices, d.name), IndexOf(devices, name), IndexOf(after, name);
    assert forall m :: 0 <= m < |devices| ==> after[m].name == devices[m].name;
    if j < |devices| {
      assert after[j].name == name;
      assert k == j;
    } else {
      assert forall m :: 0 <= m < |devices| ==> after[m].name != name;
      assert d.name == name ==> after[|devices|] == d && k == |devices|;
    }
  }

  lemma OtherDevices(s: State, c: Command, name: string)
    requires !c.Quit? && Step(s, c).Running?
    ensures DeviceNamed(Step(s, c).state, name) ==
            if c.name == name then StepDevice(DeviceNamed(s, name), s.storage, c).device else DeviceNamed(s, name)
  {
    var effect := StepDevice(DeviceNamed(s, c.name), s.storage, c);
    StepDeviceName(DeviceNamed(s, c.name), s.storage, c);
    LookupAfter(s, effect.device, effect.storage, name);
  }

  lemma StepDeviceName(d: Device, storage: map<string, Table>, c: Command)
    requires !c.Quit? && StepDevice(d, storage, c).Go?
    ensures StepDevice(d, storage, c).device.name == d.name
  {
  }

  lemma InvariantAt(s: State, name: string)
    requires Invariant(s)
    ensures DeviceInvariant(DeviceNamed(s, name))
  {
  }

  /** From an open, unchanged device on: as long as no command edits or closes
      it, it stays open and unchanged, whatever is queried, written or undone. */
  lemma {:induction false} UnchangedUntilEdited(s: State, commands: seq<Command>, name: string)
    requires Invariant(s) && DeviceNamed(s, name).dev.Some? && !DeviceNamed(s, name).changed
    requires forall c :: c in commands && !c.Quit? && c.name == name ==> !c.Close? && !Edits(c)
    requires Run(s, commands).Running?
    ensures var d := DeviceNamed(Run(s, commands).state, name);
      d.dev == DeviceNamed(s, name).dev && !d.changed && d.geometries == Geometries(d.disk)
  {
    RunKeepsInvariant(s, commands);
    InvariantAt(Run(s, commands).state, name);
    if commands != [] {
      var init, c := commands[..|commands| - 1], commands[|commands| - 1];
      UnchangedUntilEdited(s, init, name);
      RunKeepsInvariant(s, init);
      var s' := Run(s, init).state;
      OtherDevices(s', c, name);
      InvariantAt(s', name);
      if c.name == name {
        StepDeviceUnchanged(DeviceNamed(s', name), s'.storage, c);
      }
    }
  }

  /** A device left marked as changed remembers what it remembered before. */
  lemma ChangedKeepsSnapshot(d: Device, storage: map<string, Table>, c: Command)
    requires !c.Quit? && StepDevice(d, storage, c).Go? && StepDevice(d, storage, c).device.changed
    ensures StepDevice(d, storage, c).device.geometries == d.geometries
  {
  }

  // ---------------------------------------------------------------------
  // New partitions

  lemma {:induction false} ListedConcat(a: seq<Partition>, b: seq<Partition>)
    ensures ListedOf(a + b) == ListedOf(a) + ListedOf(b)
  {
    if b == [] {
      assert a + b == a;
    } else {
      ListedConcat(a, b[..|b| - 1]);
      assert (a + b)[..|a + b| - 1] == a + b[..|b| - 1];
    }
  }

  /** A created partition is one more ordinary partition among those that were there. */
  lemma CreatedAdds(t: Table, r: NewRequest, a: Placement)
    requires Created(t, r, a)
    ensures var parts, i := a.after.parts, a.index;
      && ListedOf(parts) == ListedOf(parts[..i]) + [parts[i]] + ListedOf(parts[i + 1..])
      && ListedOf(t.parts) == ListedOf(parts[..i]) + ListedOf(parts[i + 1..])
  {
    var parts, i := a.after.parts, a.index;
    ListedAround(parts, i);
  }

  lemma ListedAround(parts: seq<Partition>, i: nat)
    requires i < |parts| && parts[i].IsListed()
    ensures ListedOf(parts) == ListedOf(parts[..i]) + [parts[i]] + ListedOf(parts[i + 1..])
  {
    var upTo := parts[..i + 1];
    assert upTo[..i] == parts[..i] && parts == upTo + parts[i + 1..];
    ListedConcat(upTo, parts[i + 1..]);
  }

  /** NEW_PARTITION marks the device, and either adds one ordinary partition to the
      others or leaves all of them as they were. */
  lemma NewPartitionAdds(d: Device, storage: map<string, Table>, c: Command)
    requires c.NewPartition? && d.dev.Some? && d.disk.Some? && StepDevice(d, storage, c).Go?
    ensures c.request.Some?
    ensures var d', t, r := StepDevice(d, storage, c).device, d.disk.value, c.request.value;
      && d'.disk.Some? && d'.changed && d'.geometries == d.geometries && StepDevice(d, storage, c).storage == storage
      && if Created(t, r, c.placed)
         then d'.disk.value == c.placed.after && |ListedOf(d'.disk.value.parts)| == |ListedOf(t.parts)| + 1
         else ListedOf(d'.disk.value.parts) == ListedOf(t.parts)
  {
    if c.request.Some? && Created(d.disk.value, c.request.value, c.placed) {
      CreatedAdds(d.disk.value, c.request.value, c.placed);
    }
  }

  /** Where it lies when its sectors could be taken as asked: for a range of whole
      sectors, "full" fills it, "beginning" and "end" are anchored and slightly longer
      than asked, "end" exactly away from the start of the disk. */
  lemma NewPartitionSpans(t: Table, r: NewRequest, a: Placement, first: nat, last: nat)
    requires Created(t, r, a) && a.asAsked && first <= last && r.length >= 0 && r.range == ByteRange(t.sectorSize, first, last)
    ensures var p := a.after.parts[a.index];
      && (r.position.Full? ==> (p.start, p.end) == (first, last))
      && (r.position.Beginning? ==>
          && p.start == first && SlightlyLonger(t.sectorSize, (p.start, p.end), r.length)
          && (p.end <= last <==> r.length < (last - first + 1) * t.sectorSize))
      && (r.position.End? ==>
          && p.end == last
          && (SlightlyLonger(t.sectorSize, (p.start, p.end), r.length) <==>
              r.length <= r.range.1 || (r.length - r.range.1) % t.sectorSize == 0))
  {
    match r.position {
      case Full => FullSpan(t.sectorSize, first, last, r.length);
      case Beginning => BeginningSpan(t.sectorSize, first, last, r.length);
      case End => EndSpan(t.sectorSize, first, last, r.length);
    }
  }

  /** Its MD superblock cannot be that of the disk. */
  lemma NewPartitionKeepsGap(t: Table, r: NewRequest, a: Placement)
    requires Created(t, r, a) && a.sectors.Some? && a.after.parts[a.index].start >= 0 && SectorsFit(t.sectorSize)
    ensures var p := a.after.parts[a.index]; SuperblockBelow(t.sectorSize, a.sectors.value, p.start, p.end)
  {
    var p := a.after.parts[a.index];
    GapSuffices(t.sectorSize, a.sectors.value, p.start, p.end);
  }

  // ---------------------------------------------------------------------
  // What the other commands do to the table

  /** A is B with one element less, at place i. */
  predicate OneLess<T(==)>(a: seq<T>, b: seq<T>, i: nat) {
    i < |b| && |a| == |b| - 1 && (forall k :: 0 <= k < i ==> a[k] == b[k]) && (forall k :: i <= k < |a| ==> a[k] == b[k + 1])
  }

  lemma OneLessIs<T>(a: seq<T>, before: seq<T>, x: T, behind: seq<T>)
    requires OneLess(a, before + [x] + behind, |before|)
    ensures a == before + behind
  {
    var b, i := before + [x] + behind, |before|;
    forall k | 0 <= k < |a| ensures a[k] == (before + behind)[k] {
      assert k >= i ==> b[k + 1] == behind[k - i];
    }
  }

  /** DELETE_PARTITION of an ordinary partition, where libparted answers with the table
      without it: it is gone, and all the others are there in the same order. */
  lemma DeleteRemoves(d: Device, storage: map<string, Table>, c: Command, place: ValidPlace)
    requires c.DeletePartition? && d.dev.Some? && Find(d, c.id) == At(place) && StepDevice(d, storage, c).Go?
    requires place.Part().kind.Ordinary?
    requires c.after.(parts := []) == place.table.(parts := [])
    requires OneLess(ListedOf(c.after.parts), ListedOf(place.table.parts), |ListedOf(place.table.parts[..place.index])|)
    ensures var e := StepDevice(d, storage, c);
      && e.storage == storage && e.device.changed && e.device.disk == Some(c.after)
      && ListedOf(place.table.parts)[|ListedOf(place.table.parts[..place.index])|] == place.Part()
  {
    var parts, i := place.table.parts, place.index;
    ListedAround(parts, i);
    OneLessIs(ListedOf(c.after.parts), ListedOf(parts[..i]), parts[i], ListedOf(parts[i + 1..]));
    assert ListedOf(c.after.parts) == Remaining(place);
    DeleteTakes(d, storage, c, place);
  }

  lemma DeleteTakes(d: Device, storage: map<string, Table>, c: Command, place: ValidPlace)
    requires c.DeletePartition? && d.dev.Some? && Find(d, c.id) == At(place) && StepDevice(d, storage, c).Go?
    requires c.after.(parts := []) == place.table.(parts := []) && ListedOf(c.after.parts) == Remaining(place)
    ensures StepDevice(d, storage, c) == Go(d.(changed := true, disk := Some(c.after)), storage)
  {
  }

  /** DELETE_PARTITION of the extended partition: the ordinary partitions that are not
      logical stay, and no logical one does. */
  lemma {:induction false} NotLogicalMeaning(parts: seq<Partition>, p: Partition)
    ensures p in NotLogical(parts) <==> p in parts && p.kind != Ordinary(true) && p.kind != Free(true) && p.kind != Metadata(true)
  {
    if parts != [] {
      NotLogicalMeaning(parts[..|parts| - 1], p);
      assert parts == parts[..|parts| - 1] + [parts[|parts| - 1]];
    }
  }

  lemma DeleteRemovesLogical(d: Device, storage: map<string, Table>, c: Command, place: ValidPlace)
    requires c.DeletePartition? && d.dev.Some? && Find(d, c.id) == At(place) && StepDevice(d, storage, c).Go?
    requires place.Part().kind.Extended?
    requires c.after.(parts := []) == place.table.(parts := []) && ListedOf(c.after.parts) == NotLogical(ListedOf(place.table.parts))
    ensures var e := StepDevice(d, storage, c);
      && e.device.disk == Some(c.after) && e.device.changed && e.storage == storage
      && forall p :: p in ListedOf(c.after.parts) <==> p in ListedOf(place.table.parts) && p.kind != Ordinary(true)
  {
    forall p ensures p in ListedOf(c.after.parts) <==> p in ListedOf(place.table.parts) && p.kind != Ordinary(true) {
      NotLogicalMeaning(ListedOf(place.table.parts), p);
      ListedMeaning(place.table.parts, p);
    }
  }

  /** Whatever libparted answers, DELETE_PARTITION adds no ordinary partition; and where
      it did not delete, or there is none with the id, all stay. */
  lemma DeleteAddsNone(d: Device, storage: map<string, Table>, c: Command)
    requires c.DeletePartition? && d.dev.Some? && d.disk.Some? && StepDevice(d, storage, c).Go?
    ensures var d', f := StepDevice(d, storage, c).device, Find(d, c.id);
      && d'.disk.Some? && d'.changed
      && (ListedOf(d'.disk.value.parts) == ListedOf(d.disk.value.parts) ||
          (f.At? && d'.disk.value == c.after && ListedOf(c.after.parts) == Remaining(f.place)))
      && (f.At? && ListedOf(c.after.parts) != Remaining(f.place) ==> ListedOf(d'.disk.value.parts) == ListedOf(d.disk.value.parts))
      && (!f.At? ==> d'.disk == d.disk)
  {
  }

  /** Only one partition differs, and only in the attribute. */
  predicate OnlyChanged(t: Table, t': Table, i: nat, p: Partition) {
    && i < |t.parts| == |t'.parts| && t'.(parts := []) == t.(parts := []) && t'.parts[i] == p
    && forall k :: 0 <= k < |t.parts| && k != i ==> t'.parts[k] == t.parts[k]
  }

  /** The device is as it was but for its mark and one attribute of one partition. */
  predicate AttributeSet(d: Device, d': Device, place: ValidPlace, p: Partition) {
    && d'.disk.Some? && d' == d.(disk := d'.disk, changed := true)
    && OnlyChanged(place.table, d'.disk.value, place.index, p)
  }

  /** SET_NAME changes the name of the one partition and nothing else. */
  lemma NameSet(d: Device, storage: map<string, Table>, c: Command, place: ValidPlace)
    requires d.dev.Some? && c.SetName? && Find(d, c.id) == At(place) && StepDevice(d, storage, c).Go?
    ensures c.newName.Some? && place.Part().IsActive() && StepDevice(d, storage, c).storage == storage
    ensures AttributeSet(d, StepDevice(d, storage, c).device, place, place.Part().(name := c.newName.value))
  {
    ChangedAt(place);
  }

  /** SET_FLAGS changes its flags. */
  lemma FlagsSet(d: Device, storage: map<string, Table>, c: Command, place: ValidPlace)
    requires d.dev.Some? && c.SetFlags? && Find(d, c.id) == At(place) && StepDevice(d, storage, c).Go?
    ensures c.complete && place.Part().IsActive() && StepDevice(d, storage, c).storage == storage
    ensures AttributeSet(d, StepDevice(d, storage, c).device, place, place.Part().(flags := c.flags))
  {
    ChangedAt(place);
  }

  /** CHANGE_FILE_SYSTEM sets the flag, or the type of an ordinary partition, and leaves
      the device alone where that is so already. */
  lemma FileSystemSet(d: Device, storage: map<string, Table>, c: Command, place: ValidPlace)
    requires d.dev.Some? && c.ChangeFileSystem? && Find(d, c.id) == At(place) && StepDevice(d, storage, c).Go?
    ensures StepDevice(d, storage, c).storage == storage
    ensures var p, d' := place.Part(), StepDevice(d, storage, c).device;
      match c.fs {
        case Flag(flag, _) =>
          if flag in p.flags then d' == d else AttributeSet(d, d', place, p.(flags := p.flags + {flag}))
        case System(system) =>
          if !p.kind.Ordinary? || p.system == system then d' == d else AttributeSet(d, d', place, p.(system := system))
      }
  {
    ChangedAt(place);
  }

  lemma ChangedAt(place: ValidPlace)
    ensures forall p: Partition {:trigger WithPart(place, p)} ::
      p.start == place.Part().start && p.end == place.Part().end && p.kind == place.Part().kind ==>
      OnlyChanged(place.table, WithPart(place, p).value, place.index, p)
  {
  }

  /** The commands that look at the extended partition take what libparted makes of it:
      PARTITIONS except on dvh labels, the range queries on all. */
  lemma ExtendedMoves(d: Device, storage: map<string, Table>, c: Command)
    requires d.dev.Some? && d.disk.Some? && c.Partitions? && StepDevice(d, storage, c).Go? && d.disk.value.HasExtended()
    requires c.moved.(parts := []) == d.disk.value.(parts := []) && ListedOf(c.moved.parts) == ListedOf(d.disk.value.parts)
    ensures StepDevice(d, storage, c).device ==
            if d.disk.value.labelType == "dvh" then d else d.(disk := Some(c.moved))
  {
  }

  lemma RangeMoves(d: Device, storage: map<string, Table>, c: Command, place: ValidPlace)
    requires d.dev.Some? && c.GetVirtualResizeRange? && Find(d, c.id) == At(place) && StepDevice(d, storage, c).Go?
    requires c.moved.(parts := []) == place.table.(parts := []) && ListedOf(c.moved.parts) == ListedOf(place.table.parts)
    ensures StepDevice(d, storage, c).device ==
            if place.Part().kind == Ordinary(true) || place.Part().kind == Free(true) || place.Part().kind == Metadata(true)
            then d.(disk := Some(c.moved)) else d
  {
  }

  // ---------------------------------------------------------------------
  // Opening, closing and writing

  /** OPEN of a device that is found reads its table, if libparted can, and takes a
      snapshot of it. */
  lemma OpenReads(d: Device, storage: map<string, Table>, c: Command)
    requires c.Open? && d.dev.None? && c.found && StepDevice(d, storage, c).Go?
    ensures var table := if c.readable then OnStorage(storage, c.path) else None;
      StepDevice(d, storage, c) == Go(Device(d.name, Some(c.path), table, false, Geometries(table)), storage)
  {
  }

  /** UNDO gives up what is in memory for what is on storage, if libparted can read it. */
  lemma UndoForgets(d: Device, storage: map<string, Table>, c: Command)
    requires c.Undo? && d.dev.Some? && StepDevice(d, storage, c).Go?
    ensures var table := if c.readable then OnStorage(storage, d.dev.value) else None;
      StepDevice(d, storage, c) == Go(Device(d.name, d.dev, table, false, Geometries(table)), storage)
  {
  }

  /** CLOSE forgets the device and its table, and not what it is marked as. */
  lemma CloseForgets(d: Device, storage: map<string, Table>, c: Command)
    requires c.Close? && d.dev.Some?
    ensures StepDevice(d, storage, c) == Go(Device(d.name, None, None, d.changed, d.geometries), storage)
  {
  }

  /** COMMIT of a changed table that libparted can write: it is on storage, the device is
      unchanged, and the snapshot is of the table. */
  lemma CommitWrites(d: Device, storage: map<string, Table>, c: Command)
    requires c.Commit? && d.dev.Some? && d.disk.Some? && d.changed && c.written && StepDevice(d, storage, c).Go?
    ensures StepDevice(d, storage, c) ==
            Go(Device(d.name, d.dev, d.disk, false, Geometries(d.disk)), storage[d.dev.value := d.disk.value])
  {
  }

  // ---------------------------------------------------------------------
  // Sizes

  /** The end that is asked for a size: the whole sectors of the size, from the start. */
  lemma EndForMeaning(place: ValidPlace, sectors: nat, rest: nat)
    requires rest < place.table.sectorSize
    ensures EndFor(place, sectors * place.table.sectorSize + rest) - place.Part().start + 1 == sectors
  {
    DivUnique(sectors * place.table.sectorSize + rest, place.table.sectorSize, sectors, rest);
    MulLe(0, sectors, place.table.sectorSize);
  }

  predicate LargeEnough(r: Resized, size: int) {
    r.Resized? ==> (r.place.Part().end - r.place.Part().start + 1) * r.place.table.sectorSize >= size
  }

  /** VIRTUAL_RESIZE_PARTITION ends with a partition of at least the size, in memory and
      in the table that is written. */
  lemma {:induction false} ResizeUntilIsLarge(place: ValidPlace, start: int, end: int, size: int, answers: seq<ResizeAnswer>)
    ensures var u := ResizeUntil(place, start, end, size, answers); u.Some? ==> LargeEnough(u.value, size)
    decreases |answers|
  {
    if answers != [] {
      var r := Resize(place, start, end, false, answers[0]);
      if r.Resized? && ByteLength(r.place) < size {
        ResizeUntilIsLarge(r.place, start, end + 1, size, answers[1..]);
      }
    }
  }

  lemma VirtualResizeReaches(d: Device, storage: map<string, Table>, c: Command, place: ValidPlace) returns (r: Resized)
    requires d.dev.Some? && c.VirtualResizePartition? && Find(d, c.id) == At(place) && StepDevice(d, storage, c).Go?
    ensures c.size.Some? && r.Resized? && LargeEnough(r, c.size.value)
    ensures StepDevice(d, storage, c).device.disk == Some(r.place.table)
    ensures c.written ==> StepDevice(d, storage, c).storage == storage[d.dev.value := r.place.table]
  {
    var start, end := place.Part().start, EndFor(place, c.size.value);
    ResizeUntilIsLarge(place, start, end, c.size.value, c.answers);
    r := ResizeUntil(place, start, end, c.size.value, c.answers).value;
  }

  // ---------------------------------------------------------------------
  // The tables on storage

  /** The table a command puts on storage, and where: COMMIT of a changed device,
      RESIZE_PARTITION of a partition that is not virtual when it succeeds, and
      VIRTUAL_RESIZE_PARTITION. */
  function WriteOf(d: Device, c: Command): Option<(string, Table)> {
    if d.dev.None? || d.disk.None? then None
    else if c.Commit? then if d.changed && c.written then Some((d.dev.value, d.disk.value)) else None
    else if c.ResizePartition? then ResizeWrite(d, c)
    else if c.VirtualResizePartition? then VirtualResizeWrite(d, c)
    else None
  }

  function ResizeWrite(d: Device, c: Command): Option<(string, Table)>
    requires d.dev.Some? && c.ResizePartition?
  {
    var f := Find(d, c.id);
    if c.written && c.size.Some? && f.At? && !IsVirtual(d, f.place.Part()) then
      var r := Resize(f.place, f.place.Part().start, EndFor(f.place, c.size.value), true, c.answer);
      if r.Resized? && r.ok then Some((d.dev.value, r.place.table)) else None
    else None
  }

  function VirtualResizeWrite(d: Device, c: Command): Option<(string, Table)>
    requires d.dev.Some? && c.VirtualResizePartition?
  {
    var f := Find(d, c.id);
    if c.written && c.size.Some? && f.At? then
      var r := ResizeUntil(f.place, f.place.Part().start, EndFor(f.place, c.size.value), c.size.value, c.answers);
      if r.Some? && r.value.Resized? then Some((d.dev.value, r.value.place.table)) else None
    else None
  }

  function Written(storage: map<string, Table>, w: Option<(string, Table)>): map<string, Table> {
    match w
    case None => storage
    case Some((path, t)) => storage[path := t]
  }

  lemma ResizeWrites(d: Device, storage: map<string, Table>, c: Command)
    requires c.ResizePartition? && StepDevice(d, storage, c).Go?
    ensures StepDevice(d, storage, c).storage == Written(storage, WriteOf(d, c))
  {
  }

  lemma VirtualResizeWrites(d: Device, storage: map<string, Table>, c: Command)
    requires c.VirtualResizePartition? && StepDevice(d, storage, c).Go?
    ensures StepDevice(d, storage, c).storage == Written(storage, WriteOf(d, c))
  {
  }

  lemma EditWrites(d: Device, storage: map<string, Table>, c: Command)
    requires Edits(c) && !c.ResizePartition? && !c.VirtualResizePartition? && StepDevice(d, storage, c).Go?
    ensures StepDevice(d, storage, c).storage == Written(storage, WriteOf(d, c))
  {
  }

  lemma OthersWrite(d: Device, storage: map<string, Table>, c: Command)
    requires !c.Quit? && !Edits(c) && StepDevice(d, storage, c).Go?
    ensures StepDevice(d, storage, c).storage == Written(storage, WriteOf(d, c))
  {
  }

  /** No other command touches storage. */
  lemma StepDeviceWrites(d: Device, storage: map<string, Table>, c: Command)
    requires !c.Quit? && StepDevice(d, storage, c).Go?
    ensures StepDevice(d, storage, c).storage == Written(storage, WriteOf(d, c))
  {
    if c.ResizePartition? {
      ResizeWrites(d, storage, c);
    } else if c.VirtualResizePartition? {
      VirtualResizeWrites(d, storage, c);
    } else if Edits(c) {
      EditWrites(d, storage, c);
    } else {
      OthersWrite(d, storage, c);
    }
  }

  function OnStorage(storage: map<string, Table>, path: string): Option<Table> {
    if path in storage then Some(storage[path]) else None
  }

  /** The table of the last write to a path in a run, or the one it began with. */
  function LastWritten(s: State, commands: seq<Command>, path: string): Option<Table> {
    if commands == [] then OnStorage(s.storage, path)
    else
      var init, c := commands[..|commands| - 1], commands[|commands| - 1];
      match Run(s, init)
      case Stopped(_) => LastWritten(s, init, path)
      case Running(s') =>
        var w := if c.Quit? then None else WriteOf(DeviceNamed(s', c.name), c);
        if w.Some? && w.value.0 == path then Some(w.value.1) else LastWritten(s, init, path)
  }

  lemma {:induction false} StorageIsLastWritten(s: State, commands: seq<Command>, path: string)
    requires Run(s, commands).Running?
    ensures OnStorage(Run(s, commands).state.storage, path) == LastWritten(s, commands, path)
  {
    if commands != [] {
      var init, c := commands[..|commands| - 1], commands[|commands| - 1];
      StorageIsLastWritten(s, init, path);
      var s' := Run(s, init).state;
      StepDeviceWrites(DeviceNamed(s', c.name), s'.storage, c);
    }
  }

  lemma UndoReads(s: State, name: string)
    requires Step(s, Undo(name, true)).Running?
    ensures DeviceNamed(s, name).dev.Some?
    ensures var d := DeviceNamed(Step(s, Undo(name, true)).state, name);
      && d.dev == DeviceNamed(s, name).dev && !d.changed
      && d.disk == OnStorage(s.storage, d.dev.value)
      && d.geometries == Geometries(d.disk)
  {
    OtherDevices(s, Undo(name, true), name);
  }

  /** UNDO brings back the table of the last write, whatever was edited since. */
  lemma UndoRestores(s: State, commands: seq<Command>, name: string)
    requires Run(s, commands + [Undo(name, true)]).Running?
    ensures Run(s, commands).Running?
    ensures var d := DeviceNamed(Run(s, commands + [Undo(name, true)]).state, name);
      && d.dev.Some? && !d.changed
      && d.disk == LastWritten(s, commands, d.dev.value)
      && d.geometries == Geometries(d.disk)
  {
    var all := commands + [Undo(name, true)];
    assert all[..|all| - 1] == commands;
    var s' := Run(s, commands).state;
    assert Run(s, all) == Step(s', Undo(name, true));
    UndoReads(s', name);
    StorageIsLastWritten(s, commands, DeviceNamed(s', name).dev.value);
  }

  // ---------------------------------------------------------------------
  // Assertions

  /** The assertions of the registry fail only for CLOSE of an unopened device. */
  lemma RegistryAssertionIff(s: State, c: Command)
    ensures Step(s, c) == Stopped(RegistryAssertion)
            <==> c.Close? && DeviceNamed(s, c.name).dev.None? && !Fatal(c.reply)
  {
  }
}

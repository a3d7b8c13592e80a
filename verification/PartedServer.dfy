/** The server itself: the registry, the nesting of the exception handler, the
    timer lines and the commands, step by step
    (packages/partman-base/parted_server.c). */
module PartedServer {
  import opened Wrappers
  import opened PartedTable
  import opened PartedSpec

  /** A line for the client: "Timer", "ready", a progress line, or anything else. */
  datatype Line = TimerLine | ReadyLine | ProgressLine | TextLine

  datatype Fetch = FetchAll | LeaveAll

  /** Whether the client's progress bar is open after these lines; None when the
      lines are not properly bracketed. Other text is only sent outside a bar. */
  function BarOpen(lines: seq<Line>): Option<bool> {
    if lines == [] then Some(false)
    else
      var open := BarOpen(lines[..|lines| - 1]);
      if open.None? then None
      else
        match lines[|lines| - 1]
        case TimerLine => if open.value then None else Some(true)
        case ReadyLine => if open.value then Some(false) else None
        case ProgressLine => if open.value then open else None
        case TextLine => if open.value then None else open
  }

  /** Whether libparted's exceptions are being fetched; None when the two calls
      do not alternate. */
  function Fetching(calls: seq<Fetch>): Option<bool> {
    if calls == [] then Some(false)
    else
      var on := Fetching(calls[..|calls| - 1]);
      if on == Some(calls[|calls| - 1].LeaveAll?) then Some(!on.value) else None
  }

  class Server {
    var devices: seq<Device>
    var storage: map<string, Table>
    var handlerCounter: nat
    var timerStarted: bool
    var out: seq<Line>
    var calls: seq<Fetch>

    constructor (storage: map<string, Table>)
      ensures devices == [] && this.storage == storage && AtRest()
    {
      devices, this.storage := [], storage;
      handlerCounter, timerStarted, out, calls := 0, false, [], [];
    }

    /** The calls to libparted and the lines to the client so far are in order. */
    ghost predicate InOrder()
      reads this`handlerCounter, this`timerStarted, this`out, this`calls
    {
      Fetching(calls) == Some(handlerCounter > 0) && BarOpen(out) == Some(timerStarted)
    }

    /** Between two commands. */
    ghost predicate AtRest()
      reads this
    {
      InOrder() && handlerCounter == 0 && !timerStarted && Invariant(State(devices, storage))
    }

    // -----------------------------------------------------------------
    // Timer and exceptions

    method Print(line: Line)
      requires InOrder() && match line { case TextLine => !timerStarted case ProgressLine => timerStarted case _ => false }
      modifies this`out
      ensures InOrder()
    {
      out := out + [line];
    }

    method StartTimer()
      requires InOrder() && !timerStarted   // assert(!timer_started)
      modifies this`out, this`timerStarted
      ensures InOrder() && timerStarted
    {
      out := out + [TimerLine];
      timerStarted := true;
    }

    method StopTimer()
      requires InOrder() && timerStarted    // assert(timer_started)
      modifies this`out, this`timerStarted
      ensures InOrder() && !timerStarted
    {
      out := out + [ReadyLine];
      timerStarted := false;
    }

    method PseudoException(reply: Reply) returns (ok: bool)
      requires InOrder()
      modifies this`out, this`timerStarted
      ensures InOrder() && timerStarted == old(timerStarted)
      ensures ok <==> !Fatal(reply)
    {
      var timerWasStarted := timerStarted;
      if timerWasStarted {
        StopTimer();
      }
      Print(TextLine);
      if timerWasStarted {
        StartTimer();
      }
      ok := !Fatal(reply);
    }

    /** The exceptions libparted raises during one call, while they are not fetched. */
    method Deliver(raised: seq<Reply>) returns (ok: bool)
      requires InOrder() && handlerCounter == 0
      modifies this`out, this`timerStarted
      ensures InOrder() && timerStarted == old(timerStarted)
      ensures ok <==> !AnyFatal(raised)
    {
      for i := 0 to |raised|
        invariant InOrder() && timerStarted == old(timerStarted)
        invariant forall k :: 0 <= k < i ==> !Fatal(raised[k])
      {
        ok := PseudoException(raised[i]);
        if !ok {
          return;
        }
      }
      ok := true;
    }

    /** timered_file_system_resize: progress lines and exceptions in any order. */
    method TimeredFileSystemResize(events: seq<TimerEvent>) returns (ok: bool)
      requires InOrder() && !timerStarted && handlerCounter == 0
      modifies this`out, this`timerStarted
      ensures InOrder() && (ok ==> !timerStarted)
      ensures ok <==> !AnyFatalEvent(events)
    {
      StartTimer();
      for i := 0 to |events|
        invariant InOrder() && timerStarted
        invariant forall k :: 0 <= k < i ==> !(events[k].Raised? && Fatal(events[k].reply))
      {
        if events[i].Tick? {
          Print(ProgressLine);
        } else {
          ok := PseudoException(events[i].reply);
          if !ok {
            return;
          }
        }
      }
      StopTimer();
      ok := true;
    }

    method DeactivateExceptionHandler()
      requires InOrder()
      modifies this`handlerCounter, this`calls
      ensures InOrder() && handlerCounter == old(handlerCounter) + 1
    {
      if handlerCounter == 0 {
        calls := calls + [FetchAll];
      }
      handlerCounter := handlerCounter + 1;
    }

    method ActivateExceptionHandler()
      requires InOrder() && handlerCounter > 0   // assert(handler_deactivation_counter > 0)
      modifies this`handlerCounter, this`calls
      ensures InOrder() && handlerCounter == old(handlerCounter) - 1
    {
      handlerCounter := handlerCounter - 1;
      if handlerCounter == 0 {
        calls := calls + [LeaveAll];
      }
    }

    // -----------------------------------------------------------------
    // Information about partitions

    /** libparted counts the primary partitions. */
    method PossiblePrimaryPartition(t: Table, space: Partition) returns (result: bool)
      requires InOrder() && space.kind.Free?
      modifies this`handlerCounter, this`calls
      ensures InOrder() && handlerCounter == old(handlerCounter)
      ensures result <==> space.kind == Free(false) && |PrimaryPlaces(t.parts)| < t.maxPrimary
    {
      DeactivateExceptionHandler();
      PrimaryCount(t.parts);
      result := !space.IsLogical() && ActivePrimaries(t.parts) < t.maxPrimary;
      ActivateExceptionHandler();
    }

    method PossibleExtendedPartition(t: Table, space: Partition) returns (result: bool)
      requires InOrder() && space.kind.Free?
      modifies this`handlerCounter, this`calls
      ensures InOrder() && handlerCounter == old(handlerCounter)
      ensures result <==>
        && t.canExtend && (forall i :: 0 <= i < |t.parts| ==> !t.parts[i].kind.Extended?)
        && space.kind == Free(false) && |PrimaryPlaces(t.parts)| < t.maxPrimary
    {
      DeactivateExceptionHandler();
      result := t.canExtend && !t.HasExtended();
      if result {
        result := PossiblePrimaryPartition(t, space);
      }
      ActivateExceptionHandler();
    }

    /** The loop asserts that a partition in the way is not logical. */
    method PossibleLogicalPartition(t: Table, space: Partition) returns (result: bool)
      requires InOrder() && space.kind.Free?
      modifies this`handlerCounter, this`calls
      ensures InOrder() && handlerCounter == old(handlerCounter)
      ensures result <==> LogicalFits(t, space)
    {
      DeactivateExceptionHandler();
      if !t.HasExtended() {
        result := PossibleExtendedPartition(t, space);
      } else {
        var e :| 0 <= e < |t.parts| && t.parts[e].kind.Extended?;
        result := true;
        var i := 0;
        while result && i < |t.parts|
          invariant 0 <= i <= |t.parts|
          invariant result <==> forall k :: 0 <= k < i ==> !Between(t.parts[k], space, t.parts[e])
          modifies {}
        {
          if Between(t.parts[i], space, t.parts[e]) {
            BlockerIsPrimary(t, i, space, e);
            assert !t.parts[i].IsLogical();
            result := false;
          }
          i := i + 1;
        }
      }
      ActivateExceptionHandler();
    }

    /** The type column of partition_info. */
    method PartitionInfo(t: Table, part: Partition) returns (kind: string)
      requires InOrder() && handlerCounter > 0
      modifies this`handlerCounter, this`calls
      ensures InOrder() && handlerCounter == old(handlerCounter)
      ensures kind == InfoType(t, part)
    {
      if part.kind.Free? {
        var primary := PossiblePrimaryPartition(t, part);
        var logical := PossibleLogicalPartition(t, part);
        kind := if primary then (if logical then "pri/log" else "primary") else if logical then "logical" else "unusable";
      } else {
        kind := if part.IsLogical() then "logical" else "primary";
      }
    }

    /** The loop of partition_info lines in PARTITIONS and DUMP. */
    method PrintPartitions(t: Table)
      requires InOrder() && !timerStarted && handlerCounter > 0
      modifies this`handlerCounter, this`calls, this`out
      ensures InOrder() && handlerCounter == old(handlerCounter)
    {
      for i := 0 to |t.parts|
        invariant InOrder() && handlerCounter == old(handlerCounter)
      {
        var _ := PartitionInfo(t, t.parts[i]);
        Print(TextLine);
      }
    }

    // -----------------------------------------------------------------
    // The registry

    method IndexOfName(name: string) returns (i: nat)
      modifies this`devices
      ensures i == IndexOf(old(devices), name)
      ensures devices == if i < |old(devices)| then old(devices) else old(devices) + [Unopened(name)]
      ensures i < |devices|
    {
      i := 0;
      while i < |devices| && devices[i].name != name
        invariant 0 <= i <= |devices| && devices == old(devices)
        invariant IndexOf(devices, name) == i + IndexOf(devices[i..], name)
      {
        assert devices[i..][1..] == devices[i + 1..];
        i := i + 1;
      }
      if i == |devices| {
        devices := devices + [Unopened(name)];
      }
    }

    method SetDeviceNamed(i: nat, dev: Option<string>)
      requires i < |devices| && devices[i].disk.None?   // assert(disk_named(name) == NULL)
      modifies this`devices
      ensures devices == old(devices)[i := old(devices[i]).(dev := dev)]
    {
      devices := devices[i := devices[i].(dev := dev)];
    }

    method SetDiskNamed(i: nat, disk: Option<Table>)
      requires i < |devices| && devices[i].dev.Some?    // assert(device_opened(name))
      modifies this`devices
      ensures devices == old(devices)[i := old(devices[i]).(disk := disk)]
    {
      devices := devices[i := devices[i].(disk := disk)];
    }

    /** libparted edits the table in memory. */
    method EditTable(i: nat, t: Table)
      requires i < |devices| && devices[i].disk.Some?
      modifies this`devices
      ensures devices == old(devices)[i := old(devices[i]).(disk := Some(t))]
    {
      devices := devices[i := devices[i].(disk := Some(t))];
    }

    method ChangeNamed(i: nat)
      requires i < |devices|
      modifies this`devices
      ensures devices == old(devices)[i := old(devices[i]).(changed := true)]
    {
      devices := devices[i := devices[i].(changed := true)];
    }

    method RememberGeometriesNamed(i: nat) returns (ok: bool)
      requires i < |devices|
      modifies this`devices
      ensures ok <==> |Geometries(old(devices[i]).disk)| < MAX_PARTITION
      ensures ok ==> devices == old(devices)[i := old(devices[i]).(geometries := Geometries(old(devices[i]).disk))]
    {
      var geometries: seq<Range> := [];
      if devices[i].disk.Some? {
        var parts := devices[i].disk.value.parts;
        for k := 0 to |parts|
          invariant geometries == RangesOf(ListedOf(parts[..k])) && |geometries| < MAX_PARTITION
          invariant devices == old(devices)
        {
          assert parts[..k + 1][..k] == parts[..k];
          if parts[k].IsListed() {
            geometries := geometries + [(parts[k].start, parts[k].end)];
            if |geometries| >= MAX_PARTITION {
              ListedGrows(parts, k + 1);
              return false;
            }
          }
        }
        assert parts[..|parts|] == parts;
      }
      devices := devices[i := devices[i].(geometries := geometries)];
      ok := true;
    }

    method UnchangeNamed(i: nat) returns (ok: bool)
      requires i < |devices|
      modifies this`devices
      ensures ok <==> Remember(old(devices[i]), storage).Go?
      ensures ok ==> devices == old(devices)[i := Remember(old(devices[i]), storage).device]
    {
      devices := devices[i := devices[i].(changed := false)];
      ok := RememberGeometriesNamed(i);
    }

    method NamedPartitionIsVirtual(i: nat, p: Partition) returns (r: bool)
      requires i < |devices|
      ensures r <==> IsVirtual(devices[i], p)
    {
      var geometries := devices[i].geometries;
      for k := 0 to |geometries|
        invariant forall m :: 0 <= m < k ==> geometries[m] != (p.start, p.end)
      {
        if geometries[k] == (p.start, p.end) {
          return false;
        }
      }
      return true;
    }

    method FindPartition(i: nat, id: Id) returns (f: Found)
      requires i < |devices|
      ensures f == Find(devices[i], id)
    {
      if id.None? {
        return BadId;
      }
      if devices[i].disk.None? {
        return NoTable;
      }
      var k := PartitionWithId(devices[i].disk.value, id.value);
      f := if k.Some? then At(Place(devices[i].disk.value, k.value)) else Nowhere;
    }

    // -----------------------------------------------------------------
    // Commands

    ghost predicate Idle()
      reads this`handlerCounter, this`timerStarted, this`out, this`calls
    {
      InOrder() && handlerCounter == 0 && !timerStarted
    }

    /** A command has had this effect on the i-th device, or has stopped the server. */
    ghost predicate After(before: seq<Device>, i: nat, e: Effect, stop: Option<StopReason>)
      requires i < |before|
      reads this
    {
      match e
      case Go(d, st) => stop.None? && devices == before[i := d] && storage == st && Idle()
      case Halt(reason) => stop == Some(reason) && InOrder()
    }

    method ResizePartition(place: ValidPlace, start: int, end: int, openFs: bool, a: ResizeAnswer) returns (r: Resized)
      requires Idle()
      modifies this`handlerCounter, this`calls, this`out, this`timerStarted
      ensures r == Resize(place, start, end, openFs, a)
      ensures InOrder() && (r.Resized? ==> Idle())
    {
      if place.Part().start == start && place.Part().end == end {
        return Resized(true, place);
      }
      if openFs {
        DeactivateExceptionHandler();
        ActivateExceptionHandler();
      }
      if a.refused {
        return Resized(false, place);
      }
      assert place.Part().IsLogical() ==> place.table.HasExtended();   // maximize_extended_partition
      var ok := Deliver(a.raised);
      if !ok {
        return Interrupted;
      }
      if !a.fits {
        return Resized(false, Unmoved(place, a.after));
      }
      if !openFs || !a.hasFs {
        return Resized(true, a.after);
      }
      ok := TimeredFileSystemResize(a.events);
      if !ok {
        return Interrupted;
      }
      if a.resized {
        return Resized(true, a.after);
      }
      ok := Deliver(a.restoring);
      if !ok {
        return Interrupted;
      }
      r := Resized(false, if a.restored then Unmoved(place, a.after) else a.after);
    }

    /** ped_disk_commit followed by unchange_named. */
    method CommitDisk(i: nat, raised: seq<Reply>, written: bool) returns (stop: Option<StopReason>)
      requires Idle() && i < |devices| && devices[i].dev.Some? && devices[i].disk.Some?
      modifies this
      ensures After(old(devices), i, WriteAndRemember(old(devices[i]), old(storage), raised, written), stop)
    {
      var ok := Deliver(raised);
      if !ok {
        return Some(CriticalError);
      }
      if written {
        storage := storage[devices[i].dev.value := devices[i].disk.value];
      }
      ok := UnchangeNamed(i);
      stop := if ok then None else Some(CriticalError);
    }

    /** The second half of OPEN: read the table and remember it. */
    method Reread(i: nat, readable: bool) returns (ok: bool)
      requires Idle() && i < |devices| && devices[i].dev.Some?
      modifies this
      ensures var e := Remember(old(devices[i]).(disk := Read(old(storage), old(devices[i]).dev.value, readable)), old(storage));
        After(old(devices), i, e, if ok then None else Some(CriticalError))
    {
      DeactivateExceptionHandler();
      SetDiskNamed(i, None);
      SetDiskNamed(i, Read(storage, devices[i].dev.value, readable));
      ok := UnchangeNamed(i);
      ActivateExceptionHandler();
    }

    method CommandUndo(i: nat, c: Command) returns (stop: Option<StopReason>)
      requires Idle() && i < |devices| && devices[i].dev.Some? && c.Undo?
      modifies this
      ensures After(old(devices), i, StepQuery(old(devices[i]), old(storage), c), stop)
    {
      DeactivateExceptionHandler();
      SetDiskNamed(i, None);
      SetDiskNamed(i, Read(storage, devices[i].dev.value, c.readable));
      ActivateExceptionHandler();
      ghost var before := devices;
      var ok := UnchangeNamed(i);
      SameUpdate(old(devices), before, i);
      if !ok {
        return Some(CriticalError);
      }
      Print(TextLine);
      stop := None;
    }

    method CommandOpen(i: nat, c: Command) returns (stop: Option<StopReason>)
      requires Idle() && i < |devices| && DeviceInvariant(devices[i]) && c.Open?
      modifies this
      ensures After(old(devices), i, OpenEffect(old(devices[i]), old(storage), c), stop)
    {
      if devices[i].dev.Some? {
        var ok := PseudoException(c.reply);
        if !ok {
          return Some(CriticalError);
        }
      } else {
        var ok := Deliver(c.raised);
        if !ok {
          return Some(CriticalError);
        }
        SetDeviceNamed(i, if c.found then Some(c.path) else None);
      }
      Print(TextLine);
      if devices[i].dev.Some? {
        var ok := Reread(i, c.readable);
        stop := if ok then None else Some(CriticalError);
      } else {
        Print(TextLine);
        stop := None;
      }
    }

    method CommandClose(i: nat, c: Command) returns (stop: Option<StopReason>)
      requires Idle() && i < |devices| && c.Close?
      modifies this
      ensures After(old(devices), i, StepDevice(old(devices[i]), old(storage), c), stop)
    {
      if devices[i].dev.None? {
        var ok := PseudoException(c.reply);
        if !ok {
          return Some(CriticalError);
        }
        return Some(RegistryAssertion);   // set_disk_named asserts that the device is open
      }
      SetDiskNamed(i, None);
      SetDeviceNamed(i, None);
      Print(TextLine);
      stop := None;
    }

    method CommandCommit(i: nat, c: Command) returns (stop: Option<StopReason>)
      requires Idle() && i < |devices| && devices[i].dev.Some? && c.Commit?
      modifies this
      ensures After(old(devices), i, StepQuery(old(devices[i]), old(storage), c), stop)
    {
      if c.firmware && devices[i].disk.None? {
        return Some(NullPointer);   // disk->dev->path
      }
      if devices[i].disk.Some? && devices[i].changed {
        stop := CommitDisk(i, c.raised, c.written);
      } else {
        var ok := UnchangeNamed(i);
        stop := if ok then None else Some(CriticalError);
      }
      if stop.None? {
        Print(TextLine);
      }
    }

    /** PARTITIONS minimizes the extended partition without marking a change. */
    method CommandPartitions(i: nat, c: Command) returns (stop: Option<StopReason>)
      requires Idle() && i < |devices| && devices[i].dev.Some? && c.Partitions?
      modifies this
      ensures After(old(devices), i, StepQuery(old(devices[i]), old(storage), c), stop)
    {
      stop := None;
      Print(TextLine);
      DeactivateExceptionHandler();
      if devices[i].disk.None? {
        Print(TextLine);
        ActivateExceptionHandler();
        return;
      }
      if devices[i].disk.value.HasExtended() {
        EditTable(i, Minimized(devices[i].disk.value, c.moved));
      }
      PrintPartitions(devices[i].disk.value);
      Print(TextLine);
      ActivateExceptionHandler();
    }

    /** VIRTUAL, DISK_UNCHANGED, IS_CHANGED and DUMP; the answer is the line printed
        after "OK" by the two that ask something. */
    method CommandStatus(i: nat, c: Command) returns (stop: Option<StopReason>, answer: string)
      requires Idle() && i < |devices| && devices[i].dev.Some?
      requires c.Virtual? || c.DiskUnchanged? || c.IsChanged? || c.Dump?
      modifies this
      ensures After(old(devices), i, StepQuery(old(devices[i]), old(storage), c), stop)
      ensures stop.None? && c.Virtual? ==>
        answer == if IsVirtual(old(devices[i]), Find(old(devices[i]), c.id).place.Part()) then "yes" else "no"
      ensures stop.None? && c.IsChanged? ==> answer == if old(devices[i]).changed then "yes" else "no"
    {
      stop, answer := None, "";
      if c.Virtual? {
        var f := FindPartition(i, c.id);
        if !f.At? {
          return Some(NotFound(f, NullPointer)), "";
        }
        var isVirtual := NamedPartitionIsVirtual(i, f.place.Part());
        answer := if isVirtual then "yes" else "no";
      } else if c.IsChanged? {
        answer := if devices[i].changed then "yes" else "no";
      } else if c.DiskUnchanged? {
        var ok := UnchangeNamed(i);
        stop := if ok then None else Some(CriticalError);
      } else if c.Dump? {
        if !c.writable {
          var ok := PseudoException(c.reply);
          stop := if ok then None else Some(CriticalError);
        } else {
          DeactivateExceptionHandler();
          if devices[i].disk.Some? {
            PrintPartitions(devices[i].disk.value);
          }
          ActivateExceptionHandler();
        }
      }
      if stop.None? {
        Print(TextLine);
      }
    }

    /** The lookup of the queries that only print something, and how it can end. */
    method AskLookup(i: nat, query: Query, id: Id) returns (stop: Option<StopReason>, part: Option<ValidPlace>)
      requires i < |devices|
      ensures AskEffect(devices[i], storage, query, id) == if stop.None? then Go(devices[i], storage) else Halt(stop.value)
    {
      stop, part := None, None;
      if query.LabelTypes? || query.GetMaxPrimary? || query.UsesExtended? || query.FileSystemTypes? {
        return;
      }
      if query.UsesNames? {
        stop := if devices[i].disk.None? then Some(NullPointer) else None;
        return;
      }
      var f := FindPartition(i, id);
      part := if f.At? then Some(f.place) else None;
      match query {
        case GetFlags =>
          stop := if f.At? && f.place.Part().IsActive() then None else Some(NotFound(f, CriticalError));
        case GetFileSystem | IsBusy =>
          stop := if f.At? then None else Some(NotFound(f, NullPointer));
        case AlignmentOffset(cylinder) =>
          stop := if f.At? || (f.Nowhere? && cylinder) then None else Some(NotFound(f, NullPointer));
        case _ =>
          stop := if f.BadId? || f.NoTable? then Some(NotFound(f, NullPointer)) else None;
      }
    }

    /** The queries that only print something about the device or a partition. */
    method CommandAsk(i: nat, c: Command) returns (stop: Option<StopReason>)
      requires Idle() && i < |devices| && devices[i].dev.Some? && c.Ask?
      modifies this
      ensures After(old(devices), i, AskEffect(old(devices[i]), old(storage), c.query, c.id), stop)
    {
      var part;
      stop, part := AskLookup(i, c.query, c.id);
      if stop.Some? {
        return;
      }
      Print(TextLine);
      DeactivateExceptionHandler();
      if part.Some? {
        var _ := PartitionInfo(part.value.table, part.value.Part());
      }
      Print(TextLine);
      ActivateExceptionHandler();
      assert devices == old(devices)[i := devices[i]];
    }

    /** SET_FLAGS: the flags are read with the handler deactivated. */
    method CommandSetFlags(i: nat, c: Command) returns (stop: Option<StopReason>)
      requires Idle() && i < |devices| && devices[i].dev.Some? && c.SetFlags?
      modifies this
      ensures After(old(devices), i, StepEdit(old(devices[i]), old(storage), c), stop)
    {
      ChangeNamed(i);
      var f := FindPartition(i, c.id);
      if !f.At? || !f.place.Part().IsActive() {
        return Some(NotFound(f, CriticalError));
      }
      Print(TextLine);
      DeactivateExceptionHandler();
      if !c.complete {
        return Some(CriticalError);
      }
      EditTable(i, WithPart(f.place, f.place.Part().(flags := c.flags)).value);
      ActivateExceptionHandler();
      stop := None;
      assert devices == old(devices)[i := devices[i]];
    }

    method CommandSetName(i: nat, c: Command) returns (stop: Option<StopReason>)
      requires Idle() && i < |devices| && devices[i].dev.Some? && c.SetName?
      modifies this
      ensures After(old(devices), i, StepEdit(old(devices[i]), old(storage), c), stop)
    {
      ChangeNamed(i);
      if devices[i].disk.None? {
        return Some(NullPointer);   // disk->type
      }
      if !c.allowed {
        return Some(CriticalError);
      }
      var f := FindPartition(i, c.id);
      if !f.At? || !f.place.Part().IsActive() || c.newName.None? {
        return Some(CriticalError);
      }
      Print(TextLine);
      DeactivateExceptionHandler();
      EditTable(i, WithPart(f.place, f.place.Part().(name := c.newName.value)).value);
      ActivateExceptionHandler();
      stop := None;
      assert devices == old(devices)[i := devices[i]];
    }

    /** CHANGE_FILE_SYSTEM, which marks the device only where it changes something. */
    method CommandChangeFileSystem(i: nat, c: Command) returns (stop: Option<StopReason>)
      requires Idle() && i < |devices| && devices[i].dev.Some? && c.ChangeFileSystem?
      modifies this
      ensures After(old(devices), i, StepEdit(old(devices[i]), old(storage), c), stop)
    {
      var f := FindPartition(i, c.id);
      if !f.At? {
        return Some(NotFound(f, CriticalError));
      }
      var p := f.place.Part();
      match c.fs {
        case Flag(flag, available) =>
          if !available {
            return Some(CriticalError);
          }
          if flag !in p.flags {
            ChangeNamed(i);
            EditTable(i, WithPart(f.place, p.(flags := p.flags + {flag})).value);
          }
        case System(system) =>
          if p.IsListed() && p.system != system {
            ChangeNamed(i);
            EditTable(i, WithPart(f.place, p.(system := system)).value);
          }
      }
      Print(TextLine);
      stop := None;
      assert devices == old(devices)[i := devices[i]];
    }

    method CommandNewLabel(i: nat, c: Command) returns (stop: Option<StopReason>)
      requires Idle() && i < |devices| && devices[i].dev.Some? && c.NewLabel?
      modifies this
      ensures After(old(devices), i, NewLabelEffect(old(devices[i]), old(storage), c), stop)
    {
      ChangeNamed(i);
      if !c.known {
        return Some(CriticalError);
      }
      var path := devices[i].dev;
      SetDiskNamed(i, None);
      SetDeviceNamed(i, None);
      var ok := Deliver(c.raised);
      if !ok || !c.reopened {
        return Some(CriticalError);
      }
      SetDeviceNamed(i, path);
      if c.newTable.None? {
        ok := PseudoException(c.reply);
        if !ok {
          return Some(CriticalError);
        }
      } else {
        SetDiskNamed(i, c.newTable);
      }
      Print(TextLine);
      stop := None;
      assert devices == old(devices)[i := devices[i]];
    }

    method CommandNewPartition(i: nat, c: Command) returns (stop: Option<StopReason>)
      requires Idle() && i < |devices| && devices[i].dev.Some? && c.NewPartition?
      modifies this
      ensures After(old(devices), i, StepEdit(old(devices[i]), old(storage), c), stop)
    {
      if devices[i].disk.None? {
        return Some(CommandAssertion);
      }
      ChangeNamed(i);
      if c.request.None? {
        return Some(CriticalError);
      }
      var t, r := devices[i].disk.value, c.request.value;
      var (start, end) := Span(t.sectorSize, r.range, r.position, r.length);
      var ok := Deliver(c.raised);
      if !ok {
        return Some(CriticalError);
      }
      PlaceNew(i, r, start, end, c.placed);
      stop := None;
      assert devices == old(devices)[i := devices[i]];
    }

    /** add_primary_partition or add_logical_partition, and the line about the result. */
    method PlaceNew(i: nat, r: NewRequest, start: int, end: int, a: Placement)
      requires Idle() && i < |devices| && devices[i].disk.Some?
      requires (start, end) == Span(devices[i].disk.value.sectorSize, r.range, r.position, r.length)
      modifies this`devices, this`handlerCounter, this`calls, this`out
      ensures Idle()
      ensures devices == old(devices)[i := old(devices[i]).(disk := Some(WithNew(old(devices[i]).disk.value, r, a)))]
    {
      var t := devices[i].disk.value;
      var new' := WithNew(t, r, a);
      EditTable(i, new');
      Print(TextLine);
      DeactivateExceptionHandler();
      if Created(t, r, a) {
        var p := new'.parts[a.index];
        assert a.asAsked ==> p.start == start && p.end == end;
        var _ := PartitionInfo(new', p);
      }
      Print(TextLine);
      ActivateExceptionHandler();
    }

    method CommandDeletePartition(i: nat, c: Command) returns (stop: Option<StopReason>)
      requires Idle() && i < |devices| && devices[i].dev.Some? && c.DeletePartition?
      modifies this
      ensures After(old(devices), i, StepEdit(old(devices[i]), old(storage), c), stop)
    {
      ChangeNamed(i);
      var f := FindPartition(i, c.id);
      if f.BadId? || f.NoTable? {
        return Some(NotFound(f, CriticalError));
      }
      if f.At? {
        var ok := Deliver(c.raised);
        if !ok {
          return Some(CriticalError);
        }
        EditTable(i, WithoutPart(f.place, c.after));
      }
      Print(TextLine);
      stop := None;
      assert devices == old(devices)[i := devices[i]];
    }

    method CommandResizePartition(i: nat, c: Command) returns (stop: Option<StopReason>)
      requires Idle() && i < |devices| && devices[i].dev.Some? && c.ResizePartition?
      modifies this
      ensures After(old(devices), i, StepResize(old(devices[i]), old(storage), c), stop)
    {
      if devices[i].disk.None? {
        return Some(CommandAssertion);
      }
      ChangeNamed(i);
      var f := FindPartition(i, c.id);
      if !f.At? || c.size.None? {
        return Some(CriticalError);
      }
      ghost var marked := devices;
      stop := CarryOutResize(i, c, f.place);
      SameUpdate(old(devices), marked, i);
    }

    method CarryOutResize(i: nat, c: Command, place: ValidPlace) returns (stop: Option<StopReason>)
      requires Idle() && i < |devices| && devices[i].dev.Some? && devices[i].disk.Some? && devices[i].changed
      requires c.ResizePartition? && c.size.Some?
      modifies this
      ensures After(old(devices), i, ResizeEffect(old(devices[i]), old(storage), c, place), stop)
    {
      var isVirtual := NamedPartitionIsVirtual(i, place.Part());
      var r := ResizePartition(place, place.Part().start, EndFor(place, c.size.value), !isVirtual, c.answer);
      if r.Interrupted? {
        return Some(CriticalError);
      }
      stop := FinishResize(i, r.place.table, !isVirtual && r.ok, c.raised, c.written);
    }

    /** The table is as resized; write it if it has to be. */
    method FinishResize(i: nat, t: Table, commit: bool, raised: seq<Reply>, written: bool) returns (stop: Option<StopReason>)
      requires Idle() && i < |devices| && devices[i].dev.Some? && devices[i].disk.Some?
      modifies this
      ensures var d := old(devices[i]).(disk := Some(t));
        After(old(devices), i, if commit then WriteAndRemember(d, old(storage), raised, written) else Go(d, old(storage)), stop)
    {
      EditTable(i, t);
      ghost var edited := devices;
      stop := None;
      if commit {
        stop := CommitDisk(i, raised, written);
        SameUpdate(old(devices), edited, i);
      }
      if stop.None? {
        Print(TextLine);
      }
    }

    /** The end grows until the partition is large enough. */
    method CommandVirtualResizePartition(i: nat, c: Command) returns (stop: Option<StopReason>)
      requires Idle() && i < |devices| && devices[i].dev.Some? && c.VirtualResizePartition?
      modifies this
      ensures After(old(devices), i, StepVirtualResize(old(devices[i]), old(storage), c), stop)
    {
      if devices[i].disk.None? {
        return Some(CommandAssertion);
      }
      ChangeNamed(i);
      var f := FindPartition(i, c.id);
      if !f.At? || c.size.None? {
        return Some(CriticalError);
      }
      ghost var marked := devices;
      stop := CarryOutVirtualResize(i, c, f.place);
      SameUpdate(old(devices), marked, i);
    }

    method CarryOutVirtualResize(i: nat, c: Command, place: ValidPlace) returns (stop: Option<StopReason>)
      requires Idle() && i < |devices| && devices[i].dev.Some? && devices[i].disk.Some? && devices[i].changed
      requires c.VirtualResizePartition? && c.size.Some?
      modifies this
      ensures After(old(devices), i, VirtualResizeEffect(old(devices[i]), old(storage), c, place), stop)
    {
      var r := ResizeLoop(place, place.Part().start, EndFor(place, c.size.value), c.size.value, c.answers);
      if r.None? {
        return Some(Hangs);
      }
      if r.value.Interrupted? {
        return Some(CriticalError);
      }
      stop := FinishResize(i, r.value.place.table, true, c.raised, c.written);
    }

    method ResizeLoop(place: ValidPlace, start: int, end: int, size: int, answers: seq<ResizeAnswer>) returns (r: Option<Resized>)
      requires Idle()
      modifies this`handlerCounter, this`calls, this`out, this`timerStarted
      ensures r == ResizeUntil(place, start, end, size, answers)
      ensures InOrder() && (r.Some? && r.value.Resized? ==> Idle())
    {
      var at, last := place, end;
      for k := 0 to |answers|
        invariant Idle()
        invariant ResizeUntil(place, start, end, size, answers) == ResizeUntil(at, start, last, size, answers[k..])
      {
        var one := ResizePartition(at, start, last, false, answers[k]);
        if one.Interrupted? || ByteLength(one.place) >= size {
          return Some(one);
        }
        assert answers[k..][1..] == answers[k + 1..];
        at, last := one.place, last + 1;
      }
      return None;
    }

    /** The end of both range queries: the extended partition is stretched for a
        logical one, the range is printed. */
    method FinishRange(i: nat, p: Partition, moved: Table)
      requires InOrder() && handlerCounter == 1 && !timerStarted && i < |devices| && devices[i].disk.Some?
      requires p in devices[i].disk.value.parts
      modifies this`devices, this`handlerCounter, this`calls, this`out
      ensures Idle()
      ensures devices == if p.IsLogical() then old(devices)[i := old(devices[i]).(disk := Some(Stretched(old(devices[i]).disk.value, moved)))]
                         else old(devices)
    {
      if p.IsLogical() {
        assert devices[i].disk.value.HasExtended();   // maximize_extended_partition
        EditTable(i, Stretched(devices[i].disk.value, moved));
      }
      Print(TextLine);
      ActivateExceptionHandler();
    }

    /** GET_RESIZE_RANGE. */
    method CommandResizeRange(i: nat, c: Command) returns (stop: Option<StopReason>)
      requires Idle() && i < |devices| && devices[i].dev.Some? && c.GetResizeRange?
      modifies this
      ensures After(old(devices), i, StepQuery(old(devices[i]), old(storage), c), stop)
    {
      if devices[i].disk.None? {
        return Some(CommandAssertion);
      }
      DeactivateExceptionHandler();
      var f := FindPartition(i, c.id);
      if !f.At? {
        return Some(CriticalError);
      }
      stop := None;
      var isVirtual := NamedPartitionIsVirtual(i, f.place.Part());
      if !isVirtual && c.unusableFs {
        Print(TextLine);
        ActivateExceptionHandler();
        return;
      }
      FinishRange(i, f.place.Part(), c.moved);
    }

    /** GET_VIRTUAL_RESIZE_RANGE. */
    method CommandVirtualResizeRange(i: nat, c: Command) returns (stop: Option<StopReason>)
      requires Idle() && i < |devices| && devices[i].dev.Some? && c.GetVirtualResizeRange?
      modifies this
      ensures After(old(devices), i, StepQuery(old(devices[i]), old(storage), c), stop)
    {
      if devices[i].disk.None? {
        return Some(CommandAssertion);
      }
      DeactivateExceptionHandler();
      var f := FindPartition(i, c.id);
      if !f.At? {
        return Some(CriticalError);
      }
      stop := None;
      FinishRange(i, f.place.Part(), c.moved);
    }

    // -----------------------------------------------------------------
    // The main loop

    method CommandOnOpened(i: nat, c: Command) returns (stop: Option<StopReason>)
      requires Idle() && i < |devices| && devices[i].dev.Some?
      requires !(c.Quit? || c.Open? || c.Close? || c.Opened? || c.GetLabelType?)
      modifies this
      ensures After(old(devices), i, StepOpened(old(devices[i]), old(storage), c), stop)
    {
      if c.Commit? {
        stop := CommandCommit(i, c);
      } else if c.Undo? {
        stop := CommandUndo(i, c);
      } else if c.Partitions? {
        stop := CommandPartitions(i, c);
      } else if c.Ask? {
        stop := CommandAsk(i, c);
      } else if c.SetFlags? {
        stop := CommandSetFlags(i, c);
      } else if c.SetName? {
        stop := CommandSetName(i, c);
      } else if c.ChangeFileSystem? {
        stop := CommandChangeFileSystem(i, c);
      } else if c.NewLabel? {
        stop := CommandNewLabel(i, c);
      } else if c.NewPartition? {
        stop := CommandNewPartition(i, c);
      } else if c.DeletePartition? {
        stop := CommandDeletePartition(i, c);
      } else if c.ResizePartition? {
        stop := CommandResizePartition(i, c);
      } else if c.VirtualResizePartition? {
        stop := CommandVirtualResizePartition(i, c);
      } else if c.GetResizeRange? {
        stop := CommandResizeRange(i, c);
      } else if c.GetVirtualResizeRange? {
        stop := CommandVirtualResizeRange(i, c);
      } else {
        var answer;
        stop, answer := CommandStatus(i, c);
      }
    }

    method CommandOnDevice(i: nat, c: Command) returns (stop: Option<StopReason>)
      requires Idle() && i < |devices| && DeviceInvariant(devices[i]) && !c.Quit?
      modifies this
      ensures After(old(devices), i, StepDevice(old(devices[i]), old(storage), c), stop)
    {
      if c.Open? {
        stop := CommandOpen(i, c);
      } else if c.Close? {
        stop := CommandClose(i, c);
      } else if c.Opened? || c.GetLabelType? {
        Print(TextLine);
        DeactivateExceptionHandler();
        Print(TextLine);
        ActivateExceptionHandler();
        stop := None;
      } else if devices[i].dev.None? {
        stop := Some(CriticalError);
      } else {
        stop := CommandOnOpened(i, c);
      }
    }

    /** One turn of the main loop: the effect is that of Step, and when the server
        goes on the exception handler is back in place and no progress bar is open. */
    method Execute(c: Command) returns (o: Outcome)
      requires AtRest()
      modifies this
      ensures o == Step(State(old(devices), old(storage)), c)
      ensures o.Running? ==> o.state == State(devices, storage) && AtRest()
      ensures InOrder()
    {
      if c.Quit? {
        return Stopped(QuitRequested);
      }
      ghost var s := State(devices, storage);
      var i := IndexOfName(c.name);
      Registered(s, c.name, i, devices);
      InvariantAt(s, c.name);
      ghost var registered := devices;
      ghost var e := StepDevice(devices[i], storage, c);
      var stop := CommandOnDevice(i, c);
      StepIs(s, c, i, registered, e);
      if stop.Some? {
        return Stopped(stop.value);
      }
      StepKeepsInvariant(s, c);
      o := Running(State(devices, storage));
    }

    /** main_loop, for every list of commands. */
    method MainLoop(commands: seq<Command>) returns (o: Outcome)
      requires AtRest()
      modifies this
      ensures o == Run(State(old(devices), old(storage)), commands)
      ensures o.Running? ==> o.state == State(devices, storage) && AtRest()
      ensures InOrder()
    {
      o := Running(State(devices, storage));
      for k := 0 to |commands|
        invariant o == Run(State(old(devices), old(storage)), commands[..k])
        invariant o.Running? ==> o.state == State(devices, storage) && AtRest()
        invariant InOrder()
      {
        assert commands[..k + 1][..k] == commands[..k];
        if o.Running? {
          o := Execute(commands[k]);
        }
      }
      assert commands[..|commands|] == commands;
    }
  }

  /** Replacing one entry twice. */
  lemma SameUpdate(before: seq<Device>, middle: seq<Device>, i: nat)
    requires i < |before| == |middle| && middle == before[i := middle[i]]
    ensures forall d: Device {:trigger middle[i := d]} :: middle[i := d] == before[i := d]
  {
  }

  /** The registry after index_of_name, and after a command on the entry. */
  lemma Registered(s: State, name: string, i: nat, registered: seq<Device>)
    requires i == IndexOf(s.devices, name)
    requires registered == if i < |s.devices| then s.devices else s.devices + [Unopened(name)]
    ensures i < |registered| && registered[i] == DeviceNamed(s, name)
    ensures forall d: Device {:trigger registered[i := d]} :: d.name == name ==> registered[i := d] == WithDevice(s.devices, d)
  {
  }

  lemma StepIs(s: State, c: Command, i: nat, registered: seq<Device>, e: Effect)
    requires !c.Quit? && i < |registered| && e == StepDevice(DeviceNamed(s, c.name), s.storage, c)
    requires forall d: Device {:trigger registered[i := d]} :: d.name == c.name ==> registered[i := d] == WithDevice(s.devices, d)
    ensures Step(s, c) == if e.Go? then Running(State(registered[i := e.device], e.storage)) else Stopped(e.reason)
  {
    if e.Go? {
      StepDeviceName(DeviceNamed(s, c.name), s.storage, c);
      assert registered[i := e.device] == WithDevice(s.devices, e.device);
    }
  }

  lemma {:induction false} ListedGrows(parts: seq<Partition>, k: nat)
    requires k <= |parts|
    ensures |ListedOf(parts[..k])| <= |ListedOf(parts)|
    decreases |parts| - k
  {
    if k < |parts| {
      ListedGrows(parts, k + 1);
      assert parts[..k + 1][..k] == parts[..k];
    } else {
      assert parts[..k] == parts;
    }
  }

  function ActivePrimaries(parts: seq<Partition>): nat {
    if parts == [] then 0
    else
      var p := parts[|parts| - 1];
      ActivePrimaries(parts[..|parts| - 1]) + if p.IsActive() && !p.IsLogical() then 1 else 0
  }

  /** Where the primary partitions are, and the extended one. */
  function PrimaryPlaces(parts: seq<Partition>): set<nat> {
    set k: nat | k < |parts| && (parts[k].kind == Ordinary(false) || parts[k].kind.Extended?)
  }

  lemma {:induction false} PrimaryCount(parts: seq<Partition>)
    ensures ActivePrimaries(parts) == |PrimaryPlaces(parts)|
  {
    if parts != [] {
      var last := |parts| - 1;
      PrimaryCount(parts[..last]);
      var p := parts[last];
      assert PrimaryPlaces(parts) == PrimaryPlaces(parts[..last]) + if p.IsActive() && !p.IsLogical() then {last} else {};
    }
  }

  predicate PrimaryFits(t: Table, space: Partition) {
    space.kind == Free(false) && |PrimaryPlaces(t.parts)| < t.maxPrimary
  }

  ghost predicate LogicalFits(t: Table, space: Partition) {
    if t.HasExtended()
    then exists e :: 0 <= e < |t.parts| && t.parts[e].kind.Extended? && NothingBetween(t, space, t.parts[e])
    else t.canExtend && PrimaryFits(t, space)
  }

  ghost function InfoType(t: Table, part: Partition): string {
    if !part.kind.Free? then if part.IsLogical() then "logical" else "primary"
    else if PrimaryFits(t, part) then if LogicalFits(t, part) then "pri/log" else "primary"
    else if LogicalFits(t, part) then "logical" else "unusable"
  }
}

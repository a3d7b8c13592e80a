/** Unattended configuration of FCP devices (packages/s390-zfcp/zfcp-config.c): the
    state machine of main when it runs on preseeded entries. */
module ZfcpConfig {
  import opened Wrappers
  import opened S390Ids

  const EXIT_SUCCESS: int := 0
  const EXIT_FAILURE: int := 1

  const SCSI_ASYNC_TRIES: nat := 15

  datatype Host = Host(online: bool, npiv: bool, luns: Option<set<LunDevId>>, writeLuns: bool, configured: bool) {
    /** What write_config_file lists. */
    function Listed(): set<LunDevId> {
      if writeLuns && luns.Some? then luns.value else {}
    }
  }

  /** What is asked of the system. */
  datatype Operation = SetOnline(id: CcwDevId) | CheckNpiv(id: CcwDevId) | EnableLun(lun: LunDevId) | Unlink(id: CcwDevId) | Create(id: CcwDevId)

  /** An operation and whether it succeeded, the LUNs of a device that have a SCSI device,
      and the end of the wait for one. */
  datatype Event = Attempt(op: Operation, ok: bool) | Scanned(id: CcwDevId, luns: set<LunDevId>) | GaveUp(lun: LunDevId)

  predicate Fault(e: Event) {
    e.GaveUp? || (e.Attempt? && !e.ok)
  }

  /** Nothing failed from place n of the log on. */
  predicate CleanFrom(log: seq<Event>, n: nat) {
    forall i :: n <= i < |log| ==> !Fault(log[i])
  }

  datatype State = SelectHost | RemoveConfig | Enable | AddLuns | WriteConfig | BackupState | ErrorState | FinishState

  datatype Wanted = WantBackup | WantNext | WantFinish | WantError

  /** Entries that are not processed yet. */
  function Count(seen: seq<bool>): nat {
    if seen == [] then 0 else Count(seen[..|seen| - 1]) + if seen[|seen| - 1] then 0 else 1
  }

  lemma {:induction false} CountDrops(seen: seq<bool>, seen': seq<bool>, k: nat)
    requires k < |seen| == |seen'| && !seen[k] && seen'[k]
    requires forall i :: 0 <= i < |seen| && seen[i] ==> seen'[i]
    ensures Count(seen') < Count(seen)
  {
    var last := |seen| - 1;
    if k < last {
      CountDrops(seen[..last], seen'[..last], k);
    } else {
      CountFalls(seen[..last], seen'[..last]);
    }
  }

  lemma {:induction false} CountFalls(seen: seq<bool>, seen': seq<bool>)
    requires |seen| == |seen'| && forall i :: 0 <= i < |seen| && seen[i] ==> seen'[i]
    ensures Count(seen') <= Count(seen)
  {
    if seen != [] {
      CountFalls(seen[..|seen| - 1], seen'[..|seen| - 1]);
    }
  }

  lemma {:induction false} CountBound(seen: seq<bool>)
    ensures Count(seen) <= |seen|
  {
    if seen != [] {
      CountBound(seen[..|seen| - 1]);
    }
  }

  /** The transition table of main. */
  function NextState(state: State, wanted: Wanted): State {
    match wanted
    case WantFinish => FinishState
    case WantError => ErrorState
    case WantBackup =>
      if state.SelectHost? then BackupState else if state.RemoveConfig? || state.AddLuns? then SelectHost else ErrorState
    case WantNext =>
      match state
      case SelectHost => RemoveConfig
      case RemoveConfig => Enable
      case Enable => AddLuns
      case AddLuns => WriteConfig
      case WriteConfig => SelectHost
      case _ => ErrorState
  }

  function Rank(state: State): nat {
    match state
    case SelectHost => 1
    case RemoveConfig => 5
    case Enable => 4
    case AddLuns => 3
    case WriteConfig => 2
    case _ => 0
  }

  class Configurator {
    const preseed: seq<LunDevId>                  // the keys of preseed_data, in order
    const allowLunScan: bool
    var hosts: map<CcwDevId, Host>
    var seen: seq<bool>
    var bus: set<LunDevId>                        // LUNs that have a SCSI device
    var files: map<CcwDevId, set<LunDevId>>       // configuration files written
    ghost var removalsAsked: nat                  // questions about removing a configuration
    ghost var rounds: nat                         // calls of select_preseeded
    ghost var log: seq<Event>

    constructor (preseed: seq<LunDevId>, hosts: map<CcwDevId, Host>, allowLunScan: bool)
      ensures this.preseed == preseed && this.hosts == hosts && this.allowLunScan == allowLunScan
      ensures seen == seq(|preseed|, _ => false) && files == map[] && removalsAsked == 0 && rounds == 0 && log == []
    {
      this.preseed, this.hosts, this.allowLunScan := preseed, hosts, allowLunScan;
      seen := seq(|preseed|, _ => false);
      bus := *;
      files := map[];
      removalsAsked, rounds, log := 0, 0, [];
    }

    ghost predicate IsConfigured(id: CcwDevId)
      reads this`hosts
    {
      id in hosts ==> hosts[id].configured
    }

    /** Every processed entry belongs to a configured device, or to the selected one. */
    ghost predicate Progress(selected: Option<CcwDevId>)
      reads this
    {
      |seen| == |preseed| &&
      forall k :: 0 <= k < |seen| && seen[k] ==> IsConfigured(preseed[k].fcpDev) || selected == Some(preseed[k].fcpDev)
    }

    /** What the configuration file of a device has to list: every preseeded LUN of
        the device, or nothing where the LUNs are scanned automatically. */
    ghost predicate Lists(id: CcwDevId, host: Host, luns: set<LunDevId>) {
      if allowLunScan && host.npiv then
        luns == {}
      else
        forall k :: 0 <= k < |preseed| && preseed[k].fcpDev == id ==> preseed[k] in luns
    }

    /** No device lost its configuration, and what was configured since is online and has
        its file. */
    ghost predicate Recorded(before: map<CcwDevId, Host>)
      reads this`hosts, this`files
    {
      && hosts.Keys == before.Keys
      && forall h :: h in hosts && hosts[h].configured != before[h].configured ==>
           hosts[h].configured && hosts[h].online && h in files && Lists(h, hosts[h], files[h])
    }

    /** The selected device is open for configuration, and ready for it before WRITE. */
    ghost predicate Selected(state: State, selected: Option<CcwDevId>)
      reads this`hosts
    {
      match state
      case ErrorState => true
      case FinishState => preseed != []
      case BackupState => false
      case SelectHost => selected.None? && Unwritten(None)
      case _ =>
        && selected.Some? && selected.value in hosts && !hosts[selected.value].configured
        && HasEntry(selected.value) && Unwritten(selected)
        && var host := hosts[selected.value];
           && (state.AddLuns? || state.WriteConfig? ==> host.online)
           && if state.WriteConfig? then Lists(selected.value, host, host.Listed()) else !host.writeLuns
    }

    ghost predicate HasEntry(id: CcwDevId) {
      exists k :: 0 <= k < |preseed| && preseed[k].fcpDev == id
    }

    /** Only configured devices and the selected one had their LUNs gathered. */
    ghost predicate Unwritten(selected: Option<CcwDevId>)
      reads this`hosts
    {
      forall h :: h in hosts && !hosts[h].configured && selected != Some(h) ==> !hosts[h].writeLuns
    }

    /** select_preseeded: the first entry that is neither processed nor configured. */
    method SelectPreseeded() returns (wanted: Wanted, selected: Option<CcwDevId>)
      requires |seen| == |preseed|
      modifies this`seen, this`rounds
      ensures rounds == old(rounds) + 1 && |seen| == |preseed|
      ensures wanted == WantError <==> preseed == []
      ensures wanted in {WantNext, WantFinish, WantError} && (wanted == WantNext <==> selected.Some?)
      ensures wanted != WantNext ==> seen == old(seen)
      ensures wanted == WantFinish ==> forall k :: 0 <= k < |seen| ==> seen[k] || IsConfigured(preseed[k].fcpDev)
      ensures wanted == WantNext ==>
        && selected.value in hosts && !hosts[selected.value].configured
        && exists k :: 0 <= k < |seen| && !old(seen)[k] && preseed[k].fcpDev == selected.value && seen == old(seen)[k := true]
                       && forall i :: 0 <= i < k ==> seen[i] || IsConfigured(preseed[i].fcpDev)
    {
      rounds := rounds + 1;
      if preseed == [] {
        return WantError, None;
      }
      selected := None;
      for k := 0 to |preseed|
        invariant |seen| == |preseed| && rounds == old(rounds) + 1
        invariant selected.None? ==> seen == old(seen) && forall i :: 0 <= i < k ==> seen[i] || IsConfigured(preseed[i].fcpDev)
        invariant selected.Some? ==>
          && selected.value in hosts && !hosts[selected.value].configured
          && exists n :: 0 <= n < k && !old(seen)[n] && preseed[n].fcpDev == selected.value && seen == old(seen)[n := true]
                         && forall i :: 0 <= i < n ==> seen[i] || IsConfigured(preseed[i].fcpDev)
      {
        var id := preseed[k].fcpDev;
        if selected.None? && !seen[k] && id in hosts && !hosts[id].configured {
          selected := Some(id);
          seen := seen[k := true];
        }
      }
      wanted := if selected.None? then WantFinish else WantNext;
    }

    /** The system is asked, and may fail. */
    method Try(op: Operation) returns (ok: bool)
      modifies this`log
      ensures log == old(log) + [Attempt(op, ok)]
    {
      ok := *;
      log := log + [Attempt(op, ok)];
    }

    /** remove_config_file, whatever the answers. */
    method RemoveConfigFile(id: CcwDevId) returns (wanted: Wanted)
      requires id in hosts
      modifies this`hosts, this`files, this`removalsAsked, this`log
      ensures wanted != WantFinish
      ensures wanted == WantError ==> log == old(log) + [Attempt(Unlink(id), false)]
      ensures wanted == WantNext ==> log == old(log)
      ensures old(hosts)[id].configured ==> removalsAsked == old(removalsAsked) + 1
      ensures !old(hosts)[id].configured ==> wanted == WantNext && removalsAsked == old(removalsAsked)
      ensures
        || (hosts == old(hosts) && files == old(files) && (wanted == WantBackup ==> log == old(log)))
        || (wanted == WantBackup && log == old(log) + [Attempt(Unlink(id), true)] && hosts == old(hosts)[id := old(hosts)[id].(configured := false)] && files == old(files) - {id})
      ensures !old(hosts)[id].configured || wanted != WantBackup ==> hosts == old(hosts) && files == old(files)
    {
      if !hosts[id].configured {
        return WantNext;
      }
      removalsAsked := removalsAsked + 1;
      var goBack: bool := *;
      if goBack {
        return WantBackup;
      }
      var confirmed: bool := *;
      if !confirmed {
        return WantNext;
      }
      var unlinked := Try(Unlink(id));
      if !unlinked {
        return WantError;
      }
      files := files - {id};
      hosts := hosts[id := hosts[id].(configured := false)];
      wanted := WantBackup;
    }

    /** enable_zfcp_host, whatever sysfs answers. */
    method EnableHost(id: CcwDevId) returns (wanted: Wanted)
      requires id in hosts
      modifies this`hosts, this`log
      ensures wanted == WantNext || wanted == WantError
      ensures id in hosts && (wanted == WantNext ==> hosts[id].online)
      ensures old(hosts)[id].online ==> wanted == WantNext && hosts == old(hosts) && log == old(log)
      ensures !old(hosts)[id].online ==>
        if hosts[id].online then log == old(log) + [Attempt(SetOnline(id), true)] + [Attempt(CheckNpiv(id), wanted == WantNext)]
        else log == old(log) + [Attempt(SetOnline(id), false)] && wanted == WantError
      ensures old(log) <= log && (wanted == WantError <==> !CleanFrom(log, |old(log)|))
      ensures hosts == old(hosts)[id := old(hosts)[id].(online := hosts[id].online, npiv := hosts[id].npiv)]
    {
      if hosts[id].online {
        return WantNext;
      }
      var written := Try(SetOnline(id));
      if !written {
        assert Fault(log[|log| - 1]);
        return WantError;
      }
      hosts := hosts[id := hosts[id].(online := true)];
      var checked := Try(CheckNpiv(id));
      if !checked {
        assert Fault(log[|log| - 1]);
        return WantError;
      }
      var npiv: bool := *;
      hosts := hosts[id := hosts[id].(npiv := npiv)];
      wanted := WantNext;
    }

    /** lun_tree_populate: SCSI devices may have appeared since. */
    method Populate(id: CcwDevId) returns (luns: set<LunDevId>)
      modifies this`bus, this`log
      ensures old(bus) <= bus
      ensures luns == set l | l in bus && l.fcpDev == id
      ensures log == old(log) + [Scanned(id, luns)]
    {
      var appeared: set<LunDevId> := *;
      bus := bus + appeared;
      luns := set l | l in bus && l.fcpDev == id;
      log := log + [Scanned(id, luns)];
    }

    /** The log from place n on: fifteen scans without the LUN. */
    ghost predicate InVain(n: nat, lun: LunDevId)
      reads this`log
    {
      && |log| == n + SCSI_ASYNC_TRIES + 1 && log[n + SCSI_ASYNC_TRIES] == GaveUp(lun)
      && forall i :: n <= i < n + SCSI_ASYNC_TRIES ==> log[i].Scanned? && log[i].id == lun.fcpDev && lun !in log[i].luns
    }

    /** __add_lun: success means that the LUN is in the tree. It fails when the LUN cannot
        be enabled, or when no SCSI device appears for it in fifteen scans. */
    method AddLun(lun: LunDevId, luns: set<LunDevId>) returns (ok: bool, luns': set<LunDevId>)
      requires luns <= bus && forall l :: l in luns ==> l.fcpDev == lun.fcpDev
      modifies this`bus, this`log
      ensures luns' <= bus + {lun} && forall l :: l in luns' ==> l.fcpDev == lun.fcpDev
      ensures ok ==> lun in luns' && luns <= luns' <= bus
      ensures old(log) <= log && (ok <==> CleanFrom(log, |old(log)|))
      ensures lun in luns ==> ok && luns' == luns && log == old(log)
      ensures lun !in luns && ok ==>
        && |log| >= |old(log)| + 2 && log[|old(log)|] == Attempt(EnableLun(lun), true) && log[|log| - 1] == Scanned(lun.fcpDev, luns')
      ensures !ok ==>
        || log == old(log) + [Attempt(EnableLun(lun), false)]
        || (old(log) + [Attempt(EnableLun(lun), true)] <= log && InVain(|old(log)| + 1, lun))
    {
      luns' := luns;
      if lun in luns {
        return true, luns;
      }
      var enabled := Try(EnableLun(lun));
      if !enabled {
        assert Fault(log[|old(log)|]);
        return false, luns;
      }
      for i := 0 to SCSI_ASYNC_TRIES
        invariant luns <= luns' <= bus && forall l :: l in luns' ==> l.fcpDev == lun.fcpDev
        invariant old(log) + [Attempt(EnableLun(lun), true)] <= log && |log| == |old(log)| + 1 + i
        invariant forall k :: |old(log)| < k < |log| ==> log[k].Scanned? && log[k].id == lun.fcpDev && lun !in log[k].luns
      {
        luns' := Populate(lun.fcpDev);
        if lun in luns' {
          return true, luns';
        }
      }
      bus := bus - {lun};
      log := log + [GaveUp(lun)];
      assert Fault(log[|log| - 1]);
      ok := false;
    }

    /** The walk of preseed_add_luns over the entries. */
    method AddPreseeded(id: CcwDevId, luns: set<LunDevId>) returns (err: bool, luns': set<LunDevId>)
      requires |seen| == |preseed| && luns <= bus && forall l :: l in luns ==> l.fcpDev == id
      modifies this`bus, this`seen, this`log
      ensures |seen| == |preseed|
      ensures old(log) <= log && (err <==> !CleanFrom(log, |old(log)|))
      ensures forall k :: 0 <= k < |seen| ==> seen[k] == old(seen)[k] || (seen[k] && preseed[k].fcpDev == id)
      ensures !err ==> forall k :: 0 <= k < |seen| && preseed[k].fcpDev == id ==> seen[k] && preseed[k] in luns'
      ensures !err ==> luns <= luns'
      ensures forall l :: l in luns' ==> l.fcpDev == id
    {
      err, luns' := false, luns;
      for k := 0 to |preseed|
        invariant |seen| == |preseed| && old(log) <= log && (err <==> !CleanFrom(log, |old(log)|))
        invariant forall i :: 0 <= i < |seen| ==> seen[i] == old(seen)[i] || (seen[i] && preseed[i].fcpDev == id)
        invariant !err ==> forall i :: 0 <= i < k && preseed[i].fcpDev == id ==> seen[i] && preseed[i] in luns'
        invariant !err ==> luns <= luns' <= bus
        invariant forall l :: l in luns' ==> l.fcpDev == id
      {
        if !err && preseed[k].fcpDev == id {
          var ok;
          ok, luns' := AddLun(preseed[k], luns');
          err := !ok;
          seen := seen[k := true];
        }
      }
    }

    /** add_zfcp_luns on preseeded entries: those of the device are processed, and a
        LUN that cannot be added ends the run. */
    method AddZfcpLuns(id: CcwDevId) returns (wanted: Wanted)
      requires id in hosts && |seen| == |preseed| && !hosts[id].writeLuns
      modifies this`hosts, this`seen, this`bus, this`log
      ensures wanted == WantNext || wanted == WantError
      ensures old(log) <= log && (wanted == WantNext ==> CleanFrom(log, |old(log)|))
      ensures wanted == WantError ==> !CleanFrom(log, |old(log)|) || !HasEntry(id)
      ensures id in hosts && hosts == old(hosts)[id := old(hosts)[id].(luns := hosts[id].luns, writeLuns := hosts[id].writeLuns)]
      ensures |seen| == |preseed|
      ensures forall k :: 0 <= k < |seen| ==> seen[k] == old(seen)[k] || (seen[k] && preseed[k].fcpDev == id)
      ensures wanted == WantNext ==> Lists(id, hosts[id], hosts[id].Listed())
      ensures wanted == WantNext && hosts[id].writeLuns ==> hosts[id].Listed() != {}
    {
      var luns := Populate(id);
      if allowLunScan && hosts[id].npiv {
        if hosts[id].luns.None? {
          luns := Populate(id);
          hosts := hosts[id := hosts[id].(luns := Some(luns))];
        }
        return WantNext;
      }
      var err;
      err, luns := AddPreseeded(id, luns);
      if err {
        return WantError;
      }
      hosts := hosts[id := hosts[id].(luns := Some(luns), writeLuns := true)];
      wanted := if luns == {} then WantError else WantNext;
    }

    /** write_config_file. */
    method WriteConfigFile(id: CcwDevId) returns (wanted: Wanted)
      requires id in hosts
      modifies this`hosts, this`files, this`log
      ensures wanted == WantNext || wanted == WantError
      ensures log == old(log) + [Attempt(Create(id), wanted == WantNext)]
      ensures wanted == WantError <==> !CleanFrom(log, |old(log)|)
      ensures wanted == WantNext ==>
        && hosts == old(hosts)[id := old(hosts)[id].(configured := true)]
        && files == old(files)[id := hosts[id].Listed()]
      ensures wanted == WantError ==> hosts == old(hosts) && files == old(files)
    {
      var created := Try(Create(id));
      if !created {
        assert Fault(log[|log| - 1]);
        return WantError;
      }
      files := files[id := hosts[id].Listed()];
      hosts := hosts[id := hosts[id].(configured := true)];
      wanted := WantNext;
    }

    /** The SELECT_ZFCP_HOST case: a selection uses up an entry. */
    method Choose(ghost before: map<CcwDevId, Host>) returns (state: State, selected: Option<CcwDevId>)
      requires Progress(None) && Selected(SelectHost, None) && Recorded(before)
      modifies this`seen, this`rounds
      ensures Progress(selected) && Selected(state, selected)
      ensures state in {RemoveConfig, FinishState, ErrorState} && rounds == old(rounds) + 1
      ensures state.ErrorState? <==> preseed == []
      ensures if state.RemoveConfig? then Count(seen) < Count(old(seen)) else Count(seen) == Count(old(seen))
      ensures state.FinishState? ==> forall k :: 0 <= k < |preseed| ==> IsConfigured(preseed[k].fcpDev)
    {
      var wanted;
      wanted, selected := SelectPreseeded();
      state := NextState(SelectHost, wanted);
      if wanted == WantNext {
        ghost var k :| 0 <= k < |seen| && !old(seen)[k] && preseed[k].fcpDev == selected.value && seen == old(seen)[k := true];
        CountDrops(old(seen), seen, k);
      }
    }

    /** The cases after it: the run reaches the next selection with the device
        configured and recorded, or ends in ERROR. */
    method Configure(ghost before: map<CcwDevId, Host>, state: State, selected: Option<CcwDevId>)
      returns (state': State, selected': Option<CcwDevId>)
      requires state in {RemoveConfig, Enable, AddLuns, WriteConfig}
      requires Progress(selected) && Selected(state, selected) && Recorded(before)
      modifies this`seen, this`hosts, this`bus, this`files, this`removalsAsked, this`log
      ensures Progress(selected') && Selected(state', selected') && Recorded(before)
      ensures !state'.FinishState? && Rank(state') < Rank(state)
      ensures Count(seen) <= Count(old(seen)) && removalsAsked == old(removalsAsked)
      ensures old(log) <= log && (state'.ErrorState? <==> !CleanFrom(log, |old(log)|))
    {
      var id, wanted := selected.value, WantError;
      match state {
        case RemoveConfig =>
          wanted := RemoveConfigFile(id);
        case Enable =>
          wanted := EnableHost(id);
        case AddLuns =>
          wanted := AddZfcpLuns(id);
          CountFalls(old(seen), seen);
        case WriteConfig =>
          wanted := WriteConfigFile(id);
      }
      state' := NextState(state, wanted);
      selected' := if state'.SelectHost? then None else selected;
    }

    /** The loop of main from the first selection on. It halts after at most one
        selection per entry and one more, never asks about a removal, and ends in
        FINISH only when every detected device with an entry is configured, with its
        preseeded LUNs in the file of every device that was not configured before, which
        is then online. */
    method Run() returns (rc: int)
      requires seen == seq(|preseed|, _ => false) && rounds == 0 && removalsAsked == 0
      requires forall h :: h in hosts ==> !hosts[h].writeLuns
      modifies this
      ensures rc in {EXIT_SUCCESS, EXIT_FAILURE}
      ensures rounds <= |preseed| + 1
      ensures removalsAsked == 0
      ensures Recorded(old(hosts))
      ensures rc == EXIT_SUCCESS ==> forall k :: 0 <= k < |preseed| ==> IsConfigured(preseed[k].fcpDev)
      ensures rc == EXIT_SUCCESS <==> preseed != [] && CleanFrom(log, |old(log)|)
    {
      var state, selected: Option<CcwDevId> := SelectHost, None;
      CountBound(seen);
      while !state.ErrorState? && !state.FinishState?
        invariant Progress(selected) && Selected(state, selected) && Recorded(old(hosts))
        invariant state.FinishState? ==> forall k :: 0 <= k < |preseed| ==> IsConfigured(preseed[k].fcpDev)
        invariant removalsAsked == 0
        invariant old(log) <= log && (state.ErrorState? <==> (preseed == [] && !state.SelectHost?) || !CleanFrom(log, |old(log)|))
        invariant rounds + Count(seen) <= |preseed| + if state.FinishState? || state.ErrorState? then 1 else 0
        decreases Count(seen), Rank(state)
      {
        if state.SelectHost? {
          state, selected := Choose(old(hosts));
        } else {
          state, selected := Configure(old(hosts), state, selected);
        }
      }
      rc := if state.FinishState? then EXIT_SUCCESS else EXIT_FAILURE;
    }
  }
}

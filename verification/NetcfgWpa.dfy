/** Starting wpa_supplicant (packages/netcfg/wpa.c): a state machine that talks to
    the daemon, pings it again when something fails, and gives up in the end. */
module NetcfgWpa {

  const GO_BACK: int := 31

  datatype State =
    | CheckDaemon | StartDaemon | Connect | Ping | AddNetwork | SetEssid | SetPsk
    | SetScanSsid | EnableNetwork | Poll | Abort | Success

  /** A visit to a state, whether a command was sent to the daemon, and whether what
      the state asked for succeeded. */
  datatype Visit = Visit(state: State, sent: bool, ok: bool)

  function Pings(visits: seq<Visit>): nat {
    if visits == [] then 0
    else Pings(visits[..|visits| - 1]) + if visits[|visits| - 1].state.Ping? then 1 else 0
  }

  /** The states of one attempt, in order. */
  const ATTEMPT := [Ping, AddNetwork, SetEssid, SetPsk, SetScanSsid, EnableNetwork, Poll]

  function Stage(s: State): nat {
    match s
    case AddNetwork => 1
    case SetEssid => 2
    case SetPsk => 3
    case SetScanSsid => 4
    case EnableNetwork => 5
    case Poll => 6
    case Success => 7
    case _ => 0
  }

  /** The last n visits are the first n states of an attempt, all successful. */
  predicate Attempted(visits: seq<Visit>, n: nat)
    requires n <= |ATTEMPT|
  {
    n == 0 ||
    (visits != [] && var last := visits[|visits| - 1];
     last.state == ATTEMPT[n - 1] && last.ok && Attempted(visits[..|visits| - 1], n - 1))
  }

  /** ADD_NETWORK is sent exactly when no daemon was found at the start; the settings
      after it always are. */
  predicate Plausible(v: Visit, running: bool) {
    && (v.state.AddNetwork? ==> v.sent == !running && (running ==> v.ok))
    && (v.state in {SetEssid, SetPsk, SetScanSsid, EnableNetwork} ==> v.sent)
  }

  predicate AllPlausible(visits: seq<Visit>, running: bool) {
    forall i :: 0 <= i < |visits| ==> Plausible(visits[i], running)
  }

  /** It fails at once where no daemon can be started, reached or made to connect, and
      otherwise only at the fifth PING. */
  predicate GivesUp(visits: seq<Visit>) {
    visits != [] && var last := visits[|visits| - 1];
    !last.ok && (last.state in {StartDaemon, Connect, Poll} || (last.state.Ping? && Pings(visits) == 5))
  }

  /** The run looks for the daemon, and starts one if there is none. */
  predicate Begins(visits: seq<Visit>, running: bool, state: State) {
    if visits == [] then state.CheckDaemon?
    else
      && visits[0] == Visit(CheckDaemon, false, running)
      && (if |visits| == 1 then state else visits[1].state) == if running then Connect else StartDaemon
  }

  lemma Continue(visits: seq<Visit>, v: Visit, running: bool, next: State)
    requires AllPlausible(visits, running) && Plausible(v, running) && Begins(visits, running, v.state)
    requires v.state.CheckDaemon? ==> v == Visit(CheckDaemon, false, running) && next == if running then Connect else StartDaemon
    ensures AllPlausible(visits + [v], running) && Begins(visits + [v], running, next)
  {
  }

  /** How far a state is from the end of the visits that one PING allows. */
  function Rank(s: State): nat {
    match s
    case CheckDaemon => 12
    case StartDaemon => 11
    case Connect => 10
    case AddNetwork => 9
    case SetEssid => 8
    case SetPsk => 7
    case SetScanSsid => 6
    case EnableNetwork => 5
    case Poll => 4
    case Ping => 2
    case _ => 1
  }

  lemma OneMorePing(visits: seq<Visit>, v: Visit)
    ensures Pings(visits + [v]) == Pings(visits) + if v.state.Ping? then 1 else 0
  {
    assert (visits + [v])[..|visits|] == visits;
  }

  /** One more visit: it extends the attempt it belongs to. */
  lemma Grow(visits: seq<Visit>, v: Visit, next: State)
    requires Attempted(visits, Stage(v.state)) && Stage(v.state) < 7
    requires Stage(next) == 0 || (v.ok && Stage(next) == Stage(v.state) + 1 && ATTEMPT[Stage(v.state)] == v.state)
    ensures Attempted(visits + [v], Stage(next))
    ensures Pings(visits + [v]) == Pings(visits) + if v.state.Ping? then 1 else 0
  {
    assert (visits + [v])[..|visits|] == visits;
  }

  // ---------------------------------------------------------------------
  // The machine

  /** retry counts the PINGs, ctrl says whether the connection to the daemon is open. */
  datatype Machine = Machine(state: State, retry: nat, ctrl: bool, visits: seq<Visit>) {
    predicate Halted() {
      state.Abort? || state.Success?
    }
  }

  /** A visit, given what the daemon or the system answers. running is the flag of a
      daemon found at the start, for which no network is added. */
  function Enter(state: State, running: bool, retry: nat, answer: bool): Visit {
    match state
    case CheckDaemon => Visit(state, false, running)
    case StartDaemon | Connect => Visit(state, false, answer)
    case Ping => Visit(state, retry < 4, retry < 4 && answer)
    case AddNetwork => Visit(state, !running, running || answer)
    case Poll => Visit(state, answer, answer)
    case _ => Visit(state, true, answer)
  }

  /** Where the visit leads, retry being the number of PINGs with it. */
  function Leave(v: Visit, retry: nat): State {
    match v.state
    case CheckDaemon => if v.ok then Connect else StartDaemon
    case StartDaemon => if v.ok then Connect else Abort
    case Connect => if v.ok then Ping else Abort
    case Ping => if retry > 4 then Abort else if v.ok then AddNetwork else StartDaemon
    case AddNetwork => if v.ok then SetEssid else Ping
    case SetEssid => if v.ok then SetPsk else Ping
    case SetPsk => if v.ok then SetScanSsid else Ping
    case SetScanSsid => if v.ok then EnableNetwork else Ping
    case EnableNetwork => if v.ok then Poll else Ping
    case Poll => if v.ok then Success else Abort
    case _ => v.state
  }

  function Turn(m: Machine, running: bool, answer: bool): Machine {
    if m.Halted() then m
    else
      var v := Enter(m.state, running, m.retry, answer);
      var retry := if m.state.Ping? then m.retry + 1 else m.retry;
      Machine(Leave(v, retry), retry, if m.state.Connect? then v.ok else m.ctrl, m.visits + [v])
  }

  /** The machine after n turns; daemon(k) is the answer to visit k. */
  function Run(running: bool, ctrl: bool, daemon: nat -> bool, n: nat): Machine {
    if n == 0 then Machine(CheckDaemon, 0, ctrl, []) else Turn(Run(running, ctrl, daemon, n - 1), running, daemon(n - 1))
  }

  /** What holds after every turn. */
  predicate Sound(m: Machine, running: bool) {
    && m.retry == Pings(m.visits) && m.retry <= 5 && (m.retry == 5 ==> m.state.Abort?)
    && Attempted(m.visits, Stage(m.state))
    && (m.state.Abort? ==> GivesUp(m.visits))
    && Begins(m.visits, running, m.state) && AllPlausible(m.visits, running)
  }

  lemma TurnKeeps(m: Machine, running: bool, answer: bool)
    requires Sound(m, running)
    ensures Sound(Turn(m, running, answer), running)
    ensures !m.Halted() ==> m.state.Ping? || Rank(Turn(m, running, answer).state) < Rank(m.state)
  {
    if !m.Halted() {
      var v := Enter(m.state, running, m.retry, answer);
      var next := Turn(m, running, answer).state;
      Grow(m.visits, v, next);
      Continue(m.visits, v, running, next);
    }
  }

  lemma {:induction false} RunIsSound(running: bool, ctrl: bool, daemon: nat -> bool, n: nat)
    ensures Sound(Run(running, ctrl, daemon, n), running)
  {
    if n > 0 {
      RunIsSound(running, ctrl, daemon, n - 1);
      TurnKeeps(Run(running, ctrl, daemon, n - 1), running, daemon(n - 1));
    }
  }

  /** wpa_supplicant_start, whatever the daemon answers: it follows the machine until
      that halts. */
  method WpaSupplicantStart(running: bool, ctrlAtEntry: bool, daemon: nat -> bool) returns (ret: int, ctrl: bool, visits: seq<Visit>)
    ensures var m := Run(running, ctrlAtEntry, daemon, |visits|);
      && m.visits == visits && m.Halted() && ret == if m.state.Success? then 0 else GO_BACK
    ensures !ctrl
    ensures Pings(visits) <= 5
    ensures ret == 0 ==> Attempted(visits, |ATTEMPT|)
    ensures ret == GO_BACK ==> GivesUp(visits)
    ensures |visits| >= 2 && Begins(visits, running, visits[1].state) && AllPlausible(visits, running)
  {
    var state, retry;
    state, retry, ctrl, visits := Loop(running, ctrlAtEntry, daemon);
    HaltedMeans(Machine(state, retry, ctrl, visits), running);
    if ctrl {
      ctrl := false;   // wpa_ctrl_close
    }
    ret := if state.Success? then 0 else GO_BACK;
  }

  lemma HaltedMeans(m: Machine, running: bool)
    requires Sound(m, running) && m.Halted()
    ensures Pings(m.visits) <= 5
    ensures m.state.Success? ==> Attempted(m.visits, |ATTEMPT|)
    ensures m.state.Abort? ==> GivesUp(m.visits)
    ensures |m.visits| >= 2 && Begins(m.visits, running, m.visits[1].state) && AllPlausible(m.visits, running)
  {
  }

  method Loop(running: bool, ctrlAtEntry: bool, daemon: nat -> bool)
    returns (state: State, retry: nat, ctrl: bool, visits: seq<Visit>)
    ensures Run(running, ctrlAtEntry, daemon, |visits|) == Machine(state, retry, ctrl, visits)
    ensures Sound(Machine(state, retry, ctrl, visits), running) && Machine(state, retry, ctrl, visits).Halted()
  {
    state, retry, ctrl, visits := CheckDaemon, 0, ctrlAtEntry, [];
    ghost var m := Machine(state, retry, ctrl, visits);
    while !state.Abort? && !state.Success?
      invariant m == Machine(state, retry, ctrl, visits)
      invariant m == Run(running, ctrlAtEntry, daemon, |visits|)
      invariant Sound(m, running)
      decreases 5 - retry, Rank(state)
    {
      var answer := daemon(|visits|);
      TurnKeeps(m, running, answer);
      m := Turn(m, running, answer);
      var v;
      v, state, retry, ctrl := Visited(state, running, retry, ctrl, answer);
      visits := visits + [v];
    }
  }

  /** The cases of the loop. */
  method Visited(state: State, running: bool, retry: nat, ctrl: bool, answer: bool)
    returns (v: Visit, next: State, retry': nat, ctrl': bool)
    requires !state.Abort? && !state.Success?
    ensures v == Enter(state, running, retry, answer) && next == Leave(v, retry')
    ensures retry' == retry + (if state.Ping? then 1 else 0) && ctrl' == if state.Connect? then v.ok else ctrl
  {
    var ok, sent := answer, true;
    retry', ctrl' := retry, ctrl;
    match state {
      case CheckDaemon =>
        ok, sent := running, false;
        next := if running then Connect else StartDaemon;
      case StartDaemon =>
        sent := false;
        next := if ok then Connect else Abort;
      case Connect =>
        ctrl', sent := ok, false;
        next := if ok then Ping else Abort;
      case Ping =>
        retry' := retry' + 1;
        if retry' > 4 {
          ok, sent, next := false, false, Abort;
        } else {
          next := if ok then AddNetwork else StartDaemon;
        }
      case AddNetwork =>
        if running {
          ok, sent, next := true, false, SetEssid;
        } else {
          next := if ok then SetEssid else Ping;
        }
      case SetEssid =>
        next := if ok then SetPsk else Ping;
      case SetPsk =>
        next := if ok then SetScanSsid else Ping;
      case SetScanSsid =>
        next := if ok then EnableNetwork else Ping;
      case EnableNetwork =>
        next := if ok then Poll else Ping;
      case Poll =>
        sent := ok;
        next := if ok then Success else Abort;
    }
    v := Visit(state, sent, ok);
  }

  /** How many turns are left when everything succeeds. */
  function ToGo(s: State, running: bool): nat {
    match s
    case CheckDaemon => if running then 9 else 10
    case StartDaemon => 9
    case Connect => 8
    case Ping => 7
    case AddNetwork => 6
    case SetEssid => 5
    case SetPsk => 4
    case SetScanSsid => 3
    case EnableNetwork => 2
    case Poll => 1
    case _ => 0
  }

  predicate HasChance(m: Machine) {
    !m.state.Abort? && (m.retry < 4 || Stage(m.state) > 0)
  }

  lemma OneNearer(m: Machine, running: bool)
    requires HasChance(m) && ToGo(m.state, running) > 0
    ensures HasChance(Turn(m, running, true)) && ToGo(Turn(m, running, true).state, running) == ToGo(m.state, running) - 1
  {
  }

  /** Once everything succeeds, a run that has not given up succeeds too, on the straight
      way through the states, if it has passed a PING or has one left before the fifth. */
  lemma {:induction false} Recovers(running: bool, ctrl: bool, daemon: nat -> bool, n: nat)
    requires HasChance(Run(running, ctrl, daemon, n))
    requires forall k :: k >= n ==> daemon(k)
    ensures Run(running, ctrl, daemon, n + ToGo(Run(running, ctrl, daemon, n).state, running)).state.Success?
    decreases ToGo(Run(running, ctrl, daemon, n).state, running)
  {
    var m := Run(running, ctrl, daemon, n);
    if ToGo(m.state, running) > 0 {
      OneNearer(m, running);
      assert Run(running, ctrl, daemon, n + 1) == Turn(m, running, daemon(n));
      Recovers(running, ctrl, daemon, n + 1);
    }
  }

  // ---------------------------------------------------------------------
  // The network of a daemon

  /** ADD_NETWORK was sent to the daemon that is running now. */
  predicate NetworkAdded(visits: seq<Visit>) {
    visits != [] &&
    var last := visits[|visits| - 1];
    !last.state.StartDaemon? && ((last.state.AddNetwork? && last.sent) || NetworkAdded(visits[..|visits| - 1]))
  }

  lemma {:induction false} NeverAdded(visits: seq<Visit>)
    requires AllPlausible(visits, true)
    ensures !NetworkAdded(visits)
  {
    if visits != [] {
      var front := visits[..|visits| - 1];
      assert forall i :: 0 <= i < |front| ==> front[i] == visits[i];
      NeverAdded(front);
    }
  }

  lemma {:induction false} AddedInAttempt(visits: seq<Visit>, n: nat)
    requires 2 <= n <= |ATTEMPT| && Attempted(visits, n) && AllPlausible(visits, false)
    ensures NetworkAdded(visits)
  {
    var front := visits[..|visits| - 1];
    assert forall i :: 0 <= i < |front| ==> front[i] == visits[i];
    if n > 2 {
      AddedInAttempt(front, n - 1);
    } else {
      assert Plausible(visits[|visits| - 1], false);
    }
  }

  /** In every run that succeeds a network was added to the daemon that is then in use
      exactly when none was found at the start. */
  lemma NetworkAddedIff(running: bool, ctrl: bool, daemon: nat -> bool, n: nat)
    requires Run(running, ctrl, daemon, n).state.Success?
    ensures NetworkAdded(Run(running, ctrl, daemon, n).visits) <==> !running
  {
    RunIsSound(running, ctrl, daemon, n);
    if running {
      NeverAdded(Run(running, ctrl, daemon, n).visits);
    } else {
      AddedInAttempt(Run(running, ctrl, daemon, n).visits, |ATTEMPT|);
    }
  }

  /** A daemon that was found, does not answer the first PING, and is replaced. */
  function SilentOnce(): (daemon: nat -> bool)
    ensures forall k :: daemon(k) <==> k != 2
  {
    k => k != 2
  }

  /** The visits of that run. */
  function RestartedVisit(k: nat): Visit {
    match k
    case 0 => Visit(CheckDaemon, false, true)
    case 1 => Visit(Connect, false, true)
    case 2 => Visit(Ping, true, false)
    case 3 => Visit(StartDaemon, false, true)
    case 4 => Visit(Connect, false, true)
    case 5 => Visit(Ping, true, true)
    case 6 => Visit(AddNetwork, false, true)
    case 7 => Visit(SetEssid, true, true)
    case 8 => Visit(SetPsk, true, true)
    case 9 => Visit(SetScanSsid, true, true)
    case 10 => Visit(EnableNetwork, true, true)
    case _ => Visit(Poll, true, true)
  }

  function RestartedVisits(n: nat): (visits: seq<Visit>)
    ensures |visits| == n && forall k :: 0 <= k < n ==> visits[k] == RestartedVisit(k)
  {
    seq(n, k requires 0 <= k => RestartedVisit(k))
  }

  /** The machine of that run after n turns. */
  function RestartedMachine(ctrl: bool, n: nat): Machine {
    Machine(if n < 12 then RestartedVisit(n).state else Success, if n <= 2 then 0 else if n <= 5 then 1 else 2,
            if n < 2 then ctrl else true, RestartedVisits(n))
  }

  lemma RestartedTurn(ctrl: bool, n: nat)
    requires n < 12
    ensures Turn(RestartedMachine(ctrl, n), true, n != 2) == RestartedMachine(ctrl, n + 1)
  {
    assert RestartedVisits(n + 1) == RestartedVisits(n) + [RestartedVisit(n)];
  }

  lemma {:induction false} RestartedRun(ctrl: bool, n: nat)
    requires n <= 12
    ensures Run(true, ctrl, SilentOnce(), n) == RestartedMachine(ctrl, n)
  {
    if n > 0 {
      RestartedRun(ctrl, n - 1);
      RestartedTurn(ctrl, n - 1);
    } else {
      assert RestartedVisits(0) == [];
    }
  }

  /** It succeeds with the new daemon, to which no network was added. */
  lemma RestartedWithoutNetwork(ctrl: bool, n: nat)
    requires n == 12
    ensures var m := Run(true, ctrl, SilentOnce(), n);
      && m.state.Success? && |m.visits| == n && m.visits[3] == Visit(StartDaemon, false, true) && !NetworkAdded(m.visits)
  {
    RestartedRun(ctrl, n);
    NetworkAddedIff(true, ctrl, SilentOnce(), n);
  }
}

/** The dialogue of static network configuration (packages/netcfg/static.c): a
    state variable, an interface that the questions fill in, and answers that can
    go back at almost every point. */
module NetcfgStatic {
  import opened Wrappers
  import opened NetcfgMask

  type Address = b: Bits | |b| == 32 || |b| == 128 witness Const(32, false)

  datatype State =
    | Backup | GetHostname | GetIpAddress | GetPointopoint | GetNetmask | GetGateway
    | GatewayUnreachable | GetNameservers | Confirm | GetDomain | QuitState

  /** What the questions fill in, and the user is shown and asked to confirm. */
  datatype Settings = Settings(address: Address, masklen: nat, gateway: Option<Address>, peer: Option<Address>, nameservers: string)

  /** One visit to a question; each state looks at what it needs. back stands for
      the "go back" of debconf, wantsPeer for an interface that is point-to-point
      by its name or by preseeding, gateway for the text of that question. */
  datatype Answer = Answer(back: bool, address: Address, masklen: nat, wantsPeer: bool, peer: Option<Address>,
                           mask: Address, gateway: Text, nameservers: string, yes: bool, haveDomain: bool)

  /** question is the text that the gateway question holds. */
  datatype Dialogue = Dialogue(state: State, settings: Settings, pending: string, question: Text)

  predicate Fits(s: Settings, a: Option<Address>) {
    a.Some? ==> |a.value| == |s.address|
  }

  predicate GatewayOk(s: Settings) {
    s.gateway.Some? ==>
      && |s.gateway.value| == |s.address|
      && if |s.address| == 32 then Reachable4(s.address, s.masklen, s.gateway.value)
         else Reachable6(s.address, s.masklen, s.gateway.value)
  }

  /** The text is accepted: no gateway, or an address of the right family. */
  predicate Understood(s: Settings, t: Text) {
    t.Empty? || t.NoneWord? || (t.AddressText? && |t.address| == |s.address|)
  }

  function Entered(s: Settings, t: Text): Option<Address>
    requires Understood(s, t)
  {
    if t.AddressText? then Some(t.address) else None
  }

  /** One turn of the loop. A question whose answer is not an address of the right
      family is asked again. */
  function Next(d: Dialogue, a: Answer): Dialogue {
    var s := d.settings;
    match d.state
    case Backup => d
    case QuitState => d
    case GetIpAddress =>
      if a.back then d.(state := Backup)
      else d.(settings := s.(address := a.address, masklen := a.masklen),
              state := if a.wantsPeer then GetPointopoint else if a.masklen == 0 then GetNetmask else GetGateway)
    case GetPointopoint =>
      if |s.address| == 128 || a.back then d.(state := GetIpAddress)
      else if !Fits(s, a.peer) then d
      else d.(settings := s.(peer := a.peer), state := GetNameservers)
    case GetNetmask =>
      if a.back then d.(state := GetIpAddress)
      else if |a.mask| != |s.address| then d
      else d.(settings := s.(masklen := LeadingOnes(a.mask)), state := GetGateway)
    case GetGateway =>
      if a.back then d.(state := GetNetmask, question := Offered(d.question, s.address, s.masklen))
      else if !Understood(s, a.gateway) then d.(question := a.gateway)
      else
        var s' := s.(gateway := Entered(s, a.gateway));
        d.(settings := s', question := a.gateway, state := if GatewayOk(s') then GetNameservers else GatewayUnreachable)
    case GatewayUnreachable => d.(state := GetGateway)
    case GetNameservers =>
      if a.back then d.(state := GetGateway) else d.(pending := a.nameservers, state := Confirm)
    case Confirm =>
      d.(settings := s.(nameservers := d.pending), state := if a.yes then GetHostname else GetIpAddress)
    case GetHostname => d.(state := if a.back then GetNameservers else GetDomain)
    case GetDomain => d.(state := if !a.haveDomain && a.back then GetHostname else QuitState)
  }

  function Follow(d: Dialogue, answers: seq<Answer>): Dialogue {
    if answers == [] then d
    else Next(Follow(d, answers[..|answers| - 1]), answers[|answers| - 1])
  }

  function Start(s: Settings, held: Text): Dialogue {
    Dialogue(GetIpAddress, s, "", held)
  }

  // ---------------------------------------------------------------------
  // The loop

  class Interface {
    var address: Address
    var masklen: nat
    var gateway: Option<Address>
    var peer: Option<Address>
    var nameservers: string

    constructor (s: Settings)
      ensures View() == s
    {
      address, masklen, gateway, peer, nameservers := s.address, s.masklen, s.gateway, s.peer, s.nameservers;
    }

    function View(): Settings
      reads this
    {
      Settings(address, masklen, gateway, peer, nameservers)
    }

    /** The check after the gateway question. */
    method GatewayAccepted() returns (ok: bool)
      ensures ok <==> GatewayOk(View())
    {
      if gateway.None? {
        return true;
      }
      if |gateway.value| != |address| {
        return false;
      }
      if |address| == 32 {
        ok := Reachable4(address, masklen, gateway.value);
      } else {
        ok := GatewayReachable6(address, masklen, gateway.value);
      }
    }

    /** netcfg_get_static, for any finite list of answers. */
    method GetStatic(held: Text, answers: seq<Answer>) returns (state: State, pending: string, question: Text)
      modifies this
      ensures Dialogue(state, View(), pending, question) == Follow(Start(old(View()), held), answers)
    {
      state, pending, question := GetIpAddress, "", held;
      for i := 0 to |answers|
        invariant Dialogue(state, View(), pending, question) == Follow(Start(old(View()), held), answers[..i])
      {
        assert answers[..i + 1][..i] == answers[..i];
        state, pending, question := Turn(state, pending, question, answers[i]);
      }
      assert answers[..|answers|] == answers;
    }

    method Turn(state: State, pending: string, question: Text, a: Answer) returns (state': State, pending': string, question': Text)
      modifies this
      ensures Dialogue(state', View(), pending', question') == Next(Dialogue(state, old(View()), pending, question), a)
    {
      state', pending', question' := state, pending, question;
      match state
      case Backup =>
      case QuitState =>
      case GetIpAddress =>
        if a.back {
          state' := Backup;
        } else {
          address, masklen := a.address, a.masklen;
          state' := if a.wantsPeer then GetPointopoint else if masklen == 0 then GetNetmask else GetGateway;
        }
      case GetPointopoint =>
        if |address| == 128 || a.back {
          state' := GetIpAddress;
        } else if Fits(View(), a.peer) {
          peer := a.peer;
          state' := GetNameservers;
        }
      case GetNetmask =>
        if a.back {
          state' := GetIpAddress;
        } else if |a.mask| == |address| {
          if |address| == 32 {
            masklen := CountBits(a.mask);
          } else {
            masklen := MaskLength6(a.mask);
          }
          state' := GetGateway;
        }
      case GetGateway =>
        question' := PreseedGateway(address, Mask(|address|, masklen), masklen, question);
        if a.back {
          state' := GetNetmask;
        } else if !Understood(View(), a.gateway) {
          question' := a.gateway;
        } else {
          question' := a.gateway;
          gateway := Entered(View(), a.gateway);
          var ok := GatewayAccepted();
          state' := if ok then GetNameservers else GatewayUnreachable;
        }
      case GatewayUnreachable =>
        state' := GetGateway;
      case GetNameservers =>
        if a.back {
          state' := GetGateway;
        } else {
          pending', state' := a.nameservers, Confirm;
        }
      case Confirm =>
        nameservers := pending;
        state' := if a.yes then GetHostname else GetIpAddress;
      case GetHostname =>
        state' := if a.back then GetNameservers else GetDomain;
      case GetDomain =>
        state' := if !a.haveDomain && a.back then GetHostname else QuitState;
    }
  }

  // ---------------------------------------------------------------------
  // Every run

  predicate AfterConfirmation(state: State) {
    state.GetHostname? || state.GetDomain? || state.QuitState?
  }

  /** The settings of the last confirmation that was answered "true". */
  function LastConfirmed(d: Dialogue, answers: seq<Answer>): Option<Settings> {
    if answers == [] then None
    else
      var init, a := answers[..|answers| - 1], answers[|answers| - 1];
      var before := Follow(d, init);
      if before.state.Confirm? && a.yes then Some(before.settings.(nameservers := before.pending))
      else LastConfirmed(d, init)
  }

  /** The settings in the end are those of the last confirmation. */
  lemma {:induction false} WrittenIsConfirmed(d: Dialogue, answers: seq<Answer>)
    requires d.state.GetIpAddress?
    ensures AfterConfirmation(Follow(d, answers).state) ==>
            LastConfirmed(d, answers) == Some(Follow(d, answers).settings)
  {
    if answers != [] {
      WrittenIsConfirmed(d, answers[..|answers| - 1]);
    }
  }

  /** No turn of the run asks for a point-to-point peer. */
  predicate NeverAsksPeer(d: Dialogue, answers: seq<Answer>) {
    !Follow(d, answers).state.GetPointopoint? &&
    (answers == [] || NeverAsksPeer(d, answers[..|answers| - 1]))
  }

  predicate GatewaySettled(state: State) {
    state.GetNameservers? || state.Confirm? || AfterConfirmation(state)
  }

  /** Without that question the gateway is empty or reachable once it is settled. */
  lemma {:induction false} GatewayIsReachable(d: Dialogue, answers: seq<Answer>)
    requires d.state.GetIpAddress? && NeverAsksPeer(d, answers)
    ensures GatewaySettled(Follow(d, answers).state) ==> GatewayOk(Follow(d, answers).settings)
  {
    if answers != [] {
      GatewayIsReachable(d, answers[..|answers| - 1]);
    }
  }

  /** The last question that settled the gateway was that for a peer, which leaves the
      gateway alone, and the gateway was not acceptable when it was put. */
  predicate PeerSettledBadly(d: Dialogue, answers: seq<Answer>) {
    if answers == [] then
      false
    else
      var init, a := answers[..|answers| - 1], answers[|answers| - 1];
      var before := Follow(d, init);
      if !Next(before, a).state.GetNameservers? then PeerSettledBadly(d, init)
      else if before.state.GetPointopoint? then !GatewayOk(before.settings)
      else if before.state.GetGateway? then false
      else PeerSettledBadly(d, init)
  }

  /** In every run the settled gateway is empty or reachable exactly when it was not
      settled by a peer question put with an unacceptable gateway. */
  lemma {:induction false} SettledGatewayIff(d: Dialogue, answers: seq<Answer>)
    requires d.state.GetIpAddress?
    ensures var end := Follow(d, answers);
      GatewaySettled(end.state) ==> (GatewayOk(end.settings) <==> !PeerSettledBadly(d, answers))
  {
    if answers != [] {
      SettledGatewayIff(d, answers[..|answers| - 1]);
    }
  }

  lemma FollowMore(d: Dialogue, answers: seq<Answer>, k: nat)
    requires k < |answers|
    ensures Follow(d, answers[..k + 1]) == Next(Follow(d, answers[..k]), answers[k])
  {
    assert answers[..k + 1][..k] == answers[..k];
  }

  // ---------------------------------------------------------------------
  // What is written

  /** The address lines of a stanza in the interfaces file. */
  datatype Stanza = Stanza(address: Address, masklen: nat, gateway: Option<Address>, peer: Option<Address>)

  /** An IPv4 interface with a peer. */
  predicate HasPeer(s: Settings) {
    |s.address| == 32 && s.peer.Some?
  }

  /** The peer replaces the gateway and makes the mask a full one; IPv6 has no peer. */
  function Written(s: Settings): Stanza {
    if |s.address| == 128 then Stanza(s.address, s.masklen, s.gateway, None)
    else if s.peer.Some? then Stanza(s.address, 32, s.peer, s.peer)
    else Stanza(s.address, s.masklen, s.gateway, None)
  }

  /** What the confirmation shows of it. */
  function Shown(s: Settings): Stanza {
    Stanza(s.address, s.masklen, s.gateway, s.peer)
  }

  /** A gateway is written that is neither the peer nor reachable. */
  predicate WritesUnreachable(s: Settings) {
    var w := Written(s);
    w.gateway.Some? && w.gateway != w.peer && !GatewayOk(s.(masklen := w.masklen, gateway := w.gateway))
  }

  /** In every run, once the gateway is settled: an unreachable one would be written
      exactly when a peer question settled it badly and no peer was given. */
  lemma WrittenGatewayIff(d: Dialogue, answers: seq<Answer>)
    requires d.state.GetIpAddress?
    ensures var end := Follow(d, answers);
      GatewaySettled(end.state) ==> (WritesUnreachable(end.settings) <==> PeerSettledBadly(d, answers) && !HasPeer(end.settings))
  {
    SettledGatewayIff(d, answers);
  }

  /** In every run the stanza is what the last confirmation showed exactly without a
      peer, or when the mask is full and the gateway is the peer. */
  lemma WrittenAsShownIff(d: Dialogue, answers: seq<Answer>)
    requires d.state.GetIpAddress? && Follow(d, answers).state.QuitState?
    ensures LastConfirmed(d, answers).Some?
    ensures var s := Follow(d, answers).settings;
      Written(s) == Shown(LastConfirmed(d, answers).value)
      <==> s.peer.None? || (HasPeer(s) && s.masklen == 32 && s.gateway == s.peer)
  {
    WrittenIsConfirmed(d, answers);
  }

  /** A point-to-point interface: after the peer question the user goes back and gives
      a gateway, does not confirm, and gives another address. */
  function PeerRun(a: Address, b: Address, n: nat, peer: Option<Address>, gw: Address): seq<Answer> {
    var first := Answer(false, a, n, true, peer, Mask(32, n), AddressText(gw), "", false, false);
    var second := first.(address := b, yes := true);
    [first, first, first.(back := true), first, first, first, second, second, second, second, second, second]
  }

  /** The dialogue of that run after k answers. */
  function PeerState(s: Settings, held: Text, a: Address, b: Address, n: nat, peer: Option<Address>, gw: Address, k: nat): Dialogue {
    var text := AddressText(gw);
    var s1 := s.(address := a, masklen := n);
    var s2 := s1.(peer := peer);
    var s4 := s2.(gateway := Some(gw));
    var s6 := s4.(nameservers := "");
    var s7 := s6.(address := b, masklen := n);
    match k
    case 0 => Dialogue(GetIpAddress, s, "", held)
    case 1 => Dialogue(GetPointopoint, s1, "", held)
    case 2 => Dialogue(GetNameservers, s2, "", held)
    case 3 => Dialogue(GetGateway, s2, "", held)
    case 4 => Dialogue(GetNameservers, s4, "", text)
    case 5 => Dialogue(Confirm, s4, "", text)
    case 6 => Dialogue(GetIpAddress, s6, "", text)
    case 7 => Dialogue(GetPointopoint, s7, "", text)
    case 8 => Dialogue(GetNameservers, s7, "", text)
    case 9 => Dialogue(Confirm, s7, "", text)
    case 10 => Dialogue(GetHostname, s7, "", text)
    case 11 => Dialogue(GetDomain, s7, "", text)
    case _ => Dialogue(QuitState, s7, "", text)
  }

  lemma PeerStep(s: Settings, held: Text, a: Address, b: Address, n: nat, peer: Option<Address>, gw: Address, k: nat)
    requires |a| == |b| == |gw| == 32 && (peer.Some? ==> |peer.value| == 32) && Reachable4(a, n, gw)
    requires k < |PeerRun(a, b, n, peer, gw)|
    ensures Next(PeerState(s, held, a, b, n, peer, gw, k), PeerRun(a, b, n, peer, gw)[k]) == PeerState(s, held, a, b, n, peer, gw, k + 1)
  {
  }

  /** It ends with the gateway of the first network at the second address. */
  lemma PeerKeepsOldGateway(s: Settings, held: Text, a: Address, b: Address, n: nat, peer: Option<Address>, gw: Address)
    requires |a| == |b| == |gw| == 32 && (peer.Some? ==> |peer.value| == 32) && Reachable4(a, n, gw)
    ensures var end := Follow(Start(s, held), PeerRun(a, b, n, peer, gw));
      && end.state.QuitState? && end.settings == Settings(b, n, Some(gw), peer, "")
      && (GatewayOk(end.settings) <==> Reachable4(b, n, gw))
  {
    var d, run := Start(s, held), PeerRun(a, b, n, peer, gw);
    for k := 0 to |run|
      invariant Follow(d, run[..k]) == PeerState(s, held, a, b, n, peer, gw, k)
    {
      FollowMore(d, run, k);
      PeerStep(s, held, a, b, n, peer, gw, k);
    }
    assert run[..|run|] == run;
  }

  /** An interface without a gateway: 192.168.1.2 and its gateway 192.168.1.1, then
      10.0.0.2. Without a peer the old gateway is written, which cannot be reached. */
  lemma UnreachableGatewayIsWritten(s: Settings, held: Text)
    requires s.gateway.None?
    ensures var run := PeerRun(Ipv4(192, 168, 1, 2), Ipv4(10, 0, 0, 2), 24, None, Ipv4(192, 168, 1, 1));
      var end := Follow(Start(s, held), run);
      && end.state.QuitState? && WritesUnreachable(end.settings)
      && Written(end.settings) == Stanza(Ipv4(10, 0, 0, 2), 24, Some(Ipv4(192, 168, 1, 1)), None)
  {
    OldGatewayIsOutside();
    PeerKeepsOldGateway(s, held, Ipv4(192, 168, 1, 2), Ipv4(10, 0, 0, 2), 24, None, Ipv4(192, 168, 1, 1));
  }

  /** With a peer that is written instead, with a mask that was not shown. */
  lemma PeerIsWrittenInstead(s: Settings, held: Text, peer: Address)
    requires |peer| == 32
    ensures var run := PeerRun(Ipv4(192, 168, 1, 2), Ipv4(10, 0, 0, 2), 24, Some(peer), Ipv4(192, 168, 1, 1));
      var d := Start(s, held);
      && Follow(d, run).state.QuitState? && LastConfirmed(d, run).Some?
      && Written(Follow(d, run).settings) == Stanza(Ipv4(10, 0, 0, 2), 32, Some(peer), Some(peer))
      && Shown(LastConfirmed(d, run).value) == Stanza(Ipv4(10, 0, 0, 2), 24, Some(Ipv4(192, 168, 1, 1)), Some(peer))
  {
    OldGatewayIsOutside();
    PeerKeepsOldGateway(s, held, Ipv4(192, 168, 1, 2), Ipv4(10, 0, 0, 2), 24, Some(peer), Ipv4(192, 168, 1, 1));
    WrittenIsConfirmed(Start(s, held), PeerRun(Ipv4(192, 168, 1, 2), Ipv4(10, 0, 0, 2), 24, Some(peer), Ipv4(192, 168, 1, 1)));
  }

  lemma OldGatewayIsOutside()
    ensures !SameNetwork(Ipv4(10, 0, 0, 2), 24, Ipv4(192, 168, 1, 1))
    ensures SameNetwork(Ipv4(192, 168, 1, 2), 24, Ipv4(192, 168, 1, 1)) && !IsZero(Ipv4(192, 168, 1, 1))
  {
    Ipv4Bits();
    assert Ipv4(192, 168, 1, 1)[0] && !Ipv4(10, 0, 0, 2)[0];
    assert And(Ipv4(192, 168, 1, 1), Mask(32, 24))[0] != Network(Ipv4(10, 0, 0, 2), 24)[0];
    assert And(Ipv4(192, 168, 1, 1), Mask(32, 24)) == Network(Ipv4(192, 168, 1, 2), 24);
    assert Ipv4(192, 168, 1, 1)[31];
  }

  // ---------------------------------------------------------------------
  // What is offered

  /** The text of the last answer to the gateway question, or what was offered when the
      user went back from it; None while it has not been asked. */
  function LastText(d: Dialogue, answers: seq<Answer>): Option<Text> {
    if answers == [] then None
    else
      var init, a := answers[..|answers| - 1], answers[|answers| - 1];
      var before := Follow(d, init);
      if !before.state.GetGateway? then LastText(d, init)
      else if !a.back then Some(a.gateway)
      else Some(Offered(before.question, before.settings.address, before.settings.masklen))
  }

  /** In every run the offer, where the gateway question is put, is an address in the
      subnet exactly when the last text of the question is one, or there is none and
      the interface does not have the first address itself. */
  lemma {:induction false} OfferIsReachableIff(d: Dialogue, answers: seq<Answer>)
    ensures var end := Follow(d, answers);
      var held := if LastText(d, answers).Some? then LastText(d, answers).value else d.question;
      && end.question == held
      && (end.settings.masklen <= |end.settings.address| ==>
          var ip, n := end.settings.address, end.settings.masklen;
          InSubnet(ip, n, Offered(held, ip, n)) <==> if held.Empty? then n < |ip| && FirstAddress(ip, n) != ip else InSubnet(ip, n, held))
  {
    if answers != [] {
      OfferIsReachableIff(d, answers[..|answers| - 1]);
    }
    var end := Follow(d, answers);
    if end.settings.masklen <= |end.settings.address| {
      OfferedIff(end.question, end.settings.address, end.settings.masklen);
    }
  }

  /** The user goes back twice from the gateway question and gives another address. */
  function BackRun(a: Address, b: Address, n: nat): seq<Answer> {
    var first := Answer(false, a, n, false, None, Mask(32, n), Empty, "", false, false);
    [first, first.(back := true), first.(back := true), first.(address := b)]
  }

  /** The offer at the second address is still the first address of the first network. */
  lemma BackKeepsOffer(s: Settings, a: Address, b: Address, n: nat)
    requires n > 0 && FirstAddress(a, n) != a
    ensures Follow(Start(s, Empty), BackRun(a, b, n)) ==
            Dialogue(GetGateway, s.(address := b, masklen := n), "", AddressText(FirstAddress(a, n)))
  {
    var d, run := Start(s, Empty), BackRun(a, b, n);
    var s1, text := s.(address := a, masklen := n), AddressText(FirstAddress(a, n));
    FollowMore(d, run, 0);
    FollowMore(d, run, 1);
    FollowMore(d, run, 2);
    FollowMore(d, run, 3);
    assert run[..0] == [] && run[..4] == run;
    assert Follow(d, run[..1]) == Dialogue(GetGateway, s1, "", Empty);
    assert Follow(d, run[..2]) == Dialogue(GetNetmask, s1, "", text);
    assert Follow(d, run[..3]) == Dialogue(GetIpAddress, s1, "", text);
  }

  /** 192.168.1.2, then 10.0.0.2: a reachable gateway could be proposed, but what is
      offered is that of the first network. */
  lemma StaleOffer(s: Settings)
    ensures var end := Follow(Start(s, Empty), BackRun(Ipv4(192, 168, 1, 2), Ipv4(10, 0, 0, 2), 24));
      && end.state.GetGateway? && end.settings.address == Ipv4(10, 0, 0, 2) && end.settings.masklen == 24
      && end.question == AddressText(Ipv4(192, 168, 1, 1))
    ensures !InSubnet(Ipv4(10, 0, 0, 2), 24, Offered(AddressText(Ipv4(192, 168, 1, 1)), Ipv4(10, 0, 0, 2), 24))
    ensures FirstAddress(Ipv4(10, 0, 0, 2), 24) != Ipv4(10, 0, 0, 2)
  {
    FirstAddressGetsNone();
    OldGatewayIsOutside();
    BackKeepsOffer(s, Ipv4(192, 168, 1, 2), Ipv4(10, 0, 0, 2), 24);
    assert FirstAddress(Ipv4(10, 0, 0, 2), 24)[31] && !Ipv4(10, 0, 0, 2)[31];
  }
}

/** How the answers of the static dialogue (packages/netcfg/static.c) become its
    settings: which answer each of them is from, and which way the questions lead. */
module NetcfgAnswers {
  import opened Wrappers
  import opened NetcfgMask
  import opened NetcfgStatic

  // ---------------------------------------------------------------------
  // Where the settings come from

  /** The question takes the answer: it is of the right family, where it is an address. */
  predicate Accepted(q: State, family: nat, a: Answer) {
    match q
    case GetIpAddress => !a.back
    case GetPointopoint => family == 32 && !a.back && (a.peer.Some? ==> |a.peer.value| == 32)
    case GetNetmask => !a.back && |a.mask| == family
    case GetGateway => !a.back && (a.gateway.AddressText? ==> |a.gateway.address| == family) && a.gateway != OtherText
    case GetNameservers => !a.back
    case _ => false
  }

  /** The last of these questions that took an answer, and the answer. */
  function Latest(d: Dialogue, answers: seq<Answer>, questions: set<State>): Option<(State, Answer)> {
    if answers == [] then None
    else
      var init, a := answers[..|answers| - 1], answers[|answers| - 1];
      var before := Follow(d, init);
      if before.state in questions && Accepted(before.state, |before.settings.address|, a) then Some((before.state, a))
      else Latest(d, init, questions)
  }

  function AnswerOr<T>(latest: Option<(State, Answer)>, value: Answer -> T, start: T): T {
    if latest.Some? then value(latest.value.1) else start
  }

  /** The address, the peer, the gateway and the nameservers to be confirmed are those of
      the last answer that their own question took. */
  ghost predicate OwnAnswers(d: Dialogue, answers: seq<Answer>, end: Dialogue) {
    && end.settings.address == AnswerOr(Latest(d, answers, {GetIpAddress}), (a: Answer) => a.address, d.settings.address)
    && end.settings.peer == AnswerOr(Latest(d, answers, {GetPointopoint}), (a: Answer) => a.peer, d.settings.peer)
    && end.pending == AnswerOr(Latest(d, answers, {GetNameservers}), (a: Answer) => a.nameservers, d.pending)
  }

  lemma {:induction false} SettingsAreAnswers(d: Dialogue, answers: seq<Answer>)
    ensures OwnAnswers(d, answers, Follow(d, answers))
  {
    if answers != [] {
      SettingsAreAnswers(d, answers[..|answers| - 1]);
    }
  }

  /** An empty gateway or the word for none leaves the interface without one. */
  lemma {:induction false} GatewayIsAnswer(d: Dialogue, answers: seq<Answer>)
    ensures var latest, gateway := Latest(d, answers, {GetGateway}), Follow(d, answers).settings.gateway;
      if latest.None? then gateway == d.settings.gateway
      else if latest.value.1.gateway.AddressText? then gateway.Some? && gateway.value == latest.value.1.gateway.address
      else gateway == None && (latest.value.1.gateway == Empty || latest.value.1.gateway == NoneWord)
  {
    if answers != [] {
      GatewayIsAnswer(d, answers[..|answers| - 1]);
    }
  }

  /** The length is that of the last address, or of the last mask if that was given after
      it: the number of ones in front of its first zero. */
  lemma {:induction false} LengthIsAnswer(d: Dialogue, answers: seq<Answer>)
    ensures var latest, n := Latest(d, answers, {GetIpAddress, GetNetmask}), Follow(d, answers).settings.masklen;
      if latest.None? then n == d.settings.masklen
      else if latest.value.0 == GetIpAddress then n == latest.value.1.masklen
      else
        var mask := latest.value.1.mask;
        latest.value.0 == GetNetmask && n <= |mask| && (forall i :: 0 <= i < n ==> mask[i]) && (n < |mask| ==> !mask[n])
  {
    if answers != [] {
      LengthIsAnswer(d, answers[..|answers| - 1]);
    }
  }

  lemma {:induction false} NothingPending(d: Dialogue, answers: seq<Answer>)
    requires d.state.GetIpAddress?
    ensures var end := Follow(d, answers);
      && (AfterConfirmation(end.state) ==> end.settings.nameservers == end.pending)
      && (AfterConfirmation(end.state) || end.state.Confirm? ==> Latest(d, answers, {GetNameservers}).Some?)
  {
    if answers != [] {
      NothingPending(d, answers[..|answers| - 1]);
    }
  }

  /** The nameservers that are written are those given last. */
  lemma NameserversAreAnswer(d: Dialogue, answers: seq<Answer>)
    requires d.state.GetIpAddress? && AfterConfirmation(Follow(d, answers).state)
    ensures var latest := Latest(d, answers, {GetNameservers});
      latest.Some? && Follow(d, answers).settings.nameservers == latest.value.1.nameservers
  {
    NothingPending(d, answers);
    SettingsAreAnswers(d, answers);
  }

  /** The question for a peer has been put since the last address was given. */
  predicate PeerPut(d: Dialogue, answers: seq<Answer>) {
    || Follow(d, answers).state.GetPointopoint?
    || (answers != [] &&
        var init, a := answers[..|answers| - 1], answers[|answers| - 1];
        !(Follow(d, init).state.GetIpAddress? && Accepted(GetIpAddress, 0, a)) && PeerPut(d, init))
  }

  predicate PastGateway(state: State) {
    state.GetGateway? || state.GatewayUnreachable? || GatewaySettled(state)
  }

  /** In every run, where the question for the gateway is put or has been passed: the
      length is from an address that has one, or from a mask, unless the question for a
      peer came in between. */
  lemma {:induction false} MaskIsAsked(d: Dialogue, answers: seq<Answer>)
    requires d.state.GetIpAddress? && PastGateway(Follow(d, answers).state) && !PeerPut(d, answers)
    ensures var latest := Latest(d, answers, {GetIpAddress, GetNetmask});
      latest.Some? && (latest.value.0 == GetNetmask || latest.value.1.masklen > 0)
  {
    if answers != [] && PastGateway(Follow(d, answers[..|answers| - 1]).state) {
      MaskIsAsked(d, answers[..|answers| - 1]);
    }
  }

  // ---------------------------------------------------------------------
  // Which way the questions lead

  /** A question that does not take an answer is put again. */
  lemma RejectedAsksAgain(d: Dialogue, a: Answer)
    requires d.state.GetNetmask? || d.state.GetGateway? || (d.state.GetPointopoint? && |d.settings.address| == 32)
    requires !a.back && !Accepted(d.state, |d.settings.address|, a)
    ensures Next(d, a).state == d.state && Next(d, a).settings == d.settings
  {
  }

  const WAY_BACK := [GetDomain, GetHostname, GetNameservers, GetGateway, GetNetmask, GetIpAddress, Backup]

  /** Going back again and again leads from the domain through these questions to the
      main program, and leaves the settings as they are. */
  lemma {:induction false} WayBack(d: Dialogue, i: nat, answers: seq<Answer>)
    requires i + |answers| < |WAY_BACK| && d.state == WAY_BACK[i]
    requires forall k :: 0 <= k < |answers| ==> answers[k].back && !answers[k].haveDomain
    ensures Follow(d, answers).state == WAY_BACK[i + |answers|] && Follow(d, answers).settings == d.settings
  {
    if answers != [] {
      WayBack(d, i, answers[..|answers| - 1]);
    }
  }

  /** With an IPv6 address a point-to-point interface never gets past the two questions. */
  lemma {:induction false} Ipv6PeerGoesNowhere(d: Dialogue, answers: seq<Answer>)
    requires d.state.GetIpAddress?
    requires forall k :: 0 <= k < |answers| ==> answers[k].wantsPeer && |answers[k].address| == 128
    ensures var end := Follow(d, answers);
      && end.state in {GetIpAddress, GetPointopoint, Backup} && (end.state.GetPointopoint? ==> |end.settings.address| == 128)
      && end.settings.peer == d.settings.peer
  {
    if answers != [] {
      Ipv6PeerGoesNowhere(d, answers[..|answers| - 1]);
    }
  }

  /** What is filled in when every question is answered once. */
  function Filled(s: Settings, a: Answer): Settings
    requires Understood(s.(address := a.address), a.gateway)
  {
    Settings(a.address, if a.masklen == 0 then LeadingOnes(a.mask) else a.masklen,
             if a.gateway.AddressText? then Some(a.gateway.address) else None, s.peer, a.nameservers)
  }

  const WAY_ON := [GetIpAddress, GetGateway, GetNameservers, Confirm, GetHostname, GetDomain, QuitState]
  const WAY_ON_BY_MASK := [GetIpAddress, GetNetmask, GetGateway, GetNameservers, Confirm, GetHostname, GetDomain, QuitState]

  /** The dialogue after some answers of a run that goes straight on. */
  predicate OnTheWay(s: Settings, held: Text, a: Answer, k: nat, d: Dialogue)
    requires Understood(s.(address := a.address), a.gateway)
  {
    var way, f := if a.masklen == 0 then WAY_ON_BY_MASK else WAY_ON, Filled(s, a);
    && k < |way| && d.state == way[k]
    && (k == 0 ==> d == Start(s, held))
    && (0 < k ==> d.settings.address == f.address && d.settings.peer == f.peer)
    && (d.state.GetNetmask? ==> a.masklen == 0)
    && (d.state.GetGateway? || GatewaySettled(d.state) ==> d.settings.masklen == f.masklen)
    && (GatewaySettled(d.state) ==> d.settings.gateway == f.gateway)
    && (d.state.Confirm? ==> d.pending == f.nameservers)
    && (AfterConfirmation(d.state) ==> d.settings.nameservers == f.nameservers)
  }

  lemma StraightOn(s: Settings, held: Text, a: Answer, k: nat, d: Dialogue)
    requires !a.back && !a.wantsPeer && a.yes && |a.mask| == |a.address|
    requires Understood(s.(address := a.address), a.gateway) && GatewayOk(Filled(s, a))
    requires OnTheWay(s, held, a, k, d) && k < if a.masklen == 0 then 7 else 6
    ensures OnTheWay(s, held, a, k + 1, Next(d, a))
  {
  }

  /** A user who answers every question, with a gateway that can be reached, and confirms
      is through after six turns, or seven with the question for the mask, which is put
      exactly for an address without a length; what is written is what was answered. */
  lemma {:induction false} StraightRun(s: Settings, held: Text, a: Answer, answers: seq<Answer>)
    requires !a.back && !a.wantsPeer && a.yes && |a.mask| == |a.address|
    requires Understood(s.(address := a.address), a.gateway) && GatewayOk(Filled(s, a))
    requires forall k :: 0 <= k < |answers| ==> answers[k] == a
    requires |answers| <= if a.masklen == 0 then 7 else 6
    ensures OnTheWay(s, held, a, |answers|, Follow(Start(s, held), answers))
    ensures |answers| == (if a.masklen == 0 then 7 else 6) ==>
            Follow(Start(s, held), answers).state.QuitState? && Follow(Start(s, held), answers).settings == Filled(s, a)
  {
    if answers != [] {
      var init := answers[..|answers| - 1];
      StraightRun(s, held, a, init);
      StraightOn(s, held, a, |init|, Follow(Start(s, held), init));
    }
  }
}

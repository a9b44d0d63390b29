/**
  Token refresh: the browser's single-flight gate (api.client.ts) against the
  server's rotation (auth.service.ts).

  The server's three statements run one by one, whether or not the browser still
  listens: a lost connection opens the gate and nothing else. Tokens are numbered
  as they are issued; number 0 is the one the login issued.
 */
module RefreshChain {
  import opened Prelude

  datatype Token = Token(parent: Option<nat>, revoked: bool, expired: bool)

  predicate Live(t: Token) { !t.revoked && !t.expired }

  datatype FlightPhase = Sent | Found(token: nat) | Rotated(token: nat) | Answered(minted: Option<nat>) | Ended

  /** One POST to the refresh endpoint: the cookie it carried, whose it is, and whether its sender still waits. */
  datatype Flight = Flight(presented: Option<nat>, own: bool, heard: bool, phase: FlightPhase)

  datatype CallPhase = Asking | Awaiting(flight: nat) | Retrying | Settled

  datatype Call = Call(phase: CallPhase, fetches: nat)

  /** `gate` is the module variable `refreshInFlight`. */
  datatype State = State(tokens: seq<Token>, cookie: Option<nat>, flights: seq<Flight>, gate: Option<nat>, calls: seq<Call>)

  datatype Label =
    | Fetch
    | Respond(call: nat, invalidToken: bool)
    | ServerFind(flight: nat)
    | ServerRevoke(flight: nat)
    | ServerIssue(flight: nat, active: bool)
    | Deliver(flight: nat, bodyRead: bool)
    | Drop(flight: nat)
    | OtherTab
    | RevokeToken(token: nat)
    | Expire(token: nat)
    | ClearCookie

  // --- the gate as the client runs it ----------------------------------------------------

  class RefreshGate {
    var refreshInFlight: Option<nat>
    var posts: nat

    constructor ()
      ensures refreshInFlight == None && posts == 0
    {
      refreshInFlight, posts := None, 0;
    }

    /** Joins the request in flight, or posts one and remembers it. */
    method RefreshAccessToken() returns (promise: nat)
      modifies this
      ensures refreshInFlight == Some(promise)
      ensures (promise, posts) == Joined(old(refreshInFlight), old(posts))
    {
      if refreshInFlight == None {
        refreshInFlight := Some(posts);
        posts := posts + 1;
      }
      promise := refreshInFlight.value;
    }
  }

  /** The request a 401 waits for, and how many have been posted after it. */
  function Joined(gate: Option<nat>, posted: nat): (nat, nat) {
    match gate case Some(f) => (f, posted) case None => (posted, posted + 1)
  }

  // --- steps ---------------------------------------------------------------------------------

  predicate Awaited(f: Flight) { f.heard && f.phase != Ended }

  predicate Enabled(s: State, l: Label) {
    match l
    case Fetch => true
    case Respond(c, _) => c < |s.calls| && (s.calls[c].phase == Asking || s.calls[c].phase == Retrying)
    case ServerFind(f) => f < |s.flights| && s.flights[f].phase == Sent
    case ServerRevoke(f) => f < |s.flights| && s.flights[f].phase.Found? && s.flights[f].phase.token < |s.tokens|
    case ServerIssue(f, _) => f < |s.flights| && s.flights[f].phase.Rotated?
    case Deliver(f, _) => f < |s.flights| && s.flights[f].heard && s.flights[f].phase.Answered?
    case Drop(f) => f < |s.flights| && Awaited(s.flights[f])
    case OtherTab => true
    case RevokeToken(i) => i < |s.tokens|
    case Expire(i) => i < |s.tokens|
    case ClearCookie => true
  }

  function SetPhase(s: State, f: nat, phase: FlightPhase): State
    requires f < |s.flights|
  {
    s.(flights := s.flights[f := s.flights[f].(phase := phase)])
  }

  /** Every call that waited for `f` goes on: one retry with a new token, none without. */
  function Woken(calls: seq<Call>, f: nat, token: bool): seq<Call> {
    seq(|calls|, i requires 0 <= i < |calls| =>
      if calls[i].phase != Awaiting(f) then calls[i]
      else if token then Call(Retrying, calls[i].fetches + 1)
      else calls[i].(phase := Settled))
  }

  /** The gate opens for `f`, and those that waited for it go on. */
  function Opened(s: State, f: nat, token: bool): State {
    s.(gate := if s.gate == Some(f) then None else s.gate, calls := Woken(s.calls, f, token))
  }

  predicate LiveId(s: State, id: Option<nat>) { id.Some? && id.value < |s.tokens| && Live(s.tokens[id.value]) }

  function After(s: State, l: Label): State
    requires Enabled(s, l)
  {
    match l
    case Fetch => s.(calls := s.calls + [Call(Asking, 1)])
    case Respond(c, invalidToken) =>
      if s.calls[c].phase == Retrying || !invalidToken then s.(calls := s.calls[c := s.calls[c].(phase := Settled)])
      else
        var (f, posted) := Joined(s.gate, |s.flights|);
        s.(calls := s.calls[c := s.calls[c].(phase := Awaiting(f))],
           gate := Some(f),
           flights := if posted > |s.flights| then s.flights + [Flight(s.cookie, true, true, Sent)] else s.flights)
    case ServerFind(f) =>
      if LiveId(s, s.flights[f].presented) then SetPhase(s, f, Found(s.flights[f].presented.value))
      else SetPhase(s, f, Answered(None))
    case ServerRevoke(f) =>
      var k := s.flights[f].phase.token;
      SetPhase(s, f, Rotated(k)).(tokens := s.tokens[k := s.tokens[k].(revoked := true)])
    case ServerIssue(f, active) =>
      if active then
        SetPhase(s, f, Answered(Some(|s.tokens|))).(tokens := s.tokens + [Token(Some(s.flights[f].phase.token), false, false)])
      else SetPhase(s, f, Answered(None))
    case Deliver(f, bodyRead) =>
      var minted := s.flights[f].phase.minted;
      Opened(SetPhase(s, f, Ended).(cookie := minted), f, minted.Some? && bodyRead)
    case Drop(f) => Opened(s.(flights := s.flights[f := s.flights[f].(heard := false)]), f, false)
    case OtherTab => s.(flights := s.flights + [Flight(s.cookie, false, true, Sent)])
    case RevokeToken(i) => s.(tokens := s.tokens[i := s.tokens[i].(revoked := true)])
    case Expire(i) => s.(tokens := s.tokens[i := s.tokens[i].(expired := true)])
    case ClearCookie => s.(cookie := None)
  }

  predicate Run(s: State, ls: seq<Label>, s': State)
    decreases |ls|
  {
    if ls == [] then s' == s else Enabled(s, ls[0]) && Run(After(s, ls[0]), ls[1..], s')
  }

  const LOGIN := State([Token(None, false, false)], Some(0), [], None, [])

  // --- the gate, in every run --------------------------------------------------------------------

  /** The gate is the one request that this tab waits for. */
  ghost predicate GateHeld(s: State) {
    && (s.gate.Some? ==> s.gate.value < |s.flights| && s.flights[s.gate.value].own && Awaited(s.flights[s.gate.value]))
    && forall f :: 0 <= f < |s.flights| && s.flights[f].own && Awaited(s.flights[f]) ==> s.gate == Some(f)
  }

  ghost predicate CallsOk(s: State) { forall c :: 0 <= c < |s.calls| ==> CallOk(s, c) }

  ghost predicate GateOk(s: State) { GateHeld(s) && CallsOk(s) }

  ghost predicate CallOk(s: State, c: nat)
    requires c < |s.calls|
  {
    var call := s.calls[c];
    && call.fetches == (match call.phase case Asking => 1 case Awaiting(_) => 1 case Retrying => 2 case Settled => call.fetches)
    && 1 <= call.fetches <= 2
    && (call.phase.Awaiting? ==> s.gate == Some(call.phase.flight))
  }

  lemma StepKeepsGateHeld(s: State, l: Label)
    requires GateHeld(s) && Enabled(s, l)
    ensures GateHeld(After(s, l))
  {
    hide Woken;
  }

  lemma StepKeepsCalls(s: State, l: Label)
    requires GateHeld(s) && CallsOk(s) && Enabled(s, l)
    ensures CallsOk(After(s, l))
  {
    var s' := After(s, l);
    if l.Respond? {
      assert CallOk(s, l.call);
    }
    forall c | 0 <= c < |s'.calls| ensures CallOk(s', c) {
      if c < |s.calls| {
        assert CallOk(s, c);
      }
    }
  }

  lemma StepKeepsGate(s: State, l: Label)
    requires GateOk(s) && Enabled(s, l)
    ensures GateOk(After(s, l))
  {
    hide GateHeld, CallsOk, After, Enabled;
    StepKeepsGateHeld(s, l);
    StepKeepsCalls(s, l);
  }

  lemma {:induction false} RunKeepsGate(s: State, ls: seq<Label>, s': State)
    requires GateOk(s) && Run(s, ls, s')
    ensures GateOk(s')
    decreases |ls|
  {
    hide GateOk, After, Enabled;
    if ls != [] {
      StepKeepsGate(s, ls[0]);
      RunKeepsGate(After(s, ls[0]), ls[1..], s');
    }
  }

  /**
    For any number of concurrent calls, whatever else happens: the tab waits for
    at most one refresh at a time, and no call fetches more than twice.
   */
  lemma SingleFlight(ls: seq<Label>, s: State)
    requires Run(LOGIN, ls, s)
    ensures forall f, g :: 0 <= f < g < |s.flights| && s.flights[f].own && s.flights[g].own ==>
      !Awaited(s.flights[f]) || !Awaited(s.flights[g])
    ensures forall c :: 0 <= c < |s.calls| ==> s.calls[c].fetches <= 2
  {
    RunKeepsGate(LOGIN, ls, s);
    forall c | 0 <= c < |s.calls| ensures s.calls[c].fetches <= 2 {
      assert CallOk(s, c);
    }
  }

  /** What the next step makes of a call: the life of a call, in terms of the step alone. */
  ghost predicate CallFollows(s: State, l: Label, c: nat, next: Call)
    requires Enabled(s, l) && c < |s.calls|
  {
    var call := s.calls[c];
    match call.phase
    case Asking =>
      if l.Respond? && l.call == c then
        (if l.invalidToken then next.phase.Awaiting? else next.phase == Settled) && next.fetches == 1
      else next == call
    case Awaiting(f) =>
      if l.Deliver? && l.flight == f then
        (if Minted(s.flights[f]) && l.bodyRead then next == Call(Retrying, 2) else next == Call(Settled, 1))
      else if l.Drop? && l.flight == f then next == Call(Settled, 1)
      else next == call
    case Retrying => next == if l.Respond? && l.call == c then Call(Settled, 2) else call
    case Settled => next == call
  }

  /**
    In every run: a call that a 401 stopped waits for the refresh in flight, is
    sent once more exactly when that refresh brings a token, and otherwise ends
    with the 401; nothing else changes a call.
   */
  lemma CallsRetryExactlyWhen(ls: seq<Label>, s: State, l: Label, c: nat)
    requires Run(LOGIN, ls, s) && Enabled(s, l) && c < |s.calls|
    ensures s.calls[c].phase.Awaiting? ==> s.calls[c].phase.flight < |s.flights|
    ensures c < |After(s, l).calls| && CallFollows(s, l, c, After(s, l).calls[c])
    ensures After(s, l).calls[c].phase.Awaiting? ==> After(s, l).gate == Some(After(s, l).calls[c].phase.flight)
  {
    RunKeepsGate(LOGIN, ls, s);
    StepKeepsGate(s, l);
    assert CallOk(s, c);
    assert CallOk(After(s, l), c);
  }

  /**
    No call is ever stuck: in every run its next answer, or the loss of the
    connection it waits for, can end it. A connection is lost only while its
    sender waits, and fetching, asking from another tab and logging out are
    always possible.
   */
  lemma CallsCanEnd(ls: seq<Label>, s: State, c: nat, f: nat)
    requires Run(LOGIN, ls, s)
    ensures c < |s.calls| && s.calls[c].phase != Settled ==>
      exists l :: Enabled(s, l) && (l.Respond? || l.Drop?) && c < |After(s, l).calls| && After(s, l).calls[c].phase == Settled
    ensures Enabled(s, Drop(f)) <==> f < |s.flights| && s.flights[f].heard && s.flights[f].phase != Ended
    ensures Enabled(s, Fetch) && Enabled(s, OtherTab) && Enabled(s, ClearCookie)
  {
    RunKeepsGate(LOGIN, ls, s);
    if c < |s.calls| && s.calls[c].phase != Settled {
      assert CallOk(s, c);
      var l := if s.calls[c].phase.Awaiting? then Drop(s.calls[c].phase.flight) else Respond(c, false);
      assert Enabled(s, l) && After(s, l).calls[c].phase == Settled;
    }
  }

  // --- what the server does with a token --------------------------------------------------------

  lemma TokenStays(s: State, l: Label, i: nat)
    requires Enabled(s, l) && i < |s.tokens|
    ensures i < |After(s, l).tokens| && After(s, l).tokens[i].parent == s.tokens[i].parent
    ensures s.tokens[i].revoked ==> After(s, l).tokens[i].revoked
    ensures s.tokens[i].expired ==> After(s, l).tokens[i].expired
  {
  }

  lemma {:induction false} FateStays(s: State, ls: seq<Label>, s': State, i: nat)
    requires Run(s, ls, s') && i < |s.tokens|
    ensures i < |s'.tokens|
    ensures (s.tokens[i].revoked ==> s'.tokens[i].revoked) && (s.tokens[i].expired ==> s'.tokens[i].expired)
    decreases |ls|
  {
    if ls != [] {
      TokenStays(s, ls[0], i);
      hide After, Enabled;
      FateStays(After(s, ls[0]), ls[1..], s', i);
    }
  }

  /** A token once revoked or expired is never live again. */
  lemma DeadForGood(s: State, ls: seq<Label>, s': State, i: nat)
    requires Run(s, ls, s') && i < |s.tokens| && !Live(s.tokens[i])
    ensures i < |s'.tokens| && !Live(s'.tokens[i])
  {
    FateStays(s, ls, s', i);
  }

  /** The server finds a presented token exactly when it has issued it and neither revoked it nor let it expire. */
  lemma FoundExactlyWhen(s: State, f: nat, i: nat)
    requires Enabled(s, ServerFind(f)) && s.flights[f].presented == Some(i)
    ensures After(s, ServerFind(f)).flights[f].phase ==
      if i < |s.tokens| && !s.tokens[i].revoked && !s.tokens[i].expired then Found(i) else Answered(None)
  {
  }

  /** Whatever happens in between, a token revoked, rotated or expired is refused from then on. */
  lemma DeadIsRefused(s: State, l: Label, ls: seq<Label>, s': State, i: nat, f: nat)
    requires Enabled(s, l) && Run(After(s, l), ls, s') && Enabled(s', ServerFind(f)) && s'.flights[f].presented == Some(i)
    requires l == RevokeToken(i) || l == Expire(i) || (l.ServerRevoke? && s.flights[l.flight].phase.token == i)
    ensures After(s', ServerFind(f)).flights[f].phase == Answered(None)
    ensures i < |s.tokens| && i < |s'.tokens| && if l == Expire(i) then s'.tokens[i].expired else s'.tokens[i].revoked
  {
    FateStays(After(s, l), ls, s', i);
    DeadForGood(After(s, l), ls, s', i);
  }

  /** A request carries the cookie of its moment, so after a logout none. */
  lemma PostCarriesCookie(s: State, l: Label)
    requires Enabled(s, l) && |After(s, l).flights| > |s.flights|
    ensures After(s, l).flights == s.flights + [Flight(s.cookie, !l.OtherTab?, true, Sent)]
    ensures After(s, l).cookie == s.cookie
  {
  }

  /** The cookie changes only by a logout, which empties it, and by an answer heard, which sets it to the token it brings. */
  lemma CookieFollows(s: State, l: Label)
    requires Enabled(s, l)
    ensures After(s, l).cookie ==
      if l.ClearCookie? then None
      else if l.Deliver? && Minted(s.flights[l.flight]) then Some(s.flights[l.flight].phase.minted.value)
      else if l.Deliver? then None else s.cookie
  {
  }

  // --- the chain -----------------------------------------------------------------------------------

  /** The server has yet to rotate the live token that this request carried. */
  predicate Exposed(s: State, f: nat)
    requires f < |s.flights|
  {
    (s.flights[f].phase == Sent || s.flights[f].phase.Found?) && LiveId(s, s.flights[f].presented)
  }

  /**
    Steps that put no second request beside one that can still rotate the same
    token: no connection lost while the token it carried is live and still in the
    cookie, and no other tab asking with a live cookie.
   */
  predicate Clean(s: State, l: Label) {
    match l
    case Drop(f) => f < |s.flights| && !(Exposed(s, f) && s.cookie == s.flights[f].presented)
    case OtherTab => !LiveId(s, s.cookie)
    case _ => true
  }

  predicate CleanRun(s: State, ls: seq<Label>)
    decreases |ls|
  {
    ls == [] || (Enabled(s, ls[0]) && Clean(s, ls[0]) && CleanRun(After(s, ls[0]), ls[1..]))
  }

  /** Each token was minted by the one before it, and only the last can be live. */
  ghost predicate Chain(tokens: seq<Token>) {
    && |tokens| > 0
    && (forall i :: 0 <= i < |tokens| ==> tokens[i].parent == if i == 0 then None else Some(i - 1))
    && forall i :: 0 <= i < |tokens| - 1 ==> !Live(tokens[i])
  }

  /** A request that can still mint. */
  predicate MayMint(s: State, f: nat)
    requires f < |s.flights|
  {
    var phase := s.flights[f].phase;
    phase.Found? || phase.Rotated? || (phase == Sent && LiveId(s, s.flights[f].presented))
  }

  /** The token it carried, the token it works on, and what it has left behind. */
  ghost predicate FlightOk(s: State, f: nat)
    requires f < |s.flights|
  {
    var fl := s.flights[f];
    && (fl.presented.Some? ==> fl.presented.value < |s.tokens|)
    && (fl.phase.Found? || fl.phase.Rotated? ==> fl.presented == Some(fl.phase.token))
    && (fl.phase.Rotated? ==> fl.phase.token < |s.tokens| && s.tokens[fl.phase.token].revoked)
    && (fl.phase.Answered? || fl.phase == Ended ==> !LiveId(s, fl.presented))
    && (fl.phase.Answered? && fl.phase.minted.Some? ==> fl.own && fl.phase.minted.value < |s.tokens|)
    && (s.gate == Some(f) ==> s.cookie == None || s.cookie == fl.presented)
  }

  /** The one request that can still mint works on the last token, and nobody else holds that one. */
  ghost predicate MinterOk(s: State, f: nat)
    requires f < |s.flights|
  {
    MayMint(s, f) ==>
      && s.flights[f].own
      && s.flights[f].presented == Some(|s.tokens| - 1)
      && (Live(s.tokens[|s.tokens| - 1]) && s.gate != Some(f) ==>
            s.cookie == None && forall g :: 0 <= g < |s.flights| && s.flights[g].heard ==> !Minted(s.flights[g]))
  }

  predicate Minted(f: Flight) { f.phase.Answered? && f.phase.minted.Some? }

  ghost predicate OneMinter(s: State) {
    forall f, g :: 0 <= f < g < |s.flights| ==> !MayMint(s, f) || !MayMint(s, g)
  }

  ghost predicate Inv(s: State) {
    && |s.tokens| > 0 && Chain(s.tokens)
    && GateOk(s)
    && (s.cookie.Some? ==> s.cookie.value < |s.tokens|)
    && (forall f :: 0 <= f < |s.flights| ==> FlightOk(s, f))
    && (forall f :: 0 <= f < |s.flights| ==> MinterOk(s, f))
    && OneMinter(s)
  }

  predicate ByServer(l: Label) { l.ServerFind? || l.ServerRevoke? || l.ServerIssue? || l.RevokeToken? || l.Expire? }

  lemma FlightServed(s: State, l: Label, f: nat)
    requires Inv(s) && Enabled(s, l) && ByServer(l) && f < |s.flights|
    ensures FlightOk(After(s, l), f)
  {
    hide Chain, OneMinter, GateOk, CallsOk, Woken;
    assert FlightOk(s, f) && MinterOk(s, f);
    if l.ServerFind? || l.ServerRevoke? || l.ServerIssue? {
      assert FlightOk(s, l.flight);
    }
  }

  lemma FlightDelivered(s: State, l: Label, f: nat)
    requires Inv(s) && Enabled(s, l) && l.Deliver? && f < |s.flights|
    ensures FlightOk(After(s, l), f)
  {
    hide Chain, OneMinter, Woken, CallsOk, MinterOk;
    assert FlightOk(s, f);
    assert FlightOk(s, l.flight);
  }

  lemma FlightStep(s: State, l: Label, f: nat)
    requires Inv(s) && Enabled(s, l) && f < |After(s, l).flights|
    ensures FlightOk(After(s, l), f)
  {
    if ByServer(l) {
      FlightServed(s, l, f);
    } else if l.Deliver? {
      FlightDelivered(s, l, f);
    } else {
      hide Chain, OneMinter, Woken, GateOk, MinterOk;
      if f < |s.flights| {
        assert FlightOk(s, f);
      }
    }
  }

  /** A step makes no request able to mint, but for a new one that carries a live token. */
  lemma MinterBefore(s: State, l: Label, f: nat)
    requires Inv(s) && Enabled(s, l) && f < |After(s, l).flights| && MayMint(After(s, l), f)
    ensures f < |s.flights| ==> MayMint(s, f) && After(s, l).flights[f].presented == s.flights[f].presented
    ensures f >= |s.flights| ==> f == |s.flights| && LiveId(s, s.cookie) && After(s, l).flights[f].presented == s.cookie
    ensures f >= |s.flights| ==> l.OtherTab? || (l.Respond? && s.gate == None)
    ensures l.ServerIssue? ==> f != l.flight
  {
    hide Chain, OneMinter, Woken, GateOk, MinterOk;
    if f < |s.flights| {
      assert FlightOk(s, f);
    }
  }

  lemma NewMinterIsAlone(s: State, f: nat)
    requires Inv(s) && LiveId(s, s.cookie) && f < |s.flights| && s.gate == None
    ensures s.cookie == Some(|s.tokens| - 1) && !MayMint(s, f)
  {
    hide OneMinter, GateOk;
    assert MinterOk(s, f);
  }

  lemma MinterStep(s: State, l: Label, f: nat)
    requires Inv(s) && Enabled(s, l) && Clean(s, l) && f < |After(s, l).flights|
    ensures MinterOk(After(s, l), f)
  {
    var s' := After(s, l);
    if MayMint(s', f) {
      MinterBefore(s, l, f);
      if f < |s.flights| {
        OldMinter(s, l, f);
      } else {
        hide OneMinter, GateOk, MinterOk;
        LiveCookieIsLast(s);
      }
    }
  }

  lemma LiveCookieIsLast(s: State)
    requires Inv(s) && LiveId(s, s.cookie)
    ensures s.cookie == Some(|s.tokens| - 1)
  {
    hide OneMinter, GateOk, MinterOk, FlightOk;
  }

  lemma OldMinter(s: State, l: Label, f: nat)
    requires Inv(s) && Enabled(s, l) && Clean(s, l) && f < |s.flights|
    requires MayMint(s, f) && MayMint(After(s, l), f) && (l.ServerIssue? ==> f != l.flight)
    ensures MinterOk(After(s, l), f)
  {
    hide Chain, Woken, CallsOk, OneMinter;
    assert MinterOk(s, f) && FlightOk(s, f);
    if l.ServerIssue? {
      OnlyMinter(s, f, l.flight);
      assert false;
    }
    if l.Deliver? {
      assert FlightOk(s, l.flight);
    }
    if l.Drop? {
      OwnAnswerHoldsGate(s);
    }
  }

  lemma OnlyMinter(s: State, f: nat, g: nat)
    requires Inv(s) && f < |s.flights| && g < |s.flights| && f != g && MayMint(s, f)
    ensures !MayMint(s, g)
  {
    hide Chain, GateOk, FlightOk, MinterOk, MayMint;
  }

  lemma OwnAnswerHoldsGate(s: State)
    requires Inv(s)
    ensures forall g :: 0 <= g < |s.flights| && s.flights[g].heard && Minted(s.flights[g]) ==> s.gate == Some(g)
  {
    hide Chain, OneMinter, CallsOk, MinterOk;
    forall g | 0 <= g < |s.flights| && s.flights[g].heard && Minted(s.flights[g]) ensures s.gate == Some(g) {
      assert FlightOk(s, g);
    }
  }

  lemma OneMinterStep(s: State, l: Label)
    requires Inv(s) && Enabled(s, l) && Clean(s, l)
    ensures OneMinter(After(s, l))
  {
    var s' := After(s, l);
    forall f, g | 0 <= f < g < |s'.flights| ensures !MayMint(s', f) || !MayMint(s', g) {
      if MayMint(s', f) && MayMint(s', g) {
        MinterBefore(s, l, f);
        MinterBefore(s, l, g);
        if g >= |s.flights| {
          NewMinterIsAlone(s, f);
        }
      }
    }
  }

  lemma ChainStep(s: State, l: Label)
    requires Inv(s) && Enabled(s, l)
    ensures |After(s, l).tokens| > 0 && Chain(After(s, l).tokens)
    ensures After(s, l).cookie.Some? ==> After(s, l).cookie.value < |After(s, l).tokens|
  {
    hide OneMinter, GateOk, Woken;
    if l.ServerIssue? || l.ServerRevoke? {
      assert MinterOk(s, l.flight) && FlightOk(s, l.flight);
    }
    if l.Deliver? {
      assert FlightOk(s, l.flight);
    }
  }

  lemma StepKeepsInv(s: State, l: Label)
    requires Inv(s) && Enabled(s, l) && Clean(s, l)
    ensures Inv(After(s, l))
  {
    hide Chain, OneMinter, GateOk, FlightOk, MinterOk, After, Enabled, Clean;
    ChainStep(s, l);
    StepKeepsGate(s, l);
    OneMinterStep(s, l);
    forall f | 0 <= f < |After(s, l).flights| ensures FlightOk(After(s, l), f) && MinterOk(After(s, l), f) {
      FlightStep(s, l, f);
      MinterStep(s, l, f);
    }
  }

  /** `s'` is reached from `s` by clean steps. */
  predicate Leads(s: State, ls: seq<Label>, s': State) { Run(s, ls, s') && CleanRun(s, ls) }

  lemma {:induction false} RunKeepsInv(s: State, ls: seq<Label>, s': State)
    requires Inv(s) && Leads(s, ls, s')
    ensures Inv(s')
    decreases |ls|
  {
    hide Inv, After, Enabled, Clean;
    if ls != [] {
      StepKeepsInv(s, ls[0]);
      RunKeepsInv(After(s, ls[0]), ls[1..], s');
    }
  }

  lemma LoginOk()
    ensures Inv(LOGIN)
  {
  }

  /** Along clean steps the tokens that descend from the login form a chain with at most its last token live. */
  lemma TokensFormChain(ls: seq<Label>, s: State)
    requires Leads(LOGIN, ls, s)
    ensures Chain(s.tokens)
  {
    LoginOk();
    RunKeepsInv(LOGIN, ls, s);
  }

  /** No token mints twice. */
  lemma NoneMintsTwice(ls: seq<Label>, s: State, i: nat, j: nat)
    requires Leads(LOGIN, ls, s)
    requires i < |s.tokens| && j < |s.tokens| && s.tokens[i].parent == s.tokens[j].parent
    ensures i == j
  {
    TokensFormChain(ls, s);
  }

  // --- the condition is exact --------------------------------------------------------------------

  /** One token has minted two that are both live. */
  predicate Forked(s: State) {
    exists i, j :: 0 <= i < j < |s.tokens| && s.tokens[i].parent == s.tokens[j].parent && Live(s.tokens[i]) && Live(s.tokens[j])
  }

  lemma {:induction false} LeadsConcat(s: State, ls: seq<Label>, mid: State, ms: seq<Label>, end: State)
    requires Leads(s, ls, mid) && Leads(mid, ms, end)
    ensures Leads(s, ls + ms, end)
    decreases |ls|
  {
    hide After, Enabled, Clean;
    if ls == [] {
      assert ls + ms == ms;
    } else {
      LeadsConcat(After(s, ls[0]), ls[1..], mid, ms, end);
      assert (ls + ms)[1..] == ls[1..] + ms;
    }
  }

  lemma Stay(s: State)
    ensures Leads(s, [], s)
  {
  }

  lemma Step(s: State, l: Label, ls: seq<Label>, end: State)
    requires Enabled(s, l) && Clean(s, l) && Leads(After(s, l), ls, end)
    ensures Leads(s, [l] + ls, end)
  {
    hide After, Enabled, Clean;
    assert ([l] + ls)[1..] == ls;
  }

  /** Two requests that have both found token `k` live. */
  predicate BothFound(s: State, f: nat, g: nat, k: nat) {
    && k < |s.tokens| && f < |s.flights| && g < |s.flights| && f != g
    && s.flights[f].phase == s.flights[g].phase == Found(k)
  }

  lemma MintBoth(s: State, f: nat, g: nat, k: nat) returns (ls: seq<Label>, end: State)
    requires BothFound(s, f, g, k)
    ensures Leads(s, ls, end) && Forked(end)
  {
    hide Leads;
    var s1 := After(s, ServerRevoke(f));
    var s2 := After(s1, ServerRevoke(g));
    var s3 := After(s2, ServerIssue(f, true));
    end := After(s3, ServerIssue(g, true));
    ls := [];
    Stay(end);
    Step(s3, ServerIssue(g, true), ls, end);
    ls := [ServerIssue(g, true)] + ls;
    Step(s2, ServerIssue(f, true), ls, end);
    ls := [ServerIssue(f, true)] + ls;
    Step(s1, ServerRevoke(g), ls, end);
    ls := [ServerRevoke(g)] + ls;
    Step(s, ServerRevoke(f), ls, end);
    ls := [ServerRevoke(f)] + ls;
    var n := |s.tokens|;
    assert end.tokens[n] == end.tokens[n + 1] == Token(Some(k), false, false);
  }

  /** Request `f` carries the live token `k` and the server has yet to rotate it. */
  predicate Asks(s: State, f: nat, k: nat) {
    && f < |s.flights| && k < |s.tokens| && Live(s.tokens[k]) && s.flights[f].presented == Some(k)
    && (s.flights[f].phase == Sent || s.flights[f].phase == Found(k))
  }

  lemma FindOne(s: State, f: nat, g: nat, k: nat) returns (ls: seq<Label>, end: State)
    requires Asks(s, f, k) && Asks(s, g, k) && f != g
    ensures Leads(s, ls, end)
    ensures Asks(end, f, k) && end.flights[f].phase == Found(k)
    ensures Asks(end, g, k) && end.flights[g].phase == s.flights[g].phase
  {
    hide Leads;
    ls, end := [], s;
    Stay(s);
    if s.flights[f].phase == Sent {
      end := After(s, ServerFind(f));
      Stay(end);
      Step(s, ServerFind(f), [], end);
      ls := [ServerFind(f)] + [];
    }
  }

  /** Two requests with one live token can both mint. */
  lemma TwoAskersFork(s: State, f: nat, g: nat, k: nat) returns (ls: seq<Label>, end: State)
    requires Asks(s, f, k) && Asks(s, g, k) && f != g
    ensures Leads(s, ls, end) && Forked(end)
  {
    hide Leads, Forked;
    var s1; var s2; var more;
    ls, s1 := FindOne(s, f, g, k);
    more, s2 := FindOne(s1, g, f, k);
    LeadsConcat(s, ls, s1, more, s2);
    ls := ls + more;
    more, end := MintBoth(s2, f, g, k);
    LeadsConcat(s, ls, s2, more, end);
    ls := ls + more;
  }

  /** While the gate is open, a call that is told its token is invalid posts the cookie. */
  lemma AskAgain(s: State, f: nat, k: nat) returns (ls: seq<Label>, end: State)
    requires Asks(s, f, k) && s.gate == None && s.cookie == Some(k)
    ensures Leads(s, ls, end) && f < |s.flights| && Asks(end, f, k) && Asks(end, |s.flights|, k)
  {
    hide Leads;
    var c := |s.calls|;
    var s1 := After(s, Fetch);
    end := After(s1, Respond(c, true));
    ls := [];
    Stay(end);
    Step(s1, Respond(c, true), ls, end);
    ls := [Respond(c, true)] + ls;
    Step(s, Fetch, ls, end);
    ls := [Fetch] + ls;
  }

  lemma DropForks(s: State, f: nat) returns (ls: seq<Label>, end: State)
    requires Inv(s) && Enabled(s, Drop(f)) && !Clean(s, Drop(f))
    ensures Leads(After(s, Drop(f)), ls, end) && Forked(end)
  {
    var k := s.flights[f].presented.value;
    var s1 := After(s, Drop(f));
    DroppedAsks(s, f, k);
    hide Leads, Forked, After, Enabled, Clean, Inv, Asks;
    var s2; var more;
    ls, s2 := AskAgain(s1, f, k);
    more, end := TwoAskersFork(s2, f, |s1.flights|, k);
    LeadsConcat(s1, ls, s2, more, end);
    ls := ls + more;
  }

  lemma DroppedAsks(s: State, f: nat, k: nat)
    requires Inv(s) && Enabled(s, Drop(f)) && !Clean(s, Drop(f)) && s.flights[f].presented == Some(k)
    ensures var s' := After(s, Drop(f)); Asks(s', f, k) && s'.gate == None && s'.cookie == Some(k)
  {
    hide Chain, OneMinter, CallsOk, Woken;
    assert FlightOk(s, f) && MinterOk(s, f);
  }

  lemma OtherTabForks(s: State) returns (ls: seq<Label>, end: State)
    requires Inv(s) && !Clean(s, OtherTab)
    ensures Leads(After(s, OtherTab), ls, end) && Forked(end)
  {
    var k, f := s.cookie.value, |s.flights|;
    var s1 := After(s, OtherTab);
    assert Asks(s1, f, k);
    if s.gate == None {
      hide Leads, Forked;
      var s2; var more;
      ls, s2 := AskAgain(s1, f, k);
      more, end := TwoAskersFork(s2, f, |s1.flights|, k);
      LeadsConcat(s1, ls, s2, more, end);
      ls := ls + more;
    } else {
      GateAsks(s, s.gate.value, k);
      ls, end := TwoAskersFork(s1, f, s.gate.value, k);
    }
  }

  /** A live cookie is the one the request in flight carries, and the server has yet to rotate it. */
  lemma GateAsks(s: State, g: nat, k: nat)
    requires Inv(s) && s.gate == Some(g) && s.cookie == Some(k) && LiveId(s, s.cookie)
    ensures Asks(s, g, k)
  {
    hide Chain, OneMinter, CallsOk, MinterOk;
    assert FlightOk(s, g);
  }

  ghost predicate CanFork(s: State) { exists ls, end :: Leads(s, ls, end) && Forked(end) }

  /**
    After clean steps, one step more keeps the chain safe exactly when it is clean
    too: from any other step, clean steps lead to a token that has minted two live ones.
   */
  lemma CleanExactlyWhen(ls: seq<Label>, s: State, l: Label)
    requires Leads(LOGIN, ls, s) && Enabled(s, l)
    ensures Clean(s, l) <==> !CanFork(After(s, l))
  {
    hide Leads, Forked, After, Enabled, Clean, Inv, LOGIN;
    LoginOk();
    RunKeepsInv(LOGIN, ls, s);
    if Clean(s, l) {
      StepKeepsInv(s, l);
      CannotFork(After(s, l));
    } else {
      var more, end := UncleanForks(s, l);
      assert Leads(After(s, l), more, end);
    }
  }

  lemma UncleanForks(s: State, l: Label) returns (ls: seq<Label>, end: State)
    requires Inv(s) && Enabled(s, l) && !Clean(s, l)
    ensures Leads(After(s, l), ls, end) && Forked(end)
  {
    hide Leads, Forked, After, Inv;
    if l.Drop? {
      ls, end := DropForks(s, l.flight);
    } else {
      ls, end := OtherTabForks(s);
    }
  }

  lemma CannotFork(s: State)
    requires Inv(s)
    ensures !CanFork(s)
  {
    hide Inv, Leads, Forked;
    forall ls, end | Leads(s, ls, end) ensures !Forked(end) {
      RunKeepsInv(s, ls, end);
      ChainIsNoFork(end);
    }
  }

  lemma ChainIsNoFork(s: State)
    requires Inv(s)
    ensures !Forked(s)
  {
  }

  /** A second tab opened right after the login is such a step. */
  lemma TwoTabsMintTwice(s: State)
    requires s == LOGIN
    ensures CanFork(After(s, OtherTab))
  {
    hide CanFork;
    Stay(s);
    CleanExactlyWhen([], s, OtherTab);
  }

  /** So is a lost connection, both before the server has looked the token up and after. */
  lemma LostConnectionMintsTwice(s: State, f: nat) returns (sent: State, found: State)
    requires s == LOGIN && f == 0
    ensures Enabled(sent, Drop(f)) && sent.flights[f].phase == Sent && CanFork(After(sent, Drop(f)))
    ensures Enabled(found, Drop(f)) && found.flights[f].phase.Found? && CanFork(After(found, Drop(f)))
  {
    hide CanFork, Leads;
    var s1 := After(s, Fetch);
    sent := After(s1, Respond(f, true));
    found := After(sent, ServerFind(f));
    Stay(sent);
    Step(s1, Respond(f, true), [], sent);
    Step(s, Fetch, [Respond(f, true)] + [], sent);
    Stay(found);
    Step(sent, ServerFind(f), [], found);
    LeadsConcat(s, [Fetch] + ([Respond(f, true)] + []), sent, [ServerFind(f)] + [], found);
    CleanExactlyWhen([Fetch] + ([Respond(f, true)] + []), sent, Drop(f));
    CleanExactlyWhen([Fetch] + ([Respond(f, true)] + []) + ([ServerFind(f)] + []), found, Drop(f));
  }
}

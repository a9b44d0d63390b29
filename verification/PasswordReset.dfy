/**
  resetPassword as concurrent requests, beside logins and token refreshes (auth.service.ts).

  A request looks its token up and hashes the new password outside any
  transaction; then one transaction claims the token, sets the password and
  revokes the user's refresh tokens. A row another transaction has written
  stays locked until that transaction ends. Token hashes are identities.

  A login or a refresh is an opening: it passes its check, a refresh then revokes
  the token it found, and last it issues a refresh token.
 */
module PasswordReset {
  import opened Prelude

  type Hash = nat
  type UserId = nat
  type TxId = nat

  datatype ResetToken = ResetToken(user: UserId, expiresAt: int, used: bool)

  /** `opening`: the login or refresh that issued it. */
  datatype RefreshToken = RefreshToken(user: UserId, revoked: bool, opening: nat)

  datatype OpeningPhase = Checked | Rotated | Issued | Refused

  /** A login, or a refresh that found the live token `from`. */
  datatype Opening = Opening(user: UserId, from: Option<nat>, phase: OpeningPhase)

  /** Refresh tokens are numbered in the order they are issued. */
  datatype Db = Db(tokens: map<Hash, ResetToken>, passwords: map<UserId, string>, refresh: seq<RefreshToken>)

  datatype Phase =
    | Start
    | Validated(user: UserId)
    | Claimed(user: UserId)
    | PasswordSet(user: UserId)
    | Revoked(user: UserId, snapshot: set<nat>, upto: nat)
    | Committed
    | Aborted

  datatype Reset = Reset(token: Hash, passwordHash: string, phase: Phase)

  datatype Done = Done(tx: TxId, token: Hash, user: UserId, passwordHash: string, upto: nat)

  datatype State = State(
    db: Db, resets: seq<Reset>, openings: seq<Opening>,
    tokenLock: map<Hash, TxId>, userLock: map<UserId, TxId>, done: seq<Done>)

  datatype Label =
    | Validate(tx: TxId, now: int)
    | Claim(tx: TxId)
    | SetPassword(tx: TxId)
    | Revoke(tx: TxId)
    | Commit(tx: TxId)
    | Rollback(tx: TxId)
    | Login(user: UserId)
    | FindRefresh(id: nat)
    | RotateRefresh(opening: nat)
    | IssueRefresh(opening: nat)
    | RefuseRefresh(opening: nat)
    | RevokeRefresh(id: nat)
    | RetireToken(hash: Hash)
    | RequestReset(hash: Hash, user: UserId, expiresAt: int)

  function SetPhase(s: State, t: TxId, phase: Phase): State
    requires t < |s.resets|
  {
    s.(resets := s.resets[t := s.resets[t].(phase := phase)])
  }

  function SetOpening(s: State, o: nat, phase: OpeningPhase): State
    requires o < |s.openings|
  {
    s.(openings := s.openings[o := s.openings[o].(phase := phase)])
  }

  function Unlocked(locks: map<nat, TxId>, t: TxId): map<nat, TxId> { map x | x in locks && locks[x] != t :: locks[x] }

  function Released(s: State, t: TxId): State {
    s.(tokenLock := Unlocked(s.tokenLock, t), userLock := Unlocked(s.userLock, t))
  }

  /** The rows `updateMany` with `revokedAt: null` finds for the user. */
  function LiveRefresh(db: Db, user: UserId): set<nat> {
    set i | 0 <= i < |db.refresh| && db.refresh[i].user == user && !db.refresh[i].revoked
  }

  /** A reset that has run its revocation and not ended holds the rows it found. */
  predicate RowHeld(s: State, id: nat) {
    exists t :: 0 <= t < |s.resets| && s.resets[t].phase.Revoked? && id in s.resets[t].phase.snapshot
  }

  predicate Pending(o: Opening) { o.phase == Checked || o.phase == Rotated }

  function WithRevoked(refresh: seq<RefreshToken>, ids: set<nat>): seq<RefreshToken> {
    seq(|refresh|, i requires 0 <= i < |refresh| => if i in ids then refresh[i].(revoked := true) else refresh[i])
  }

  predicate InTransaction(p: Phase) { p.Claimed? || p.PasswordSet? || p.Revoked? }

  predicate Enabled(s: State, l: Label) {
    match l
    case Validate(t, _) => t < |s.resets| && s.resets[t].phase == Start
    case Claim(t) => t < |s.resets| && s.resets[t].phase.Validated? && s.resets[t].token !in s.tokenLock
    case SetPassword(t) => t < |s.resets| && s.resets[t].phase.Claimed? && s.resets[t].phase.user !in s.userLock
    case Revoke(t) => t < |s.resets| && s.resets[t].phase.PasswordSet?
    case Commit(t) => t < |s.resets| && s.resets[t].phase.Revoked?
    case Rollback(t) => t < |s.resets| && (InTransaction(s.resets[t].phase) || s.resets[t].phase.Validated?)
    case Login(_) => true
    case FindRefresh(i) => i < |s.db.refresh| && !s.db.refresh[i].revoked
    case RotateRefresh(o) =>
      o < |s.openings| && s.openings[o].phase == Checked && s.openings[o].from.Some?
      && s.openings[o].from.value < |s.db.refresh| && !RowHeld(s, s.openings[o].from.value)
    case IssueRefresh(o) =>
      o < |s.openings| && s.openings[o].phase == if s.openings[o].from == None then Checked else Rotated
    case RefuseRefresh(o) => o < |s.openings| && Pending(s.openings[o])
    case RevokeRefresh(i) => i < |s.db.refresh| && !RowHeld(s, i)
    case RetireToken(hash) => hash in s.db.tokens && hash !in s.tokenLock
    case RequestReset(hash, _, _) => hash !in s.db.tokens
  }

  function After(s: State, l: Label): State
    requires Enabled(s, l)
  {
    match l
    case Validate(t, now) =>
      var hash := s.resets[t].token;
      if hash !in s.db.tokens || s.db.tokens[hash].used || s.db.tokens[hash].expiresAt <= now then SetPhase(s, t, Aborted)
      else SetPhase(s, t, Validated(s.db.tokens[hash].user))
    case Claim(t) =>
      var hash := s.resets[t].token;
      if hash in s.db.tokens && !s.db.tokens[hash].used
      then SetPhase(s, t, Claimed(s.resets[t].phase.user)).(tokenLock := s.tokenLock[hash := t])
      else SetPhase(s, t, Aborted)
    case SetPassword(t) =>
      SetPhase(s, t, PasswordSet(s.resets[t].phase.user)).(userLock := s.userLock[s.resets[t].phase.user := t])
    case Revoke(t) =>
      var user := s.resets[t].phase.user;
      SetPhase(s, t, Revoked(user, LiveRefresh(s.db, user), |s.db.refresh|))
    case Commit(t) =>
      var r := s.resets[t];
      var tokens := if r.token in s.db.tokens then s.db.tokens[r.token := s.db.tokens[r.token].(used := true)] else s.db.tokens;
      Released(SetPhase(s, t, Committed), t).(
        db := Db(tokens, s.db.passwords[r.phase.user := r.passwordHash], WithRevoked(s.db.refresh, r.phase.snapshot)),
        done := s.done + [Done(t, r.token, r.phase.user, r.passwordHash, r.phase.upto)])
    case Rollback(t) => Released(SetPhase(s, t, Aborted), t)
    case Login(user) => s.(openings := s.openings + [Opening(user, None, Checked)])
    case FindRefresh(i) => s.(openings := s.openings + [Opening(s.db.refresh[i].user, Some(i), Checked)])
    case RotateRefresh(o) =>
      var i := s.openings[o].from.value;
      SetOpening(s, o, Rotated).(db := s.db.(refresh := s.db.refresh[i := s.db.refresh[i].(revoked := true)]))
    case IssueRefresh(o) =>
      SetOpening(s, o, Issued).(db := s.db.(refresh := s.db.refresh + [RefreshToken(s.openings[o].user, false, o)]))
    case RefuseRefresh(o) => SetOpening(s, o, Refused)
    case RevokeRefresh(i) => s.(db := s.db.(refresh := s.db.refresh[i := s.db.refresh[i].(revoked := true)]))
    case RetireToken(hash) => s.(db := s.db.(tokens := s.db.tokens[hash := s.db.tokens[hash].(used := true)]))
    case RequestReset(hash, user, expiresAt) => s.(db := s.db.(tokens := s.db.tokens[hash := ResetToken(user, expiresAt, false)]))
  }

  predicate Run(s: State, ls: seq<Label>, s': State)
    decreases |ls|
  {
    if ls == [] then s' == s else Enabled(s, ls[0]) && Run(After(s, ls[0]), ls[1..], s')
  }

  ghost predicate Initial(s: State) {
    && s.tokenLock == map[] && s.userLock == map[] && s.done == []
    && (forall t :: 0 <= t < |s.resets| ==> s.resets[t].phase == Start)
    && OpeningsOk(s)
  }

  /** The password a user has: the last committed one, or the one at the start. */
  function PasswordAfter(start: map<UserId, string>, done: seq<Done>): map<UserId, string> {
    if done == [] then start
    else PasswordAfter(start, done[..|done| - 1])[done[|done| - 1].user := done[|done| - 1].passwordHash]
  }

  /** A token has its opening's user. */
  ghost predicate TokensOwned(s: State) {
    forall i :: 0 <= i < |s.db.refresh| ==>
      s.db.refresh[i].opening < |s.openings| && s.openings[s.db.refresh[i].opening].user == s.db.refresh[i].user
  }

  /** An opening has the user of the token it found, and only a refresh rotates. */
  ghost predicate FindsOwned(s: State) {
    forall o :: 0 <= o < |s.openings| ==>
      && (s.openings[o].phase == Rotated ==> s.openings[o].from.Some?)
      && (s.openings[o].from.Some? ==>
            s.openings[o].from.value < |s.db.refresh| && s.db.refresh[s.openings[o].from.value].user == s.openings[o].user)
  }

  ghost predicate OpeningsOk(s: State) { TokensOwned(s) && FindsOwned(s) }

  // --- invariants ---------------------------------------------------------------------

  ghost predicate ResetOk(s: State, t: TxId)
    requires t < |s.resets|
  {
    var r := s.resets[t];
    && (InTransaction(r.phase) ==>
      r.token in s.tokenLock && s.tokenLock[r.token] == t
      && r.token in s.db.tokens && !s.db.tokens[r.token].used)
    && (r.phase.PasswordSet? || r.phase.Revoked? ==> r.phase.user in s.userLock && s.userLock[r.phase.user] == t)
    && (r.phase.Revoked? ==>
      r.phase.upto <= |s.db.refresh|
      && forall i :: 0 <= i < r.phase.upto && s.db.refresh[i].user == r.phase.user ==>
        i in r.phase.snapshot || s.db.refresh[i].revoked)
    && (r.phase.Revoked? ==>
      forall i :: i in r.phase.snapshot ==> i < r.phase.upto && s.db.refresh[i].user == r.phase.user)
    && (r.phase.Validated? || InTransaction(r.phase) ==> r.token in s.db.tokens && s.db.tokens[r.token].user == r.phase.user)
  }

  /** What a committed reset guarantees from then on. */
  ghost predicate DoneOk(s: State, d: Done) {
    && d.token in s.db.tokens && s.db.tokens[d.token].used && s.db.tokens[d.token].user == d.user
    && d.upto <= |s.db.refresh|
    && forall i :: 0 <= i < d.upto && s.db.refresh[i].user == d.user ==> s.db.refresh[i].revoked
  }

  ghost predicate TokensOnce(done: seq<Done>) {
    forall i, j :: 0 <= i < j < |done| ==> done[i].token != done[j].token
  }

  ghost predicate Inv(start: map<UserId, string>, s: State) {
    && (forall t :: 0 <= t < |s.resets| ==> ResetOk(s, t))
    && (forall i :: 0 <= i < |s.done| ==> DoneOk(s, s.done[i]))
    && TokensOnce(s.done)
    && OpeningsOk(s)
    && s.db.passwords == PasswordAfter(start, s.done)
  }

  lemma CommitResets(s: State, t: TxId, u: TxId)
    requires Enabled(s, Commit(t)) && ResetOk(s, t) && u < |s.resets| && ResetOk(s, u)
    ensures ResetOk(After(s, Commit(t)), u)
  {
  }

  lemma CommitDone(s: State, t: TxId)
    requires Enabled(s, Commit(t)) && ResetOk(s, t)
    ensures var s' := After(s, Commit(t)); DoneOk(s', s'.done[|s.done|])
    ensures forall d :: DoneOk(s, d) ==> DoneOk(After(s, Commit(t)), d)
  {
  }

  lemma CommitTokens(s: State, t: TxId)
    requires Enabled(s, Commit(t)) && ResetOk(s, t)
    requires TokensOnce(s.done) && forall i :: 0 <= i < |s.done| ==> DoneOk(s, s.done[i])
    ensures TokensOnce(After(s, Commit(t)).done)
  {
  }

  lemma TokensOwnedStep(s: State, l: Label)
    requires TokensOwned(s) && Enabled(s, l)
    ensures TokensOwned(After(s, l))
  {
    hide RowHeld, LiveRefresh, Unlocked;
  }

  lemma FindsOwnedStep(s: State, l: Label)
    requires FindsOwned(s) && Enabled(s, l)
    ensures FindsOwned(After(s, l))
  {
    hide RowHeld, LiveRefresh, Unlocked;
  }

  lemma OpeningsStep(s: State, l: Label)
    requires OpeningsOk(s) && Enabled(s, l)
    ensures OpeningsOk(After(s, l))
  {
    hide TokensOwned, FindsOwned, After, Enabled;
    TokensOwnedStep(s, l);
    FindsOwnedStep(s, l);
  }

  lemma CommitKeepsInv(start: map<UserId, string>, s: State, t: TxId)
    requires Inv(start, s) && Enabled(s, Commit(t))
    ensures Inv(start, After(s, Commit(t)))
  {
    hide ResetOk, DoneOk, TokensOnce, OpeningsOk;
    var s' := After(s, Commit(t));
    assert ResetOk(s, t);
    OpeningsStep(s, Commit(t));
    CommitDone(s, t);
    CommitTokens(s, t);
    assert s'.done[..|s.done|] == s.done;
    forall i | 0 <= i < |s'.done| ensures DoneOk(s', s'.done[i]) {
      if i < |s.done| {
        assert s'.done[i] == s.done[i] && DoneOk(s, s.done[i]);
      }
    }
    forall u | 0 <= u < |s'.resets| ensures ResetOk(s', u) {
      CommitResets(s, t, u);
    }
  }

  predicate ByReset(l: Label) { l.Validate? || l.Claim? || l.SetPassword? || l.Revoke? || l.Commit? || l.Rollback? }

  lemma OtherReset(s: State, l: Label, u: TxId)
    requires Enabled(s, l) && !l.Commit? && u < |s.resets| && ResetOk(s, u)
    requires ByReset(l)
    ensures ResetOk(After(s, l), u)
  {
    if l.Revoke? && l.tx == u {
      var user := s.resets[u].phase.user;
      forall i | 0 <= i < |s.db.refresh| && s.db.refresh[i].user == user
        ensures i in LiveRefresh(s.db, user) || s.db.refresh[i].revoked
      {
        assert !s.db.refresh[i].revoked ==> i in LiveRefresh(s.db, user);
      }
    }
  }

  lemma OutsideReset(s: State, l: Label, u: TxId)
    requires Enabled(s, l) && u < |s.resets| && ResetOk(s, u)
    requires !ByReset(l)
    ensures ResetOk(After(s, l), u)
  {
  }

  lemma OtherDone(s: State, l: Label, d: Done)
    requires Enabled(s, l) && !l.Commit? && DoneOk(s, d)
    ensures DoneOk(After(s, l), d)
  {
  }

  lemma OtherKeepsInv(start: map<UserId, string>, s: State, l: Label)
    requires Inv(start, s) && Enabled(s, l) && !l.Commit?
    ensures Inv(start, After(s, l))
  {
    hide ResetOk, DoneOk, TokensOnce, OpeningsOk;
    var s' := After(s, l);
    OpeningsStep(s, l);
    forall i | 0 <= i < |s'.done| ensures DoneOk(s', s'.done[i]) {
      OtherDone(s, l, s.done[i]);
    }
    forall u | 0 <= u < |s'.resets| ensures ResetOk(s', u) {
      if ByReset(l) { OtherReset(s, l, u); } else { OutsideReset(s, l, u); }
    }
  }

  lemma {:induction false} RunKeepsInv(start: map<UserId, string>, s: State, ls: seq<Label>, s': State)
    requires Inv(start, s) && Run(s, ls, s')
    ensures Inv(start, s')
    decreases |ls|
  {
    if ls != [] {
      if ls[0].Commit? { CommitKeepsInv(start, s, ls[0].tx); } else { OtherKeepsInv(start, s, ls[0]); }
      RunKeepsInv(start, After(s, ls[0]), ls[1..], s');
    }
  }

  // --- main results ---------------------------------------------------------------------

  /**
    In every interleaving a reset token commits at most one new password, the
    passwords are those of the committed resets in order and nothing else, and
    the refresh tokens a committed reset found are revoked for good.
   */
  lemma ResetAtMostOnce(s: State, ls: seq<Label>, s': State)
    requires Initial(s) && Run(s, ls, s')
    ensures TokensOnce(s'.done)
    ensures s'.db.passwords == PasswordAfter(s.db.passwords, s'.done)
    ensures forall i :: 0 <= i < |s'.done| ==> DoneOk(s', s'.done[i])
  {
    RunKeepsInv(s.db.passwords, s, ls, s');
  }

  /** A token that has committed once never gets another request past its first look. */
  lemma UsedTokenIsRejected(s: State, ls: seq<Label>, s': State, t: TxId, now: int, i: nat)
    requires Initial(s) && Run(s, ls, s') && i < |s'.done| && Enabled(s', Validate(t, now))
    requires s'.resets[t].token == s'.done[i].token
    ensures After(s', Validate(t, now)) == SetPhase(s', t, Aborted)
  {
    ResetAtMostOnce(s, ls, s');
    assert DoneOk(s', s'.done[i]);
  }

  /** Two requests that both validated the same token: once one commits, the other can only abort. */
  lemma LoserAborts(s: State, ls: seq<Label>, s': State, t: TxId, i: nat)
    requires Initial(s) && Run(s, ls, s') && i < |s'.done| && t < |s'.resets|
    requires s'.resets[t].token == s'.done[i].token
    ensures !InTransaction(s'.resets[t].phase)
    ensures Enabled(s', Claim(t)) ==> After(s', Claim(t)) == SetPhase(s', t, Aborted)
  {
    RunKeepsInv(s.db.passwords, s, ls, s');
    assert DoneOk(s', s'.done[i]) && ResetOk(s', t);
  }

  // --- the token's time ---------------------------------------------------------------------

  /** Past its first look, and not turned away. */
  predicate Admitted(p: Phase) { p != Start && p != Aborted }

  lemma TokenStays(s: State, l: Label, hash: Hash)
    requires Enabled(s, l) && hash in s.db.tokens
    ensures hash in After(s, l).db.tokens
    ensures var token, token' := s.db.tokens[hash], After(s, l).db.tokens[hash];
      token'.user == token.user && token'.expiresAt == token.expiresAt && (token.used ==> token'.used)
  {
  }

  lemma {:induction false} TokenStaysInRun(s: State, ls: seq<Label>, s': State, hash: Hash)
    requires Run(s, ls, s') && hash in s.db.tokens
    ensures hash in s'.db.tokens && s'.db.tokens[hash].expiresAt == s.db.tokens[hash].expiresAt
    decreases |ls|
  {
    if ls != [] {
      TokenStays(s, ls[0], hash);
      hide After, Enabled;
      TokenStaysInRun(After(s, ls[0]), ls[1..], s', hash);
    }
  }

  lemma RequestStays(s: State, l: Label, t: TxId)
    requires Enabled(s, l) && t < |s.resets|
    ensures |After(s, l).resets| == |s.resets|
    ensures After(s, l).resets[t].token == s.resets[t].token && After(s, l).resets[t].passwordHash == s.resets[t].passwordHash
    ensures s.resets[t].phase == Aborted ==> After(s, l).resets[t].phase == Aborted
    ensures s.resets[t].phase == Committed ==> After(s, l).resets[t].phase == Committed
  {
  }

  lemma {:induction false} AbortedStays(s: State, ls: seq<Label>, s': State, t: TxId)
    requires Run(s, ls, s') && t < |s.resets| && s.resets[t].phase == Aborted
    ensures t < |s'.resets| && s'.resets[t].phase == Aborted
    decreases |ls|
  {
    if ls != [] {
      RequestStays(s, ls[0], t);
      hide After, Enabled;
      AbortedStays(After(s, ls[0]), ls[1..], s', t);
    }
  }

  lemma FirstLook(s: State, l: Label, t: TxId)
    requires Enabled(s, l) && t < |s.resets| && s.resets[t].phase == Start && After(s, l).resets[t].phase != Start
    ensures l.Validate? && l.tx == t
    ensures After(s, l).resets[t].phase == Aborted
      || (s.resets[t].token in s.db.tokens && l.now < s.db.tokens[s.resets[t].token].expiresAt)
  {
  }

  /** Whoever got past the first look took it before the token expired. */
  lemma {:induction false} AdmittedInTime(s: State, ls: seq<Label>, s': State, t: TxId) returns (k: nat)
    requires Run(s, ls, s') && t < |s.resets| && s.resets[t].phase == Start
    requires t < |s'.resets| && Admitted(s'.resets[t].phase)
    ensures s'.resets[t].token == s.resets[t].token && s'.resets[t].token in s'.db.tokens
    ensures k < |ls| && ls[k].Validate? && ls[k].tx == t && ls[k].now < s'.db.tokens[s'.resets[t].token].expiresAt
    decreases |ls|
  {
    var s1 := After(s, ls[0]);
    RequestStays(s, ls[0], t);
    if s1.resets[t].phase == Start {
      hide After, Enabled;
      var j := AdmittedInTime(s1, ls[1..], s', t);
      k := j + 1;
    } else {
      FirstLook(s, ls[0], t);
      if s1.resets[t].phase == Aborted {
        AbortedStays(s1, ls[1..], s', t);
        assert false;
      } else {
        var hash := s.resets[t].token;
        TokenStays(s, ls[0], hash);
        hide After, Enabled;
        TokenStaysInRun(s1, ls[1..], s', hash);
        SameRequest(s1, ls[1..], s', t);
        k := 0;
      }
    }
  }

  lemma {:induction false} SameRequest(s: State, ls: seq<Label>, s': State, t: TxId)
    requires Run(s, ls, s') && t < |s.resets|
    ensures t < |s'.resets| && s'.resets[t].token == s.resets[t].token && s'.resets[t].passwordHash == s.resets[t].passwordHash
    decreases |ls|
  {
    if ls != [] {
      RequestStays(s, ls[0], t);
      hide After, Enabled;
      SameRequest(After(s, ls[0]), ls[1..], s', t);
    }
  }

  /** Each committed reset is a request's, with the password it brought. */
  ghost predicate DoneIsRequest(s: State, d: Done) {
    && d.tx < |s.resets| && s.resets[d.tx].phase == Committed
    && s.resets[d.tx].token == d.token && s.resets[d.tx].passwordHash == d.passwordHash
  }

  ghost predicate AllDone(s: State) { forall i :: 0 <= i < |s.done| ==> DoneIsRequest(s, s.done[i]) }

  lemma DoneStep(s: State, l: Label)
    requires Enabled(s, l) && AllDone(s)
    ensures AllDone(After(s, l))
  {
    var s' := After(s, l);
    forall i | 0 <= i < |s'.done| ensures DoneIsRequest(s', s'.done[i]) {
      if i < |s.done| {
        assert DoneIsRequest(s, s.done[i]);
        RequestStays(s, l, s.done[i].tx);
      }
    }
  }

  lemma {:induction false} RunKeepsDone(s: State, ls: seq<Label>, s': State)
    requires Run(s, ls, s') && AllDone(s)
    ensures AllDone(s') && |s'.resets| == |s.resets|
    decreases |ls|
  {
    if ls != [] {
      DoneStep(s, ls[0]);
      assert |After(s, ls[0]).resets| == |s.resets|;
      hide After, Enabled, AllDone;
      RunKeepsDone(After(s, ls[0]), ls[1..], s');
    }
  }

  /**
    No link works for ever: in every run, each password committed was brought by
    a request that looked its token up before the token's expiry.
   */
  lemma CommittedInTime(s: State, ls: seq<Label>, s': State, i: nat) returns (k: nat)
    requires Initial(s) && Run(s, ls, s') && i < |s'.done|
    ensures var d := s'.done[i];
      && d.tx < |s.resets| && d.token == s.resets[d.tx].token && d.passwordHash == s.resets[d.tx].passwordHash
      && d.token in s'.db.tokens
      && k < |ls| && ls[k].Validate? && ls[k].tx == d.tx && ls[k].now < s'.db.tokens[d.token].expiresAt
  {
    RunKeepsDone(s, ls, s');
    assert DoneIsRequest(s', s'.done[i]);
    k := AdmittedInTime(s, ls, s', s'.done[i].tx);
    SameRequest(s, ls, s', s'.done[i].tx);
  }

  predicate Usable(db: Db, hash: Hash, now: int) {
    hash in db.tokens && !db.tokens[hash].used && now < db.tokens[hash].expiresAt
  }

  /** The state a request that runs alone leaves: its token used, the password set, the user's refresh tokens revoked. */
  ghost predicate ResetDone(s: State, t: TxId, s': State)
    requires t < |s.resets| && s.resets[t].token in s.db.tokens
  {
    var r, token := s.resets[t], s.db.tokens[s.resets[t].token];
    && s'.db.tokens == s.db.tokens[r.token := token.(used := true)]
    && s'.db.passwords == s.db.passwords[token.user := r.passwordHash]
    && |s'.db.refresh| == |s.db.refresh|
    && (forall i :: 0 <= i < |s.db.refresh| ==>
          s'.db.refresh[i] == s.db.refresh[i].(revoked := s.db.refresh[i].revoked || s.db.refresh[i].user == token.user))
    && s'.resets == s.resets[t := r.(phase := Committed)]
    && s'.openings == s.openings && s'.tokenLock == s.tokenLock && s'.userLock == s.userLock
  }

  /** A request that runs alone resets the password exactly when its token is on file, unused and not yet expired. */
  lemma ResetAloneExactlyWhen(s: State, t: TxId, now: int)
    requires t < |s.resets| && s.resets[t].phase == Start
    requires s.resets[t].token !in s.tokenLock && s.userLock == map[] && t !in s.tokenLock.Values
    ensures Usable(s.db, s.resets[t].token, now) ==>
      exists s' :: Run(s, [Validate(t, now), Claim(t), SetPassword(t), Revoke(t), Commit(t)], s') && ResetDone(s, t, s')
    ensures !Usable(s.db, s.resets[t].token, now) ==> Run(s, [Validate(t, now)], SetPhase(s, t, Aborted))
  {
    if Usable(s.db, s.resets[t].token, now) {
      ResetAlone(s, t, now);
    } else {
      OneStep(s, Validate(t, now));
    }
  }

  /** The request just before its commit, as its transaction has prepared it. */
  function Prepared(s: State, t: TxId, user: UserId): State
    requires t < |s.resets|
  {
    SetPhase(s, t, Revoked(user, LiveRefresh(s.db, user), |s.db.refresh|)).(
      tokenLock := s.tokenLock[s.resets[t].token := t], userLock := s.userLock[user := t])
  }

  lemma PreparesAlone(s: State, t: TxId, now: int)
    requires t < |s.resets| && s.resets[t].phase == Start && Usable(s.db, s.resets[t].token, now)
    requires s.resets[t].token !in s.tokenLock && s.userLock == map[]
    ensures Run(s, [Validate(t, now)] + ([Claim(t)] + ([SetPassword(t)] + [Revoke(t)])),
                Prepared(s, t, s.db.tokens[s.resets[t].token].user))
  {
    hide LiveRefresh, RowHeld, Run;
    var s1 := After(s, Validate(t, now));
    var s2 := After(s1, Claim(t));
    var s3 := After(s2, SetPassword(t));
    var s4 := After(s3, Revoke(t));
    assert s4 == Prepared(s, t, s.db.tokens[s.resets[t].token].user);
    OneStep(s3, Revoke(t));
    Prepend(s2, SetPassword(t), [Revoke(t)], s4);
    Prepend(s1, Claim(t), [SetPassword(t)] + [Revoke(t)], s4);
    Prepend(s, Validate(t, now), [Claim(t)] + ([SetPassword(t)] + [Revoke(t)]), s4);
  }

  lemma CommitsAlone(s: State, t: TxId)
    requires t < |s.resets| && s.resets[t].token in s.db.tokens
    requires s.resets[t].token !in s.tokenLock && s.userLock == map[] && t !in s.tokenLock.Values
    ensures var p := Prepared(s, t, s.db.tokens[s.resets[t].token].user);
      Enabled(p, Commit(t)) && ResetDone(s, t, After(p, Commit(t)))
  {
    hide RowHeld;
    var p := Prepared(s, t, s.db.tokens[s.resets[t].token].user);
    assert Unlocked(p.tokenLock, t) == s.tokenLock;
  }

  lemma {:induction false} RunConcat(s: State, ls: seq<Label>, mid: State, ms: seq<Label>, end: State)
    requires Run(s, ls, mid) && Run(mid, ms, end)
    ensures Run(s, ls + ms, end)
    decreases |ls|
  {
    hide After, Enabled;
    if ls == [] {
      assert ls + ms == ms;
    } else {
      RunConcat(After(s, ls[0]), ls[1..], mid, ms, end);
      assert (ls + ms)[1..] == ls[1..] + ms;
    }
  }

  lemma ResetAlone(s: State, t: TxId, now: int)
    requires t < |s.resets| && s.resets[t].phase == Start && Usable(s.db, s.resets[t].token, now)
    requires s.resets[t].token !in s.tokenLock && s.userLock == map[] && t !in s.tokenLock.Values
    ensures exists s' :: Run(s, [Validate(t, now), Claim(t), SetPassword(t), Revoke(t), Commit(t)], s') && ResetDone(s, t, s')
  {
    hide ResetDone, After, LiveRefresh, Enabled, Prepared, Run;
    var p := Prepared(s, t, s.db.tokens[s.resets[t].token].user);
    PreparesAlone(s, t, now);
    CommitsAlone(s, t);
    OneStep(p, Commit(t));
    var before := [Validate(t, now)] + ([Claim(t)] + ([SetPassword(t)] + [Revoke(t)]));
    RunConcat(s, before, p, [Commit(t)], After(p, Commit(t)));
    assert before + [Commit(t)] == [Validate(t, now), Claim(t), SetPassword(t), Revoke(t), Commit(t)];
  }

  // --- locks and tokens ----------------------------------------------------------------------

  /** Every lock is held by a request of that token, or of that user, whose transaction has not ended. */
  ghost predicate LocksHeld(s: State) { TokenLocksHeld(s) && UserLocksHeld(s) }

  ghost predicate TokenLocksHeld(s: State) {
    forall hash :: hash in s.tokenLock ==>
      var t := s.tokenLock[hash]; t < |s.resets| && s.resets[t].token == hash && InTransaction(s.resets[t].phase)
  }

  ghost predicate UserLocksHeld(s: State) {
    forall user :: user in s.userLock ==>
      var t := s.userLock[user];
      t < |s.resets| && (s.resets[t].phase.PasswordSet? || s.resets[t].phase.Revoked?) && s.resets[t].phase.user == user
  }

  lemma TokenLocksStep(s: State, l: Label)
    requires TokenLocksHeld(s) && Enabled(s, l)
    ensures TokenLocksHeld(After(s, l))
  {
    hide LiveRefresh, RowHeld, WithRevoked;
  }

  lemma UserLocksStep(s: State, l: Label)
    requires UserLocksHeld(s) && Enabled(s, l)
    ensures UserLocksHeld(After(s, l))
  {
    hide LiveRefresh, RowHeld, WithRevoked;
  }

  lemma LocksStep(s: State, l: Label)
    requires LocksHeld(s) && Enabled(s, l)
    ensures LocksHeld(After(s, l))
  {
    hide After, Enabled, TokenLocksHeld, UserLocksHeld;
    TokenLocksStep(s, l);
    UserLocksStep(s, l);
  }

  /** In every run a request that has ended holds no lock. */
  lemma {:induction false} NoLockLeftBehind(s: State, ls: seq<Label>, s': State)
    requires LocksHeld(s) && Run(s, ls, s')
    ensures LocksHeld(s')
    decreases |ls|
  {
    if ls != [] {
      LocksStep(s, ls[0]);
      hide After, Enabled, LocksHeld;
      NoLockLeftBehind(After(s, ls[0]), ls[1..], s');
    }
  }

  /** A request that has passed its first look can be rolled back, and leaves password, token and sessions as they were. */
  lemma RollbackChangesNothing(s: State, t: TxId)
    requires LocksHeld(s) && t < |s.resets| && Admitted(s.resets[t].phase) && s.resets[t].phase != Committed
    ensures Enabled(s, Rollback(t))
    ensures var s' := After(s, Rollback(t)); s'.db == s.db && s'.done == s.done && s'.resets[t].phase == Aborted
    ensures t !in After(s, Rollback(t)).tokenLock.Values && t !in After(s, Rollback(t)).userLock.Values
  {
  }

  /** The revocation holds exactly the user's refresh tokens that were live when it ran. */
  lemma RevokeHoldsLive(s: State, t: TxId, id: nat)
    requires Enabled(s, Revoke(t))
    ensures RowHeld(After(s, Revoke(t)), id) <==>
      RowHeld(s, id) || (id < |s.db.refresh| && s.db.refresh[id].user == s.resets[t].phase.user && !s.db.refresh[id].revoked)
  {
    var s' := After(s, Revoke(t));
    assert s'.resets[t].phase.Revoked?;
    forall u | 0 <= u < |s.resets| && u != t ensures s'.resets[u] == s.resets[u] {}
  }

  /** A login that nothing interrupts gives the user one more live refresh token. */
  lemma LoginOpens(s: State, user: UserId)
    ensures exists s' ::
      && Run(s, [Login(user)] + [IssueRefresh(|s.openings|)], s')
      && s'.db == s.db.(refresh := s.db.refresh + [RefreshToken(user, false, |s.openings|)])
      && s'.openings == s.openings + [Opening(user, None, Issued)]
  {
    var s1 := After(s, Login(user));
    OneStep(s1, IssueRefresh(|s.openings|));
    Prepend(s, Login(user), [IssueRefresh(|s.openings|)], After(s1, IssueRefresh(|s.openings|)));
  }

  /** A refresh is found exactly with a live token; uninterrupted, it revokes that one and issues one for the same user. */
  lemma RefreshRotatesExactlyWhen(s: State, id: nat)
    ensures Enabled(s, FindRefresh(id)) <==> id < |s.db.refresh| && !s.db.refresh[id].revoked
    ensures Enabled(s, FindRefresh(id)) && !RowHeld(s, id) ==>
      exists s' ::
        && Run(s, [FindRefresh(id)] + ([RotateRefresh(|s.openings|)] + [IssueRefresh(|s.openings|)]), s')
        && s'.db == s.db.(refresh := s.db.refresh[id := s.db.refresh[id].(revoked := true)]
                                     + [RefreshToken(s.db.refresh[id].user, false, |s.openings|)])
        && s'.openings == s.openings + [Opening(s.db.refresh[id].user, Some(id), Issued)]
  {
    if Enabled(s, FindRefresh(id)) && !RowHeld(s, id) {
      var o := |s.openings|;
      var s1 := After(s, FindRefresh(id));
      assert !RowHeld(s1, id);
      var s2 := After(s1, RotateRefresh(o));
      OneStep(s2, IssueRefresh(o));
      Prepend(s1, RotateRefresh(o), [IssueRefresh(o)], After(s2, IssueRefresh(o)));
      Prepend(s, FindRefresh(id), [RotateRefresh(o)] + [IssueRefresh(o)], After(s2, IssueRefresh(o)));
    }
  }

  /** A row that an unfinished reset has written or found waits for it; the rest of the table does not. */
  lemma HeldRowsWait(s: State, id: nat, hash: Hash, o: nat)
    ensures Enabled(s, RevokeRefresh(id)) <==> id < |s.db.refresh| && !RowHeld(s, id)
    ensures Enabled(s, RetireToken(hash)) <==> hash in s.db.tokens && hash !in s.tokenLock
    ensures o < |s.openings| && s.openings[o].from == Some(id) ==>
      (Enabled(s, RotateRefresh(o)) <==> s.openings[o].phase == Checked && id < |s.db.refresh| && !RowHeld(s, id))
  {
  }

  /** A login or refresh that has issued its token, or been refused, takes no further step. */
  lemma OpeningEnds(s: State, l: Label, o: nat)
    requires Enabled(s, l) && o < |s.openings| && s.openings[o].phase in {Issued, Refused}
    ensures o < |After(s, l).openings| && After(s, l).openings[o] == s.openings[o]
  {
  }

  /** A link just requested serves its user until it expires, and one retired serves nobody. */
  lemma LinkServesUntil(s: State, l: Label, ls: seq<Label>, s': State, now: int)
    requires Enabled(s, l) && Run(After(s, l), ls, s')
    ensures l.RequestReset? ==>
      (Usable(After(s, l).db, l.hash, now) <==> now < l.expiresAt) && l.hash in s'.db.tokens
      && s'.db.tokens[l.hash].expiresAt == l.expiresAt && After(s, l).db.tokens[l.hash].user == l.user
    ensures l.RetireToken? ==> !Usable(s'.db, l.hash, now)
  {
    var s1 := After(s, l);
    if l.RequestReset? {
      TokenStaysInRun(s1, ls, s', l.hash);
    } else if l.RetireToken? {
      assert s1.db.tokens[l.hash].used;
      UsedForGood(s1, ls, s', l.hash);
    }
  }

  lemma {:induction false} UsedForGood(s: State, ls: seq<Label>, s': State, hash: Hash)
    requires Run(s, ls, s') && hash in s.db.tokens && s.db.tokens[hash].used
    ensures hash in s'.db.tokens && s'.db.tokens[hash].used
    decreases |ls|
  {
    if ls != [] {
      TokenStays(s, ls[0], hash);
      hide After, Enabled;
      UsedForGood(After(s, ls[0]), ls[1..], s', hash);
    }
  }

  lemma RefreshStays(s: State, l: Label, id: nat)
    requires Enabled(s, l) && id < |s.db.refresh| && s.db.refresh[id].revoked
    ensures id < |After(s, l).db.refresh| && After(s, l).db.refresh[id] == s.db.refresh[id]
  {
  }

  /** A refresh token once revoked, by a logout or a rotation, is revoked for good. */
  lemma {:induction false} RevokedForGood(s: State, ls: seq<Label>, s': State, id: nat)
    requires Run(s, ls, s') && id < |s.db.refresh| && s.db.refresh[id].revoked
    ensures id < |s'.db.refresh| && s'.db.refresh[id].revoked
    decreases |ls|
  {
    if ls != [] {
      RefreshStays(s, ls[0], id);
      hide After, Enabled;
      RevokedForGood(After(s, ls[0]), ls[1..], s', id);
    }
  }

  /** Logging out revokes the token it names and no other, and a refused login or refresh issues none. */
  lemma LogoutRevokesOne(s: State, l: Label, id: nat)
    requires Enabled(s, l) && id < |s.db.refresh|
    ensures l.RevokeRefresh? ==> After(s, l).db.refresh[id] == s.db.refresh[id].(revoked := s.db.refresh[id].revoked || id == l.id)
    ensures l.RefuseRefresh? ==> After(s, l).db == s.db && After(s, l).openings[l.opening].phase == Refused
  {
  }

  // --- when a reset closes every session ------------------------------------------------------

  /** Every live refresh token of the user comes from one of the logins and refreshes numbered `n` or later. */
  ghost predicate Closed(s: State, user: UserId, n: nat) {
    forall i :: 0 <= i < |s.db.refresh| && s.db.refresh[i].user == user && !s.db.refresh[i].revoked ==>
      s.db.refresh[i].opening >= n
  }

  /** None of the user's earlier logins and refreshes is still to issue its token. */
  ghost predicate NonePending(s: State, user: UserId, n: nat) {
    n <= |s.openings| && forall o :: 0 <= o < n && s.openings[o].user == user ==> !Pending(s.openings[o])
  }

  lemma {:induction false} StaysClosed(s: State, ls: seq<Label>, s': State, user: UserId, n: nat)
    requires Run(s, ls, s') && Closed(s, user, n) && NonePending(s, user, n)
    ensures Closed(s', user, n)
    decreases |ls|
  {
    if ls != [] {
      ClosedStep(s, ls[0], user, n);
      StaysClosed(After(s, ls[0]), ls[1..], s', user, n);
    }
  }

  lemma ClosedStep(s: State, l: Label, user: UserId, n: nat)
    requires Enabled(s, l) && Closed(s, user, n) && NonePending(s, user, n)
    ensures Closed(After(s, l), user, n) && NonePending(After(s, l), user, n)
  {
    hide RowHeld, LiveRefresh;
  }

  /** Some continuation ends with a live token of an earlier login or refresh. */
  ghost predicate CanReopen(s: State, user: UserId, n: nat) { exists ls, end :: Run(s, ls, end) && !Closed(end, user, n) }

  lemma OneStep(s: State, l: Label)
    requires Enabled(s, l)
    ensures Run(s, [l], After(s, l))
  {
    assert [l][1..] == [];
    assert Run(After(s, l), [], After(s, l));
  }

  lemma IssuedReopens(s: State, o: nat, user: UserId, n: nat)
    requires Enabled(s, IssueRefresh(o)) && o < n && s.openings[o].user == user
    ensures Run(s, [IssueRefresh(o)], After(s, IssueRefresh(o))) && !Closed(After(s, IssueRefresh(o)), user, n)
  {
    OneStep(s, IssueRefresh(o));
    assert After(s, IssueRefresh(o)).db.refresh[|s.db.refresh|] == RefreshToken(user, false, o);
  }

  /** An earlier login or refresh that has passed its check can still issue its token. */
  lemma PendingReopens(s: State, o: nat, user: UserId, n: nat)
    requires OpeningsOk(s) && o < n <= |s.openings| && s.openings[o].user == user && Pending(s.openings[o])
    requires s.openings[o].phase == Rotated ==> s.openings[o].from.Some?
    requires s.openings[o].from.Some? ==> !RowHeld(s, s.openings[o].from.value)
    ensures CanReopen(s, user, n)
  {
    hide RowHeld, Run, Closed;
    if s.openings[o].phase == Checked && s.openings[o].from.Some? {
      var s1 := After(s, RotateRefresh(o));
      IssuedReopens(s1, o, user, n);
      Prepend(s, RotateRefresh(o), [IssueRefresh(o)], After(s1, IssueRefresh(o)));
    } else {
      IssuedReopens(s, o, user, n);
    }
  }

  lemma Prepend(s: State, l: Label, ls: seq<Label>, end: State)
    requires Enabled(s, l) && Run(After(s, l), ls, end)
    ensures Run(s, [l] + ls, end)
  {
    assert ([l] + ls)[1..] == ls;
  }

  /** No refresh token of the user that the revocation did not meet is live. */
  ghost predicate NoLateToken(s: State, t: TxId)
    requires t < |s.resets| && s.resets[t].phase.Revoked?
  {
    forall i :: s.resets[t].phase.upto <= i < |s.db.refresh| && s.db.refresh[i].user == s.resets[t].phase.user ==>
      s.db.refresh[i].revoked
  }

  lemma ClosedByCommit(start: map<UserId, string>, s: State, t: TxId)
    requires Inv(start, s) && Enabled(s, Commit(t))
    ensures Closed(After(s, Commit(t)), s.resets[t].phase.user, |s.openings|) <==> NoLateToken(s, t)
  {
    hide DoneOk, TokensOnce;
    assert ResetOk(s, t);
    var s', user := After(s, Commit(t)), s.resets[t].phase.user;
    if Closed(s', user, |s.openings|) {
      forall i | s.resets[t].phase.upto <= i < |s.db.refresh| && s.db.refresh[i].user == user
        ensures s.db.refresh[i].revoked
      {
        assert s'.db.refresh[i].user == user;
      }
    }
  }

  lemma SnapshotIsHeldByUser(start: map<UserId, string>, s: State, t: TxId, id: nat)
    requires Inv(start, s) && Enabled(s, Commit(t)) && id < |s.db.refresh| && s.db.refresh[id].user == s.resets[t].phase.user
    ensures !RowHeld(After(s, Commit(t)), id)
  {
    hide DoneOk, TokensOnce;
    var s' := After(s, Commit(t));
    assert ResetOk(s, t);
    forall v | 0 <= v < |s'.resets| && s'.resets[v].phase.Revoked? ensures id !in s'.resets[v].phase.snapshot {
      assert ResetOk(s, v);
    }
  }

  lemma PendingAfterCommit(start: map<UserId, string>, s: State, t: TxId, o: nat)
    requires Inv(start, s) && Enabled(s, Commit(t))
    requires o < |s.openings| && s.openings[o].user == s.resets[t].phase.user && Pending(s.openings[o])
    ensures CanReopen(After(s, Commit(t)), s.resets[t].phase.user, |s.openings|)
  {
    hide ResetOk, DoneOk, TokensOnce, RowHeld, CanReopen;
    var s' := After(s, Commit(t));
    OpeningsStep(s, Commit(t));
    assert s'.openings == s.openings;
    if s.openings[o].from.Some? {
      SnapshotIsHeldByUser(start, s, t, s.openings[o].from.value);
    }
    PendingReopens(s', o, s.resets[t].phase.user, |s.openings|);
  }

  /**
    A reset closes every session for good exactly when, at its commit, the user
    has no live refresh token that the revocation did not meet, and no login or
    refresh that has passed its check and not yet issued its token.
   */
  lemma SessionsClosedExactlyWhen(s0: State, ls: seq<Label>, s: State, t: TxId)
    requires Initial(s0) && Run(s0, ls, s) && Enabled(s, Commit(t))
    ensures !CanReopen(After(s, Commit(t)), s.resets[t].phase.user, |s.openings|)
       <==> NoLateToken(s, t) && NonePending(s, s.resets[t].phase.user, |s.openings|)
  {
    RunKeepsInv(s0.db.passwords, s0, ls, s);
    ClosedByCommit(s0.db.passwords, s, t);
    hide Inv, NoLateToken, Closed, Run, CanReopen, Pending;
    var s', user, n := After(s, Commit(t)), s.resets[t].phase.user, |s.openings|;
    if !NonePending(s, user, n) {
      var o :| 0 <= o < n && s.openings[o].user == user && Pending(s.openings[o]);
      PendingAfterCommit(s0.db.passwords, s, t, o);
    } else if Closed(s', user, n) {
      NeverReopens(s', user, n);
    } else {
      OpenNow(s', user, n);
    }
  }

  lemma NeverReopens(s: State, user: UserId, n: nat)
    requires Closed(s, user, n) && NonePending(s, user, n)
    ensures !CanReopen(s, user, n)
  {
    hide Run, Closed, NonePending;
    forall ls, end | Run(s, ls, end) ensures Closed(end, user, n) {
      StaysClosed(s, ls, end, user, n);
    }
  }

  lemma OpenNow(s: State, user: UserId, n: nat)
    requires !Closed(s, user, n)
    ensures CanReopen(s, user, n)
  {
    hide Closed;
    assert Run(s, [], s);
  }
}

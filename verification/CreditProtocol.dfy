/**
  assertCreditLimit as concurrent transactions at READ COMMITTED (credit.service.ts).

  Each transaction locks the customer row, reads the limit, then the open
  invoices, then the uninvoiced orders (two separate statements, so another
  commit may fall between them), compares, and finally commits one write.
  Outside a transaction the code skips the lock; `inTx` says which.
 */
module CreditProtocol {
  import opened Prelude
  import opened Credit

  type TxId = nat

  /** The write a caller makes once assertCreditLimit has returned. */
  datatype Write =
    | SetStatus(order: Id, status: OrderStatus)
    | SetTotal(order: Id, total: nat)
    | CreateInvoice(invoice: Invoice)

  datatype Phase =
    | Start
    | Locked
    | HasLimit(limit: int)
    | HasInvoices(limit: int, invoiceTotal: int)
    | Passed
    | Committed
    | Aborted

  datatype Tx = Tx(customer: Id, amount: int, exclude: Option<Id>, write: Write, inTx: bool, phase: Phase)

  datatype State = State(db: Db, lock: map<Id, TxId>, txs: seq<Tx>)

  datatype Label =
    | Lock(tx: TxId)
    | ReadLimit(tx: TxId)
    | ReadInvoices(tx: TxId)
    | ReadOrders(tx: TxId)
    | Commit(tx: TxId)
    | Abort(tx: TxId)
    | Other(db: Db)
    | SetInvoice(invoice: Id, status: InvoiceStatus)
    | ChangeLimit(customer: Id, limit: Option<int>)

  function Written(db: Db, w: Write): Db {
    match w
    case SetStatus(o, status) => if o < |db.orders| then SetOrder(db, o, db.orders[o].(status := status)) else db
    case SetTotal(o, total) => if o < |db.orders| then SetOrder(db, o, db.orders[o].(total := total)) else db
    case CreateInvoice(inv) => AddInvoice(db, inv)
  }

  function Release(lock: map<Id, TxId>, t: TxId): map<Id, TxId> {
    map c | c in lock && lock[c] != t :: lock[c]
  }

  function SetPhase(s: State, t: TxId, phase: Phase): State
    requires t < |s.txs|
  {
    s.(txs := s.txs[t := s.txs[t].(phase := phase)])
  }

  function Ended(s: State, t: TxId, phase: Phase): State
    requires t < |s.txs|
  {
    SetPhase(s, t, phase).(lock := Release(s.lock, t))
  }

  /**
    Which step may happen next. `SetInvoice` and `ChangeLimit` take no credit
    check and can raise an exposure or lower a limit; `Other` is any commit that
    does neither. A limit change waits for the customer's row lock.
   */
  ghost predicate Enabled(s: State, l: Label) {
    match l
    case Lock(t) => t < |s.txs| && s.txs[t].phase == Start && s.txs[t].inTx && s.txs[t].customer !in s.lock
    case ReadLimit(t) => t < |s.txs| && s.txs[t].phase == if s.txs[t].inTx then Locked else Start
    case ReadInvoices(t) => t < |s.txs| && s.txs[t].phase.HasLimit?
    case ReadOrders(t) => t < |s.txs| && s.txs[t].phase.HasInvoices?
    case Commit(t) => t < |s.txs| && s.txs[t].phase == Passed
    case Abort(t) => t < |s.txs| && s.txs[t].phase !in {Committed, Aborted}
    case Other(db') => NonRaising(s.db, db')
    case SetInvoice(k, _) => k < |s.db.invoices|
    case ChangeLimit(c, _) => c < |s.db.customers| && c !in s.lock
  }

  function After(s: State, l: Label): State
    requires Enabled(s, l)
  {
    match l
    case Lock(t) =>
      var c := s.txs[t].customer;
      if c < |s.db.customers| then SetPhase(s, t, Locked).(lock := s.lock[c := t])
      else SetPhase(s, t, Aborted)
    case ReadLimit(t) =>
      var c := s.txs[t].customer;
      if c >= |s.db.customers| then Ended(s, t, Aborted)
      else if Limit(s.db, c) <= 0 then SetPhase(s, t, Passed)
      else SetPhase(s, t, HasLimit(Limit(s.db, c)))
    case ReadInvoices(t) =>
      SetPhase(s, t, HasInvoices(s.txs[t].phase.limit, OpenInvoiceTotal(s.db, s.txs[t].customer)))
    case ReadOrders(t) =>
      var tx := s.txs[t];
      var currentTotal := tx.phase.invoiceTotal + OpenOrderTotal(s.db, tx.customer, tx.exclude);
      if currentTotal + tx.amount > tx.phase.limit then Ended(s, t, Aborted) else SetPhase(s, t, Passed)
    case Commit(t) => Ended(s, t, Committed).(db := Written(s.db, s.txs[t].write))
    case Abort(t) => Ended(s, t, Aborted)
    case Other(db') => s.(db := db')
    case SetInvoice(k, status) => s.(db := SetInvoiceStatus(s.db, k, status))
    case ChangeLimit(c, limit) =>
      s.(db := s.db.(customers := s.db.customers[c := s.db.customers[c].(creditLimit := limit)]))
  }

  // --- what the callers owe ----------------------------------------------------

  /** The write concerns the customer's own order that the check left out, or a live invoice for it. */
  predicate Targets(db: Db, tx: Tx) {
    match tx.write
    case SetStatus(o, _) => o < |db.orders| && db.orders[o].customerId == tx.customer && tx.exclude == Some(o)
    case SetTotal(o, _) => o < |db.orders| && db.orders[o].customerId == tx.customer && tx.exclude == Some(o)
    case CreateInvoice(inv) => inv.customerId == tx.customer && IsLive(inv) && tx.exclude == inv.orderId
  }

  /** What the write makes the order, or the new invoice, weigh in its customer's exposure. */
  function Weight(db: Db, w: Write): nat {
    match w
    case SetStatus(o, status) =>
      if o < |db.orders| && status in ORDER_EXPOSURE_STATUSES && !HasLiveInvoice(db, o) then db.orders[o].total else 0
    case SetTotal(o, total) =>
      if o < |db.orders| && db.orders[o].status in ORDER_EXPOSURE_STATUSES && !HasLiveInvoice(db, o) then total else 0
    case CreateInvoice(inv) => if IsOpen(inv) then inv.totalAmount else 0
  }

  /** The amount that was checked bounds the weight, as things stand when the write lands. */
  predicate AmountCovers(db: Db, tx: Tx) { Targets(db, tx) && Weight(db, tx.write) <= tx.amount }

  /** The weight still fits what the limit leaves, as things stand when the write lands. */
  predicate Fits(db: Db, tx: Tx) {
    tx.customer < |db.customers| && Limit(db, tx.customer) > 0 ==>
      Weight(db, tx.write) <= Limit(db, tx.customer) - Exposure(db, tx.customer, tx.exclude)
  }

  /** What the new status adds to each customer fits what its limit leaves. */
  ghost predicate StatusFits(db: Db, k: Id, status: InvoiceStatus)
    requires k < |db.invoices|
  {
    forall c: Id :: c < |db.customers| && Limit(db, c) > 0 ==> Rise(db, k, status, c) <= Limit(db, c) - Exposure(db, c)
  }

  /** The new limit is none, or leaves room for the exposure there is. */
  predicate LimitFits(db: Db, c: Id, limit: Option<int>) {
    limit == None || limit.value <= 0 || Exposure(db, c) <= limit.value
  }

  /** What every caller of the check keeps to, the row lock and its own order or invoice; the unchecked steps take no credit. */
  ghost predicate Locking(s: State, l: Label) {
    match l
    case Commit(t) => t < |s.txs| && s.txs[t].inTx && Targets(s.db, s.txs[t])
    case SetInvoice(k, status) => k < |s.db.invoices| && NonRaising(s.db, SetInvoiceStatus(s.db, k, status))
    case ChangeLimit(c, limit) => LimitFits(s.db, c, limit)
    case _ => true
  }

  ghost predicate Disciplined(s: State, l: Label) {
    Locking(s, l) && (l.Commit? ==> Fits(s.db, s.txs[l.tx]))
  }

  /** `s'` is reached from `s` by the steps `ls`. */
  ghost predicate Run(s: State, ls: seq<Label>, s': State)
    decreases |ls|
  {
    if ls == [] then s' == s
    else Enabled(s, ls[0]) && Run(After(s, ls[0]), ls[1..], s')
  }

  ghost predicate DisciplinedRun(s: State, ls: seq<Label>)
    decreases |ls|
  {
    ls == [] || (Enabled(s, ls[0]) && Disciplined(s, ls[0]) && DisciplinedRun(After(s, ls[0]), ls[1..]))
  }

  ghost predicate WithinLimit(db: Db, c: Id) {
    c < |db.customers| && Limit(db, c) > 0 ==> Exposure(db, c) <= Limit(db, c)
  }

  ghost predicate AllWithinLimit(db: Db) { forall c: Id :: WithinLimit(db, c) }

  ghost predicate Initial(s: State) {
    && s.lock == map[]
    && AllWithinLimit(s.db)
    && forall t :: 0 <= t < |s.txs| ==> s.txs[t].phase == Start && s.txs[t].inTx
  }

  // --- the invariant --------------------------------------------------------------

  ghost predicate Holds(s: State, t: TxId)
    requires t < |s.txs|
  {
    var c := s.txs[t].customer;
    c < |s.db.customers| && c in s.lock && s.lock[c] == t
  }

  ghost predicate TxOk(s: State, t: TxId)
    requires t < |s.txs|
  {
    var tx := s.txs[t];
    tx.inTx &&
    match tx.phase
    case Start => true
    case Locked => Holds(s, t)
    case HasLimit(limit) => Holds(s, t) && limit == Limit(s.db, tx.customer)
    case HasInvoices(limit, invoiceTotal) =>
      Holds(s, t) && limit == Limit(s.db, tx.customer) && OpenInvoiceTotal(s.db, tx.customer) <= invoiceTotal
    case Passed =>
      && Holds(s, t)
      && (Limit(s.db, tx.customer) > 0 ==>
          Exposure(s.db, tx.customer, tx.exclude) + tx.amount <= Limit(s.db, tx.customer))
    case Committed => true
    case Aborted => true
  }

  ghost predicate Inv(s: State) {
    && AllWithinLimit(s.db)
    && forall t :: 0 <= t < |s.txs| ==> TxOk(s, t)
  }

  /** The write adds exactly its weight to what its customer had without the order, and nothing to others. */
  lemma WriteEffect(db: Db, tx: Tx, c: Id, exclude: Option<Id>)
    requires Targets(db, tx)
    ensures Written(db, tx.write).customers == db.customers
    ensures Exposure(Written(db, tx.write), tx.customer) == Exposure(db, tx.customer, tx.exclude) + Weight(db, tx.write)
    ensures c != tx.customer ==> OpenInvoiceTotal(Written(db, tx.write), c) <= OpenInvoiceTotal(db, c)
    ensures c != tx.customer ==> Exposure(Written(db, tx.write), c, exclude) <= Exposure(db, c, exclude)
  {
    var db' := Written(db, tx.write);
    match tx.write
    case CreateInvoice(inv) =>
      InvoiceReplacesOrder(db, inv, c, exclude);
      InvoiceReplacesOrder(db, inv, tx.customer, None);
      AddInvoiceOpenTotal(db, inv, c);
      if inv.orderId.Some? {
        ExcludeDrops(db, tx.customer, inv.orderId.value);
      }
    case SetStatus(o, _) => OrderWriteEffect(db, db', tx, o, c, exclude);
    case SetTotal(o, _) => OrderWriteEffect(db, db', tx, o, c, exclude);
  }

  lemma ExcludeDrops(db: Db, c: Id, o: Id)
    ensures OpenOrderTotal(db, c, Some(o))
         == OpenOrderTotal(db, c, None) - (if o < |db.orders| then OrderShare(db, o, c, None, None) else 0)
  {
    var xs, ys := OrderShares(db, c, None, None), OrderShares(db, c, Some(o), None);
    if o < |db.orders| {
      TotalPoint(xs, ys, o);
    } else {
      assert xs == ys;
    }
  }

  lemma OrderWriteEffect(db: Db, db': Db, tx: Tx, o: Id, c: Id, exclude: Option<Id>)
    requires o < |db.orders| == |db'.orders| && db' == SetOrder(db, o, db'.orders[o])
    requires db.orders[o].customerId == db'.orders[o].customerId == tx.customer && tx.exclude == Some(o)
    ensures Exposure(db', tx.customer) == Exposure(db, tx.customer, tx.exclude) + OrderShare(db', o, tx.customer, None, None)
    ensures HasLiveInvoice(db', o) == HasLiveInvoice(db, o)
    ensures c != tx.customer ==> OpenInvoiceTotal(db', c) <= OpenInvoiceTotal(db, c)
    ensures c != tx.customer ==> Exposure(db', c, exclude) <= Exposure(db, c, exclude)
  {
    assert forall x: Id :: HasLiveInvoice(db', x) == HasLiveInvoice(db, x);
    assert InvoiceShares(db', c, None) == InvoiceShares(db, c, None);
    assert InvoiceShares(db', tx.customer, None) == InvoiceShares(db, tx.customer, None);
    OrderSharesAt(db, db', o, tx.customer, None);
    ExcludeDrops(db, tx.customer, o);
    OrderSharesAt(db, db', o, c, exclude);
  }

  /** Any step whose database change raises nobody but `except` keeps the others' checks valid. */
  lemma OthersStayOk(s: State, s': State, t: TxId)
    requires t < |s.txs| == |s'.txs| && s'.txs[t] == s.txs[t] && TxOk(s, t)
    requires s'.db.customers == s.db.customers
    requires Holds(s, t) ==> Holds(s', t)
    requires OpenInvoiceTotal(s'.db, s.txs[t].customer) <= OpenInvoiceTotal(s.db, s.txs[t].customer) || !Holds(s, t)
    requires Exposure(s'.db, s.txs[t].customer, s.txs[t].exclude) <= Exposure(s.db, s.txs[t].customer, s.txs[t].exclude) || !Holds(s, t)
    ensures TxOk(s', t)
  {
  }

  lemma CommitKeepsInv(s: State, t: TxId)
    requires Inv(s) && Enabled(s, Commit(t)) && Disciplined(s, Commit(t))
    ensures Inv(After(s, Commit(t)))
  {
    var s' := After(s, Commit(t));
    var tx := s.txs[t];
    assert TxOk(s, t);
    WriteEffect(s.db, tx, tx.customer, None);
    forall c: Id ensures WithinLimit(s'.db, c) {
      WriteEffect(s.db, tx, c, None);
      assert WithinLimit(s.db, c);
    }
    forall u | 0 <= u < |s.txs| ensures TxOk(s', u) {
      assert TxOk(s, u);
      if u != t {
        WriteEffect(s.db, tx, s.txs[u].customer, s.txs[u].exclude);
        OthersStayOk(s, s', u);
      }
    }
  }

  lemma ReadKeepsInv(s: State, l: Label)
    requires Inv(s) && Enabled(s, l)
    requires l.Lock? || l.ReadLimit? || l.ReadInvoices? || l.ReadOrders? || l.Abort?
    ensures Inv(After(s, l))
  {
    var s' := After(s, l);
    assert TxOk(s, l.tx);
    forall u | 0 <= u < |s.txs| ensures TxOk(s', u) {
      assert TxOk(s, u);
      if u != l.tx {
        OthersStayOk(s, s', u);
      }
    }
    assert forall c: Id :: WithinLimit(s'.db, c) == WithinLimit(s.db, c);
  }

  lemma OtherKeepsInv(s: State, db': Db)
    requires Inv(s) && NonRaising(s.db, db')
    ensures Inv(After(s, Other(db')))
  {
    var s' := After(s, Other(db'));
    forall u | 0 <= u < |s.txs| ensures TxOk(s', u) {
      assert TxOk(s, u);
      OthersStayOk(s, s', u);
    }
    forall c: Id ensures WithinLimit(db', c) {
      assert WithinLimit(s.db, c);
    }
  }

  lemma ChangeLimitKeepsInv(s: State, c: Id, limit: Option<int>)
    requires Inv(s) && Enabled(s, ChangeLimit(c, limit)) && Disciplined(s, ChangeLimit(c, limit))
    ensures Inv(After(s, ChangeLimit(c, limit)))
  {
    var s' := After(s, ChangeLimit(c, limit));
    SameRowsSameExposure(s.db, s'.db);
    forall u | 0 <= u < |s.txs| ensures TxOk(s', u) {
      assert TxOk(s, u);
    }
    forall x: Id ensures WithinLimit(s'.db, x) {
      assert WithinLimit(s.db, x);
    }
  }

  lemma SameRowsSameExposure(db: Db, db': Db)
    requires db'.orders == db.orders && db'.invoices == db.invoices
    ensures forall c: Id :: OpenInvoiceTotal(db', c) == OpenInvoiceTotal(db, c)
    ensures forall c: Id, exclude: Option<Id> :: Exposure(db', c, exclude) == Exposure(db, c, exclude)
  {
    assert forall o: Id :: HasLiveInvoice(db', o) == HasLiveInvoice(db, o);
    forall c: Id ensures OpenInvoiceTotal(db', c) == OpenInvoiceTotal(db, c) {
      assert InvoiceShares(db', c, None) == InvoiceShares(db, c, None);
    }
    forall c: Id, exclude: Option<Id> ensures Exposure(db', c, exclude) == Exposure(db, c, exclude) {
      OrderSharesSame(db, db', c, exclude);
    }
  }

  lemma StepKeepsInv(s: State, l: Label)
    requires Inv(s) && Enabled(s, l) && Disciplined(s, l)
    ensures Inv(After(s, l))
  {
    match l
    case Commit(t) => CommitKeepsInv(s, t);
    case Other(db') => OtherKeepsInv(s, db');
    case SetInvoice(k, status) => OtherKeepsInv(s, SetInvoiceStatus(s.db, k, status));
    case ChangeLimit(c, limit) => ChangeLimitKeepsInv(s, c, limit);
    case _ => ReadKeepsInv(s, l);
  }

  // --- main results ------------------------------------------------------------------

  /** A write covered by the amount its transaction checked still fits when it lands. */
  lemma CoveredFits(s: State, t: TxId)
    requires Inv(s) && Enabled(s, Commit(t)) && AmountCovers(s.db, s.txs[t])
    ensures Fits(s.db, s.txs[t])
  {
    hide Exposure, Weight, Limit;
    assert TxOk(s, t);
  }

  ghost predicate CoveredRun(s: State, ls: seq<Label>)
    decreases |ls|
  {
    ls == [] ||
    (Enabled(s, ls[0]) && Locking(s, ls[0]) && (ls[0].Commit? ==> AmountCovers(s.db, s.txs[ls[0].tx]))
     && CoveredRun(After(s, ls[0]), ls[1..]))
  }

  lemma {:induction false} CoveredIsDisciplined(s: State, ls: seq<Label>)
    requires Inv(s) && CoveredRun(s, ls)
    ensures DisciplinedRun(s, ls)
    decreases |ls|
  {
    hide Inv, Locking, AmountCovers, Fits, After, Enabled;
    if ls != [] {
      if ls[0].Commit? {
        CoveredFits(s, ls[0].tx);
      }
      StepKeepsInv(s, ls[0]);
      CoveredIsDisciplined(After(s, ls[0]), ls[1..]);
    }
  }

  lemma {:induction false} DisciplinedRunKeepsInv(s: State, ls: seq<Label>, s': State)
    requires Inv(s) && Run(s, ls, s') && DisciplinedRun(s, ls)
    ensures Inv(s')
    decreases |ls|
  {
    if ls != [] {
      StepKeepsInv(s, ls[0]);
      DisciplinedRunKeepsInv(After(s, ls[0]), ls[1..], s');
    }
  }

  /**
    Credit safety. Whatever the interleaving, if every committing transaction
    took the row lock and passed with an amount that covers its write, no
    customer with a positive limit is ever above it.
   */
  lemma CreditSafety(s: State, ls: seq<Label>, s': State)
    requires Inv(s) && Run(s, ls, s') && CoveredRun(s, ls)
    ensures Inv(s') && AllWithinLimit(s'.db)
  {
    CoveredIsDisciplined(s, ls);
    DisciplinedRunKeepsInv(s, ls, s');
  }

  lemma CreditSafetyFromStart(s: State, ls: seq<Label>, s': State)
    requires Initial(s) && Run(s, ls, s') && CoveredRun(s, ls)
    ensures AllWithinLimit(s'.db)
  {
    assert forall t :: 0 <= t < |s.txs| ==> TxOk(s, t);
    CreditSafety(s, ls, s');
  }

  /** Any run in which each commit writes the order or invoice its check was about, locked or not. */
  ghost predicate TargetingRun(s: State, ls: seq<Label>)
    decreases |ls|
  {
    ls == [] ||
    (Enabled(s, ls[0]) && (ls[0].Commit? ==> Targets(s.db, s.txs[ls[0].tx])) && TargetingRun(After(s, ls[0]), ls[1..]))
  }

  /** The step's own comparison of totals with limits, as things stand when it happens. */
  ghost predicate StepFits(s: State, l: Label)
    requires Enabled(s, l)
  {
    match l
    case Commit(t) => Fits(s.db, s.txs[t])
    case SetInvoice(k, status) => StatusFits(s.db, k, status)
    case ChangeLimit(c, limit) => LimitFits(s.db, c, limit)
    case _ => true
  }

  ghost predicate StepsFit(s: State, ls: seq<Label>)
    requires TargetingRun(s, ls)
    decreases |ls|
  {
    ls == [] || (StepFits(s, ls[0]) && StepsFit(After(s, ls[0]), ls[1..]))
  }

  /** No state of the run has a customer above a positive limit. */
  ghost predicate NeverExceeds(s: State, ls: seq<Label>)
    requires TargetingRun(s, ls)
    decreases |ls|
  {
    AllWithinLimit(s.db) && (ls == [] || NeverExceeds(After(s, ls[0]), ls[1..]))
  }

  /** One commit: the customer is within its limit afterwards exactly when the weight fits what the limit left. */
  lemma CommitKeepsLimitExactlyWhen(s: State, t: TxId)
    requires Enabled(s, Commit(t)) && Targets(s.db, s.txs[t])
    ensures WithinLimit(After(s, Commit(t)).db, s.txs[t].customer) <==> Fits(s.db, s.txs[t])
  {
    hide Exposure, Weight, Targets, Written;
    WriteEffect(s.db, s.txs[t], s.txs[t].customer, None);
  }

  lemma CommitFits(s: State, t: TxId)
    requires AllWithinLimit(s.db) && Enabled(s, Commit(t)) && Targets(s.db, s.txs[t])
    ensures AllWithinLimit(After(s, Commit(t)).db) <==> Fits(s.db, s.txs[t])
  {
    hide Fits, Targets, Exposure;
    CommitKeepsLimitExactlyWhen(s, t);
    var tx := s.txs[t];
    forall c: Id | c != tx.customer ensures WithinLimit(Written(s.db, tx.write), c) {
      WriteEffect(s.db, tx, c, None);
      assert WithinLimit(s.db, c);
    }
  }

  lemma StatusKeepsLimitsExactlyWhen(db: Db, k: Id, status: InvoiceStatus)
    requires k < |db.invoices|
    ensures AllWithinLimit(SetInvoiceStatus(db, k, status)) <==> StatusFits(db, k, status)
  {
    hide Exposure, Rise;
    var db' := SetInvoiceStatus(db, k, status);
    forall c: Id ensures WithinLimit(db', c) <==>
      (c < |db.customers| && Limit(db, c) > 0 ==> Rise(db, k, status, c) <= Limit(db, c) - Exposure(db, c))
    {
      StatusEffect(db, k, status, c);
    }
  }

  lemma LimitKeepsLimitsExactlyWhen(s: State, c: Id, limit: Option<int>)
    requires AllWithinLimit(s.db) && Enabled(s, ChangeLimit(c, limit))
    ensures AllWithinLimit(After(s, ChangeLimit(c, limit)).db) <==> LimitFits(s.db, c, limit)
  {
    hide Exposure;
    var db' := After(s, ChangeLimit(c, limit)).db;
    SameRowsSameExposure(s.db, db');
    forall x: Id | x != c ensures WithinLimit(db', x) {
      assert WithinLimit(s.db, x);
    }
    assert WithinLimit(db', c) <==> LimitFits(s.db, c, limit);
  }

  /** From limits that hold, one step of any kind keeps them exactly when it fits. */
  lemma StepKeepsLimitsExactlyWhen(s: State, l: Label)
    requires AllWithinLimit(s.db) && Enabled(s, l) && (l.Commit? ==> Targets(s.db, s.txs[l.tx]))
    ensures AllWithinLimit(After(s, l).db) <==> StepFits(s, l)
  {
    hide Fits, StatusFits, LimitFits, Targets, Exposure;
    match l
    case Commit(t) => CommitFits(s, t);
    case SetInvoice(k, status) => StatusKeepsLimitsExactlyWhen(s.db, k, status);
    case ChangeLimit(c, limit) => LimitKeepsLimitsExactlyWhen(s, c, limit);
    case Other(db') =>
      forall c: Id ensures WithinLimit(db', c) {
        assert WithinLimit(s.db, c);
      }
    case _ =>
  }

  /**
    Credit safety, exactly. In every interleaving of transactions and unchecked
    steps, no customer is ever above a positive limit if and only if each step
    fits at its own moment: a write weighs no more than the limit leaves beside
    the rest of the exposure, an invoice's new status adds no more than the limit
    leaves, and a new limit is no lower than the exposure.
   */
  lemma {:induction false} SafeExactlyWhen(s: State, ls: seq<Label>)
    requires AllWithinLimit(s.db) && TargetingRun(s, ls)
    ensures NeverExceeds(s, ls) <==> StepsFit(s, ls)
    decreases |ls|
  {
    if ls != [] {
      StepKeepsLimitsExactlyWhen(s, ls[0]);
      hide After, Enabled, StepFits, AllWithinLimit, Targets;
      if StepFits(s, ls[0]) {
        SafeExactlyWhen(After(s, ls[0]), ls[1..]);
      }
    }
  }

  /** An order of 80 billed at 50, and an approved order of 40, against a limit of 100. */
  function Underbilled(): Db {
    Db([Customer(Some(100), None)], [Order(0, 0, Facturado, 80), Order(0, 0, OrdenFacturacion, 40)],
       [Invoice(0, 0, Some(0), Emitida, 50)])
  }

  /** Annulling the bill, which nothing checks, takes the customer from 90 to 120. */
  lemma AnnulExceeds(db: Db, k: Id)
    requires db == Underbilled() && k == 0
    ensures AllWithinLimit(db) && Exposure(db, 0) == 90
    ensures Exposure(SetInvoiceStatus(db, k, Anulada), 0) == 120 && !StatusFits(db, k, Anulada)
  {
    assert db.invoices[k].orderId == Some(0) && IsLive(db.invoices[k]);
    assert HasLiveInvoice(db, 0) && !HasLiveInvoice(db, 1);
    forall c: Id ensures Exposure(db, c) == if c == 0 then 90 else 0 {
      UnderbilledSums(db, c);
    }
    StatusLive(db, k, Anulada, 0);
    assert !HasLiveInvoice(SetInvoiceStatus(db, k, Anulada), 0);
    StatusEffect(db, k, Anulada, 0);
    assert Rise(db, k, Anulada, 0) == 30;
  }

  lemma UnderbilledSums(db: Db, c: Id)
    requires db == Underbilled() && HasLiveInvoice(db, 0) && !HasLiveInvoice(db, 1)
    ensures Exposure(db, c) == if c == 0 then 90 else 0
  {
    var x, y, z := OrderShare(db, 0, c, None, None), OrderShare(db, 1, c, None, None), InvoiceShare(db.invoices[0], c, None);
    assert OrderShares(db, c, None, None) == [] + [x] + [y];
    assert InvoiceShares(db, c, None) == [] + [z];
    TotalAppend([] + [x], y);
    TotalAppend([], x);
    TotalAppend([], z);
  }

  lemma {:induction false} RunConcat(s: State, ls: seq<Label>, mid: State, ms: seq<Label>, end: State)
    requires Run(s, ls, mid) && Run(mid, ms, end)
    ensures Run(s, ls + ms, end)
    decreases |ls|
  {
    if ls == [] {
      assert ls + ms == ms;
    } else {
      RunConcat(After(s, ls[0]), ls[1..], mid, ms, end);
      assert (ls + ms)[1..] == ls[1..] + ms;
    }
  }

  lemma OneStep(s: State, l: Label)
    requires Enabled(s, l)
    ensures Run(s, [l], After(s, l))
  {
    assert [l][1..] == [];
    assert Run(After(s, l), [], After(s, l));
  }

  /** The statements of assertCreditLimit up to the limit; the lock only inside a transaction. */
  function Look(t: TxId, inTx: bool): seq<Label> { (if inTx then [Lock(t)] else []) + [ReadLimit(t)] }

  /** All of them, as a positive limit demands. */
  function Check(t: TxId, inTx: bool): seq<Label> { Look(t, inTx) + [ReadInvoices(t)] + [ReadOrders(t)] }

  predicate NoLimit(db: Db, c: Id)
    requires c < |db.customers|
  {
    db.customers[c].creditLimit == None || db.customers[c].creditLimit.value <= 0
  }

  /** What the check is for: the customer has no limit, or its limit holds the exposure and the amount. */
  predicate Passes(db: Db, tx: Tx)
    requires tx.customer < |db.customers|
  {
    NoLimit(db, tx.customer) || Exposure(db, tx.customer, tx.exclude) + tx.amount <= db.customers[tx.customer].creditLimit.value
  }

  /** The statements that run when nothing comes between them. */
  function CheckOf(s: State, t: TxId): seq<Label>
    requires t < |s.txs| && s.txs[t].customer < |s.db.customers|
  {
    if NoLimit(s.db, s.txs[t].customer) then Look(t, s.txs[t].inTx) else Check(t, s.txs[t].inTx)
  }

  /** Where they leave the state. */
  function Checked(s: State, t: TxId): State
    requires t < |s.txs| && s.txs[t].customer < |s.db.customers|
  {
    var tx := s.txs[t];
    var s' := if tx.inTx then s.(lock := s.lock[tx.customer := t]) else s;
    if Passes(s.db, tx) then SetPhase(s', t, Passed) else Ended(s', t, Aborted)
  }

  ghost predicate Ready(s: State, t: TxId) {
    && t < |s.txs| && s.txs[t].phase == Start
    && s.txs[t].customer < |s.db.customers| && s.txs[t].customer !in s.lock
  }

  lemma LookAlone(s: State, t: TxId) returns (s': State)
    requires Ready(s, t)
    ensures Run(s, Look(t, s.txs[t].inTx), s')
    ensures var tx := s.txs[t];
      s' == SetPhase(
        if tx.inTx then s.(lock := s.lock[tx.customer := t]) else s, t,
        if NoLimit(s.db, tx.customer) then Passed else HasLimit(s.db.customers[tx.customer].creditLimit.value))
  {
    var s1 := s;
    if s.txs[t].inTx {
      s1 := After(s, Lock(t));
      OneStep(s, Lock(t));
    }
    s' := After(s1, ReadLimit(t));
    OneStep(s1, ReadLimit(t));
    RunConcat(s, if s.txs[t].inTx then [Lock(t)] else [], s1, [ReadLimit(t)], s');
  }

  /**
    A check that is not interleaved lets the write through exactly when the
    customer has no positive limit or the limit holds exposure and amount.
   */
  lemma CheckAloneIsExact(s: State, t: TxId)
    requires Ready(s, t)
    ensures Run(s, CheckOf(s, t), Checked(s, t))
    ensures Checked(s, t).txs[t].phase == if Passes(s.db, s.txs[t]) then Passed else Aborted
  {
    var look := Look(t, s.txs[t].inTx);
    var s1 := LookAlone(s, t);
    hide Look;
    if NoLimit(s.db, s.txs[t].customer) {
      assert s1 == Checked(s, t);
    } else {
      var s2 := After(s1, ReadInvoices(t));
      var s3 := After(s2, ReadOrders(t));
      OneStep(s1, ReadInvoices(t));
      OneStep(s2, ReadOrders(t));
      RunConcat(s, look, s1, [ReadInvoices(t)], s2);
      RunConcat(s, look + [ReadInvoices(t)], s2, [ReadOrders(t)], s3);
      assert s3 == Checked(s, t);
    }
  }

  /** A customer that does not exist fails the first statement. */
  lemma UnknownCustomerAborts(s: State, t: TxId)
    requires t < |s.txs| && s.txs[t].phase == Start && s.txs[t].customer >= |s.db.customers| && t !in s.lock.Values
    requires s.txs[t].customer !in s.lock
    ensures Run(s, if s.txs[t].inTx then [Lock(t)] else [ReadLimit(t)], SetPhase(s, t, Aborted))
  {
    var l := if s.txs[t].inTx then Lock(t) else ReadLimit(t);
    OneStep(s, l);
    assert Release(s.lock, t) == s.lock;
  }

  /** The whole transaction, run alone: whatever the limit, a check that passes ends in its write and leaves no lock. */
  lemma CommitAlone(s: State, t: TxId, s': State)
    requires Ready(s, t) && t !in s.lock.Values && Passes(s.db, s.txs[t])
    requires s' == SetPhase(s, t, Committed).(db := Written(s.db, s.txs[t].write))
    ensures Run(s, CheckOf(s, t) + [Commit(t)], s')
  {
    hide CheckOf;
    CheckAloneIsExact(s, t);
    OneStep(Checked(s, t), Commit(t));
    RunConcat(s, CheckOf(s, t), Checked(s, t), [Commit(t)], After(Checked(s, t), Commit(t)));
    assert Release(Checked(s, t).lock, t) == s.lock;
    assert After(Checked(s, t), Commit(t)) == s';
  }

  // --- locks and writes ----------------------------------------------------------------

  predicate InProgress(p: Phase) { p != Start && p != Committed && p != Aborted }

  /** Every row lock is held by a transaction of that customer that has not ended. */
  ghost predicate LocksHeld(s: State) {
    forall c :: c in s.lock ==>
      s.lock[c] < |s.txs| && s.txs[s.lock[c]].customer == c && s.txs[s.lock[c]].inTx && InProgress(s.txs[s.lock[c]].phase)
  }

  lemma LocksStep(s: State, l: Label)
    requires LocksHeld(s) && Enabled(s, l)
    ensures LocksHeld(After(s, l))
  {
    hide Written, OpenInvoiceTotal, OpenOrderTotal, NonRaising, SetInvoiceStatus, Limit;
  }

  /** In every run a transaction that has ended holds no lock, so no customer stays locked behind it. */
  lemma {:induction false} NoLockLeftBehind(s: State, ls: seq<Label>, s': State)
    requires LocksHeld(s) && Run(s, ls, s')
    ensures LocksHeld(s')
    decreases |ls|
  {
    if ls != [] {
      LocksStep(s, ls[0]);
      hide After, Enabled, LocksHeld;
      NoLockLeftBehind(After(s, ls[0]), ls[1..], s');
    }
  }

  /** A transaction can abort at any moment before its end; it then holds no lock and has written nothing. */
  lemma AbortFrees(s: State, t: TxId)
    requires t < |s.txs|
    ensures Enabled(s, Abort(t)) <==> Progress(s.txs[t].phase) < 5
    ensures Enabled(s, Abort(t)) ==>
      After(s, Abort(t)).txs[t].phase == Aborted && t !in After(s, Abort(t)).lock.Values && After(s, Abort(t)).db == s.db
  {
  }

  function Progress(p: Phase): nat {
    match p
    case Start => 0
    case Locked => 1
    case HasLimit(_) => 2
    case HasInvoices(_, _) => 3
    case Passed => 4
    case Committed => 5
    case Aborted => 5
  }

  /** A transaction's own steps take it forward, nobody else's move it. */
  lemma StepsAdvance(s: State, l: Label, t: TxId)
    requires Enabled(s, l) && t < |s.txs|
    ensures |After(s, l).txs| == |s.txs|
    ensures if ByTx(l, t) then Progress(After(s, l).txs[t].phase) > Progress(s.txs[t].phase) else After(s, l).txs[t] == s.txs[t]
    ensures l == Commit(t) <==> After(s, l).txs[t].phase == Committed != s.txs[t].phase
  {
    hide Written, OpenInvoiceTotal, OpenOrderTotal, NonRaising, SetInvoiceStatus, Limit;
  }

  /** A transaction that has committed or aborted takes no further step, so it writes at most once. */
  lemma {:induction false} EndsForGood(s: State, ls: seq<Label>, s': State, t: TxId)
    requires Run(s, ls, s') && t < |s.txs| && Progress(s.txs[t].phase) == 5
    ensures t < |s'.txs| && s'.txs[t] == s.txs[t] && NoneBy(ls, t)
    decreases |ls|
  {
    if ls != [] {
      StepsAdvance(s, ls[0], t);
      hide After, Enabled, ByTx;
      assert Progress(After(s, ls[0]).txs[t].phase) <= 5;
      EndsForGood(After(s, ls[0]), ls[1..], s', t);
      assert forall i :: 0 < i < |ls| ==> ls[i] == ls[1..][i - 1];
    }
  }

  predicate Writes(l: Label) { l.Commit? || l.Other? || l.SetInvoice? || l.ChangeLimit? }

  /** A check only reads, and so does a transaction that aborts. */
  lemma {:induction false} ChecksOnlyRead(s: State, ls: seq<Label>, s': State)
    requires Run(s, ls, s') && forall l <- ls :: !Writes(l)
    ensures s'.db == s.db
    decreases |ls|
  {
    if ls != [] {
      assert !Writes(ls[0]) && After(s, ls[0]).db == s.db;
      forall l <- ls[1..] ensures l in ls {}
      hide After, Enabled, Writes;
      ChecksOnlyRead(After(s, ls[0]), ls[1..], s');
    }
  }

  function Alone(t: TxId): seq<Label> { Check(t, true) + [Commit(t)] }

  ghost predicate OnlyTransactions(ls: seq<Label>) {
    forall l <- ls :: !l.Other? && !l.SetInvoice? && !l.ChangeLimit?
  }

  /** Two approvals of 60 against a limit of 100, by callers that skip the lock. */
  function TwoApprovals(): State {
    var order := Order(0, 0, Recibido, 60);
    State(
      Db([Customer(Some(100), None)], [order, order], []),
      map[],
      [Tx(0, 60, Some(0), SetStatus(0, OrdenFacturacion), false, Start),
       Tx(0, 60, Some(1), SetStatus(1, OrdenFacturacion), false, Start)])
  }

  lemma CheckOfTwo(s: State, t: TxId)
    requires s.db == TwoApprovals().db && s.lock == map[] && t < 2 == |s.txs| && s.txs[t] == TwoApprovals().txs[t]
    ensures Run(s, Check(t, false), SetPhase(s, t, Passed))
  {
    hide Run, Check, Exposure;
    SharesOfTwo(s.db, 0, Some(t));
    CheckAloneIsExact(s, t);
  }

  lemma TwoChecks(s: State, s1: State, s2: State, t: TxId, u: TxId)
    requires s == TwoApprovals() && t == 0 && u == 1
    requires s1 == SetPhase(s, t, Passed) && s2 == SetPhase(s1, u, Passed)
    ensures Run(s, Check(t, false), s1) && Run(s1, Check(u, false), s2)
  {
    hide Run, Check, Exposure;
    CheckOfTwo(s, t);
    CheckOfTwo(s1, u);
  }

  lemma TwoCommits(s2: State, t: TxId, u: TxId) returns (s4: State)
    requires t == 0 && u == 1
    requires s2 == SetPhase(SetPhase(TwoApprovals(), t, Passed), u, Passed)
    ensures Run(s2, [Commit(t)] + [Commit(u)], s4)
    ensures !WithinLimit(s4.db, 0)
  {
    var s3 := After(s2, Commit(t));
    s4 := After(s3, Commit(u));
    OneStep(s2, Commit(t));
    OneStep(s3, Commit(u));
    RunConcat(s2, [Commit(t)], s3, [Commit(u)], s4);
    SharesOfTwo(s4.db, 0, None);
  }

  lemma OnlyTransactionsConcat(a: seq<Label>, b: seq<Label>)
    requires OnlyTransactions(a) && OnlyTransactions(b)
    ensures OnlyTransactions(a + b)
  {
  }

  lemma CheckOnlyTransactions(t: TxId, inTx: bool)
    ensures OnlyTransactions(Check(t, inTx)) && OnlyTransactions([Commit(t)])
  {
  }

  /** Without the row lock both approvals read an exposure of 0 and both commit. */
  lemma WithoutLockExceeds(s: State, t: TxId, u: TxId) returns (ls: seq<Label>, end: State)
    requires s == TwoApprovals() && t == 0 && u == 1
    ensures AllWithinLimit(s.db)
    ensures Run(s, ls, end) && OnlyTransactions(ls) && !WithinLimit(end.db, 0)
  {
    forall c: Id ensures Exposure(s.db, c) == 0 {
      SharesOfTwo(s.db, c, None);
    }
    var s1 := SetPhase(s, t, Passed);
    var s2 := SetPhase(s1, u, Passed);
    TwoChecks(s, s1, s2, t, u);
    end := TwoCommits(s2, t, u);
    ls := Check(t, false) + Check(u, false) + ([Commit(t)] + [Commit(u)]);
    RunConcat(s, Check(t, false), s1, Check(u, false), s2);
    RunConcat(s, Check(t, false) + Check(u, false), s2, [Commit(t)] + [Commit(u)], end);
    CheckOnlyTransactions(t, false);
    CheckOnlyTransactions(u, false);
    OnlyTransactionsConcat([Commit(t)], [Commit(u)]);
    OnlyTransactionsConcat(Check(t, false), Check(u, false));
    OnlyTransactionsConcat(Check(t, false) + Check(u, false), [Commit(t)] + [Commit(u)]);
  }

  predicate ByTx(l: Label, t: TxId) {
    match l
    case Other(_) => false
    case SetInvoice(_, _) => false
    case ChangeLimit(_, _) => false
    case _ => l.tx == t
  }

  predicate NoneBy(ls: seq<Label>, t: TxId) { forall i :: 0 <= i < |ls| ==> !ByTx(ls[i], t) }

  lemma {:induction false} OthersLeaveTx(s: State, ls: seq<Label>, s': State, t: TxId)
    requires Run(s, ls, s') && t < |s.txs| && NoneBy(ls, t)
    ensures t < |s'.txs| && s'.txs[t] == s.txs[t]
    decreases |ls|
  {
    if ls != [] {
      assert !ByTx(ls[0], t);
      assert After(s, ls[0]).txs[t] == s.txs[t] && |After(s, ls[0]).txs| == |s.txs|;
      hide After, Enabled;
      OthersLeaveTx(After(s, ls[0]), ls[1..], s', t);
    }
  }

  /**
    The order of the two reads matters. Whatever the other transactions do
    between them, the invoices as first read and the orders as read later never
    give less than the exposure at the second read; with the orders read first
    they can miss an order brought back in between.
   */
  lemma InvoicesFirstNeverUnderstates(s: State, t: TxId, ls: seq<Label>, s': State)
    requires Inv(s) && Enabled(s, ReadInvoices(t))
    requires Run(After(s, ReadInvoices(t)), ls, s') && DisciplinedRun(After(s, ReadInvoices(t)), ls)
    requires NoneBy(ls, t)
    ensures var tx := s.txs[t];
      Exposure(s'.db, tx.customer, tx.exclude) <= OpenInvoiceTotal(s.db, tx.customer) + OpenOrderTotal(s'.db, tx.customer, tx.exclude)
  {
    hide OpenInvoiceTotal, OpenOrderTotal, Run, DisciplinedRun;
    var s1 := After(s, ReadInvoices(t));
    ReadKeepsInv(s, ReadInvoices(t));
    DisciplinedRunKeepsInv(s1, ls, s');
    OthersLeaveTx(s1, ls, s', t);
    assert TxOk(s', t);
  }

  lemma OrdersFirstCanUnderstate()
    ensures exists before: Db, after: Db, c: Id ::
      NonRaising(before, after) && OpenOrderTotal(before, c, None) + OpenInvoiceTotal(after, c) < Exposure(after, c)
  {
    var inv := Invoice(0, 0, Some(0), Emitida, 80);
    var plain := Db([Customer(Some(100), None)], [Order(0, 0, Facturado, 80)], []);
    var before := AddInvoice(plain, inv);
    assert before.invoices[0] == inv;
    var after := SetInvoiceStatus(before, 0, Anulada);
    forall c: Id ensures Reexposed(before, 0, c, None) <= InvoiceShare(before.invoices[0], c, None) {}
    AnnulTakesCreditExactlyWhen(before, 0);
    assert OrderShares(before, 0, None, None) == [0];
    assert InvoiceShares(after, 0, None) == [0];
    assert after.invoices == [inv.(status := Anulada)];
    assert !HasLiveInvoice(after, 0);
    assert OrderShares(after, 0, None, None) == [80];
    assert [80][..0] == [] && [0][..0] == [];
    assert Exposure(after, 0) == 80;
  }

  /** An approval of order 0 that read a total of 10, a retotal of it to 60, and an approval of order 1. */
  function GrowingOrder(): State {
    State(
      Db([Customer(Some(100), None)], [Order(0, 0, Recibido, 10), Order(0, 0, Recibido, 90)], []),
      map[],
      [Tx(0, 10, Some(0), SetStatus(0, OrdenFacturacion), true, Start),
       Tx(0, 60, Some(0), SetTotal(0, 60), true, Start),
       Tx(0, 90, Some(1), SetStatus(1, OrdenFacturacion), true, Start)])
  }

  lemma SharesOfTwo(db: Db, c: Id, exclude: Option<Id>)
    requires |db.orders| == 2 && db.invoices == []
    ensures OpenInvoiceTotal(db, c) == 0
    ensures Exposure(db, c, exclude) == OrderShare(db, 0, c, exclude, None) + OrderShare(db, 1, c, exclude, None)
  {
    var x, y := OrderShare(db, 0, c, exclude, None), OrderShare(db, 1, c, exclude, None);
    assert OrderShares(db, c, exclude, None) == [] + [x] + [y];
    TotalAppend([] + [x], y);
    TotalAppend([], x);
  }

  /** The same state after `n` of the three have run, in the order retotal, approve 1, approve 0. */
  function Grown(n: nat): State
    requires n <= 3
  {
    var s := GrowingOrder();
    State(
      s.db.(orders := [Order(0, 0, if n < 3 then Recibido else OrdenFacturacion, if n < 1 then 10 else 60),
                       Order(0, 0, if n < 2 then Recibido else OrdenFacturacion, 90)]),
      map[],
      [s.txs[0].(phase := if n < 3 then Start else Committed),
       s.txs[1].(phase := if n < 1 then Start else Committed),
       s.txs[2].(phase := if n < 2 then Start else Committed)])
  }

  lemma GrowthFits(s: State, n: nat, t: TxId)
    requires n < 3 && s == Grown(n) && t == (if n == 2 then 0 else n + 1)
    ensures Ready(s, t) && s.txs[t].inTx
    ensures Exposure(s.db, 0, s.txs[t].exclude) + s.txs[t].amount <= 100
  {
    SharesOfTwo(s.db, 0, s.txs[t].exclude);
  }

  lemma GrowthLands(s: State, s': State, n: nat, t: TxId)
    requires n < 3 && s == Grown(n) && s' == Grown(n + 1) && t == (if n == 2 then 0 else n + 1)
    ensures s' == SetPhase(s, t, Committed).(db := Written(s.db, s.txs[t].write))
  {
    assert s'.txs == s.txs[t := s.txs[t].(phase := Committed)];
    assert s'.db.orders == Written(s.db, s.txs[t].write).orders;
  }

  lemma GrowthStep(s: State, s': State, n: nat, t: TxId)
    requires n < 3 && s == Grown(n) && s' == Grown(n + 1) && t == (if n == 2 then 0 else n + 1)
    ensures Run(s, Alone(t), s')
  {
    GrowthFits(s, n, t);
    GrowthLands(s, s', n, t);
    assert s.txs[t].customer == 0;
    CommitAlone(s, t, s');
  }

  lemma GrowthEnds(s: State, end: State)
    requires s == Grown(0) && end == Grown(3)
    ensures AllWithinLimit(s.db) && !WithinLimit(end.db, 0)
  {
    forall c: Id ensures Exposure(s.db, c) == 0 {
      SharesOfTwo(s.db, c, None);
    }
    SharesOfTwo(end.db, 0, None);
  }

  /**
    The amount must still cover the order when its write lands. Here every
    amount covers the write at the start and every transaction takes the lock,
    yet one order grows between the approval's first read and its lock.
   */
  lemma StaleAmountExceeds(s: State, t: TxId, u: TxId, v: TxId) returns (ls: seq<Label>, end: State)
    requires s == GrowingOrder() && t == 1 && u == 2 && v == 0
    ensures Initial(s)
    ensures forall i :: 0 <= i < |s.txs| ==> AmountCovers(s.db, s.txs[i])
    ensures Run(s, ls, end) && OnlyTransactions(ls) && !WithinLimit(end.db, 0)
  {
    var s1, s2 := Grown(1), Grown(2);
    end := Grown(3);
    GrowthEnds(s, end);
    GrowthStep(s, s1, 0, t);
    GrowthStep(s1, s2, 1, u);
    GrowthStep(s2, end, 2, v);
    ls := Alone(t) + Alone(u) + Alone(v);
    RunConcat(s, Alone(t), s1, Alone(u), s2);
    RunConcat(s, Alone(t) + Alone(u), s2, Alone(v), end);
    AloneOnlyTransactions(t);
    AloneOnlyTransactions(u);
    AloneOnlyTransactions(v);
    OnlyTransactionsConcat(Alone(t), Alone(u));
    OnlyTransactionsConcat(Alone(t) + Alone(u), Alone(v));
  }

  lemma AloneOnlyTransactions(t: TxId)
    ensures OnlyTransactions(Alone(t))
  {
    CheckOnlyTransactions(t, true);
    OnlyTransactionsConcat(Check(t, true), [Commit(t)]);
  }
}

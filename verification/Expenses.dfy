/**
  The expense workflow as interleaved transactions (commercial-expenses.service.ts).

  An edit or a review reads the row, checks it, writes it on condition that the
  status is still the one it read, and records the audit entry; the row lock of
  the write is held until the commit.
 */
module Expenses {
  import opened Prelude
  import opened Text

  type Id = nat
  type TxId = nat

  datatype Status = Pendiente | RequiereCorreccion | Aprobado | Rechazado | Contabilizado

  datatype Role = Administrador | DirectorComercial | Comercial | Tecnico | Facturacion | Logistica | Promotor

  datatype User = User(id: Id, role: Role)

  datatype Field =
    | ExpenseDate | Category | Amount | Description | SupplierName | SupplierNit | InvoiceNumber
    | PaymentMethod | ExtractionConfidence | ExtractionModel | CustomerId | VisitId

  /** The filled-in fields; a missing key is a null column. */
  type Content = map<Field, string>

  datatype Expense = Expense(
    content: Content, status: Status, submittedBy: Id, reviewNote: Option<string>, reviewedBy: Option<User>)

  datatype Op =
    | Edit(user: User, id: Id, dto: map<Field, Option<string>>)
    | Review(user: User, id: Id, status: Status, note: Option<string>)

  datatype Failure = NotFound | Forbidden | BadRequest | Conflict | RolledBack

  /** The customers on file and the customer of each visit. */
  datatype World = World(customers: set<string>, visits: map<string, string>)

  /** expenseStatusTransitions. */
  function Transitions(status: Status): seq<Status> {
    match status
    case Pendiente => [Aprobado, RequiereCorreccion, Rechazado]
    case RequiereCorreccion => [Pendiente]
    case Aprobado => [Contabilizado]
    case Rechazado => []
    case Contabilizado => []
  }

  const CONTROL_ROLES: set<Role> := {Administrador, DirectorComercial, Facturacion, Promotor}

  predicate IsControlRole(user: User) { user.role in CONTROL_ROLES }

  predicate CanRead(user: User, e: Expense) { IsControlRole(user) || e.submittedBy == user.id }

  predicate Editable(status: Status) { status == Pendiente || status == RequiereCorreccion }

  predicate NeedsNote(status: Status) { status == RequiereCorreccion || status == Rechazado }

  // --- one request against one row ------------------------------------------------

  const TRIMMED_FIELDS: set<Field> := {SupplierName, SupplierNit, InvoiceNumber, PaymentMethod, ExtractionModel}

  /** `dto.x?.trim() || null` for the text fields, the value itself for the others. */
  function Normalized(f: Field, v: Option<string>): Option<string> {
    if v.Some? && f in TRIMMED_FIELDS then (if Trim(v.value) == "" then None else Some(Trim(v.value))) else v
  }

  function DataOf(dto: map<Field, Option<string>>): map<Field, Option<string>> {
    map f | f in dto :: Normalized(f, dto[f])
  }

  function Patched(content: Content, data: map<Field, Option<string>>): Content {
    map f | f in content.Keys + data.Keys && (f in data ==> data[f].Some?)
      :: if f in data then data[f].value else content[f]
  }

  /** The field an edit would leave, judged on the row it read. */
  function Effective(seen: Expense, dto: map<Field, Option<string>>, f: Field): Option<string> {
    if f in dto then dto[f] else FieldOf(seen, f)
  }

  predicate Truthy(v: Option<string>) { v.Some? && v.value != "" }

  /** validateOptionalRelations. */
  function RelationFailure(w: World, customer: Option<string>, visit: Option<string>): Option<Failure> {
    if Truthy(customer) && customer.value !in w.customers then Some(NotFound)
    else if Truthy(visit) && visit.value !in w.visits then Some(NotFound)
    else if Truthy(visit) && Truthy(customer) && w.visits[visit.value] != customer.value then Some(BadRequest)
    else None
  }

  function FieldOf(e: Expense, f: Field): Option<string> { if f in e.content then Some(e.content[f]) else None }

  predicate RelationsOk(w: World, e: Expense) { RelationFailure(w, FieldOf(e, CustomerId), FieldOf(e, VisitId)) == None }

  /** Every check the service makes between reading the row and writing it. */
  function Check(w: World, op: Op, row: Option<Expense>): Option<Failure> {
    match op
    case Edit(user, _, dto) =>
      if row == None then Some(NotFound)
      else if !CanRead(user, row.value) then Some(Forbidden)
      else if !Editable(row.value.status) then Some(BadRequest)
      else RelationFailure(w, Effective(row.value, dto, CustomerId), Effective(row.value, dto, VisitId))
    case Review(user, _, status, note) =>
      if !IsControlRole(user) then Some(Forbidden)
      else if row == None then Some(NotFound)
      else if status !in Transitions(row.value.status) then Some(BadRequest)
      else if NeedsNote(status) && (note == None || Trim(note.value) == "") then Some(BadRequest)
      else None
  }

  /** The columns written, on the row as it is when the write runs. */
  function Effect(op: Op, row: Expense): Expense {
    match op
    case Edit(_, _, dto) =>
      var edited := row.(content := Patched(row.content, DataOf(dto)));
      if row.status == RequiereCorreccion then edited.(status := Pendiente, reviewNote := None, reviewedBy := None) else edited
    case Review(user, _, status, note) =>
      row.(status := status,
           reviewNote := (match note case None => None case Some(n) => Some(Trim(n))),
           reviewedBy := Some(user))
  }

  // --- transactions ------------------------------------------------------------------

  datatype Record = Record(id: Id, op: Option<Op>, previous: Option<Expense>, next: Expense)

  datatype Phase = Start | Read(seen: Expense) | Wrote(seen: Expense, next: Expense) | Committed | Failed(failure: Failure)

  datatype Tx = Tx(op: Op, phase: Phase)

  datatype State = State(rows: map<Id, Expense>, lock: map<Id, TxId>, audit: seq<Record>, txs: seq<Tx>)

  datatype Label =
    | ReadRow(tx: TxId)
    | WriteRow(tx: TxId)
    | Commit(tx: TxId)
    | Rollback(tx: TxId)
    | Create(id: Id, dto: Content, user: User)

  function RowOf(rows: map<Id, Expense>, id: Id): Option<Expense> { if id in rows then Some(rows[id]) else None }

  function SetPhase(s: State, t: TxId, phase: Phase): State
    requires t < |s.txs|
  {
    s.(txs := s.txs[t := s.txs[t].(phase := phase)])
  }

  function Release(lock: map<Id, TxId>, t: TxId): map<Id, TxId> {
    map id | id in lock && lock[id] != t :: lock[id]
  }

  predicate Enabled(s: State, l: Label) {
    match l
    case ReadRow(t) => t < |s.txs| && s.txs[t].phase == Start
    case WriteRow(t) => t < |s.txs| && s.txs[t].phase.Read? && s.txs[t].op.id !in s.lock
    case Commit(t) => t < |s.txs| && s.txs[t].phase.Wrote?
    case Rollback(t) => t < |s.txs| && (s.txs[t].phase.Read? || s.txs[t].phase.Wrote?)
    case Create(id, _, _) => id !in s.rows
  }

  /** The columns of a new expense: text fields are trimmed, blank ones stay null. */
  function NewContent(dto: Content): Content {
    map f | f in dto && Normalized(f, Some(dto[f])).Some? :: Normalized(f, Some(dto[f])).value
  }

  function Created(dto: Content, user: User): Expense { Expense(NewContent(dto), Pendiente, user.id, None, None) }

  function After(w: World, s: State, l: Label): State
    requires Enabled(s, l)
  {
    match l
    case ReadRow(t) =>
      var row := RowOf(s.rows, s.txs[t].op.id);
      (match Check(w, s.txs[t].op, row)
       case Some(failure) => SetPhase(s, t, Failed(failure))
       case None => SetPhase(s, t, Read(row.value)))
    case WriteRow(t) =>
      var id, seen := s.txs[t].op.id, s.txs[t].phase.seen;
      if id in s.rows && s.rows[id].status == seen.status
      then SetPhase(s, t, Wrote(seen, Effect(s.txs[t].op, s.rows[id]))).(lock := s.lock[id := t])
      else SetPhase(s, t, Failed(Conflict))
    case Commit(t) =>
      var op, seen, next := s.txs[t].op, s.txs[t].phase.seen, s.txs[t].phase.next;
      SetPhase(s, t, Committed).(
        rows := s.rows[op.id := next],
        lock := Release(s.lock, t),
        audit := s.audit + [Record(op.id, Some(op), Some(seen), next)])
    case Rollback(t) => SetPhase(s, t, Failed(RolledBack)).(lock := Release(s.lock, t))
    case Create(id, dto, user) =>
      var row := Created(dto, user);
      if RelationsOk(w, row) then s.(rows := s.rows[id := row], audit := s.audit + [Record(id, None, None, row)]) else s
  }

  predicate Run(w: World, s: State, ls: seq<Label>, s': State)
    decreases |ls|
  {
    if ls == [] then s' == s
    else Enabled(s, ls[0]) && Run(w, After(w, s, ls[0]), ls[1..], s')
  }

  ghost predicate Initial(s: State) {
    s.rows == map[] && s.lock == map[] && s.audit == [] && forall t :: 0 <= t < |s.txs| ==> s.txs[t].phase == Start
  }

  // --- the audit log as the history of the table -------------------------------------

  /** The row as the last entry about it left it. */
  function Last(audit: seq<Record>, id: Id): Option<Expense> {
    if audit == [] then None
    else if audit[|audit| - 1].id == id then Some(audit[|audit| - 1].next)
    else Last(audit[..|audit| - 1], id)
  }

  /** What one entry owes the row `p` that the entries before it left. */
  predicate Follows(w: World, r: Record, p: Option<Expense>) {
    match r.op
    case None =>
      && p == None && r.previous == None && RelationsOk(w, r.next)
      && r.next.status == Pendiente && r.next.reviewNote == None && r.next.reviewedBy == None
    case Some(op) =>
      && op.id == r.id && p.Some? && r.previous.Some?
      && r.previous.value.status == p.value.status
      && r.previous.value.submittedBy == p.value.submittedBy
      && Check(w, op, r.previous) == None
      && r.next == Effect(op, p.value)
  }

  predicate Linked(w: World, audit: seq<Record>) {
    forall k :: 0 <= k < |audit| ==> Follows(w, audit[k], Last(audit[..k], audit[k].id))
  }

  ghost predicate TxOk(w: World, s: State, t: TxId)
    requires t < |s.txs|
  {
    var op := s.txs[t].op;
    match s.txs[t].phase
    case Read(seen) =>
      op.id in s.rows && Check(w, op, Some(seen)) == None && s.rows[op.id].submittedBy == seen.submittedBy
    case Wrote(seen, next) =>
      && op.id in s.rows && Check(w, op, Some(seen)) == None
      && op.id in s.lock && s.lock[op.id] == t
      && s.rows[op.id].status == seen.status && s.rows[op.id].submittedBy == seen.submittedBy
      && next == Effect(op, s.rows[op.id])
    case _ => true
  }

  ghost predicate Inv(w: World, s: State) {
    && Linked(w, s.audit)
    && (forall id: Id :: Last(s.audit, id) == RowOf(s.rows, id))
    && forall t :: 0 <= t < |s.txs| ==> TxOk(w, s, t)
  }

  lemma AppendLinked(w: World, audit: seq<Record>, r: Record)
    requires Linked(w, audit) && Follows(w, r, Last(audit, r.id))
    ensures Linked(w, audit + [r])
    ensures forall id: Id :: Last(audit + [r], id) == if id == r.id then Some(r.next) else Last(audit, id)
  {
    var audit' := audit + [r];
    assert audit'[..|audit|] == audit;
    forall k | 0 <= k < |audit'| ensures Follows(w, audit'[k], Last(audit'[..k], audit'[k].id)) {
      if k < |audit| {
        assert audit'[..k] == audit[..k];
      }
    }
  }

  lemma EffectKeepsOwner(op: Op, row: Expense)
    ensures Effect(op, row).submittedBy == row.submittedBy
  {
  }

  lemma CheckNeedsRow(w: World, op: Op)
    ensures Check(w, op, None) != None
  {
  }

  lemma LogStep(w: World, s: State, l: Label)
    requires Inv(w, s) && Enabled(s, l)
    ensures Linked(w, After(w, s, l).audit)
    ensures forall id: Id :: Last(After(w, s, l).audit, id) == RowOf(After(w, s, l).rows, id)
  {
    hide Check, Effect, Linked, Last, RelationsOk;
    if l.Create? && RelationsOk(w, Created(l.dto, l.user)) {
      AppendLinked(w, s.audit, Record(l.id, None, None, Created(l.dto, l.user)));
    } else if l.Commit? {
      assert TxOk(w, s, l.tx);
      var op, seen, next := s.txs[l.tx].op, s.txs[l.tx].phase.seen, s.txs[l.tx].phase.next;
      AppendLinked(w, s.audit, Record(op.id, Some(op), Some(seen), next));
    }
  }

  lemma TxStep(w: World, s: State, l: Label, u: TxId)
    requires Inv(w, s) && Enabled(s, l) && u < |s.txs|
    ensures TxOk(w, After(w, s, l), u)
  {
    hide Check, Effect, Linked, Last;
    assert TxOk(w, s, u);
    if !l.Create? {
      assert TxOk(w, s, l.tx);
      if l.Commit? {
        EffectKeepsOwner(s.txs[l.tx].op, s.rows[s.txs[l.tx].op.id]);
      } else {
        CheckNeedsRow(w, s.txs[l.tx].op);
      }
    }
  }

  lemma StepKeepsInv(w: World, s: State, l: Label)
    requires Inv(w, s) && Enabled(s, l)
    ensures Inv(w, After(w, s, l))
  {
    hide Check, Effect, Linked, Last, TxOk;
    LogStep(w, s, l);
    forall u | 0 <= u < |s.txs| ensures TxOk(w, After(w, s, l), u) {
      TxStep(w, s, l, u);
    }
  }

  /** In every interleaving the audit log is the linked history of exactly the current rows. */
  lemma {:induction false} RunKeepsInv(w: World, s: State, ls: seq<Label>, s': State)
    requires Inv(w, s) && Run(w, s, ls, s')
    ensures Inv(w, s')
    decreases |ls|
  {
    if ls != [] {
      StepKeepsInv(w, s, ls[0]);
      RunKeepsInv(w, After(w, s, ls[0]), ls[1..], s');
    }
  }

  // --- what the history means ------------------------------------------------------------

  /** The statuses one expense went through, in commit order. */
  function History(audit: seq<Record>, id: Id): seq<Status> {
    if audit == [] then []
    else
      var before := History(audit[..|audit| - 1], id);
      if audit[|audit| - 1].id == id then before + [audit[|audit| - 1].next.status] else before
  }

  predicate Edge(from: Status, to: Status) { to in Transitions(from) || (from == to == Pendiente) }

  predicate IsPath(h: seq<Status>) {
    && (h != [] ==> h[0] == Pendiente)
    && forall i :: 0 < i < |h| ==> Edge(h[i - 1], h[i])
  }

  lemma {:induction false} HistoryIsPath(w: World, audit: seq<Record>, id: Id)
    requires Linked(w, audit)
    ensures IsPath(History(audit, id))
    ensures Last(audit, id) == None <==> History(audit, id) == []
    ensures Last(audit, id).Some? ==> History(audit, id)[|History(audit, id)| - 1] == Last(audit, id).value.status
  {
    if audit != [] {
      var n := |audit| - 1;
      LinkedPrefix(w, audit, n);
      HistoryIsPath(w, audit[..n], id);
      assert Follows(w, audit[n], Last(audit[..n], audit[n].id));
    }
  }

  lemma LinkedPrefix(w: World, audit: seq<Record>, n: nat)
    requires Linked(w, audit) && n <= |audit|
    ensures Linked(w, audit[..n])
  {
    forall k | 0 <= k < n ensures audit[..n][..k] == audit[..k] {}
  }

  /** Every committed status history is a path of the transition table; only pending edits stutter. */
  lemma HistoriesFollowTable(w: World, s: State, ls: seq<Label>, s': State, id: Id)
    requires Initial(s) && Run(w, s, ls, s')
    ensures IsPath(History(s'.audit, id))
    ensures id in s'.rows <==> History(s'.audit, id) != []
    ensures id in s'.rows ==> History(s'.audit, id)[|History(s'.audit, id)| - 1] == s'.rows[id].status
  {
    RunKeepsInv(w, s, ls, s');
    HistoryIsPath(w, s'.audit, id);
    assert Last(s'.audit, id) == RowOf(s'.rows, id);
  }

  predicate Settled(status: Status) { !Editable(status) }

  /** What a settled row can still change into. */
  predicate Frozen(e: Expense, e': Expense) {
    && e'.content == e.content && e'.submittedBy == e.submittedBy && Settled(e'.status)
    && (e'.status == e.status || (e.status == Aprobado && e'.status == Contabilizado))
  }

  lemma LastStep(audit: seq<Record>, j: nat, id: Id)
    requires 0 < j <= |audit|
    ensures Last(audit[..j], id) == if audit[j - 1].id == id then Some(audit[j - 1].next) else Last(audit[..j - 1], id)
  {
    assert audit[..j][..j - 1] == audit[..j - 1];
  }

  lemma EffectKeepsFrozen(w: World, op: Op, seen: Expense, row: Expense)
    requires Settled(row.status) && seen.status == row.status && Check(w, op, Some(seen)) == None
    ensures Frozen(row, Effect(op, row))
  {
  }

  /** Once settled, the content of an expense never changes again. */
  lemma {:induction false} SettledStaysFrozen(w: World, audit: seq<Record>, i: nat, j: nat, id: Id)
    requires Linked(w, audit) && i <= j <= |audit|
    requires Last(audit[..i], id).Some? && Settled(Last(audit[..i], id).value.status)
    ensures Last(audit[..j], id).Some? && Frozen(Last(audit[..i], id).value, Last(audit[..j], id).value)
    decreases j
  {
    if i < j {
      hide Check, Effect, Last;
      SettledStaysFrozen(w, audit, i, j - 1, id);
      LastStep(audit, j, id);
      var r := audit[j - 1];
      assert Follows(w, r, Last(audit[..j - 1], r.id));
      if r.id == id {
        EffectKeepsFrozen(w, r.op.value, r.previous.value, Last(audit[..j - 1], id).value);
      }
    }
  }

  /** Rows sent back or rejected carry a reason; reviewed outcomes carry the control-role user who decided. */
  predicate RowOk(e: Expense) {
    && (NeedsNote(e.status) ==> e.reviewNote.Some? && Trim(e.reviewNote.value) != "")
    && (e.status != Pendiente ==> e.reviewedBy.Some? && IsControlRole(e.reviewedBy.value))
  }

  lemma EffectKeepsRowOk(w: World, op: Op, seen: Expense, row: Expense)
    requires RowOk(row) && Check(w, op, Some(seen)) == None && seen.status == row.status
    ensures RowOk(Effect(op, row))
  {
    if op.Review? && op.note.Some? {
      TrimTrims(op.note.value);
    }
  }

  lemma {:induction false} LinkedRowsOk(w: World, audit: seq<Record>, id: Id)
    requires Linked(w, audit) && Last(audit, id).Some?
    ensures RowOk(Last(audit, id).value)
  {
    var n := |audit| - 1;
    LinkedPrefix(w, audit, n);
    assert Follows(w, audit[n], Last(audit[..n], audit[n].id));
    if audit[n].id != id {
      LinkedRowsOk(w, audit[..n], id);
    } else if audit[n].op.Some? {
      LinkedRowsOk(w, audit[..n], id);
      EffectKeepsRowOk(w, audit[n].op.value, audit[n].previous.value, Last(audit[..n], id).value);
    }
  }

  lemma RowsAlwaysOk(w: World, s: State, ls: seq<Label>, s': State)
    requires Initial(s) && Run(w, s, ls, s')
    ensures forall id :: id in s'.rows ==> RowOk(s'.rows[id])
  {
    RunKeepsInv(w, s, ls, s');
    forall id | id in s'.rows ensures RowOk(s'.rows[id]) {
      assert Last(s'.audit, id) == RowOf(s'.rows, id);
      LinkedRowsOk(w, s'.audit, id);
    }
  }

  /** Consecutive entries about an expense chain by status: each starts where the one before it ended. */
  lemma EntriesChain(w: World, s: State, ls: seq<Label>, s': State, k: nat)
    requires Initial(s) && Run(w, s, ls, s') && k < |s'.audit|
    ensures s'.audit[k].previous.Some? <==> Last(s'.audit[..k], s'.audit[k].id).Some?
    ensures s'.audit[k].previous.Some? ==>
      s'.audit[k].previous.value.status == Last(s'.audit[..k], s'.audit[k].id).value.status
  {
    RunKeepsInv(w, s, ls, s');
    assert Follows(w, s'.audit[k], Last(s'.audit[..k], s'.audit[k].id));
  }

  /** Every committed edit is by the submitter or a control role, every review by a control role. */
  lemma EntriesAreAuthorised(w: World, s: State, ls: seq<Label>, s': State, k: nat)
    requires Initial(s) && Run(w, s, ls, s') && k < |s'.audit| && s'.audit[k].op.Some?
    ensures IsControlRole(s'.audit[k].op.value.user)
      || (s'.audit[k].op.value.Edit? && s'.audit[k].next.submittedBy == s'.audit[k].op.value.user.id)
  {
    RunKeepsInv(w, s, ls, s');
    assert Follows(w, s'.audit[k], Last(s'.audit[..k], s'.audit[k].id));
  }

  /** No edit loses another's field: each keeps every field it does not name at its latest committed value. */
  lemma EditsMerge(w: World, s: State, ls: seq<Label>, s': State, k: nat, f: Field)
    requires Initial(s) && Run(w, s, ls, s') && k < |s'.audit|
    requires s'.audit[k].op.Some? && (s'.audit[k].op.value.Review? || f !in s'.audit[k].op.value.dto)
    ensures Last(s'.audit[..k], s'.audit[k].id).Some?
    ensures var before := Last(s'.audit[..k], s'.audit[k].id).value.content;
      var after := s'.audit[k].next.content;
      (f in after <==> f in before) && (f in before ==> after[f] == before[f])
  {
    RunKeepsInv(w, s, ls, s');
    assert Follows(w, s'.audit[k], Last(s'.audit[..k], s'.audit[k].id));
  }

  /** Entry `k` is a review of the expense. */
  predicate ReviewedAt(audit: seq<Record>, id: Id, k: nat) {
    k < |audit| && audit[k].id == id && audit[k].op.Some? && audit[k].op.value.Review?
  }

  /** Entry `k` is an edit of the expense when it had been sent back. */
  predicate ResubmittedAt(audit: seq<Record>, id: Id, k: nat) {
    k < |audit| && audit[k].id == id && audit[k].op.Some? && audit[k].op.value.Edit?
    && audit[k].previous.Some? && audit[k].previous.value.status == RequiereCorreccion
  }

  /** Entry `k` reviews the expense, and it is neither reviewed again nor resubmitted afterwards. */
  ghost predicate Stands(audit: seq<Record>, id: Id, k: nat) {
    ReviewedAt(audit, id, k) && forall j :: k < j < |audit| ==> !ReviewedAt(audit, id, j) && !ResubmittedAt(audit, id, j)
  }

  ghost predicate NoneStands(audit: seq<Record>, id: Id) { forall k: nat :: !Stands(audit, id, k) }

  /** The row bears the status, the trimmed note and the deciding user of the review that stands, or of none. */
  ghost predicate BearsReview(audit: seq<Record>, id: Id, row: Expense) {
    && (forall k: nat :: Stands(audit, id, k) ==>
          var op := audit[k].op.value;
          && row.status == op.status && row.reviewedBy == Some(op.user)
          && row.reviewNote == match op.note case None => None case Some(note) => Some(Trim(note)))
    && (NoneStands(audit, id) ==>
          row.status == Pendiente && row.reviewNote == None && row.reviewedBy == None)
  }

  /** One entry more: a review stands, a resubmission ends it, and nothing else changes what stands. */
  lemma StandsStep(audit: seq<Record>, n: nat, id: Id)
    requires 0 < n <= |audit|
    ensures ReviewedAt(audit, id, n - 1) ==> forall k: nat :: Stands(audit[..n], id, k) <==> k == n - 1
    ensures ResubmittedAt(audit, id, n - 1) ==> forall k: nat :: !Stands(audit[..n], id, k)
    ensures !ReviewedAt(audit, id, n - 1) && !ResubmittedAt(audit, id, n - 1) ==>
      forall k: nat :: Stands(audit[..n], id, k) <==> Stands(audit[..n - 1], id, k)
  {
    var before, after := audit[..n - 1], audit[..n];
    forall k: nat
      ensures ReviewedAt(after, id, k) == if k < n - 1 then ReviewedAt(before, id, k) else k == n - 1 && ReviewedAt(audit, id, k)
      ensures ResubmittedAt(after, id, k) == if k < n - 1 then ResubmittedAt(before, id, k) else k == n - 1 && ResubmittedAt(audit, id, k)
    {
    }
    hide ReviewedAt, ResubmittedAt;
  }

  lemma EntryBears(w: World, audit: seq<Record>, n: nat, id: Id, p: Option<Expense>)
    requires 0 < n <= |audit| && audit[n - 1].id == id && Follows(w, audit[n - 1], p)
    requires p.Some? ==> BearsReview(audit[..n - 1], id, p.value)
    requires p == None ==> NoneStands(audit[..n - 1], id)
    ensures BearsReview(audit[..n], id, audit[n - 1].next)
  {
    StandsStep(audit, n, id);
    var r, before, after := audit[n - 1], audit[..n - 1], audit[..n];
    if r.op.Some? && r.op.value.Edit? && r.previous.value.status != RequiereCorreccion {
      assert !ReviewedAt(audit, id, n - 1) && !ResubmittedAt(audit, id, n - 1);
      forall k: nat | Stands(after, id, k) ensures k < n - 1 && after[k] == before[k] {
        assert Stands(before, id, k);
      }
      assert r.next.status == p.value.status && r.next.reviewedBy == p.value.reviewedBy && r.next.reviewNote == p.value.reviewNote;
      hide Stands, Check, Effect, Trim, Follows;
    } else if r.op.Some? {
      hide Stands, Check, Trim;
    } else {
      hide Stands, Check, Trim;
    }
  }

  lemma OthersBear(audit: seq<Record>, n: nat, id: Id, row: Expense)
    requires 0 < n <= |audit| && audit[n - 1].id != id && BearsReview(audit[..n - 1], id, row)
    ensures BearsReview(audit[..n], id, row)
  {
    StandsStep(audit, n, id);
    forall k: nat | Stands(audit[..n], id, k) ensures k < n - 1 && audit[..n][k] == audit[..n - 1][k] {
      assert Stands(audit[..n - 1], id, k);
    }
    forall k: nat | Stands(audit[..n - 1], id, k) ensures Stands(audit[..n], id, k) {}
    hide Stands, Trim;
  }

  lemma {:induction false} LogBearsReview(w: World, audit: seq<Record>, n: nat, id: Id)
    requires Linked(w, audit) && n <= |audit|
    ensures Last(audit[..n], id).Some? ==> BearsReview(audit[..n], id, Last(audit[..n], id).value)
    ensures Last(audit[..n], id) == None ==> NoneStands(audit[..n], id)
  {
    if n > 0 {
      LogBearsReview(w, audit, n - 1, id);
      LastStep(audit, n, id);
      assert Follows(w, audit[n - 1], Last(audit[..n - 1], audit[n - 1].id));
      hide Linked, Last, Follows, BearsReview, Stands;
      if audit[n - 1].id == id {
        EntryBears(w, audit, n, id, Last(audit[..n - 1], id));
      } else if Last(audit[..n - 1], id).Some? {
        OthersBear(audit, n, id, Last(audit[..n - 1], id).value);
      } else {
        StandsStep(audit, n, id);
      }
    }
  }

  /**
    Every expense bears the outcome, note and deciding user of its last review; only
    an edit of an expense sent back takes them off, and it is then pending again.
   */
  lemma LastReviewStands(w: World, s: State, ls: seq<Label>, s': State, id: Id)
    requires Initial(s) && Run(w, s, ls, s') && id in s'.rows
    ensures BearsReview(s'.audit, id, s'.rows[id])
  {
    RunLinks(w, s, ls, s');
    LogBearsReview(w, s'.audit, |s'.audit|, id);
    assert s'.audit[..|s'.audit|] == s'.audit;
  }

  // --- locks, refusals and creation -------------------------------------------------------

  /** Every row lock is held by a transaction on that row between its write and its end. */
  predicate LocksHeld(s: State) {
    forall id :: id in s.lock ==> s.lock[id] < |s.txs| && s.txs[s.lock[id]].op.id == id && s.txs[s.lock[id]].phase.Wrote?
  }

  lemma LocksStep(w: World, s: State, l: Label)
    requires LocksHeld(s) && Enabled(s, l)
    ensures LocksHeld(After(w, s, l))
  {
    hide Check, Effect, RelationsOk;
  }

  /** In every run a transaction that has ended holds no lock. */
  lemma {:induction false} NoLockLeftBehind(w: World, s: State, ls: seq<Label>, s': State)
    requires LocksHeld(s) && Run(w, s, ls, s')
    ensures LocksHeld(s')
    decreases |ls|
  {
    if ls != [] {
      LocksStep(w, s, ls[0]);
      hide After, Enabled, LocksHeld;
      NoLockLeftBehind(w, After(w, s, ls[0]), ls[1..], s');
    }
  }

  /** Only commits and creations reach the table and the log: a refused or rolled-back request leaves no trace there. */
  lemma {:induction false} RefusedLeavesNoTrace(w: World, s: State, ls: seq<Label>, s': State)
    requires Run(w, s, ls, s') && forall l <- ls :: !l.Commit? && !l.Create?
    ensures s'.rows == s.rows && s'.audit == s.audit
    decreases |ls|
  {
    if ls != [] {
      assert !ls[0].Commit? && !ls[0].Create?;
      forall l <- ls[1..] ensures l in ls {}
      var s1 := After(w, s, ls[0]);
      assert s1.rows == s.rows && s1.audit == s.audit;
      hide After, Enabled;
      RefusedLeavesNoTrace(w, s1, ls[1..], s');
    }
  }

  /**
    A new expense is stored, pending and its author's own, exactly when its
    customer and visit exist and do not contradict each other; its text fields
    are trimmed, and null when nothing is left.
   */
  lemma CreatedExactlyWhen(w: World, s: State, id: Id, dto: Content, user: User)
    requires Enabled(s, Create(id, dto, user))
    ensures var customer := if CustomerId in dto then dto[CustomerId] else "";
      var visit := if VisitId in dto then dto[VisitId] else "";
      var s' := After(w, s, Create(id, dto, user));
      if (customer != "" ==> customer in w.customers) && (visit != "" ==> visit in w.visits)
         && (customer != "" && visit != "" ==> w.visits[visit] == customer)
      then
        && id in s'.rows && s'.rows == s.rows[id := Expense(s'.rows[id].content, Pendiente, user.id, None, None)]
        && s'.audit == s.audit + [Record(id, None, None, s'.rows[id])]
        && forall f: Field ::
          FieldOf(s'.rows[id], f)
          == if f !in dto then None
             else if f in {SupplierName, SupplierNit, InvoiceNumber, PaymentMethod, ExtractionModel}
             then (if Trim(dto[f]) == "" then None else Some(Trim(dto[f])))
             else Some(dto[f])
      else s' == s
  {
    hide Trim;
  }

  // --- what interleaving does break -------------------------------------------------------

  lemma {:induction false} RunConcat(w: World, s: State, ls: seq<Label>, mid: State, ms: seq<Label>, end: State)
    requires Run(w, s, ls, mid) && Run(w, mid, ms, end)
    ensures Run(w, s, ls + ms, end)
    decreases |ls|
  {
    if ls == [] {
      assert ls + ms == ms;
    } else {
      RunConcat(w, After(w, s, ls[0]), ls[1..], mid, ms, end);
      assert (ls + ms)[1..] == ls[1..] + ms;
    }
  }

  lemma OneStep(w: World, s: State, l: Label)
    requires Enabled(s, l)
    ensures Run(w, s, [l], After(w, s, l))
  {
    assert Run(w, After(w, s, l), [l][1..], After(w, s, l));
  }

  /** Two requests about one row that both pass their checks on it. */
  ghost predicate BothReady(w: World, s: State, t: TxId, u: TxId) {
    && t < |s.txs| && u < |s.txs| && t != u
    && s.txs[t].phase == s.txs[u].phase == Start && s.txs[t].op.id == s.txs[u].op.id
    && s.txs[t].op.id in s.rows && s.txs[t].op.id !in s.lock
    && Check(w, s.txs[t].op, Some(s.rows[s.txs[t].op.id])) == None
    && Check(w, s.txs[u].op, Some(s.rows[s.txs[t].op.id])) == None
  }

  /** Two such edits of a pending row. */
  ghost predicate EditsReady(w: World, s: State, t: TxId, u: TxId) {
    && BothReady(w, s, t, u) && s.txs[t].op.Edit? && s.txs[u].op.Edit?
    && s.rows[s.txs[t].op.id].status == Pendiente
  }

  lemma BothRead(w: World, s: State, t: TxId, u: TxId) returns (s': State)
    requires BothReady(w, s, t, u)
    ensures Run(w, s, [ReadRow(t)] + [ReadRow(u)], s')
    ensures s' == SetPhase(SetPhase(s, t, Read(s.rows[s.txs[t].op.id])), u, Read(s.rows[s.txs[t].op.id]))
  {
    hide Check;
    var s1 := After(w, s, ReadRow(t));
    s' := After(w, s1, ReadRow(u));
    OneStep(w, s, ReadRow(t));
    OneStep(w, s1, ReadRow(u));
    RunConcat(w, s, [ReadRow(t)], s1, [ReadRow(u)], s');
  }

  lemma WriteAndCommit(w: World, s: State, t: TxId) returns (s': State)
    requires t < |s.txs| && s.txs[t].phase.Read? && s.txs[t].op.id !in s.lock && s.txs[t].op.id in s.rows
    requires s.rows[s.txs[t].op.id].status == s.txs[t].phase.seen.status
    ensures Run(w, s, [WriteRow(t)] + [Commit(t)], s')
    ensures var row := Effect(s.txs[t].op, s.rows[s.txs[t].op.id]);
      && s'.rows == s.rows[s.txs[t].op.id := row]
      && s'.audit == s.audit + [Record(s.txs[t].op.id, Some(s.txs[t].op), Some(s.txs[t].phase.seen), row)]
      && s'.txs == s.txs[t := s.txs[t].(phase := Committed)]
      && s.txs[t].op.id !in s'.lock
  {
    var s1 := After(w, s, WriteRow(t));
    s' := After(w, s1, Commit(t));
    OneStep(w, s, WriteRow(t));
    OneStep(w, s1, Commit(t));
    RunConcat(w, s, [WriteRow(t)], s1, [Commit(t)], s');
  }

  /**
    Only the statuses chain. When two edits of a pending expense both read it
    first, both commit, and the second entry's previous state is the row before
    the first edit: it matches the preceding entry exactly when that edit
    changed nothing.
   */
  lemma ConcurrentEdits(w: World, s: State, t: TxId, u: TxId) returns (ls: seq<Label>, end: State)
    requires EditsReady(w, s, t, u)
    ensures Run(w, s, ls, end) && |end.audit| == |s.audit| + 2
    ensures var id := s.txs[t].op.id;
      var first, second := end.audit[|s.audit|], end.audit[|s.audit| + 1];
      && id in end.rows && end.rows[id] == second.next == Effect(s.txs[u].op, Effect(s.txs[t].op, s.rows[id]))
      && (second.previous == Some(first.next) <==> Effect(s.txs[t].op, s.rows[id]) == s.rows[id])
  {
    var s1 := BothRead(w, s, t, u);
    var s2 := WriteAndCommit(w, s1, t);
    end := WriteAndCommit(w, s2, u);
    RunConcat(w, s1, [WriteRow(t)] + [Commit(t)], s2, [WriteRow(u)] + [Commit(u)], end);
    ls := [ReadRow(t)] + [ReadRow(u)] + ([WriteRow(t)] + [Commit(t)] + ([WriteRow(u)] + [Commit(u)]));
    RunConcat(w, s, [ReadRow(t)] + [ReadRow(u)], s1, [WriteRow(t)] + [Commit(t)] + ([WriteRow(u)] + [Commit(u)]), end);
  }

  /**
    Optimistic concurrency: of two requests that both read a row before either
    writes, the second fails with a conflict exactly when the first has changed
    the status; table and log then hold the first one's result.
   */
  lemma SecondConflictsExactlyWhen(w: World, s: State, t: TxId, u: TxId) returns (ls: seq<Label>, end: State)
    requires BothReady(w, s, t, u)
    ensures Run(w, s, ls, end) && u < |end.txs| && s.txs[t].op.id in end.rows
    ensures var row := Effect(s.txs[t].op, s.rows[s.txs[t].op.id]);
      && end.rows == s.rows[s.txs[t].op.id := row]
      && (end.txs[u].phase == Failed(Conflict) <==> row.status != s.rows[s.txs[t].op.id].status)
      && (end.txs[u].phase.Wrote? <==> row.status == s.rows[s.txs[t].op.id].status)
  {
    hide Check, Effect;
    var s1 := BothRead(w, s, t, u);
    var s2 := WriteAndCommit(w, s1, t);
    OneStep(w, s2, WriteRow(u));
    end := After(w, s2, WriteRow(u));
    RunConcat(w, s1, [WriteRow(t)] + [Commit(t)], s2, [WriteRow(u)], end);
    ls := [ReadRow(t)] + [ReadRow(u)] + ([WriteRow(t)] + [Commit(t)] + [WriteRow(u)]);
    RunConcat(w, s, [ReadRow(t)] + [ReadRow(u)], s1, [WriteRow(t)] + [Commit(t)] + [WriteRow(u)], end);
  }

  /** So of two reviews only one is ever recorded: a review always changes the status. */
  lemma ReviewsChangeStatus(w: World, op: Op, row: Expense)
    requires op.Review? && Check(w, op, Some(row)) == None
    ensures Effect(op, row).status == op.status != row.status
  {
  }

  /** A request between its read and its commit can be rolled back, and then holds no lock. */
  lemma RollbackFrees(w: World, s: State, t: TxId)
    requires t < |s.txs|
    ensures Enabled(s, Rollback(t)) <==> s.txs[t].phase.Read? || s.txs[t].phase.Wrote?
    ensures Enabled(s, Rollback(t)) ==> After(w, s, Rollback(t)).txs[t].phase == Failed(RolledBack) && t !in After(w, s, Rollback(t)).lock.Values
  {
  }

  // --- customer and visit --------------------------------------------------------------------

  /** The customer and visit that an edit leaves on row `p` contradict each other. */
  predicate Splits(w: World, p: Expense, dto: map<Field, Option<string>>) {
    var customer, visit := Effective(p, dto, CustomerId), Effective(p, dto, VisitId);
    Truthy(customer) && Truthy(visit) && visit.value in w.visits && w.visits[visit.value] != customer.value
  }

  lemma EffectFields(op: Op, row: Expense)
    ensures op.Edit? ==> FieldOf(Effect(op, row), CustomerId) == Effective(row, op.dto, CustomerId)
    ensures op.Edit? ==> FieldOf(Effect(op, row), VisitId) == Effective(row, op.dto, VisitId)
    ensures op.Review? ==> Effect(op, row).content == row.content
  {
  }

  /**
    An edit checked on the row `seen` leaves a consistent row `p` consistent
    exactly when the customer and the visit it leaves there do not contradict
    each other; each of them exists, whichever row it came from.
   */
  lemma EditKeepsRelationsExactlyWhen(w: World, op: Op, seen: Expense, p: Expense)
    requires op.Edit? && Check(w, op, Some(seen)) == None && RelationsOk(w, p)
    ensures RelationsOk(w, Effect(op, p)) <==> !Splits(w, p, op.dto)
  {
    EffectFields(op, p);
    hide Effect, FieldOf;
  }

  /** A row whose customer and visit are still those the edit was checked on takes it safely. */
  lemma FreshEditKeepsRelations(w: World, op: Op, seen: Expense, p: Expense)
    requires op.Edit? && Check(w, op, Some(seen)) == None
    requires FieldOf(seen, CustomerId) == FieldOf(p, CustomerId) && FieldOf(seen, VisitId) == FieldOf(p, VisitId)
    ensures RelationsOk(w, Effect(op, p))
  {
    EffectFields(op, p);
    hide Effect, FieldOf;
  }

  /** Entry `k` is an edit that split the customer and visit of the row it was written on. */
  ghost predicate SplitAt(w: World, audit: seq<Record>, k: nat)
    requires k < |audit|
  {
    && audit[k].op.Some? && audit[k].op.value.Edit?
    && Last(audit[..k], audit[k].id).Some? && Splits(w, Last(audit[..k], audit[k].id).value, audit[k].op.value.dto)
  }

  /** Entry `k` is an edit whose customer and visit, as read, are not those of the row it was written on. */
  ghost predicate StaleAt(audit: seq<Record>, k: nat)
    requires k < |audit|
  {
    && audit[k].op.Some? && audit[k].op.value.Edit? && audit[k].previous.Some?
    && Last(audit[..k], audit[k].id).Some?
    && var seen, p := audit[k].previous.value, Last(audit[..k], audit[k].id).value;
      FieldOf(seen, CustomerId) != FieldOf(p, CustomerId) || FieldOf(seen, VisitId) != FieldOf(p, VisitId)
  }

  lemma {:induction false} EarlierRowOk(w: World, audit: seq<Record>, n: nat, id: Id)
    requires n <= |audit| && (forall k :: 0 <= k < n ==> RelationsOk(w, audit[k].next))
    ensures Last(audit[..n], id).Some? ==> RelationsOk(w, Last(audit[..n], id).value)
  {
    hide RelationsOk;
    if n > 0 {
      EarlierRowOk(w, audit, n - 1, id);
      LastStep(audit, n, id);
    }
  }

  lemma EntryRelations(w: World, audit: seq<Record>, k: nat)
    requires Linked(w, audit) && k < |audit| && forall j :: 0 <= j < k ==> RelationsOk(w, audit[j].next)
    ensures RelationsOk(w, audit[k].next) <==> !SplitAt(w, audit, k)
    ensures SplitAt(w, audit, k) ==> StaleAt(audit, k)
  {
    var r := audit[k];
    EarlierRowOk(w, audit, k, r.id);
    assert Follows(w, r, Last(audit[..k], r.id));
    if r.op.Some? {
      var p := Last(audit[..k], r.id).value;
      if r.op.value.Edit? {
        EditKeepsRelationsExactlyWhen(w, r.op.value, r.previous.value, p);
        hide Check, Effect, RelationsOk, FieldOf, Splits;
        if !StaleAt(audit, k) {
          FreshEditKeepsRelations(w, r.op.value, r.previous.value, p);
        }
      } else {
        hide Check, Effect;
        EffectFields(r.op.value, p);
      }
    }
  }

  /** The first `n` entries leave consistent rows. */
  ghost predicate AllConsistent(w: World, audit: seq<Record>, n: nat)
    requires n <= |audit|
  {
    forall k :: 0 <= k < n ==> RelationsOk(w, audit[k].next)
  }

  ghost predicate NoneSplit(w: World, audit: seq<Record>, n: nat)
    requires n <= |audit|
  {
    forall k :: 0 <= k < n ==> !SplitAt(w, audit, k)
  }

  ghost predicate NoneStale(audit: seq<Record>, n: nat)
    requires n <= |audit|
  {
    forall k :: 0 <= k < n ==> !StaleAt(audit, k)
  }

  lemma {:induction false} EntriesRelations(w: World, audit: seq<Record>, n: nat)
    requires Linked(w, audit) && n <= |audit|
    ensures AllConsistent(w, audit, n) <==> NoneSplit(w, audit, n)
    ensures NoneStale(audit, n) ==> NoneSplit(w, audit, n)
  {
    hide RelationsOk, SplitAt, StaleAt, Linked;
    if n > 0 {
      EntriesRelations(w, audit, n - 1);
      if AllConsistent(w, audit, n - 1) {
        EntryRelations(w, audit, n - 1);
      }
    }
  }

  /**
    Over a whole run, every expense the log ever records has a visit of its own
    customer exactly when no edit was written on a row whose customer and visit,
    merged with its own, contradict each other. Only an edit that read another
    customer or visit than it overwrote can do that.
   */
  lemma RelationsHoldExactlyWhen(w: World, s: State, ls: seq<Label>, s': State)
    requires Initial(s) && Run(w, s, ls, s')
    ensures AllConsistent(w, s'.audit, |s'.audit|) <==> NoneSplit(w, s'.audit, |s'.audit|)
    ensures NoneStale(s'.audit, |s'.audit|) ==> forall id :: id in s'.rows ==> RelationsOk(w, s'.rows[id])
  {
    hide RelationsOk, NoneSplit, NoneStale, Run, Initial;
    RunLinks(w, s, ls, s');
    EntriesRelations(w, s'.audit, |s'.audit|);
    if NoneStale(s'.audit, |s'.audit|) {
      forall id | id in s'.rows ensures RelationsOk(w, s'.rows[id]) {
        EarlierRowOk(w, s'.audit, |s'.audit|, id);
        assert s'.audit[..|s'.audit|] == s'.audit;
      }
    }
  }

  lemma RunLinks(w: World, s: State, ls: seq<Label>, s': State)
    requires Initial(s) && Run(w, s, ls, s')
    ensures Linked(w, s'.audit)
    ensures forall id :: id in s'.rows ==> Last(s'.audit, id) == Some(s'.rows[id])
  {
    RunKeepsInv(w, s, ls, s');
    forall id | id in s'.rows ensures Last(s'.audit, id) == Some(s'.rows[id]) {
      assert Last(s'.audit, id) == RowOf(s'.rows, id);
    }
  }

  /**
    Two edits that both read a pending row before either writes: it ends up inconsistent
    exactly when the customer and the visit merged from the row, the first edit
    and the second contradict each other.
   */
  lemma ConcurrentEditsSplitExactlyWhen(w: World, s: State, t: TxId, u: TxId) returns (ls: seq<Label>, end: State)
    requires EditsReady(w, s, t, u)
    ensures Run(w, s, ls, end) && s.txs[t].op.id in end.rows
    ensures var row := s.rows[s.txs[t].op.id];
      var first, second := s.txs[t].op.dto, s.txs[u].op.dto;
      var c := if CustomerId in second then second[CustomerId] else Effective(row, first, CustomerId);
      var v := if VisitId in second then second[VisitId] else Effective(row, first, VisitId);
      var contradict := Truthy(c) && Truthy(v) && v.value in w.visits && w.visits[v.value] != c.value;
      RelationsOk(w, end.rows[s.txs[t].op.id]) <==> !contradict
  {
    ls, end := ConcurrentEdits(w, s, t, u);
    var row := s.rows[s.txs[t].op.id];
    var between := Effect(s.txs[t].op, row);
    EffectFields(s.txs[t].op, row);
    EffectFields(s.txs[u].op, between);
    hide Effect, FieldOf, Run, EditsReady;
  }
}

/** `update` and `updateStatus` as the service runs them on its tables (commercial-expenses.service.ts). */
module ExpenseService {
  import opened Prelude
  import opened Text
  import E = Expenses

  datatype Reply = Updated(row: E.Expense) | Rejected(failure: E.Failure)

  /** What a whole request does to the tables when nothing runs beside it. */
  function Served(w: E.World, rows: map<E.Id, E.Expense>, audit: seq<E.Record>, op: E.Op)
    : (map<E.Id, E.Expense>, seq<E.Record>, Reply)
  {
    match E.Check(w, op, E.RowOf(rows, op.id))
    case Some(failure) => (rows, audit, Rejected(failure))
    case None =>
      var next := E.Effect(op, rows[op.id]);
      (rows[op.id := next], audit + [E.Record(op.id, Some(op), Some(rows[op.id]), next)], Updated(next))
  }

  const FIELDS: seq<E.Field> := [
    E.ExpenseDate, E.Category, E.Amount, E.Description, E.SupplierName, E.SupplierNit, E.InvoiceNumber,
    E.PaymentMethod, E.ExtractionConfidence, E.ExtractionModel, E.CustomerId, E.VisitId]

  lemma FieldsAreAll(f: E.Field)
    ensures f in FIELDS
  {
    match f
    case ExpenseDate => assert FIELDS[0] == f;
    case Category => assert FIELDS[1] == f;
    case Amount => assert FIELDS[2] == f;
    case Description => assert FIELDS[3] == f;
    case SupplierName => assert FIELDS[4] == f;
    case SupplierNit => assert FIELDS[5] == f;
    case InvoiceNumber => assert FIELDS[6] == f;
    case PaymentMethod => assert FIELDS[7] == f;
    case ExtractionConfidence => assert FIELDS[8] == f;
    case ExtractionModel => assert FIELDS[9] == f;
    case CustomerId => assert FIELDS[10] == f;
    case VisitId => assert FIELDS[11] == f;
  }

  /** What `data` holds after the first `n` fields of the request have been looked at. */
  ghost predicate Built(data: map<E.Field, Option<string>>, dto: map<E.Field, Option<string>>, n: nat)
    requires n <= |FIELDS|
  {
    && (forall f :: f in data <==> f in dto && f in FIELDS[..n])
    && forall f :: f in data ==> data[f] == E.Normalized(f, dto[f])
  }

  /** `if (dto.f !== undefined) data.f = ...` */
  method Carry(data: map<E.Field, Option<string>>, dto: map<E.Field, Option<string>>, f: E.Field, ghost n: nat)
    returns (next: map<E.Field, Option<string>>)
    requires n < |FIELDS| && f == FIELDS[n] && Built(data, dto, n)
    ensures Built(next, dto, n + 1)
  {
    hide E.Normalized;
    assert FIELDS[..n + 1] == FIELDS[..n] + [f];
    next := if f in dto then data[f := E.Normalized(f, dto[f])] else data;
  }

  lemma AllBuilt(data: map<E.Field, Option<string>>, dto: map<E.Field, Option<string>>)
    requires Built(data, dto, |FIELDS|)
    ensures data.Keys == dto.Keys && forall f :: f in dto ==> data[f] == E.Normalized(f, dto[f])
  {
    hide E.Normalized;
    forall f: E.Field ensures f in FIELDS {
      FieldsAreAll(f);
    }
    assert FIELDS[..|FIELDS|] == FIELDS;
  }

  lemma NothingBuilt(dto: map<E.Field, Option<string>>)
    ensures Built(map[], dto, 0)
  {
  }

  /** The update data, built field by field from the keys the request carries. */
  method BuildData(dto: map<E.Field, Option<string>>) returns (data: map<E.Field, Option<string>>)
    ensures data.Keys == dto.Keys
    ensures forall f :: f in dto && f !in E.TRIMMED_FIELDS ==> data[f] == dto[f]
    ensures forall f :: f in dto && f in E.TRIMMED_FIELDS ==>
      if dto[f].Some? && Trim(dto[f].value) != "" then data[f] == Some(Trim(dto[f].value)) else data[f] == None
  {
    hide Built;
    NothingBuilt(dto);
    data := map[];
    data := Carry(data, dto, E.ExpenseDate, 0);
    data := Carry(data, dto, E.Category, 1);
    data := Carry(data, dto, E.Amount, 2);
    data := Carry(data, dto, E.Description, 3);
    data := Carry(data, dto, E.SupplierName, 4);
    data := Carry(data, dto, E.SupplierNit, 5);
    data := Carry(data, dto, E.InvoiceNumber, 6);
    data := Carry(data, dto, E.PaymentMethod, 7);
    data := Carry(data, dto, E.ExtractionConfidence, 8);
    data := Carry(data, dto, E.ExtractionModel, 9);
    data := Carry(data, dto, E.CustomerId, 10);
    data := Carry(data, dto, E.VisitId, 11);
    AllBuilt(data, dto);
  }

  class Service {
    const world: E.World
    var rows: map<E.Id, E.Expense>
    var audit: seq<E.Record>

    constructor (world: E.World)
      ensures this.world == world && rows == map[] && audit == []
    {
      this.world := world;
      rows, audit := map[], [];
    }

    /** `updateMany` with the id and the expected status in its condition. */
    method UpdateMany(id: E.Id, status: E.Status, row: E.Expense) returns (count: nat)
      modifies this`rows
      ensures count == if id in old(rows) && old(rows)[id].status == status then 1 else 0
      ensures rows == if count == 1 then old(rows)[id := row] else old(rows)
    {
      if id in rows && rows[id].status == status {
        rows := rows[id := row];
        count := 1;
      } else {
        count := 0;
      }
    }

    method Update(user: E.User, id: E.Id, dto: map<E.Field, Option<string>>) returns (reply: Reply)
      modifies this`rows, this`audit
      ensures (rows, audit, reply) == Served(world, old(rows), old(audit), E.Edit(user, id, dto))
      ensures reply.Updated? ==> E.RelationsOk(world, reply.row)
    {
      if id !in rows { return Rejected(E.NotFound); }
      var expense := rows[id];
      if !E.CanRead(user, expense) { return Rejected(E.Forbidden); }
      if expense.status != E.Pendiente && expense.status != E.RequiereCorreccion { return Rejected(E.BadRequest); }
      if !E.IsControlRole(user) && expense.submittedBy != user.id { return Rejected(E.Forbidden); }
      var failure := E.RelationFailure(world, E.Effective(expense, dto, E.CustomerId), E.Effective(expense, dto, E.VisitId));
      if failure.Some? { return Rejected(failure.value); }

      var data := BuildData(dto);
      assert data == E.DataOf(dto);
      var row := expense.(content := E.Patched(expense.content, data));
      if expense.status == E.RequiereCorreccion {
        row := row.(status := E.Pendiente, reviewNote := None, reviewedBy := None);
      }
      ghost var op := E.Edit(user, id, dto);
      assert row == E.Effect(op, expense);
      E.FreshEditKeepsRelations(world, op, expense, expense);
      var count := UpdateMany(id, expense.status, row);
      if count != 1 { return Rejected(E.Conflict); }
      audit := audit + [E.Record(id, Some(E.Edit(user, id, dto)), Some(expense), row)];
      reply := Updated(row);
    }

    method UpdateStatus(user: E.User, id: E.Id, status: E.Status, note: Option<string>) returns (reply: Reply)
      modifies this`rows, this`audit
      ensures (rows, audit, reply) == Served(world, old(rows), old(audit), E.Review(user, id, status, note))
    {
      if !E.IsControlRole(user) { return Rejected(E.Forbidden); }
      if id !in rows { return Rejected(E.NotFound); }
      var expense := rows[id];
      if status !in E.Transitions(expense.status) { return Rejected(E.BadRequest); }
      var reviewNote := if note.Some? then Some(Trim(note.value)) else None;
      if E.NeedsNote(status) && (reviewNote == None || reviewNote.value == "") { return Rejected(E.BadRequest); }
      var row := expense.(status := status, reviewNote := reviewNote, reviewedBy := Some(user));
      var count := UpdateMany(id, expense.status, row);
      if count != 1 { return Rejected(E.Conflict); }
      audit := audit + [E.Record(id, Some(E.Review(user, id, status, note)), Some(expense), row)];
      reply := Updated(row);
    }
  }

  /** The value a request leaves in a field: its own if it names the field, else the stored one. */
  function Merged(row: E.Expense, dto: map<E.Field, Option<string>>, f: E.Field): Option<string> {
    if f in dto then dto[f] else if f in row.content then Some(row.content[f]) else None
  }

  /** The text fields lose their outer spaces, and are null when nothing is left. */
  predicate Stored(f: E.Field, asked: Option<string>, stored: Option<string>) {
    if f in {E.SupplierName, E.SupplierNit, E.InvoiceNumber, E.PaymentMethod, E.ExtractionModel}
    then stored == match asked case None => None case Some(text) => if Trim(text) == "" then None else Some(Trim(text))
    else stored == asked
  }

  /** Named, and not empty: what the service takes as a customer or a visit to look up. */
  predicate Given(v: Option<string>) { v != None && v != Some("") }

  predicate NoControl(user: E.User) { user.role in {E.Comercial, E.Tecnico, E.Logistica} }

  lemma RolesSplit(user: E.User)
    ensures E.IsControlRole(user) <==> !NoControl(user)
  {
    match user.role
    case Administrador =>
    case DirectorComercial =>
    case Comercial =>
    case Tecnico =>
    case Facturacion =>
    case Logistica =>
    case Promotor =>
  }

  /** Why an edit of a stored row is refused, if it is. */
  function EditRefusal(w: E.World, row: E.Expense, user: E.User, dto: map<E.Field, Option<string>>): Option<E.Failure> {
    var customer, visit := Merged(row, dto, E.CustomerId), Merged(row, dto, E.VisitId);
    if NoControl(user) && row.submittedBy != user.id then Some(E.Forbidden)
    else if row.status in {E.Aprobado, E.Rechazado, E.Contabilizado} then Some(E.BadRequest)
    else if Given(customer) && customer.value !in w.customers then Some(E.NotFound)
    else if Given(visit) && visit.value !in w.visits then Some(E.NotFound)
    else if Given(customer) && Given(visit) && w.visits[visit.value] != customer.value then Some(E.BadRequest)
    else None
  }

  lemma EditChecks(w: E.World, row: E.Expense, user: E.User, id: E.Id, dto: map<E.Field, Option<string>>)
    ensures E.Check(w, E.Edit(user, id, dto), Some(row)) == EditRefusal(w, row, user, dto)
  {
    RolesSplit(user);
    hide NoControl, E.IsControlRole;
    assert E.Editable(row.status) <==> row.status !in {E.Aprobado, E.Rechazado, E.Contabilizado};
    assert E.Effective(row, dto, E.CustomerId) == Merged(row, dto, E.CustomerId);
    assert E.Effective(row, dto, E.VisitId) == Merged(row, dto, E.VisitId);
    hide E.Editable, Merged, E.Effective;
  }

  /** What an accepted edit leaves in every column. */
  predicate EditedRow(row: E.Expense, dto: map<E.Field, Option<string>>, next: E.Expense) {
    && next.status == E.Pendiente && next.submittedBy == row.submittedBy
    && (row.status == E.RequiereCorreccion ==> next.reviewNote == None && next.reviewedBy == None)
    && (row.status == E.Pendiente ==> next.reviewNote == row.reviewNote && next.reviewedBy == row.reviewedBy)
    && forall f: E.Field ::
      if f in dto then Stored(f, dto[f], E.FieldOf(next, f)) else E.FieldOf(next, f) == E.FieldOf(row, f)
  }

  lemma EditEffects(row: E.Expense, user: E.User, id: E.Id, dto: map<E.Field, Option<string>>)
    requires row.status !in {E.Aprobado, E.Rechazado, E.Contabilizado}
    ensures EditedRow(row, dto, E.Effect(E.Edit(user, id, dto), row))
  {
    hide Trim;
    var next := E.Effect(E.Edit(user, id, dto), row);
    assert next.content == E.Patched(row.content, E.DataOf(dto));
    forall f: E.Field
      ensures if f in dto then Stored(f, dto[f], E.FieldOf(next, f)) else E.FieldOf(next, f) == E.FieldOf(row, f)
    {
      if f in dto {
        assert E.DataOf(dto)[f] == E.Normalized(f, dto[f]);
      }
    }
  }

  /** An edit of a missing row fails; else it is refused for the first reason that holds, or merges its fields into the row. */
  lemma EditAnsweredExactlyWhen(w: E.World, rows: map<E.Id, E.Expense>, audit: seq<E.Record>, user: E.User, id: E.Id, dto: map<E.Field, Option<string>>)
    ensures var (rows', audit', reply) := Served(w, rows, audit, E.Edit(user, id, dto));
      if id !in rows then reply == Rejected(E.NotFound)
      else match EditRefusal(w, rows[id], user, dto)
        case Some(failure) => reply == Rejected(failure)
        case None => reply.Updated? && EditedRow(rows[id], dto, reply.row)
    ensures var (rows', audit', reply) := Served(w, rows, audit, E.Edit(user, id, dto));
      match reply
      case Rejected(_) => rows' == rows && audit' == audit
      case Updated(next) =>
        id in rows && rows' == rows[id := next]
        && audit' == audit + [E.Record(id, Some(E.Edit(user, id, dto)), Some(rows[id]), next)]
  {
    if id in rows {
      EditChecks(w, rows[id], user, id, dto);
      if EditRefusal(w, rows[id], user, dto) == None {
        assert rows[id].status !in {E.Aprobado, E.Rechazado, E.Contabilizado};
        EditEffects(rows[id], user, id, dto);
      }
      hide E.Check, E.Effect, EditRefusal, EditedRow;
    }
  }

  /** The reviews the table of transitions allows, but for the note. */
  predicate CanMove(from: E.Status, to: E.Status) {
    || (from == E.Pendiente && to in {E.Aprobado, E.RequiereCorreccion, E.Rechazado})
    || (from == E.RequiereCorreccion && to == E.Pendiente)
    || (from == E.Aprobado && to == E.Contabilizado)
  }

  lemma TransitionsAre(from: E.Status, to: E.Status)
    ensures to in E.Transitions(from) <==> CanMove(from, to)
  {
    match from
    case Pendiente =>
    case RequiereCorreccion =>
    case Aprobado =>
    case Rechazado =>
    case Contabilizado =>
  }

  /** What a review is answered, and what it leaves. */
  lemma ReviewAnsweredExactlyWhen(
    w: E.World, rows: map<E.Id, E.Expense>, audit: seq<E.Record>, user: E.User, id: E.Id, status: E.Status, note: Option<string>)
    ensures var (rows', audit', reply) := Served(w, rows, audit, E.Review(user, id, status, note));
      if NoControl(user) then reply == Rejected(E.Forbidden)
      else if id !in rows then reply == Rejected(E.NotFound)
      else if !CanMove(rows[id].status, status) then reply == Rejected(E.BadRequest)
      else if status in {E.RequiereCorreccion, E.Rechazado} && (note == None || Trim(note.value) == "") then reply == Rejected(E.BadRequest)
      else
        && reply == Updated(E.Expense(
          rows[id].content, status, rows[id].submittedBy, match note case None => None case Some(text) => Some(Trim(text)), Some(user)))
    ensures var (rows', audit', reply) := Served(w, rows, audit, E.Review(user, id, status, note));
      match reply
      case Rejected(_) => rows' == rows && audit' == audit
      case Updated(next) =>
        id in rows && rows' == rows[id := next]
        && audit' == audit + [E.Record(id, Some(E.Review(user, id, status, note)), Some(rows[id]), next)]
  {
    RolesSplit(user);
    hide Trim, NoControl, E.IsControlRole, E.Transitions, CanMove;
    if id in rows {
      TransitionsAre(rows[id].status, status);
    }
  }

  /** The interleaved steps, run back to back, are the request the service serves. */
  lemma StepsRefineService(w: E.World, s: E.State, t: E.TxId) returns (ls: seq<E.Label>, end: E.State)
    requires t < |s.txs| && s.txs[t].phase == E.Start && s.txs[t].op.id !in s.lock
    ensures E.Run(w, s, ls, end)
    ensures var served := Served(w, s.rows, s.audit, s.txs[t].op);
      && end.rows == served.0 && end.audit == served.1
      && |end.txs| == |s.txs| && (forall u :: 0 <= u < |s.txs| && u != t ==> end.txs[u] == s.txs[u])
      && (served.2.Updated? <==> end.txs[t].phase == E.Committed)
      && (served.2.Rejected? ==> end.txs[t].phase == E.Failed(served.2.failure))
  {
    var s1 := E.After(w, s, E.ReadRow(t));
    E.OneStep(w, s, E.ReadRow(t));
    if s1.txs[t].phase.Failed? {
      ls, end := [E.ReadRow(t)], s1;
    } else {
      end := E.WriteAndCommit(w, s1, t);
      E.RunConcat(w, s, [E.ReadRow(t)], s1, [E.WriteRow(t)] + [E.Commit(t)], end);
      ls := [E.ReadRow(t)] + ([E.WriteRow(t)] + [E.Commit(t)]);
    }
  }
}

/**
  Credit exposure of a customer (credit.service.ts).

  A table is a sequence and a row's id is its position; rows are never deleted.
  Money is an integer number of cents.
 */
module Credit {
  import opened Prelude

  type Id = nat

  datatype OrderStatus = Recibido | OrdenFacturacion | Facturado | Despachado | EnTransito | Entregado

  datatype InvoiceStatus = Emitida | Enviada | ParcialmentePagada | Pagada | Vencida | Anulada

  datatype Customer = Customer(creditLimit: Option<int>, assignedTo: Option<Id>)

  datatype Order = Order(customerId: Id, companyId: Id, status: OrderStatus, total: nat)

  datatype Invoice = Invoice(customerId: Id, companyId: Id, orderId: Option<Id>, status: InvoiceStatus, totalAmount: nat)

  datatype Db = Db(customers: seq<Customer>, orders: seq<Order>, invoices: seq<Invoice>)

  const ORDER_EXPOSURE_STATUSES: set<OrderStatus> :=
    {OrdenFacturacion, Facturado, Despachado, EnTransito, Entregado}

  predicate IsLive(inv: Invoice) { inv.status != Anulada }

  predicate IsOpen(inv: Invoice) { inv.status != Pagada && inv.status != Anulada }

  predicate HasLiveInvoice(db: Db, o: Id) {
    exists i :: 0 <= i < |db.invoices| && db.invoices[i].orderId == Some(o) && IsLive(db.invoices[i])
  }

  predicate InCompany(company: Option<Id>, id: Id) { company == None || company == Some(id) }

  /** What one invoice row adds to the open-invoice aggregate of customer `c`. */
  function InvoiceShare(inv: Invoice, c: Id, company: Option<Id>): nat {
    if inv.customerId == c && IsOpen(inv) && InCompany(company, inv.companyId) then inv.totalAmount else 0
  }

  /** What order `o` adds to the approved-but-uninvoiced sum of customer `c`. */
  function OrderShare(db: Db, o: Id, c: Id, exclude: Option<Id>, company: Option<Id>): nat
    requires o < |db.orders|
  {
    var order := db.orders[o];
    if order.customerId == c && order.status in ORDER_EXPOSURE_STATUSES && !HasLiveInvoice(db, o)
       && exclude != Some(o) && InCompany(company, order.companyId)
    then order.total else 0
  }

  function InvoiceShares(db: Db, c: Id, company: Option<Id>): seq<int> {
    seq(|db.invoices|, i requires 0 <= i < |db.invoices| => InvoiceShare(db.invoices[i], c, company))
  }

  function OrderShares(db: Db, c: Id, exclude: Option<Id>, company: Option<Id>): seq<int> {
    seq(|db.orders|, o requires 0 <= o < |db.orders| => OrderShare(db, o, c, exclude, company))
  }

  function OpenInvoiceTotal(db: Db, c: Id, company: Option<Id> := None): int {
    Total(InvoiceShares(db, c, company))
  }

  function OpenOrderTotal(db: Db, c: Id, exclude: Option<Id>, company: Option<Id> := None): int {
    Total(OrderShares(db, c, exclude, company))
  }

  /** getCustomerExposure: open invoices plus approved orders without a live invoice. */
  function Exposure(db: Db, c: Id, exclude: Option<Id> := None): int {
    OpenInvoiceTotal(db, c) + OpenOrderTotal(db, c, exclude)
  }

  /** `customer.creditLimit ?? 0`. */
  function Limit(db: Db, c: Id): int
    requires c < |db.customers|
  {
    match db.customers[c].creditLimit case None => 0 case Some(l) => l
  }

  // --- what the exposure is, in the rows' own fields --------------------------------

  /** What the customer's invoices that are neither paid nor annulled bill. */
  function Billed(invoices: seq<Invoice>, c: Id): int {
    if invoices == [] then 0
    else
      var inv := invoices[|invoices| - 1];
      Billed(invoices[..|invoices| - 1], c)
      + if inv.customerId == c && inv.status != Pagada && inv.status != Anulada then inv.totalAmount else 0
  }

  /** What the customer's first `n` orders past `recibido` add up to, but for those with an invoice not annulled. */
  function Unbilled(db: Db, c: Id, exclude: Option<Id>, n: nat): int
    requires n <= |db.orders|
  {
    if n == 0 then 0
    else
      var order := db.orders[n - 1];
      Unbilled(db, c, exclude, n - 1)
      + if order.customerId == c && order.status != Recibido && exclude != Some(n - 1)
           && (forall i :: 0 <= i < |db.invoices| && db.invoices[i].orderId == Some(n - 1) ==> db.invoices[i].status == Anulada)
        then order.total else 0
  }

  lemma {:induction false} InvoicesAreBilled(db: Db, c: Id, n: nat)
    requires n <= |db.invoices|
    ensures Total(InvoiceShares(db, c, None)[..n]) == Billed(db.invoices[..n], c)
  {
    if n > 0 {
      InvoicesAreBilled(db, c, n - 1);
      assert InvoiceShares(db, c, None)[..n][..n - 1] == InvoiceShares(db, c, None)[..n - 1];
      assert db.invoices[..n][..n - 1] == db.invoices[..n - 1];
    }
  }

  lemma {:induction false} OrdersAreUnbilled(db: Db, c: Id, exclude: Option<Id>, n: nat)
    requires n <= |db.orders|
    ensures Total(OrderShares(db, c, exclude, None)[..n]) == Unbilled(db, c, exclude, n)
  {
    if n > 0 {
      OrdersAreUnbilled(db, c, exclude, n - 1);
      assert OrderShares(db, c, exclude, None)[..n][..n - 1] == OrderShares(db, c, exclude, None)[..n - 1];
    }
  }

  /** The exposure is the open invoices and the approved orders without a live invoice, no more and no less. */
  lemma ExposureIs(db: Db, c: Id, exclude: Option<Id>)
    ensures Exposure(db, c, exclude) == Billed(db.invoices, c) + Unbilled(db, c, exclude, |db.orders|)
  {
    InvoicesAreBilled(db, c, |db.invoices|);
    OrdersAreUnbilled(db, c, exclude, |db.orders|);
    assert InvoiceShares(db, c, None)[..|db.invoices|] == InvoiceShares(db, c, None) && db.invoices[..|db.invoices|] == db.invoices;
    assert OrderShares(db, c, exclude, None)[..|db.orders|] == OrderShares(db, c, exclude, None);
  }

  // --- row updates -----------------------------------------------------------

  function AddInvoice(db: Db, inv: Invoice): Db { db.(invoices := db.invoices + [inv]) }

  function AddOrder(db: Db, order: Order): Db { db.(orders := db.orders + [order]) }

  function SetInvoiceStatus(db: Db, k: Id, status: InvoiceStatus): Db
    requires k < |db.invoices|
  {
    db.(invoices := db.invoices[k := db.invoices[k].(status := status)])
  }

  function SetOrder(db: Db, o: Id, order: Order): Db
    requires o < |db.orders|
  {
    db.(orders := db.orders[o := order])
  }

  /** What annulling invoice `k` puts back on the order side of customer `c`. */
  function Reexposed(db: Db, k: Id, c: Id, exclude: Option<Id>): nat
    requires k < |db.invoices|
  {
    match db.invoices[k].orderId
    case None => 0
    case Some(o) =>
      if o < |db.orders| then OrderShare(SetInvoiceStatus(db, k, Anulada), o, c, exclude, None) else 0
  }

  // --- how one row moves the sums --------------------------------------------

  lemma OrderSharesAt(db: Db, db': Db, k: Id, c: Id, exclude: Option<Id>)
    requires |db.orders| == |db'.orders| && k < |db.orders|
    requires forall o :: 0 <= o < |db.orders| && o != k ==>
      OrderShare(db', o, c, exclude, None) == OrderShare(db, o, c, exclude, None)
    ensures OpenOrderTotal(db', c, exclude)
         == OpenOrderTotal(db, c, exclude) - OrderShare(db, k, c, exclude, None) + OrderShare(db', k, c, exclude, None)
  {
    TotalPoint(OrderShares(db, c, exclude, None), OrderShares(db', c, exclude, None), k);
  }

  lemma OrderSharesSame(db: Db, db': Db, c: Id, exclude: Option<Id>)
    requires |db.orders| == |db'.orders|
    requires forall o :: 0 <= o < |db.orders| ==>
      OrderShare(db', o, c, exclude, None) == OrderShare(db, o, c, exclude, None)
    ensures OpenOrderTotal(db', c, exclude) == OpenOrderTotal(db, c, exclude)
  {
    assert OrderShares(db, c, exclude, None) == OrderShares(db', c, exclude, None);
  }

  lemma AddInvoiceOpenTotal(db: Db, inv: Invoice, c: Id)
    ensures OpenInvoiceTotal(AddInvoice(db, inv), c) == OpenInvoiceTotal(db, c) + InvoiceShare(inv, c, None)
  {
    var xs := InvoiceShares(db, c, None);
    assert InvoiceShares(AddInvoice(db, inv), c, None) == xs + [InvoiceShare(inv, c, None)];
    TotalAppend(xs, InvoiceShare(inv, c, None));
  }

  lemma AddInvoiceLive(db: Db, inv: Invoice, o: Id)
    ensures HasLiveInvoice(AddInvoice(db, inv), o) <==> HasLiveInvoice(db, o) || (inv.orderId == Some(o) && IsLive(inv))
  {
    var db' := AddInvoice(db, inv);
    assert db'.invoices[|db.invoices|] == inv;
    forall i | 0 <= i < |db.invoices| ensures db'.invoices[i] == db.invoices[i] {}
  }

  /** Billing an order: its total leaves the order side as the invoice enters the other. */
  lemma InvoiceReplacesOrder(db: Db, inv: Invoice, c: Id, exclude: Option<Id>)
    requires IsLive(inv)
    ensures Exposure(AddInvoice(db, inv), c, exclude)
         == Exposure(db, c, exclude) + InvoiceShare(inv, c, None)
            - (if inv.orderId.Some? && inv.orderId.value < |db.orders|
               then OrderShare(db, inv.orderId.value, c, exclude, None) else 0)
  {
    var db' := AddInvoice(db, inv);
    AddInvoiceOpenTotal(db, inv, c);
    forall o: Id { AddInvoiceLive(db, inv, o); }
    if inv.orderId.Some? && inv.orderId.value < |db.orders| {
      OrderSharesAt(db, db', inv.orderId.value, c, exclude);
    } else {
      OrderSharesSame(db, db', c, exclude);
    }
  }

  /**
    Exposure is conserved by billing exactly when the invoice bills the order's
    own total, whoever the customer is and whichever order is left out.
   */
  lemma BillingConserves(db: Db, o: Id, inv: Invoice)
    requires o < |db.orders| && db.orders[o].status in ORDER_EXPOSURE_STATUSES && !HasLiveInvoice(db, o)
    requires inv.orderId == Some(o) && inv.customerId == db.orders[o].customerId && IsOpen(inv)
    ensures Exposure(AddInvoice(db, inv), inv.customerId) == Exposure(db, inv.customerId)
       <==> inv.totalAmount == db.orders[o].total
    ensures forall c: Id :: c != inv.customerId ==> Exposure(AddInvoice(db, inv), c) == Exposure(db, c)
  {
    forall c: Id { InvoiceReplacesOrder(db, inv, c, None); }
  }

  lemma StatusLive(db: Db, k: Id, status: InvoiceStatus, o: Id)
    requires k < |db.invoices|
    ensures HasLiveInvoice(SetInvoiceStatus(db, k, status), o)
       <==> (db.invoices[k].orderId == Some(o) && status != Anulada)
            || exists i :: 0 <= i < |db.invoices| && i != k && db.invoices[i].orderId == Some(o) && IsLive(db.invoices[i])
  {
    var db' := SetInvoiceStatus(db, k, status);
    assert db'.invoices[k] == db.invoices[k].(status := status);
    forall i | 0 <= i < |db.invoices| && i != k ensures db'.invoices[i] == db.invoices[i] {}
  }

  lemma SetInvoiceOpenTotal(db: Db, k: Id, status: InvoiceStatus, c: Id)
    requires k < |db.invoices|
    ensures OpenInvoiceTotal(SetInvoiceStatus(db, k, status), c)
         == OpenInvoiceTotal(db, c) - InvoiceShare(db.invoices[k], c, None)
            + InvoiceShare(db.invoices[k].(status := status), c, None)
  {
    TotalPoint(InvoiceShares(db, c, None), InvoiceShares(SetInvoiceStatus(db, k, status), c, None), k);
  }

  /** The exact effect of annulling one live invoice on every customer's exposure. */
  lemma AnnulEffect(db: Db, k: Id, c: Id, exclude: Option<Id>)
    requires k < |db.invoices| && IsLive(db.invoices[k])
    ensures Exposure(SetInvoiceStatus(db, k, Anulada), c, exclude)
         == Exposure(db, c, exclude) - InvoiceShare(db.invoices[k], c, None) + Reexposed(db, k, c, exclude)
  {
    var db' := SetInvoiceStatus(db, k, Anulada);
    SetInvoiceOpenTotal(db, k, Anulada, c);
    forall o: Id { StatusLive(db, k, Anulada, o); }
    match db.invoices[k].orderId
    case None => OrderSharesSame(db, db', c, exclude);
    case Some(o) =>
      assert HasLiveInvoice(db, o);
      if o < |db.orders| {
        OrderSharesAt(db, db', o, c, exclude);
      } else {
        OrderSharesSame(db, db', c, exclude);
      }
  }

  /** What a status change of invoice `k`, to annulment or back from it included, adds to customer `c`. */
  function Rise(db: Db, k: Id, status: InvoiceStatus, c: Id): int
    requires k < |db.invoices|
  {
    var inv := db.invoices[k];
    InvoiceShare(inv.(status := status), c, None) - InvoiceShare(inv, c, None)
    + (if IsLive(inv) && status == Anulada then Reexposed(db, k, c, None) else 0)
    - (if !IsLive(inv) && status != Anulada && inv.orderId.Some? && inv.orderId.value < |db.orders|
       then OrderShare(db, inv.orderId.value, c, None, None) else 0)
  }

  /** The exact effect of any status change of an invoice on every customer's exposure. */
  lemma StatusEffect(db: Db, k: Id, status: InvoiceStatus, c: Id)
    requires k < |db.invoices|
    ensures Exposure(SetInvoiceStatus(db, k, status), c) == Exposure(db, c) + Rise(db, k, status, c)
  {
    var inv, db' := db.invoices[k], SetInvoiceStatus(db, k, status);
    if IsLive(inv) && status == Anulada {
      AnnulEffect(db, k, c, None);
    } else {
      SetInvoiceOpenTotal(db, k, status, c);
      assert SetInvoiceStatus(db, k, inv.status) == db;
      forall o: Id ensures HasLiveInvoice(db', o) <==> HasLiveInvoice(db, o) || (inv.orderId == Some(o) && status != Anulada) {
        StatusLive(db, k, status, o);
        StatusLive(db, k, inv.status, o);
      }
      if inv.orderId.Some? && inv.orderId.value < |db.orders| {
        OrderSharesAt(db, db', inv.orderId.value, c, None);
      } else {
        OrderSharesSame(db, db', c, None);
      }
    }
  }

  /** Billing an order and annulling the bill gives back every customer's exposure. */
  lemma AnnulUndoesBilling(db: Db, inv: Invoice, c: Id, exclude: Option<Id>)
    requires IsOpen(inv)
    requires inv.orderId.Some? ==> !HasLiveInvoice(db, inv.orderId.value)
    ensures Exposure(SetInvoiceStatus(AddInvoice(db, inv), |db.invoices|, Anulada), c, exclude) == Exposure(db, c, exclude)
  {
    var billed := AddInvoice(db, inv);
    var k := |db.invoices|;
    assert billed.invoices[k] == inv;
    InvoiceReplacesOrder(db, inv, c, exclude);
    AnnulEffect(billed, k, c, exclude);
    if inv.orderId.Some? && inv.orderId.value < |db.orders| {
      var o := inv.orderId.value;
      forall i | 0 <= i < |billed.invoices| && i != k && billed.invoices[i].orderId == Some(o)
        ensures !IsLive(billed.invoices[i])
      {
        assert billed.invoices[i] == db.invoices[i];
      }
      StatusLive(billed, k, Anulada, o);
      assert !HasLiveInvoice(SetInvoiceStatus(billed, k, Anulada), o);
    }
  }

  // --- updates that take no credit ----------------------------------------------

  /** What the steps that skip the credit check must respect. */
  ghost predicate NonRaising(db: Db, db': Db) {
    && db'.customers == db.customers
    && (forall c: Id :: OpenInvoiceTotal(db', c) <= OpenInvoiceTotal(db, c))
    && (forall c: Id, exclude: Option<Id> :: Exposure(db', c, exclude) <= Exposure(db, c, exclude))
  }

  /** A new order starts in `recibido`, outside every exposure. */
  lemma DraftTakesNoCredit(db: Db, order: Order)
    requires order.status == Recibido
    ensures NonRaising(db, AddOrder(db, order))
  {
    var db' := AddOrder(db, order);
    forall o: Id ensures HasLiveInvoice(db', o) == HasLiveInvoice(db, o) {}
    forall c: Id, exclude: Option<Id> ensures OpenOrderTotal(db', c, exclude) == OpenOrderTotal(db, c, exclude) {
      var xs := OrderShares(db, c, exclude, None);
      assert OrderShares(db', c, exclude, None) == xs + [0];
      TotalAppend(xs, 0);
    }
    forall c: Id ensures OpenInvoiceTotal(db', c) == OpenInvoiceTotal(db, c) {
      assert InvoiceShares(db', c, None) == InvoiceShares(db, c, None);
    }
  }

  /** Paying an invoice frees its amount and brings no order back. */
  lemma PaymentTakesNoCredit(db: Db, k: Id)
    requires k < |db.invoices| && IsLive(db.invoices[k])
    ensures NonRaising(db, SetInvoiceStatus(db, k, Pagada))
    ensures forall c: Id :: Exposure(SetInvoiceStatus(db, k, Pagada), c) == Exposure(db, c) - InvoiceShare(db.invoices[k], c, None)
  {
    var db' := SetInvoiceStatus(db, k, Pagada);
    forall o: Id ensures HasLiveInvoice(db', o) == HasLiveInvoice(db, o) {
      StatusLive(db, k, Pagada, o);
    }
    forall c: Id ensures OpenInvoiceTotal(db', c) == OpenInvoiceTotal(db, c) - InvoiceShare(db.invoices[k], c, None) {
      SetInvoiceOpenTotal(db, k, Pagada, c);
    }
    forall c: Id, exclude: Option<Id> ensures OpenOrderTotal(db', c, exclude) == OpenOrderTotal(db, c, exclude) {
      OrderSharesSame(db, db', c, exclude);
    }
  }

  /** Moving an order between committed statuses keeps every exposure. */
  lemma AdvanceTakesNoCredit(db: Db, o: Id, status: OrderStatus)
    requires o < |db.orders| && db.orders[o].status in ORDER_EXPOSURE_STATUSES
    ensures NonRaising(db, SetOrder(db, o, db.orders[o].(status := status)))
  {
    var db' := SetOrder(db, o, db.orders[o].(status := status));
    forall x: Id ensures HasLiveInvoice(db', x) == HasLiveInvoice(db, x) {}
    forall c: Id, exclude: Option<Id>
      ensures OpenInvoiceTotal(db', c) == OpenInvoiceTotal(db, c)
      ensures OpenOrderTotal(db', c, exclude) <= OpenOrderTotal(db, c, exclude)
    {
      assert InvoiceShares(db', c, None) == InvoiceShares(db, c, None);
      OrderSharesAt(db, db', o, c, exclude);
    }
  }

  /**
    Annulling can take credit without any check: it raises an exposure exactly
    when the order it brings back weighs more than the open amount it removes.
   */
  lemma AnnulTakesCreditExactlyWhen(db: Db, k: Id)
    requires k < |db.invoices| && IsLive(db.invoices[k])
    ensures NonRaising(db, SetInvoiceStatus(db, k, Anulada))
       <==> forall c: Id :: Reexposed(db, k, c, None) <= InvoiceShare(db.invoices[k], c, None)
  {
    var db' := SetInvoiceStatus(db, k, Anulada);
    forall c: Id, exclude: Option<Id>
      ensures Exposure(db', c, exclude) == Exposure(db, c, exclude) - InvoiceShare(db.invoices[k], c, None) + Reexposed(db, k, c, exclude)
      ensures Reexposed(db, k, c, exclude) <= Reexposed(db, k, c, None)
    {
      AnnulEffect(db, k, c, exclude);
    }
    forall c: Id ensures OpenInvoiceTotal(db', c) <= OpenInvoiceTotal(db, c) {
      SetInvoiceOpenTotal(db, k, Anulada, c);
    }
    if NonRaising(db, db') {
      forall c: Id ensures Reexposed(db, k, c, None) <= InvoiceShare(db.invoices[k], c, None) {
        assert Exposure(db', c, None) <= Exposure(db, c, None);
      }
    }
  }
}

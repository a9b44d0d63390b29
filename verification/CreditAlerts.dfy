/** The batched alert list and its agreement with per-customer exposure (credit.service.ts). */
module CreditAlerts {
  import opened Prelude
  import opened Credit
  import opened Grouping
  import opened Sorting

  const ALERT_THRESHOLD_PERCENT: real := 80.0

  datatype Alert = Alert(customerId: Id, creditLimit: int, currentBalance: int, utilizationPercent: real)

  function ByUtilization(a: Alert): real { a.utilizationPercent }

  function Utilization(balance: int, limit: int): real
    requires limit > 0
  {
    (balance as real / limit as real) * 100.0
  }

  /** `isNearLimit` of getCreditSummary, computed from the customer's own exposure. */
  predicate IsNearLimit(db: Db, c: Id)
    requires c < |db.customers|
  {
    Limit(db, c) > 0 && Utilization(Exposure(db, c), Limit(db, c)) >= ALERT_THRESHOLD_PERCENT
  }

  // --- the queries -----------------------------------------------------------------

  predicate InvoiceMatches(inv: Invoice, c: Id, company: Option<Id>) {
    inv.customerId == c && IsOpen(inv) && InCompany(company, inv.companyId)
  }

  predicate OrderMatches(db: Db, o: Id, c: Id, company: Option<Id>)
    requires o < |db.orders|
  {
    var order := db.orders[o];
    order.customerId == c && order.status in ORDER_EXPOSURE_STATUSES && !HasLiveInvoice(db, o) && InCompany(company, order.companyId)
  }

  /** Customers asked about: positive limit, an invoice with the company, in the seller's portfolio. */
  predicate Listed(db: Db, c: Id, company: Option<Id>, owner: Option<Id>)
    requires c < |db.customers|
  {
    && Limit(db, c) > 0
    && (company == None || exists i :: 0 <= i < |db.invoices| && db.invoices[i].customerId == c && Some(db.invoices[i].companyId) == company)
    && (owner == None || db.customers[c].assignedTo == owner)
  }

  /** groupBy keeps only the customers with some matching row. */
  function InvoiceGroups(db: Db, ids: set<Id>, company: Option<Id>): map<Id, int> {
    map c | c in ids && exists i :: 0 <= i < |db.invoices| && InvoiceMatches(db.invoices[i], c, company)
      :: OpenInvoiceTotal(db, c, company)
  }

  function OrderGroups(db: Db, ids: set<Id>, company: Option<Id>): map<Id, int> {
    map c | c in ids && exists o :: 0 <= o < |db.orders| && OrderMatches(db, o, c, company)
      :: OpenOrderTotal(db, c, None, company)
  }

  function CompanyExposure(db: Db, c: Id, company: Option<Id>): int {
    OpenInvoiceTotal(db, c, company) + OpenOrderTotal(db, c, None, company)
  }

  /** A customer has a group exactly when one of its rows matches; missing from it, it has nothing on that side. */
  lemma MissingGroupIsZero(db: Db, ids: set<Id>, c: Id, company: Option<Id>)
    requires c in ids
    ensures c in InvoiceGroups(db, ids, company) <==> exists inv ::
      inv in db.invoices && inv.customerId == c && inv.status !in {Pagada, Anulada} && (company.Some? ==> inv.companyId == company.value)
    ensures c in OrderGroups(db, ids, company) <==> exists o ::
      0 <= o < |db.orders| && db.orders[o].customerId == c && db.orders[o].status != Recibido
      && (forall inv :: inv in db.invoices && inv.orderId == Some(o) ==> inv.status == Anulada)
      && (company.Some? ==> db.orders[o].companyId == company.value)
    ensures c !in InvoiceGroups(db, ids, company) ==> OpenInvoiceTotal(db, c, company) == 0
    ensures c !in OrderGroups(db, ids, company) ==> OpenOrderTotal(db, c, None, company) == 0
  {
    forall o: Id ensures HasLiveInvoice(db, o) <==> exists inv :: inv in db.invoices && inv.orderId == Some(o) && inv.status != Anulada {}
    forall o | 0 <= o < |db.orders|
      ensures OrderMatches(db, o, c, company) <==>
        db.orders[o].customerId == c && db.orders[o].status != Recibido
        && (forall inv :: inv in db.invoices && inv.orderId == Some(o) ==> inv.status == Anulada)
        && (company.Some? ==> db.orders[o].companyId == company.value)
    {
    }
    if c !in InvoiceGroups(db, ids, company) {
      assert forall i :: 0 <= i < |db.invoices| ==> !InvoiceMatches(db.invoices[i], c, company);
      ZeroTotal(InvoiceShares(db, c, company));
    }
    if c !in OrderGroups(db, ids, company) {
      assert forall o :: 0 <= o < |db.orders| ==> !OrderMatches(db, o, c, company);
      forall o | 0 <= o < |db.orders| ensures OrderShares(db, c, None, company)[o] == 0 {
        assert !OrderMatches(db, o, c, company);
      }
      ZeroTotal(OrderShares(db, c, None, company));
    }
  }

  // --- the company filter ----------------------------------------------------------

  function InvoiceItems(db: Db, c: Id): seq<(Id, int)> {
    seq(|db.invoices|, i requires 0 <= i < |db.invoices| => (db.invoices[i].companyId, InvoiceShare(db.invoices[i], c, None)))
  }

  function OrderItems(db: Db, c: Id): seq<(Id, int)> {
    seq(|db.orders|, o requires 0 <= o < |db.orders| => (db.orders[o].companyId, OrderShare(db, o, c, None, None)))
  }

  lemma {:induction false} InvoicesOfCompany(db: Db, c: Id, k: Id, n: nat)
    requires n <= |db.invoices|
    ensures Total(InvoiceShares(db, c, Some(k))[..n]) == SumOf(InvoiceItems(db, c)[..n], k)
  {
    if n > 0 {
      InvoicesOfCompany(db, c, k, n - 1);
      assert InvoiceShares(db, c, Some(k))[..n][..n - 1] == InvoiceShares(db, c, Some(k))[..n - 1];
      assert InvoiceItems(db, c)[..n][..n - 1] == InvoiceItems(db, c)[..n - 1];
    }
  }

  lemma {:induction false} OrdersOfCompany(db: Db, c: Id, k: Id, n: nat)
    requires n <= |db.orders|
    ensures Total(OrderShares(db, c, None, Some(k))[..n]) == SumOf(OrderItems(db, c)[..n], k)
  {
    if n > 0 {
      OrdersOfCompany(db, c, k, n - 1);
      assert OrderShares(db, c, None, Some(k))[..n][..n - 1] == OrderShares(db, c, None, Some(k))[..n - 1];
      assert OrderItems(db, c)[..n][..n - 1] == OrderItems(db, c)[..n - 1];
    }
  }

  function ByCompany(db: Db, c: Id, companies: seq<Id>): seq<int> {
    seq(|companies|, j requires 0 <= j < |companies| => CompanyExposure(db, c, Some(companies[j])))
  }

  /** A filter counts its company's rows and no others: the companies' exposures share out the customer's own. */
  lemma CompaniesShareExposure(db: Db, c: Id, companies: seq<Id>)
    requires Distinct(companies)
    requires forall i :: 0 <= i < |db.invoices| ==> db.invoices[i].companyId in companies
    requires forall o :: 0 <= o < |db.orders| ==> db.orders[o].companyId in companies
    ensures Total(ByCompany(db, c, companies)) == CompanyExposure(db, c, None) == Exposure(db, c)
    ensures forall k :: CompanyExposure(db, c, Some(k)) == SumOf(InvoiceItems(db, c), k) + SumOf(OrderItems(db, c), k)
  {
    hide SumOf, CompanyExposure, Exposure, InvoiceItems, OrderItems, Total;
    forall k { ExposureOfCompany(db, c, k); }
    ItemsPartition(db, c, companies);
    TotalOfSums(ByCompany(db, c, companies), Column(companies, InvoiceItems(db, c)), Column(companies, OrderItems(db, c)));
  }

  lemma ExposureOfCompany(db: Db, c: Id, k: Id)
    ensures CompanyExposure(db, c, Some(k)) == SumOf(InvoiceItems(db, c), k) + SumOf(OrderItems(db, c), k)
  {
    var invoices, orders := InvoiceItems(db, c), OrderItems(db, c);
    hide SumOf, InvoiceShare, OrderShare, Total;
    InvoicesOfCompany(db, c, k, |db.invoices|);
    OrdersOfCompany(db, c, k, |db.orders|);
    assert InvoiceShares(db, c, Some(k))[..|db.invoices|] == InvoiceShares(db, c, Some(k)) && invoices[..|invoices|] == invoices;
    assert OrderShares(db, c, None, Some(k))[..|db.orders|] == OrderShares(db, c, None, Some(k)) && orders[..|orders|] == orders;
  }

  lemma ItemsPartition(db: Db, c: Id, companies: seq<Id>)
    requires Distinct(companies)
    requires forall i :: 0 <= i < |db.invoices| ==> db.invoices[i].companyId in companies
    requires forall o :: 0 <= o < |db.orders| ==> db.orders[o].companyId in companies
    ensures Total(Column(companies, InvoiceItems(db, c))) + Total(Column(companies, OrderItems(db, c)))
         == CompanyExposure(db, c, None) == Exposure(db, c)
  {
    hide SumOf, InvoiceShare, OrderShare, Total;
    PartitionSum(companies, InvoiceItems(db, c));
    PartitionSum(companies, OrderItems(db, c));
    assert Values(InvoiceItems(db, c)) == InvoiceShares(db, c, None);
    assert Values(OrderItems(db, c)) == OrderShares(db, c, None, None);
  }

  lemma {:induction false} TotalOfSums(xs: seq<int>, ys: seq<int>, zs: seq<int>)
    requires |xs| == |ys| == |zs| && forall i :: 0 <= i < |xs| ==> xs[i] == ys[i] + zs[i]
    ensures Total(xs) == Total(ys) + Total(zs)
  {
    if |xs| > 0 {
      var n := |xs| - 1;
      TotalOfSums(xs[..n], ys[..n], zs[..n]);
    }
  }

  function Get(m: map<Id, int>, c: Id): int { if c in m then m[c] else 0 }

  // --- getCreditAlerts -----------------------------------------------------------------

  function AlertOf(db: Db, c: Id, company: Option<Id>): Alert
    requires c < |db.customers| && Limit(db, c) > 0
  {
    var balance := CompanyExposure(db, c, company);
    Alert(c, Limit(db, c), balance, Utilization(balance, Limit(db, c)))
  }

  predicate Alerts(db: Db, c: Id, company: Option<Id>, owner: Option<Id>)
    requires c < |db.customers|
  {
    Listed(db, c, company, owner) && AlertOf(db, c, company).utilizationPercent >= ALERT_THRESHOLD_PERCENT
  }

  /** Exactly the alerts due among the first `n` customers, each once. */
  ghost predicate Complete(db: Db, alerts: multiset<Alert>, n: nat, company: Option<Id>, owner: Option<Id>)
    requires n <= |db.customers|
  {
    && (forall c :: 0 <= c < n && Alerts(db, c, company, owner) ==> alerts[AlertOf(db, c, company)] == 1)
    && (forall a :: a in alerts ==>
          a.customerId < n && Alerts(db, a.customerId, company, owner) && a == AlertOf(db, a.customerId, company))
  }

  lemma CompleteSkip(db: Db, alerts: multiset<Alert>, c: nat, company: Option<Id>, owner: Option<Id>)
    requires c < |db.customers| && Complete(db, alerts, c, company, owner) && !Alerts(db, c, company, owner)
    ensures Complete(db, alerts, c + 1, company, owner)
  {
    forall x | 0 <= x < c + 1 && Alerts(db, x, company, owner) ensures alerts[AlertOf(db, x, company)] == 1 {
      assert x < c;
    }
  }

  lemma CompleteAdd(db: Db, alerts: multiset<Alert>, c: nat, company: Option<Id>, owner: Option<Id>, a: Alert)
    requires c < |db.customers| && Complete(db, alerts, c, company, owner)
    requires Alerts(db, c, company, owner) && a == AlertOf(db, c, company)
    ensures Complete(db, alerts + multiset{a}, c + 1, company, owner)
  {
    assert a.customerId == c;
    assert a !in alerts;
    forall x | 0 <= x < c + 1 && Alerts(db, x, company, owner)
      ensures (alerts + multiset{a})[AlertOf(db, x, company)] == 1
    {
      assert AlertOf(db, x, company).customerId == x;
    }
  }

  lemma GroupsGiveExposure(db: Db, ids: set<Id>, c: Id, company: Option<Id>)
    requires c in ids
    ensures Get(InvoiceGroups(db, ids, company), c) + Get(OrderGroups(db, ids, company), c) == CompanyExposure(db, c, company)
  {
    MissingGroupIsZero(db, ids, c, company);
  }

  method BalanceMap(db: Db, ids: set<Id>, company: Option<Id>) returns (balances: map<Id, int>)
    ensures forall c :: c in ids ==> Get(balances, c) == CompanyExposure(db, c, company)
  {
    hide InvoiceGroups, OrderGroups, CompanyExposure;
    var invoiceRows, orderRows := InvoiceGroups(db, ids, company), OrderGroups(db, ids, company);
    balances := map[];
    var left := invoiceRows.Keys;
    while left != {}
      invariant left <= invoiceRows.Keys && left !! balances.Keys
      invariant forall c :: c in balances ==> c in invoiceRows && balances[c] == invoiceRows[c]
      invariant forall c :: c in invoiceRows ==> c in left || c in balances
      decreases left
    {
      var c :| c in left;
      balances := balances[c := invoiceRows[c]];
      left := left - {c};
    }
    left := orderRows.Keys;
    while left != {}
      invariant left <= orderRows.Keys
      invariant forall c :: Get(balances, c) == Get(invoiceRows, c) + if c in orderRows && c !in left then orderRows[c] else 0
      decreases left
    {
      var c :| c in left;
      balances := balances[c := Get(balances, c) + orderRows[c]];
      left := left - {c};
    }
    forall c | c in ids ensures Get(balances, c) == CompanyExposure(db, c, company) {
      GroupsGiveExposure(db, ids, c, company);
    }
  }

  /** One pass over the customers; every alert carries the exposure of its own customer. */
  method GetCreditAlerts(db: Db, company: Option<Id>, owner: Option<Id>) returns (alerts: seq<Alert>)
    ensures Complete(db, multiset(alerts), |db.customers|, company, owner)
    ensures NonIncreasing(alerts, ByUtilization)
  {
    var ids := set c | 0 <= c < |db.customers| && Listed(db, c, company, owner);
    var balances := BalanceMap(db, ids, company);
    var found: seq<Alert> := [];
    var c := 0;
    while c < |db.customers|
      invariant c <= |db.customers|
      invariant Complete(db, multiset(found), c, company, owner)
    {
      if c in ids {
        var limit := Limit(db, c);
        var balance := Get(balances, c);
        var utilization := Utilization(balance, limit);
        assert Alert(c, limit, balance, utilization) == AlertOf(db, c, company);
        if utilization >= ALERT_THRESHOLD_PERCENT {
          CompleteAdd(db, multiset(found), c, company, owner, Alert(c, limit, balance, utilization));
          found := found + [Alert(c, limit, balance, utilization)];
        } else {
          CompleteSkip(db, multiset(found), c, company, owner);
        }
      } else {
        CompleteSkip(db, multiset(found), c, company, owner);
      }
      c := c + 1;
    }
    SortDescendingSorts(found, ByUtilization);
    alerts := SortDescending(found, ByUtilization);
  }

  /**
    A customer is alerted exactly when it has a positive limit, an invoice of the
    company asked for, the seller asked for, and four fifths of its limit or more
    taken up; the alert says so.
   */
  lemma AlertedExactlyWhen(db: Db, alerts: seq<Alert>, company: Option<Id>, owner: Option<Id>, c: Id)
    requires Complete(db, multiset(alerts), |db.customers|, company, owner) && c < |db.customers|
    ensures (exists a :: a in alerts && a.customerId == c)
       <==>
         var customer := db.customers[c];
         && customer.creditLimit.Some? && customer.creditLimit.value > 0
         && (company.Some? ==> exists inv :: inv in db.invoices && inv.customerId == c && inv.companyId == company.value)
         && (owner.Some? ==> customer.assignedTo == owner)
         && 100 * CompanyExposure(db, c, company) >= 80 * customer.creditLimit.value
    ensures forall a :: a in alerts && a.customerId == c ==>
      && db.customers[c].creditLimit == Some(a.creditLimit) && a.currentBalance == CompanyExposure(db, c, company)
      && a.utilizationPercent * a.creditLimit as real == 100.0 * a.currentBalance as real
  {
    forall a | a in alerts ensures a in multiset(alerts) {}
    forall a | a in multiset(alerts) ensures a in alerts {}
    if Limit(db, c) > 0 {
      UtilizationScales(CompanyExposure(db, c, company), Limit(db, c));
    }
    hide CompanyExposure, Utilization;
    if Alerts(db, c, company, owner) {
      assert AlertOf(db, c, company) in multiset(alerts);
      assert AlertOf(db, c, company) in alerts && AlertOf(db, c, company).customerId == c;
    }
  }

  lemma UtilizationScales(balance: int, limit: int)
    requires limit > 0
    ensures Utilization(balance, limit) * limit as real == 100.0 * balance as real
    ensures Utilization(balance, limit) >= ALERT_THRESHOLD_PERCENT <==> 100 * balance >= 80 * limit
  {
    var b, l := balance as real, limit as real;
    assert b / l * l == b;
    assert Utilization(balance, limit) * l == 100.0 * b;
    if Utilization(balance, limit) >= 80.0 {
      assert Utilization(balance, limit) * l >= 80.0 * l;
    } else {
      assert Utilization(balance, limit) * l < 80.0 * l;
    }
  }

  /**
    The batch refines the simple form: with no company filter, the complete
    lists are exactly the listed customers that `getCreditSummary` reports near
    their limit, each once and with its per-customer exposure.
   */
  lemma BatchRefinesPerCustomer(db: Db, alerts: seq<Alert>, owner: Option<Id>, c: Id)
    requires Complete(db, multiset(alerts), |db.customers|, None, owner)
    requires c < |db.customers| && (owner == None || db.customers[c].assignedTo == owner)
    ensures IsNearLimit(db, c) <==> exists i :: 0 <= i < |alerts| && alerts[i].customerId == c
    ensures forall i :: 0 <= i < |alerts| && alerts[i].customerId == c ==>
      alerts[i].currentBalance == Exposure(db, c) && alerts[i].creditLimit == Limit(db, c)
    ensures forall i, j :: 0 <= i < j < |alerts| ==> alerts[i].customerId != alerts[j].customerId
  {
    if IsNearLimit(db, c) {
      var a := AlertOf(db, c, None);
      assert a in multiset(alerts);
      assert a in alerts;
    }
    forall i | 0 <= i < |alerts| ensures alerts[i] in multiset(alerts) {}
    forall i, j | 0 <= i < j < |alerts| ensures alerts[i].customerId != alerts[j].customerId {
      if alerts[i] == alerts[j] {
        OccursTwice(alerts, i, j);
      }
    }
  }
}

/** Outstanding balances by age, customer, seller and company (receivables.service.ts). */
module Receivables {
  import opened Prelude
  import opened Grouping
  import Credit

  const DAY_MS: int := 86_400_000

  const NO_SELLER := "sin-vendedor"

  const BUCKETS: seq<string> := ["por_vencer", "1-30", "31-60", "61-90", "90+"]

  /** Upper ends of the aging buckets; the fifth has none. */
  const BUCKET_MAX: seq<int> := [0, 30, 60, 90]

  datatype Invoice = Invoice(
    status: Credit.InvoiceStatus, totalAmount: int, totalPaid: int, creditNoteTotal: int, dueDate: int,
    customerId: string, orderSeller: Option<string>, assignedTo: Option<string>, companyId: string)

  function Balance(inv: Invoice): int { inv.totalAmount - inv.totalPaid - inv.creditNoteTotal }

  predicate IsLive(inv: Invoice) {
    inv.status != Credit.Pagada && inv.status != Credit.Anulada && Balance(inv) > 0
  }

  /** Whole days from one instant to another. */
  function Days(from: int, to: int): int { (to - from) / DAY_MS }

  function DaysPastDue(inv: Invoice, asOf: int): int { Days(inv.dueDate, asOf) }

  predicate IsOverdue(inv: Invoice, asOf: int) { DaysPastDue(inv, asOf) > 0 }

  /** `findIndex(daysPastDue <= max)`. */
  function BucketFor(days: int): (b: nat)
    ensures b < |BUCKETS|
    ensures b < 4 ==> days <= BUCKET_MAX[b]
    ensures b > 0 ==> days > BUCKET_MAX[b - 1]
  {
    if days <= BUCKET_MAX[0] then 0 else if days <= BUCKET_MAX[1] then 1
    else if days <= BUCKET_MAX[2] then 2 else if days <= BUCKET_MAX[3] then 3 else 4
  }

  function SellerOf(inv: Invoice): Option<string> {
    if inv.orderSeller != None then inv.orderSeller else inv.assignedTo
  }

  // --- what is filed where -------------------------------------------------------------

  datatype Group = ByCustomer | BySeller | ByCompany | ByAge

  datatype Measure = Outstanding | Overdue | Invoices

  function KeyOf(inv: Invoice, asOf: int, g: Group): string {
    match g
    case ByCustomer => inv.customerId
    case BySeller => if SellerOf(inv) == None then NO_SELLER else SellerOf(inv).value
    case ByCompany => inv.companyId
    case ByAge => BUCKETS[BucketFor(DaysPastDue(inv, asOf))]
  }

  function Amount(inv: Invoice, asOf: int, m: Measure): int {
    match m
    case Outstanding => Balance(inv)
    case Overdue => if IsOverdue(inv, asOf) then Balance(inv) else 0
    case Invoices => 1
  }

  function Items(xs: seq<Invoice>, asOf: int, g: Group, m: Measure): seq<(string, int)> {
    seq(|xs|, i requires 0 <= i < |xs| => (KeyOf(xs[i], asOf, g), Amount(xs[i], asOf, m)))
  }

  function Amounts(xs: seq<Invoice>, asOf: int, m: Measure): seq<int> {
    seq(|xs|, i requires 0 <= i < |xs| => Amount(xs[i], asOf, m))
  }

  /** The sum of a measure over the invoices of one row. */
  function Share(xs: seq<Invoice>, asOf: int, g: Group, m: Measure, k: string): int { SumOf(Items(xs, asOf, g, m), k) }

  function Customers(xs: seq<Invoice>, asOf: int, g: Group, k: string): set<string> {
    set i | 0 <= i < |xs| && KeyOf(xs[i], asOf, g) == k :: xs[i].customerId
  }

  lemma ShareStep(xs: seq<Invoice>, i: nat, asOf: int, g: Group, m: Measure, k: string)
    requires i < |xs|
    ensures Share(xs[..i + 1], asOf, g, m, k)
         == Share(xs[..i], asOf, g, m, k) + if KeyOf(xs[i], asOf, g) == k then Amount(xs[i], asOf, m) else 0
  {
    hide KeyOf, Amount;
    var item := (KeyOf(xs[i], asOf, g), Amount(xs[i], asOf, m));
    assert Items(xs[..i + 1], asOf, g, m) == Items(xs[..i], asOf, g, m) + [item];
    SumOfAppend(Items(xs[..i], asOf, g, m), k, item);
  }

  lemma AmountsStep(xs: seq<Invoice>, i: nat, asOf: int, m: Measure)
    requires i < |xs|
    ensures Total(Amounts(xs[..i + 1], asOf, m)) == Total(Amounts(xs[..i], asOf, m)) + Amount(xs[i], asOf, m)
  {
    assert Amounts(xs[..i + 1], asOf, m) == Amounts(xs[..i], asOf, m) + [Amount(xs[i], asOf, m)];
    TotalAppend(Amounts(xs[..i], asOf, m), Amount(xs[i], asOf, m));
  }

  lemma CustomersStep(xs: seq<Invoice>, i: nat, asOf: int, g: Group, k: string)
    requires i < |xs|
    ensures Customers(xs[..i + 1], asOf, g, k)
         == Customers(xs[..i], asOf, g, k) + if KeyOf(xs[i], asOf, g) == k then {xs[i].customerId} else {}
  {
    hide KeyOf;
    var before, after := xs[..i], xs[..i + 1];
    assert forall j :: 0 <= j < i ==> before[j] == after[j];
    assert after[i] == xs[i];
    forall c | c in Customers(before, asOf, g, k) ensures c in Customers(after, asOf, g, k) {
      var j :| 0 <= j < i && KeyOf(before[j], asOf, g) == k && before[j].customerId == c;
      assert after[j] == before[j];
    }
  }

  // --- rows and what they must hold --------------------------------------------------------

  datatype AgingRow = AgingRow(amount: int, invoiceCount: int, customers: set<string>)

  datatype CustomerRow = CustomerRow(outstanding: int, overdue: int, oldestDueDate: Option<int>, maxDaysPastDue: int)

  datatype SellerRow = SellerRow(outstanding: int, overdue: int, customers: set<string>)

  datatype CompanyRow = CompanyRow(outstanding: int, overdue: int)

  datatype Report = Report(
    aging: seq<AgingRow>, byCustomer: Table<CustomerRow>, bySeller: Table<SellerRow>, byCompany: Table<CompanyRow>,
    outstandingTotal: int, overdueTotal: int)

  predicate OverdueFor(inv: Invoice, asOf: int, c: string) { inv.customerId == c && IsOverdue(inv, asOf) }

  /** The earliest due date among the customer's overdue invoices, if there are any. */
  ghost predicate IsOldest(d: Option<int>, xs: seq<Invoice>, asOf: int, c: string) {
    match d
    case None => forall i :: 0 <= i < |xs| ==> !OverdueFor(xs[i], asOf, c)
    case Some(due) =>
      && (exists i :: 0 <= i < |xs| && OverdueFor(xs[i], asOf, c) && xs[i].dueDate == due)
      && (forall i :: 0 <= i < |xs| && OverdueFor(xs[i], asOf, c) ==> due <= xs[i].dueDate)
  }

  function DaysOf(d: Option<int>, asOf: int): int { if d == None then 0 else Days(d.value, asOf) }

  ghost predicate CustomerRight(row: CustomerRow, xs: seq<Invoice>, asOf: int, c: string) {
    && row.outstanding == Share(xs, asOf, ByCustomer, Outstanding, c)
    && row.overdue == Share(xs, asOf, ByCustomer, Overdue, c)
    && IsOldest(row.oldestDueDate, xs, asOf, c)
    && row.maxDaysPastDue == DaysOf(row.oldestDueDate, asOf)
  }

  ghost predicate SellerRight(row: SellerRow, xs: seq<Invoice>, asOf: int, s: string) {
    && row.outstanding == Share(xs, asOf, BySeller, Outstanding, s)
    && row.overdue == Share(xs, asOf, BySeller, Overdue, s)
    && row.customers == Customers(xs, asOf, BySeller, s)
  }

  ghost predicate CompanyRight(row: CompanyRow, xs: seq<Invoice>, asOf: int, c: string) {
    && row.outstanding == Share(xs, asOf, ByCompany, Outstanding, c)
    && row.overdue == Share(xs, asOf, ByCompany, Overdue, c)
  }

  ghost predicate AgingRight(row: AgingRow, xs: seq<Invoice>, asOf: int, b: string) {
    && row.amount == Share(xs, asOf, ByAge, Outstanding, b)
    && row.invoiceCount == Share(xs, asOf, ByAge, Invoices, b)
    && row.customers == Customers(xs, asOf, ByAge, b)
  }

  /** The table has a row for each key that occurs, and no other. */
  ghost predicate Covers<V>(t: Table<V>, xs: seq<Invoice>, asOf: int, g: Group) {
    ValidTable(t) && forall k :: k in t.rows <==> exists i :: 0 <= i < |xs| && KeyOf(xs[i], asOf, g) == k
  }

  ghost predicate CustomersRight(t: Table<CustomerRow>, xs: seq<Invoice>, asOf: int) {
    Covers(t, xs, asOf, ByCustomer) && forall k :: k in t.rows ==> CustomerRight(t.rows[k], xs, asOf, k)
  }

  ghost predicate SellersRight(t: Table<SellerRow>, xs: seq<Invoice>, asOf: int) {
    Covers(t, xs, asOf, BySeller) && forall k :: k in t.rows ==> SellerRight(t.rows[k], xs, asOf, k)
  }

  ghost predicate CompaniesRight(t: Table<CompanyRow>, xs: seq<Invoice>, asOf: int) {
    Covers(t, xs, asOf, ByCompany) && forall k :: k in t.rows ==> CompanyRight(t.rows[k], xs, asOf, k)
  }

  ghost predicate BucketsRight(aging: seq<AgingRow>, xs: seq<Invoice>, asOf: int) {
    |aging| == |BUCKETS| && forall b :: 0 <= b < |aging| ==> AgingRight(aging[b], xs, asOf, BUCKETS[b])
  }

  ghost predicate ReportRight(r: Report, xs: seq<Invoice>, asOf: int) {
    && BucketsRight(r.aging, xs, asOf)
    && CustomersRight(r.byCustomer, xs, asOf)
    && SellersRight(r.bySeller, xs, asOf)
    && CompaniesRight(r.byCompany, xs, asOf)
    && r.outstandingTotal == Total(Amounts(xs, asOf, Outstanding))
    && r.overdueTotal == Total(Amounts(xs, asOf, Overdue))
  }

  // --- one invoice ----------------------------------------------------------------------------

  lemma DaysMonotone(d: int, e: int, asOf: int)
    requires d <= e
    ensures Days(d, asOf) >= Days(e, asOf)
  {
  }

  lemma AbsentShare(xs: seq<Invoice>, asOf: int, g: Group, m: Measure, k: string)
    requires forall i :: 0 <= i < |xs| ==> KeyOf(xs[i], asOf, g) != k
    ensures Share(xs, asOf, g, m, k) == 0
  {
    hide KeyOf, Amount;
    SumOfAbsent(Items(xs, asOf, g, m), k);
  }

  lemma CoversStep<V>(t: Table<V>, xs: seq<Invoice>, i: nat, asOf: int, g: Group, v: V)
    requires i < |xs| && Covers(t, xs[..i], asOf, g)
    ensures Covers(Put(t, KeyOf(xs[i], asOf, g), v), xs[..i + 1], asOf, g)
  {
    hide KeyOf;
    var key, before, after := KeyOf(xs[i], asOf, g), xs[..i], xs[..i + 1];
    PutKeeps(t, key, v);
    assert after == before + [xs[i]];
    forall k | k in t.rows ensures exists j :: 0 <= j < |after| && KeyOf(after[j], asOf, g) == k {
      var j :| 0 <= j < |before| && KeyOf(before[j], asOf, g) == k;
      assert KeyOf(after[j], asOf, g) == k;
    }
    assert KeyOf(after[i], asOf, g) == key;
  }

  lemma OldestStep(d: Option<int>, e: Option<int>, xs: seq<Invoice>, i: nat, asOf: int, c: string)
    requires i < |xs| && IsOldest(d, xs[..i], asOf, c)
    requires e == if OverdueFor(xs[i], asOf, c) && (d == None || xs[i].dueDate < d.value) then Some(xs[i].dueDate) else d
    ensures IsOldest(e, xs[..i + 1], asOf, c)
  {
    hide IsOverdue;
    var before, after := xs[..i], xs[..i + 1];
    assert after == before + [xs[i]];
    if e != None {
      if e == d {
        var j :| 0 <= j < |before| && OverdueFor(before[j], asOf, c) && before[j].dueDate == d.value;
        assert OverdueFor(after[j], asOf, c) && after[j].dueDate == e.value;
      } else {
        assert OverdueFor(after[i], asOf, c) && after[i].dueDate == e.value;
      }
      forall j | 0 <= j < |after| && OverdueFor(after[j], asOf, c) ensures e.value <= after[j].dueDate {
        if j < i {
          assert after[j] == before[j];
        }
      }
    } else {
      forall j | 0 <= j < |after| ensures !OverdueFor(after[j], asOf, c) {
        if j < i {
          assert after[j] == before[j];
        }
      }
    }
  }

  /** Posting the invoice to its customer keeps that row right; `row` is the empty row for a new customer. */
  lemma CustomerStep(row: CustomerRow, next: CustomerRow, xs: seq<Invoice>, i: nat, asOf: int, c: string)
    requires i < |xs| && CustomerRight(row, xs[..i], asOf, c) && xs[i].customerId == c
    requires next.outstanding == row.outstanding + Balance(xs[i])
    requires next.overdue == row.overdue + Amount(xs[i], asOf, Overdue)
    requires IsOverdue(xs[i], asOf) ==>
      next.maxDaysPastDue == (if row.maxDaysPastDue < DaysPastDue(xs[i], asOf) then DaysPastDue(xs[i], asOf) else row.maxDaysPastDue)
    requires IsOverdue(xs[i], asOf) ==>
      next.oldestDueDate == (if row.oldestDueDate == None || xs[i].dueDate < row.oldestDueDate.value then Some(xs[i].dueDate) else row.oldestDueDate)
    requires !IsOverdue(xs[i], asOf) ==> next.maxDaysPastDue == row.maxDaysPastDue && next.oldestDueDate == row.oldestDueDate
    ensures CustomerRight(next, xs[..i + 1], asOf, c)
  {
    hide Share, IsOldest, Days;
    ShareStep(xs, i, asOf, ByCustomer, Outstanding, c);
    ShareStep(xs, i, asOf, ByCustomer, Overdue, c);
    OldestStep(row.oldestDueDate, next.oldestDueDate, xs, i, asOf, c);
    if IsOverdue(xs[i], asOf) && row.oldestDueDate != None {
      if xs[i].dueDate < row.oldestDueDate.value {
        DaysMonotone(xs[i].dueDate, row.oldestDueDate.value, asOf);
      } else {
        DaysMonotone(row.oldestDueDate.value, xs[i].dueDate, asOf);
      }
    }
  }

  lemma CustomerOther(row: CustomerRow, xs: seq<Invoice>, i: nat, asOf: int, c: string)
    requires i < |xs| && CustomerRight(row, xs[..i], asOf, c) && xs[i].customerId != c
    ensures CustomerRight(row, xs[..i + 1], asOf, c)
  {
    hide Share, IsOldest;
    ShareStep(xs, i, asOf, ByCustomer, Outstanding, c);
    ShareStep(xs, i, asOf, ByCustomer, Overdue, c);
    OldestStep(row.oldestDueDate, row.oldestDueDate, xs, i, asOf, c);
  }

  const NEW_CUSTOMER := CustomerRow(0, 0, None, 0)

  lemma CustomersPosted(t: Table<CustomerRow>, next: CustomerRow, xs: seq<Invoice>, i: nat, asOf: int)
    requires i < |xs| && CustomersRight(t, xs[..i], asOf)
    requires CustomerRight(next, xs[..i + 1], asOf, xs[i].customerId)
    ensures CustomersRight(Put(t, xs[i].customerId, next), xs[..i + 1], asOf)
  {
    hide CustomerRight, Covers;
    CoversStep(t, xs, i, asOf, ByCustomer, next);
    forall k | k in t.rows && k != xs[i].customerId ensures CustomerRight(t.rows[k], xs[..i + 1], asOf, k) {
      CustomerOther(t.rows[k], xs, i, asOf, k);
    }
  }

  lemma NewCustomer(t: Table<CustomerRow>, xs: seq<Invoice>, asOf: int, c: string)
    requires CustomersRight(t, xs, asOf) && c !in t.rows
    ensures CustomerRight(NEW_CUSTOMER, xs, asOf, c)
  {
    hide Share;
    assert forall i :: 0 <= i < |xs| ==> KeyOf(xs[i], asOf, ByCustomer) != c;
    AbsentShare(xs, asOf, ByCustomer, Outstanding, c);
    AbsentShare(xs, asOf, ByCustomer, Overdue, c);
  }

  lemma RowBefore(t: Table<CustomerRow>, xs: seq<Invoice>, asOf: int, c: string)
    requires CustomersRight(t, xs, asOf)
    ensures CustomerRight(if c in t.rows then t.rows[c] else NEW_CUSTOMER, xs, asOf, c)
  {
    hide CustomerRight;
    if c !in t.rows {
      NewCustomer(t, xs, asOf, c);
    }
  }

  lemma SellersPosted(t: Table<SellerRow>, row: SellerRow, next: SellerRow, xs: seq<Invoice>, i: nat, asOf: int, s: string)
    requires i < |xs| && SellersRight(t, xs[..i], asOf) && s == KeyOf(xs[i], asOf, BySeller)
    requires row == if s in t.rows then t.rows[s] else SellerRow(0, 0, {})
    requires next == SellerRow(row.outstanding + Balance(xs[i]), row.overdue + Amount(xs[i], asOf, Overdue), row.customers + {xs[i].customerId})
    ensures SellersRight(Put(t, s, next), xs[..i + 1], asOf)
  {
    hide Share, Customers, Covers, KeyOf, IsOverdue;
    if s !in t.rows {
      NewSeller(t, xs[..i], asOf, s);
    }
    CoversStep(t, xs, i, asOf, BySeller, next);
    forall k | k in t.rows || k == s ensures SellerRight(Put(t, s, next).rows[k], xs[..i + 1], asOf, k) {
      ShareStep(xs, i, asOf, BySeller, Outstanding, k);
      ShareStep(xs, i, asOf, BySeller, Overdue, k);
      CustomersStep(xs, i, asOf, BySeller, k);
    }
  }

  lemma NewSeller(t: Table<SellerRow>, xs: seq<Invoice>, asOf: int, s: string)
    requires SellersRight(t, xs, asOf) && s !in t.rows
    ensures SellerRight(SellerRow(0, 0, {}), xs, asOf, s)
  {
    hide Share, KeyOf;
    assert forall i :: 0 <= i < |xs| ==> KeyOf(xs[i], asOf, BySeller) != s;
    AbsentShare(xs, asOf, BySeller, Outstanding, s);
    AbsentShare(xs, asOf, BySeller, Overdue, s);
  }

  lemma CompaniesPosted(t: Table<CompanyRow>, row: CompanyRow, next: CompanyRow, xs: seq<Invoice>, i: nat, asOf: int)
    requires i < |xs| && CompaniesRight(t, xs[..i], asOf)
    requires row == if xs[i].companyId in t.rows then t.rows[xs[i].companyId] else CompanyRow(0, 0)
    requires next == CompanyRow(row.outstanding + Balance(xs[i]), row.overdue + Amount(xs[i], asOf, Overdue))
    ensures CompaniesRight(Put(t, xs[i].companyId, next), xs[..i + 1], asOf)
  {
    hide Share, Covers, IsOverdue;
    var c := xs[i].companyId;
    if c !in t.rows {
      NewCompany(t, xs[..i], asOf, c);
    }
    CoversStep(t, xs, i, asOf, ByCompany, next);
    forall k | k in t.rows || k == c ensures CompanyRight(Put(t, c, next).rows[k], xs[..i + 1], asOf, k) {
      ShareStep(xs, i, asOf, ByCompany, Outstanding, k);
      ShareStep(xs, i, asOf, ByCompany, Overdue, k);
    }
  }

  lemma NewCompany(t: Table<CompanyRow>, xs: seq<Invoice>, asOf: int, c: string)
    requires CompaniesRight(t, xs, asOf) && c !in t.rows
    ensures CompanyRight(CompanyRow(0, 0), xs, asOf, c)
  {
    hide Share;
    assert forall i :: 0 <= i < |xs| ==> KeyOf(xs[i], asOf, ByCompany) != c;
    AbsentShare(xs, asOf, ByCompany, Outstanding, c);
    AbsentShare(xs, asOf, ByCompany, Overdue, c);
  }

  lemma BucketsDistinct()
    ensures Distinct(BUCKETS)
  {
    assert |BUCKETS[0]| == 10 && |BUCKETS[1]| == 4 && |BUCKETS[2]| == 5 && |BUCKETS[3]| == 5 && |BUCKETS[4]| == 3;
    assert BUCKETS[2][0] == '3' && BUCKETS[3][0] == '6';
  }

  lemma BucketsPosted(aging: seq<AgingRow>, next: AgingRow, xs: seq<Invoice>, i: nat, asOf: int, b: nat)
    requires i < |xs| && BucketsRight(aging, xs[..i], asOf) && b == BucketFor(DaysPastDue(xs[i], asOf))
    requires next == AgingRow(aging[b].amount + Balance(xs[i]), aging[b].invoiceCount + 1, aging[b].customers + {xs[i].customerId})
    ensures BucketsRight(aging[b := next], xs[..i + 1], asOf)
  {
    hide Share, Customers, BucketFor;
    BucketsDistinct();
    forall k | 0 <= k < |BUCKETS| ensures AgingRight(aging[b := next][k], xs[..i + 1], asOf, BUCKETS[k]) {
      ShareStep(xs, i, asOf, ByAge, Outstanding, BUCKETS[k]);
      ShareStep(xs, i, asOf, ByAge, Invoices, BUCKETS[k]);
      CustomersStep(xs, i, asOf, ByAge, BUCKETS[k]);
    }
  }

  // --- getReceivables ----------------------------------------------------------------------

  /** The invoices the report is about, in order. */
  function Live(invoices: seq<Invoice>): (r: seq<Invoice>) {
    if invoices == [] then []
    else Live(invoices[..|invoices| - 1]) + if IsLive(invoices[|invoices| - 1]) then [invoices[|invoices| - 1]] else []
  }

  lemma NothingPosted(asOf: int)
    ensures BucketsRight(seq(|BUCKETS|, b => AgingRow(0, 0, {})), [], asOf)
    ensures CustomersRight(Table([], map[]), [], asOf)
    ensures SellersRight(Table([], map[]), [], asOf)
    ensures CompaniesRight(Table([], map[]), [], asOf)
  {
  }

  lemma AmountsEmpty(asOf: int)
    ensures Amounts([], asOf, Outstanding) == Amounts([], asOf, Overdue) == Amounts([], asOf, Invoices) == []
  {
  }

  lemma SellerKey(inv: Invoice, asOf: int)
    ensures KeyOf(inv, asOf, BySeller) == if SellerOf(inv) == None then NO_SELLER else SellerOf(inv).value
  {
  }

  /** The customer's row after invoice `i`: created if missing, then updated field by field. */
  method PostToCustomer(t: Table<CustomerRow>, live: seq<Invoice>, i: nat, asOf: int) returns (next: Table<CustomerRow>)
    requires i < |live| && CustomersRight(t, live[..i], asOf)
    ensures CustomersRight(next, live[..i + 1], asOf)
  {
    hide CustomersRight, CustomerRight, Days, Put;
    var invoice := live[i];
    var balance, daysPastDue := Balance(invoice), DaysPastDue(invoice, asOf);
    var row := NEW_CUSTOMER;
    if invoice.customerId in t.rows {
      row := t.rows[invoice.customerId];
    }
    assert CustomerRight(row, live[..i], asOf, invoice.customerId) by {
      RowBefore(t, live[..i], asOf, invoice.customerId);
    }
    ghost var was := row;
    row := row.(outstanding := row.outstanding + balance);
    row := row.(overdue := row.overdue + if daysPastDue > 0 then balance else 0);
    if daysPastDue > 0 {
      row := row.(maxDaysPastDue := if row.maxDaysPastDue < daysPastDue then daysPastDue else row.maxDaysPastDue);
      if row.oldestDueDate == None || invoice.dueDate < row.oldestDueDate.value {
        row := row.(oldestDueDate := Some(invoice.dueDate));
      }
    }
    CustomerStep(was, row, live, i, asOf, invoice.customerId);
    CustomersPosted(t, row, live, i, asOf);
    next := Put(t, invoice.customerId, row);
  }

  // --- the report against the invoices themselves ---------------------------------------------

  /** Neither paid nor annulled, and more billed than paid and credited. */
  predicate Owing(inv: Invoice) {
    inv.status !in {Credit.Pagada, Credit.Anulada} && inv.totalPaid + inv.creditNoteTotal < inv.totalAmount
  }

  datatype Row = Everyone | OfCustomer(id: string) | OfSeller(id: string) | OfCompany(id: string) | InBand(band: nat)

  /** Which invoices a figure of the report is about, in the invoice's own fields; ages are in milliseconds. */
  predicate Belongs(inv: Invoice, asOf: int, row: Row) {
    var day := 86_400_000;
    var late := asOf - inv.dueDate;
    match row
    case Everyone => true
    case OfCustomer(c) => inv.customerId == c
    case OfSeller(s) =>
      inv.orderSeller == Some(s) || (inv.orderSeller == None && inv.assignedTo == Some(s))
      || (inv.orderSeller == inv.assignedTo == None && s == "sin-vendedor")
    case OfCompany(c) => inv.companyId == c
    case InBand(b) =>
      (b == 0 && late < day) || (b == 1 && day <= late < 31 * day) || (b == 2 && 31 * day <= late < 61 * day)
      || (b == 3 && 61 * day <= late < 91 * day) || (b == 4 && 91 * day <= late)
  }

  predicate Late(inv: Invoice, asOf: int) { inv.dueDate + 86_400_000 <= asOf }

  /** What the owing invoices of a row add up to, all of them or only those a day or more past due. */
  function Owed(invoices: seq<Invoice>, asOf: int, row: Row, lateOnly: bool): int {
    if invoices == [] then 0
    else
      var inv := invoices[|invoices| - 1];
      Owed(invoices[..|invoices| - 1], asOf, row, lateOnly)
      + if Owing(inv) && Belongs(inv, asOf, row) && (lateOnly ==> Late(inv, asOf))
        then inv.totalAmount - inv.totalPaid - inv.creditNoteTotal else 0
  }

  ghost predicate Occurs(invoices: seq<Invoice>, asOf: int, row: Row) {
    exists i :: 0 <= i < |invoices| && Owing(invoices[i]) && Belongs(invoices[i], asOf, row)
  }

  /** Every figure of the report is the sum over the invoices it is about, and every row is about some. */
  ghost predicate ReportOf(r: Report, invoices: seq<Invoice>, asOf: int) {
    && r.outstandingTotal == Owed(invoices, asOf, Everyone, false)
    && r.overdueTotal == Owed(invoices, asOf, Everyone, true)
    && |r.aging| == 5 && (forall b :: 0 <= b < 5 ==> r.aging[b].amount == Owed(invoices, asOf, InBand(b), false))
    && (forall c :: c in r.byCustomer.rows <==> Occurs(invoices, asOf, OfCustomer(c)))
    && (forall c :: c in r.byCustomer.rows ==>
          && r.byCustomer.rows[c].outstanding == Owed(invoices, asOf, OfCustomer(c), false)
          && r.byCustomer.rows[c].overdue == Owed(invoices, asOf, OfCustomer(c), true))
    && (forall s :: s in r.bySeller.rows <==> Occurs(invoices, asOf, OfSeller(s)))
    && (forall s :: s in r.bySeller.rows ==>
          && r.bySeller.rows[s].outstanding == Owed(invoices, asOf, OfSeller(s), false)
          && r.bySeller.rows[s].overdue == Owed(invoices, asOf, OfSeller(s), true))
    && (forall c :: c in r.byCompany.rows <==> Occurs(invoices, asOf, OfCompany(c)))
    && (forall c :: c in r.byCompany.rows ==>
          && r.byCompany.rows[c].outstanding == Owed(invoices, asOf, OfCompany(c), false)
          && r.byCompany.rows[c].overdue == Owed(invoices, asOf, OfCompany(c), true))
  }

  lemma LiveIsOwing(inv: Invoice, asOf: int)
    ensures IsLive(inv) <==> Owing(inv)
    ensures IsOverdue(inv, asOf) <==> Late(inv, asOf)
  {
  }

  /** `Live` keeps exactly the owing invoices, each where it stood. */
  lemma {:induction false} LiveKeepsOwing(invoices: seq<Invoice>) returns (at: seq<nat>)
    ensures |at| == |Live(invoices)| && forall j, k :: 0 <= j < k < |at| ==> at[j] < at[k]
    ensures forall j :: 0 <= j < |at| ==> at[j] < |invoices| && invoices[at[j]] == Live(invoices)[j]
    ensures forall i :: 0 <= i < |invoices| ==> (i in at <==> Owing(invoices[i]))
  {
    if invoices == [] {
      at := [];
    } else {
      var n := |invoices| - 1;
      var before := LiveKeepsOwing(invoices[..n]);
      LiveStep(invoices);
      hide Live, Owing;
      at := before + if Owing(invoices[n]) then [n] else [];
      forall i | 0 <= i < |invoices| ensures i in at <==> Owing(invoices[i]) {
        assert i < n ==> (i in before <==> Owing(invoices[..n][i]));
      }
    }
  }

  function KeyRow(g: Group, k: string): Row
    requires g != ByAge || k in BUCKETS
  {
    match g
    case ByCustomer => OfCustomer(k)
    case BySeller => OfSeller(k)
    case ByCompany => OfCompany(k)
    case ByAge => InBand(if k == BUCKETS[0] then 0 else if k == BUCKETS[1] then 1 else if k == BUCKETS[2] then 2 else if k == BUCKETS[3] then 3 else 4)
  }

  lemma KeyBelongs(inv: Invoice, asOf: int, g: Group, k: string)
    requires g != ByAge || k in BUCKETS
    ensures KeyOf(inv, asOf, g) == k <==> Belongs(inv, asOf, KeyRow(g, k))
  {
    if g == ByAge {
      BucketsDistinct();
    }
  }

  lemma LiveStep(invoices: seq<Invoice>)
    requires invoices != []
    ensures var n := |invoices| - 1;
      Live(invoices) == Live(invoices[..n]) + if Owing(invoices[n]) then [invoices[n]] else []
  {
    LiveIsOwing(invoices[|invoices| - 1], 0);
  }

  lemma {:induction false} ShareIsOwed(invoices: seq<Invoice>, asOf: int, g: Group, m: Measure, k: string)
    requires m != Invoices && (g != ByAge || k in BUCKETS)
    ensures Share(Live(invoices), asOf, g, m, k) == Owed(invoices, asOf, KeyRow(g, k), m == Overdue)
  {
    if invoices == [] {
      AbsentShare([], asOf, g, m, k);
    } else {
      var n := |invoices| - 1;
      ShareIsOwed(invoices[..n], asOf, g, m, k);
      LiveStep(invoices);
      LiveIsOwing(invoices[n], asOf);
      KeyBelongs(invoices[n], asOf, g, k);
      hide Share, KeyOf, Belongs, Live, KeyRow, Owing, Late, IsOverdue;
      var live := Live(invoices);
      if Owing(invoices[n]) {
        var j := |live| - 1;
        assert live[..j] == Live(invoices[..n]) && live[..j + 1] == live;
        ShareStep(live, j, asOf, g, m, k);
      } else {
        assert live == Live(invoices[..n]);
      }
    }
  }

  lemma {:induction false} TotalIsOwed(invoices: seq<Invoice>, asOf: int, m: Measure)
    requires m != Invoices
    ensures Total(Amounts(Live(invoices), asOf, m)) == Owed(invoices, asOf, Everyone, m == Overdue)
  {
    if invoices == [] {
      AmountsEmpty(asOf);
    } else {
      var n := |invoices| - 1;
      TotalIsOwed(invoices[..n], asOf, m);
      LiveStep(invoices);
      LiveIsOwing(invoices[n], asOf);
      hide Live, Owing, Late, IsOverdue, Amounts;
      var live := Live(invoices);
      if Owing(invoices[n]) {
        var j := |live| - 1;
        assert live[..j] == Live(invoices[..n]) && live[..j + 1] == live;
        AmountsStep(live, j, asOf, m);
      } else {
        assert live == Live(invoices[..n]);
      }
    }
  }

  lemma RowsOccur<V>(t: Table<V>, invoices: seq<Invoice>, asOf: int, g: Group)
    requires Covers(t, Live(invoices), asOf, g) && g != ByAge
    ensures forall k :: k in t.rows <==> Occurs(invoices, asOf, KeyRow(g, k))
  {
    hide KeyOf, Belongs, KeyRow, Live, Owing;
    var live := Live(invoices);
    var at := LiveKeepsOwing(invoices);
    forall k ensures k in t.rows <==> Occurs(invoices, asOf, KeyRow(g, k)) {
      if k in t.rows {
        var j :| 0 <= j < |live| && KeyOf(live[j], asOf, g) == k;
        KeyBelongs(live[j], asOf, g, k);
        assert at[j] in at && Owing(invoices[at[j]]);
      }
      if Occurs(invoices, asOf, KeyRow(g, k)) {
        var i :| 0 <= i < |invoices| && Owing(invoices[i]) && Belongs(invoices[i], asOf, KeyRow(g, k));
        var j :| 0 <= j < |at| && at[j] == i;
        KeyBelongs(live[j], asOf, g, k);
      }
    }
  }

  lemma BandRow(b: nat)
    requires b < 5
    ensures KeyRow(ByAge, BUCKETS[b]) == InBand(b)
  {
    BucketsDistinct();
  }

  /** The figures of a right report of the live invoices, in terms of all the invoices read. */
  lemma ReportIsOfInvoices(r: Report, invoices: seq<Invoice>, asOf: int)
    requires ReportRight(r, Live(invoices), asOf)
    ensures ReportOf(r, invoices, asOf)
  {
    hide Share, Owed, Occurs, Live, Covers, Amounts;
    TotalIsOwed(invoices, asOf, Outstanding);
    TotalIsOwed(invoices, asOf, Overdue);
    forall k, m: Measure | m != Invoices
      ensures Share(Live(invoices), asOf, ByCustomer, m, k) == Owed(invoices, asOf, OfCustomer(k), m == Overdue)
      ensures Share(Live(invoices), asOf, BySeller, m, k) == Owed(invoices, asOf, OfSeller(k), m == Overdue)
      ensures Share(Live(invoices), asOf, ByCompany, m, k) == Owed(invoices, asOf, OfCompany(k), m == Overdue)
    {
      ShareIsOwed(invoices, asOf, ByCustomer, m, k);
      ShareIsOwed(invoices, asOf, BySeller, m, k);
      ShareIsOwed(invoices, asOf, ByCompany, m, k);
    }
    forall b | 0 <= b < 5 ensures r.aging[b].amount == Owed(invoices, asOf, InBand(b), false) {
      BandRow(b);
      ShareIsOwed(invoices, asOf, ByAge, Outstanding, BUCKETS[b]);
    }
    RowsOccur(r.byCustomer, invoices, asOf, ByCustomer);
    RowsOccur(r.bySeller, invoices, asOf, BySeller);
    RowsOccur(r.byCompany, invoices, asOf, ByCompany);
  }

  /** Every row of every breakdown holds exactly what its invoices add up to. */
  method GetReceivables(invoices: seq<Invoice>, asOf: int) returns (r: Report)
    ensures ReportRight(r, Live(invoices), asOf) && ReportOf(r, invoices, asOf)
  {
    hide CustomersRight, SellersRight, CompaniesRight, BucketsRight, CustomerRight, Amounts, Days, Put, KeyOf, ReportOf;
    var live := Live(invoices);
    var aging: seq<AgingRow> := seq(|BUCKETS|, b => AgingRow(0, 0, {}));
    var byCustomer: Table<CustomerRow> := Table([], map[]);
    var bySeller: Table<SellerRow> := Table([], map[]);
    var byCompany: Table<CompanyRow> := Table([], map[]);
    var outstandingTotal, overdueTotal := 0, 0;
    NothingPosted(asOf);
    assert live[..0] == [] && Amounts([], asOf, Outstanding) == [] && Amounts([], asOf, Overdue) == [] by {
      AmountsEmpty(asOf);
    }
    for i := 0 to |live|
      invariant |aging| == |BUCKETS| && BucketsRight(aging, live[..i], asOf)
      invariant CustomersRight(byCustomer, live[..i], asOf)
      invariant SellersRight(bySeller, live[..i], asOf)
      invariant CompaniesRight(byCompany, live[..i], asOf)
      invariant outstandingTotal == Total(Amounts(live[..i], asOf, Outstanding))
      invariant overdueTotal == Total(Amounts(live[..i], asOf, Overdue))
    {
      var invoice := live[i];
      var balance := Balance(invoice);
      var daysPastDue := DaysPastDue(invoice, asOf);
      var overdue := if daysPastDue > 0 then balance else 0;

      AmountsStep(live, i, asOf, Outstanding);
      AmountsStep(live, i, asOf, Overdue);
      outstandingTotal := outstandingTotal + balance;
      overdueTotal := overdueTotal + overdue;

      var b := BucketFor(daysPastDue);
      var bucket := aging[b];
      bucket := bucket.(amount := bucket.amount + balance);
      bucket := bucket.(invoiceCount := bucket.invoiceCount + 1);
      bucket := bucket.(customers := bucket.customers + {invoice.customerId});
      BucketsPosted(aging, bucket, live, i, asOf, b);
      aging := aging[b := bucket];

      byCustomer := PostToCustomer(byCustomer, live, i, asOf);

      var seller := SellerOf(invoice);
      var sellerKey := if seller == None then NO_SELLER else seller.value;
      var sellerRow := if sellerKey in bySeller.rows then bySeller.rows[sellerKey] else SellerRow(0, 0, {});
      var sellerNext := SellerRow(
        sellerRow.outstanding + balance, sellerRow.overdue + overdue, sellerRow.customers + {invoice.customerId});
      assert sellerKey == KeyOf(invoice, asOf, BySeller) by { SellerKey(invoice, asOf); }
      SellersPosted(bySeller, sellerRow, sellerNext, live, i, asOf, sellerKey);
      bySeller := Put(bySeller, sellerKey, sellerNext);

      var companyRow := if invoice.companyId in byCompany.rows then byCompany.rows[invoice.companyId] else CompanyRow(0, 0);
      var companyNext := CompanyRow(companyRow.outstanding + balance, companyRow.overdue + overdue);
      CompaniesPosted(byCompany, companyRow, companyNext, live, i, asOf);
      byCompany := Put(byCompany, invoice.companyId, companyNext);
    }
    assert live[..|live|] == live;
    r := Report(aging, byCustomer, bySeller, byCompany, outstandingTotal, overdueTotal);
    ReportIsOfInvoices(r, invoices, asOf);
  }

  // --- the partition ------------------------------------------------------------------------

  function AgingAmounts(aging: seq<AgingRow>): seq<int> { seq(|aging|, b requires 0 <= b < |aging| => aging[b].amount) }

  function AgingCounts(aging: seq<AgingRow>): seq<int> { seq(|aging|, b requires 0 <= b < |aging| => aging[b].invoiceCount) }

  lemma ValuesOfItems(xs: seq<Invoice>, asOf: int, g: Group, m: Measure)
    ensures Values(Items(xs, asOf, g, m)) == Amounts(xs, asOf, m)
  {
    hide KeyOf, Amount;
  }

  lemma TableConserves<V>(t: Table<V>, xs: seq<Invoice>, asOf: int, g: Group, m: Measure)
    requires Covers(t, xs, asOf, g)
    ensures Total(Column(t.order, Items(xs, asOf, g, m))) == Total(Amounts(xs, asOf, m))
  {
    hide KeyOf, Amount;
    var items := Items(xs, asOf, g, m);
    forall i | 0 <= i < |items| ensures items[i].0 in t.order {
      assert KeyOf(xs[i], asOf, g) in t.rows;
    }
    PartitionSum(t.order, items);
    ValuesOfItems(xs, asOf, g, m);
  }

  lemma FiguresConserve<V>(t: Table<V>, xs: seq<Invoice>, asOf: int, g: Group, m: Measure, figure: V -> int)
    requires Covers(t, xs, asOf, g)
    requires forall k :: k in t.rows ==> figure(t.rows[k]) == Share(xs, asOf, g, m, k)
    ensures Total(Figures(Rows(t), figure)) == Total(Amounts(xs, asOf, m))
  {
    hide Covers, SumOf, Amounts;
    assert ValidTable(t) by { CoversValid(t, xs, asOf, g); }
    TableConserves(t, xs, asOf, g, m);
    assert Figures(Rows(t), figure) == Column(t.order, Items(xs, asOf, g, m));
  }

  lemma CoversValid<V>(t: Table<V>, xs: seq<Invoice>, asOf: int, g: Group)
    requires Covers(t, xs, asOf, g)
    ensures ValidTable(t)
  {
  }

  lemma AgingConserves(xs: seq<Invoice>, asOf: int, m: Measure)
    ensures Total(Column(BUCKETS, Items(xs, asOf, ByAge, m))) == Total(Amounts(xs, asOf, m))
  {
    hide Amount, BucketFor;
    BucketsDistinct();
    PartitionSum(BUCKETS, Items(xs, asOf, ByAge, m));
    ValuesOfItems(xs, asOf, ByAge, m);
  }

  /** The first bucket holds nothing overdue, the others nothing else. */
  lemma {:induction false} OverdueByAge(xs: seq<Invoice>, asOf: int, b: nat)
    requires b < |BUCKETS|
    ensures Share(xs, asOf, ByAge, Overdue, BUCKETS[b]) == if b == 0 then 0 else Share(xs, asOf, ByAge, Outstanding, BUCKETS[b])
  {
    if xs == [] {
      AbsentShare(xs, asOf, ByAge, Overdue, BUCKETS[b]);
      AbsentShare(xs, asOf, ByAge, Outstanding, BUCKETS[b]);
    } else {
      hide Share;
      var n := |xs| - 1;
      assert xs[..n + 1] == xs;
      BucketsDistinct();
      OverdueByAge(xs[..n], asOf, b);
      ShareStep(xs, n, asOf, ByAge, Overdue, BUCKETS[b]);
      ShareStep(xs, n, asOf, ByAge, Outstanding, BUCKETS[b]);
    }
  }

  lemma {:induction false} TotalTail(xs: seq<int>)
    requires |xs| > 0
    ensures Total(xs) == xs[0] + Total(xs[1..])
  {
    var n := |xs| - 1;
    if n > 0 {
      TotalTail(xs[..n]);
      assert xs[..n][1..] == xs[1..][..n - 1];
    }
  }

  lemma AgingBalances(aging: seq<AgingRow>, xs: seq<Invoice>, asOf: int)
    requires BucketsRight(aging, xs, asOf)
    ensures Total(AgingAmounts(aging)) == Total(Amounts(xs, asOf, Outstanding))
    ensures Total(AgingCounts(aging)) == |xs|
    ensures Total(AgingAmounts(aging)[1..]) == Total(Amounts(xs, asOf, Overdue))
  {
    hide SumOf, Total, Amount;
    AgingConserves(xs, asOf, Outstanding);
    assert AgingAmounts(aging) == Column(BUCKETS, Items(xs, asOf, ByAge, Outstanding));
    AgingConserves(xs, asOf, Invoices);
    assert AgingCounts(aging) == Column(BUCKETS, Items(xs, asOf, ByAge, Invoices));
    OnesCount(xs, asOf);
    AgingConserves(xs, asOf, Overdue);
    var overdue := Column(BUCKETS, Items(xs, asOf, ByAge, Overdue));
    forall b | 0 <= b < |BUCKETS| ensures overdue[b] == if b == 0 then 0 else aging[b].amount {
      OverdueByAge(xs, asOf, b);
    }
    TotalTail(overdue);
    assert overdue[1..] == AgingAmounts(aging)[1..];
  }

  lemma {:induction false} OnesCount(xs: seq<Invoice>, asOf: int)
    ensures Total(Amounts(xs, asOf, Invoices)) == |xs|
  {
    if xs == [] {
      AmountsEmpty(asOf);
    } else {
      var n := |xs| - 1;
      assert xs[..n + 1] == xs;
      OnesCount(xs[..n], asOf);
      AmountsStep(xs, n, asOf, Invoices);
    }
  }

  /**
    No money is lost or counted twice: the aging buckets, the customers, the
    sellers and the companies each add up to the outstanding total, the four
    past-due buckets and the overdue figures of every breakdown to the overdue
    total, and every live invoice is in one bucket.
   */
  lemma ReportBalances(r: Report, xs: seq<Invoice>, asOf: int)
    requires ReportRight(r, xs, asOf)
    ensures ValidTable(r.byCustomer) && ValidTable(r.bySeller) && ValidTable(r.byCompany)
    ensures Total(AgingAmounts(r.aging)) == r.outstandingTotal
    ensures Total(AgingAmounts(r.aging)[1..]) == r.overdueTotal
    ensures Total(AgingCounts(r.aging)) == |xs|
    ensures Total(Figures(Rows(r.byCustomer), (row: CustomerRow) => row.outstanding)) == r.outstandingTotal
    ensures Total(Figures(Rows(r.byCustomer), (row: CustomerRow) => row.overdue)) == r.overdueTotal
    ensures Total(Figures(Rows(r.bySeller), (row: SellerRow) => row.outstanding)) == r.outstandingTotal
    ensures Total(Figures(Rows(r.bySeller), (row: SellerRow) => row.overdue)) == r.overdueTotal
    ensures Total(Figures(Rows(r.byCompany), (row: CompanyRow) => row.outstanding)) == r.outstandingTotal
    ensures Total(Figures(Rows(r.byCompany), (row: CompanyRow) => row.overdue)) == r.overdueTotal
  {
    hide Share, Covers, Amounts, Customers, BucketsRight, Total, ValidTable, IsOldest, Figures, Rows;
    CoversValid(r.byCustomer, xs, asOf, ByCustomer);
    CoversValid(r.bySeller, xs, asOf, BySeller);
    CoversValid(r.byCompany, xs, asOf, ByCompany);
    AgingBalances(r.aging, xs, asOf);
    FiguresConserve(r.byCustomer, xs, asOf, ByCustomer, Outstanding, (row: CustomerRow) => row.outstanding);
    FiguresConserve(r.byCustomer, xs, asOf, ByCustomer, Overdue, (row: CustomerRow) => row.overdue);
    FiguresConserve(r.bySeller, xs, asOf, BySeller, Outstanding, (row: SellerRow) => row.outstanding);
    FiguresConserve(r.bySeller, xs, asOf, BySeller, Overdue, (row: SellerRow) => row.overdue);
    FiguresConserve(r.byCompany, xs, asOf, ByCompany, Outstanding, (row: CompanyRow) => row.outstanding);
    FiguresConserve(r.byCompany, xs, asOf, ByCompany, Overdue, (row: CompanyRow) => row.overdue);
  }

  /** A customer's `maxDaysPastDue` is the age of its oldest overdue invoice and the largest of them all. */
  lemma OldestIsWorst(r: Report, xs: seq<Invoice>, asOf: int, c: string, i: nat)
    requires ReportRight(r, xs, asOf) && i < |xs| && xs[i].customerId == c
    ensures c in r.byCustomer.rows
    ensures var row := r.byCustomer.rows[c];
      && row.maxDaysPastDue == DaysOf(row.oldestDueDate, asOf)
      && DaysPastDue(xs[i], asOf) <= row.maxDaysPastDue
      && (row.maxDaysPastDue > 0 <==> row.oldestDueDate != None)
  {
    hide Share, SellersRight, CompaniesRight, BucketsRight;
    assert KeyOf(xs[i], asOf, ByCustomer) == c;
    var row := r.byCustomer.rows[c];
    assert CustomerRight(row, xs, asOf, c);
    if row.oldestDueDate != None && IsOverdue(xs[i], asOf) {
      assert OverdueFor(xs[i], asOf, c);
      DaysMonotone(row.oldestDueDate.value, xs[i].dueDate, asOf);
    }
  }
}

/** The debtors page: balances by customer and currency, split by age (debtor-aging.ts). */
module DebtorAging {
  import opened Prelude
  import opened Grouping
  import opened Sorting
  import Text
  import Calendar
  import Buckets

  datatype Invoice = Invoice(
    customerId: string, totalAmount: int, totalPaid: int, creditNoteTotal: Option<int>, dueDate: string,
    annulled: bool, currency: Option<string>)

  datatype Row = Row(
    customerId: string, currency: string, balance: int, current: int, d1to30: int, d31to60: int, d61to90: int,
    d90plus: int, oldestDueDate: string)

  function Balance(inv: Invoice): int {
    inv.totalAmount - inv.totalPaid - if inv.creditNoteTotal == None then 0 else inv.creditNoteTotal.value
  }

  predicate Counted(inv: Invoice) { !inv.annulled && Balance(inv) > 0 }

  function Currency(inv: Invoice): string { if inv.currency == None then "COP" else inv.currency.value }

  function KeyOf(inv: Invoice): string { inv.customerId + "|" + Currency(inv) }

  /** Where a text stands for a day: None is what `Date.UTC` calls NaN. */
  type Reader = string -> Option<int>

  /** Days overdue; NaN when either date is. */
  function OverdueDays(inv: Invoice, asOf: Option<int>, day: Reader): Option<int> {
    if asOf == None || day(inv.dueDate) == None then None else Some(asOf.value - day(inv.dueDate).value)
  }

  datatype Band = Current | D1to30 | D31to60 | D61to90 | D90plus

  /** The days each column stands for; a day count that cannot be read falls in the last one. */
  predicate InBand(days: Option<int>, b: Band) {
    match b
    case Current => days.Some? && days.value <= 0
    case D1to30 => days.Some? && 1 <= days.value <= 30
    case D31to60 => days.Some? && 31 <= days.value <= 60
    case D61to90 => days.Some? && 61 <= days.value <= 90
    case D90plus => days.Some? ==> days.value >= 91
  }

  function Column5(row: Row, b: Band): int {
    match b
    case Current => row.current
    case D1to30 => row.d1to30
    case D31to60 => row.d31to60
    case D61to90 => row.d61to90
    case D90plus => row.d90plus
  }

  // --- what a row must hold ----------------------------------------------------------------

  function Amount(inv: Invoice): int { if Counted(inv) then Balance(inv) else 0 }

  function Items(xs: seq<Invoice>): seq<(string, int)> {
    seq(|xs|, i requires 0 <= i < |xs| => (KeyOf(xs[i]), Amount(xs[i])))
  }

  function BandAmount(inv: Invoice, asOf: Option<int>, day: Reader, b: Band): int {
    if InBand(OverdueDays(inv, asOf, day), b) then Amount(inv) else 0
  }

  function BandItems(xs: seq<Invoice>, asOf: Option<int>, day: Reader, b: Band): seq<(string, int)> {
    seq(|xs|, i requires 0 <= i < |xs| => (KeyOf(xs[i]), BandAmount(xs[i], asOf, day, b)))
  }

  function Amounts(xs: seq<Invoice>): seq<int> { seq(|xs|, i requires 0 <= i < |xs| => Amount(xs[i])) }

  predicate FiledUnder(inv: Invoice, k: string) { Counted(inv) && KeyOf(inv) == k }

  /** The least due date, as text, of the invoices filed under `k`. */
  ghost predicate IsOldest(due: string, xs: seq<Invoice>, k: string) {
    && (exists i :: 0 <= i < |xs| && FiledUnder(xs[i], k) && xs[i].dueDate == due)
    && (forall i :: 0 <= i < |xs| && FiledUnder(xs[i], k) ==> !Text.Less(xs[i].dueDate, due))
  }

  /** The row bears the customer and the currency of an invoice filed under `k`. */
  ghost predicate Bears(row: Row, xs: seq<Invoice>, k: string) {
    exists i :: 0 <= i < |xs| && FiledUnder(xs[i], k) && xs[i].customerId == row.customerId && Currency(xs[i]) == row.currency
  }

  ghost predicate RowRight(row: Row, xs: seq<Invoice>, asOf: Option<int>, day: Reader, k: string) {
    && Bears(row, xs, k)
    && row.balance == SumOf(Items(xs), k)
    && (forall b :: Column5(row, b) == SumOf(BandItems(xs, asOf, day, b), k))
    && IsOldest(row.oldestDueDate, xs, k)
  }

  ghost predicate TableRight(t: Table<Row>, xs: seq<Invoice>, asOf: Option<int>, day: Reader) {
    && ValidTable(t)
    && (forall k :: k in t.rows <==> exists i :: 0 <= i < |xs| && FiledUnder(xs[i], k))
    && (forall k :: k in t.rows ==> RowRight(t.rows[k], xs, asOf, day, k))
  }

  // --- one invoice -----------------------------------------------------------------------------

  lemma ItemsStep(xs: seq<Invoice>, i: nat, k: string)
    requires i < |xs|
    ensures SumOf(Items(xs[..i + 1]), k) == SumOf(Items(xs[..i]), k) + if KeyOf(xs[i]) == k then Amount(xs[i]) else 0
  {
    hide KeyOf, Amount;
    assert Items(xs[..i + 1]) == Items(xs[..i]) + [(KeyOf(xs[i]), Amount(xs[i]))];
    SumOfAppend(Items(xs[..i]), k, (KeyOf(xs[i]), Amount(xs[i])));
  }

  lemma BandStep(xs: seq<Invoice>, i: nat, asOf: Option<int>, day: Reader, b: Band, k: string)
    requires i < |xs|
    ensures SumOf(BandItems(xs[..i + 1], asOf, day, b), k)
         == SumOf(BandItems(xs[..i], asOf, day, b), k)
          + if KeyOf(xs[i]) == k then BandAmount(xs[i], asOf, day, b) else 0
  {
    hide KeyOf, BandAmount;
    var item := (KeyOf(xs[i]), BandAmount(xs[i], asOf, day, b));
    assert BandItems(xs[..i + 1], asOf, day, b) == BandItems(xs[..i], asOf, day, b) + [item];
    SumOfAppend(BandItems(xs[..i], asOf, day, b), k, item);
  }

  lemma {:induction false} NothingFiled(xs: seq<Invoice>, asOf: Option<int>, day: Reader, k: string)
    requires forall i :: 0 <= i < |xs| ==> !FiledUnder(xs[i], k)
    ensures SumOf(Items(xs), k) == 0 && forall b :: SumOf(BandItems(xs, asOf, day, b), k) == 0
  {
    if xs != [] {
      var n := |xs| - 1;
      assert xs[..n + 1] == xs;
      NothingFiled(xs[..n], asOf, day, k);
      assert !FiledUnder(xs[n], k);
      ItemsStep(xs, n, k);
      forall b ensures SumOf(BandItems(xs, asOf, day, b), k) == 0 {
        BandStep(xs, n, asOf, day, b, k);
      }
    }
  }

  ghost predicate MoneyRight(row: Row, xs: seq<Invoice>, asOf: Option<int>, day: Reader, k: string) {
    && row.balance == SumOf(Items(xs), k)
    && forall b :: Column5(row, b) == SumOf(BandItems(xs, asOf, day, b), k)
  }

  /** The row as the loop body finds it: right so far, or created for this invoice. */
  ghost predicate Ready(row: Row, xs: seq<Invoice>, i: nat, asOf: Option<int>, day: Reader, k: string)
    requires i < |xs|
  {
    && MoneyRight(row, xs[..i], asOf, day, k)
    && ((Bears(row, xs[..i], k) && IsOldest(row.oldestDueDate, xs[..i], k))
        || (row.customerId == xs[i].customerId && row.currency == Currency(xs[i])
            && row.oldestDueDate == xs[i].dueDate && forall j :: 0 <= j < i ==> !FiledUnder(xs[j], k)))
  }

  lemma OldestStep(d: string, xs: seq<Invoice>, i: nat, k: string)
    requires i < |xs| && FiledUnder(xs[i], k)
    requires IsOldest(d, xs[..i], k) || (d == xs[i].dueDate && forall j :: 0 <= j < i ==> !FiledUnder(xs[j], k))
    ensures IsOldest(if Text.Less(xs[i].dueDate, d) then xs[i].dueDate else d, xs[..i + 1], k)
  {
    hide FiledUnder, Text.Less;
    var before, after := xs[..i], xs[..i + 1];
    var e := if Text.Less(xs[i].dueDate, d) then xs[i].dueDate else d;
    assert after == before + [xs[i]];
    if IsOldest(d, before, k) && e == d {
      var j :| 0 <= j < |before| && FiledUnder(before[j], k) && before[j].dueDate == d;
      assert after[j].dueDate == d;
    } else {
      assert after[i].dueDate == e;
    }
    forall j | 0 <= j < |after| && FiledUnder(after[j], k) ensures !Text.Less(after[j].dueDate, e) {
      LessFacts(after[j].dueDate, xs[i].dueDate, d);
      if j < i {
        assert after[j] == before[j];
      }
    }
  }

  lemma LessFacts(a: string, b: string, d: string)
    ensures !Text.Less(a, a)
    ensures Text.Less(a, b) && Text.Less(b, d) ==> Text.Less(a, d)
  {
    Irreflexive(a);
    if Text.Less(a, b) && Text.Less(b, d) {
      Text.LessTransitive(a, b, d);
    }
  }

  lemma {:induction false} Irreflexive(a: string)
    ensures !Text.Less(a, a)
  {
    if a != "" {
      Irreflexive(a[1..]);
    }
  }

  lemma BearsStep(row: Row, xs: seq<Invoice>, i: nat, k: string)
    requires i < |xs|
    requires Bears(row, xs[..i], k) || (FiledUnder(xs[i], k) && row.customerId == xs[i].customerId && row.currency == Currency(xs[i]))
    ensures Bears(row, xs[..i + 1], k)
  {
    hide FiledUnder, Currency;
    var before, after := xs[..i], xs[..i + 1];
    assert after == before + [xs[i]];
    if Bears(row, before, k) {
      var j :| 0 <= j < |before| && FiledUnder(before[j], k) && before[j].customerId == row.customerId && Currency(before[j]) == row.currency;
      assert FiledUnder(after[j], k);
    } else {
      assert FiledUnder(after[i], k);
    }
  }

  lemma RowStep(row: Row, next: Row, xs: seq<Invoice>, i: nat, asOf: Option<int>, day: Reader, k: string)
    requires i < |xs| && FiledUnder(xs[i], k) && Ready(row, xs, i, asOf, day, k)
    requires next.customerId == row.customerId && next.currency == row.currency
    requires next.balance == row.balance + Balance(xs[i])
    requires next.oldestDueDate == if Text.Less(xs[i].dueDate, row.oldestDueDate) then xs[i].dueDate else row.oldestDueDate
    requires forall b ::
      Column5(next, b) == Column5(row, b) + if InBand(OverdueDays(xs[i], asOf, day), b) then Balance(xs[i]) else 0
    ensures RowRight(next, xs[..i + 1], asOf, day, k)
  {
    hide Items, BandItems, SumOf, InBand, OverdueDays, KeyOf, Text.Less;
    ItemsStep(xs, i, k);
    forall b ensures Column5(next, b) == SumOf(BandItems(xs[..i + 1], asOf, day, b), k) {
      BandStep(xs, i, asOf, day, b, k);
    }
    OldestStep(row.oldestDueDate, xs, i, k);
    BearsStep(row, xs, i, k);
  }

  lemma RowOther(row: Row, xs: seq<Invoice>, i: nat, asOf: Option<int>, day: Reader, k: string)
    requires i < |xs| && !FiledUnder(xs[i], k) && RowRight(row, xs[..i], asOf, day, k)
    ensures RowRight(row, xs[..i + 1], asOf, day, k)
  {
    hide Items, BandItems, SumOf, InBand, OverdueDays, KeyOf, Text.Less;
    var before, after := xs[..i], xs[..i + 1];
    assert after == before + [xs[i]];
    ItemsStep(xs, i, k);
    forall b ensures Column5(row, b) == SumOf(BandItems(after, asOf, day, b), k) {
      BandStep(xs, i, asOf, day, b, k);
    }
    BearsStep(row, xs, i, k);
    var j :| 0 <= j < |before| && FiledUnder(before[j], k) && before[j].dueDate == row.oldestDueDate;
    assert after[j] == before[j];
    forall j | 0 <= j < |after| && FiledUnder(after[j], k) ensures !Text.Less(after[j].dueDate, row.oldestDueDate) {
      assert after[j] == before[j];
    }
  }

  lemma TableStep(t: Table<Row>, next: Row, xs: seq<Invoice>, i: nat, asOf: Option<int>, day: Reader, k: string)
    requires i < |xs| && FiledUnder(xs[i], k) && TableRight(t, xs[..i], asOf, day)
    requires RowRight(next, xs[..i + 1], asOf, day, k)
    ensures TableRight(Put(t, k, next), xs[..i + 1], asOf, day)
  {
    hide RowRight, KeyOf;
    var before, after := xs[..i], xs[..i + 1];
    assert after == before + [xs[i]];
    PutKeeps(t, k, next);
    forall x | x in t.rows && x != k ensures RowRight(t.rows[x], after, asOf, day, x) {
      RowOther(t.rows[x], xs, i, asOf, day, x);
    }
    forall x | x in t.rows ensures exists j :: 0 <= j < |after| && FiledUnder(after[j], x) {
      var j :| 0 <= j < |before| && FiledUnder(before[j], x);
      assert FiledUnder(after[j], x);
    }
    assert FiledUnder(after[i], k);
  }

  lemma TableSkip(t: Table<Row>, xs: seq<Invoice>, i: nat, asOf: Option<int>, day: Reader)
    requires i < |xs| && !Counted(xs[i]) && TableRight(t, xs[..i], asOf, day)
    ensures TableRight(t, xs[..i + 1], asOf, day)
  {
    hide RowRight, KeyOf;
    var before, after := xs[..i], xs[..i + 1];
    assert after == before + [xs[i]];
    forall x | x in t.rows ensures RowRight(t.rows[x], after, asOf, day, x) {
      RowOther(t.rows[x], xs, i, asOf, day, x);
    }
    forall x | x in t.rows ensures exists j :: 0 <= j < |after| && FiledUnder(after[j], x) {
      var j :| 0 <= j < |before| && FiledUnder(before[j], x);
      assert FiledUnder(after[j], x);
    }
  }

  lemma RowFound(t: Table<Row>, xs: seq<Invoice>, i: nat, asOf: Option<int>, day: Reader, k: string)
    requires i < |xs| && TableRight(t, xs[..i], asOf, day) && k == KeyOf(xs[i])
    ensures Ready(
      if k in t.rows then t.rows[k] else Row(xs[i].customerId, Currency(xs[i]), 0, 0, 0, 0, 0, 0, xs[i].dueDate), xs, i, asOf, day, k)
  {
    hide SumOf, Items, BandItems, FiledUnder, IsOldest;
    if k !in t.rows {
      assert forall j :: 0 <= j < |xs[..i]| ==> !FiledUnder(xs[..i][j], k);
      NothingFiled(xs[..i], asOf, day, k);
    }
  }

  // --- the rows against the invoices' own fields ---------------------------------------------

  /** Not annulled, and more billed than paid and credited. */
  predicate Owing(inv: Invoice) {
    !inv.annulled && (match inv.creditNoteTotal case None => inv.totalPaid case Some(c) => inv.totalPaid + c) < inv.totalAmount
  }

  predicate Named(inv: Invoice, k: string) {
    k == match inv.currency case None => inv.customerId + "|COP" case Some(currency) => inv.customerId + "|" + currency
  }

  /** The days from the due date to the reference date lie within the bounds, an unreadable date beyond any. */
  predicate Aged(inv: Invoice, asOf: Option<int>, day: Reader, low: Option<int>, high: Option<int>) {
    match (asOf, day(inv.dueDate))
    case (Some(now), Some(due)) => (low.Some? ==> due + low.value <= now) && (high.Some? ==> now <= due + high.value)
    case _ => high == None
  }

  /** What the owing invoices under a key add up to, within the bounds on their age. */
  function Owed(xs: seq<Invoice>, asOf: Option<int>, day: Reader, k: string, low: Option<int>, high: Option<int>): int {
    if xs == [] then 0
    else
      var inv := xs[|xs| - 1];
      Owed(xs[..|xs| - 1], asOf, day, k, low, high)
      + if Owing(inv) && Named(inv, k) && Aged(inv, asOf, day, low, high)
        then (match inv.creditNoteTotal case None => inv.totalAmount - inv.totalPaid case Some(c) => inv.totalAmount - inv.totalPaid - c)
        else 0
  }

  function Low(b: Band): Option<int> {
    match b case Current => None case D1to30 => Some(1) case D31to60 => Some(31) case D61to90 => Some(61) case D90plus => Some(91)
  }

  function High(b: Band): Option<int> {
    match b case Current => Some(0) case D1to30 => Some(30) case D31to60 => Some(60) case D61to90 => Some(90) case D90plus => None
  }

  lemma OneFiled(inv: Invoice, k: string)
    ensures Counted(inv) <==> Owing(inv)
    ensures KeyOf(inv) == k <==> Named(inv, k)
    ensures Owing(inv) ==>
      Amount(inv) == match inv.creditNoteTotal case None => inv.totalAmount - inv.totalPaid case Some(c) => inv.totalAmount - inv.totalPaid - c
  {
    assert inv.customerId + "|" + "COP" == inv.customerId + "|COP";
  }

  lemma OneAged(inv: Invoice, asOf: Option<int>, day: Reader, b: Band)
    ensures InBand(OverdueDays(inv, asOf, day), b) <==> Aged(inv, asOf, day, Low(b), High(b))
    ensures Aged(inv, asOf, day, None, None)
  {
  }

  lemma OwedStep(xs: seq<Invoice>, asOf: Option<int>, day: Reader, k: string, low: Option<int>, high: Option<int>)
    requires xs != []
    ensures var n := |xs| - 1;
      Owed(xs, asOf, day, k, low, high) == Owed(xs[..n], asOf, day, k, low, high)
        + if KeyOf(xs[n]) == k && Aged(xs[n], asOf, day, low, high) then Amount(xs[n]) else 0
  {
    OneFiled(xs[|xs| - 1], k);
    hide KeyOf, Aged, Named, Owing, Balance;
  }

  lemma {:induction false} ItemsAreOwed(xs: seq<Invoice>, asOf: Option<int>, day: Reader, k: string)
    ensures SumOf(Items(xs), k) == Owed(xs, asOf, day, k, None, None)
  {
    hide SumOf, Items, KeyOf, Aged, Amount, Owed;
    if xs == [] {
      NothingFiled(xs, asOf, day, k);
      NothingOwed(asOf, day, k, None, None);
    } else {
      var n := |xs| - 1;
      ItemsAreOwed(xs[..n], asOf, day, k);
      assert xs[..n + 1] == xs;
      ItemsStep(xs, n, k);
      OwedStep(xs, asOf, day, k, None, None);
      OneAged(xs[n], asOf, day, Current);
    }
  }

  lemma {:induction false} BandIsOwed(xs: seq<Invoice>, asOf: Option<int>, day: Reader, k: string, b: Band)
    ensures SumOf(BandItems(xs, asOf, day, b), k) == Owed(xs, asOf, day, k, Low(b), High(b))
  {
    hide SumOf, BandItems, KeyOf, Aged, Amount, Owed, InBand, OverdueDays, Low, High;
    if xs == [] {
      NothingFiled(xs, asOf, day, k);
      NothingOwed(asOf, day, k, Low(b), High(b));
    } else {
      var n := |xs| - 1;
      BandIsOwed(xs[..n], asOf, day, k, b);
      assert xs[..n + 1] == xs;
      BandStep(xs, n, asOf, day, b, k);
      OwedStep(xs, asOf, day, k, Low(b), High(b));
      OneAged(xs[n], asOf, day, b);
    }
  }

  lemma NothingOwed(asOf: Option<int>, day: Reader, k: string, low: Option<int>, high: Option<int>)
    ensures Owed([], asOf, day, k, low, high) == 0
  {
  }

  /** Each column of a right row is what the owing invoices of that age add up to. */
  lemma RowIsOwed(row: Row, xs: seq<Invoice>, asOf: Option<int>, day: Reader, k: string)
    requires RowRight(row, xs, asOf, day, k)
    ensures row.balance == Owed(xs, asOf, day, k, None, None)
    ensures row.current == Owed(xs, asOf, day, k, None, Some(0))
    ensures row.d1to30 == Owed(xs, asOf, day, k, Some(1), Some(30))
    ensures row.d31to60 == Owed(xs, asOf, day, k, Some(31), Some(60))
    ensures row.d61to90 == Owed(xs, asOf, day, k, Some(61), Some(90))
    ensures row.d90plus == Owed(xs, asOf, day, k, Some(91), None)
  {
    hide SumOf, Items, BandItems, Owed, Bears, IsOldest;
    ItemsAreOwed(xs, asOf, day, k);
    BandIsOwed(xs, asOf, day, k, Current);
    BandIsOwed(xs, asOf, day, k, D1to30);
    BandIsOwed(xs, asOf, day, k, D31to60);
    BandIsOwed(xs, asOf, day, k, D61to90);
    BandIsOwed(xs, asOf, day, k, D90plus);
    assert row.current == Column5(row, Current) && row.d1to30 == Column5(row, D1to30) && row.d31to60 == Column5(row, D31to60);
    assert row.d61to90 == Column5(row, D61to90) && row.d90plus == Column5(row, D90plus);
  }

  /** A key has a row exactly when something is owed under it. */
  lemma RowExactlyWhenOwed(t: Table<Row>, xs: seq<Invoice>, asOf: Option<int>, day: Reader, k: string)
    requires TableRight(t, xs, asOf, day)
    ensures k in t.rows <==> exists i :: 0 <= i < |xs| && Owing(xs[i]) && Named(xs[i], k)
  {
    hide RowRight, KeyOf, Named, Owing, Counted;
    forall i | 0 <= i < |xs| ensures FiledUnder(xs[i], k) <==> Owing(xs[i]) && Named(xs[i], k) {
      OneFiled(xs[i], k);
    }
  }

  // --- bucketAging -------------------------------------------------------------------------

  function ByBalance(row: Row): real { row.balance as real }

  /** A comparison with NaN is false, so the chain ends in its last branch. */
  predicate AtMost(days: Option<int>, bound: int) { days.Some? && days.value <= bound }

  /** The chain of comparisons that picks the column. */
  method AddToBand(row: Row, days: Option<int>, balance: int) returns (next: Row)
    ensures next.customerId == row.customerId && next.currency == row.currency
    ensures next.balance == row.balance && next.oldestDueDate == row.oldestDueDate
    ensures forall b :: Column5(next, b) == Column5(row, b) + if InBand(days, b) then balance else 0
  {
    next := row;
    if AtMost(days, 0) {
      next := next.(current := next.current + balance);
    } else if AtMost(days, 30) {
      next := next.(d1to30 := next.d1to30 + balance);
    } else if AtMost(days, 60) {
      next := next.(d31to60 := next.d31to60 + balance);
    } else if AtMost(days, 90) {
      next := next.(d61to90 := next.d61to90 + balance);
    } else {
      next := next.(d90plus := next.d90plus + balance);
    }
  }

  /** A row for each key, every one right, and the page's list of them by descending balance. */
  method BucketAging(invoices: seq<Invoice>, asOfISO: string, day: Reader)
    returns (byCustomer: Table<Row>, rows: seq<Row>)
    ensures TableRight(byCustomer, invoices, day(asOfISO), day)
    ensures multiset(rows) == multiset(Rows(byCustomer)) && NonIncreasing(rows, ByBalance)
    ensures forall v :: Tied(rows, ByBalance, v) == Tied(Rows(byCustomer), ByBalance, v)
  {
    hide RowRight, MoneyRight, Ready, Put;
    var asOf := day(asOfISO);
    byCustomer := Table([], map[]);
    for i := 0 to |invoices|
      invariant TableRight(byCustomer, invoices[..i], asOf, day)
    {
      var inv := invoices[i];
      var balance := Balance(inv);
      if inv.annulled || balance <= 0 {
        TableSkip(byCustomer, invoices, i, asOf, day);
        continue;
      }
      var key := KeyOf(inv);
      var row := Row(inv.customerId, Currency(inv), 0, 0, 0, 0, 0, 0, inv.dueDate);
      if key in byCustomer.rows {
        row := byCustomer.rows[key];
      }
      RowFound(byCustomer, invoices, i, asOf, day, key);
      ghost var was := row;
      row := row.(balance := row.balance + balance);
      if Text.Less(inv.dueDate, row.oldestDueDate) {
        row := row.(oldestDueDate := inv.dueDate);
      }
      row := AddToBand(row, OverdueDays(inv, asOf, day), balance);
      RowStep(was, row, invoices, i, asOf, day, key);
      TableStep(byCustomer, row, invoices, i, asOf, day, key);
      byCustomer := Put(byCustomer, key, row);
    }
    assert invoices[..|invoices|] == invoices;
    SortDescendingSorts(Rows(byCustomer), ByBalance);
    rows := SortDescending(Rows(byCustomer), ByBalance);
  }

  // --- conservation --------------------------------------------------------------------------

  /** Every amount is in exactly one band. */
  lemma BandsOfOne(inv: Invoice, asOf: Option<int>, day: Reader)
    ensures Amount(inv)
         == BandAmount(inv, asOf, day, Current) + BandAmount(inv, asOf, day, D1to30) + BandAmount(inv, asOf, day, D31to60)
          + BandAmount(inv, asOf, day, D61to90) + BandAmount(inv, asOf, day, D90plus)
  {
  }

  /** The five bands of a key share its balance out. */
  lemma {:induction false} BandsAddUp(xs: seq<Invoice>, asOf: Option<int>, day: Reader, k: string)
    ensures SumOf(Items(xs), k)
         == SumOf(BandItems(xs, asOf, day, Current), k) + SumOf(BandItems(xs, asOf, day, D1to30), k)
          + SumOf(BandItems(xs, asOf, day, D31to60), k) + SumOf(BandItems(xs, asOf, day, D61to90), k)
          + SumOf(BandItems(xs, asOf, day, D90plus), k)
  {
    hide SumOf, Items, BandItems, KeyOf, BandAmount, Amount;
    if xs == [] {
      NothingFiled(xs, asOf, day, k);
    } else {
      var n := |xs| - 1;
      assert xs[..n + 1] == xs;
      BandsAddUp(xs[..n], asOf, day, k);
      ItemsStep(xs, n, k);
      BandStep(xs, n, asOf, day, Current, k);
      BandStep(xs, n, asOf, day, D1to30, k);
      BandStep(xs, n, asOf, day, D31to60, k);
      BandStep(xs, n, asOf, day, D61to90, k);
      BandStep(xs, n, asOf, day, D90plus, k);
      BandsOfOne(xs[n], asOf, day);
    }
  }

  lemma {:induction false} FiledIsPositive(xs: seq<Invoice>, i: nat, k: string)
    requires i < |xs| && FiledUnder(xs[i], k)
    ensures SumOf(Items(xs), k) > 0
  {
    hide SumOf, Items, KeyOf;
    var n := |xs| - 1;
    assert xs[..n + 1] == xs;
    ItemsStep(xs, n, k);
    if i < n {
      FiledIsPositive(xs[..n], i, k);
    } else {
      FiledIsNatural(xs[..n], k);
    }
  }

  lemma {:induction false} FiledIsNatural(xs: seq<Invoice>, k: string)
    ensures SumOf(Items(xs), k) >= 0
  {
    if xs != [] {
      var n := |xs| - 1;
      assert xs[..n + 1] == xs;
      FiledIsNatural(xs[..n], k);
      ItemsStep(xs, n, k);
    }
  }

  lemma RowBalances(row: Row, xs: seq<Invoice>, asOf: Option<int>, day: Reader, k: string)
    requires RowRight(row, xs, asOf, day, k)
    ensures row.balance == row.current + row.d1to30 + row.d31to60 + row.d61to90 + row.d90plus > 0
  {
    hide SumOf, Items, BandItems;
    BandsAddUp(xs, asOf, day, k);
    assert Column5(row, Current) + Column5(row, D1to30) + Column5(row, D31to60) + Column5(row, D61to90) + Column5(row, D90plus)
      == row.balance;
    var i :| 0 <= i < |xs| && FiledUnder(xs[i], k);
    FiledIsPositive(xs, i, k);
  }

  lemma TableBalances(t: Table<Row>, xs: seq<Invoice>, asOf: Option<int>, day: Reader)
    requires TableRight(t, xs, asOf, day)
    ensures Total(Figures(Rows(t), (row: Row) => row.balance)) == Total(Amounts(xs))
  {
    hide SumOf, KeyOf;
    forall i | 0 <= i < |xs| ensures Items(xs)[i].0 in t.order || Items(xs)[i].1 == 0 {
      if Counted(xs[i]) {
        assert FiledUnder(xs[i], KeyOf(xs[i]));
      }
    }
    PartitionSum(t.order, Items(xs));
    assert Values(Items(xs)) == Amounts(xs);
    assert Figures(Rows(t), (row: Row) => row.balance) == Column(t.order, Items(xs));
  }

  /**
    Nothing is lost: in the listed rows the five bands add up to the balance, and
    the balances to every positive balance that is not annulled.
   */
  lemma DebtorsBalance(t: Table<Row>, rows: seq<Row>, xs: seq<Invoice>, asOf: Option<int>, day: Reader)
    requires TableRight(t, xs, asOf, day) && multiset(rows) == multiset(Rows(t))
    ensures Total(Figures(rows, (row: Row) => row.balance)) == Total(Amounts(xs))
    ensures forall i :: 0 <= i < |rows| ==>
      rows[i].balance == rows[i].current + rows[i].d1to30 + rows[i].d31to60 + rows[i].d61to90 + rows[i].d90plus > 0
  {
    hide RowRight;
    TableBalances(t, xs, asOf, day);
    ReorderedTotal(rows, Rows(t), (row: Row) => row.balance);
    forall i | 0 <= i < |rows|
      ensures rows[i].balance == rows[i].current + rows[i].d1to30 + rows[i].d31to60 + rows[i].d61to90 + rows[i].d90plus > 0
    {
      assert rows[i] in multiset(rows);
      var j :| 0 <= j < |t.order| && Rows(t)[j] == rows[i];
      RowBalances(rows[i], xs, asOf, day, t.order[j]);
    }
  }

  // --- what a key stands for -----------------------------------------------------------------

  lemma NoLonger(a: string, x: string, b: string, y: string)
    requires '|' !in b && a + "|" + x == b + "|" + y
    ensures |b| <= |a|
  {
    assert (b + "|" + y)[|a|] == '|';
  }

  /** Texts without the separator are recovered from the key that joins them. */
  lemma KeyInjective(a: string, x: string, b: string, y: string)
    requires '|' !in a && '|' !in b && a + "|" + x == b + "|" + y
    ensures a == b && x == y
  {
    NoLonger(a, x, b, y);
    NoLonger(b, y, a, x);
    assert (a + "|" + x)[..|a|] == a && (b + "|" + y)[..|b|] == b;
    assert (a + "|" + x)[|a| + 1..] == x && (b + "|" + y)[|b| + 1..] == y;
  }

  /** A row's own customer and currency spell its key. */
  lemma RowSpellsKey(row: Row, xs: seq<Invoice>, asOf: Option<int>, day: Reader, k: string)
    requires RowRight(row, xs, asOf, day, k)
    ensures row.customerId + "|" + row.currency == k
  {
    hide SumOf, Items, BandItems, IsOldest;
  }

  lemma RowsDistinct(t: Table<Row>, xs: seq<Invoice>, asOf: Option<int>, day: Reader)
    requires TableRight(t, xs, asOf, day)
    ensures forall m :: 0 <= m < |t.order| ==> Rows(t)[m].customerId + "|" + Rows(t)[m].currency == t.order[m]
    ensures Distinct(Rows(t))
  {
    hide RowRight;
    forall m | 0 <= m < |t.order| ensures Rows(t)[m].customerId + "|" + Rows(t)[m].currency == t.order[m] {
      RowSpellsKey(Rows(t)[m], xs, asOf, day, t.order[m]);
    }
  }

  lemma AmongRows(t: Table<Row>, rows: seq<Row>, i: nat) returns (m: nat)
    requires ValidTable(t) && multiset(rows) == multiset(Rows(t)) && i < |rows|
    ensures m < |t.order| && Rows(t)[m] == rows[i]
  {
    assert rows[i] in multiset(rows);
    assert rows[i] in Rows(t);
    m :| 0 <= m < |t.order| && Rows(t)[m] == rows[i];
  }

  /** No customer and currency is listed twice. */
  lemma NoRowTwice(t: Table<Row>, rows: seq<Row>, xs: seq<Invoice>, asOf: Option<int>, day: Reader, i: nat, j: nat)
    requires TableRight(t, xs, asOf, day) && multiset(rows) == multiset(Rows(t))
    requires i < j < |rows|
    ensures rows[i].customerId != rows[j].customerId || rows[i].currency != rows[j].currency
  {
    hide RowRight, Rows;
    RowsDistinct(t, xs, asOf, day);
    var m := AmongRows(t, rows, i);
    var n := AmongRows(t, rows, j);
    OccursOnce(Rows(t), rows[i]);
    if rows[i] == rows[j] {
      OccursTwice(rows, i, j);
    }
  }

  /** If no customer id holds the separator, a counted invoice is in the row of its own customer and currency. */
  lemma RowIsItsOwn(t: Table<Row>, xs: seq<Invoice>, asOf: Option<int>, day: Reader, i: nat)
    requires TableRight(t, xs, asOf, day) && i < |xs| && Counted(xs[i])
    requires forall j :: 0 <= j < |xs| ==> '|' !in xs[j].customerId
    ensures KeyOf(xs[i]) in t.rows
    ensures t.rows[KeyOf(xs[i])].customerId == xs[i].customerId && t.rows[KeyOf(xs[i])].currency == Currency(xs[i])
  {
    hide SumOf, Items, BandItems, IsOldest;
    var k := KeyOf(xs[i]);
    assert FiledUnder(xs[i], k);
    var row := t.rows[k];
    assert RowRight(row, xs, asOf, day, k);
    RowSpellsKey(row, xs, asOf, day, k);
    KeyInjective(row.customerId, row.currency, xs[i].customerId, Currency(xs[i]));
  }

  // --- due dates as text ---------------------------------------------------------------------

  /** The first ten characters read `YYYY-MM-DD`. */
  predicate IsDated(iso: string) {
    && |iso| >= 10 && iso[4] == '-' && iso[7] == '-'
    && Text.IsDigit(iso[0]) && Text.IsDigit(iso[1]) && Text.IsDigit(iso[2]) && Text.IsDigit(iso[3])
    && Text.IsDigit(iso[5]) && Text.IsDigit(iso[6]) && Text.IsDigit(iso[8]) && Text.IsDigit(iso[9])
  }

  function CivilOf(iso: string): Calendar.Civil
    requires IsDated(iso)
  {
    Calendar.Civil(
      1000 * Text.DigitValue(iso[0]) + 100 * Text.DigitValue(iso[1]) + 10 * Text.DigitValue(iso[2]) + Text.DigitValue(iso[3]),
      10 * Text.DigitValue(iso[5]) + Text.DigitValue(iso[6]), 10 * Text.DigitValue(iso[8]) + Text.DigitValue(iso[9]))
  }

  /** A real date; `Date.UTC` reads years below 100 as years of the twentieth century. */
  predicate IsRealDate(iso: string) { IsDated(iso) && Calendar.Valid(CivilOf(iso)) && CivilOf(iso).year >= 100 }

  /** toDayUTC, in days. */
  function ToDayUTC(iso: string): int
    requires IsDated(iso)
  {
    Calendar.DateUtcDay(CivilOf(iso).year, CivilOf(iso).month, CivilOf(iso).day)
  }

  lemma TwoDigits(n: nat)
    requires n <= 99
    ensures |Buckets.Two(n)| == 2 && Text.IsDigit(Buckets.Two(n)[0]) && Text.IsDigit(Buckets.Two(n)[1])
    ensures 10 * Text.DigitValue(Buckets.Two(n)[0]) + Text.DigitValue(Buckets.Two(n)[1]) == n
  {
    assert Text.DigitValue(Text.Digit(n / 10)) == n / 10 && Text.DigitValue(Text.Digit(n % 10)) == n % 10;
  }

  /** The ISO text of a day, with or without a time after it, reads back as that day. */
  lemma DateReadsBack(c: Calendar.Civil, rest: string)
    requires Calendar.Valid(c) && 100 <= c.year <= 9999
    ensures Buckets.FourDigits(Buckets.DateKey(c))
    ensures var iso := Buckets.Printed(Buckets.DateKey(c)) + rest;
      IsRealDate(iso) && CivilOf(iso) == c && ToDayUTC(iso) == Calendar.DayNumber(c)
  {
    TwoDigits(c.year / 100);
    TwoDigits(c.year % 100);
    TwoDigits(c.month);
    TwoDigits(c.day);
    hide Buckets.Two, Text.DigitValue, Calendar.YearStart, Calendar.MonthStart;
    var iso := Buckets.Printed(Buckets.DateKey(c)) + rest;
    assert iso[0] == Buckets.Two(c.year / 100)[0] && iso[1] == Buckets.Two(c.year / 100)[1];
    assert iso[2] == Buckets.Two(c.year % 100)[0] && iso[3] == Buckets.Two(c.year % 100)[1];
    assert iso[5] == Buckets.Two(c.month)[0] && iso[6] == Buckets.Two(c.month)[1];
    assert iso[8] == Buckets.Two(c.day)[0] && iso[9] == Buckets.Two(c.day)[1];
    assert c.year == 100 * (c.year / 100) + c.year % 100;
    Calendar.MakeDayInRange(c.year, c.month, c.day);
  }

  lemma {:induction false} LessTotal(a: string, b: string)
    ensures a == b || Text.Less(a, b) || Text.Less(b, a)
  {
    if a != "" && b != "" && a[0] == b[0] {
      LessTotal(a[1..], b[1..]);
      assert a[1..] == b[1..] ==> a == b;
    }
  }

  lemma FirstDifference(a: string, b: string, i: nat)
    requires IsDated(a) && IsDated(b) && i < 10 && a[..i] == b[..i] && a[i] < b[i]
    ensures Calendar.Before(CivilOf(a), CivilOf(b))
  {
    assert forall j :: 0 <= j < i ==> a[j] == a[..i][j] == b[j];
  }

  lemma SamePrefix(a: string, b: string, i: nat)
    requires IsDated(a) && IsDated(b) && i >= 10 && i <= |a| && i <= |b| && a[..i] == b[..i]
    ensures CivilOf(a) == CivilOf(b)
  {
    assert forall j :: 0 <= j < 10 ==> a[j] == a[..i][j] == b[j];
  }

  /** The order of the texts is the order of the days. */
  lemma TextOrderIsDayOrder(a: string, b: string)
    requires IsRealDate(a) && IsRealDate(b) && !Text.Less(b, a)
    ensures ToDayUTC(a) <= ToDayUTC(b)
  {
    hide CivilOf, Calendar.DayNumber;
    Calendar.MakeDayInRange(CivilOf(a).year, CivilOf(a).month, CivilOf(a).day);
    Calendar.MakeDayInRange(CivilOf(b).year, CivilOf(b).month, CivilOf(b).day);
    LessTotal(a, b);
    if a != b {
      var i := Text.LessAt(a, b);
      if i < 10 {
        FirstDifference(a, b, i);
        Calendar.DayNumberMonotone(CivilOf(a), CivilOf(b));
      } else {
        SamePrefix(a, b, i);
      }
    }
  }

  /** `oldestDueDate`, the least text, is the day longest overdue of all the invoices in its row. */
  lemma OldestIsLongestOverdue(row: Row, xs: seq<Invoice>, asOf: Option<int>, day: Reader, k: string, i: nat)
    requires RowRight(row, xs, asOf, day, k) && i < |xs| && FiledUnder(xs[i], k)
    requires forall j :: 0 <= j < |xs| ==> IsRealDate(xs[j].dueDate)
    ensures IsRealDate(row.oldestDueDate) && IsRealDate(xs[i].dueDate) && ToDayUTC(row.oldestDueDate) <= ToDayUTC(xs[i].dueDate)
  {
    hide IsRealDate, ToDayUTC;
    var j :| 0 <= j < |xs| && FiledUnder(xs[j], k) && xs[j].dueDate == row.oldestDueDate;
    assert IsRealDate(xs[j].dueDate) && IsRealDate(xs[i].dueDate);
    TextOrderIsDayOrder(row.oldestDueDate, xs[i].dueDate);
  }
}

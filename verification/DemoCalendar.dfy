/** Where the demo company's history falls in its calendar
    (prisma/seed/demo-trading.ts, and the opening date of
    prisma/seed/demo-company.ts). Instants are milliseconds since 1970, days are
    UTC days since then. */
module DemoCalendar {
  import opened Products

  type Instant = int
  type Day = int

  const DAY := 86_400_000
  const RESTOCK_DAYS: seq<nat> := [96, 82, 68, 54, 40, 26, 12]
  const EXPENSE_DAYS: seq<nat> := [72, 60, 42, 30, 12, 6]
  const TRADING_DAYS := 90
  const DEMO_HISTORY_DAYS := 96

  function Larger(a: int, b: int): int {
    if a > b then a else b
  }

  /** The date part of toISOString. */
  function DayOf(t: Instant): Day {
    t / DAY
  }

  function DaysAgo(days: int, from: Instant): Day {
    DayOf(from - days * DAY)
  }

  function DemoOpenedOn(asOf: Instant): Instant {
    asOf - DEMO_HISTORY_DAYS * DAY
  }

  /** Math.round of a number of days: halves go up. */
  function RoundedAge(asOf: Instant, bill: Day): int {
    (2 * (asOf - bill * DAY) + DAY) / (2 * DAY)
  }

  lemma DaysAgoCounts(days: int, from: Instant)
    ensures DaysAgo(days, from) == DayOf(from) - days
  {
  }

  // ----- the Gregorian calendar, as ECMAScript defines it

  function DayFromYear(y: int): Day {
    365 * (y - 1970) + (y - 1969) / 4 - (y - 1901) / 100 + (y - 1601) / 400
  }

  predicate IsLeap(y: int) {
    y % 4 == 0 && (y % 100 != 0 || y % 400 == 0)
  }

  lemma YearLength(y: int)
    ensures DayFromYear(y + 1) - DayFromYear(y) == if IsLeap(y) then 366 else 365
  {
    FourthYear(y);
    HundredthYear(y);
    FourHundredthYear(y);
  }

  /** The quotient grows by one just when the next number is a multiple. */
  lemma NextQuotient(x: int, d: int)
    requires d > 0
    ensures (x + 1) / d == x / d + if (x + 1) % d == 0 then 1 else 0
  {
    var q, r := x / d, x % d;
    assert x == q * d + r;
    if r + 1 < d {
      DivisionUnique(x + 1, d, q, r + 1);
    } else {
      DistributeSum(q, 1, d);
      DivisionUnique(x + 1, d, q + 1, 0);
    }
  }

  lemma FourthYear(y: int)
    ensures (y + 1 - 1969) / 4 == (y - 1969) / 4 + if y % 4 == 0 then 1 else 0
  {
    NextQuotient(y - 1969, 4);
  }

  lemma HundredthYear(y: int)
    ensures (y + 1 - 1901) / 100 == (y - 1901) / 100 + if y % 100 == 0 then 1 else 0
    ensures y % 100 == 0 ==> y % 4 == 0
  {
    NextQuotient(y - 1901, 100);
  }

  lemma FourHundredthYear(y: int)
    ensures (y + 1 - 1601) / 400 == (y - 1601) / 400 + if y % 400 == 0 then 1 else 0
    ensures y % 400 == 0 ==> y % 100 == 0
  {
    NextQuotient(y - 1601, 400);
  }

  /** The year that contains a day: search forward from one that starts no later. */
  function YearFrom(d: Day, y: int): (r: int)
    requires DayFromYear(y) <= d
    ensures DayFromYear(r) <= d < DayFromYear(r + 1)
    decreases d - DayFromYear(y)
  {
    YearLength(y);
    if d < DayFromYear(y + 1) then y else YearFrom(d, y + 1)
  }

  function YearOf(d: Day): (y: int)
    ensures DayFromYear(y) <= d < DayFromYear(y + 1)
  {
    YearFrom(d, if d >= 0 then 1970 else 1970 + d)
  }

  /** Days of the year before a month, numbered from 0 as getUTCMonth does. */
  function DaysBefore(month: nat, leap: bool): (n: nat)
    requires month <= 12
  {
    [0, 31, 59, 90, 120, 151, 181, 212, 243, 273, 304, 334, 365][month] + if leap && month >= 2 then 1 else 0
  }

  /** Thirty days hath September. */
  lemma MonthLengths(month: nat, leap: bool)
    requires month <= 11
    ensures DaysBefore(month + 1, leap) - DaysBefore(month, leap)
            == if month == 1 then (if leap then 29 else 28) else if month in {3, 5, 8, 10} then 30 else 31
  {
  }

  function MonthFrom(n: int, leap: bool, month: nat): (m: nat)
    requires month <= 11 && DaysBefore(month, leap) <= n < DaysBefore(12, leap)
    ensures m <= 11 && DaysBefore(m, leap) <= n < DaysBefore(m + 1, leap)
    decreases 12 - month
  {
    if n < DaysBefore(month + 1, leap) then month else MonthFrom(n, leap, month + 1)
  }

  function MonthOf(d: Day): (m: nat)
    ensures m <= 11
    ensures var y := YearOf(d);
            DaysBefore(m, IsLeap(y)) <= d - DayFromYear(y) < DaysBefore(m + 1, IsLeap(y))
  {
    var y := YearOf(d);
    YearSpan(d);
    MonthFrom(d - DayFromYear(y), IsLeap(y), 0)
  }

  lemma YearSpan(d: Day)
    ensures 0 <= d - DayFromYear(YearOf(d)) < DaysBefore(12, IsLeap(YearOf(d)))
  {
    hide DayFromYear, YearOf, IsLeap;
    YearLength(YearOf(d));
  }

  function DateOf(d: Day): int {
    d - DayFromYear(YearOf(d)) - DaysBefore(MonthOf(d), IsLeap(YearOf(d))) + 1
  }

  /** Date.UTC(y, 3, 1). */
  function FirstOfApril(y: int): Day {
    DayFromYear(y) + DaysBefore(3, IsLeap(y))
  }

  /** The opening date of the books, from the day they opened. */
  function OpeningDay(openedOn: Instant): Day {
    var d := DayOf(openedOn);
    FirstOfApril(if MonthOf(d) + 1 >= 4 then YearOf(d) else YearOf(d) - 1)
  }

  /** The opening date starts the fiscal year that the books opened in. */
  lemma OpeningStartsFiscalYear(openedOn: Instant)
    ensures exists y :: OpeningDay(openedOn) == FirstOfApril(y) <= DayOf(openedOn) < FirstOfApril(y + 1)
  {
    hide DayFromYear, YearOf, IsLeap, DayOf, MonthOf;
    var d := DayOf(openedOn);
    var y := YearOf(d);
    YearLength(y - 1);
    YearLength(y);
    if MonthOf(d) + 1 >= 4 {
      AprilAndLater(MonthOf(d), IsLeap(y));
      assert OpeningDay(openedOn) == FirstOfApril(y) <= d < FirstOfApril(y + 1);
    } else {
      BeforeApril(MonthOf(d), IsLeap(y));
      assert OpeningDay(openedOn) == FirstOfApril(y - 1) <= d < FirstOfApril(y - 1 + 1);
    }
  }

  lemma AprilAndLater(m: nat, leap: bool)
    requires 3 <= m <= 11
    ensures DaysBefore(3, leap) <= DaysBefore(m, leap)
  {
  }

  lemma BeforeApril(m: nat, leap: bool)
    requires m < 3
    ensures DaysBefore(m + 1, leap) <= DaysBefore(3, leap)
  {
  }

  // ----- the history

  datatype Bill = Bill(date: Day, onCredit: bool, supplied: bool)
  datatype Invoice = Invoice(days: int, date: Day, onCredit: bool)

  /** A receipt, payment or return: what it settles, and when. */
  datatype Settlement<D> = Settlement(document: D, date: Day)

  datatype History = History(bills: seq<Bill>, invoices: seq<Invoice>, receipts: seq<Settlement<Invoice>>,
                             payments: seq<Settlement<Bill>>, expenses: seq<Day>,
                             creditNotes: seq<Settlement<Invoice>>)

  predicate Dated(asOf: Instant, date: Day) {
    OpeningDay(DemoOpenedOn(asOf)) <= date <= DayOf(asOf)
  }

  /** On or after the document's date, and at least one day before the run. */
  predicate Settled(asOf: Instant, document: Day, date: Day) {
    Dated(asOf, document) && document <= date <= DayOf(asOf) - 1
  }

  predicate InvoiceSettled(asOf: Instant, invoices: seq<Invoice>, s: Settlement<Invoice>) {
    s.document in invoices && s.document.onCredit && Settled(asOf, s.document.date, s.date)
  }

  predicate BillSettled(asOf: Instant, bills: seq<Bill>, s: Settlement<Bill>) {
    s.document in bills && s.document.onCredit && Settled(asOf, s.document.date, s.date)
  }

  /** Every document inside the calendar, every settlement of a credit document
      of this history. */
  predicate Fits(asOf: Instant, h: History) {
    && (forall b | b in h.bills :: Dated(asOf, b.date))
    && (forall v | v in h.invoices :: Dated(asOf, v.date))
    && (forall e | e in h.expenses :: Dated(asOf, e))
    && (forall s | s in h.receipts :: InvoiceSettled(asOf, h.invoices, s))
    && (forall s | s in h.payments :: BillSettled(asOf, h.bills, s))
    && (forall s | s in h.creditNotes :: InvoiceSettled(asOf, h.invoices, s))
  }

  lemma WithinHistory(asOf: Instant, days: int)
    requires 0 <= days <= DEMO_HISTORY_DAYS
    ensures Dated(asOf, DaysAgo(days, asOf)) && DaysAgo(days, asOf) == DayOf(asOf) - days
  {
    hide OpeningDay;
    DaysAgoCounts(days, asOf);
    DaysAgoCounts(DEMO_HISTORY_DAYS, asOf);
    OpeningStartsFiscalYear(DemoOpenedOn(asOf));
  }

  /** The rounded age is the number of days, or one more after noon. */
  lemma RoundedAgeIsClose(asOf: Instant, days: int)
    ensures var age := RoundedAge(asOf, DaysAgo(days, asOf));
            days <= age <= days + 1 && (age == days + 1 <==> asOf % DAY >= DAY / 2)
  {
    DaysAgoCounts(days, asOf);
    assert asOf == DayOf(asOf) * DAY + asOf % DAY;
  }

  /** A settlement placed back from the run, but never closer than a day, falls
      on or after its document. */
  lemma SettlementFits(asOf: Instant, days: int, back: int)
    requires 1 <= days <= DEMO_HISTORY_DAYS && back <= days
    ensures Settled(asOf, DaysAgo(days, asOf), DaysAgo(Larger(1, back), asOf))
  {
    WithinHistory(asOf, days);
    DaysAgoCounts(Larger(1, back), asOf);
  }

  predicate Raised(asOf: Instant, v: Invoice) {
    1 <= v.days <= 90 && v.date == DayOf(asOf) - v.days
  }

  /** The invoices raised on credit, in order. */
  function OnCredit(invoices: seq<Invoice>): (r: seq<Invoice>)
    ensures forall v :: v in r <==> v in invoices && v.onCredit
  {
    if invoices == [] then []
    else
      var last := invoices[|invoices| - 1];
      assert invoices == invoices[..|invoices| - 1] + [last];
      OnCredit(invoices[..|invoices| - 1]) + (if last.onCredit then [last] else [])
  }

  /** Restocked seven times, each third time on credit. */
  predicate Restocked(asOf: Instant, bills: seq<Bill>) {
    && |bills| == 7
    && (forall k | 0 <= k < 7 :: bills[k].date == DayOf(asOf) - [96, 82, 68, 54, 40, 26, 12][k])
    && (forall k | 0 <= k < 7 :: bills[k].onCredit <==> k in {0, 3, 6})
  }

  /** A credit invoice more than twenty days old is received eighteen days after
      it was raised. */
  predicate Received(asOf: Instant, s: Settlement<Invoice>) {
    s.document.days > 20 && s.date == DayOf(asOf) - (s.document.days - 18)
  }

  /** Returned three days after the invoice, or the day before the run. */
  predicate Returned(asOf: Instant, s: Settlement<Invoice>) {
    s.date == DayOf(asOf) - (if s.document.days > 3 then s.document.days - 3 else 1)
  }

  /** One day later when the run is in the second half of its day, since the age
      of a bill is rounded. */
  function Late(asOf: Instant): (n: nat)
    ensures n <= 1
  {
    if asOf % DAY >= 43_200_000 then 1 else 0
  }

  /** The payments: the first two credit bills, 96 and 54 days old, each fifteen
      days after its rounded date if it has a supplier. */
  function Payments(asOf: Instant, bills: seq<Bill>): seq<Settlement<Bill>>
    requires |bills| == 7
  {
    (if bills[0].supplied then [Settlement(bills[0], DayOf(asOf) - 81 - Late(asOf))] else [])
    + (if bills[3].supplied then [Settlement(bills[3], DayOf(asOf) - 39 - Late(asOf))] else [])
  }

  function ExpenseDates(asOf: Instant): seq<Day> {
    var d := DayOf(asOf);
    [d - 72, d - 60, d - 42, d - 30, d - 12, d - 6]
  }

  /** `seedDemoTrading`, with the pseudo-random draws left open. */
  method SeedDemoTrading(asOf: Instant, hasCategories: bool) returns (h: History)
    ensures Fits(asOf, h)
    ensures Restocked(asOf, h.bills) && forall v | v in h.invoices :: Raised(asOf, v)
    ensures forall s | s in h.receipts :: Received(asOf, s)
    ensures h.payments == Payments(asOf, h.bills)
    ensures h.expenses == if hasCategories then ExpenseDates(asOf) else []
    ensures |h.creditNotes| <= 1 && forall s | s in h.creditNotes :: Returned(asOf, s)
    ensures h.creditNotes != [] ==>
              var posted := OnCredit(h.invoices);
              posted != [] && h.creditNotes[0].document == posted[|posted| - 1]
  {
    hide Dated, DaysAgo, OpeningDay, RoundedAge, DayOf, Raised, Returned, Received, Payments, OnCredit;
    var bills := BuyStock(asOf);
    var invoices, posted := Trade(asOf);
    var receipts := Collect(asOf, invoices, posted);
    var payments := PayBills(asOf, bills);
    // running the shop
    var expenses: seq<Day> := [];
    if hasCategories {
      for i := 0 to |EXPENSE_DAYS|
        invariant |expenses| == i
        invariant forall k | 0 <= k < i :: expenses[k] == DayOf(asOf) - EXPENSE_DAYS[k] && Dated(asOf, expenses[k])
      {
        WithinHistory(asOf, EXPENSE_DAYS[i]);
        expenses := expenses + [DaysAgo(EXPENSE_DAYS[i], asOf)];
      }
    }
    // and one thing that went wrong
    var creditNotes: seq<Settlement<Invoice>> := [];
    var hasLine: bool := *;
    if posted != [] && hasLine {
      var returnable := posted[|posted| - 1];
      assert returnable in posted;
      var note := TakeBack(asOf, invoices, returnable);
      creditNotes := [note];
    }
    AllDated(asOf, bills, invoices);
    h := History(bills, invoices, receipts, payments, expenses, creditNotes);
  }

  lemma AllDated(asOf: Instant, bills: seq<Bill>, invoices: seq<Invoice>)
    requires Restocked(asOf, bills) && forall v | v in invoices :: Raised(asOf, v)
    ensures forall b | b in bills :: Dated(asOf, b.date)
    ensures forall v | v in invoices :: Dated(asOf, v.date)
  {
    hide Dated, DayOf, DaysAgo;
    forall b | b in bills
      ensures Dated(asOf, b.date)
    {
      var k :| 0 <= k < |bills| && bills[k] == b;
      WithinHistory(asOf, RESTOCK_DAYS[k]);
    }
    forall v | v in invoices
      ensures Dated(asOf, v.date)
    {
      WithinHistory(asOf, v.days);
    }
  }

  /** Stock in, first. */
  method BuyStock(asOf: Instant) returns (bills: seq<Bill>)
    ensures Restocked(asOf, bills)
  {
    hide DaysAgo, DayOf;
    bills := [];
    for index := 0 to |RESTOCK_DAYS|
      invariant |bills| == index
      invariant forall k | 0 <= k < index :: bills[k].date == DayOf(asOf) - RESTOCK_DAYS[k]
      invariant forall k | 0 <= k < index :: bills[k].onCredit <==> k % 3 == 0
    {
      var supplied: bool := *;
      DaysAgoCounts(RESTOCK_DAYS[index], asOf);
      bills := bills + [Bill(DaysAgo(RESTOCK_DAYS[index], asOf), index % 3 == 0, supplied)];
    }
  }

  /** Trading, from ninety days ago to yesterday. */
  method Trade(asOf: Instant) returns (invoices: seq<Invoice>, posted: seq<Invoice>)
    ensures forall v | v in invoices :: Raised(asOf, v)
    ensures posted == OnCredit(invoices)
  {
    hide DaysAgo, DayOf;
    invoices, posted := [], [];
    var days := TRADING_DAYS;
    while days >= 1
      invariant 0 <= days <= TRADING_DAYS
      invariant forall v | v in invoices :: Raised(asOf, v)
      invariant posted == OnCredit(invoices)
    {
      var perDay: nat :| perDay <= 3;
      for n := 0 to perDay
        invariant forall v | v in invoices :: Raised(asOf, v)
        invariant posted == OnCredit(invoices)
      {
        var onCredit: bool := *;
        var invoice := Invoice(days, DaysAgo(days, asOf), onCredit);
        DaysAgoCounts(days, asOf);
        assert (invoices + [invoice])[..|invoices|] == invoices;
        invoices := invoices + [invoice];
        if onCredit {
          posted := posted + [invoice];
        }
      }
      days := days - 1;
    }
  }

  /** Money coming in. */
  method Collect(asOf: Instant, invoices: seq<Invoice>, posted: seq<Invoice>)
    returns (receipts: seq<Settlement<Invoice>>)
    requires forall v | v in invoices :: Raised(asOf, v)
    requires posted == OnCredit(invoices)
    ensures forall s | s in receipts :: InvoiceSettled(asOf, invoices, s) && Received(asOf, s)
  {
    hide Dated, DaysAgo, DayOf, Settled;
    receipts := [];
    for i := 0 to |posted|
      invariant forall s | s in receipts :: InvoiceSettled(asOf, invoices, s) && Received(asOf, s)
    {
      var invoice := posted[i];
      assert invoice in posted;
      var aged := invoice.days > 20;
      var draw: bool := *;
      if aged && draw {
        Back(asOf, invoice.days, invoice.days - 18);
        receipts := receipts + [Settlement(invoice, DaysAgo(Larger(1, invoice.days - 18), asOf))];
      }
    }
  }

  /** The credit note of the latest credit invoice. */
  method TakeBack(asOf: Instant, invoices: seq<Invoice>, returnable: Invoice) returns (note: Settlement<Invoice>)
    requires returnable in invoices && returnable.onCredit && Raised(asOf, returnable)
    ensures InvoiceSettled(asOf, invoices, note) && Returned(asOf, note) && note.document == returnable
  {
    Back(asOf, returnable.days, returnable.days - 3);
    note := Settlement(returnable, DaysAgo(Larger(1, returnable.days - 3), asOf));
  }

  /** SettlementFits, with the two dates worked out. */
  lemma Back(asOf: Instant, days: int, back: int)
    requires 1 <= days <= DEMO_HISTORY_DAYS && back <= days
    ensures Settled(asOf, DayOf(asOf) - days, DaysAgo(Larger(1, back), asOf))
    ensures DaysAgo(Larger(1, back), asOf) == DayOf(asOf) - Larger(1, back)
  {
    hide DayOf, OpeningDay;
    SettlementFits(asOf, days, back);
    DaysAgoCounts(days, asOf);
    DaysAgoCounts(Larger(1, back), asOf);
  }

  lemma AgeOfBill(asOf: Instant, days: int)
    ensures RoundedAge(asOf, DayOf(asOf) - days) == days + Late(asOf)
  {
    DaysAgoCounts(days, asOf);
    RoundedAgeIsClose(asOf, days);
  }

  /** Pays the credit bills, oldest first, all but the last of them. */
  method PayBills(asOf: Instant, bills: seq<Bill>) returns (payments: seq<Settlement<Bill>>)
    requires Restocked(asOf, bills)
    ensures payments == Payments(asOf, bills)
    ensures forall s | s in payments :: BillSettled(asOf, bills, s)
  {
    hide Dated, DaysAgo, OpeningDay, RoundedAge, DayOf, Late;
    var credit: seq<Bill> := [];
    for i := 0 to |bills|
      invariant credit == if i == 0 then [] else if i <= 3 then [bills[0]] else if i <= 6 then [bills[0], bills[3]]
                          else [bills[0], bills[3], bills[6]]
    {
      if bills[i].onCredit {
        credit := credit + [bills[i]];
      }
    }
    AgeOfBill(asOf, 96);
    AgeOfBill(asOf, 54);
    Back(asOf, 96, 81 + Late(asOf));
    Back(asOf, 54, 39 + Late(asOf));
    payments := [];
    for i := 0 to Larger(1, |credit| - 1)
      invariant forall s | s in payments :: BillSettled(asOf, bills, s)
      invariant i == 0 ==> payments == []
      invariant i == 1 ==>
                  payments == if bills[0].supplied then [Settlement(bills[0], DayOf(asOf) - 81 - Late(asOf))] else []
      invariant i == 2 ==> payments == Payments(asOf, bills)
    {
      var bill := credit[i];
      if bill.supplied {
        var age := RoundedAge(asOf, bill.date);
        payments := payments + [Settlement(bill, DaysAgo(Larger(1, age - 15), asOf))];
      }
    }
  }

  // ----- why the books open when the history does

  /** Had the books opened on the day of the run, the first bill would predate
      the calendar for runs from 1 April to 5 July, and on no other day. */
  lemma OpeningOnRunDayFailsInSpring(asOf: Instant)
    ensures var d := DayOf(asOf);
            DaysAgo(DEMO_HISTORY_DAYS, asOf) < OpeningDay(asOf)
            <==> 3 <= MonthOf(d) <= 5 || (MonthOf(d) == 6 && DateOf(d) <= 5)
  {
    hide DayFromYear, YearOf, IsLeap, DayOf, MonthOf, DaysAgo, DaysBefore;
    var d := DayOf(asOf);
    var y, m := YearOf(d), MonthOf(d);
    DaysAgoCounts(DEMO_HISTORY_DAYS, asOf);
    YearLength(y - 1);
    DaysSinceApril(m, IsLeap(y), DateOf(d));
    YearFromApril(IsLeap(y - 1));
  }

  lemma DaysSinceApril(m: nat, leap: bool, date: int)
    requires m <= 11 && 1 <= date <= DaysBefore(m + 1, leap) - DaysBefore(m, leap)
    ensures m >= 3 ==>
              (DaysBefore(m, leap) + date - 1 - DaysBefore(3, leap) < DEMO_HISTORY_DAYS
               <==> m <= 5 || (m == 6 && date <= 5))
    ensures DaysBefore(m, leap) >= 0
  {
  }

  lemma YearFromApril(leap: bool)
    ensures (if leap then 366 else 365) - DaysBefore(3, leap) == 275
  {
  }
}

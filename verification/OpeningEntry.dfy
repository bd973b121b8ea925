/** The demo company's opening position (prisma/seed/demo-company.ts): stock is
    valued line by line through storage strings, and the journal that opens the
    books has to agree with the stock ledger. */
module OpeningEntry {
  import opened Rounding
  import opened Amounts
  import opened StorageText

  datatype Product = Product(sku: string, unit: string, quantity: Decimal, price: Decimal)
  datatype Balance = Balance(sku: string, quantity: Decimal, averageCost: Decimal, stockValue: string)
  datatype Movement = Movement(sku: string, quantity: Decimal, unitCost: Decimal, value: string,
                               balanceQuantity: Decimal, balanceValue: string)

  /** What the shop brings in besides stock. */
  datatype Opening = Opening(cash: Amount, bank: Amount, furniture: Amount)

  datatype Account = Cash | Bank | Inventory | FixedAssets | OwnerCapital
  datatype Input = Num(number: Decimal) | Text(text: string)
  datatype Line = Debit(account: Account, amount: Input) | Credit(account: Account, amount: Input)

  datatype Books = Books(balances: seq<Balance>, movements: seq<Movement>, stockValue: string, lines: seq<Line>)
  datatype Outcome = Seeded(books: Books) | MissingUnit(unit: string)

  function LineValue(p: Product): Amount {
    Multiply([p.quantity, p.price])
  }

  /** The reference: line values rounded, then added exactly. */
  function StockValue(products: seq<Product>): Amount {
    if products == [] then 0
    else StockValue(products[..|products| - 1]) + LineValue(products[|products| - 1])
  }

  /** The value a text reads as; unreadable text counts nothing. */
  function Reading(text: string): Decimal {
    match ToDecimal(text)
    case Number(x) => x
    case NotPlain => 0.0
  }

  function ValueOf(i: Input): Decimal {
    match i
    case Num(x) => x
    case Text(s) => Reading(s)
  }

  function BalanceTotal(rows: seq<Balance>): Decimal {
    if rows == [] then 0.0 else BalanceTotal(rows[..|rows| - 1]) + Reading(rows[|rows| - 1].stockValue)
  }

  function MovementTotal(rows: seq<Movement>): Decimal {
    if rows == [] then 0.0 else MovementTotal(rows[..|rows| - 1]) + Reading(rows[|rows| - 1].value)
  }

  function DebitTotal(lines: seq<Line>): Decimal {
    if lines == [] then 0.0
    else
      DebitTotal(lines[1..]) + match lines[0] case Debit(_, x) => ValueOf(x) case Credit(_, _) => 0.0
  }

  function CreditTotal(lines: seq<Line>): Decimal {
    if lines == [] then 0.0
    else
      CreditTotal(lines[1..]) + match lines[0] case Credit(_, x) => ValueOf(x) case Debit(_, _) => 0.0
  }

  predicate Reads(text: string, a: Amount) {
    ToDecimal(text) == Number(Val(a))
  }

  lemma StoredTextReads(a: Amount)
    ensures Reads(ToStorageString(Val(a)), a)
  {
    PrintParseRoundTrip(Val(a));
    MoneyOfVal(a);
  }

  /** One step of the running total, through its text. */
  lemma AccumulatedTextReads(text: string, sum: Amount, line: Amount)
    requires Reads(text, sum)
    ensures Reads(ToStorageString(Val(Add([Reading(text), Val(line)]))), sum + line)
  {
    SumTwo(Val(sum), Val(line));
    assert Val(sum) + Val(line) == Val(sum + line);
    MoneyOfVal(sum + line);
    StoredTextReads(sum + line);
  }

  lemma ZeroTextReads()
    ensures Reads("0", 0)
  {
    assert TrimEnd(TrimStart("0")) == "0";
    assert "0"[1..] == "" && RemoveCommas("0") == "0";
    assert IndexOfPoint("0") == 1;
    assert "0"[..1] + [] == "0" && "0"[..0] == "";
    assert NatValue("0") == 0;
  }

  /** The amount that a text reads as, in units of 0.0001. */
  function Units(text: string): Amount {
    (Reading(text) * 10000.0).Floor
  }

  /** The two rows written for one product agree with it and with each other, and
      their value reads as the amount nearest quantity times price. */
  predicate RowsFor(p: Product, b: Balance, m: Movement) {
    && b.sku == m.sku == p.sku
    && b.quantity == m.quantity == m.balanceQuantity == p.quantity
    && b.averageCost == m.unitCost == p.price
    && Reads(b.stockValue, Units(b.stockValue))
    && IsNearest(Units(b.stockValue), p.quantity * p.price * 10000.0)
    && m.value == m.balanceValue == b.stockValue
  }

  lemma LineIsNearest(p: Product)
    ensures IsNearest(LineValue(p), p.quantity * p.price * 10000.0)
  {
    ProductTwo(p.quantity, p.price);
    hide Amounts.Product;
    NearestIsRounded(LineValue(p), p.quantity * p.price * 10000.0);
  }

  lemma UnitsOfReading(text: string, a: Amount)
    requires Reads(text, a)
    ensures Units(text) == a
  {
    hide ToDecimal;
    ValUnits(a);
  }

  /** A whole quantity at a stored price is worth exactly their product. */
  lemma WholeQuantity(p: Product, b: Balance, m: Movement, quantity: int, price: Amount)
    requires RowsFor(p, b, m) && p.quantity == quantity as real && p.price == Val(price)
    ensures Reads(b.stockValue, quantity * price)
  {
    hide Reads, Units;
    WholeTimesStored(quantity, price);
    NearestToWhole(Units(b.stockValue), quantity * price);
  }

  lemma WholeTimesStored(quantity: int, price: Amount)
    ensures quantity as real * Val(price) * 10000.0 == (quantity * price) as real
  {
    ValTimes(price, quantity as real);
    assert quantity as real * price as real == (quantity * price) as real;
  }

  lemma NearestToWhole(n: int, m: int)
    requires IsNearest(n, m as real)
    ensures n == m
  {
  }

  lemma NoRows()
    ensures BalanceTotal([]) == MovementTotal([]) == Val(StockValue([])) == 0.0 && StockValue([]) == 0
  {
  }

  lemma AppendRows(products: seq<Product>, i: nat, balances: seq<Balance>, movements: seq<Movement>,
                   b: Balance, m: Movement)
    requires i < |products| && Reads(b.stockValue, LineValue(products[i])) && m.value == b.stockValue
    ensures StockValue(products[..i + 1]) == StockValue(products[..i]) + LineValue(products[i])
    ensures BalanceTotal(balances + [b]) == BalanceTotal(balances) + Val(LineValue(products[i]))
    ensures MovementTotal(movements + [m]) == MovementTotal(movements) + Val(LineValue(products[i]))
    ensures Val(StockValue(products[..i + 1])) == Val(StockValue(products[..i])) + Val(LineValue(products[i]))
  {
    hide ToDecimal, LineValue;
    assert products[..i + 1][..i] == products[..i];
    assert (balances + [b])[..|balances|] == balances;
    assert (movements + [m])[..|movements|] == movements;
  }

  /** The opening loop and the opening journal. A product with an unknown unit
      aborts the whole transaction. */
  method SeedOpening(products: seq<Product>, units: set<string>, opening: Opening) returns (r: Outcome)
    ensures r.Seeded? <==> forall p | p in products :: p.unit in units
    ensures r.MissingUnit? ==>
              exists i | 0 <= i < |products| ::
                && products[i].unit == r.unit && r.unit !in units
                && forall k | 0 <= k < i :: products[k].unit in units
    ensures r.Seeded? ==>
              && |r.books.balances| == |r.books.movements| == |products|
              && (forall i | 0 <= i < |products| ::
                   RowsFor(products[i], r.books.balances[i], r.books.movements[i]))
    ensures r.Seeded? ==>
              && Reads(r.books.stockValue, StockValue(products))
              && Reading(r.books.stockValue) == BalanceTotal(r.books.balances) == MovementTotal(r.books.movements)
    ensures r.Seeded? ==>
              && |r.books.lines| == 5
              && r.books.lines[0] == Debit(Cash, Num(Val(opening.cash)))
              && r.books.lines[1] == Debit(Bank, Num(Val(opening.bank)))
              && r.books.lines[2] == Debit(Inventory, Text(r.books.stockValue))
              && r.books.lines[3] == Debit(FixedAssets, Num(Val(opening.furniture)))
              && r.books.lines[4].Credit? && r.books.lines[4].account == OwnerCapital
              && ValueOf(r.books.lines[4].amount)
                 == Val(opening.cash + opening.bank + opening.furniture) + Reading(r.books.stockValue)
              && DebitTotal(r.books.lines) == CreditTotal(r.books.lines)
  {
    hide ToDecimal, ToStorageString, LineValue, Add, Reads, Reading, BalanceTotal, MovementTotal, StockValue, Units;
    var openingStockValue := "0";
    ZeroTextReads();
    NoRows();
    assert products[..0] == [];
    var balances: seq<Balance> := [];
    var movements: seq<Movement> := [];
    var i := 0;
    while i < |products|
      invariant 0 <= i <= |products|
      invariant forall k | 0 <= k < i :: products[k].unit in units
      invariant |balances| == |movements| == i
      invariant forall k | 0 <= k < i :: RowsFor(products[k], balances[k], movements[k])
      invariant Reads(openingStockValue, StockValue(products[..i]))
      invariant BalanceTotal(balances) == MovementTotal(movements) == Val(StockValue(products[..i]))
    {
      var product := products[i];
      if product.unit !in units {
        return MissingUnit(product.unit);
      }
      var lineValue := LineValue(product);
      AccumulatedTextReads(openingStockValue, StockValue(products[..i]), lineValue);
      openingStockValue := ToStorageString(Val(Add([Reading(openingStockValue), Val(lineValue)])));
      var text := ToStorageString(Val(lineValue));
      StoredTextReads(lineValue);
      UnitsOfReading(text, lineValue);
      LineIsNearest(product);
      var balance := Balance(product.sku, product.quantity, product.price, text);
      var movement := Movement(product.sku, product.quantity, product.price, text, product.quantity, text);
      AppendRows(products, i, balances, movements, balance, movement);
      balances := balances + [balance];
      movements := movements + [movement];
      i := i + 1;
    }
    assert products[..i] == products;
    var totalAssets := Add([Val(opening.cash), Val(opening.bank), Reading(openingStockValue), Val(opening.furniture)]);
    var lines := [
      Debit(Cash, Num(Val(opening.cash))),
      Debit(Bank, Num(Val(opening.bank))),
      Debit(Inventory, Text(openingStockValue)),
      Debit(FixedAssets, Num(Val(opening.furniture))),
      Credit(OwnerCapital, Text(ToStorageString(Val(totalAssets))))
    ];
    EntryBalances(opening, StockValue(products), openingStockValue, totalAssets, lines);
    return Seeded(Books(balances, movements, openingStockValue, lines));
  }

  lemma EntryBalances(opening: Opening, stock: Amount, text: string, totalAssets: Amount, lines: seq<Line>)
    requires Reads(text, stock)
    requires totalAssets == Add([Val(opening.cash), Val(opening.bank), Reading(text), Val(opening.furniture)])
    requires lines == [
      Debit(Cash, Num(Val(opening.cash))),
      Debit(Bank, Num(Val(opening.bank))),
      Debit(Inventory, Text(text)),
      Debit(FixedAssets, Num(Val(opening.furniture))),
      Credit(OwnerCapital, Text(ToStorageString(Val(totalAssets))))
    ]
    ensures DebitTotal(lines) == CreditTotal(lines) == ValueOf(lines[4].amount) == Val(totalAssets)
    ensures totalAssets == opening.cash + opening.bank + stock + opening.furniture
    ensures Reading(text) == Val(stock)
  {
    TotalOfFour(opening.cash, opening.bank, stock, opening.furniture);
    StoredTextReads(totalAssets);
    hide ToDecimal, ToStorageString, Add;
    FiveLines(lines);
  }

  lemma TotalOfFour(a: Amount, b: Amount, c: Amount, d: Amount)
    ensures Add([Val(a), Val(b), Val(c), Val(d)]) == a + b + c + d
  {
    var values := [Val(a), Val(b), Val(c), Val(d)];
    assert values[..3] == [Val(a), Val(b), Val(c)] && values[..3][..2] == [Val(a), Val(b)];
    SumTwo(Val(a), Val(b));
    assert Sum(values) == Val(a + b + c + d);
    MoneyOfVal(a + b + c + d);
  }

  lemma FiveLines(lines: seq<Line>)
    requires |lines| == 5
    requires lines[0].Debit? && lines[1].Debit? && lines[2].Debit? && lines[3].Debit? && lines[4].Credit?
    ensures DebitTotal(lines) == ValueOf(lines[0].amount) + ValueOf(lines[1].amount)
                                 + ValueOf(lines[2].amount) + ValueOf(lines[3].amount)
    ensures CreditTotal(lines) == ValueOf(lines[4].amount)
  {
    hide ValueOf;
    var l1 := lines[1..];
    var l2 := l1[1..];
    var l3 := l2[1..];
    var l4 := l3[1..];
    assert l4[1..] == [];
    assert DebitTotal(l4) == 0.0 && CreditTotal(l4) == ValueOf(lines[4].amount);
    assert DebitTotal(l3) == ValueOf(lines[3].amount) && CreditTotal(l3) == CreditTotal(l4);
    assert DebitTotal(l2) == DebitTotal(l3) + ValueOf(lines[2].amount) && CreditTotal(l2) == CreditTotal(l3);
    assert DebitTotal(l1) == DebitTotal(l2) + ValueOf(lines[1].amount) && CreditTotal(l1) == CreditTotal(l2);
  }

  // ----- the order of the products does not matter

  lemma {:induction false} StockValueWithout(products: seq<Product>, i: nat)
    requires i < |products|
    ensures StockValue(products) == StockValue(products[..i] + products[i + 1..]) + LineValue(products[i])
  {
    hide LineValue;
    var last := |products| - 1;
    if i == last {
      assert products[..i] + products[i + 1..] == products[..last];
    } else {
      StockValueWithout(products[..last], i);
      var rest := products[..i] + products[i + 1..];
      assert rest[..|rest| - 1] == products[..last][..i] + products[..last][i + 1..];
    }
  }

  lemma WithoutOne<T>(s: seq<T>, i: nat)
    requires i < |s|
    ensures multiset(s[..i] + s[i + 1..]) == multiset(s) - multiset{s[i]}
  {
    assert s == s[..i] + [s[i]] + s[i + 1..];
  }

  /** Any reordering of the products gives the same opening stock value. */
  lemma {:induction false} StockValueIgnoresOrder(a: seq<Product>, b: seq<Product>)
    requires multiset(a) == multiset(b)
    ensures StockValue(a) == StockValue(b)
    decreases |a|
  {
    hide LineValue, StockValue;
    assert |a| == |multiset(a)| == |multiset(b)| == |b|;
    if a == [] {
      assert a == b;
    } else {
      var last := |a| - 1;
      assert a[last] in multiset(b);
      var i :| 0 <= i < |b| && b[i] == a[last];
      StockValueWithout(a, last);
      StockValueWithout(b, i);
      WithoutOne(a, last);
      WithoutOne(b, i);
      StockValueIgnoresOrder(a[..last] + a[last + 1..], b[..i] + b[i + 1..]);
    }
  }
}

/**
 * The monthly report (main.py:156-179): the valid sales grouped by month label `MM/YYYY` and
 * product, with the sum, the count and the minimum of the amounts of each group.
 */
module MonthlySummary {
  import opened Common
  import opened Sequences
  import opened Numerals
  import opened Dates
  import opened Amounts
  import opened Sales
  import opened Grouping

  /** A group of the report: the month label (`Mes`) and the product (`Producto`). */
  datatype MonthProduct = MonthProduct(month: string, product: string)

  /**
   * One row of the report: `Ventas_Totales` is `total`, `Numero_Transacciones` is `count` and
   * `Venta_Minima` is `minimum` (NaN, here `None`, for a group without a single amount).
   */
  datatype SummaryRow = SummaryRow(month: string, product: string, total: Cents, count: nat,
                                   minimum: Option<Cents>)

  /** The group of a row: none when its date or its product is missing (NaN keys are dropped). */
  function GroupOf(r: ValidSale): Option<MonthProduct>
  {
    if r.date.Some? && r.product.Some? then Some(MonthProduct(MonthKey(r.date.value), r.product.value))
    else None
  }

  /** The group of a row that has an amount to aggregate; `sum`, `count` and `min` skip NaN. */
  function PricedGroupOf(r: ValidSale): Option<MonthProduct>
  {
    if r.amount.Some? then GroupOf(r) else None
  }

  /** The amount of a row, zero when it has none. */
  function AmountOf(r: ValidSale): Cents
  {
    if r.amount.Some? then r.amount.value else 0
  }

  /** The amounts of the group of `k`, in row order. */
  function GroupAmounts<T>(rows: seq<T>, priced: T -> Option<MonthProduct>, amount: T -> Cents,
                           k: MonthProduct): seq<Cents>
  {
    Map(Filter(rows, InGroup(priced, k)), amount)
  }

  /** The report row of the group of `k`. */
  function Summarise<T>(rows: seq<T>, priced: T -> Option<MonthProduct>, amount: T -> Cents)
    : MonthProduct -> SummaryRow
  {
    (k: MonthProduct) => SummaryRow(k.month, k.product,
                                    GroupTotal(rows, priced, amount)(k),
                                    |Filter(rows, InGroup(priced, k))|,
                                    Least(GroupAmounts(rows, priced, amount, k)))
  }

  /** One report row per group `groupBy` forms, in order of first occurrence. */
  function Report<T>(rows: seq<T>, groupBy: T -> Option<MonthProduct>, priced: T -> Option<MonthProduct>,
                     amount: T -> Cents): seq<SummaryRow>
  {
    Map(GroupKeys(rows, groupBy), Summarise(rows, priced, amount))
  }

  /**
   * `generar_ventas_resumen_mensual`: `None` stands for the empty frame the handler returns when
   * the `Date`, `Product` or `Amount` column is missing (the `KeyError` of lines 164-169).
   */
  function MonthlyReport(t: Table<ValidSale>): Option<seq<SummaryRow>>
  {
    if DateColumn !in t.columns || ProductColumn !in t.columns || AmountColumn !in t.columns then None
    else Some(Report(t.rows, GroupOf, PricedGroupOf, AmountOf))
  }

  function CountOf(s: SummaryRow): int { s.count }
  function TotalOf(s: SummaryRow): int { s.total }

  /** A row that feeds some group's aggregates: date, product and amount are all present. */
  predicate Aggregated(r: ValidSale)
  {
    r.date.Some? && r.product.Some? && r.amount.Some?
  }

  /**
   * One report row per group: the groups of the report are pairwise distinct, each is the group of
   * some input row, and every input row with a date and a product has its group in the report.
   */
  lemma ReportGroups(t: Table<ValidSale>)
    requires MonthlyReport(t).Some?
    ensures var out := MonthlyReport(t).value;
      && (forall i, j :: 0 <= i < j < |out| ==>
            (out[i].month, out[i].product) != (out[j].month, out[j].product))
      && (forall i :: 0 <= i < |out| ==>
            exists j :: 0 <= j < |t.rows| && GroupOf(t.rows[j]) == Some(MonthProduct(out[i].month, out[i].product)))
      && (forall j :: 0 <= j < |t.rows| && GroupOf(t.rows[j]).Some? ==>
            exists i :: 0 <= i < |out| && GroupOf(t.rows[j]) == Some(MonthProduct(out[i].month, out[i].product)))
  {
    var ks := GroupKeys(t.rows, GroupOf);
    var out := MonthlyReport(t).value;
    assert forall i :: 0 <= i < |out| ==> MonthProduct(out[i].month, out[i].product) == ks[i];
    forall j | 0 <= j < |t.rows| && GroupOf(t.rows[j]).Some?
      ensures exists i :: 0 <= i < |out| && GroupOf(t.rows[j]) == Some(MonthProduct(out[i].month, out[i].product))
    {
      var k := GroupOf(t.rows[j]).value;
      assert k in ks;
      var i :| 0 <= i < |ks| && ks[i] == k;
      assert GroupOf(t.rows[j]) == Some(MonthProduct(out[i].month, out[i].product));
    }
  }

  /** The amounts of a group are the amounts of the input rows of that group that have one. */
  lemma GroupAmountsFromRows(rows: seq<ValidSale>, k: MonthProduct)
    ensures forall x :: x in GroupAmounts(rows, PricedGroupOf, AmountOf, k) <==>
              exists j :: 0 <= j < |rows| && PricedGroupOf(rows[j]) == Some(k) && AmountOf(rows[j]) == x
  {
    GroupWeights(rows, PricedGroupOf, AmountOf, k);
  }

  /**
   * Each report row aggregates the amounts of its group: `total` is their sum, `count` is how many
   * there are, and `minimum` is present exactly when there is one, is one of them and is at most
   * each of them.
   */
  lemma ReportAggregates(t: Table<ValidSale>, i: nat)
    requires MonthlyReport(t).Some? && i < |MonthlyReport(t).value|
    ensures var row := MonthlyReport(t).value[i];
            var amounts := GroupAmounts(t.rows, PricedGroupOf, AmountOf, MonthProduct(row.month, row.product));
      && row.total == Total(amounts, AsIs())
      && row.count == |amounts|
      && (row.minimum.Some? <==> row.count > 0)
      && (row.minimum.Some? ==>
            row.minimum.value in amounts && forall a :: 0 <= a < |amounts| ==> row.minimum.value <= amounts[a])
  {
    var k := GroupKeys(t.rows, GroupOf)[i];
    assert MonthlyReport(t).value[i] == Summarise(t.rows, PricedGroupOf, AmountOf)(k);
    SummariseAggregates(t.rows, PricedGroupOf, AmountOf, k);
  }

  /** The row `Summarise` builds for a group holds that group's sum, count and minimum. */
  lemma SummariseAggregates<T>(rows: seq<T>, priced: T -> Option<MonthProduct>, amount: T -> Cents,
                               k: MonthProduct)
    ensures var row, amounts := Summarise(rows, priced, amount)(k), GroupAmounts(rows, priced, amount, k);
      && MonthProduct(row.month, row.product) == k
      && row.total == Total(amounts, AsIs())
      && row.count == |amounts|
      && (row.minimum.Some? <==> row.count > 0)
      && (row.minimum.Some? ==>
            row.minimum.value in amounts && forall a :: 0 <= a < |amounts| ==> row.minimum.value <= amounts[a])
  {
    var group := Filter(rows, InGroup(priced, k));
    var row, amounts := Summarise(rows, priced, amount)(k), GroupAmounts(rows, priced, amount, k);
    assert amounts == Map(group, amount) && |amounts| == |group|;
    assert row.count == |group| && row.minimum == Least(amounts);
    TotalMap(group, amount, AsIs(), amount);
    assert row.total == GroupTotal(rows, priced, amount)(k) == Total(group, amount);
  }

  /** Every row that has a date, a product and an amount is counted once, in exactly one group. */
  lemma ReportCountsCoverRows(t: Table<ValidSale>)
    requires MonthlyReport(t).Some?
    ensures Total(MonthlyReport(t).value, CountOf) == |Filter(t.rows, Aggregated)|
  {
    var ks := GroupKeys(t.rows, GroupOf);
    var size := GroupTotal(t.rows, PricedGroupOf, One());
    forall k
      ensures size(k) == CountOf(Summarise(t.rows, PricedGroupOf, AmountOf)(k))
    {
      TotalOne(Filter(t.rows, InGroup(PricedGroupOf, k)));
    }
    TotalMap(ks, Summarise(t.rows, PricedGroupOf, AmountOf), CountOf, size);
    GroupTotalsCover(t.rows, GroupOf, PricedGroupOf, One());
    TotalOne(Filter(t.rows, Keyed(PricedGroupOf)));
    FilterCongruent(t.rows, Keyed(PricedGroupOf), Aggregated);
  }

  /** The totals of the report add up to the sum of every amount the report aggregates. */
  lemma ReportTotalsCoverAmounts(t: Table<ValidSale>)
    requires MonthlyReport(t).Some?
    ensures Total(MonthlyReport(t).value, TotalOf) == Total(Filter(t.rows, Aggregated), AmountOf)
  {
    var ks := GroupKeys(t.rows, GroupOf);
    TotalMap(ks, Summarise(t.rows, PricedGroupOf, AmountOf), TotalOf, GroupTotal(t.rows, PricedGroupOf, AmountOf));
    GroupTotalsCover(t.rows, GroupOf, PricedGroupOf, AmountOf);
    FilterCongruent(t.rows, Keyed(PricedGroupOf), Aggregated);
  }

  /** Two priced rows of the same group make one report row holding both. */
  lemma ReportOfPair<T>(r1: T, r2: T, groupBy: T -> Option<MonthProduct>,
                        priced: T -> Option<MonthProduct>, amount: T -> Cents, k: MonthProduct)
    requires groupBy(r1) == Some(k) && groupBy(r2) == Some(k)
    requires priced(r1) == Some(k) && priced(r2) == Some(k)
    requires amount(r1) <= amount(r2)
    ensures Report([r1, r2], groupBy, priced, amount) ==
            [SummaryRow(k.month, k.product, amount(r1) + amount(r2), 2, Some(amount(r1)))]
  {
    var rows := [r1, r2];
    PairOneGroup(r1, r2, groupBy, k, amount);
    PairOneGroup(r1, r2, priced, k, amount);
    LeastOfPair(amount(r1), amount(r2));
    assert GroupAmounts(rows, priced, amount, k) == Map(rows, amount) == [amount(r1), amount(r2)];
    assert GroupTotal(rows, priced, amount)(k) == Total(rows, amount);
    assert Summarise(rows, priced, amount)(k) ==
           SummaryRow(k.month, k.product, amount(r1) + amount(r2), 2, Some(amount(r1)));
    assert Map([k], Summarise(rows, priced, amount)) == [Summarise(rows, priced, amount)(k)];
  }

  /** Two priced sales of the same month and product make one report row holding both. */
  lemma SameGroupPair(cols: set<Column>, r1: ValidSale, r2: ValidSale, k: MonthProduct)
    requires DateColumn in cols && ProductColumn in cols && AmountColumn in cols
    requires GroupOf(r1) == Some(k) && GroupOf(r2) == Some(k)
    requires r1.amount.Some? && r2.amount.Some? && r1.amount.value <= r2.amount.value
    ensures MonthlyReport(Table(cols, [r1, r2])) ==
            Some([SummaryRow(k.month, k.product, r1.amount.value + r2.amount.value, 2, r1.amount)])
  {
    ReportOfPair(r1, r2, GroupOf, PricedGroupOf, AmountOf, k);
  }

  /**
   * Two sales of product `A` in March 2024, of 10.00 and 25.50, make the single report row
   * `("03/2024", "A", 35.50, 2, 10.00)`, amounts in cents.
   */
  lemma ReportExample()
    ensures var march1: CalendarDate := Date(2024, 3, 1);
            var march15: CalendarDate := Date(2024, 3, 15);
            var t := Table({SaleIdColumn, ProductColumn, AmountColumn, DateColumn, AuditDateColumn},
                           [Sale(Some("V1"), Some("A"), Some(1000), Some(march1), Some(march1)),
                            Sale(Some("V2"), Some("A"), Some(2550), Some(march15), Some(march15))]);
            MonthlyReport(t) == Some([SummaryRow("03/2024", "A", 3550, 2, Some(1000))])
  {
    var march1: CalendarDate := Date(2024, 3, 1);
    var march15: CalendarDate := Date(2024, 3, 15);
    MarchLabel();
    SameGroupPair({SaleIdColumn, ProductColumn, AmountColumn, DateColumn, AuditDateColumn},
                  Sale(Some("V1"), Some("A"), Some(1000), Some(march1), Some(march1)),
                  Sale(Some("V2"), Some("A"), Some(2550), Some(march15), Some(march15)),
                  MonthProduct("03/2024", "A"));
  }

  lemma MarchLabel()
    ensures MonthKey(Date(2024, 3, 1)) == "03/2024" && MonthKey(Date(2024, 3, 15)) == "03/2024"
  {
    assert PadDigits(3, 2) == "03";
    assert PadDigits(2024, 4) == "2024";
  }
}

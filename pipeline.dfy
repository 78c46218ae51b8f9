/**
 * The valid-sales cleaner feeding the monthly report (main.py:186-188): what the report says
 * about the rows the cleaner returns.
 */
module Pipeline {
  import opened Common
  import opened Sequences
  import opened Dates
  import opened Sales
  import opened ValidSales
  import opened ValidSalesProperties
  import opened Grouping
  import opened MonthlySummary

  /** A batch the cleaner accepts has every column, keeps them, and has every field of every row. */
  lemma ValidTableComplete(t: Table<RawSale>, parse: DateParser)
    requires CleanValid(t, parse).Ok?
    ensures var v := CleanValid(t, parse).value;
      && v.columns == t.columns
      && SaleIdColumn in v.columns && ProductColumn in v.columns && AmountColumn in v.columns
      && DateColumn in v.columns && AuditDateColumn in v.columns
      && forall k :: 0 <= k < |v.rows| ==> Complete(v.rows[k])
  {
    ValidRowsFromInput(t, parse);
  }

  /**
   * The report of the valid rows always exists, every one of its groups holds at least one sale
   * and so has a minimum, and its counts add up to the number of valid rows.
   */
  lemma ValidReportCountsEveryRow(t: Table<RawSale>, parse: DateParser)
    requires CleanValid(t, parse).Ok?
    ensures var v := CleanValid(t, parse).value;
      && MonthlyReport(v).Some?
      && Total(MonthlyReport(v).value, CountOf) == |v.rows|
      && forall i :: 0 <= i < |MonthlyReport(v).value| ==>
           MonthlyReport(v).value[i].count >= 1 && MonthlyReport(v).value[i].minimum.Some?
  {
    var v := CleanValid(t, parse).value;
    ValidTableComplete(t, parse);
    ReportCountsCoverRows(v);
    FilterAll(v.rows, Aggregated);
    var out := MonthlyReport(v).value;
    ReportGroups(v);
    forall i | 0 <= i < |out|
      ensures out[i].count >= 1 && out[i].minimum.Some?
    {
      var k := MonthProduct(out[i].month, out[i].product);
      var j :| 0 <= j < |v.rows| && GroupOf(v.rows[j]) == Some(k);
      assert Complete(v.rows[j]);
      assert PricedGroupOf(v.rows[j]) == Some(k);
      GroupAmountsFromRows(v.rows, k);
      assert AmountOf(v.rows[j]) in GroupAmounts(v.rows, PricedGroupOf, AmountOf, k);
      ReportAggregates(v, i);
    }
  }
}

/**
 * The records and batches the sales rules work on. A batch is a table: the set of columns it
 * has and its rows in input order (file order, then row order within a file). Every field of a
 * row may be missing, as a pandas NaN / NaT is.
 */
module Sales {
  import opened Common
  import opened Dates
  import opened Amounts

  /** The columns of a sales file, `Audit_Date` being stamped from the file name on load. */
  datatype Column = SaleIdColumn | ProductColumn | AmountColumn | DateColumn | AuditDateColumn

  /**
   * One sales row. The amount, date and audit-date types change as the rules parse them:
   * raw text and a stamped date on input, cents and calendar dates once cleaned, text again
   * once formatted for output.
   */
  datatype Sale<Amt, Day, Audit> = Sale(
    saleId: Option<string>,
    product: Option<string>,
    amount: Option<Amt>,
    date: Option<Day>,
    auditDate: Option<Audit>)

  /** A row as loaded: text fields and the audit date already parsed from the file name. */
  type RawSale = Sale<string, string, CalendarDate>

  /** A row after the valid-sales rules: amount in cents, both dates parsed. */
  type ValidSale = Sale<Cents, CalendarDate, CalendarDate>

  /**
   * A batch. Only the fields of the columns in `columns` mean anything; a missing column is what
   * makes a rule that reads it fail (`KeyError`), e.g. on the empty frame loaded from a folder
   * with no CSV file.
   */
  datatype Table<Row> = Table(columns: set<Column>, rows: seq<Row>)

  /** The empty frame a failing rule returns: no columns, no rows. */
  function EmptyTable<Row>(): (t: Table<Row>)
    ensures t.columns == {} && t.rows == []
  {
    Table({}, [])
  }

  predicate HasSaleId<Amt, Day, Audit>(r: Sale<Amt, Day, Audit>) { r.saleId.Some? }
  predicate HasProduct<Amt, Day, Audit>(r: Sale<Amt, Day, Audit>) { r.product.Some? }
  predicate HasAmount<Amt, Day, Audit>(r: Sale<Amt, Day, Audit>) { r.amount.Some? }
  predicate HasDate<Amt, Day, Audit>(r: Sale<Amt, Day, Audit>) { r.date.Some? }
  predicate HasAuditDate<Amt, Day, Audit>(r: Sale<Amt, Day, Audit>) { r.auditDate.Some? }

  /** All five fields are present. */
  predicate Complete<Amt, Day, Audit>(r: Sale<Amt, Day, Audit>)
  {
    HasSaleId(r) && HasProduct(r) && HasAmount(r) && HasDate(r) && HasAuditDate(r)
  }

  /** Why the valid-sales rules stop: a column they read is absent, or `float()` rejects an amount. */
  datatype Fault = MissingColumn(column: Column) | UnparseableAmount(text: string)

  /** The reason codes of the invalid-sales report: `N` missing value, `A` currency, `D` duplicate. */
  datatype Reason = MissingValue | BadCurrency | Duplicate

  /** A reported row with its reason. */
  datatype Flagged<Row> = Flagged(row: Row, reason: Reason)
}

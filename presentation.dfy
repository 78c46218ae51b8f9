/**
 * `formatear_fechas` (main.py:201-210), applied to each table before it is loaded: the `Date` and
 * `Audit_Date` columns, where present, are read as dates (`pd.to_datetime(errors='coerce')`) and
 * written back as `YYYY-MM-DD` text; a value that does not read as a date becomes NaN.
 */
module Presentation {
  import opened Common
  import opened Sequences
  import opened Dates
  import opened Amounts
  import opened Sales

  /** A row as loaded into the database: both dates as `YYYY-MM-DD` text. */
  type OutputSale<Amt> = Sale<Amt, string, string>

  /** `to_datetime` on a column that already holds dates changes nothing. */
  function AsDate(d: CalendarDate): Option<CalendarDate>
  {
    Some(d)
  }

  /**
   * One date cell: read with `toDate`, then written with `strftime('%Y-%m-%d')`; a cell that is
   * missing or does not read stays (becomes) missing. Without the column there is nothing to keep.
   */
  function FormatCell<D>(present: bool, cell: Option<D>, toDate: D -> Option<CalendarDate>): Option<string>
  {
    if present then MapOption(Bind(cell, toDate), FormatIso) else None
  }

  function FormatRow<A, D, E>(cols: set<Column>, r: Sale<A, D, E>, day: D -> Option<CalendarDate>,
                              audit: E -> Option<CalendarDate>): OutputSale<A>
  {
    Sale(r.saleId, r.product, r.amount,
         FormatCell(DateColumn in cols, r.date, day),
         FormatCell(AuditDateColumn in cols, r.auditDate, audit))
  }

  function FormatStep<A, D, E>(cols: set<Column>, day: D -> Option<CalendarDate>,
                               audit: E -> Option<CalendarDate>): Sale<A, D, E> -> OutputSale<A>
  {
    r => FormatRow(cols, r, day, audit)
  }

  /** `formatear_fechas` on a table of sales, `day` and `audit` reading each column's cells. */
  function FormatDates<A, D, E>(t: Table<Sale<A, D, E>>, day: D -> Option<CalendarDate>,
                                audit: E -> Option<CalendarDate>): (r: Table<OutputSale<A>>)
    ensures r.columns == t.columns && |r.rows| == |t.rows|
  {
    Table(t.columns, Map(t.rows, FormatStep(t.columns, day, audit)))
  }

  /** The valid sales: both columns already hold dates. */
  function FormatValid(t: Table<ValidSale>): Table<OutputSale<Cents>>
  {
    FormatDates(t, AsDate, AsDate)
  }

  function FlaggedStep(cols: set<Column>, parse: DateParser): Flagged<RawSale> -> Flagged<OutputSale<string>>
  {
    (f: Flagged<RawSale>) => Flagged(FormatRow(cols, f.row, parse, AsDate), f.reason)
  }

  /**
   * The invalid sales: `Date` still holds the text of the file and is read by `parse`;
   * `Audit_Date` holds the date stamped on load.
   */
  function FormatInvalid(t: Table<Flagged<RawSale>>, parse: DateParser): (r: Table<Flagged<OutputSale<string>>>)
    ensures r.columns == t.columns && |r.rows| == |t.rows|
  {
    Table(t.columns, Map(t.rows, FlaggedStep(t.columns, parse)))
  }

  /**
   * Formatting touches the two date columns only: identifiers, products, amounts and row order
   * are kept, and a formatted date reads back as the date it was read as.
   */
  lemma FormatCellsReadBack<A, D, E>(t: Table<Sale<A, D, E>>, day: D -> Option<CalendarDate>,
                                     audit: E -> Option<CalendarDate>, i: nat)
    requires i < |t.rows|
    ensures var r, out := t.rows[i], FormatDates(t, day, audit).rows[i];
      && out.saleId == r.saleId && out.product == r.product && out.amount == r.amount
      && (DateColumn in t.columns ==> Bind(out.date, ParseIso) == Bind(r.date, day))
      && (AuditDateColumn in t.columns ==> Bind(out.auditDate, ParseIso) == Bind(r.auditDate, audit))
  {
    var r := t.rows[i];
    if DateColumn in t.columns && Bind(r.date, day).Some? {
      ParseFormatIso(Bind(r.date, day).value);
    }
    if AuditDateColumn in t.columns && Bind(r.auditDate, audit).Some? {
      ParseFormatIso(Bind(r.auditDate, audit).value);
    }
  }

  /** A valid sale keeps both its dates, written as text that reads back as the same dates. */
  lemma ValidDatesReadBack(t: Table<ValidSale>, i: nat)
    requires i < |t.rows| && DateColumn in t.columns && AuditDateColumn in t.columns
    ensures var out := FormatValid(t).rows[i];
      && Bind(out.date, ParseIso) == t.rows[i].date
      && Bind(out.auditDate, ParseIso) == t.rows[i].auditDate
  {
    FormatCellsReadBack(t, AsDate, AsDate, i);
    var r := t.rows[i];
    assert Bind(r.date, AsDate) == r.date;
    assert Bind(r.auditDate, AsDate) == r.auditDate;
  }

  /**
   * An invalid sale keeps its reason; its date text is rewritten as the date `parse` reads from
   * it, or becomes missing when `parse` reads none.
   */
  lemma InvalidDatesRewritten(t: Table<Flagged<RawSale>>, parse: DateParser, i: nat)
    requires i < |t.rows| && DateColumn in t.columns
    ensures var f, out := t.rows[i], FormatInvalid(t, parse).rows[i];
      && out.reason == f.reason
      && out.row.saleId == f.row.saleId && out.row.product == f.row.product && out.row.amount == f.row.amount
      && (out.row.date.Some? <==> f.row.date.Some? && parse(f.row.date.value).Some?)
      && (out.row.date.Some? ==> ParseIso(out.row.date.value) == parse(f.row.date.value))
  {
    var f := t.rows[i];
    assert FormatInvalid(t, parse).rows[i] == Flagged(FormatRow(t.columns, f.row, parse, AsDate), f.reason);
    if f.row.date.Some? && parse(f.row.date.value).Some? {
      ParseFormatIso(parse(f.row.date.value).value);
    }
  }

  /** Text already in `YYYY-MM-DD` form is left as it is. */
  lemma IsoTextUnchanged(present: bool, cell: Option<string>)
    requires present && cell.Some? && ParseIso(cell.value).Some?
    ensures FormatCell(present, cell, ParseIso) == cell
  {
    FormatParseIso(cell.value);
  }

  /** Formatting an already formatted table, reading its text with `ParseIso`, changes nothing. */
  lemma FormatIdempotent<A, D, E>(t: Table<Sale<A, D, E>>, day: D -> Option<CalendarDate>,
                                  audit: E -> Option<CalendarDate>)
    ensures var once := FormatDates(t, day, audit);
            FormatDates(once, ParseIso, ParseIso) == once
  {
    var once := FormatDates(t, day, audit);
    var twice := FormatDates(once, ParseIso, ParseIso);
    forall i | 0 <= i < |once.rows|
      ensures twice.rows[i] == once.rows[i]
    {
      var r, o := t.rows[i], once.rows[i];
      if o.date.Some? {
        ParseFormatIso(Bind(r.date, day).value);
      }
      if o.auditDate.Some? {
        ParseFormatIso(Bind(r.auditDate, audit).value);
      }
    }
  }
}

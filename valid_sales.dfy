/**
 * The valid-sales cleaner, `limpiar_ventas_validas` (main.py:53-100). It rewrites a copy of the
 * batch pass by pass: Sale_ID (uppercase, drop missing, drop later duplicates), Product (last
 * `-` segment of the uppercased, stripped text, drop missing), Amount (strip the currency tags,
 * parse, convert euros, round to cents, drop missing) and the two dates (parse, drop missing).
 *
 * `CleanValid` states the passes as a composition of row maps and filters; the method
 * `CleanValidSales` runs them as loops over a local copy and is proved to compute it.
 */
module ValidSales {
  import opened Common
  import opened Sequences
  import opened Text
  import opened Dates
  import opened Amounts
  import opened Sales

  /** A row after the Amount passes, before its dates are parsed. */
  type PricedSale = Sale<Cents, string, CalendarDate>

  /** Line 59: the Sale_ID uppercased (a missing one stays missing). */
  function UpperId(r: RawSale): RawSale
  {
    r.(saleId := MapOption(r.saleId, Upper))
  }

  /** Line 67: uppercase the product, strip the whole text, keep what follows the last `-`. */
  function CleanProduct(p: string): string
  {
    LastSegment(Strip(Upper(p)))
  }

  function NormaliseProduct(r: RawSale): RawSale
  {
    r.(product := MapOption(r.product, CleanProduct))
  }

  /** Line 81's mask: the original amount text ends with `EUR` (a missing one does not). */
  predicate EndsInEur(original: Option<string>)
  {
    original.Some? && IsEuro(original.value)
  }

  function ToDollars(v: real): real
  {
    v * EuroRate
  }

  /**
   * Lines 75-83 on one row whose amount parses: the amount in cents, in dollars. The cleaner's
   * rule is `convert` = `ConvertAmount`; the lemmas about the passes hold for any.
   */
  function PriceRow(r: RawSale, convert: string -> Option<Cents>): PricedSale
  {
    Sale(r.saleId, r.product, Bind(r.amount, convert), r.date, r.auditDate)
  }

  function PriceStep(convert: string -> Option<Cents>): RawSale -> PricedSale
  {
    r => PriceRow(r, convert)
  }

  /** Lines 92-93: `Date` parsed with `errors='coerce'`; `Audit_Date` is a date already. */
  function DateRow(r: PricedSale, parse: DateParser): ValidSale
  {
    Sale(r.saleId, r.product, r.amount, Bind(r.date, parse), r.auditDate)
  }

  function DateStep(parse: DateParser): PricedSale -> ValidSale
  {
    r => DateRow(r, parse)
  }

  /** The Sale_ID values of the rows, a missing value counting as one value as pandas does. */
  function IdKeys<Amt, Day, Audit>(s: seq<Sale<Amt, Day, Audit>>): (keys: set<Option<string>>)
    ensures forall i :: 0 <= i < |s| ==> s[i].saleId in keys
    decreases |s|
  {
    if s == [] then {}
    else IdKeys(s[..|s| - 1]) + {s[|s| - 1].saleId}
  }

  /** Line 63: `drop_duplicates(subset=['Sale_ID'], keep='first')`. */
  function WithoutDuplicateIds<Amt, Day, Audit>(s: seq<Sale<Amt, Day, Audit>>): seq<Sale<Amt, Day, Audit>>
    decreases |s|
  {
    if s == [] then []
    else
      var init, last := s[..|s| - 1], s[|s| - 1];
      WithoutDuplicateIds(init) + (if last.saleId in IdKeys(init) then [] else [last])
  }

  /** Lines 59-63. */
  function IdStage(rows: seq<RawSale>): seq<RawSale>
  {
    WithoutDuplicateIds(Filter(Map(rows, UpperId), HasSaleId))
  }

  /** Lines 67-69. */
  function ProductStage(s: seq<RawSale>): seq<RawSale>
  {
    Filter(Map(s, NormaliseProduct), HasProduct)
  }

  /** Lines 75-87, once every amount has parsed. */
  function PriceStage(s: seq<RawSale>, convert: string -> Option<Cents>): seq<PricedSale>
  {
    Filter(Map(s, PriceStep(convert)), HasAmount)
  }

  /** Lines 92-97. */
  function DateStage(s: seq<PricedSale>, parse: DateParser): seq<ValidSale>
  {
    Filter(Filter(Map(s, DateStep(parse)), HasDate), HasAuditDate)
  }

  /** A present amount that the parser rejects (line 79 raises on it). */
  predicate Rejected(r: RawSale, parse: string -> Reading)
  {
    r.amount.Some? && parse(r.amount.value).Unreadable?
  }

  /** A cell after `astype(float)`: its number, or missing when the cell is missing or NaN. */
  function ReadCell(cell: Option<string>, parse: string -> Reading): Option<real>
  {
    match cell
    case None => None
    case Some(text) => if parse(text).Number? then Some(parse(text).value) else None
  }

  /** A present amount that `float()` rejects once its tags are stripped. */
  predicate Unparseable(r: RawSale)
  {
    Rejected(r, ParseAmount)
  }

  /** The position of the first row whose amount the parser rejects, or `|s|` when there is none. */
  function FirstRejected(s: seq<RawSale>, parse: string -> Reading): (k: nat)
    ensures k <= |s|
    ensures k < |s| ==> Rejected(s[k], parse)
    ensures forall j :: 0 <= j < k ==> !Rejected(s[j], parse)
    decreases |s|
  {
    if s == [] then 0
    else if Rejected(s[0], parse) then 0
    else 1 + FirstRejected(s[1..], parse)
  }

  function FirstUnparseable(s: seq<RawSale>): (k: nat)
  {
    FirstRejected(s, ParseAmount)
  }

  /**
   * The whole cleaner. A column it reads that the batch lacks raises where it is first read
   * (lines 59, 67, 75, 92, 93); an amount `float()` rejects raises at line 79, the first such row
   * (in order) among those that reached it being the one reported.
   */
  function CleanValid(t: Table<RawSale>, parse: DateParser): Result<Table<ValidSale>, Fault>
  {
    CleanValidWith(t, parse, ParseAmount, ConvertAmount)
  }

  /** The cleaner with the amount parser (`read`) and the Amount rule (`convert`) as parameters. */
  function CleanValidWith(t: Table<RawSale>, parse: DateParser, read: string -> Reading,
                          convert: string -> Option<Cents>): Result<Table<ValidSale>, Fault>
  {
    if SaleIdColumn !in t.columns then Err(MissingColumn(SaleIdColumn))
    else if ProductColumn !in t.columns then Err(MissingColumn(ProductColumn))
    else if AmountColumn !in t.columns then Err(MissingColumn(AmountColumn))
    else
      var reached := ProductStage(IdStage(t.rows));
      var k := FirstRejected(reached, read);
      if k < |reached| then Err(UnparseableAmount(reached[k].amount.value))
      else if DateColumn !in t.columns then Err(MissingColumn(DateColumn))
      else if AuditDateColumn !in t.columns then Err(MissingColumn(AuditDateColumn))
      else Ok(Table(t.columns, DateStage(PriceStage(reached, convert), parse)))
  }

  /** `df = df[mask]`: keep the rows the mask selects, in order. */
  method KeepWhere<T>(s: seq<T>, keep: T -> bool) returns (r: seq<T>)
    ensures r == Filter(s, keep)
  {
    r := [];
    for i := 0 to |s|
      invariant r == Filter(s[..i], keep)
    {
      assert s[..i + 1] == s[..i] + [s[i]];
      FilterAppend(s[..i], s[i], keep);
      if keep(s[i]) {
        r := r + [s[i]];
      }
    }
    assert s[..|s|] == s;
  }

  /** Line 63, with the set of Sale_ID values seen so far. */
  method DropDuplicateIds<Amt, Day, Audit>(s: seq<Sale<Amt, Day, Audit>>) returns (r: seq<Sale<Amt, Day, Audit>>)
    ensures r == WithoutDuplicateIds(s)
  {
    r := [];
    var seen: set<Option<string>> := {};
    for i := 0 to |s|
      invariant r == WithoutDuplicateIds(s[..i])
      invariant seen == IdKeys(s[..i])
    {
      assert s[..i + 1][..i] == s[..i];
      if s[i].saleId !in seen {
        r := r + [s[i]];
      }
      seen := seen + {s[i].saleId};
    }
    assert s[..|s|] == s;
  }

  /** Line 59: uppercase the Sale_ID column in place. */
  method UpperSaleIds(rows: seq<RawSale>) returns (df: seq<RawSale>)
    ensures df == Map(rows, UpperId)
  {
    df := rows;
    for i := 0 to |df|
      invariant |df| == |rows|
      invariant forall j :: 0 <= j < i ==> df[j] == UpperId(rows[j])
      invariant forall j :: i <= j < |df| ==> df[j] == rows[j]
    {
      df := df[i := df[i].(saleId := MapOption(df[i].saleId, Upper))];
    }
  }

  /** Line 67: normalise the Product column in place. */
  method NormaliseProducts(rows: seq<RawSale>) returns (df: seq<RawSale>)
    ensures df == Map(rows, NormaliseProduct)
  {
    df := rows;
    for i := 0 to |df|
      invariant |df| == |rows|
      invariant forall j :: 0 <= j < i ==> df[j] == NormaliseProduct(rows[j])
      invariant forall j :: i <= j < |df| ==> df[j] == rows[j]
    {
      df := df[i := df[i].(product := MapOption(df[i].product, CleanProduct))];
    }
  }

  /**
   * Lines 77-79: parse every amount of the column (`parse` being the tag stripping and `float()`);
   * the first text it rejects raises, and a NaN reading leaves the amount missing.
   */
  method ParseAmountColumn(df: seq<RawSale>, parse: string -> Reading) returns (r: Result<seq<Option<real>>, Fault>)
    ensures FirstRejected(df, parse) < |df| ==>
              r == Err(UnparseableAmount(df[FirstRejected(df, parse)].amount.value))
    ensures FirstRejected(df, parse) == |df| ==>
              r.Ok? && |r.value| == |df| &&
              forall j :: 0 <= j < |df| ==> r.value[j] == ReadCell(df[j].amount, parse)
  {
    var values: seq<Option<real>> := [];
    for i := 0 to |df|
      invariant |values| == i
      invariant forall j :: 0 <= j < i ==> !Rejected(df[j], parse)
      invariant forall j :: 0 <= j < i ==> values[j] == ReadCell(df[j].amount, parse)
    {
      match df[i].amount
      case None =>
        values := values + [None];
      case Some(text) =>
        var v := parse(text);
        if v.Unreadable? {
          FirstRejectedAt(df, parse, i);
          return Err(UnparseableAmount(text));
        }
        values := values + [if v.Number? then Some(v.value) else None];
    }
    NoneRejected(df, parse);
    return Ok(values);
  }

  lemma FirstRejectedAt(s: seq<RawSale>, parse: string -> Reading, i: nat)
    requires i < |s| && Rejected(s[i], parse)
    requires forall j :: 0 <= j < i ==> !Rejected(s[j], parse)
    ensures FirstRejected(s, parse) == i
  {
  }

  lemma NoneRejected(s: seq<RawSale>, parse: string -> Reading)
    requires forall j :: 0 <= j < |s| ==> !Rejected(s[j], parse)
    ensures FirstRejected(s, parse) == |s|
  {
  }

  /** Line 81: multiply, in place, the amounts whose original text ends with `EUR`. */
  method ConvertEuros(values: seq<Option<real>>, original: seq<Option<string>>) returns (df: seq<Option<real>>)
    requires |original| == |values|
    ensures |df| == |values|
    ensures forall j :: 0 <= j < |values| ==>
              df[j] == (if EndsInEur(original[j]) then MapOption(values[j], ToDollars) else values[j])
  {
    df := values;
    for i := 0 to |df|
      invariant |df| == |values|
      invariant forall j :: 0 <= j < i ==>
                  df[j] == (if EndsInEur(original[j]) then MapOption(values[j], ToDollars) else values[j])
      invariant forall j :: i <= j < |df| ==> df[j] == values[j]
    {
      if EndsInEur(original[i]) {
        df := df[i := MapOption(df[i], ToDollars)];
      }
    }
  }

  /** Line 83: round every amount to two decimals. */
  method RoundAmounts(values: seq<Option<real>>) returns (cents: seq<Option<Cents>>)
    ensures cents == Map(values, (v: Option<real>) => MapOption(v, ToCents))
  {
    cents := [];
    for i := 0 to |values|
      invariant |cents| == i
      invariant forall j :: 0 <= j < i ==> cents[j] == MapOption(values[j], ToCents)
    {
      cents := cents + [MapOption(values[i], ToCents)];
    }
  }

  /** The rows with the rounded amounts as their Amount column. */
  method SetAmounts(df: seq<RawSale>, cents: seq<Option<Cents>>) returns (priced: seq<PricedSale>)
    requires |cents| == |df|
    ensures |priced| == |df|
    ensures forall j :: 0 <= j < |df| ==>
              priced[j] == Sale(df[j].saleId, df[j].product, cents[j], df[j].date, df[j].auditDate)
  {
    priced := [];
    for i := 0 to |df|
      invariant |priced| == i
      invariant forall j :: 0 <= j < i ==>
                  priced[j] == Sale(df[j].saleId, df[j].product, cents[j], df[j].date, df[j].auditDate)
    {
      priced := priced + [Sale(df[i].saleId, df[i].product, cents[i], df[i].date, df[i].auditDate)];
    }
  }

  /**
   * Lines 75-87 once every amount has parsed: keep the original texts, parse, convert euros,
   * round, drop the missing amounts.
   */
  method PriceAmounts(df: seq<RawSale>) returns (r: Result<seq<PricedSale>, Fault>)
    ensures FirstUnparseable(df) < |df| ==> r == Err(UnparseableAmount(df[FirstUnparseable(df)].amount.value))
    ensures FirstUnparseable(df) == |df| ==> r == Ok(PriceStage(df, ConvertAmount))
  {
    var original := seq(|df|, j requires 0 <= j < |df| => df[j].amount);
    var parsed := ParseAmountColumn(df, ParseAmount);
    if parsed.Err? {
      return Err(parsed.error);
    }
    var values := ConvertEuros(parsed.value, original);
    var cents := RoundAmounts(values);
    var priced := SetAmounts(df, cents);
    ConvertAmountReads();
    forall j | 0 <= j < |df|
      ensures priced[j] == PriceRow(df[j], ConvertAmount)
    {
      PricedAmount(df[j], parsed.value[j], values[j], cents[j], ParseAmount, ConvertAmount);
    }
    assert priced == Map(df, PriceStep(ConvertAmount));
    priced := KeepWhere(priced, HasAmount);
    return Ok(priced);
  }

  /** The column passes of lines 77-83 give each row the amount the Amount rule gives it. */
  lemma PricedAmount(row: RawSale, parsed: Option<real>, value: Option<real>, cents: Option<Cents>,
                     read: string -> Reading, convert: string -> Option<Cents>)
    requires ConvertsBy(convert, read)
    requires !Rejected(row, read)
    requires parsed == ReadCell(row.amount, read)
    requires value == (if EndsInEur(row.amount) then MapOption(parsed, ToDollars) else parsed)
    requires cents == MapOption(value, ToCents)
    ensures cents == Bind(row.amount, convert)
  {
    if row.amount.Some? {
      var text := row.amount.value;
      var r := read(text);
      assert parsed == if r.Number? then Some(r.value) else None;
      if IsEuro(text) {
        assert convert(text) == ReadingCents(r, EurosToCents);
      } else {
        assert convert(text) == ReadingCents(r, ToCents);
      }
    }
  }

  /** Lines 92-93: parse Date; Audit_Date is already a date. */
  method ParseDates(rows: seq<PricedSale>, parse: DateParser) returns (dated: seq<ValidSale>)
    ensures dated == Map(rows, DateStep(parse))
  {
    dated := [];
    for i := 0 to |rows|
      invariant |dated| == i
      invariant forall j :: 0 <= j < i ==> dated[j] == DateRow(rows[j], parse)
    {
      dated := dated + [Sale(rows[i].saleId, rows[i].product, rows[i].amount,
                             Bind(rows[i].date, parse), rows[i].auditDate)];
    }
  }

  /** `limpiar_ventas_validas`: the passes of lines 59-97, run on a local copy of the rows. */
  method CleanValidSales(t: Table<RawSale>, parse: DateParser) returns (r: Result<Table<ValidSale>, Fault>)
    ensures r == CleanValid(t, parse)
  {
    if SaleIdColumn !in t.columns {
      return Err(MissingColumn(SaleIdColumn));
    }
    var df := UpperSaleIds(t.rows);
    df := KeepWhere(df, HasSaleId);
    df := DropDuplicateIds(df);
    if ProductColumn !in t.columns {
      return Err(MissingColumn(ProductColumn));
    }
    df := NormaliseProducts(df);
    df := KeepWhere(df, HasProduct);
    if AmountColumn !in t.columns {
      return Err(MissingColumn(AmountColumn));
    }
    var priced := PriceAmounts(df);
    if priced.Err? {
      return Err(priced.error);
    }
    if DateColumn !in t.columns {
      return Err(MissingColumn(DateColumn));
    }
    if AuditDateColumn !in t.columns {
      return Err(MissingColumn(AuditDateColumn));
    }
    var dated := ParseDates(priced.value, parse);
    dated := KeepWhere(dated, HasDate);
    dated := KeepWhere(dated, HasAuditDate);
    return Ok(Table(t.columns, dated));
  }
}

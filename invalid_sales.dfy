/**
 * The invalid-sales classifier, `limpiar_ventas_invalidas` (main.py:106-151). It labels every row
 * (Sale_ID and Product as text, main.py:112-113), then claims rows in three rounds, each from what
 * the previous rounds left: `N` a missing field, `A` an amount text naming no known currency, `D`
 * a Sale_ID repeated among the rows still left. The report is the three buckets one after the
 * other. Any fault (a column it reads is absent) gives an empty report instead of a partial one.
 */
module InvalidSales {
  import opened Common
  import opened Sequences
  import opened Text
  import opened Sales
  import opened ClaimRounds

  /** `astype(str)` on a text column: a missing value becomes the text `nan`. */
  function AsText(o: Option<string>): string
  {
    if o.Some? then o.value else "nan"
  }

  /** Lines 112-113: Sale_ID as uppercased text; Product as the uppercased text after its last `-`. */
  function LabelRow(r: RawSale): RawSale
  {
    r.(saleId := Some(Upper(AsText(r.saleId))),
       product := Some(Upper(LastSegment(AsText(r.product)))))
  }

  function Labelled(rows: seq<RawSale>): seq<RawSale>
  {
    Map(rows, LabelRow)
  }

  /** Line 119: `isnull().any(axis=1)`, over the columns the batch has. */
  predicate HasNull(cols: set<Column>, r: RawSale)
  {
    (SaleIdColumn in cols && r.saleId.None?) || (ProductColumn in cols && r.product.None?) ||
    (AmountColumn in cols && r.amount.None?) || (DateColumn in cols && r.date.None?) ||
    (AuditDateColumn in cols && r.auditDate.None?)
  }

  function NullMask(cols: set<Column>): RawSale -> bool
  {
    r => HasNull(cols, r)
  }

  /** Line 126: the amount as uppercased text. */
  function AmountText(r: RawSale): string
  {
    Upper(AsText(r.amount))
  }

  /** Line 128: `str.contains('USD|EUR')`. */
  predicate HasCurrency(r: RawSale)
  {
    Contains(AmountText(r), "USD") || Contains(AmountText(r), "EUR")
  }

  predicate LacksCurrency(r: RawSale)
  {
    !HasCurrency(r)
  }

  function SaleIdOf(r: RawSale): Option<string>
  {
    r.saleId
  }

  /**
   * Lines 119-138: `N` claims the rows with a missing field; among the others, `A` claims those
   * whose amount text names no currency; among the rest, `D` claims those whose Sale_ID occurs
   * twice or more there. The buckets come one after the other, each in input order.
   */
  function Buckets(cols: set<Column>, df: seq<RawSale>): seq<Flagged<RawSale>>
  {
    Rounds(df, NullMask(cols), LacksCurrency, SaleIdOf)
  }

  /**
   * The whole classifier. A missing Sale_ID or Product column raises at line 112-113 and a missing
   * Amount column at line 126; the handler (lines 149-151) turns any of them into an empty frame.
   */
  function ClassifyInvalid(t: Table<RawSale>): (r: Table<Flagged<RawSale>>)
    ensures |r.rows| <= |t.rows|
    ensures forall k :: 0 <= k < |r.rows| ==>
              r.rows[k].row in Labelled(t.rows) &&
              ReasonOf(t.columns, Labelled(t.rows), r.rows[k].row) == Some(r.rows[k].reason)
    ensures SaleIdColumn !in t.columns || ProductColumn !in t.columns || AmountColumn !in t.columns ==>
              r.columns == {} && r.rows == []
  {
    if SaleIdColumn !in t.columns || ProductColumn !in t.columns || AmountColumn !in t.columns then
      EmptyTable()
    else
      var df := Labelled(t.rows);
      RoundsAtMostInput(df, NullMask(t.columns), LacksCurrency, SaleIdOf);
      RoundsReasonsAgree(df, NullMask(t.columns), LacksCurrency, SaleIdOf);
      Table(t.columns, Buckets(t.columns, df))
  }

  /** The columns the classifier reads are all there. */
  predicate Readable(t: Table<RawSale>)
  {
    SaleIdColumn in t.columns && ProductColumn in t.columns && AmountColumn in t.columns
  }

  // ----- The per-row reference -----

  /** The reason a labelled row of `df` is reported with, decided for the row on its own, or none. */
  function ReasonOf(cols: set<Column>, df: seq<RawSale>, r: RawSale): Option<Reason>
  {
    ReasonIn(df, NullMask(cols), LacksCurrency, SaleIdOf, r)
  }

  /** The rows that neither `N` nor `A` claims: the ones `D` looks for repeats among. */
  function Remaining(cols: set<Column>, df: seq<RawSale>): seq<RawSale>
  {
    Filter(df, Unclaimed(NullMask(cols), LacksCurrency))
  }

  // ----- Lemmas -----

  lemma ClassifiedRows(t: Table<RawSale>)
    requires Readable(t)
    ensures ClassifyInvalid(t).rows == Rounds(Labelled(t.rows), NullMask(t.columns), LacksCurrency, SaleIdOf)
  {
  }

  /** The reference reason of a labelled row, in the rules' own terms. */
  lemma ReasonOfRow(cols: set<Column>, df: seq<RawSale>, r: RawSale)
    ensures ReasonOf(cols, df, r) == Some(MissingValue) <==> HasNull(cols, r)
    ensures ReasonOf(cols, df, r) == Some(BadCurrency) <==>
              !HasNull(cols, r) && !Contains(AmountText(r), "USD") && !Contains(AmountText(r), "EUR")
    ensures ReasonOf(cols, df, r) == Some(Duplicate) <==>
              !HasNull(cols, r) && HasCurrency(r) && Count(Map(Remaining(cols, df), SaleIdOf), r.saleId) >= 2
  {
  }

  /**
   * The rows reported with a given reason are exactly, in input order, the labelled rows the
   * per-row reference gives that reason: the buckets are disjoint and each row carries one reason.
   */
  lemma InvalidBucketExact(t: Table<RawSale>, reason: Reason)
    requires Readable(t)
    ensures var df := Labelled(t.rows);
            Map(Filter(ClassifyInvalid(t).rows, HasReason(reason)), RowOf) ==
              Filter(df, ReasonMask(df, NullMask(t.columns), LacksCurrency, SaleIdOf, reason))
  {
    ClassifiedRows(t);
    RoundsBucketExact(Labelled(t.rows), NullMask(t.columns), LacksCurrency, SaleIdOf, reason);
  }

  /** Line 141: every `N` row comes before every `A` row, which comes before every `D` row. */
  lemma InvalidBucketsInOrder(t: Table<RawSale>)
    ensures var out := ClassifyInvalid(t).rows;
            forall i, j :: 0 <= i < j < |out| ==> Rank(out[i].reason) <= Rank(out[j].reason)
  {
    if Readable(t) {
      ClassifiedRows(t);
      RoundsInOrder(Labelled(t.rows), NullMask(t.columns), LacksCurrency, SaleIdOf);
    }
  }

  /** A labelled row is reported with a reason exactly when the reference gives it that reason. */
  lemma InvalidClaim(t: Table<RawSale>, r: RawSale, reason: Reason)
    requires Readable(t) && r in Labelled(t.rows)
    ensures Flagged(r, reason) in ClassifyInvalid(t).rows <==> ReasonOf(t.columns, Labelled(t.rows), r) == Some(reason)
  {
    ClassifiedRows(t);
    RoundsClaim(Labelled(t.rows), NullMask(t.columns), LacksCurrency, SaleIdOf, r, reason);
  }

  /**
   * The report is a partition of the flagged rows: each labelled row the reference flags is
   * reported exactly as many times as it occurs, and no other row is reported.
   */
  lemma InvalidPartition(t: Table<RawSale>)
    requires Readable(t)
    ensures var df := Labelled(t.rows);
            multiset(Map(ClassifyInvalid(t).rows, RowOf)) ==
              multiset(Filter(df, FlaggedMask(df, NullMask(t.columns), LacksCurrency, SaleIdOf)))
  {
    ClassifiedRows(t);
    RoundsPartition(Labelled(t.rows), NullMask(t.columns), LacksCurrency, SaleIdOf);
  }

  /** A row with a missing field is reported as `N` and only as `N`, whatever its amount text. */
  lemma MissingValueOnlyN(t: Table<RawSale>, i: nat)
    requires Readable(t)
    requires i < |t.rows| && HasNull(t.columns, LabelRow(t.rows[i]))
    ensures var out := ClassifyInvalid(t).rows;
            Flagged(LabelRow(t.rows[i]), MissingValue) in out &&
            forall k :: 0 <= k < |out| && out[k].row == LabelRow(t.rows[i]) ==> out[k].reason == MissingValue
  {
    var df := Labelled(t.rows);
    assert df[i] == LabelRow(t.rows[i]);
    InvalidClaim(t, df[i], MissingValue);
  }

  /** Labelling never leaves Sale_ID or Product missing: only Amount, Date and Audit_Date can make a row `N`. */
  lemma MissingIdIsNotMissingValue(cols: set<Column>, r: RawSale)
    ensures HasNull(cols, LabelRow(r)) <==>
              (AmountColumn in cols && r.amount.None?) || (DateColumn in cols && r.date.None?) ||
              (AuditDateColumn in cols && r.auditDate.None?)
    ensures LabelRow(r).saleId == Some(Upper(AsText(r.saleId)))
  {
  }

  /**
   * `A` claims exactly the labelled rows without a missing field whose uppercased amount text
   * contains neither `USD` nor `EUR`.
   */
  lemma BadCurrencyExactly(t: Table<RawSale>, r: RawSale)
    requires Readable(t) && r in Labelled(t.rows)
    ensures Flagged(r, BadCurrency) in ClassifyInvalid(t).rows <==>
              !HasNull(t.columns, r) && !Contains(AmountText(r), "USD") && !Contains(AmountText(r), "EUR")
  {
    InvalidClaim(t, r, BadCurrency);
    ReasonOfRow(t.columns, Labelled(t.rows), r);
  }

  /**
   * `D` claims every occurrence of a Sale_ID that occurs at least twice among the rows `N` and `A`
   * left, and no occurrence of any other.
   */
  lemma DuplicatesAllClaimed(t: Table<RawSale>, id: Option<string>)
    requires Readable(t)
    ensures var df := Labelled(t.rows);
            var rest := Count(Map(Remaining(t.columns, df), SaleIdOf), id);
            var out := ClassifyInvalid(t).rows;
            Count(Map(Map(Filter(out, HasReason(Duplicate)), RowOf), SaleIdOf), id) ==
              if rest >= 2 then rest else 0
  {
    ClassifiedRows(t);
    RoundsDuplicates(Labelled(t.rows), NullMask(t.columns), LacksCurrency, SaleIdOf, id);
  }
}

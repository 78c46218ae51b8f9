/**
 * What the valid-sales cleaner's passes add up to, row by row: a row is kept exactly when it is
 * the first row (in input order) with its uppercased Sale_ID and every field of its normalised
 * form is present; the batch is refused when such a first row with a product has an amount
 * `float()` rejects.
 */
module ValidSalesProperties {
  import opened Common
  import opened Sequences
  import opened Text
  import opened Dates
  import opened Amounts
  import opened Sales
  import opened ValidSales

  /** The uppercased Sale_IDs of the rows that have one. */
  function SeenIds(rows: seq<RawSale>): (ids: set<Option<string>>)
    ensures forall i :: 0 <= i < |rows| && rows[i].saleId.Some? ==> Some(Upper(rows[i].saleId.value)) in ids
    decreases |rows|
  {
    if rows == [] then {}
    else
      var last := rows[|rows| - 1];
      SeenIds(rows[..|rows| - 1]) + (if last.saleId.Some? then {Some(Upper(last.saleId.value))} else {})
  }

  /** Row `i` has a Sale_ID and no earlier row has the same one once uppercased. */
  predicate FirstOfItsId(rows: seq<RawSale>, i: nat)
    requires i < |rows|
  {
    rows[i].saleId.Some? && Some(Upper(rows[i].saleId.value)) !in SeenIds(rows[..i])
  }

  /** What every pass does to one row: the row as the cleaner outputs it, if it is kept. */
  function NormaliseRow(r: RawSale, parse: DateParser): ValidSale
  {
    Normaliser(parse)(r)
  }

  /** Row `i` gets past the Sale_ID and Product passes and reaches line 79. */
  predicate Reaches(rows: seq<RawSale>, i: nat)
    requires i < |rows|
  {
    FirstOfItsId(rows, i) && rows[i].product.Some?
  }

  /** Lines 59 and 67 on one row: the Sale_ID uppercased, the product cleaned. */
  function Prepare(r: RawSale): RawSale
  {
    NormaliseProduct(UpperId(r))
  }

  /**
   * A per-row rewrite that keeps which of Sale_ID and Product are present and leaves the amount
   * and the dates alone, as lines 59 and 67 do.
   */
  ghost predicate KeepsShape(pre: RawSale -> RawSale)
  {
    forall r :: pre(r).saleId.Some? == r.saleId.Some? && pre(r).product.Some? == r.product.Some? &&
                pre(r).amount == r.amount && pre(r).date == r.date && pre(r).auditDate == r.auditDate
  }

  /** The per-row normalisation as a function value, for any Sale_ID/Product rewrite and Amount rule. */
  function NormaliserWith(parse: DateParser, convert: string -> Option<Cents>, pre: RawSale -> RawSale): RawSale -> ValidSale
  {
    r => DateRow(PriceRow(pre(r), convert), parse)
  }

  /** The cleaner's per-row normalisation as a function value. */
  function Normaliser(parse: DateParser): RawSale -> ValidSale
  {
    NormaliserWith(parse, ConvertAmount, Prepare)
  }

  /** Row `i` is in the output: first with its Sale_ID and complete once normalised by `norm`. */
  predicate Survives(rows: seq<RawSale>, i: nat, norm: RawSale -> ValidSale)
    requires i < |rows|
  {
    FirstOfItsId(rows, i) && Complete(norm(rows[i]))
  }

  /** The rows that reach line 79, as the passes before it (`pre` on each row) leave them. */
  function Reached(rows: seq<RawSale>, pre: RawSale -> RawSale): seq<RawSale>
    decreases |rows|
  {
    if rows == [] then []
    else
      var n := |rows| - 1;
      Reached(rows[..n], pre) + (if Reaches(rows, n) then [pre(rows[n])] else [])
  }

  /** The positions of the kept rows, in increasing order. */
  function Kept(rows: seq<RawSale>, norm: RawSale -> ValidSale): (ix: seq<nat>)
    ensures forall k :: 0 <= k < |ix| ==> ix[k] < |rows|
    decreases |rows|
  {
    if rows == [] then []
    else
      var n := |rows| - 1;
      Kept(rows[..n], norm) + (if Survives(rows, n, norm) then [n] else [])
  }

  /** The kept rows, normalised. */
  function Selected(rows: seq<RawSale>, norm: RawSale -> ValidSale): seq<ValidSale>
    decreases |rows|
  {
    if rows == [] then []
    else
      var n := |rows| - 1;
      Selected(rows[..n], norm) + (if Survives(rows, n, norm) then [norm(rows[n])] else [])
  }

  /** The amount text of the first row that reaches line 79 with an amount `float()` rejects. */
  function FirstRejectedText(rows: seq<RawSale>, read: string -> Reading): (o: Option<string>)
    ensures o.None? ==> forall i :: 0 <= i < |rows| && Reaches(rows, i) ==> !Rejected(rows[i], read)
    decreases |rows|
  {
    if rows == [] then None
    else
      var n := |rows| - 1;
      var earlier := FirstRejectedText(rows[..n], read);
      PrefixPredicates(rows, n);
      if earlier.Some? then earlier
      else if Reaches(rows, n) && Rejected(rows[n], read) then Some(rows[n].amount.value)
      else None
  }

  // ----- Prefix facts -----

  lemma PrefixPredicates(rows: seq<RawSale>, n: nat)
    requires n <= |rows|
    ensures forall i :: 0 <= i < n ==> rows[..n][..i] == rows[..i] && rows[..n][i] == rows[i]
    ensures forall i :: 0 <= i < n ==> (FirstOfItsId(rows[..n], i) <==> FirstOfItsId(rows, i))
    ensures forall i :: 0 <= i < n ==> (Reaches(rows[..n], i) <==> Reaches(rows, i))
  {
    assert forall i :: 0 <= i < n ==> rows[..n][..i] == rows[..i];
  }

  // ----- The Sale_ID passes -----

  lemma IdKeysAppend<Amt, Day, Audit>(s: seq<Sale<Amt, Day, Audit>>, x: Sale<Amt, Day, Audit>)
    ensures IdKeys(s + [x]) == IdKeys(s) + {x.saleId}
  {
    assert (s + [x])[..|s|] == s;
  }

  lemma WithoutDuplicateIdsAppend<Amt, Day, Audit>(s: seq<Sale<Amt, Day, Audit>>, x: Sale<Amt, Day, Audit>)
    ensures WithoutDuplicateIds(s + [x]) == WithoutDuplicateIds(s) + (if x.saleId in IdKeys(s) then [] else [x])
  {
    assert (s + [x])[..|s|] == s;
  }

  /** After line 61 the Sale_ID values are exactly the uppercased ids of the input. */
  lemma {:induction false} IdKeysOfIdentified(rows: seq<RawSale>)
    ensures IdKeys(Filter(Map(rows, UpperId), HasSaleId)) == SeenIds(rows)
    decreases |rows|
  {
    if rows != [] {
      var n := |rows| - 1;
      var init, x := rows[..n], rows[n];
      var u := Filter(Map(init, UpperId), HasSaleId);
      IdKeysOfIdentified(init);
      IdentifiedAppend(rows);
      if x.saleId.Some? {
        IdKeysAppend(u, UpperId(x));
      } else {
        assert u + [] == u;
      }
      assert SeenIds(rows) == SeenIds(init) + (if x.saleId.Some? then {Some(Upper(x.saleId.value))} else {});
    }
  }

  /** Lines 59-63 on one more row: it is kept exactly when it is the first with its id. */
  lemma IdStageAppend(rows: seq<RawSale>)
    requires rows != []
    ensures var n := |rows| - 1;
            IdStage(rows) == IdStage(rows[..n]) + (if FirstOfItsId(rows, n) then [UpperId(rows[n])] else [])
  {
    var n := |rows| - 1;
    var init, x := rows[..n], rows[n];
    var y := UpperId(x);
    var u := Filter(Map(init, UpperId), HasSaleId);
    IdentifiedAppend(rows);
    IdKeysOfIdentified(init);
    if x.saleId.Some? {
      WithoutDuplicateIdsAppend(u, y);
      assert y.saleId in IdKeys(u) <==> !FirstOfItsId(rows, n);
    } else {
      assert u + [] == u;
    }
  }

  /** Lines 59-61 on one more row. */
  lemma IdentifiedAppend(rows: seq<RawSale>)
    requires rows != []
    ensures var n := |rows| - 1;
            Filter(Map(rows, UpperId), HasSaleId) ==
            Filter(Map(rows[..n], UpperId), HasSaleId) + (if rows[n].saleId.Some? then [UpperId(rows[n])] else [])
  {
    var n := |rows| - 1;
    var init, x := rows[..n], rows[n];
    assert rows == init + [x];
    MapConcat(init, [x], UpperId);
    MapSingleton(x, UpperId);
    FilterAppend(Map(init, UpperId), UpperId(x), HasSaleId);
  }

  // ----- The Product pass -----

  lemma ProductStageConcat(a: seq<RawSale>, b: seq<RawSale>)
    ensures ProductStage(a + b) == ProductStage(a) + ProductStage(b)
  {
    MapConcat(a, b, NormaliseProduct);
    FilterConcat(Map(a, NormaliseProduct), Map(b, NormaliseProduct), HasProduct);
  }

  /** Lines 59-69 leave exactly the rows that reach line 79. */
  lemma {:induction false} ReachedRows(rows: seq<RawSale>)
    ensures ProductStage(IdStage(rows)) == Reached(rows, Prepare)
    decreases |rows|
  {
    if rows != [] {
      var n := |rows| - 1;
      var x := rows[n];
      ReachedRows(rows[..n]);
      IdStageAppend(rows);
      if FirstOfItsId(rows, n) {
        ProductStageConcat(IdStage(rows[..n]), [UpperId(x)]);
        MapSingleton(UpperId(x), NormaliseProduct);
        FilterSingleton(NormaliseProduct(UpperId(x)), HasProduct);
      } else {
        assert IdStage(rows) == IdStage(rows[..n]);
      }
    }
  }

  // ----- The Amount and Date passes -----

  /** Lines 75-97 once every amount has parsed. */
  function Finish(s: seq<RawSale>, parse: DateParser, convert: string -> Option<Cents>): seq<ValidSale>
  {
    DateStage(PriceStage(s, convert), parse)
  }

  lemma FinishConcat(a: seq<RawSale>, b: seq<RawSale>, parse: DateParser, convert: string -> Option<Cents>)
    ensures Finish(a + b, parse, convert) == Finish(a, parse, convert) + Finish(b, parse, convert)
  {
    var step := PriceStep(convert);
    MapConcat(a, b, step);
    FilterConcat(Map(a, step), Map(b, step), HasAmount);
    var pa, pb := PriceStage(a, convert), PriceStage(b, convert);
    MapConcat(pa, pb, DateStep(parse));
    var da, db := Map(pa, DateStep(parse)), Map(pb, DateStep(parse));
    FilterConcat(da, db, HasDate);
    FilterConcat(Filter(da, HasDate), Filter(db, HasDate), HasAuditDate);
  }

  /** One row through lines 75-97: it comes out normalised exactly when all its fields are there. */
  lemma FinishOne(y: RawSale, parse: DateParser, convert: string -> Option<Cents>)
    requires y.saleId.Some? && y.product.Some?
    ensures var z := DateRow(PriceRow(y, convert), parse);
            Finish([y], parse, convert) == if Complete(z) then [z] else []
  {
    var p := PriceRow(y, convert);
    MapSingleton(y, PriceStep(convert));
    FilterSingleton(p, HasAmount);
    var step := DateStep(parse);
    var z := step(p);
    if HasAmount(p) {
      assert PriceStage([y], convert) == [p];
      MapSingleton(p, step);
      FilterSingleton(z, HasDate);
      if HasDate(z) {
        FilterSingleton(z, HasAuditDate);
      } else {
        var none: seq<ValidSale> := [];
        assert Filter(none, HasAuditDate) == [];
      }
    } else {
      var noPriced: seq<PricedSale>, none: seq<ValidSale> := [], [];
      assert PriceStage([y], convert) == noPriced;
      assert Map(noPriced, step) == none;
      assert Filter(none, HasDate) == none;
      assert Filter(none, HasAuditDate) == none;
    }
  }

  /** The cleaner's Sale_ID and Product rewrite keeps the shape of a row. */
  lemma PrepareKeepsShape()
    ensures KeepsShape(Prepare)
  {
  }

  /** A row survives exactly when it reaches line 79 and its normalised form is complete. */
  lemma SurvivesIffReaches(rows: seq<RawSale>, n: nat, parse: DateParser, convert: string -> Option<Cents>,
                           pre: RawSale -> RawSale)
    requires n < |rows| && KeepsShape(pre)
    ensures var z := DateRow(PriceRow(pre(rows[n]), convert), parse);
            NormaliserWith(parse, convert, pre)(rows[n]) == z &&
            (Survives(rows, n, NormaliserWith(parse, convert, pre)) <==> Reaches(rows, n) && Complete(z))
  {
  }

  /** Lines 75-97 on one more row with a Sale_ID and a product. */
  lemma FinishAppend(a: seq<RawSale>, y: RawSale, parse: DateParser, convert: string -> Option<Cents>)
    requires y.saleId.Some? && y.product.Some?
    ensures var z := DateRow(PriceRow(y, convert), parse);
            Finish(a + [y], parse, convert) == Finish(a, parse, convert) + if Complete(z) then [z] else []
  {
    FinishConcat(a, [y], parse, convert);
    FinishOne(y, parse, convert);
  }

  /** Lines 75-97 on the rows reaching line 79, one more input row at a time. */
  lemma FinishReachedStep(rows: seq<RawSale>, parse: DateParser, convert: string -> Option<Cents>,
                          pre: RawSale -> RawSale)
    requires rows != [] && KeepsShape(pre)
    ensures var n := |rows| - 1;
            var norm := NormaliserWith(parse, convert, pre);
            Finish(Reached(rows, pre), parse, convert) ==
            Finish(Reached(rows[..n], pre), parse, convert) + (if Survives(rows, n, norm) then [norm(rows[n])] else [])
  {
    var n := |rows| - 1;
    SurvivesIffReaches(rows, n, parse, convert, pre);
    if Reaches(rows, n) {
      var y := pre(rows[n]);
      assert Reached(rows, pre) == Reached(rows[..n], pre) + [y];
      FinishAppend(Reached(rows[..n], pre), y, parse, convert);
    } else {
      assert Reached(rows, pre) == Reached(rows[..n], pre);
    }
  }

  /** The rows that reach line 79 come out exactly as `Selected` says. */
  lemma {:induction false} FinishReached(rows: seq<RawSale>, parse: DateParser, convert: string -> Option<Cents>,
                                         pre: RawSale -> RawSale)
    requires KeepsShape(pre)
    ensures Finish(Reached(rows, pre), parse, convert) == Selected(rows, NormaliserWith(parse, convert, pre))
    decreases |rows|
  {
    if rows == [] {
      var none: seq<RawSale> := [];
      assert Map(none, PriceStep(convert)) == [];
      assert Map([], DateStep(parse)) == [];
    } else {
      FinishReached(rows[..|rows| - 1], parse, convert, pre);
      FinishReachedStep(rows, parse, convert, pre);
    }
  }

  // ----- Line 79 -----

  lemma {:induction false} FirstRejectedAppend(a: seq<RawSale>, x: RawSale, read: string -> Reading)
    ensures FirstRejected(a + [x], read) ==
            if FirstRejected(a, read) < |a| then FirstRejected(a, read)
            else if Rejected(x, read) then |a| else |a| + 1
  {
    var k := FirstRejected(a + [x], read);
    var j := FirstRejected(a, read);
    if j < |a| {
      assert (a + [x])[j] == a[j];
    } else if Rejected(x, read) {
      assert (a + [x])[|a|] == x;
    } else {
      forall i | 0 <= i < |a + [x]|
        ensures !Rejected((a + [x])[i], read)
      {
        if i < |a| {
          assert (a + [x])[i] == a[i];
        }
      }
    }
  }

  /** Line 79 raises on the first row that reaches it with an amount `float()` rejects. */
  lemma {:induction false} RejectedReached(rows: seq<RawSale>, read: string -> Reading, pre: RawSale -> RawSale)
    requires KeepsShape(pre)
    ensures var r := Reached(rows, pre);
            var k := FirstRejected(r, read);
            (k < |r| <==> FirstRejectedText(rows, read).Some?) &&
            (k < |r| ==> FirstRejectedText(rows, read).value == r[k].amount.value)
    decreases |rows|
  {
    if rows != [] {
      var n := |rows| - 1;
      var init, x := rows[..n], rows[n];
      var y := pre(x);
      RejectedReached(init, read, pre);
      var earlier := FirstRejectedText(init, read);
      assert FirstRejectedText(rows, read) ==
             if earlier.Some? then earlier
             else if Reaches(rows, n) && Rejected(x, read) then Some(x.amount.value)
             else None;
      if Reaches(rows, n) {
        assert Reached(rows, pre) == Reached(init, pre) + [y];
        assert y.amount == x.amount;
        FirstRejectedAppend(Reached(init, pre), y, read);
      } else {
        assert Reached(rows, pre) == Reached(init, pre);
      }
    }
  }

  /** The cleaner, for any amount parser and Amount rule. */
  lemma CleanValidWithCharacterised(t: Table<RawSale>, parse: DateParser, read: string -> Reading,
                                    convert: string -> Option<Cents>)
    ensures var fault := FirstRejectedText(t.rows, read);
            CleanValidWith(t, parse, read, convert) ==
              if SaleIdColumn !in t.columns then Err(MissingColumn(SaleIdColumn))
              else if ProductColumn !in t.columns then Err(MissingColumn(ProductColumn))
              else if AmountColumn !in t.columns then Err(MissingColumn(AmountColumn))
              else if fault.Some? then Err(UnparseableAmount(fault.value))
              else if DateColumn !in t.columns then Err(MissingColumn(DateColumn))
              else if AuditDateColumn !in t.columns then Err(MissingColumn(AuditDateColumn))
              else Ok(Table(t.columns, Selected(t.rows, NormaliserWith(parse, convert, Prepare))))
  {
    var reached := ProductStage(IdStage(t.rows));
    ReachedRows(t.rows);
    PrepareKeepsShape();
    assert reached == Reached(t.rows, Prepare);
    var k := FirstRejected(reached, read);
    var fault := FirstRejectedText(t.rows, read);
    RejectedReached(t.rows, read, Prepare);
    assert k < |reached| <==> fault.Some?;
    FinishReached(t.rows, parse, convert, Prepare);
    assert DateStage(PriceStage(reached, convert), parse) == Selected(t.rows, NormaliserWith(parse, convert, Prepare));
  }

  /**
   * The valid-sales cleaner: when every column it reads is present and no row that reaches
   * line 79 has an amount `float()` rejects, its output is the normalised rows that are first with
   * their Sale_ID and have every field; otherwise it raises, reporting the first missing column
   * read or the first rejected amount.
   */
  lemma CleanValidCharacterised(t: Table<RawSale>, parse: DateParser)
    ensures var fault := FirstRejectedText(t.rows, ParseAmount);
            CleanValid(t, parse) ==
              if SaleIdColumn !in t.columns then Err(MissingColumn(SaleIdColumn))
              else if ProductColumn !in t.columns then Err(MissingColumn(ProductColumn))
              else if AmountColumn !in t.columns then Err(MissingColumn(AmountColumn))
              else if fault.Some? then Err(UnparseableAmount(fault.value))
              else if DateColumn !in t.columns then Err(MissingColumn(DateColumn))
              else if AuditDateColumn !in t.columns then Err(MissingColumn(AuditDateColumn))
              else Ok(Table(t.columns, Selected(t.rows, Normaliser(parse))))
  {
    CleanValidWithCharacterised(t, parse, ParseAmount, ConvertAmount);
  }

  // ----- What the kept rows are, for any per-row normalisation -----

  /** Output row `k` is input row `Kept[k]`, normalised. */
  lemma {:induction false} SelectedAreKept(rows: seq<RawSale>, norm: RawSale -> ValidSale)
    ensures |Selected(rows, norm)| == |Kept(rows, norm)|
    ensures forall k :: 0 <= k < |Kept(rows, norm)| ==>
              Selected(rows, norm)[k] == norm(rows[Kept(rows, norm)[k]])
    decreases |rows|
  {
    if rows != [] {
      var n := |rows| - 1;
      SelectedAreKept(rows[..n], norm);
      var ix := Kept(rows[..n], norm);
      forall k | 0 <= k < |ix|
        ensures rows[..n][ix[k]] == rows[ix[k]]
      {
      }
    }
  }

  /** The kept positions increase: the output keeps the input order. */
  lemma {:induction false} KeptIncreasing(rows: seq<RawSale>, norm: RawSale -> ValidSale)
    ensures StrictlyIncreasing(Kept(rows, norm))
    decreases |rows|
  {
    if rows != [] {
      var n := |rows| - 1;
      KeptIncreasing(rows[..n], norm);
      var ix', ix := Kept(rows[..n], norm), Kept(rows, norm);
      forall a, b | 0 <= a < b < |ix|
        ensures ix[a] < ix[b]
      {
        if b < |ix'| {
          assert ix[a] == ix'[a] && ix[b] == ix'[b];
        } else {
          assert ix[a] == ix'[a];
        }
      }
    }
  }

  /** The kept positions are exactly the positions of the surviving rows. */
  lemma {:induction false} KeptExactly(rows: seq<RawSale>, norm: RawSale -> ValidSale, i: nat)
    requires i < |rows|
    ensures i in Kept(rows, norm) <==> Survives(rows, i, norm)
    decreases |rows|
  {
    var n := |rows| - 1;
    var ix' := Kept(rows[..n], norm);
    if i < n {
      KeptExactly(rows[..n], norm, i);
      PrefixPredicates(rows, n);
    }
  }

  /** An earlier row's uppercased Sale_ID is among those seen before a later row. */
  lemma SeenBefore(rows: seq<RawSale>, j: nat, i: nat)
    requires j < i < |rows| && rows[j].saleId.Some?
    ensures Some(Upper(rows[j].saleId.value)) in SeenIds(rows[..i])
  {
    assert rows[..i][j] == rows[j];
  }

  /** Two kept rows never share an uppercased Sale_ID. */
  lemma KeptIdsDistinct(rows: seq<RawSale>, norm: RawSale -> ValidSale, a: nat, b: nat)
    requires a < b < |Kept(rows, norm)|
    ensures var ix := Kept(rows, norm);
            rows[ix[a]].saleId.Some? && rows[ix[b]].saleId.Some? &&
            Upper(rows[ix[a]].saleId.value) != Upper(rows[ix[b]].saleId.value)
  {
    var ix := Kept(rows, norm);
    KeptIncreasing(rows, norm);
    KeptExactly(rows, norm, ix[a]);
    KeptExactly(rows, norm, ix[b]);
    SeenBefore(rows, ix[a], ix[b]);
  }

  // ----- What the valid rows are -----

  /** The kept rows: a subsequence of the input, in order, each first with its id and complete. */
  lemma SelectedFromInput(rows: seq<RawSale>, norm: RawSale -> ValidSale)
    ensures var out := Selected(rows, norm);
            exists ix: seq<nat> ::
              |ix| == |out| && StrictlyIncreasing(ix) &&
              forall k :: 0 <= k < |ix| ==>
                ix[k] < |rows| && FirstOfItsId(rows, ix[k]) && out[k] == norm(rows[ix[k]]) && Complete(out[k])
  {
    SelectedAreKept(rows, norm);
    KeptIncreasing(rows, norm);
    var ix := Kept(rows, norm);
    forall k | 0 <= k < |ix|
      ensures FirstOfItsId(rows, ix[k]) && Complete(norm(rows[ix[k]]))
    {
      KeptExactly(rows, norm, ix[k]);
    }
  }

  /** Each row that is first with its id and complete once normalised is kept. */
  lemma SelectedMembership(rows: seq<RawSale>, norm: RawSale -> ValidSale, i: nat)
    requires i < |rows| && FirstOfItsId(rows, i) && Complete(norm(rows[i]))
    ensures norm(rows[i]) in Selected(rows, norm)
  {
    SelectedAreKept(rows, norm);
    KeptExactly(rows, norm, i);
    var ix := Kept(rows, norm);
    var k :| 0 <= k < |ix| && ix[k] == i;
    assert Selected(rows, norm)[k] == norm(rows[i]);
  }

  /** With a normalisation that uppercases the Sale_ID, the kept rows' ids are uppercase and distinct. */
  lemma SelectedIdsDistinct(rows: seq<RawSale>, norm: RawSale -> ValidSale)
    requires forall r :: norm(r).saleId == MapOption(r.saleId, Upper)
    ensures var out := Selected(rows, norm);
            (forall k :: 0 <= k < |out| ==> out[k].saleId.Some? && Upper(out[k].saleId.value) == out[k].saleId.value) &&
            (forall a, b :: 0 <= a < b < |out| ==> out[a].saleId != out[b].saleId)
  {
    SelectedAreKept(rows, norm);
    var out, ix := Selected(rows, norm), Kept(rows, norm);
    forall k | 0 <= k < |out|
      ensures out[k].saleId.Some? && Upper(out[k].saleId.value) == out[k].saleId.value
    {
      KeptExactly(rows, norm, ix[k]);
      UpperIdempotent(rows[ix[k]].saleId.value);
    }
    forall a, b | 0 <= a < b < |out|
      ensures out[a].saleId != out[b].saleId
    {
      KeptIdsDistinct(rows, norm, a, b);
    }
  }

  /** A row first with its id that is not kept shadows every later row with that id. */
  lemma SelectedShadowed(rows: seq<RawSale>, norm: RawSale -> ValidSale, i: nat)
    requires forall r :: norm(r).saleId == MapOption(r.saleId, Upper)
    requires i < |rows| && FirstOfItsId(rows, i) && !Complete(norm(rows[i]))
    ensures forall k :: 0 <= k < |Selected(rows, norm)| ==>
              Selected(rows, norm)[k].saleId != Some(Upper(rows[i].saleId.value))
  {
    SelectedAreKept(rows, norm);
    var out, ix := Selected(rows, norm), Kept(rows, norm);
    forall k | 0 <= k < |out|
      ensures out[k].saleId != Some(Upper(rows[i].saleId.value))
    {
      var j := ix[k];
      KeptExactly(rows, norm, j);
      KeptExactly(rows, norm, i);
      if j < i {
        SeenBefore(rows, j, i);
      } else if j > i {
        SeenBefore(rows, i, j);
      }
    }
  }

  // ----- What the valid rows are -----

  /** When the cleaner returns, its rows are the kept rows. */
  lemma ValidOutput(t: Table<RawSale>, parse: DateParser)
    requires CleanValid(t, parse).Ok?
    ensures CleanValid(t, parse).value.rows == Selected(t.rows, Normaliser(parse))
  {
    CleanValidCharacterised(t, parse);
  }

  /** The cleaner's normalisation uppercases the Sale_ID. */
  lemma NormaliserUppercasesId(parse: DateParser)
    ensures forall r :: Normaliser(parse)(r).saleId == MapOption(r.saleId, Upper)
  {
    forall r
      ensures Normaliser(parse)(r).saleId == MapOption(r.saleId, Upper)
    {
      assert Normaliser(parse)(r) == DateRow(PriceRow(Prepare(r), ConvertAmount), parse);
    }
  }

  /**
   * The valid rows, as the cleaner returns them: a subsequence of the input in input order,
   * each row normalised, complete, and the first row with its uppercased Sale_ID.
   */
  lemma ValidRowsFromInput(t: Table<RawSale>, parse: DateParser)
    requires CleanValid(t, parse).Ok?
    ensures var out := CleanValid(t, parse).value.rows;
            exists ix: seq<nat> ::
              |ix| == |out| && StrictlyIncreasing(ix) &&
              forall k :: 0 <= k < |ix| ==>
                ix[k] < |t.rows| && FirstOfItsId(t.rows, ix[k]) &&
                out[k] == NormaliseRow(t.rows[ix[k]], parse) && Complete(out[k])
  {
    ValidOutput(t, parse);
    SelectedFromInput(t.rows, Normaliser(parse));
  }

  /** Each input row that is first with its id and complete once normalised is in the output. */
  lemma ValidRowMembership(t: Table<RawSale>, parse: DateParser, i: nat)
    requires CleanValid(t, parse).Ok? && i < |t.rows|
    requires FirstOfItsId(t.rows, i) && Complete(NormaliseRow(t.rows[i], parse))
    ensures NormaliseRow(t.rows[i], parse) in CleanValid(t, parse).value.rows
  {
    ValidOutput(t, parse);
    SelectedMembership(t.rows, Normaliser(parse), i);
  }

  /** The valid rows' Sale_IDs are uppercase and pairwise distinct. */
  lemma ValidIdsDistinct(t: Table<RawSale>, parse: DateParser)
    requires CleanValid(t, parse).Ok?
    ensures var out := CleanValid(t, parse).value.rows;
            (forall k :: 0 <= k < |out| ==> out[k].saleId.Some? && Upper(out[k].saleId.value) == out[k].saleId.value) &&
            (forall a, b :: 0 <= a < b < |out| ==> out[a].saleId != out[b].saleId)
  {
    ValidOutput(t, parse);
    NormaliserUppercasesId(parse);
    SelectedIdsDistinct(t.rows, Normaliser(parse));
  }

  /**
   * Sale_ID duplicates are dropped before the Product, Amount and Date filters: when the first
   * row with an id does not survive those filters, no row with that id is valid.
   */
  lemma FirstOccurrenceShadows(t: Table<RawSale>, parse: DateParser, i: nat)
    requires CleanValid(t, parse).Ok? && i < |t.rows|
    requires FirstOfItsId(t.rows, i) && !Complete(NormaliseRow(t.rows[i], parse))
    ensures forall k :: 0 <= k < |CleanValid(t, parse).value.rows| ==>
              CleanValid(t, parse).value.rows[k].saleId != Some(Upper(t.rows[i].saleId.value))
  {
    ValidOutput(t, parse);
    NormaliserUppercasesId(parse);
    SelectedShadowed(t.rows, Normaliser(parse), i);
  }

  /** The batch is refused at line 79 when a row reaching it has an amount `float()` rejects. */
  lemma RejectedAmountRefusesBatch(t: Table<RawSale>, parse: DateParser, i: nat)
    requires i < |t.rows| && Reaches(t.rows, i) && Unparseable(t.rows[i])
    requires SaleIdColumn in t.columns && ProductColumn in t.columns && AmountColumn in t.columns
    ensures CleanValid(t, parse).Err? && CleanValid(t, parse).error.UnparseableAmount?
  {
    CleanValidCharacterised(t, parse);
  }

  /**
   * An amount that reads as NaN (`nan`, `NaNUSD`) raises nothing at line 79: the row is left
   * without an amount, so line 85 drops it and it is never valid.
   */
  lemma NanAmountDropped(r: RawSale, parse: DateParser)
    requires r.amount.Some? && ParseAmount(r.amount.value) == NotANumber
    ensures !Unparseable(r)
    ensures NormaliseRow(r, parse).amount.None? && !Complete(NormaliseRow(r, parse))
  {
    var text := r.amount.value;
    assert Prepare(r).amount == r.amount;
    assert ConvertAmount(text) == None;
    assert PriceRow(Prepare(r), ConvertAmount).amount == None;
    assert NormaliseRow(r, parse) == DateRow(PriceRow(Prepare(r), ConvertAmount), parse);
  }

  // ----- Product normalisation (line 67) -----

  /**
   * The product keeps exactly what follows the last `-` of its uppercased, stripped text: when
   * that text is `prefix + "-" + segment` and `segment` has no `-`, the product is `segment`.
   */
  lemma CleanProductSegment(p: string, prefix: string, segment: string)
    requires Strip(Upper(p)) == prefix + "-" + segment && '-' !in segment
    ensures CleanProduct(p) == segment
  {
    var u := Strip(Upper(p));
    assert u[|u| - |segment|..] == segment;
    assert u[|u| - |segment| - 1] == '-';
    LastSegmentUnique(u, segment);
  }

  /** A product without `-` is only uppercased and stripped. */
  lemma CleanProductWithoutDash(p: string)
    requires '-' !in Strip(Upper(p))
    ensures CleanProduct(p) == Strip(Upper(p))
  {
    var u := Strip(Upper(p));
    assert u[|u| - |u|..] == u;
    LastSegmentUnique(u, u);
  }

  /** Whitespace after the last `-` survives, since only the whole text is stripped. */
  lemma InnerSpaceKept(p: string)
    requires p == "x- b"
    ensures CleanProduct(p) == " B"
  {
    var u := Upper(p);
    assert u == "X- B" by {
      assert UpperChar('x') == 'X' && UpperChar('-') == '-';
      assert UpperChar(' ') == ' ' && UpperChar('b') == 'B';
      assert u[0] == 'X' && u[1] == '-' && u[2] == ' ' && u[3] == 'B';
    }
    assert !IsSpace(u[0]) && !IsSpace(u[3]);
    StripTrimmed(u);
    assert u == "X" + "-" + " B";
    CleanProductSegment(p, "X", " B");
  }
}

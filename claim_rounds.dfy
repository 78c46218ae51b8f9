/**
 * The shape of the invalid-sales classifier, for any row type and any rules: a first round claims
 * the rows with a missing value, a second claims, among the rows left, those with a bad amount,
 * and a third claims, among the rows still left, every row whose key occurs at least twice there.
 * Each round tags what it claims with its reason, and the report is the three buckets in order.
 * The per-row reference `ReasonIn` decides a row's reason on its own; the lemmas tie the two.
 */
module ClaimRounds {
  import opened Common
  import opened Sequences
  import opened Sales

  /** `~mask`: the complement of a row mask. */
  function Not<T>(p: T -> bool): T -> bool
  {
    x => !p(x)
  }

  /** `duplicated(keep=False)`: the key of `x` occurs at least twice among the keys of `s`. */
  predicate Repeated<T, K(==)>(s: seq<T>, key: T -> K, x: T)
  {
    Count(Map(s, key), key(x)) >= 2
  }

  function RepeatedIn<T, K(==)>(s: seq<T>, key: T -> K): T -> bool
  {
    x => Repeated(s, key, x)
  }

  function TagWith<T>(reason: Reason): T -> Flagged<T>
  {
    x => Flagged(x, reason)
  }

  /** A bucket with its `Reason` column filled in. */
  function Tag<T>(s: seq<T>, reason: Reason): seq<Flagged<T>>
  {
    Map(s, TagWith(reason))
  }

  function RowOf<T>(f: Flagged<T>): T
  {
    f.row
  }

  function HasReason<T>(reason: Reason): Flagged<T> -> bool
  {
    (f: Flagged<T>) => f.reason == reason
  }

  /** The three rounds: `N` from the whole batch, `A` from the rest, `D` from what is left. */
  function Rounds<T, K(==)>(df: seq<T>, missing: T -> bool, bad: T -> bool, key: T -> K): seq<Flagged<T>>
  {
    var present := Filter(df, Not(missing));
    var remaining := Filter(present, Not(bad));
    Tag(Filter(df, missing), MissingValue)
    + Tag(Filter(present, bad), BadCurrency)
    + Tag(Filter(remaining, RepeatedIn(remaining, key)), Duplicate)
  }

  // ----- The per-row reference -----

  /** Neither the first nor the second round claims the row. */
  function Unclaimed<T>(missing: T -> bool, bad: T -> bool): T -> bool
  {
    x => !missing(x) && !bad(x)
  }

  /** The reason a row of `df` gets, decided from the row and the unclaimed rows' keys. */
  function ReasonIn<T, K(==)>(df: seq<T>, missing: T -> bool, bad: T -> bool, key: T -> K, x: T): Option<Reason>
  {
    if missing(x) then Some(MissingValue)
    else if bad(x) then Some(BadCurrency)
    else if Repeated(Filter(df, Unclaimed(missing, bad)), key, x) then Some(Duplicate)
    else None
  }

  function ReasonMask<T, K(==)>(df: seq<T>, missing: T -> bool, bad: T -> bool, key: T -> K, reason: Reason): T -> bool
  {
    x => ReasonIn(df, missing, bad, key, x) == Some(reason)
  }

  function FlaggedMask<T, K(==)>(df: seq<T>, missing: T -> bool, bad: T -> bool, key: T -> K): T -> bool
  {
    x => ReasonIn(df, missing, bad, key, x).Some?
  }

  // ----- Lemmas -----

  /** The rows the third round sees are the unclaimed rows of the batch. */
  lemma UnclaimedChain<T>(df: seq<T>, missing: T -> bool, bad: T -> bool)
    ensures Filter(Filter(df, Not(missing)), Not(bad)) == Filter(df, Unclaimed(missing, bad))
  {
    FilterFilter(df, Not(missing), Not(bad), Unclaimed(missing, bad));
  }

  lemma TagRows<T>(s: seq<T>, reason: Reason)
    ensures Map(Tag(s, reason), RowOf) == s
  {
  }

  /** Selecting one reason from a tagged bucket keeps all of it or none of it. */
  lemma SelectFromBucket<T>(s: seq<T>, tag: Reason, reason: Reason)
    ensures Filter(Tag(s, tag), HasReason(reason)) == if tag == reason then Tag(s, tag) else []
  {
    if tag == reason {
      FilterAll(Tag(s, tag), HasReason(reason));
    } else {
      FilterNone(Tag(s, tag), HasReason(reason));
    }
  }

  /** The rows one round claims. */
  function Bucket<T, K(==)>(df: seq<T>, missing: T -> bool, bad: T -> bool, key: T -> K, reason: Reason): seq<T>
  {
    var present := Filter(df, Not(missing));
    var remaining := Filter(present, Not(bad));
    match reason
    case MissingValue => Filter(df, missing)
    case BadCurrency => Filter(present, bad)
    case Duplicate => Filter(remaining, RepeatedIn(remaining, key))
  }

  /** Each round's bucket is exactly the batch's rows of that round's reason, in order. */
  lemma BucketByRule<T, K>(df: seq<T>, missing: T -> bool, bad: T -> bool, key: T -> K, reason: Reason)
    ensures Filter(df, ReasonMask(df, missing, bad, key, reason)) == Bucket(df, missing, bad, key, reason)
  {
    var m := ReasonMask(df, missing, bad, key, reason);
    match reason
    case MissingValue =>
      FilterCongruent(df, m, missing);
    case BadCurrency =>
      FilterFilter(df, Not(missing), bad, m);
    case Duplicate =>
      UnclaimedChain(df, missing, bad);
      var rest := Filter(df, Unclaimed(missing, bad));
      FilterFilter(df, Unclaimed(missing, bad), RepeatedIn(rest, key), m);
  }

  /** The report is the three buckets, tagged, in order. */
  lemma RoundsBuckets<T, K>(df: seq<T>, missing: T -> bool, bad: T -> bool, key: T -> K)
    ensures Rounds(df, missing, bad, key) ==
              Tag(Bucket(df, missing, bad, key, MissingValue), MissingValue) +
              Tag(Bucket(df, missing, bad, key, BadCurrency), BadCurrency) +
              Tag(Bucket(df, missing, bad, key, Duplicate), Duplicate)
  {
  }

  /** Selecting one reason from the report gives that reason's bucket. */
  lemma RoundsSelect<T, K>(df: seq<T>, missing: T -> bool, bad: T -> bool, key: T -> K, reason: Reason)
    ensures Filter(Rounds(df, missing, bad, key), HasReason(reason)) == Tag(Bucket(df, missing, bad, key, reason), reason)
  {
    var tn := Tag(Bucket(df, missing, bad, key, MissingValue), MissingValue);
    var ta := Tag(Bucket(df, missing, bad, key, BadCurrency), BadCurrency);
    var td := Tag(Bucket(df, missing, bad, key, Duplicate), Duplicate);
    var h := HasReason(reason);
    RoundsBuckets(df, missing, bad, key);
    FilterConcat(tn + ta, td, h);
    FilterConcat(tn, ta, h);
    assert Filter(Rounds(df, missing, bad, key), h) == Filter(tn, h) + Filter(ta, h) + Filter(td, h);
    SelectFromBucket(Bucket(df, missing, bad, key, MissingValue), MissingValue, reason);
    SelectFromBucket(Bucket(df, missing, bad, key, BadCurrency), BadCurrency, reason);
    SelectFromBucket(Bucket(df, missing, bad, key, Duplicate), Duplicate, reason);
    var none: seq<Flagged<T>> := [];
    match reason
    case MissingValue =>
      assert tn + none + none == tn;
    case BadCurrency =>
      assert none + ta + none == ta;
    case Duplicate =>
      assert none + none + td == td;
  }

  /**
   * The rows reported with a given reason are exactly, in input order, the rows the reference
   * gives that reason.
   */
  lemma RoundsBucketExact<T, K>(df: seq<T>, missing: T -> bool, bad: T -> bool, key: T -> K, reason: Reason)
    ensures Map(Filter(Rounds(df, missing, bad, key), HasReason(reason)), RowOf) ==
              Filter(df, ReasonMask(df, missing, bad, key, reason))
  {
    RoundsSelect(df, missing, bad, key, reason);
    BucketByRule(df, missing, bad, key, reason);
    TagRows(Bucket(df, missing, bad, key, reason), reason);
  }

  function Rank(reason: Reason): nat
  {
    match reason
    case MissingValue => 0
    case BadCurrency => 1
    case Duplicate => 2
  }

  /** The reason of the report's row `k`: which of the three buckets `k` falls in. */
  lemma RoundsReasonAt<T, K>(df: seq<T>, missing: T -> bool, bad: T -> bool, key: T -> K, k: nat)
    requires k < |Rounds(df, missing, bad, key)|
    ensures var present := Filter(df, Not(missing));
            var nn, na := |Filter(df, missing)|, |Filter(present, bad)|;
            Rank(Rounds(df, missing, bad, key)[k].reason) == if k < nn then 0 else if k < nn + na then 1 else 2
  {
    var present := Filter(df, Not(missing));
    var remaining := Filter(present, Not(bad));
    var n, a := Tag(Filter(df, missing), MissingValue), Tag(Filter(present, bad), BadCurrency);
    var d := Tag(Filter(remaining, RepeatedIn(remaining, key)), Duplicate);
    var out := Rounds(df, missing, bad, key);
    assert out == n + a + d;
    if k < |n| {
      assert out[k] == n[k];
    } else if k < |n| + |a| {
      assert out[k] == a[k - |n|];
    } else {
      assert out[k] == d[k - |n| - |a|];
    }
  }

  /** Every `N` row comes before every `A` row, which comes before every `D` row. */
  lemma RoundsInOrder<T, K>(df: seq<T>, missing: T -> bool, bad: T -> bool, key: T -> K)
    ensures var out := Rounds(df, missing, bad, key);
            forall i, j :: 0 <= i < j < |out| ==> Rank(out[i].reason) <= Rank(out[j].reason)
  {
    var out := Rounds(df, missing, bad, key);
    forall i, j | 0 <= i < j < |out|
      ensures Rank(out[i].reason) <= Rank(out[j].reason)
    {
      RoundsReasonAt(df, missing, bad, key, i);
      RoundsReasonAt(df, missing, bad, key, j);
    }
  }

  /** Every reported row is a row of the batch carrying the reason the reference gives it. */
  lemma RoundsReasonsAgree<T, K>(df: seq<T>, missing: T -> bool, bad: T -> bool, key: T -> K)
    ensures var out := Rounds(df, missing, bad, key);
            forall k :: 0 <= k < |out| ==>
              out[k].row in df && ReasonIn(df, missing, bad, key, out[k].row) == Some(out[k].reason)
  {
    var out := Rounds(df, missing, bad, key);
    forall k | 0 <= k < |out|
      ensures out[k].row in df && ReasonIn(df, missing, bad, key, out[k].row) == Some(out[k].reason)
    {
      var reason := out[k].reason;
      var h := HasReason(reason);
      var mine := Filter(df, ReasonMask(df, missing, bad, key, reason));
      RoundsBucketExact(df, missing, bad, key, reason);
      FilterMembers(out, h);
      FilterMembers(df, ReasonMask(df, missing, bad, key, reason));
      assert out[k] in Filter(out, h);
      var j :| 0 <= j < |Filter(out, h)| && Filter(out, h)[j] == out[k];
      assert Map(Filter(out, h), RowOf)[j] == out[k].row == mine[j];
    }
  }

  /** A row of the batch is reported with a reason exactly when the reference gives it that reason. */
  lemma RoundsClaim<T, K>(df: seq<T>, missing: T -> bool, bad: T -> bool, key: T -> K, x: T, reason: Reason)
    requires x in df
    ensures Flagged(x, reason) in Rounds(df, missing, bad, key) <==>
              ReasonIn(df, missing, bad, key, x) == Some(reason)
  {
    var out := Rounds(df, missing, bad, key);
    if Flagged(x, reason) in out {
      RoundsReasonsAgree(df, missing, bad, key);
      var k :| 0 <= k < |out| && out[k] == Flagged(x, reason);
    }
    if ReasonIn(df, missing, bad, key, x) == Some(reason) {
      var h := HasReason(reason);
      var m := ReasonMask(df, missing, bad, key, reason);
      var mine := Filter(df, m);
      RoundsBucketExact(df, missing, bad, key, reason);
      FilterMembers(df, m);
      assert x in mine;
      var j :| 0 <= j < |mine| && mine[j] == x;
      var picked := Filter(out, h);
      assert Map(picked, RowOf)[j] == x;
      assert picked[j] == Flagged(x, reason);
      FilterMembers(out, h);
      assert picked[j] in picked;
    }
  }

  /** The report's rows are the three buckets' rows, in order. */
  lemma RoundsRows<T, K>(df: seq<T>, missing: T -> bool, bad: T -> bool, key: T -> K)
    ensures var present := Filter(df, Not(missing));
            var remaining := Filter(present, Not(bad));
            Map(Rounds(df, missing, bad, key), RowOf) ==
              Filter(df, missing) + Filter(present, bad) + Filter(remaining, RepeatedIn(remaining, key))
  {
    var present := Filter(df, Not(missing));
    var remaining := Filter(present, Not(bad));
    var n, a, d := Filter(df, missing), Filter(present, bad), Filter(remaining, RepeatedIn(remaining, key));
    assert Rounds(df, missing, bad, key) == Tag(n, MissingValue) + Tag(a, BadCurrency) + Tag(d, Duplicate);
    MapConcat(Tag(n, MissingValue) + Tag(a, BadCurrency), Tag(d, Duplicate), RowOf);
    MapConcat(Tag(n, MissingValue), Tag(a, BadCurrency), RowOf);
    TagRows(n, MissingValue);
    TagRows(a, BadCurrency);
    TagRows(d, Duplicate);
  }

  /** Each row occurs in the report as often as in the batch if the reference flags it, else never. */
  lemma RoundsOccurrences<T, K>(df: seq<T>, missing: T -> bool, bad: T -> bool, key: T -> K, x: T)
    ensures multiset(Map(Rounds(df, missing, bad, key), RowOf))[x] ==
              if ReasonIn(df, missing, bad, key, x).Some? then multiset(df)[x] else 0
  {
    var present := Filter(df, Not(missing));
    var remaining := Filter(present, Not(bad));
    var rep := RepeatedIn(remaining, key);
    var n, a, d := Filter(df, missing), Filter(present, bad), Filter(remaining, rep);
    RoundsRows(df, missing, bad, key);
    assert multiset(n + a + d)[x] == multiset(n)[x] + multiset(a)[x] + multiset(d)[x];
    UnclaimedChain(df, missing, bad);
    FilterMultiset(df, missing, x);
    FilterMultiset(df, Not(missing), x);
    FilterMultiset(present, bad, x);
    FilterMultiset(df, Unclaimed(missing, bad), x);
    FilterMultiset(remaining, rep, x);
  }

  /**
   * The report is a partition of the flagged rows: each row the reference flags is reported as
   * many times as it occurs in the batch, and no other row is reported.
   */
  lemma RoundsPartition<T, K>(df: seq<T>, missing: T -> bool, bad: T -> bool, key: T -> K)
    ensures multiset(Map(Rounds(df, missing, bad, key), RowOf)) ==
              multiset(Filter(df, FlaggedMask(df, missing, bad, key)))
  {
    var flagged := FlaggedMask(df, missing, bad, key);
    var reported, expected := multiset(Map(Rounds(df, missing, bad, key), RowOf)), multiset(Filter(df, flagged));
    forall x
      ensures reported[x] == expected[x]
    {
      RoundsOccurrences(df, missing, bad, key, x);
      FilterMultiset(df, flagged, x);
    }
    MultisetsAgree(reported, expected);
  }

  /** The report never has more rows than the batch. */
  lemma RoundsAtMostInput<T, K>(df: seq<T>, missing: T -> bool, bad: T -> bool, key: T -> K)
    ensures |Rounds(df, missing, bad, key)| <= |df|
  {
    var present := Filter(df, Not(missing));
    var remaining := Filter(present, Not(bad));
    RoundsRows(df, missing, bad, key);
    FilterLengths(df, missing, Not(missing));
    FilterLengths(present, bad, Not(bad));
  }

  /**
   * The third round claims every occurrence of a key that occurs at least twice among the
   * unclaimed rows, and no occurrence of any other key.
   */
  lemma RoundsDuplicates<T, K>(df: seq<T>, missing: T -> bool, bad: T -> bool, key: T -> K, k: K)
    ensures var rest := Count(Map(Filter(df, Unclaimed(missing, bad)), key), k);
            Count(Map(Map(Filter(Rounds(df, missing, bad, key), HasReason(Duplicate)), RowOf), key), k) ==
              if rest >= 2 then rest else 0
  {
    var present := Filter(df, Not(missing));
    var remaining := Filter(present, Not(bad));
    UnclaimedChain(df, missing, bad);
    RoundsBucketExact(df, missing, bad, key, Duplicate);
    BucketByRule(df, missing, bad, key, Duplicate);
    var rest := Count(Map(remaining, key), k);
    CountFilteredKeys(remaining, key, RepeatedIn(remaining, key), k, rest >= 2);
  }
}

/**
 * A group-by in the manner of `DataFrame.groupby(keys).agg(...)`: the distinct keys of a
 * sequence, the members of each key's group, and weighted totals over the groups. Elements
 * without a key (a NaN in a key column) belong to no group, as with pandas' default
 * `dropna=True`.
 */
module Grouping {
  import opened Common
  import opened Sequences

  /** The elements that belong to the group of `k`. */
  function InGroup<T, K(==)>(key: T -> Option<K>, k: K): T -> bool
  {
    x => key(x) == Some(k)
  }

  /** The elements that belong to some group. */
  function Keyed<T, K>(key: T -> Option<K>): T -> bool
  {
    x => key(x).Some?
  }

  /** The elements whose key is one of `ks`. */
  function KeyIn<T, K(==)>(key: T -> Option<K>, ks: seq<K>): T -> bool
  {
    x => key(x).Some? && key(x).value in ks
  }

  /** The distinct keys of `s`, each once, in the order of their first occurrence. */
  function GroupKeys<T, K(==,!new)>(s: seq<T>, key: T -> Option<K>): (ks: seq<K>)
    ensures Distinct(ks)
    ensures forall k :: k in ks <==> exists i :: 0 <= i < |s| && key(s[i]) == Some(k)
    decreases |s|
  {
    if s == [] then []
    else
      var ks := GroupKeys(s[..|s| - 1], key);
      var k := key(s[|s| - 1]);
      assert forall i :: 0 <= i < |s| - 1 ==> s[..|s| - 1][i] == s[i];
      if k.Some? && k.value !in ks then ks + [k.value] else ks
  }

  /** Sum of `w` over the elements of `s`. */
  function Total<T>(s: seq<T>, w: T -> int): int
    decreases |s|
  {
    if s == [] then 0 else Total(s[..|s| - 1], w) + w(s[|s| - 1])
  }

  /** The weight that counts elements. */
  function One<T>(): T -> int
  {
    _ => 1
  }

  /** The weight that sums the numbers themselves. */
  function AsIs(): int -> int
  {
    x => x
  }

  /** The sum of `w` over the group of `k`: the aggregate one summary row holds. */
  function GroupTotal<T, K(==)>(s: seq<T>, key: T -> Option<K>, w: T -> int): K -> int
  {
    k => Total(Filter(s, InGroup(key, k)), w)
  }

  /** The smallest of `xs`, `None` when there is none (the NaN of `min` over an empty group). */
  function Least(xs: seq<int>): (m: Option<int>)
    ensures m.Some? <==> xs != []
    ensures m.Some? ==> m.value in xs && forall i :: 0 <= i < |xs| ==> m.value <= xs[i]
    decreases |xs|
  {
    if xs == [] then None
    else
      var m := Least(xs[..|xs| - 1]);
      var x := xs[|xs| - 1];
      assert forall i :: 0 <= i < |xs| - 1 ==> xs[..|xs| - 1][i] == xs[i];
      if m.Some? && m.value <= x then m else Some(x)
  }

  lemma TotalAppend<T>(s: seq<T>, x: T, w: T -> int)
    ensures Total(s + [x], w) == Total(s, w) + w(x)
  {
    assert (s + [x])[..|s|] == s;
  }

  /** Counting is totalling the weight one. */
  lemma {:induction false} TotalOne<T>(s: seq<T>)
    ensures Total(s, One()) == |s|
    decreases |s|
  {
    if s != [] {
      TotalOne(s[..|s| - 1]);
    }
  }

  /** Totalling a mapped sequence is totalling the composed weight. */
  lemma {:induction false} TotalMap<T, U>(s: seq<T>, f: T -> U, w: U -> int, wf: T -> int)
    requires forall x :: wf(x) == w(f(x))
    ensures Total(Map(s, f), w) == Total(s, wf)
    decreases |s|
  {
    if s != [] {
      var s' := s[..|s| - 1];
      TotalMap(s', f, w, wf);
      assert Map(s, f) == Map(s', f) + [f(s[|s| - 1])];
      TotalAppend(Map(s', f), f(s[|s| - 1]), w);
    }
  }

  /** Two predicates that never hold together split the total of their union. */
  lemma {:induction false} FilterDisjointTotal<T>(s: seq<T>, p: T -> bool, q: T -> bool,
                                                   pq: T -> bool, w: T -> int)
    requires forall x :: pq(x) == (p(x) || q(x))
    requires forall x :: !(p(x) && q(x))
    ensures Total(Filter(s, pq), w) == Total(Filter(s, p), w) + Total(Filter(s, q), w)
    decreases |s|
  {
    if s != [] {
      var s', x := s[..|s| - 1], s[|s| - 1];
      assert s == s' + [x];
      FilterDisjointTotal(s', p, q, pq, w);
      FilterAppend(s', x, p);
      FilterAppend(s', x, q);
      FilterAppend(s', x, pq);
      if p(x) {
        assert !q(x) && pq(x);
        assert Filter(s, q) == Filter(s', q);
        TotalAppend(Filter(s', p), x, w);
        TotalAppend(Filter(s', pq), x, w);
      } else if q(x) {
        assert pq(x);
        assert Filter(s, p) == Filter(s', p);
        TotalAppend(Filter(s', q), x, w);
        TotalAppend(Filter(s', pq), x, w);
      } else {
        assert Filter(s, pq) == Filter(s', pq) && Filter(s, p) == Filter(s', p);
        assert Filter(s, q) == Filter(s', q);
      }
    }
  }

  /** Filtering by two predicates that agree on the elements present gives the same sequence. */
  lemma {:induction false} FilterAgreeOn<T>(s: seq<T>, p: T -> bool, q: T -> bool)
    requires forall i :: 0 <= i < |s| ==> p(s[i]) == q(s[i])
    ensures Filter(s, p) == Filter(s, q)
    decreases |s|
  {
    if s != [] {
      FilterAgreeOn(s[..|s| - 1], p, q);
    }
  }

  /**
   * The group totals over distinct keys add up to the total over every element whose key is one
   * of them: no element is counted twice and none is lost.
   */
  lemma {:induction false} GroupTotals<T, K>(s: seq<T>, key: T -> Option<K>, ks: seq<K>, w: T -> int)
    requires Distinct(ks)
    ensures Total(ks, GroupTotal(s, key, w)) == Total(Filter(s, KeyIn(key, ks)), w)
    decreases |ks|
  {
    if ks == [] {
      FilterNone(s, KeyIn(key, ks));
    } else {
      var init, k := ks[..|ks| - 1], ks[|ks| - 1];
      assert ks == init + [k];
      assert Distinct(init);
      GroupTotals(s, key, init, w);
      forall x
        ensures KeyIn(key, ks)(x) == (KeyIn(key, init)(x) || InGroup(key, k)(x))
        ensures !(KeyIn(key, init)(x) && InGroup(key, k)(x))
      {
      }
      FilterDisjointTotal(s, KeyIn(key, init), InGroup(key, k), KeyIn(key, ks), w);
    }
  }

  /**
   * The groups are formed by `groupBy`, the totals taken over the elements `key` keeps (the same key,
   * or none when the element has nothing to aggregate): the group totals over the keys of `s` add
   * up to the total over every element `key` keeps.
   */
  lemma GroupTotalsCover<T, K(!new)>(s: seq<T>, groupBy: T -> Option<K>, key: T -> Option<K>, w: T -> int)
    requires forall x :: key(x).Some? ==> groupBy(x) == key(x)
    ensures Total(GroupKeys(s, groupBy), GroupTotal(s, key, w)) == Total(Filter(s, Keyed(key)), w)
  {
    var ks := GroupKeys(s, groupBy);
    GroupTotals(s, key, ks, w);
    forall i | 0 <= i < |s|
      ensures KeyIn(key, ks)(s[i]) == Keyed(key)(s[i])
    {
      if key(s[i]).Some? {
        assert groupBy(s[i]) == key(s[i]);
      }
    }
    FilterAgreeOn(s, KeyIn(key, ks), Keyed(key));
  }

  /** The weights of a group are the weights of the elements of `s` with that key. */
  lemma GroupWeights<T, K>(s: seq<T>, key: T -> Option<K>, w: T -> int, k: K)
    ensures forall x :: x in Map(Filter(s, InGroup(key, k)), w) <==>
              exists j :: 0 <= j < |s| && key(s[j]) == Some(k) && w(s[j]) == x
  {
    var g := Filter(s, InGroup(key, k));
    FilterMembers(s, InGroup(key, k));
    forall x | x in Map(g, w)
      ensures exists j :: 0 <= j < |s| && key(s[j]) == Some(k) && w(s[j]) == x
    {
      var a :| 0 <= a < |g| && w(g[a]) == x;
      assert g[a] in g;
      var j :| 0 <= j < |s| && s[j] == g[a];
      assert InGroup(key, k)(s[j]);
    }
    forall j | 0 <= j < |s| && key(s[j]) == Some(k)
      ensures w(s[j]) in Map(g, w)
    {
      assert InGroup(key, k)(s[j]);
      assert s[j] in g;
      var a :| 0 <= a < |g| && g[a] == s[j];
      assert Map(g, w)[a] == w(s[j]);
    }
  }

  /** Two elements with the same key form one group holding both. */
  lemma PairOneGroup<T, K(!new)>(x: T, y: T, key: T -> Option<K>, k: K, w: T -> int)
    requires key(x) == Some(k) && key(y) == Some(k)
    ensures GroupKeys([x, y], key) == [k]
    ensures Filter([x, y], InGroup(key, k)) == [x, y]
    ensures Total([x, y], w) == w(x) + w(y)
  {
    PairKeys(x, y, key, k);
    PairFilter(x, y, InGroup(key, k));
    PairTotal(x, y, w);
  }

  lemma PairKeys<T, K(!new)>(x: T, y: T, key: T -> Option<K>, k: K)
    requires key(x) == Some(k) && key(y) == Some(k)
    ensures GroupKeys([x, y], key) == [k]
  {
    assert [x, y][..1] == [x];
    assert [x][..0] == [];
    var one := GroupKeys([x], key);
    assert one == GroupKeys([], key) + [k];
  }

  lemma PairFilter<T>(x: T, y: T, p: T -> bool)
    requires p(x) && p(y)
    ensures Filter([x, y], p) == [x, y]
  {
    assert [x, y][..1] == [x];
    FilterSingleton(x, p);
  }

  lemma PairTotal<T>(x: T, y: T, w: T -> int)
    ensures Total([x, y], w) == w(x) + w(y)
  {
    assert [x, y][..1] == [x];
    assert [x][..0] == [];
    assert Total([x], w) == Total([], w) + w(x);
  }

  lemma LeastOfPair(a: int, b: int)
    ensures Least([a, b]) == Some(if a <= b then a else b)
  {
    assert [a, b][..1] == [a];
  }
}

/** Collection helpers the core relies on: the Cartesian product of a list of
    lists, insertion-ordered de-duplication, and the three-way map difference. */
module Collect {

  /** Every way of picking one element from each list, in list order; the
      first list varies slowest. The product of no lists is one empty pick. */
  function Distribute<T>(xss: seq<seq<T>>): seq<seq<T>>
  {
    if xss == [] then [[]] else PrependEach(xss[0], Distribute(xss[1..]))
  }

  /** Each head in turn, put in front of every tail. */
  function PrependEach<T>(heads: seq<T>, tails: seq<seq<T>>): seq<seq<T>>
  {
    if heads == [] then []
    else seq(|tails|, i requires 0 <= i < |tails| => [heads[0]] + tails[i]) + PrependEach(heads[1..], tails)
  }

  /** The product of the lengths of the lists. */
  function Product<T>(xss: seq<seq<T>>): nat
  {
    if xss == [] then 1 else |xss[0]| * Product(xss[1..])
  }

  lemma {:induction false} PrependEachMember<T>(heads: seq<T>, tails: seq<seq<T>>, c: seq<T>)
    ensures c in PrependEach(heads, tails) <==> |c| > 0 && c[0] in heads && c[1..] in tails
  {
    if heads != [] {
      var firsts := seq(|tails|, i requires 0 <= i < |tails| => [heads[0]] + tails[i]);
      PrependEachMember(heads[1..], tails, c);
      if c in firsts {
        var i :| 0 <= i < |tails| && firsts[i] == c;
        assert c[1..] == tails[i];
      }
      if |c| > 0 && c[0] == heads[0] && c[1..] in tails {
        var i :| 0 <= i < |tails| && tails[i] == c[1..];
        assert firsts[i] == c;
      }
    }
  }

  lemma {:induction false} PrependEachLength<T>(heads: seq<T>, tails: seq<seq<T>>)
    ensures |PrependEach(heads, tails)| == |heads| * |tails|
  {
    if heads != [] {
      PrependEachLength(heads[1..], tails);
      calc {
        |PrependEach(heads, tails)|;
        |tails| + (|heads| - 1) * |tails|;
        |heads| * |tails|;
      }
    }
  }

  /** The product has one pick per combination: as many as the product of the lengths. */
  lemma {:induction false} DistributeLength<T>(xss: seq<seq<T>>)
    ensures |Distribute(xss)| == Product(xss)
  {
    if xss != [] {
      DistributeLength(xss[1..]);
      PrependEachLength(xss[0], Distribute(xss[1..]));
    }
  }

  /** A pick belongs to the product exactly when it takes one element from each list. */
  lemma {:induction false} DistributeMember<T>(xss: seq<seq<T>>, c: seq<T>)
    ensures c in Distribute(xss) <==> |c| == |xss| && forall i | 0 <= i < |xss| :: c[i] in xss[i]
  {
    if xss == [] {
    } else {
      PrependEachMember(xss[0], Distribute(xss[1..]), c);
      if |c| > 0 {
        DistributeMember(xss[1..], c[1..]);
        if |c| == |xss| && forall i | 0 <= i < |xss| :: c[i] in xss[i] {
          forall i | 0 <= i < |xss| - 1 ensures c[1..][i] in xss[1..][i] {
            assert c[i + 1] in xss[i + 1];
          }
        }
        if c[0] in xss[0] && c[1..] in Distribute(xss[1..]) {
          forall i | 0 <= i < |xss| ensures c[i] in xss[i] {
            if i > 0 { assert c[1..][i - 1] in xss[1..][i - 1]; }
          }
        }
      }
    }
  }

  /** True when no element occurs twice. */
  predicate Distinct<T(==)>(xs: seq<T>)
  {
    forall i, j | 0 <= i < j < |xs| :: xs[i] != xs[j]
  }

  /** A sequence without repeats has as many elements as its set of elements. */
  lemma {:induction false} DistinctCardinality<T>(xs: seq<T>)
    requires Distinct(xs)
    ensures |set x | x in xs| == |xs|
  {
    if xs != [] {
      var init := xs[..|xs| - 1];
      assert Distinct(init);
      DistinctCardinality(init);
      assert (set x | x in xs) == (set x | x in init) + {xs[|xs| - 1]};
      assert xs[|xs| - 1] !in init;
    }
  }

  /** The elements of `xs` in order of first occurrence, each once (the
      iteration order of a linked hash set built from `xs`). */
  function Dedupe<T(==,!new)>(xs: seq<T>): (r: seq<T>)
    ensures forall x :: x in r <==> x in xs
    ensures Distinct(r)
  {
    if xs == [] then []
    else
      var p := Dedupe(xs[..|xs| - 1]);
      var x := xs[|xs| - 1];
      assert forall y :: y in xs <==> y in xs[..|xs| - 1] || y == x;
      if x in p then p else p + [x]
  }

  /** De-duplicating a prefix gives a prefix of the de-duplicated whole. */
  lemma {:induction false} DedupePrefix<T(!new)>(xs: seq<T>, k: nat)
    requires k <= |xs|
    ensures Dedupe(xs[..k]) <= Dedupe(xs)
    decreases |xs| - k
  {
    if k < |xs| {
      DedupePrefix(xs, k + 1);
      assert xs[..k + 1][..k] == xs[..k];
    } else {
      assert xs[..k] == xs;
    }
  }

  /** A value lands at the position equal to the number of distinct values
      seen before its first occurrence: first occurrence wins, input order kept. */
  lemma DedupeFirstOccurrence<T(!new)>(xs: seq<T>, k: nat)
    requires k < |xs| && xs[k] !in xs[..k]
    ensures |Dedupe(xs[..k])| < |Dedupe(xs)|
    ensures Dedupe(xs)[|Dedupe(xs[..k])|] == xs[k]
  {
    assert xs[..k + 1][..k] == xs[..k];
    assert Dedupe(xs[..k + 1]) == Dedupe(xs[..k]) + [xs[k]];
    DedupePrefix(xs, k + 1);
  }

  /** Guava's three-way map difference of `left` against `right`. */
  datatype MapDifference<K, V> = MapDifference(
    onlyOnLeft: map<K, V>,
    onlyOnRight: map<K, V>,
    differing: map<K, (V, V)>)

  /** Splits the keys of two maps into only-left, only-right and present in
      both with different values; keys with equal values appear nowhere. */
  function Difference<K(!new), V(==)>(left: map<K, V>, right: map<K, V>): (d: MapDifference<K, V>)
  {
    MapDifference(
      map k | k in left && k !in right :: left[k],
      map k | k in right && k !in left :: right[k],
      map k | k in left && k in right && left[k] != right[k] :: (left[k], right[k]))
  }

  /** The two one-sided parts of a difference, for maps whose values carry
      nothing: only the entries present on one side matter. */
  function KeyDifference<K(!new), V>(left: map<K, V>, right: map<K, V>): MapDifference<K, V>
  {
    MapDifference(
      map k | k in left && k !in right :: left[k],
      map k | k in right && k !in left :: right[k],
      map[])
  }

  /** The three parts of a difference are pairwise disjoint and, with the
      keys whose two values agree, cover the keys of both maps. */
  lemma DifferenceParts<K(!new), V>(left: map<K, V>, right: map<K, V>)
    ensures var d := Difference(left, right);
      d.onlyOnLeft.Keys !! d.onlyOnRight.Keys && d.onlyOnLeft.Keys !! d.differing.Keys &&
      d.onlyOnRight.Keys !! d.differing.Keys
    ensures var d := Difference(left, right);
      d.onlyOnLeft.Keys + d.onlyOnRight.Keys + d.differing.Keys + Agreeing(left, right) == left.Keys + right.Keys
  {
  }

  /** The keys present in both maps with the same value. */
  function Agreeing<K(!new), V(==)>(left: map<K, V>, right: map<K, V>): set<K>
  {
    set k | k in left && k in right && left[k] == right[k]
  }

  /** The left value of every differing entry. */
  function LeftValues<K, V>(m: map<K, (V, V)>): (r: map<K, V>)
  {
    map k | k in m :: m[k].0
  }
}

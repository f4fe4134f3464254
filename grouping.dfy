/**
 * `groupby(keys)[column].mean()` with exact arithmetic. A group mean is kept
 * as the pair (sum, count); rows whose key has a missing part are dropped,
 * as pandas does by default (`dropna=True`).
 */
module Grouping {
  import opened Wrappers
  import opened Tables

  /** The mean of a group, kept exactly as the sum of its values and the number of its rows. */
  datatype Mean = Mean(sum: int, count: nat)
  {
    /** The value pandas reports, without rounding. */
    function Value(): real
      requires count > 0
    {
      sum as real / count as real
    }
  }

  /** The keys present in the table; a row whose key is missing contributes none. */
  function GroupKeys<R(==,!new), K(!new)>(rows: seq<R>, key: R -> Option<K>): (ks: set<K>)
    ensures forall k :: k in ks <==> exists x :: x in rows && key(x) == Some(k)
  {
    set x | x in rows && key(x).Some? :: key(x).value
  }

  /** The mask selecting the rows of the group `k`. */
  function InGroup<R, K(==)>(key: R -> Option<K>, k: K): R -> bool
  {
    (x: R) => key(x) == Some(k)
  }

  /** The rows of the group `k`, in table order. */
  function Members<R(!new), K(==,!new)>(rows: seq<R>, key: R -> Option<K>, k: K): (g: seq<R>)
    ensures forall x :: x in g <==> x in rows && key(x) == Some(k)
  {
    Filter(rows, InGroup(key, k))
  }

  /**
   * The grouped mean of the column `val`: one entry per key present, holding
   * the sum of `val` over the key's rows and their number.
   */
  function GroupMean<R(==,!new), K(==,!new)>(rows: seq<R>, key: R -> Option<K>, val: R -> int): (g: map<K, Mean>)
    ensures forall k :: k in g <==> exists x :: x in rows && key(x) == Some(k)
    ensures forall k :: k in g ==> g[k].count == |Members(rows, key, k)| > 0
    ensures forall k :: k in g ==> g[k].sum == Sum(Members(rows, key, k), val)
  {
    var g := map k | k in GroupKeys(rows, key) :: Mean(Sum(Members(rows, key, k), val), |Members(rows, key, k)|);
    assert forall k :: k in g ==> |Members(rows, key, k)| > 0 by {
      forall k | k in g ensures |Members(rows, key, k)| > 0 {
        var x :| x in rows && key(x) == Some(k);
        assert x in Members(rows, key, k);
      }
    }
    g
  }

  /** An exact mean lies between two bounds when count times each bound brackets the sum. */
  lemma MeanValueBetween(m: Mean, lo: int, hi: int)
    requires m.count > 0
    requires m.count * lo <= m.sum <= m.count * hi
    ensures lo as real <= m.Value() <= hi as real
  {
    var c := m.count as real;
    assert (m.count * lo) as real == c * lo as real;
    assert (m.count * hi) as real == c * hi as real;
    assert m.Value() * c == m.sum as real;
  }

  /**
   * Every group mean lies between the smallest and the largest value of its
   * group: there are rows of the group attaining each bound.
   */
  lemma GroupMeanBetween<R(!new), K(!new)>(rows: seq<R>, key: R -> Option<K>, val: R -> int, k: K)
    requires k in GroupMean(rows, key, val)
    ensures exists lo, hi ::
      && lo in rows && key(lo) == Some(k)
      && hi in rows && key(hi) == Some(k)
      && val(lo) as real <= GroupMean(rows, key, val)[k].Value() <= val(hi) as real
      && (forall x :: x in rows && key(x) == Some(k) ==> val(lo) <= val(x) <= val(hi))
  {
    var lo, hi := GroupExtremes(rows, key, val, k);
  }

  /** The rows of the group `k` with the smallest and the largest value, bracketing its mean. */
  lemma GroupExtremes<R(!new), K(!new)>(rows: seq<R>, key: R -> Option<K>, val: R -> int, k: K)
      returns (lo: R, hi: R)
    requires k in GroupMean(rows, key, val)
    ensures lo in rows && key(lo) == Some(k)
    ensures hi in rows && key(hi) == Some(k)
    ensures val(lo) as real <= GroupMean(rows, key, val)[k].Value() <= val(hi) as real
    ensures forall x :: x in rows && key(x) == Some(k) ==> val(lo) <= val(x) <= val(hi)
  {
    var g := Members(rows, key, k);
    var m := GroupMean(rows, key, val)[k];
    SumBetween(g, val, MinOf(g, val), MaxOf(g, val));
    MeanValueBetween(m, MinOf(g, val), MaxOf(g, val));
    lo :| lo in g && val(lo) == MinOf(g, val);
    hi :| hi in g && val(hi) == MaxOf(g, val);
  }

  /** There are never more groups than rows. */
  lemma {:induction false} GroupCountBound<R(!new), K(!new)>(rows: seq<R>, key: R -> Option<K>)
    ensures |GroupKeys(rows, key)| <= |rows|
  {
    if rows != [] {
      var rest := GroupKeys(rows[1..], key);
      GroupCountBound(rows[1..], key);
      var head: set<K> := if key(rows[0]).Some? then {key(rows[0]).value} else {};
      forall k | k in GroupKeys(rows, key) ensures k in rest + head {
        var x :| x in rows && key(x) == Some(k);
        if x != rows[0] {
          assert x in rows[1..];
        }
      }
      assert GroupKeys(rows, key) <= rest + head;
      SubsetCard(GroupKeys(rows, key), rest + head);
    }
  }

  lemma SubsetCard<K>(a: set<K>, b: set<K>)
    requires a <= b
    ensures |a| <= |b|
  {
    assert b == a + (b - a);
  }
}

/**
 * Grouping by a key the way a JavaScript `Map` does it: the distinct
 * keys in the order of their first occurrence, and for each key the 1-based
 * positions of the items that carry it.
 */
module Grouping {
  import Seqs

  predicate Distinct<K(==)>(s: seq<K>) {
    forall i, j :: 0 <= i < j < |s| ==> s[i] != s[j]
  }

  predicate Increasing(s: seq<nat>) {
    forall i, j :: 0 <= i < j < |s| ==> s[i] < s[j]
  }

  /** The distinct keys, in the order in which each first appears. */
  function Order<K(==,!new)>(keys: seq<K>): (r: seq<K>)
    ensures forall k :: k in r <==> k in keys
    ensures Distinct(r)
  {
    if keys == [] then []
    else
      var o := Order(keys[..|keys| - 1]);
      var k := keys[|keys| - 1];
      assert forall x :: x in keys <==> x in keys[..|keys| - 1] || x == k;
      if k in o then o else o + [k]
  }

  /**
   * The 1-based positions at which `k` occurs in `keys`, ascending; that it
   * lists every such position and in ascending order is proved separately
   * in `PositionsComplete` and `PositionsIncreasing`.
   */
  function Positions<K(==)>(keys: seq<K>, k: K): (r: seq<nat>)
    ensures forall i :: 0 <= i < |r| ==> 1 <= r[i] <= |keys| && keys[r[i] - 1] == k
    ensures (r != []) == (k in keys)
  {
    if keys == [] then []
    else
      var pre := keys[..|keys| - 1];
      var q := Positions(pre, k);
      assert forall i :: 0 <= i < |pre| ==> keys[i] == pre[i];
      q + (if keys[|keys| - 1] == k then [|keys|] else [])
  }

  /** Every position of `k` is listed. */
  lemma PositionsComplete<K>(keys: seq<K>, k: K)
    ensures forall i :: 0 <= i < |keys| && keys[i] == k ==> i + 1 in Positions(keys, k)
  {
    forall i | 0 <= i < |keys| && keys[i] == k ensures i + 1 in Positions(keys, k) {
      PositionListed(keys, k, i);
    }
  }

  lemma {:induction false} PositionListed<K>(keys: seq<K>, k: K, i: nat)
    requires i < |keys| && keys[i] == k
    ensures i + 1 in Positions(keys, k)
  {
    var pre := keys[..|keys| - 1];
    var q := Positions(pre, k);
    var extra := if keys[|keys| - 1] == k then [|keys|] else [];
    assert Positions(keys, k) == q + extra by {
      Seqs.LastSplit(keys);
      PositionsSnoc(pre, keys[|keys| - 1], k);
    }
    if i < |pre| {
      assert pre[i] == k;
      PositionListed(pre, k, i);
    }
    Seqs.InConcat(q, extra, i + 1);
  }

  /** Position `i + 1` is listed for `k` exactly when `k` is the key there. */
  lemma PositionsMember<K>(keys: seq<K>, k: K, i: nat)
    requires i < |keys|
    ensures i + 1 in Positions(keys, k) <==> keys[i] == k
  {
    var ps := Positions(keys, k);
    if i + 1 in ps {
      var x :| 0 <= x < |ps| && ps[x] == i + 1;
    }
    PositionsComplete(keys, k);
  }

  /** A key given twice forms one group holding both positions. */
  lemma Twice<K(!new)>(k: K)
    ensures Order([k, k]) == [k] && Positions([k, k], k) == [1, 2]
  {
    TwiceOrder(k);
    TwicePositions(k);
  }

  lemma TwiceOrder<K(!new)>(k: K)
    ensures Order([k, k]) == [k]
  {
    assert [k, k] == [k] + [k];
    OrderSnoc([k], k);
  }

  lemma TwicePositions<K>(k: K)
    ensures Positions([k, k], k) == [1, 2]
  {
    assert [k, k] == [k] + [k];
    PositionsSnoc([k], k, k);
  }

  /** The positions are listed in ascending order. */
  lemma {:induction false} PositionsIncreasing<K>(keys: seq<K>, k: K)
    ensures Increasing(Positions(keys, k))
  {
    if keys != [] {
      var pre := keys[..|keys| - 1];
      PositionsIncreasing(pre, k);
      Seqs.LastSplit(keys);
      PositionsSnoc(pre, keys[|keys| - 1], k);
    }
  }

  /** Sum over `ks` of the number of positions of each key in `keys`. */
  function SumCounts<K(==)>(keys: seq<K>, ks: seq<K>): nat {
    if ks == [] then 0 else SumCounts(keys, ks[..|ks| - 1]) + |Positions(keys, ks[|ks| - 1])|
  }

  /** Every item is counted in exactly one group: the group sizes add up to the item count. */
  lemma {:induction false} GroupSizesSum<K(!new)>(keys: seq<K>)
    ensures SumCounts(keys, Order(keys)) == |keys|
  {
    if keys != [] {
      var pre := keys[..|keys| - 1];
      var x := keys[|keys| - 1];
      var o := Order(pre);
      assert SumCounts(keys, o) == |pre| + Seqs.Count(o, x) by {
        GroupSizesSum(pre);
        Seqs.LastSplit(keys);
        SumCountsSnoc(pre, x, o);
      }
      if x in o {
        CountDistinct(o, x);
      } else {
        assert |Positions(keys, x)| == 1 by {
          Seqs.LastSplit(keys);
          PositionsSnoc(pre, x, x);
        }
        SumCountsLast(keys, o, x);
      }
    }
  }

  lemma SumCountsLast<K>(keys: seq<K>, ks: seq<K>, x: K)
    ensures SumCounts(keys, ks + [x]) == SumCounts(keys, ks) + |Positions(keys, x)|
  {
    Seqs.SnocParts(ks, x);
  }

  /** Appending an item with key `x` adds one to the sum for each copy of `x` in `ks`. */
  lemma {:induction false} SumCountsSnoc<K>(pre: seq<K>, x: K, ks: seq<K>)
    ensures SumCounts(pre + [x], ks) == SumCounts(pre, ks) + Seqs.Count(ks, x)
  {
    if ks != [] {
      var init := ks[..|ks| - 1];
      var y := ks[|ks| - 1];
      SumCountsSnoc(pre, x, init);
      PositionsSnoc(pre, x, y);
      assert ks == init + [y];
      Seqs.CountConcat(init, [y], x);
    }
  }

  lemma OrderSnoc<K(!new)>(pre: seq<K>, x: K)
    ensures Order(pre + [x]) == if x in Order(pre) then Order(pre) else Order(pre) + [x]
  {
    Seqs.SnocParts(pre, x);
  }

  lemma PositionsSnoc<K>(pre: seq<K>, x: K, k: K)
    ensures Positions(pre + [x], k) == Positions(pre, k) + (if x == k then [|pre| + 1] else [])
  {
    var keys := pre + [x];
    assert Positions(keys, k) == Positions(keys[..|keys| - 1], k) + (if keys[|keys| - 1] == k then [|keys|] else []);
    Seqs.SnocParts(pre, x);
  }

  /** How the first position of a key moves when an item is appended. */
  lemma FirstPositionSnoc<K>(pre: seq<K>, x: K, k: K)
    requires k in pre + [x]
    ensures k != x ==> k in pre
    ensures k in pre ==> Positions(pre + [x], k)[0] == Positions(pre, k)[0] <= |pre|
    ensures k !in pre ==> Positions(pre + [x], k) == [|pre| + 1]
    ensures |Positions(pre + [x], k)| == |Positions(pre, k)| + (if k == x then 1 else 0)
  {
    PositionsSnoc(pre, x, k);
    if k in pre {
      assert Positions(pre, k)[0] in Positions(pre, k);
    }
  }

  lemma {:induction false} CountDistinct<K>(s: seq<K>, x: K)
    requires Distinct(s) && x in s
    ensures Seqs.Count(s, x) == 1
  {
    if s[0] != x {
      CountDistinct(s[1..], x);
    } else {
      assert x !in s[1..];
    }
  }

  /**
   * The groups partition the items: each item lies in the group of its own
   * key, and in no other.
   */
  lemma Partition<K(!new)>(keys: seq<K>)
    ensures forall i :: 0 <= i < |keys| ==> keys[i] in Order(keys) && i + 1 in Positions(keys, keys[i])
    ensures forall i, j, p ::
      0 <= i < |Order(keys)| && 0 <= j < |Order(keys)| &&
      p in Positions(keys, Order(keys)[i]) && p in Positions(keys, Order(keys)[j])
      ==> i == j
  {
    PartitionCovers(keys);
    PartitionDisjoint(keys);
  }

  lemma PartitionCovers<K(!new)>(keys: seq<K>)
    ensures forall i :: 0 <= i < |keys| ==> keys[i] in Order(keys) && i + 1 in Positions(keys, keys[i])
  {
    forall i | 0 <= i < |keys| ensures keys[i] in Order(keys) && i + 1 in Positions(keys, keys[i]) {
      PositionsComplete(keys, keys[i]);
    }
  }

  lemma PartitionDisjoint<K(!new)>(keys: seq<K>)
    ensures forall i, j, p ::
      0 <= i < |Order(keys)| && 0 <= j < |Order(keys)| &&
      p in Positions(keys, Order(keys)[i]) && p in Positions(keys, Order(keys)[j])
      ==> i == j
  {
    var o := Order(keys);
    forall i, j, p | 0 <= i < |o| && 0 <= j < |o| && p in Positions(keys, o[i]) && p in Positions(keys, o[j])
      ensures i == j
    {
      var a := Positions(keys, o[i]);
      var b := Positions(keys, o[j]);
      var x :| 0 <= x < |a| && a[x] == p;
      var y :| 0 <= y < |b| && b[y] == p;
      assert o[i] == keys[p - 1] == o[j];
    }
  }

  /**
   * The key order is the order of first occurrence: an earlier key's first
   * position precedes a later key's.
   */
  lemma {:induction false} FirstOccurrenceOrder<K(!new)>(keys: seq<K>)
    ensures forall i, j :: 0 <= i < j < |Order(keys)| ==>
      Positions(keys, Order(keys)[i])[0] < Positions(keys, Order(keys)[j])[0]
  {
    if keys != [] {
      var pre := keys[..|keys| - 1];
      var x := keys[|keys| - 1];
      Seqs.LastSplit(keys);
      FirstOccurrenceOrder(pre);
      FirstOccurrenceStep(pre, x);
    }
  }

  /** Appending one key keeps the first-occurrence order of the groups. */
  lemma FirstOccurrenceStep<K(!new)>(pre: seq<K>, x: K)
    requires forall i, j :: 0 <= i < j < |Order(pre)| ==>
      Positions(pre, Order(pre)[i])[0] < Positions(pre, Order(pre)[j])[0]
    ensures forall i, j :: 0 <= i < j < |Order(pre + [x])| ==>
      Positions(pre + [x], Order(pre + [x])[i])[0] < Positions(pre + [x], Order(pre + [x])[j])[0]
  {
    var o := Order(pre);
    var r := Order(pre + [x]);
    assert r == if x in o then o else o + [x] by {
      OrderSnoc(pre, x);
    }
    forall i, j | 0 <= i < j < |r|
      ensures Positions(pre + [x], r[i])[0] < Positions(pre + [x], r[j])[0]
    {
      assert r[i] == o[i] && r[i] in pre;
      FirstPositionSnoc(pre, x, r[i]);
      FirstPositionSnoc(pre, x, r[j]);
      if j < |o| {
        assert r[j] == o[j];
      }
    }
  }
}

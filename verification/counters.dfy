/** A model of Python's `collections.Counter` as the log analyzer uses it: a
    dictionary from keys to counts that remembers the order in which keys were
    first inserted, reads 0 for a missing key, and is only ever incremented by
    one (`counter[key] += 1`). */
module Counters {
  import opened Wrappers

  datatype Entry<K> = Entry(key: K, count: nat)

  /** Entries in insertion order. */
  type Counter<K> = seq<Entry<K>>

  /** Every key appears once and every stored count is positive, which holds
      of any counter built from the empty one by `Add`. */
  ghost predicate Valid<K>(c: Counter<K>) {
    && (forall i, j :: 0 <= i < j < |c| ==> c[i].key != c[j].key)
    && (forall i :: 0 <= i < |c| ==> c[i].count > 0)
  }

  /** The keys present in the counter. */
  ghost function Keys<K>(c: Counter<K>): set<K> {
    set i | 0 <= i < |c| :: c[i].key
  }

  /** Position of the first entry for `k` at or after `from`. */
  function IndexFrom<K(==)>(c: Counter<K>, k: K, from: nat): (r: Option<nat>)
    requires from <= |c|
    ensures r.Some? ==> from <= r.value < |c| && c[r.value].key == k
    ensures r.Some? ==> forall j :: from <= j < r.value ==> c[j].key != k
    ensures r.None? ==> forall j :: from <= j < |c| ==> c[j].key != k
    decreases |c| - from
  {
    if from == |c| then None
    else if c[from].key == k then Some(from)
    else IndexFrom(c, k, from + 1)
  }

  function IndexOf<K(==)>(c: Counter<K>, k: K): Option<nat> {
    IndexFrom(c, k, 0)
  }

  /** `counter[k]`: the stored count, or 0 when `k` was never added. */
  function Get<K(==)>(c: Counter<K>, k: K): nat {
    match IndexOf(c, k)
    case Some(i) => c[i].count
    case None => 0
  }

  /** The sum of all counts. */
  function Total<K>(c: Counter<K>): nat {
    if |c| == 0 then 0 else Total(c[..|c| - 1]) + c[|c| - 1].count
  }

  /** `counter[k] += 1`: bumps an existing entry in place, or appends a new
      entry with count 1 at the end of the insertion order. */
  function Add<K(==, !new)>(c: Counter<K>, k: K): (r: Counter<K>)
    ensures Get(r, k) == Get(c, k) + 1
    ensures forall j :: j != k ==> Get(r, j) == Get(c, j)
    ensures Total(r) == Total(c) + 1
    ensures Keys(r) == Keys(c) + {k}
    ensures Valid(c) ==> Valid(r)
    ensures |c| <= |r| <= |c| + 1
    ensures forall i :: 0 <= i < |c| ==> r[i].key == c[i].key
  {
    match IndexOf(c, k)
    case Some(i) =>
      var r := c[i := Entry(k, c[i].count + 1)];
      SameKeysSameIndex(c, r);
      TotalUpdate(c, i, Entry(k, c[i].count + 1));
      assert Keys(r) == Keys(c) by {
        assert forall m :: 0 <= m < |c| ==> r[m].key == c[m].key;
      }
      r
    case None =>
      var r := c + [Entry(k, 1)];
      AppendIndex(c, Entry(k, 1));
      assert r[..|r| - 1] == c;
      r
  }

  /** `IndexOf` finds exactly the first position holding the key. */
  lemma IndexOfIs<K>(c: Counter<K>, k: K, r: Option<nat>)
    requires r.Some? ==> r.value < |c| && c[r.value].key == k
    requires r.Some? ==> forall j :: 0 <= j < r.value ==> c[j].key != k
    requires r.None? ==> forall j :: 0 <= j < |c| ==> c[j].key != k
    ensures IndexOf(c, k) == r
  {
  }

  /** Two counters with the same keys at the same positions agree on where
      every key is found. */
  lemma SameKeysSameIndex<K>(c: Counter<K>, d: Counter<K>)
    requires |c| == |d|
    requires forall m :: 0 <= m < |c| ==> c[m].key == d[m].key
    ensures forall j :: IndexOf(c, j) == IndexOf(d, j)
  {
    forall j
      ensures IndexOf(c, j) == IndexOf(d, j)
    {
      IndexOfIs(d, j, IndexOf(c, j));
    }
  }

  /** Appending an entry does not move any existing key, and the new key is
      found at the end exactly when it was absent. */
  lemma AppendIndex<K>(c: Counter<K>, e: Entry<K>)
    requires IndexOf(c, e.key).None?
    ensures IndexOf(c + [e], e.key) == Some(|c|)
    ensures forall j :: j != e.key ==> IndexOf(c + [e], j) == IndexOf(c, j)
  {
    var d := c + [e];
    forall j | j != e.key
      ensures IndexOf(d, j) == IndexOf(c, j)
    {
      IndexOfIs(d, j, IndexOf(c, j));
    }
    IndexOfIs(d, e.key, Some(|c|));
  }

  /** Replacing one entry changes the total by the difference of counts. */
  lemma {:induction false} TotalUpdate<K>(c: Counter<K>, i: nat, e: Entry<K>)
    requires i < |c|
    ensures Total(c[i := e]) + c[i].count == Total(c) + e.count
    decreases |c|
  {
    var d := c[i := e];
    var n := |c| - 1;
    if i < n {
      assert d[..n] == c[..n][i := e];
      TotalUpdate(c[..n], i, e);
    } else {
      assert d[..n] == c[..n];
    }
  }

  /** In a valid counter a key reads a positive count exactly when it was
      added, and 0 otherwise. */
  lemma GetPositiveIffKey<K>(c: Counter<K>, k: K)
    requires Valid(c)
    ensures Get(c, k) > 0 <==> k in Keys(c)
  {
    if k in Keys(c) {
      var i :| 0 <= i < |c| && c[i].key == k;
      assert IndexOf(c, k).Some?;
    }
  }

  /** The first entry with the largest count: `Counter.most_common(1)`
      picks the maximum with `max`, which keeps the earliest of equal
      candidates, so a tie goes to the key inserted first. */
  ghost predicate IsFirstMaximum<K>(c: Counter<K>, i: nat) {
    && i < |c|
    && (forall j :: 0 <= j < |c| ==> c[j].count <= c[i].count)
    && (forall j :: 0 <= j < i ==> c[j].count < c[i].count)
  }

  /** There is only one first maximum, so the contract of `MostCommon`
      determines its answer. */
  lemma FirstMaximumUnique<K>(c: Counter<K>, i: nat, j: nat)
    requires IsFirstMaximum(c, i) && IsFirstMaximum(c, j)
    ensures i == j
  {
    assert c[i].count == c[j].count;
  }

  /** `most_common(1)`: the position of the most common entry, or `None` for
      an empty counter (where Python returns an empty list). */
  method MostCommon<K>(c: Counter<K>) returns (r: Option<nat>)
    ensures r.None? <==> |c| == 0
    ensures r.Some? ==> IsFirstMaximum(c, r.value)
  {
    if |c| == 0 {
      return None;
    }
    var best := 0;
    var i := 1;
    while i < |c|
      invariant 1 <= i <= |c|
      invariant best < i
      invariant forall j :: 0 <= j < i ==> c[j].count <= c[best].count
      invariant forall j :: 0 <= j < best ==> c[j].count < c[best].count
    {
      if c[i].count > c[best].count {
        best := i;
      }
      i := i + 1;
    }
    return Some(best);
  }
}

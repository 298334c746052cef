/** Python dictionaries as the model sees them: the sequence of their
    (key, value) entries in insertion order. Iteration order decides
    first-match rules in the analytics, so it is kept explicit. */
module OrderedMap {
  import opened Wrappers

  // Every dictionary the analytics use is keyed by a track id, an `int`.

  predicate HasKey<V>(m: seq<(int, V)>, k: int) {
    exists i :: 0 <= i < |m| && m[i].0 == k
  }

  /** No key occurs twice, as in any Python dict. */
  predicate DistinctKeys<V>(m: seq<(int, V)>) {
    forall i, j :: 0 <= i < j < |m| ==> m[i].0 != m[j].0
  }

  /** The keys in iteration order (`list(m.keys())`). */
  function Keys<V>(m: seq<(int, V)>): (ks: seq<int>)
    ensures |ks| == |m|
    ensures forall i :: 0 <= i < |m| ==> ks[i] == m[i].0
    ensures forall k :: k in ks <==> HasKey(m, k)
  {
    seq(|m|, i requires 0 <= i < |m| => m[i].0)
  }

  /** The position of the first entry with key `k`, if any. */
  function IndexOf<V>(m: seq<(int, V)>, k: int): (r: Option<nat>)
    ensures r.None? <==> !HasKey(m, k)
    ensures r.Some? ==> r.value < |m| && m[r.value].0 == k
    ensures r.Some? ==> forall j :: 0 <= j < r.value ==> m[j].0 != k
  {
    if |m| == 0 then None
    else if m[0].0 == k then Some(0)
    else
      match IndexOf(m[1..], k)
      case None =>
        assert forall i :: 1 <= i < |m| ==> m[i] == m[1..][i - 1];
        None
      case Some(i) =>
        assert forall j :: 1 <= j < i + 1 ==> m[j] == m[1..][j - 1];
        Some(i + 1)
  }

  /** `m.get(k)`: the value stored under `k`, or nothing. The value is the
      one in the first entry with key `k`, the only one in a real dict. */
  function Get<V>(m: seq<(int, V)>, k: int): (r: Option<V>)
    ensures r.None? <==> !HasKey(m, k)
    ensures forall i :: 0 <= i < |m| && m[i].0 == k && (forall j :: 0 <= j < i ==> m[j].0 != k) ==> r == Some(m[i].1)
  {
    match IndexOf(m, k)
    case None => None
    case Some(i) => Some(m[i].1)
  }

  /** The first entry with key `k` sits at position `i`. */
  lemma IndexOfIs<V>(m: seq<(int, V)>, k: int, i: nat)
    requires i < |m| && m[i].0 == k
    requires forall j :: 0 <= j < i ==> m[j].0 != k
    ensures IndexOf(m, k) == Some(i)
  {
  }

  /** Two entry sequences with the same keys in the same order find every key
      at the same position. */
  lemma SameKeysSameIndex<V>(m: seq<(int, V)>, m': seq<(int, V)>, k: int)
    requires |m| == |m'|
    requires forall i :: 0 <= i < |m| ==> m[i].0 == m'[i].0
    ensures IndexOf(m, k) == IndexOf(m', k)
  {
    match IndexOf(m, k)
    case None =>
    case Some(i) => IndexOfIs(m', k, i);
  }

  /** Overwriting the first entry with key `k` changes only what `k` maps to. */
  lemma ReplaceAt<V>(m: seq<(int, V)>, k: int, v: V, i: nat)
    requires IndexOf(m, k) == Some(i)
    ensures Get(m[i := (k, v)], k) == Some(v)
    ensures forall k' :: k' != k ==> Get(m[i := (k, v)], k') == Get(m, k')
    ensures forall k' :: HasKey(m, k') ==> HasKey(m[i := (k, v)], k')
  {
    var r := m[i := (k, v)];
    IndexOfIs(r, k, i);
    forall k' | k' != k
      ensures Get(r, k') == Get(m, k')
    {
      SameKeysSameIndex(m, r, k');
    }
    forall k' | HasKey(m, k')
      ensures HasKey(r, k')
    {
      var j :| 0 <= j < |m| && m[j].0 == k';
      assert r[j].0 == k';
    }
  }

  /** Appending an entry for an absent key `k` changes only what `k` maps to. */
  lemma Append<V>(m: seq<(int, V)>, k: int, v: V)
    requires !HasKey(m, k)
    ensures Get(m + [(k, v)], k) == Some(v)
    ensures forall k' :: k' != k ==> Get(m + [(k, v)], k') == Get(m, k')
    ensures forall k' :: HasKey(m, k') ==> HasKey(m + [(k, v)], k')
  {
    var r := m + [(k, v)];
    IndexOfIs(r, k, |m|);
    forall k' | k' != k
      ensures Get(r, k') == Get(m, k')
    {
      match IndexOf(m, k')
      case Some(j) => IndexOfIs(r, k', j);
      case None =>
    }
    forall k' | HasKey(m, k')
      ensures HasKey(r, k')
    {
      var j :| 0 <= j < |m| && m[j].0 == k';
      assert r[j].0 == k';
    }
  }

  /** `m[k] = v`: replaces the value in place when `k` is present (its
      position in the iteration order is kept), appends otherwise. */
  function Put<V>(m: seq<(int, V)>, k: int, v: V): (r: seq<(int, V)>)
    ensures Get(r, k) == Some(v)
    ensures forall k' :: k' != k ==> Get(r, k') == Get(m, k')
    ensures HasKey(m, k) ==> Keys(r) == Keys(m)
    ensures !HasKey(m, k) ==> Keys(r) == Keys(m) + [k]
    ensures forall k' :: HasKey(m, k') ==> HasKey(r, k')
    ensures DistinctKeys(m) ==> DistinctKeys(r)
  {
    match IndexOf(m, k)
    case Some(i) =>
      ReplaceAt(m, k, v, i);
      m[i := (k, v)]
    case None =>
      Append(m, k, v);
      m + [(k, v)]
  }
}

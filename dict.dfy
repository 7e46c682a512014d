/** A JavaScript plain object used as a dictionary, where the order of
    `Object.keys`/`Object.entries` is observable: an association list in
    insertion order. Assigning an existing key keeps its position; assigning
    a new key appends it. */
module Dict {
  import opened Wrappers

  type Dict<V> = seq<(string, V)>

  function Keys<V>(d: Dict<V>): (ks: seq<string>)
    ensures |ks| == |d| && forall i :: 0 <= i < |d| ==> ks[i] == d[i].0
  {
    seq(|d|, i requires 0 <= i < |d| => d[i].0)
  }

  predicate HasKey<V>(d: Dict<V>, k: string) {
    exists i :: 0 <= i < |d| && d[i].0 == k
  }

  predicate DistinctKeys<V>(d: Dict<V>) {
    forall i, j :: 0 <= i < j < |d| ==> d[i].0 != d[j].0
  }

  /** The position of key `k`: its first occurrence, or None. */
  function IndexOf<V>(d: Dict<V>, k: string): (r: Option<nat>)
    ensures r.Some? ==> r.value < |d| && d[r.value].0 == k
    ensures r.Some? ==> forall j :: 0 <= j < r.value ==> d[j].0 != k
    ensures r.None? ==> forall j :: 0 <= j < |d| ==> d[j].0 != k
  {
    IndexFrom(d, k, 0)
  }

  function IndexFrom<V>(d: Dict<V>, k: string, i: nat): (r: Option<nat>)
    requires i <= |d| && forall j :: 0 <= j < i ==> d[j].0 != k
    ensures r.Some? ==> r.value < |d| && d[r.value].0 == k
    ensures r.Some? ==> forall j :: 0 <= j < r.value ==> d[j].0 != k
    ensures r.None? ==> forall j :: 0 <= j < |d| ==> d[j].0 != k
    decreases |d| - i
  {
    if i == |d| then None
    else if d[i].0 == k then Some(i)
    else IndexFrom(d, k, i + 1)
  }

  /** `d[k]`, or None when the key is absent. */
  function Get<V>(d: Dict<V>, k: string): (r: Option<V>)
    ensures r.None? <==> !HasKey(d, k)
    ensures r.Some? ==> exists i :: 0 <= i < |d| && d[i] == (k, r.value)
    ensures DistinctKeys(d) ==> forall i :: 0 <= i < |d| && d[i].0 == k ==> r == Some(d[i].1)
  {
    match IndexOf(d, k)
    case None => None
    case Some(i) => Some(d[i].1)
  }

  /** The first position holding `k` is what `IndexOf` returns. */
  lemma IndexOfIs<V>(d: Dict<V>, k: string, r: Option<nat>)
    requires r.Some? ==> r.value < |d| && d[r.value].0 == k
    requires r.Some? ==> forall j :: 0 <= j < r.value ==> d[j].0 != k
    requires r.None? ==> forall j :: 0 <= j < |d| ==> d[j].0 != k
    ensures IndexOf(d, k) == r
  {
  }

  /** Two dictionaries with the same key at every position look keys up at
      the same position. */
  lemma IndexOfSameKeys<V>(d: Dict<V>, e: Dict<V>, k: string)
    requires Keys(d) == Keys(e)
    ensures IndexOf(d, k) == IndexOf(e, k)
  {
    assert forall j :: 0 <= j < |d| ==> d[j].0 == Keys(d)[j] == e[j].0;
    IndexOfIs(e, k, IndexOf(d, k));
  }

  /** `d[k] = v`. */
  function Put<V>(d: Dict<V>, k: string, v: V): (r: Dict<V>)
    ensures Get(r, k) == Some(v)
    ensures forall k' :: k' != k ==> Get(r, k') == Get(d, k')
    ensures HasKey(d, k) ==> Keys(r) == Keys(d)
    ensures !HasKey(d, k) ==> Keys(r) == Keys(d) + [k]
    ensures DistinctKeys(d) ==> DistinctKeys(r)
  {
    match IndexOf(d, k)
    case Some(i) =>
      var r := d[i := (k, v)];
      assert Keys(r) == Keys(d);
      IndexOfSameKeys(r, d, k);
      forall k' | k' != k ensures Get(r, k') == Get(d, k') {
        IndexOfSameKeys(r, d, k');
      }
      r
    case None =>
      var r := d + [(k, v)];
      IndexOfIs(r, k, Some(|d|));
      forall k' | k' != k ensures Get(r, k') == Get(d, k') {
        IndexOfIs(r, k', IndexOf(d, k'));
      }
      r
  }

  /** After `d[k] = v` the keys present are those of `d` and `k`. */
  lemma PutHasKey<V>(d: Dict<V>, k: string, v: V, k': string)
    ensures HasKey(Put(d, k, v), k') <==> HasKey(d, k') || k' == k
  {
    assert Get(Put(d, k, v), k').Some? <==> HasKey(Put(d, k, v), k');
  }

  /** A key other than the last one is looked up as if the last entry were
      not there. */
  lemma GetDropLast<V>(d: Dict<V>, k: string)
    requires d != [] && d[|d| - 1].0 != k
    ensures HasKey(d, k) <==> HasKey(d[..|d| - 1], k)
    ensures Get(d, k) == Get(d[..|d| - 1], k)
  {
    var init := d[..|d| - 1];
    assert forall i :: 0 <= i < |init| ==> init[i] == d[i];
    IndexOfIs(d, k, IndexOf(init, k));
  }

  /** Keys present in a dictionary are exactly those listed by `Keys`. */
  lemma HasKeyIffInKeys<V>(d: Dict<V>, k: string)
    ensures HasKey(d, k) <==> k in Keys(d)
  {
    if k in Keys(d) {
      var i :| 0 <= i < |d| && Keys(d)[i] == k;
    }
  }
}

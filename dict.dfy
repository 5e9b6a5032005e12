/**
 * A PHP array whose keys are strings: an ordered list of key/value pairs.
 * Assigning to a key that is present replaces its value in place; assigning
 * to a new key appends it. `array_merge` assigns every pair of its second
 * argument into the first, in order.
 */
module Dict {
  import opened Wrappers

  type Dict<V> = seq<(string, V)>

  /** The keys, in insertion order. */
  function Keys<V>(d: Dict<V>): (ks: seq<string>)
    ensures |ks| == |d|
    ensures forall i :: 0 <= i < |d| ==> ks[i] == d[i].0
  {
    seq(|d|, i requires 0 <= i < |d| => d[i].0)
  }

  /** No key occurs twice: what every PHP array satisfies. */
  predicate Unique<V>(d: Dict<V>) {
    forall i, j :: 0 <= i < j < |d| ==> d[i].0 != d[j].0
  }

  /** Position of the first pair with key `k`, or `|d|` when there is none. */
  function IndexOf<V>(d: Dict<V>, k: string): (i: nat)
    ensures i <= |d|
    ensures i < |d| ==> d[i].0 == k
    ensures forall j :: 0 <= j < i ==> d[j].0 != k
    ensures i == |d| <==> k !in Keys(d)
  {
    if d == [] then 0
    else if d[0].0 == k then 0
    else 1 + IndexOf(d[1..], k)
  }

  /** Replacing the value of a pair moves no key. */
  lemma IndexOfReplace<V>(d: Dict<V>, i: nat, v: V)
    requires i < |d|
    ensures Keys(d[i := (d[i].0, v)]) == Keys(d)
    ensures forall k :: IndexOf(d[i := (d[i].0, v)], k) == IndexOf(d, k)
  {
    var r := d[i := (d[i].0, v)];
    assert Keys(r) == Keys(d);
    forall k ensures IndexOf(r, k) == IndexOf(d, k) {
      var j, j' := IndexOf(r, k), IndexOf(d, k);
    }
  }

  /** Appending a pair leaves every other key where it was. */
  lemma IndexOfAppend<V>(d: Dict<V>, p: (string, V))
    ensures Keys(d + [p]) == Keys(d) + [p.0]
    ensures forall k :: k != p.0 ==> Get(d + [p], k) == Get(d, k)
  {
    assert Keys(d + [p]) == Keys(d) + [p.0];
    forall k | k != p.0 ensures Get(d + [p], k) == Get(d, k) {
      var i := IndexOf(d, k);
      if i < |d| {
        assert (d + [p])[i] == d[i];
        assert IndexOf(d + [p], k) == i;
      }
    }
  }

  /** `$d[$k] ?? null`. */
  function Get<V>(d: Dict<V>, k: string): (r: Option<V>)
    ensures r.Some? <==> k in Keys(d)
  {
    var i := IndexOf(d, k);
    if i < |d| then Some(d[i].1) else None
  }

  /** `$d[$k] = $v`: replaces the value in place, or appends a new pair. */
  function Set<V>(d: Dict<V>, k: string, v: V): (r: Dict<V>)
    ensures Get(r, k) == Some(v)
    ensures forall k' :: k' != k ==> Get(r, k') == Get(d, k')
    ensures Keys(r) == if k in Keys(d) then Keys(d) else Keys(d) + [k]
    ensures Unique(d) ==> Unique(r)
  {
    var i := IndexOf(d, k);
    if i < |d| then
      var r := d[i := (k, v)];
      IndexOfReplace(d, i, v);
      assert IndexOf(r, k) == i;
      r
    else
      var r := d + [(k, v)];
      IndexOfAppend(d, (k, v));
      assert Keys(r)[|d|] == k;
      r
  }

  /** Assigning into an empty array gives the one pair. */
  lemma SetEmpty<V>(k: string, v: V)
    ensures Set([], k, v) == [(k, v)]
  {
  }

  /** `array_merge($a, $b)` for string keys. */
  function Merge<V>(a: Dict<V>, b: Dict<V>): (r: Dict<V>)
    ensures |a| <= |r| && Keys(r)[..|a|] == Keys(a)
    decreases |b|
  {
    if b == [] then a
    else
      var last := b[|b| - 1];
      var init := Merge(a, b[..|b| - 1]);
      var r := Set(init, last.0, last.1);
      SetKeepsPrefix(init, last.0, last.1, |a|);
      r
  }

  /** `Set` leaves every prefix of the keys in place. */
  lemma SetKeepsPrefix<V>(d: Dict<V>, k: string, v: V, n: nat)
    requires n <= |d|
    ensures n <= |Set(d, k, v)| && Keys(Set(d, k, v))[..n] == Keys(d)[..n]
  {
    var ks := Keys(Set(d, k, v));
    assert ks[..|d|] == Keys(d) by {
      if k !in Keys(d) {
        assert ks == Keys(d) + [k];
      }
    }
    assert ks[..n] == ks[..|d|][..n];
  }

  /** The value of the last pair of `b` with key `k`. */
  function Last<V>(b: Dict<V>, k: string): Option<V>
    decreases |b|
  {
    if b == [] then None
    else if b[|b| - 1].0 == k then Some(b[|b| - 1].1)
    else Last(b[..|b| - 1], k)
  }

  /** The keys of `kb` not in `ka`, each once, in the order they first occur in `kb`. */
  function Appended(ka: seq<string>, kb: seq<string>): seq<string>
    decreases |kb|
  {
    if kb == [] then []
    else
      var earlier := Appended(ka, kb[..|kb| - 1]);
      if kb[|kb| - 1] in ka + earlier then earlier else earlier + [kb[|kb| - 1]]
  }

  /** Where `Set` writes: over the first pair with the key, or at the end. */
  lemma SetShape<V>(d: Dict<V>, k: string, v: V)
    ensures IndexOf(d, k) < |d| ==> Set(d, k, v) == d[IndexOf(d, k) := (k, v)]
    ensures IndexOf(d, k) == |d| ==> Set(d, k, v) == d + [(k, v)]
  {
  }

  /** Assigning the same key twice keeps only the second value, in the first one's place. */
  lemma SetTwice<V>(d: Dict<V>, k: string, v1: V, v2: V)
    ensures Set(Set(d, k, v1), k, v2) == Set(d, k, v2)
  {
    SetShape(d, k, v1);
    SetShape(d, k, v2);
    if IndexOf(d, k) < |d| {
      SetTwiceFound(d, k, v1, v2);
      SetShape(Set(d, k, v1), k, v2);
    } else {
      SetTwiceNew(d, k, v1, v2);
    }
  }

  /** `IndexOf` is the first position holding the key. */
  lemma IndexOfFirst<V>(d: Dict<V>, k: string, i: nat)
    requires i <= |d| && (i < |d| ==> d[i].0 == k)
    requires forall j :: 0 <= j < i ==> d[j].0 != k
    ensures IndexOf(d, k) == i
  {
    var n := IndexOf(d, k);
    assert n < |d| ==> d[n].0 == k;
  }

  lemma SetTwiceFound<V>(d: Dict<V>, k: string, v1: V, v2: V)
    requires IndexOf(d, k) < |d|
    ensures var i := IndexOf(d, k);
      IndexOf(d[i := (k, v1)], k) == i && d[i := (k, v1)][i := (k, v2)] == d[i := (k, v2)]
  {
    var i := IndexOf(d, k);
    IndexOfFirst(d[i := (k, v1)], k, i);
  }

  lemma SetTwiceNew<V>(d: Dict<V>, k: string, v1: V, v2: V)
    requires IndexOf(d, k) == |d|
    ensures Set(d + [(k, v1)], k, v2) == d + [(k, v2)]
  {
    var once := d + [(k, v1)];
    IndexOfFirst(once, k, |d|);
    SetShape(once, k, v2);
  }

  /** After `array_merge`, a key takes the value of its last pair in `b`, or keeps its value from `a`. */
  lemma {:induction false} MergeGet<V>(a: Dict<V>, b: Dict<V>, k: string)
    ensures Get(Merge(a, b), k) == if Last(b, k).Some? then Last(b, k) else Get(a, k)
    decreases |b|
  {
    if b != [] {
      MergeGet(a, b[..|b| - 1], k);
    }
  }

  /** `array_merge` keeps the keys of `a` in their order and appends the new keys of `b` in `b`'s order. */
  lemma {:induction false} MergeKeys<V>(a: Dict<V>, b: Dict<V>)
    ensures Keys(Merge(a, b)) == Keys(a) + Appended(Keys(a), Keys(b))
    decreases |b|
  {
    if b != [] {
      var init := b[..|b| - 1];
      MergeKeys(a, init);
      assert Keys(init) == Keys(b)[..|b| - 1];
    }
  }

  lemma {:induction false} MergeUnique<V>(a: Dict<V>, b: Dict<V>)
    requires Unique(a)
    ensures Unique(Merge(a, b))
    decreases |b|
  {
    if b != [] {
      MergeUnique(a, b[..|b| - 1]);
    }
  }

  /** In a PHP array the last pair with a key is its only pair. */
  lemma LastIsGet<V>(b: Dict<V>, k: string)
    requires Unique(b)
    ensures Last(b, k) == Get(b, k)
    decreases |b|
  {
    if b != [] {
      var init := b[..|b| - 1];
      assert Unique(init);
      LastIsGet(init, k);
      if b[|b| - 1].0 == k {
        IndexOfFirst(b, k, |b| - 1);
      } else {
        var i := IndexOf(init, k);
        IndexOfFirst(b, k, if i < |init| then i else |b|);
      }
    }
  }

  /** Merging a PHP array into an empty one gives it back unchanged. */
  lemma {:induction false} MergeIntoEmpty<V>(b: Dict<V>)
    requires Unique(b)
    ensures Merge([], b) == b
    decreases |b|
  {
    if b != [] {
      var init := b[..|b| - 1];
      assert Unique(init);
      MergeIntoEmpty(init);
      var last := b[|b| - 1];
      assert last.0 !in Keys(init) by {
        assert forall j :: 0 <= j < |init| ==> init[j].0 != last.0;
      }
      SetShape(init, last.0, last.1);
      assert Merge([], b) == Set(init, last.0, last.1);
      assert init + [last] == b;
    }
  }
}

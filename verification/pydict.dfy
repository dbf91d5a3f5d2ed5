/** Python's insertion-ordered `dict`, as a sequence of (key, value) pairs.

    generate.py relies on three dict behaviours that matter for the wire
    contract: iteration follows insertion order, `d[k] = v` on a key that is
    already present keeps the key's position and replaces only its value,
    and a comprehension over a list whose keys repeat therefore keeps the
    FIRST position and the LAST value of every key.
 */
module PyDict {
  import opened Errors

  type Dict<K, V> = seq<(K, V)>

  /** `list(d.keys())` */
  function Keys<K, V>(d: Dict<K, V>): (ks: seq<K>)
    ensures |ks| == |d|
    ensures forall i :: 0 <= i < |d| ==> ks[i] == d[i].0
  {
    seq(|d|, i requires 0 <= i < |d| => d[i].0)
  }

  /** `list(d.values())` */
  function Values<K, V>(d: Dict<K, V>): (vs: seq<V>)
    ensures |vs| == |d|
    ensures forall i :: 0 <= i < |d| ==> vs[i] == d[i].1
  {
    seq(|d|, i requires 0 <= i < |d| => d[i].1)
  }

  predicate Distinct<T(==)>(xs: seq<T>) {
    forall i, j :: 0 <= i < j < |xs| ==> xs[i] != xs[j]
  }

  /** Position of the first occurrence of `x`, or -1 when absent (Dart's
      `List.indexOf`, which the emitted code uses for every ordinal). */
  function IndexOf<T(==, !new)>(xs: seq<T>, x: T): (r: int)
    ensures -1 <= r < |xs|
    ensures r == -1 <==> x !in xs
    ensures 0 <= r ==> xs[r] == x && x !in xs[..r]
  {
    if |xs| == 0 then -1
    else if xs[0] == x then 0
    else
      var r := IndexOf(xs[1..], x);
      assert r >= 0 ==> xs[..r + 1] == [xs[0]] + xs[1..][..r];
      if r == -1 then -1 else r + 1
  }

  /** `d.get(k)`: the value stored under `k`, if any. */
  function Lookup<K(==, !new), V>(d: Dict<K, V>, k: K): Option<V>
  {
    var i := IndexOf(Keys(d), k);
    if i < 0 then None else Some(d[i].1)
  }

  /** `d[k] = v`: an existing key keeps its position, a new key goes last. */
  function Insert<K(==, !new), V>(d: Dict<K, V>, k: K, v: V): (r: Dict<K, V>)
    ensures Keys(r) == if k in Keys(d) then Keys(d) else Keys(d) + [k]
    ensures Lookup(r, k) == Some(v)
    ensures forall k' :: k' != k ==> Lookup(r, k') == Lookup(d, k')
    ensures forall e :: e in r ==> e in d || e == (k, v)
  {
    var i := IndexOf(Keys(d), k);
    if i < 0 then
      var r := d + [(k, v)];
      assert Keys(r) == Keys(d) + [k];
      r
    else
      var r := d[i := (k, v)];
      assert Keys(r) == Keys(d);
      forall e | e in r ensures e in d || e == (k, v) {
        var j :| 0 <= j < |r| && r[j] == e;
      }
      r
  }

  /** Storing the same value twice under a key is storing it once. */
  lemma InsertTwice<K(!new), V>(d: Dict<K, V>, k: K, v: V)
    ensures Insert(Insert(d, k, v), k, v) == Insert(d, k, v)
  {
    var r := Insert(d, k, v);
    var i := IndexOf(Keys(r), k);
    assert k in Keys(r);
    assert r[i] == (k, v);
  }

  /** `dict(ps)`, and every comprehension `{f(x): g(x) for x in xs}`: the
      pairs are inserted left to right. */
  function FromPairs<K(==, !new), V>(ps: seq<(K, V)>): Dict<K, V>
  {
    if |ps| == 0 then [] else Insert(FromPairs(ps[..|ps| - 1]), ps[|ps| - 1].0, ps[|ps| - 1].1)
  }

  /** Reference definition: the value of the last pair with key `k`. */
  function LastValue<K(==, !new), V>(ps: seq<(K, V)>, k: K): Option<V>
  {
    if |ps| == 0 then None
    else if ps[|ps| - 1].0 == k then Some(ps[|ps| - 1].1)
    else LastValue(ps[..|ps| - 1], k)
  }

  /** `LastValue` finds a value exactly for the keys that occur, and the
      value it finds is that of a pair no later pair shares the key with. */
  lemma {:induction false} LastValueSpec<K(!new), V>(ps: seq<(K, V)>, k: K)
    ensures LastValue(ps, k).Some? <==> exists i :: 0 <= i < |ps| && ps[i].0 == k
    ensures LastValue(ps, k).Some? ==>
      exists i :: 0 <= i < |ps| && ps[i] == (k, LastValue(ps, k).value) &&
        forall j :: i < j < |ps| ==> ps[j].0 != k
  {
    if |ps| > 0 {
      var init := ps[..|ps| - 1];
      LastValueSpec(init, k);
      if ps[|ps| - 1].0 != k && LastValue(init, k).Some? {
        var i :| 0 <= i < |init| && init[i] == (k, LastValue(init, k).value) &&
          forall j :: i < j < |init| ==> init[j].0 != k;
        assert ps[i] == init[i];
      }
    }
  }

  /** Reference definition: the elements of `xs` in order of first occurrence. */
  function Dedup<T(==, !new)>(xs: seq<T>): (r: seq<T>)
    ensures Distinct(r)
    ensures forall x :: x in r <==> x in xs
  {
    if |xs| == 0 then []
    else
      var p := Dedup(xs[..|xs| - 1]);
      var x := xs[|xs| - 1];
      assert forall y :: y in xs <==> y in xs[..|xs| - 1] || y == x by {
        assert xs == xs[..|xs| - 1] + [x];
      }
      if x in xs[..|xs| - 1] then p else p + [x]
  }

  /** The key sequence of a dict built from pairs is the first-occurrence
      order of the keys. */
  lemma {:induction false} FromPairsKeys<K(!new), V>(ps: seq<(K, V)>)
    ensures Keys(FromPairs(ps)) == Dedup(Keys(ps))
  {
    if |ps| > 0 {
      var init := ps[..|ps| - 1];
      FromPairsKeys(init);
      assert Keys(init) == Keys(ps)[..|ps| - 1];
    }
  }

  /** Looking a key up in a dict built from pairs finds the value of the
      LAST pair with that key. */
  lemma {:induction false} FromPairsLookup<K(!new), V>(ps: seq<(K, V)>, k: K)
    ensures Lookup(FromPairs(ps), k) == LastValue(ps, k)
  {
    if |ps| > 0 {
      FromPairsLookup(ps[..|ps| - 1], k);
    }
  }

  /** Looking up a key that occurs among the pairs finds the value of a
      pair with that key that no later pair shares its key with. */
  lemma FromPairsLastWins<K(!new), V>(ps: seq<(K, V)>, k: K)
    requires k in Keys(ps)
    ensures exists i :: 0 <= i < |ps| && ps[i].0 == k && Lookup(FromPairs(ps), k) == Some(ps[i].1) &&
                        (forall j :: i < j < |ps| ==> ps[j].0 != k)
  {
    FromPairsLookup(ps, k);
    var n := IndexOf(Keys(ps), k);
    assert ps[n].0 == k;
    LastValueSpec(ps, k);
  }

  /** A dict built from pairs has distinct keys, and every entry is one of
      the pairs. */
  lemma {:induction false} FromPairsEntries<K(!new), V>(ps: seq<(K, V)>)
    ensures Distinct(Keys(FromPairs(ps)))
    ensures forall e :: e in FromPairs(ps) ==> e in ps
  {
    FromPairsKeys(ps);
    if |ps| > 0 {
      FromPairsEntries(ps[..|ps| - 1]);
    }
  }

  /** When every pair's key is a function of its value, the values of the
      resulting dict are pairwise distinct too. */
  lemma FromPairsValuesDistinct<K(!new), V>(ps: seq<(K, V)>, f: V -> K)
    requires forall i :: 0 <= i < |ps| ==> ps[i].0 == f(ps[i].1)
    ensures Distinct(Values(FromPairs(ps)))
  {
    var d := FromPairs(ps);
    FromPairsEntries(ps);
    forall i, j | 0 <= i < j < |d| ensures d[i].1 != d[j].1 {
      assert Keys(d)[i] != Keys(d)[j];
      ValuesDiffer(ps, f, d[i], d[j]);
    }
  }

  lemma ValuesDiffer<K, V>(ps: seq<(K, V)>, f: V -> K, a: (K, V), b: (K, V))
    requires forall i :: 0 <= i < |ps| ==> ps[i].0 == f(ps[i].1)
    requires a in ps && b in ps && a.0 != b.0
    ensures a.1 != b.1
  {
    var i :| 0 <= i < |ps| && ps[i] == a;
    var j :| 0 <= j < |ps| && ps[j] == b;
    assert a.0 == f(a.1) && b.0 == f(b.1);
  }

  /** Deduplicating a longer list extends the deduplication of its prefix. */
  lemma {:induction false} DedupPrefix<T(!new)>(a: seq<T>, b: seq<T>)
    ensures |Dedup(a)| <= |Dedup(a + b)|
    ensures Dedup(a + b)[..|Dedup(a)|] == Dedup(a)
  {
    if |b| > 0 {
      var b' := b[..|b| - 1];
      DedupPrefix(a, b');
      assert (a + b)[..|a + b| - 1] == a + b';
    } else {
      assert a + b == a;
    }
  }

  lemma {:induction false} DedupOfDistinct<T(!new)>(xs: seq<T>)
    requires Distinct(xs)
    ensures Dedup(xs) == xs
  {
    if |xs| > 0 {
      var init := xs[..|xs| - 1];
      DedupOfDistinct(init);
      assert xs == init + [xs[|xs| - 1]];
    }
  }

  /** The position of `x` in the deduplicated list is the number of distinct
      elements that occur before `x` first does. */
  lemma DedupIndex<T(!new)>(xs: seq<T>, x: T)
    requires x in xs
    ensures IndexOf(Dedup(xs), x) == |Dedup(xs[..IndexOf(xs, x)])|
  {
    var i := IndexOf(xs, x);
    assert xs == (xs[..i] + [x]) + xs[i + 1..];
    DedupSplit(xs[..i], x, xs[i + 1..]);
  }

  /** The first occurrence of `x` lands right after the deduplicated prefix. */
  lemma DedupSplit<T(!new)>(pre: seq<T>, x: T, rest: seq<T>)
    requires x !in pre
    ensures IndexOf(Dedup((pre + [x]) + rest), x) == |Dedup(pre)|
  {
    var dp := Dedup(pre);
    DedupLast(pre, x);
    DedupPrefix(pre + [x], rest);
    IndexOfPrefix(Dedup((pre + [x]) + rest), dp, x);
  }

  /** A new element goes to the end of the deduplication. */
  lemma DedupLast<T(!new)>(pre: seq<T>, x: T)
    requires x !in pre
    ensures Dedup(pre + [x]) == Dedup(pre) + [x]
  {
    var s := pre + [x];
    assert s[..|s| - 1] == pre;
  }

  lemma IndexOfPrefix<T(!new)>(d: seq<T>, p: seq<T>, x: T)
    requires |p| < |d| && d[..|p| + 1] == p + [x] && x !in p
    ensures IndexOf(d, x) == |p|
  {
    assert d[|p|] == d[..|p| + 1][|p|] == x;
    assert d[..|p|] == d[..|p| + 1][..|p|] == p;
    IndexOfAt(d, x, |p|);
  }

  lemma IndexOfAt<T(!new)>(xs: seq<T>, x: T, n: nat)
    requires n < |xs| && xs[n] == x && x !in xs[..n]
    ensures IndexOf(xs, x) == n
  {
  }

  /** `{v: k for k, v in d.items()}` */
  function Reverse<K(==, !new), V(==, !new)>(d: Dict<K, V>): Dict<V, K>
  {
    FromPairs(seq(|d|, i requires 0 <= i < |d| => (d[i].1, d[i].0)))
  }

  /** `v in reverse(d)` holds exactly when `v` is one of `d`'s values, and
      the key it maps back to is the key of the LAST entry holding `v`. */
  lemma ReverseLookup<K(!new), V(!new)>(d: Dict<K, V>, v: V)
    ensures Lookup(Reverse(d), v).Some? <==> exists i :: 0 <= i < |d| && d[i].1 == v
    ensures Lookup(Reverse(d), v).Some? ==>
      exists i :: 0 <= i < |d| && d[i] == (Lookup(Reverse(d), v).value, v) &&
        forall j :: i < j < |d| ==> d[j].1 != v
  {
    var sw := seq(|d|, i requires 0 <= i < |d| => (d[i].1, d[i].0));
    FromPairsLookup(sw, v);
    LastValueSwap(d, v);
  }

  lemma {:induction false} LastValueSwap<K(!new), V(!new)>(d: Dict<K, V>, v: V)
    ensures var sw := seq(|d|, i requires 0 <= i < |d| => (d[i].1, d[i].0));
      && (LastValue(sw, v).Some? <==> exists i :: 0 <= i < |d| && d[i].1 == v)
      && (LastValue(sw, v).Some? ==>
            exists i :: 0 <= i < |d| && d[i] == (LastValue(sw, v).value, v) &&
              forall j :: i < j < |d| ==> d[j].1 != v)
  {
    var sw := seq(|d|, i requires 0 <= i < |d| => (d[i].1, d[i].0));
    if |d| > 0 {
      var init := d[..|d| - 1];
      LastValueSwap(init, v);
      var swi := seq(|init|, i requires 0 <= i < |init| => (init[i].1, init[i].0));
      assert sw[..|sw| - 1] == swi;
      if d[|d| - 1].1 == v {
        assert d[|d| - 1] == (LastValue(sw, v).value, v);
      }
    }
  }

  /** When `d`'s values are distinct, `reverse(d)` inverts `d`. */
  lemma ReverseInverts<K(!new), V(!new)>(d: Dict<K, V>, i: nat)
    requires Distinct(Values(d))
    requires i < |d|
    ensures Lookup(Reverse(d), d[i].1) == Some(d[i].0)
  {
    var v := d[i].1;
    ReverseLookup(d, v);
    var r := Lookup(Reverse(d), v);
    assert r.Some?;
    var j :| 0 <= j < |d| && d[j] == (r.value, v) && forall j' :: j < j' < |d| ==> d[j'].1 != v;
    assert Values(d)[j] == Values(d)[i];
  }
}

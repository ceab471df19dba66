/** Python's `dict` as the modelled code uses it: an insertion-ordered
    association list whose keys are pairwise distinct. Assigning to an existing
    key keeps its position; assigning to a new key appends it. */
module Dicts {
  import opened Wrappers

  /** A JSON scalar, as it comes out of the provider's payload or a repository row.
      Numbers are represented by an integer standing for their value. */
  datatype Scalar = Str(s: string) | Num(n: int) | Bool(b: bool) | Null

  /** Python truthiness of a scalar. */
  predicate Truthy(v: Scalar) {
    match v
    case Str(s) => s != ""
    case Num(n) => n != 0
    case Bool(b) => b
    case Null => false
  }

  type Dict<K, V> = seq<(K, V)>

  ghost predicate UniqueKeys<K, V>(d: Dict<K, V>) {
    forall i, j :: 0 <= i < j < |d| ==> d[i].0 != d[j].0
  }

  predicate HasKey<K(==), V>(d: Dict<K, V>, k: K) {
    exists i :: 0 <= i < |d| && d[i].0 == k
  }

  /** `d.get(k)`: the value stored under `k`, if any. */
  function Get<K(==), V>(d: Dict<K, V>, k: K): (r: Option<V>)
    ensures r.Some? <==> HasKey(d, k)
    ensures r.Some? ==> exists i :: 0 <= i < |d| && d[i] == (k, r.value)
  {
    if d == [] then None
    else if d[0].0 == k then Some(d[0].1)
    else
      var r := Get(d[1..], k);
      assert forall i :: 0 <= i < |d| - 1 ==> d[1..][i] == d[i + 1];
      r
  }

  /** `d.get(k, default)`. */
  function GetOr<K(==), V>(d: Dict<K, V>, k: K, default: V): V {
    match Get(d, k)
    case Some(v) => v
    case None => default
  }

  /** `d[k] = v`: replaces the value in place when `k` is present, appends otherwise. */
  function Put<K(==), V>(d: Dict<K, V>, k: K, v: V): (r: Dict<K, V>)
  {
    if d == [] then [(k, v)]
    else if d[0].0 == k then [(k, v)] + d[1..]
    else [d[0]] + Put(d[1..], k, v)
  }

  /** After `d[k] = v`, reading `k` gives `v` and every other key reads as before. */
  lemma {:induction false} PutGet<K, V>(d: Dict<K, V>, k: K, v: V, k': K)
    ensures Get(Put(d, k, v), k') == if k' == k then Some(v) else Get(d, k')
  {
    if d != [] && d[0].0 != k {
      PutGet(d[1..], k, v, k');
      assert Put(d, k, v)[1..] == Put(d[1..], k, v);
    }
  }

  /** Assigning to an absent key appends it at the end. */
  lemma {:induction false} PutAbsent<K, V>(d: Dict<K, V>, k: K, v: V)
    requires !HasKey(d, k)
    ensures Put(d, k, v) == d + [(k, v)]
  {
    if d != [] {
      var t := d[1..];
      assert forall i :: 0 <= i < |t| ==> t[i] == d[i + 1];
      PutAbsent(t, k, v);
      assert d == [d[0]] + t;
    }
  }

  /** Assigning to a present key replaces its value where it stands. */
  lemma {:induction false} PutPresent<K, V>(d: Dict<K, V>, k: K, v: V)
    requires UniqueKeys(d)
    requires HasKey(d, k)
    ensures |Put(d, k, v)| == |d|
    ensures forall i :: 0 <= i < |d| ==> Put(d, k, v)[i] == if d[i].0 == k then (k, v) else d[i]
  {
    var r := Put(d, k, v);
    var t := d[1..];
    if d[0].0 == k {
      assert r == [(k, v)] + t;
      assert forall i :: 0 < i < |d| ==> d[i].0 != k;
    } else {
      assert UniqueKeys(t) by {
        assert forall i :: 0 <= i < |t| ==> t[i] == d[i + 1];
      }
      assert HasKey(t, k) by {
        var i :| 0 <= i < |d| && d[i].0 == k;
        assert t[i - 1].0 == k;
      }
      PutPresent(t, k, v);
      assert r == [d[0]] + Put(t, k, v);
      forall i | 0 <= i < |d| ensures r[i] == if d[i].0 == k then (k, v) else d[i] {
        if i > 0 {
          assert r[i] == Put(t, k, v)[i - 1] && d[i] == t[i - 1];
        }
      }
    }
  }

  /** `d[k] = v` keeps keys distinct, keeps the position of an existing key
      and appends a new one at the end. */
  lemma PutShape<K, V>(d: Dict<K, V>, k: K, v: V)
    requires UniqueKeys(d)
    ensures UniqueKeys(Put(d, k, v))
    ensures HasKey(d, k) ==> |Put(d, k, v)| == |d|
    ensures HasKey(d, k) ==>
              forall i :: 0 <= i < |d| ==> Put(d, k, v)[i] == if d[i].0 == k then (k, v) else d[i]
    ensures !HasKey(d, k) ==> Put(d, k, v) == d + [(k, v)]
  {
    var r := Put(d, k, v);
    if HasKey(d, k) {
      PutPresent(d, k, v);
      assert forall i :: 0 <= i < |d| ==> r[i].0 == d[i].0;
    } else {
      PutAbsent(d, k, v);
      assert forall i :: 0 <= i < |d| ==> r[i] == d[i];
    }
  }

  /** `b` holds the keys of `a` at the same positions, perhaps followed by
      more: the order a dict keeps when keys are only assigned, never removed. */
  ghost predicate KeysKept<K, V>(a: Dict<K, V>, b: Dict<K, V>) {
    |a| <= |b| && forall i :: 0 <= i < |a| ==> b[i].0 == a[i].0
  }

  /** `d[k] = v` moves no key. */
  lemma PutKeepsKeys<K, V>(d: Dict<K, V>, k: K, v: V)
    requires UniqueKeys(d)
    ensures KeysKept(d, Put(d, k, v))
  {
    PutShape(d, k, v);
  }

  /** Everything `d[k] = v` does to lookups, key by key. */
  lemma PutLookups<K, V>(d: Dict<K, V>, k: K, v: V)
    requires UniqueKeys(d)
    ensures UniqueKeys(Put(d, k, v))
    ensures forall k' :: Get(Put(d, k, v), k') == if k' == k then Some(v) else Get(d, k')
    ensures forall k' :: HasKey(Put(d, k, v), k') <==> k' == k || HasKey(d, k')
  {
    PutShape(d, k, v);
    forall k'
      ensures Get(Put(d, k, v), k') == if k' == k then Some(v) else Get(d, k')
      ensures HasKey(Put(d, k, v), k') <==> k' == k || HasKey(d, k')
    {
      PutGet(d, k, v, k');
    }
  }

  /** `dict(pairs)`: insert the pairs left to right, so a later duplicate key
      wins. */
  function FromPairs<K(==), V>(ps: seq<(K, V)>): Dict<K, V>
  {
    if ps == [] then [] else Put(FromPairs(ps[..|ps| - 1]), ps[|ps| - 1].0, ps[|ps| - 1].1)
  }

  /** The value of the LAST pair with key `k`, scanning `ps` from the end. */
  function LastValue<K(==), V>(ps: seq<(K, V)>, k: K): Option<V>
  {
    if ps == [] then None
    else if ps[|ps| - 1].0 == k then Some(ps[|ps| - 1].1)
    else LastValue(ps[..|ps| - 1], k)
  }

  /** `dict(pairs)` holds, under each key, the value of the last pair with that key. */
  lemma {:induction false} FromPairsGet<K, V>(ps: seq<(K, V)>, k: K)
    ensures Get(FromPairs(ps), k) == LastValue(ps, k)
  {
    if ps != [] {
      var n := |ps| - 1;
      FromPairsGet(ps[..n], k);
      PutGet(FromPairs(ps[..n]), ps[n].0, ps[n].1, k);
    }
  }

  /** `dict(...)` always has distinct keys. */
  lemma {:induction false} FromPairsUnique<K, V>(ps: seq<(K, V)>)
    ensures UniqueKeys(FromPairs(ps))
  {
    if ps != [] {
      var n := |ps| - 1;
      FromPairsUnique(ps[..n]);
      PutShape(FromPairs(ps[..n]), ps[n].0, ps[n].1);
    }
  }

  /** Rebuilding a dict from its own items gives it back: `dict(d.items()) == d`. */
  lemma {:induction false} FromPairsOfDict<K, V>(d: Dict<K, V>)
    requires UniqueKeys(d)
    ensures FromPairs(d) == d
  {
    if d != [] {
      var n := |d| - 1;
      var init := d[..n];
      FromPairsOfDict(init);
      assert forall i :: 0 <= i < n ==> init[i] == d[i];
      assert !HasKey(init, d[n].0);
      PutShape(init, d[n].0, d[n].1);
      assert init + [(d[n].0, d[n].1)] == d;
    }
  }

  /** In a dict the last pair with a key is its only pair. */
  lemma LastValueOfDict<K, V>(d: Dict<K, V>, k: K)
    requires UniqueKeys(d)
    ensures LastValue(d, k) == Get(d, k)
  {
    FromPairsOfDict(d);
    FromPairsGet(d, k);
  }

  /** `zip(a, b)`: pairs position by position, stopping at the shorter input. */
  function Zip<A, B>(a: seq<A>, b: seq<B>): (r: seq<(A, B)>)
    ensures |r| == if |a| <= |b| then |a| else |b|
    ensures forall i :: 0 <= i < |r| ==> r[i] == (a[i], b[i])
  {
    if a == [] || b == [] then [] else [(a[0], b[0])] + Zip(a[1..], b[1..])
  }
}

/** Python's `dict`: an insertion-ordered table in which assigning to an
    existing key overwrites its value in place and a new key is appended. */
module Dicts {
  import opened Wrappers

  type Dict<K, V> = seq<(K, V)>

  function Keys<K, V>(d: Dict<K, V>): (ks: seq<K>)
    ensures |ks| == |d|
    ensures forall i :: 0 <= i < |d| ==> ks[i] == d[i].0
  {
    seq(|d|, i requires 0 <= i < |d| => d[i].0)
  }

  ghost predicate DistinctKeys<K, V>(d: Dict<K, V>) {
    forall i, j :: 0 <= i < j < |d| ==> d[i].0 != d[j].0
  }

  /** Position of key `k`, if present. */
  function Find<K(==,!new), V>(d: Dict<K, V>, k: K): (r: Option<nat>)
    ensures r.Some? ==> r.value < |d| && d[r.value].0 == k
    ensures r.Some? ==> forall j :: 0 <= j < r.value ==> d[j].0 != k
    ensures r.None? <==> forall j :: 0 <= j < |d| ==> d[j].0 != k
  {
    if d == [] then None
    else if d[0].0 == k then Some(0)
    else match Find(d[1..], k)
      case None => None
      case Some(i) => Some(i + 1)
  }

  /** `d[k]`: the value stored under `k`, KeyError when absent. */
  function Get<K(==,!new), V>(d: Dict<K, V>, k: K): (r: Result<V>)
    ensures r.Ok? <==> k in Keys(d)
    ensures r.Err? ==> r.error == KeyError
  {
    match Find(d, k)
    case None => Err(KeyError)
    case Some(i) => Ok(d[i].1)
  }

  /** `d[k] = v`. */
  function Put<K(==,!new), V>(d: Dict<K, V>, k: K, v: V): (r: Dict<K, V>)
    ensures k !in Keys(d) ==> r == d + [(k, v)]
    ensures k in Keys(d) ==> Keys(r) == Keys(d)
    ensures DistinctKeys(d) ==> DistinctKeys(r)
    ensures Get(r, k) == Ok(v)
    ensures forall k' :: k' != k ==> Get(r, k') == Get(d, k')
    ensures forall p :: p in r ==> p in d || p == (k, v)
  {
    match Find(d, k)
    case None =>
      var r := d + [(k, v)];
      assert forall k' :: k' != k ==> Find(r, k') == Find(d, k') by {
        forall k' | k' != k ensures Find(r, k') == Find(d, k') {
          FindAppend(d, k, v, k');
        }
      }
      FindAppend(d, k, v, k);
      r
    case Some(i) =>
      var r := d[i := (k, v)];
      assert Keys(r) == Keys(d);
      assert forall k' :: k' != k ==> Find(r, k') == Find(d, k') by {
        forall k' | k' != k ensures Find(r, k') == Find(d, k') {
          FindSameKeys(r, d, k');
        }
      }
      r
  }

  lemma {:induction false} FindAppend<K(!new), V>(d: Dict<K, V>, k: K, v: V, k': K)
    ensures Find(d + [(k, v)], k') ==
      if k' == k && Find(d, k').None? then Some(|d|) else Find(d, k')
  {
    if d != [] {
      assert (d + [(k, v)])[1..] == d[1..] + [(k, v)];
      FindAppend(d[1..], k, v, k');
    }
  }

  lemma {:induction false} FindSameKeys<K(!new), V>(a: Dict<K, V>, b: Dict<K, V>, k: K)
    requires Keys(a) == Keys(b)
    ensures Find(a, k) == Find(b, k)
  {
    if a != [] {
      assert Keys(a[1..]) == Keys(a)[1..] && Keys(b[1..]) == Keys(b)[1..];
      FindSameKeys(a[1..], b[1..], k);
    }
  }

  /** Assigning the pairs of `ps` one after the other. */
  function PutAll<K(==,!new), V>(d: Dict<K, V>, ps: seq<(K, V)>): (r: Dict<K, V>)
    ensures DistinctKeys(d) ==> DistinctKeys(r)
    ensures forall p :: p in r ==> p in d || p in ps
    decreases |ps|
  {
    if ps == [] then d
    else
      var init := ps[..|ps| - 1];
      var r := Put(PutAll(d, init), ps[|ps| - 1].0, ps[|ps| - 1].1);
      assert forall p :: p in init ==> p in ps;
      r
  }

  lemma PutAllSnoc<K(!new), V>(d: Dict<K, V>, ps: seq<(K, V)>, p: (K, V))
    ensures PutAll(d, ps + [p]) == Put(PutAll(d, ps), p.0, p.1)
  {
    assert (ps + [p])[..|ps|] == ps;
  }

  /** Filling from one more pair of a list is one more assignment. */
  lemma PutAllPrefix<K(!new), V>(d: Dict<K, V>, ps: seq<(K, V)>, i: nat)
    requires i < |ps|
    ensures PutAll(d, ps[..i + 1]) == Put(PutAll(d, ps[..i]), ps[i].0, ps[i].1)
  {
    assert ps[..i + 1] == ps[..i] + [ps[i]];
    PutAllSnoc(d, ps[..i], ps[i]);
  }

  /** Assignment never moves a key: the keys after any prefix of the pairs
      begin the keys after all of them. */
  lemma {:induction false} PutAllKeysGrow<K(!new), V>(d: Dict<K, V>, ps: seq<(K, V)>, k: nat)
    requires k <= |ps|
    ensures Keys(PutAll(d, ps[..k])) <= Keys(PutAll(d, ps))
    decreases |ps|
  {
    if k == |ps| {
      assert ps[..k] == ps;
    } else {
      var init := ps[..|ps| - 1];
      assert init[..k] == ps[..k];
      PutAllKeysGrow(d, init, k);
      var last := ps[|ps| - 1];
      var before := PutAll(d, init);
      if last.0 !in Keys(before) {
        assert Keys(before + [last]) == Keys(before) + [last.0];
      }
    }
  }

  /** After the assignments a key is present when it was before or was
      assigned, holds the value of its last assignment, and keeps its old
      value when it was never assigned. */
  lemma PutAllGet<K(!new), V>(d: Dict<K, V>, ps: seq<(K, V)>)
    ensures forall x :: x in Keys(PutAll(d, ps)) <==> x in Keys(d) || exists j :: 0 <= j < |ps| && ps[j].0 == x
    ensures forall j :: (0 <= j < |ps| && forall j' :: j < j' < |ps| ==> ps[j'].0 != ps[j].0) ==>
              Get(PutAll(d, ps), ps[j].0) == Ok(ps[j].1)
    ensures forall x :: (forall j :: 0 <= j < |ps| ==> ps[j].0 != x) ==> Get(PutAll(d, ps), x) == Get(d, x)
  {
    forall x ensures x in Keys(PutAll(d, ps)) <==> x in Keys(d) || exists j :: 0 <= j < |ps| && ps[j].0 == x {
      PutAllHasKey(d, ps, x);
    }
    forall j | 0 <= j < |ps| && forall j' :: j < j' < |ps| ==> ps[j'].0 != ps[j].0
      ensures Get(PutAll(d, ps), ps[j].0) == Ok(ps[j].1)
    {
      PutAllLast(d, ps, j);
    }
    forall x | forall j :: 0 <= j < |ps| ==> ps[j].0 != x
      ensures Get(PutAll(d, ps), x) == Get(d, x)
    {
      PutAllUntouched(d, ps, x);
    }
  }

  lemma {:induction false} PutAllHasKey<K(!new), V>(d: Dict<K, V>, ps: seq<(K, V)>, x: K)
    ensures x in Keys(PutAll(d, ps)) <==> x in Keys(d) || exists j :: 0 <= j < |ps| && ps[j].0 == x
    decreases |ps|
  {
    if ps != [] {
      var init := ps[..|ps| - 1];
      var last := ps[|ps| - 1];
      PutAllHasKey(d, init, x);
      assert PutAll(d, ps) == Put(PutAll(d, init), last.0, last.1);
      PutKeys(PutAll(d, init), last.0, last.1);
      HasKeyLast(ps, init, x);
    }
  }

  lemma PutKeys<K(!new), V>(d: Dict<K, V>, k: K, v: V)
    ensures forall x :: x in Keys(Put(d, k, v)) <==> x in Keys(d) || x == k
  {
    forall x ensures x in Keys(Put(d, k, v)) <==> x in Keys(d) || x == k {
      if x != k {
        assert Get(Put(d, k, v), x) == Get(d, x);
      }
    }
  }

  lemma HasKeyLast<K, V>(ps: seq<(K, V)>, init: seq<(K, V)>, x: K)
    requires ps != [] && init == ps[..|ps| - 1]
    ensures (exists j :: 0 <= j < |ps| && ps[j].0 == x) <==>
              (exists j :: 0 <= j < |init| && init[j].0 == x) || x == ps[|ps| - 1].0
  {
    if exists j :: 0 <= j < |ps| && ps[j].0 == x {
      var j :| 0 <= j < |ps| && ps[j].0 == x;
      if j < |init| {
        assert init[j].0 == x;
      }
    }
    if exists j :: 0 <= j < |init| && init[j].0 == x {
      var j :| 0 <= j < |init| && init[j].0 == x;
      assert ps[j].0 == x;
    }
  }

  lemma {:induction false} PutAllLast<K(!new), V>(d: Dict<K, V>, ps: seq<(K, V)>, j: nat)
    requires j < |ps| && forall j' :: j < j' < |ps| ==> ps[j'].0 != ps[j].0
    ensures Get(PutAll(d, ps), ps[j].0) == Ok(ps[j].1)
    decreases |ps|
  {
    var init := ps[..|ps| - 1];
    var last := ps[|ps| - 1];
    assert PutAll(d, ps) == Put(PutAll(d, init), last.0, last.1);
    if j < |ps| - 1 {
      assert forall i :: 0 <= i < |init| ==> init[i] == ps[i];
      PutAllLast(d, init, j);
      assert last.0 != ps[j].0;
    }
  }

  lemma {:induction false} PutAllUntouched<K(!new), V>(d: Dict<K, V>, ps: seq<(K, V)>, x: K)
    requires forall j :: 0 <= j < |ps| ==> ps[j].0 != x
    ensures Get(PutAll(d, ps), x) == Get(d, x)
    decreases |ps|
  {
    if ps != [] {
      var init := ps[..|ps| - 1];
      var last := ps[|ps| - 1];
      assert forall i :: 0 <= i < |init| ==> init[i] == ps[i];
      PutAllUntouched(d, init, x);
      assert PutAll(d, ps) == Put(PutAll(d, init), last.0, last.1);
    }
  }

  /** Pairs with new, distinct keys are appended in order. */
  lemma {:induction false} PutAllFresh<K(!new), V>(d: Dict<K, V>, ps: seq<(K, V)>)
    requires forall i, j :: 0 <= i < j < |ps| ==> ps[i].0 != ps[j].0
    requires forall j :: 0 <= j < |ps| ==> ps[j].0 !in Keys(d)
    ensures PutAll(d, ps) == d + ps
    decreases |ps|
  {
    if ps != [] {
      var init := ps[..|ps| - 1];
      var last := ps[|ps| - 1];
      assert forall j :: 0 <= j < |init| ==> init[j] == ps[j];
      PutAllFresh(d, init);
      FreshKey(d, init, last.0);
      assert init + [last] == ps;
      PutAllFreshStep(d, init, last);
    }
  }

  /** Filling an empty dict with pairs whose keys are distinct gives
      those pairs, in order. */
  lemma PutAllFromEmpty<K(!new), V>(ps: seq<(K, V)>)
    requires DistinctKeys(ps)
    ensures PutAll([], ps) == ps
  {
    PutAllFresh([], ps);
    assert [] + ps == ps;
  }

  lemma PutAllFreshStep<K(!new), V>(d: Dict<K, V>, init: seq<(K, V)>, last: (K, V))
    requires PutAll(d, init) == d + init
    requires last.0 !in Keys(d + init)
    ensures PutAll(d, init + [last]) == d + (init + [last])
  {
    PutAllSnoc(d, init, last);
    assert d + init + [last] == d + (init + [last]);
  }

  lemma FreshKey<K, V>(d: Dict<K, V>, e: Dict<K, V>, k: K)
    requires k !in Keys(d)
    requires forall j :: 0 <= j < |e| ==> e[j].0 != k
    ensures k !in Keys(d + e)
  {
    assert Keys(d + e) == Keys(d) + Keys(e);
  }
}

/** Ruby's Hash with String keys, as the adapters use it: an insertion-ordered
    table in which storing under a key that is present replaces that entry in
    place, and `Hash[pairs]` stores the pairs one after another, so a later
    duplicate key overrides an earlier one. */
module Hashes {
  import opened Values

  /** The entries in insertion order. */
  type Hash<V> = seq<(string, V)>

  predicate UniqueKeys<V>(h: Hash<V>)
  {
    forall i, j :: 0 <= i < j < |h| ==> h[i].0 != h[j].0
  }

  predicate HasKey<V>(h: Hash<V>, k: string)
  {
    exists i :: 0 <= i < |h| && h[i].0 == k
  }

  /** The value of the last pair whose key is `k`; on a table with unique
      keys this is Hash#[]. */
  function LastValue<V>(ps: seq<(string, V)>, k: string): (r: Option<V>)
    ensures r.None? ==> forall i :: 0 <= i < |ps| ==> ps[i].0 != k
    ensures r.Some? ==> exists i :: 0 <= i < |ps| && ps[i] == (k, r.value)
                           && forall j :: i < j < |ps| ==> ps[j].0 != k
  {
    if ps == [] then None
    else if ps[|ps| - 1].0 == k then Some(ps[|ps| - 1].1)
    else
      var r := LastValue(ps[..|ps| - 1], k);
      assert r.Some? ==> exists i :: 0 <= i < |ps| - 1 && ps[i] == (k, r.value)
                           && forall j :: i < j < |ps| ==> ps[j].0 != k;
      r
  }

  /** The table with the entry for `k` replaced by `v`, or `(k, v)`
      appended when there is none: `h[k] = v`. */
  function Store<V>(h: Hash<V>, k: string, v: V): (r: Hash<V>)
    ensures HasKey(h, k) ==> |r| == |h|
    ensures !HasKey(h, k) ==> r == h + [(k, v)]
  {
    if HasKey(h, k) then seq(|h|, i requires 0 <= i < |h| => if h[i].0 == k then (k, v) else h[i])
    else h + [(k, v)]
  }

  /** Storing the pairs one after another into `h`. */
  function StoreAll<V>(h: Hash<V>, ps: seq<(string, V)>): Hash<V>
  {
    if ps == [] then h else Store(StoreAll(h, ps[..|ps| - 1]), ps[|ps| - 1].0, ps[|ps| - 1].1)
  }

  /** Hash[pairs] */
  function FromPairs<V>(ps: seq<(string, V)>): Hash<V>
  {
    StoreAll([], ps)
  }

  /** On a table with unique keys the lookup finds the one entry for the key. */
  lemma LookupUnique<V>(h: Hash<V>, k: string, i: int)
    requires UniqueKeys(h) && 0 <= i < |h| && h[i].0 == k
    ensures LastValue(h, k) == Some(h[i].1)
  {
  }

  /** Storing keeps the keys unique, finds the new value under its key and
      leaves every other key's value as it was. */
  lemma StoreLookup<V>(h: Hash<V>, k: string, v: V, k': string)
    requires UniqueKeys(h)
    ensures UniqueKeys(Store(h, k, v))
    ensures LastValue(Store(h, k, v), k') == if k' == k then Some(v) else LastValue(h, k')
  {
    var r := Store(h, k, v);
    if HasKey(h, k) {
      assert forall i :: 0 <= i < |h| ==> r[i].0 == h[i].0;
      if k' == k {
        var i :| 0 <= i < |h| && h[i].0 == k;
        LookupUnique(r, k, i);
      } else if HasKey(h, k') {
        var i :| 0 <= i < |h| && h[i].0 == k';
        LookupUnique(r, k', i);
        LookupUnique(h, k', i);
      }
    } else if k' != k {
      assert r[..|h|] == h;
    }
  }

  /** After storing the pairs, a key has the value of its last pair, or
      the value it had before when no pair names it. */
  lemma {:induction false} StoreAllLookup<V>(h: Hash<V>, ps: seq<(string, V)>, k: string)
    requires UniqueKeys(h)
    ensures UniqueKeys(StoreAll(h, ps))
    ensures LastValue(StoreAll(h, ps), k) == if LastValue(ps, k).Some? then LastValue(ps, k) else LastValue(h, k)
  {
    if ps != [] {
      var init := ps[..|ps| - 1];
      StoreAllLookup(h, init, k);
      StoreLookup(StoreAll(h, init), ps[|ps| - 1].0, ps[|ps| - 1].1, k);
    }
  }

  /** Hash[pairs] has unique keys and maps each key to the value of its last pair. */
  lemma FromPairsLookup<V>(ps: seq<(string, V)>, k: string)
    ensures UniqueKeys(FromPairs(ps))
    ensures LastValue(FromPairs(ps), k) == LastValue(ps, k)
  {
    StoreAllLookup([], ps, k);
  }

  /** Pairs whose keys are already distinct make a table of exactly those pairs. */
  lemma {:induction false} FromUniquePairs<V>(ps: seq<(string, V)>)
    requires UniqueKeys(ps)
    ensures FromPairs(ps) == ps
  {
    if ps != [] {
      var init := ps[..|ps| - 1];
      FromUniquePairs(init);
      assert !HasKey(init, ps[|ps| - 1].0);
      assert init + [ps[|ps| - 1]] == ps;
    }
  }

  /** Storing two runs of pairs one after the other is storing their concatenation. */
  lemma {:induction false} StoreAllAppend<V>(h: Hash<V>, ps: seq<(string, V)>, qs: seq<(string, V)>)
    ensures StoreAll(h, ps + qs) == StoreAll(StoreAll(h, ps), qs)
  {
    if qs == [] {
      assert ps + qs == ps;
    } else {
      StoreAllAppend(h, ps, qs[..|qs| - 1]);
      assert (ps + qs)[..|ps + qs| - 1] == ps + qs[..|qs| - 1];
    }
  }

  /** Pairs under keys that are distinct and new to the table are appended to it in order. */
  lemma {:induction false} StoreAllFresh<V>(h: Hash<V>, ps: seq<(string, V)>)
    requires UniqueKeys(ps)
    requires forall i :: 0 <= i < |ps| ==> !HasKey(h, ps[i].0)
    ensures StoreAll(h, ps) == h + ps
  {
    if ps != [] {
      var init := ps[..|ps| - 1];
      var last := ps[|ps| - 1];
      StoreAllFresh(h, init);
      assert !HasKey(h + init, last.0) by {
        forall i | 0 <= i < |h + init| ensures (h + init)[i].0 != last.0 {
          if i >= |h| { assert (h + init)[i] == ps[i - |h|]; }
        }
      }
      assert h + init + [last] == h + ps;
    }
  }

  /** A key is present exactly when the lookup finds it. */
  lemma HasKeyLookup<V>(h: Hash<V>, k: string)
    ensures HasKey(h, k) <==> LastValue(h, k).Some?
  {
  }

  /** The lookup in a concatenation prefers the later run. */
  lemma {:induction false} LastValueAppend<V>(a: seq<(string, V)>, b: seq<(string, V)>, k: string)
    ensures LastValue(a + b, k) == if LastValue(b, k).Some? then LastValue(b, k) else LastValue(a, k)
  {
    if b == [] {
      assert a + b == a;
    } else {
      LastValueAppend(a, b[..|b| - 1], k);
      assert (a + b)[..|a + b| - 1] == a + b[..|b| - 1];
    }
  }
}

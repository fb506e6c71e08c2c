/** Keeping one item per key, in order of first appearance. */
module Deduplication {

  function Keys<T, K>(items: seq<T>, keyOf: T -> K): (keys: seq<K>)
    ensures |keys| == |items|
    ensures forall i :: 0 <= i < |items| ==> keys[i] == keyOf(items[i])
  {
    seq(|items|, i requires 0 <= i < |items| => keyOf(items[i]))
  }

  /** Position i has no key, or is the first with its key. */
  ghost predicate FirstOfKey<K>(none: K, keys: seq<K>, i: nat)
    requires i < |keys|
  {
    keys[i] == none || forall j :: 0 <= j < i ==> keys[j] != keys[i]
  }

  /** Position b is the first of the highest rank among those with its key. */
  ghost predicate BestOfKey<K>(keys: seq<K>, ranks: seq<nat>, b: nat)
    requires |keys| == |ranks| && b < |keys|
  {
    forall j :: 0 <= j < |keys| && keys[j] == keys[b] ==> ranks[j] < ranks[b] || (ranks[j] == ranks[b] && b <= j)
  }

  /** Position `origin` is the right choice for the entry that first appeared at `place`. */
  ghost predicate ChosenFor<K>(none: K, keys: seq<K>, ranks: seq<nat>, place: nat, origin: nat)
    requires |keys| == |ranks|
  {
    && place < |keys| && origin < |keys| && keys[origin] == keys[place]
    && if keys[place] == none then origin == place else BestOfKey(keys, ranks, origin)
  }

  /** `place` lists, in order, every position without a key and the first of each key; `origin` names
      the position chosen for each of them. */
  ghost predicate Deduplicates<K>(none: K, keys: seq<K>, ranks: seq<nat>, place: seq<nat>, origin: seq<nat>) {
    && |keys| == |ranks| && |place| == |origin|
    && (forall m, n :: 0 <= m < n < |place| ==> place[m] < place[n])
    && (forall n :: 0 <= n < |place| ==> ChosenFor(none, keys, ranks, place[n], origin[n]))
    && (forall n :: 0 <= n < |place| ==> FirstOfKey(none, keys, place[n]))
    && (forall i :: 0 <= i < |keys| && FirstOfKey(none, keys, i) ==> i in place)
  }

  /** Every key has an entry. */
  lemma KeyHasPlace<K>(none: K, keys: seq<K>, ranks: seq<nat>, place: seq<nat>, origin: seq<nat>, j: nat) returns (n: nat)
    requires Deduplicates(none, keys, ranks, place, origin) && j < |keys|
    ensures n < |place| && keys[place[n]] == keys[j]
    decreases j
  {
    if FirstOfKey(none, keys, j) {
      n :| 0 <= n < |place| && place[n] == j;
    } else {
      var k :| 0 <= k < j && keys[k] == keys[j];
      n := KeyHasPlace(none, keys, ranks, place, origin, k);
    }
  }

  lemma FirstStays<K>(none: K, keys: seq<K>, k: K, i: nat)
    requires i < |keys|
    ensures FirstOfKey(none, keys + [k], i) <==> FirstOfKey(none, keys, i)
  {
    assert forall j :: 0 <= j <= i ==> (keys + [k])[j] == keys[j];
  }

  lemma NewBest<K>(none: K, keys: seq<K>, ranks: seq<nat>, k: K, r: nat, place: nat, origin: nat)
    requires |keys| == |ranks| && ChosenFor(none, keys, ranks, place, origin) && keys[origin] == k != none && r > ranks[origin]
    ensures ChosenFor(none, keys + [k], ranks + [r], place, |keys|)
  {
  }

  lemma NewEntry<K>(none: K, keys: seq<K>, ranks: seq<nat>, place: seq<nat>, origin: seq<nat>, k: K, r: nat)
    requires Deduplicates(none, keys, ranks, place, origin)
    requires k == none || forall n :: 0 <= n < |place| ==> keys[place[n]] != k
    ensures Deduplicates(none, keys + [k], ranks + [r], place + [|keys|], origin + [|keys|])
  {
    forall j | 0 <= j < |keys| && k != none ensures keys[j] != k {
      var n := KeyHasPlace(none, keys, ranks, place, origin, j);
    }
    forall i | 0 <= i < |keys| ensures FirstOfKey(none, keys + [k], i) <==> FirstOfKey(none, keys, i) {
      FirstStays(none, keys, k, i);
    }
    forall n | 0 <= n < |place| ensures ChosenFor(none, keys + [k], ranks + [r], place[n], origin[n]) {
    }
  }

  lemma KnownKey<K>(none: K, keys: seq<K>, ranks: seq<nat>, place: seq<nat>, origin: seq<nat>, k: K, r: nat, idx: nat)
    requires Deduplicates(none, keys, ranks, place, origin) && idx < |place| && keys[place[idx]] == k != none
    ensures Deduplicates(none, keys + [k], ranks + [r], place, if r > ranks[origin[idx]] then origin[idx := |keys|] else origin)
  {
    var chosen := if r > ranks[origin[idx]] then origin[idx := |keys|] else origin;
    assert ChosenFor(none, keys, ranks, place[idx], origin[idx]);
    assert !FirstOfKey(none, keys + [k], |keys|) by {
      assert (keys + [k])[place[idx]] == k;
    }
    forall i | 0 <= i < |keys| ensures FirstOfKey(none, keys + [k], i) <==> FirstOfKey(none, keys, i) {
      FirstStays(none, keys, k, i);
    }
    forall n | 0 <= n < |place| ensures ChosenFor(none, keys + [k], ranks + [r], place[n], chosen[n]) {
      assert FirstOfKey(none, keys, place[n]) && FirstOfKey(none, keys, place[idx]);
      assert ChosenFor(none, keys, ranks, place[n], origin[n]);
      if n != idx {
        assert place[n] < place[idx] || place[idx] < place[n];
      }
      if n == idx && r > ranks[origin[idx]] {
        NewBest(none, keys, ranks, k, r, place[n], origin[n]);
      }
    }
  }

  /** Which entry stands for which key. */
  ghost predicate Indexes<K>(none: K, keys: seq<K>, origin: seq<nat>, primaryIdx: map<K, nat>) {
    && (forall n :: 0 <= n < |origin| ==> origin[n] < |keys|)
    && (forall k :: k in primaryIdx ==> k != none && primaryIdx[k] < |origin| && keys[origin[primaryIdx[k]]] == k)
    && (forall n :: 0 <= n < |origin| && keys[origin[n]] != none ==>
          keys[origin[n]] in primaryIdx && primaryIdx[keys[origin[n]]] == n)
  }

  /** The bookkeeping after the first i modems. */
  ghost predicate Deduping<K>(none: K, keys: seq<K>, ranks: seq<nat>, i: nat, place: seq<nat>, origin: seq<nat>, primaryIdx: map<K, nat>)
    requires i <= |keys| == |ranks|
  {
    Deduplicates(none, keys[..i], ranks[..i], place, origin) && Indexes(none, keys, origin, primaryIdx)
  }

  lemma NewKeyStep<K>(none: K, keys: seq<K>, ranks: seq<nat>, i: nat, place: seq<nat>, origin: seq<nat>, primaryIdx: map<K, nat>)
    requires i < |keys| == |ranks| && Deduping(none, keys, ranks, i, place, origin, primaryIdx)
    requires keys[i] == none || keys[i] !in primaryIdx
    ensures Deduping(none, keys, ranks, i + 1, place + [i], origin + [i],
                     if keys[i] == none then primaryIdx else primaryIdx[keys[i] := |origin|])
  {
    assert keys[..i + 1] == keys[..i] + [keys[i]] && ranks[..i + 1] == ranks[..i] + [ranks[i]];
    forall n | 0 <= n < |place| && keys[i] != none ensures keys[..i][place[n]] != keys[i] {
      assert ChosenFor(none, keys[..i], ranks[..i], place[n], origin[n]);
    }
    NewEntry(none, keys[..i], ranks[..i], place, origin, keys[i], ranks[i]);
  }

  lemma KnownKeyStep<K>(none: K, keys: seq<K>, ranks: seq<nat>, i: nat, place: seq<nat>, origin: seq<nat>, primaryIdx: map<K, nat>)
    requires i < |keys| == |ranks| && Deduping(none, keys, ranks, i, place, origin, primaryIdx)
    requires keys[i] != none && keys[i] in primaryIdx
    ensures var idx := primaryIdx[keys[i]];
            && idx < |origin| && origin[idx] < i
            && (ranks[i] > ranks[origin[idx]] ==> Deduping(none, keys, ranks, i + 1, place, origin[idx := i], primaryIdx))
            && (ranks[i] <= ranks[origin[idx]] ==> Deduping(none, keys, ranks, i + 1, place, origin, primaryIdx))
  {
    var ks, rs := keys[..i], ranks[..i];
    assert keys[..i + 1] == ks + [keys[i]] && ranks[..i + 1] == rs + [ranks[i]];
    var idx := primaryIdx[keys[i]];
    assert ChosenFor(none, ks, rs, place[idx], origin[idx]);
    assert ks[place[idx]] == keys[i] && rs[origin[idx]] == ranks[origin[idx]];
    KnownKey(none, ks, rs, place, origin, keys[i], ranks[i], idx);
    IndexesKnown(none, keys, origin, primaryIdx, i);
  }

  lemma IndexesKnown<K>(none: K, keys: seq<K>, origin: seq<nat>, primaryIdx: map<K, nat>, i: nat)
    requires Indexes(none, keys, origin, primaryIdx) && i < |keys| && keys[i] in primaryIdx
    ensures Indexes(none, keys, origin[primaryIdx[keys[i]] := i], primaryIdx)
  {
  }

  /** The items at the chosen positions. */
  ghost predicate Picks<T>(items: seq<T>, out: seq<T>, origin: seq<nat>) {
    |out| == |origin| && forall n :: 0 <= n < |out| ==> origin[n] < |items| && out[n] == items[origin[n]]
  }

  /** `out` holds, in order of first appearance, every item without a key and, for each key, the first
      item of the highest rank. */
  ghost predicate IsDeduplicated<T, K>(items: seq<T>, keyOf: T -> K, none: K, rankOf: T -> nat, out: seq<T>) {
    exists place: seq<nat>, origin: seq<nat> ::
      Deduplicates(none, Keys(items, keyOf), Keys(items, rankOf), place, origin) && Picks(items, out, origin)
  }

  lemma PickAppended<T>(items: seq<T>, out: seq<T>, origin: seq<nat>, i: nat)
    requires Picks(items, out, origin) && i < |items|
    ensures Picks(items, out + [items[i]], origin + [i])
  {
  }

  lemma PickReplaced<T>(items: seq<T>, out: seq<T>, origin: seq<nat>, idx: nat, i: nat)
    requires Picks(items, out, origin) && i < |items| && idx < |out|
    ensures Picks(items, out[idx := items[i]], origin[idx := i])
  {
  }

  method Dedupe<T, K(==)>(items: seq<T>, keyOf: T -> K, none: K, rankOf: T -> nat) returns (out: seq<T>)
    ensures IsDeduplicated(items, keyOf, none, rankOf, out)
  {
    var primaryIdx: map<K, nat> := map[];
    out := [];
    ghost var place: seq<nat>, origin: seq<nat> := [], [];
    ghost var keys, ranks := Keys(items, keyOf), Keys(items, rankOf);
    for i := 0 to |items|
      invariant Deduping(none, keys, ranks, i, place, origin, primaryIdx)
      invariant Picks(items, out, origin)
    {
      var item := items[i];
      var key := keyOf(item);
      if key == none {
        NewKeyStep(none, keys, ranks, i, place, origin, primaryIdx);
        PickAppended(items, out, origin, i);
        out, place, origin := out + [item], place + [i], origin + [i];
      } else if key in primaryIdx {
        var idx := primaryIdx[key];
        KnownKeyStep(none, keys, ranks, i, place, origin, primaryIdx);
        PickReplaced(items, out, origin, idx, i);
        assert ranks[origin[idx]] == rankOf(out[idx]);
        if rankOf(item) > rankOf(out[idx]) {
          out := out[idx := item];
          origin := origin[idx := i];
        }
      } else {
        NewKeyStep(none, keys, ranks, i, place, origin, primaryIdx);
        PickAppended(items, out, origin, i);
        primaryIdx := primaryIdx[key := |out|];
        out, place, origin := out + [item], place + [i], origin + [i];
      }
    }
    assert keys[..|keys|] == keys && ranks[..|ranks|] == ranks;
    assert Deduplicates(none, keys, ranks, place, origin) && Picks(items, out, origin);
  }

  ghost predicate HasKey<T, K>(items: seq<T>, keyOf: T -> K, k: K) {
    exists n :: 0 <= n < |items| && keyOf(items[n]) == k
  }

  /** No two entries share a key, and every key has its entry. */
  lemma OnePerKey<T, K>(items: seq<T>, keyOf: T -> K, none: K, rankOf: T -> nat, out: seq<T>)
    requires IsDeduplicated(items, keyOf, none, rankOf, out)
    ensures forall m, n :: 0 <= m < n < |out| && keyOf(out[m]) != none ==> keyOf(out[m]) != keyOf(out[n])
    ensures forall i :: 0 <= i < |items| ==> HasKey(out, keyOf, keyOf(items[i]))
    ensures forall n :: 0 <= n < |out| ==> out[n] in items
  {
    var keys, ranks := Keys(items, keyOf), Keys(items, rankOf);
    var place: seq<nat>, origin: seq<nat> :| Deduplicates(none, keys, ranks, place, origin) && Picks(items, out, origin);
    forall m, n | 0 <= m < n < |out| && keyOf(out[m]) != none ensures keyOf(out[m]) != keyOf(out[n]) {
      assert ChosenFor(none, keys, ranks, place[m], origin[m]) && ChosenFor(none, keys, ranks, place[n], origin[n]);
      assert FirstOfKey(none, keys, place[n]) && place[m] < place[n];
    }
    forall i | 0 <= i < |items| ensures HasKey(out, keyOf, keyOf(items[i])) {
      var n := KeyHasPlace(none, keys, ranks, place, origin, i);
      assert ChosenFor(none, keys, ranks, place[n], origin[n]);
      assert keyOf(out[n]) == keyOf(items[i]);
    }
  }
}


/** The three-round greedy matching of hardware to configurations, for any notion of key, id and path. */
module Matching {
  import opened Wrappers

  /** What the matching may ask: identity keys (`none` when unknown), config ids, the path test for
      configs without a key, and the identity written back to such a config. */
  datatype Rules<!C, !H, !K, !I, !B> = Rules(configKey: C -> K, hardwareKey: H -> K, none: K, idOf: C -> I,
                                             pathMatch: (C, H) -> bool, backfillOf: H -> B, noBackfill: B)

  datatype Pair<C, H, B> = Pair(config: C, hardware: H, backfill: B)

  datatype Result<C, H, B> = Result(matched: seq<Pair<C, H, B>>, unmatched: seq<H>, offline: seq<C>, degraded: seq<H>)

  function HardwareOf<C, H, B>(pairs: seq<Pair<C, H, B>>): (hs: seq<H>)
    ensures |hs| == |pairs| && forall i :: 0 <= i < |pairs| ==> hs[i] == pairs[i].hardware
  {
    seq(|pairs|, i requires 0 <= i < |pairs| => pairs[i].hardware)
  }

  // ---------- Sorting the configurations

  /** The configs without a key, in order. */
  function LegacyOf<C, H, K(==), I, B>(r: Rules<C, H, K, I, B>, configs: seq<C>): (legacy: seq<C>)
    ensures forall c :: c in legacy ==> c in configs && r.configKey(c) == r.none
    ensures forall c :: c in configs && r.configKey(c) == r.none ==> c in legacy
  {
    if configs == [] then []
    else
      var last := configs[|configs| - 1];
      assert configs == configs[..|configs| - 1] + [last];
      LegacyOf(r, configs[..|configs| - 1]) + if r.configKey(last) == r.none then [last] else []
  }

  /** Config n is the first with its key. */
  ghost predicate FirstWithKey<C, H, K, I, B>(r: Rules<C, H, K, I, B>, configs: seq<C>, n: nat) {
    n < |configs| && r.configKey(configs[n]) != r.none && forall m :: 0 <= m < n ==> r.configKey(configs[m]) != r.configKey(configs[n])
  }

  /** The map leads from each key to the first config that has it. */
  ghost predicate IndexesConfigs<C, H, K, I, B>(r: Rules<C, H, K, I, B>, configs: seq<C>, byKey: map<K, C>) {
    && (forall k :: k in byKey ==> k != r.none && byKey[k] in configs && r.configKey(byKey[k]) == k)
    && (forall c :: c in configs && r.configKey(c) != r.none ==> r.configKey(c) in byKey)
    && (forall n: nat :: FirstWithKey(r, configs, n) ==> byKey[r.configKey(configs[n])] == configs[n])
  }

  lemma OneMoreConfig<C, H, K, I, B>(r: Rules<C, H, K, I, B>, configs: seq<C>, byKey: map<K, C>, c: C)
    requires IndexesConfigs(r, configs, byKey)
    ensures var k := r.configKey(c);
            IndexesConfigs(r, configs + [c], if k != r.none && k !in byKey then byKey[k := c] else byKey)
  {
    var k := r.configKey(c);
    var all := configs + [c];
    var byKey' := if k != r.none && k !in byKey then byKey[k := c] else byKey;
    forall n: nat | FirstWithKey(r, all, n) ensures r.configKey(all[n]) in byKey' && byKey'[r.configKey(all[n])] == all[n] {
      if n < |configs| {
        assert forall m :: 0 <= m < n ==> all[m] == configs[m];
        assert FirstWithKey(r, configs, n);
      } else {
        forall other | other in configs ensures r.configKey(other) != k {
          var m :| 0 <= m < |configs| && configs[m] == other;
          assert all[m] == other;
        }
      }
    }
  }

  method SortConfigs<C, H, K(==), I, B>(r: Rules<C, H, K, I, B>, configured: seq<C>) returns (byKey: map<K, C>, legacy: seq<C>)
    ensures IndexesConfigs(r, configured, byKey)
    ensures legacy == LegacyOf(r, configured)
  {
    byKey, legacy := map[], [];
    for i := 0 to |configured|
      invariant IndexesConfigs(r, configured[..i], byKey)
      invariant legacy == LegacyOf(r, configured[..i])
    {
      var cfg := configured[i];
      assert configured[..i + 1] == configured[..i] + [cfg];
      assert configured[..i + 1][..i] == configured[..i];
      OneMoreConfig(r, configured[..i], byKey, cfg);
      var key := r.configKey(cfg);
      if key != r.none {
        if key !in byKey {
          byKey := byKey[key := cfg];
        }
        continue;
      }
      legacy := legacy + [cfg];
    }
    assert configured[..|configured|] == configured;
  }

  // ---------- Claims so far

  /** `used` holds exactly the ids of the matched configs. */
  ghost predicate Tracks<C, H, K, I, B>(r: Rules<C, H, K, I, B>, matched: seq<Pair<C, H, B>>, used: set<I>) {
    && (forall p :: p in matched ==> r.idOf(p.config) in used)
    && (forall x :: x in used ==> exists p :: p in matched && r.idOf(p.config) == x)
  }

  /** A pair is an identity match, or a path match of a config without a key. */
  ghost predicate PairOk<C, H, K, I, B>(r: Rules<C, H, K, I, B>, configs: seq<C>, p: Pair<C, H, B>) {
    && p.config in configs
    && if r.configKey(p.config) != r.none
       then r.hardwareKey(p.hardware) == r.configKey(p.config) && p.backfill == r.noBackfill
       else && r.pathMatch(p.config, p.hardware)
            && p.backfill == if r.hardwareKey(p.hardware) != r.none then r.backfillOf(p.hardware) else r.noBackfill
  }

  ghost predicate AllOk<C, H, K, I, B>(r: Rules<C, H, K, I, B>, configs: seq<C>, matched: seq<Pair<C, H, B>>) {
    forall p :: p in matched ==> PairOk(r, configs, p)
  }

  lemma AddPair<C, H, K, I, B>(r: Rules<C, H, K, I, B>, configs: seq<C>, matched: seq<Pair<C, H, B>>, used: set<I>, p: Pair<C, H, B>)
    requires Tracks(r, matched, used) && AllOk(r, configs, matched) && PairOk(r, configs, p)
    ensures Tracks(r, matched + [p], used + {r.idOf(p.config)}) && AllOk(r, configs, matched + [p])
    ensures HardwareOf(matched + [p]) == HardwareOf(matched) + [p.hardware]
  {
    var all := matched + [p];
    assert all[|matched|] == p;
    forall x | x in used + {r.idOf(p.config)} ensures exists q :: q in all && r.idOf(q.config) == x {
      if x in used {
        var q :| q in matched && r.idOf(q.config) == x;
        assert q in all;
      } else {
        assert p in all;
      }
    }
  }

  // ---------- The rounds

  /** The same items on both sides, each as often. */
  ghost predicate Balanced<H>(a: seq<H>, b: seq<H>, c: seq<H>, d: seq<H>) {
    multiset(a) + multiset(b) == multiset(c) + multiset(d)
  }

  lemma BalancedGrows<H>(a: seq<H>, b: seq<H>, c: seq<H>, d: seq<H>, h: H)
    requires Balanced(a, b, c, d)
    ensures Balanced(a + [h], b, c, d + [h]) && Balanced(a, b + [h], c, d + [h])
  {
    assert multiset(a + [h]) == multiset(a) + multiset{h} && multiset(b + [h]) == multiset(b) + multiset{h};
    assert multiset(d + [h]) == multiset(d) + multiset{h};
    assert multiset(a + [h]) + multiset(b) == multiset(a) + multiset(b) + multiset{h} == multiset(a) + multiset(b + [h]);
    assert multiset(c) + multiset(d + [h]) == multiset(c) + multiset(d) + multiset{h};
  }

  ghost predicate DistinctKeys<H, K>(hardware: seq<H>, keyOf: H -> K, none: K) {
    forall m, n :: 0 <= m < n < |hardware| && keyOf(hardware[m]) != none ==> keyOf(hardware[m]) != keyOf(hardware[n])
  }

  /** Round one: identity matches. What has a key but no config, and what has no key, is left over. */
  ghost predicate FirstRound<C, H, K, I, B>(r: Rules<C, H, K, I, B>, configs: seq<C>, byKey: map<K, C>, hardware: seq<H>,
                                            matched: seq<Pair<C, H, B>>, used: set<I>, keyed: seq<H>, keyless: seq<H>)
  {
    && Balanced(HardwareOf(matched) + keyed, keyless, [], hardware)
    && Tracks(r, matched, used) && AllOk(r, configs, matched)
    && (forall p :: p in matched ==> p.hardware in hardware && r.configKey(p.config) in byKey && p.config == byKey[r.configKey(p.config)])
    && (DistinctKeys(hardware, r.hardwareKey, r.none) ==> DistinctKeys(HardwareOf(matched), r.hardwareKey, r.none))
    && (forall h :: h in keyed ==> r.hardwareKey(h) != r.none && r.hardwareKey(h) !in byKey)
    && (forall h :: h in keyless ==> r.hardwareKey(h) == r.none)
    && (forall h :: h in hardware && r.hardwareKey(h) in byKey ==> r.idOf(byKey[r.hardwareKey(h)]) in used)
  }

  lemma DistinctKeysGrow<H, K>(hardware: seq<H>, some: seq<H>, keyOf: H -> K, none: K, hw: H)
    requires DistinctKeys(hardware, keyOf, none) ==> DistinctKeys(some, keyOf, none)
    requires forall i :: 0 <= i < |some| ==> some[i] in hardware
    ensures DistinctKeys(hardware + [hw], keyOf, none) ==> DistinctKeys(hardware, keyOf, none)
    ensures DistinctKeys(hardware + [hw], keyOf, none) ==> DistinctKeys(some + [hw], keyOf, none)
  {
    if DistinctKeys(hardware + [hw], keyOf, none) {
      forall m, n | 0 <= m < n < |hardware| && keyOf(hardware[m]) != none ensures keyOf(hardware[m]) != keyOf(hardware[n]) {
        assert (hardware + [hw])[m] == hardware[m] && (hardware + [hw])[n] == hardware[n];
      }
      forall i | 0 <= i < |some| && keyOf(some[i]) != none ensures keyOf(some[i]) != keyOf(hw) {
        var m :| 0 <= m < |hardware| && hardware[m] == some[i];
        assert (hardware + [hw])[m] == some[i] && (hardware + [hw])[|hardware|] == hw;
      }
    }
  }

  lemma FirstRoundStep<C, H, K, I, B>(r: Rules<C, H, K, I, B>, configs: seq<C>, byKey: map<K, C>, hardware: seq<H>,
                                      matched: seq<Pair<C, H, B>>, used: set<I>, keyed: seq<H>, keyless: seq<H>, hw: H)
    requires IndexesConfigs(r, configs, byKey) && FirstRound(r, configs, byKey, hardware, matched, used, keyed, keyless)
    ensures var k := r.hardwareKey(hw);
            && (k == r.none ==> FirstRound(r, configs, byKey, hardware + [hw], matched, used, keyed, keyless + [hw]))
            && (k != r.none && k !in byKey ==> FirstRound(r, configs, byKey, hardware + [hw], matched, used, keyed + [hw], keyless))
            && (k in byKey ==> FirstRound(r, configs, byKey, hardware + [hw], matched + [Pair(byKey[k], hw, r.noBackfill)],
                                          used + {r.idOf(byKey[k])}, keyed, keyless))
  {
    var k := r.hardwareKey(hw);
    DistinctKeysGrow(hardware, HardwareOf(matched), r.hardwareKey, r.none, hw);
    BalancedGrows(HardwareOf(matched) + keyed, keyless, [], hardware, hw);
    if k in byKey {
      var p := Pair(byKey[k], hw, r.noBackfill);
      AddPair(r, configs, matched, used, p);
    } else if k != r.none {
      assert HardwareOf(matched) + keyed + [hw] == HardwareOf(matched) + (keyed + [hw]);
    }
  }

  method MatchByKey<C, H, K(==), I(==), B>(r: Rules<C, H, K, I, B>, ghost configs: seq<C>, byKey: map<K, C>, hardware: seq<H>)
    returns (matched: seq<Pair<C, H, B>>, used: set<I>, keyed: seq<H>, keyless: seq<H>)
    requires IndexesConfigs(r, configs, byKey)
    ensures FirstRound(r, configs, byKey, hardware, matched, used, keyed, keyless)
  {
    matched, used, keyed, keyless := [], {}, [], [];
    for i := 0 to |hardware|
      invariant FirstRound(r, configs, byKey, hardware[..i], matched, used, keyed, keyless)
    {
      var hw := hardware[i];
      assert hardware[..i + 1] == hardware[..i] + [hw];
      FirstRoundStep(r, configs, byKey, hardware[..i], matched, used, keyed, keyless, hw);
      var key := r.hardwareKey(hw);
      if key == r.none {
        keyless := keyless + [hw];
        continue;
      }
      if key in byKey {
        var cfg := byKey[key];
        matched := matched + [Pair(cfg, hw, r.noBackfill)];
        used := used + {r.idOf(cfg)};
        continue;
      }
      keyed := keyed + [hw];
    }
    assert hardware[..|hardware|] == hardware;
  }

  /** Legacy config n is the first unused one that matches the hardware's path. */
  ghost predicate FirstFree<C, H, K, I, B>(r: Rules<C, H, K, I, B>, legacy: seq<C>, used: set<I>, hw: H, n: nat) {
    && n < |legacy| && r.idOf(legacy[n]) !in used && r.pathMatch(legacy[n], hw)
    && forall m :: 0 <= m < n ==> r.idOf(legacy[m]) in used || !r.pathMatch(legacy[m], hw)
  }

  method TakeLegacyConfig<C, H, K, I(==), B>(r: Rules<C, H, K, I, B>, legacy: seq<C>, used: set<I>, hw: H)
    returns (taken: Option<C>, used': set<I>)
    ensures taken.None? ==> used' == used && forall c :: c in legacy ==> r.idOf(c) in used || !r.pathMatch(c, hw)
    ensures taken.Some? ==> used' == used + {r.idOf(taken.value)} && exists n: nat :: FirstFree(r, legacy, used, hw, n) && legacy[n] == taken.value
  {
    for i := 0 to |legacy|
      invariant forall m :: 0 <= m < i ==> r.idOf(legacy[m]) in used || !r.pathMatch(legacy[m], hw)
    {
      var cfg := legacy[i];
      if r.idOf(cfg) in used {
        continue;
      }
      if r.pathMatch(cfg, hw) {
        assert FirstFree(r, legacy, used, hw, i);
        return Some(cfg), used + {r.idOf(cfg)};
      }
    }
    return None, used;
  }

  /** The unused legacy configs do not match this hardware's path. */
  ghost predicate NoneFits<C, H, K, I, B>(r: Rules<C, H, K, I, B>, legacy: seq<C>, used: set<I>, hw: H) {
    forall c :: c in legacy && r.idOf(c) !in used ==> !r.pathMatch(c, hw)
  }

  /** A migration round over `pending` extended the matches by legacy configs that were unused before. */
  ghost predicate Migrated<C, H, K, I, B>(r: Rules<C, H, K, I, B>, configs: seq<C>, legacy: seq<C>, pending: seq<H>,
                                          matched0: seq<Pair<C, H, B>>, used0: set<I>,
                                          matched: seq<Pair<C, H, B>>, used: set<I>, rest: seq<H>)
  {
    && matched0 <= matched && used0 <= used
    && Balanced(HardwareOf(matched), rest, HardwareOf(matched0), pending)
    && Tracks(r, matched, used) && AllOk(r, configs, matched)
    && (forall i :: |matched0| <= i < |matched| ==> matched[i].config in legacy && matched[i].hardware in pending)
    && (forall i, j :: 0 <= i < j < |matched| && |matched0| <= j ==> r.idOf(matched[i].config) != r.idOf(matched[j].config))
    && (forall h :: h in rest ==> h in pending && NoneFits(r, legacy, used, h))
  }

  lemma MigrateOne<C, H, K, I, B>(r: Rules<C, H, K, I, B>, configs: seq<C>, legacy: seq<C>, pending: seq<H>, hw: H,
                                  matched0: seq<Pair<C, H, B>>, used0: set<I>,
                                  matched: seq<Pair<C, H, B>>, used: set<I>, rest: seq<H>, p: Pair<C, H, B>)
    requires Migrated(r, configs, legacy, pending, matched0, used0, matched, used, rest)
    requires p.config in legacy && p.hardware == hw && r.idOf(p.config) !in used && PairOk(r, configs, p)
    ensures Migrated(r, configs, legacy, pending + [hw], matched0, used0, matched + [p], used + {r.idOf(p.config)}, rest)
  {
    AddPair(r, configs, matched, used, p);
    BalancedGrows(HardwareOf(matched), rest, HardwareOf(matched0), pending, hw);
    assert forall i :: 0 <= i < |matched| ==> matched[i] in matched;
    forall h | h in rest ensures h in pending + [hw] && NoneFits(r, legacy, used + {r.idOf(p.config)}, h) {
      assert NoneFits(r, legacy, used, h);
    }
  }

  lemma LeaveOne<C, H, K, I, B>(r: Rules<C, H, K, I, B>, configs: seq<C>, legacy: seq<C>, pending: seq<H>, hw: H,
                                matched0: seq<Pair<C, H, B>>, used0: set<I>,
                                matched: seq<Pair<C, H, B>>, used: set<I>, rest: seq<H>)
    requires Migrated(r, configs, legacy, pending, matched0, used0, matched, used, rest)
    requires NoneFits(r, legacy, used, hw)
    ensures Migrated(r, configs, legacy, pending + [hw], matched0, used0, matched, used, rest + [hw])
  {
    BalancedGrows(HardwareOf(matched), rest, HardwareOf(matched0), pending, hw);
  }

  /** Rounds two and three: bind pending hardware to unused configs without a key, by path. */
  method MatchByPath<C, H, K(==), I(==), B>(r: Rules<C, H, K, I, B>, ghost configs: seq<C>, legacy: seq<C>, pending: seq<H>,
                                            matched0: seq<Pair<C, H, B>>, used0: set<I>)
    returns (matched: seq<Pair<C, H, B>>, used: set<I>, rest: seq<H>)
    requires Tracks(r, matched0, used0) && AllOk(r, configs, matched0) && legacy == LegacyOf(r, configs)
    ensures Migrated(r, configs, legacy, pending, matched0, used0, matched, used, rest)
  {
    matched, used, rest := matched0, used0, [];
    for i := 0 to |pending|
      invariant Migrated(r, configs, legacy, pending[..i], matched0, used0, matched, used, rest)
    {
      var hw := pending[i];
      assert pending[..i + 1] == pending[..i] + [hw];
      var taken, used' := TakeLegacyConfig(r, legacy, used, hw);
      if taken.Some? {
        var p := Pair(taken.value, hw, if r.hardwareKey(hw) != r.none then r.backfillOf(hw) else r.noBackfill);
        MigrateOne(r, configs, legacy, pending[..i], hw, matched0, used0, matched, used, rest, p);
        matched := matched + [p];
        used := used';
      } else {
        LeaveOne(r, configs, legacy, pending[..i], hw, matched0, used0, matched, used, rest);
        rest := rest + [hw];
      }
    }
    assert pending[..|pending|] == pending;
  }

  // ---------- The whole resolution

  function Unused<C, H, K, I(==), B>(r: Rules<C, H, K, I, B>, configs: seq<C>, used: set<I>): (rest: seq<C>)
    ensures forall c :: c in rest ==> c in configs && r.idOf(c) !in used
    ensures forall c :: c in configs && r.idOf(c) !in used ==> c in rest
  {
    if configs == [] then []
    else
      var last := configs[|configs| - 1];
      assert configs == configs[..|configs| - 1] + [last];
      Unused(r, configs[..|configs| - 1], used) + if r.idOf(last) in used then [] else [last]
  }

  /** Hardware is split into matched, unmatched and degraded; unmatched hardware has a key that no config
      has, degraded hardware has none. */
  ghost predicate HardwareAccounted<C, H, K, I, B>(r: Rules<C, H, K, I, B>, hardware: seq<H>, configs: seq<C>, res: Result<C, H, B>) {
    && Balanced(HardwareOf(res.matched) + res.unmatched, res.degraded, [], hardware)
    && (forall h :: h in res.unmatched ==> r.hardwareKey(h) != r.none && forall c :: c in configs ==> r.configKey(c) != r.hardwareKey(h))
    && (forall h :: h in res.degraded ==> r.hardwareKey(h) == r.none)
  }

  function UsedIds<C, H, K, I(==), B>(r: Rules<C, H, K, I, B>, matched: seq<Pair<C, H, B>>): set<I> {
    set i | 0 <= i < |matched| :: r.idOf(matched[i].config)
  }

  lemma TracksUsedIds<C, H, K, I, B>(r: Rules<C, H, K, I, B>, matched: seq<Pair<C, H, B>>, used: set<I>)
    requires Tracks(r, matched, used)
    ensures used == UsedIds(r, matched)
  {
    forall x | x in used ensures x in UsedIds(r, matched) {
      var p :| p in matched && r.idOf(p.config) == x;
      var i :| 0 <= i < |matched| && matched[i] == p;
      assert r.idOf(matched[i].config) in UsedIds(r, matched);
    }
  }

  /** The offline configs are exactly those whose id no match used, in their order. */
  ghost predicate ConfigsAccounted<C, H, K, I, B>(r: Rules<C, H, K, I, B>, configs: seq<C>, res: Result<C, H, B>) {
    res.offline == Unused(r, configs, UsedIds(r, res.matched))
  }

  /** Nothing is left over that could still be matched: no remaining hardware fits the path of an offline
      config without a key, and the first config of a key is offline only when no hardware has that key. */
  ghost predicate Maximal<C, H, K, I, B>(r: Rules<C, H, K, I, B>, hardware: seq<H>, configs: seq<C>, res: Result<C, H, B>) {
    && (forall c, h :: c in res.offline && r.configKey(c) == r.none && h in res.unmatched ==> !r.pathMatch(c, h))
    && (forall c, h :: c in res.offline && r.configKey(c) == r.none && h in res.degraded ==> !r.pathMatch(c, h))
    && (forall n: nat, h :: FirstWithKey(r, configs, n) && configs[n] in res.offline && h in hardware ==>
          r.hardwareKey(h) != r.configKey(configs[n]))
  }

  /** Hardware with a key comes first: none that was left over fits a config that hardware without a key got. */
  ghost predicate KeyedFirst<C, H, K, I, B>(r: Rules<C, H, K, I, B>, res: Result<C, H, B>) {
    forall p, h :: p in res.matched && r.hardwareKey(p.hardware) == r.none && h in res.unmatched ==> !r.pathMatch(p.config, h)
  }

  /** A keyed config in a pair is the first of its key; hardware bound by path has no config of its key. */
  ghost predicate Placed<C, H, K, I, B>(r: Rules<C, H, K, I, B>, configs: seq<C>, p: Pair<C, H, B>) {
    if r.configKey(p.config) != r.none then exists n: nat :: FirstWithKey(r, configs, n) && configs[n] == p.config
    else r.hardwareKey(p.hardware) != r.none ==> forall c :: c in configs ==> r.configKey(c) != r.hardwareKey(p.hardware)
  }

  /** Every pair is placed, and one made by path takes an id that no pair before it has. */
  ghost predicate Greedy<C, H, K, I, B>(r: Rules<C, H, K, I, B>, configs: seq<C>, matched: seq<Pair<C, H, B>>) {
    && (forall p :: p in matched ==> Placed(r, configs, p))
    && (forall i, j :: 0 <= i < j < |matched| && r.configKey(matched[j].config) == r.none ==>
          r.idOf(matched[i].config) != r.idOf(matched[j].config))
  }

  ghost predicate DistinctIds<C, I>(configs: seq<C>, idOf: C -> I) {
    forall m, n :: 0 <= m < n < |configs| ==> idOf(configs[m]) != idOf(configs[n])
  }

  ghost predicate MatchedOnce<C, H, K, I, B>(r: Rules<C, H, K, I, B>, matched: seq<Pair<C, H, B>>) {
    forall i, j :: 0 <= i < j < |matched| ==> r.idOf(matched[i].config) != r.idOf(matched[j].config)
  }

  /** Everything the resolution promises of its result. */
  ghost predicate Resolves<C, H, K, I, B>(r: Rules<C, H, K, I, B>, hardware: seq<H>, configs: seq<C>, res: Result<C, H, B>) {
    && HardwareAccounted(r, hardware, configs, res)
    && ConfigsAccounted(r, configs, res)
    && AllOk(r, configs, res.matched)
    && Maximal(r, hardware, configs, res)
    && KeyedFirst(r, res)
    && Greedy(r, configs, res.matched)
  }

  method Resolve<C, H, K(==), I(==), B>(r: Rules<C, H, K, I, B>, hardware: seq<H>, configured: seq<C>) returns (res: Result<C, H, B>)
    ensures Resolves(r, hardware, configured, res)
    ensures DistinctIds(configured, r.idOf) && DistinctKeys(hardware, r.hardwareKey, r.none) ==> MatchedOnce(r, res.matched)
  {
    var byKey, legacy := SortConfigs(r, configured);
    var matched1, used1, keyed, keyless := MatchByKey(r, configured, byKey, hardware);
    var matched2, used2, unmatched := MatchByPath(r, configured, legacy, keyed, matched1, used1);
    var matched3, used3, degraded := MatchByPath(r, configured, legacy, keyless, matched2, used2);
    var offline := [];
    for i := 0 to |configured|
      invariant offline == Unused(r, configured[..i], used3)
    {
      var cfg := configured[i];
      assert configured[..i + 1][..i] == configured[..i];
      if r.idOf(cfg) !in used3 {
        offline := offline + [cfg];
      }
    }
    assert configured[..|configured|] == configured;
    res := Result(matched3, unmatched, offline, degraded);
    RoundsResolve(r, configured, byKey, legacy, hardware, keyed, keyless, matched1, used1, matched2, used2, used3, res);
    if DistinctIds(configured, r.idOf) && DistinctKeys(hardware, r.hardwareKey, r.none) {
      RoundsMatchOnce(r, configured, byKey, legacy, hardware, keyed, keyless, matched1, used1, matched2, used2, used3, res);
    }
  }

  lemma RoundsResolve<C, H, K, I, B>(r: Rules<C, H, K, I, B>, configs: seq<C>, byKey: map<K, C>, legacy: seq<C>, hardware: seq<H>,
                                     keyed: seq<H>, keyless: seq<H>, matched1: seq<Pair<C, H, B>>, used1: set<I>,
                                     matched2: seq<Pair<C, H, B>>, used2: set<I>, used3: set<I>, res: Result<C, H, B>)
    requires IndexesConfigs(r, configs, byKey) && legacy == LegacyOf(r, configs)
    requires FirstRound(r, configs, byKey, hardware, matched1, used1, keyed, keyless)
    requires Migrated(r, configs, legacy, keyed, matched1, used1, matched2, used2, res.unmatched)
    requires Migrated(r, configs, legacy, keyless, matched2, used2, res.matched, used3, res.degraded)
    requires res.offline == Unused(r, configs, used3)
    ensures Resolves(r, hardware, configs, res)
  {
    RoundsBalance(HardwareOf(matched1), keyed, keyless, hardware, HardwareOf(matched2), res.unmatched, HardwareOf(res.matched), res.degraded);
    TracksUsedIds(r, res.matched, used3);
    forall n: nat, h | FirstWithKey(r, configs, n) && configs[n] in res.offline && h in hardware
      ensures r.hardwareKey(h) != r.configKey(configs[n])
    {
      assert configs[n] in configs;
    }
    RoundsKeyedFirst(r, configs, byKey, legacy, hardware, keyed, keyless, matched1, used1, matched2, used2, used3, res);
    RoundsGreedy(r, configs, byKey, legacy, hardware, keyed, keyless, matched1, used1, matched2, used2, used3, res);
    forall c, h | c in res.offline && r.configKey(c) == r.none && (h in res.unmatched || h in res.degraded) ensures !r.pathMatch(c, h) {
      assert h in res.unmatched ==> NoneFits(r, legacy, used2, h);
      assert h in res.degraded ==> NoneFits(r, legacy, used3, h);
    }
  }

  lemma RoundsKeyedFirst<C, H, K, I, B>(r: Rules<C, H, K, I, B>, configs: seq<C>, byKey: map<K, C>, legacy: seq<C>, hardware: seq<H>,
                                        keyed: seq<H>, keyless: seq<H>, matched1: seq<Pair<C, H, B>>, used1: set<I>,
                                        matched2: seq<Pair<C, H, B>>, used2: set<I>, used3: set<I>, res: Result<C, H, B>)
    requires IndexesConfigs(r, configs, byKey) && legacy == LegacyOf(r, configs)
    requires FirstRound(r, configs, byKey, hardware, matched1, used1, keyed, keyless)
    requires Migrated(r, configs, legacy, keyed, matched1, used1, matched2, used2, res.unmatched)
    requires Migrated(r, configs, legacy, keyless, matched2, used2, res.matched, used3, res.degraded)
    ensures KeyedFirst(r, res)
  {
    forall p, h | p in res.matched && r.hardwareKey(p.hardware) == r.none && h in res.unmatched ensures !r.pathMatch(p.config, h) {
      assert NoneFits(r, legacy, used2, h);
      var i :| 0 <= i < |res.matched| && res.matched[i] == p;
      assert PairOk(r, configs, p);
      assert i >= |matched2|;
    }
  }

  lemma FirstOfItsKey<C, H, K, I, B>(r: Rules<C, H, K, I, B>, configs: seq<C>, m: nat) returns (n: nat)
    requires m < |configs| && r.configKey(configs[m]) != r.none
    ensures FirstWithKey(r, configs, n) && r.configKey(configs[n]) == r.configKey(configs[m])
    decreases m
  {
    if k :| 0 <= k < m && r.configKey(configs[k]) == r.configKey(configs[m]) {
      n := FirstOfItsKey(r, configs, k);
    } else {
      n := m;
    }
  }

  /** The map leads to the first config of a key. */
  lemma IndexedIsFirst<C, H, K, I, B>(r: Rules<C, H, K, I, B>, configs: seq<C>, byKey: map<K, C>, k: K) returns (n: nat)
    requires IndexesConfigs(r, configs, byKey) && k in byKey
    ensures FirstWithKey(r, configs, n) && configs[n] == byKey[k]
  {
    var m: nat :| m < |configs| && configs[m] == byKey[k];
    n := FirstOfItsKey(r, configs, m);
  }

  lemma RoundsGreedy<C, H, K, I, B>(r: Rules<C, H, K, I, B>, configs: seq<C>, byKey: map<K, C>, legacy: seq<C>, hardware: seq<H>,
                                    keyed: seq<H>, keyless: seq<H>, matched1: seq<Pair<C, H, B>>, used1: set<I>,
                                    matched2: seq<Pair<C, H, B>>, used2: set<I>, used3: set<I>, res: Result<C, H, B>)
    requires IndexesConfigs(r, configs, byKey) && legacy == LegacyOf(r, configs)
    requires FirstRound(r, configs, byKey, hardware, matched1, used1, keyed, keyless)
    requires Migrated(r, configs, legacy, keyed, matched1, used1, matched2, used2, res.unmatched)
    requires Migrated(r, configs, legacy, keyless, matched2, used2, res.matched, used3, res.degraded)
    ensures Greedy(r, configs, res.matched)
  {
    forall i | 0 <= i < |res.matched| ensures Placed(r, configs, res.matched[i]) {
      var p := res.matched[i];
      if i < |matched1| {
        assert p == matched1[i] && p in matched1;
        var n := IndexedIsFirst(r, configs, byKey, r.configKey(p.config));
      } else if i < |matched2| {
        assert p == matched2[i];
      }
    }
    assert forall k :: 0 <= k < |matched1| ==> res.matched[k] == matched1[k] && matched1[k] in matched1;
    forall i, j | 0 <= i < j < |res.matched| && r.configKey(res.matched[j].config) == r.none
      ensures r.idOf(res.matched[i].config) != r.idOf(res.matched[j].config)
    {
      assert j < |matched2| ==> matched2[i] == res.matched[i] && matched2[j] == res.matched[j];
      assert j >= |matched1|;
    }
  }

  lemma RoundsBalance<H>(hs1: seq<H>, keyed: seq<H>, keyless: seq<H>, hardware: seq<H>,
                         hs2: seq<H>, unmatched: seq<H>, hs3: seq<H>, degraded: seq<H>)
    requires Balanced(hs1 + keyed, keyless, [], hardware)
    requires Balanced(hs2, unmatched, hs1, keyed) && Balanced(hs3, degraded, hs2, keyless)
    ensures Balanced(hs3 + unmatched, degraded, [], hardware)
  {
    assert multiset(hs1 + keyed) == multiset(hs1) + multiset(keyed);
    assert multiset(hs3 + unmatched) == multiset(hs3) + multiset(unmatched);
    assert multiset(hs3) + multiset(unmatched) + multiset(degraded) == (multiset(hs3) + multiset(degraded)) + multiset(unmatched);
    assert (multiset(hs2) + multiset(keyless)) + multiset(unmatched) == (multiset(hs2) + multiset(unmatched)) + multiset(keyless);
  }

  lemma RoundsMatchOnce<C, H, K, I, B>(r: Rules<C, H, K, I, B>, configs: seq<C>, byKey: map<K, C>, legacy: seq<C>, hardware: seq<H>,
                                       keyed: seq<H>, keyless: seq<H>, matched1: seq<Pair<C, H, B>>, used1: set<I>,
                                       matched2: seq<Pair<C, H, B>>, used2: set<I>, used3: set<I>, res: Result<C, H, B>)
    requires IndexesConfigs(r, configs, byKey) && DistinctIds(configs, r.idOf) && DistinctKeys(hardware, r.hardwareKey, r.none)
    requires FirstRound(r, configs, byKey, hardware, matched1, used1, keyed, keyless)
    requires Migrated(r, configs, legacy, keyed, matched1, used1, matched2, used2, res.unmatched)
    requires Migrated(r, configs, legacy, keyless, matched2, used2, res.matched, used3, res.degraded)
    ensures MatchedOnce(r, res.matched)
  {
    IdentityMatchesOnce(r, configs, byKey, hardware, matched1, used1, keyed, keyless);
    forall i, j | 0 <= i < j < |res.matched| ensures r.idOf(res.matched[i].config) != r.idOf(res.matched[j].config) {
      assert j < |matched2| ==> matched2[i] == res.matched[i] && matched2[j] == res.matched[j];
      assert j < |matched1| ==> matched1[i] == res.matched[i] && matched1[j] == res.matched[j];
    }
  }

  /** Identity matches never share a config id: the hardware keys differ, hence the configs, hence the ids. */
  lemma IdentityMatchesOnce<C, H, K, I, B>(r: Rules<C, H, K, I, B>, configs: seq<C>, byKey: map<K, C>, hardware: seq<H>,
                                           matched: seq<Pair<C, H, B>>, used: set<I>, keyed: seq<H>, keyless: seq<H>)
    requires IndexesConfigs(r, configs, byKey) && DistinctIds(configs, r.idOf) && DistinctKeys(hardware, r.hardwareKey, r.none)
    requires FirstRound(r, configs, byKey, hardware, matched, used, keyed, keyless)
    ensures MatchedOnce(r, matched)
  {
    forall i, j | 0 <= i < j < |matched| ensures r.idOf(matched[i].config) != r.idOf(matched[j].config) {
      var p, q := matched[i], matched[j];
      assert PairOk(r, configs, p) && PairOk(r, configs, q);
      assert HardwareOf(matched)[i] == p.hardware && HardwareOf(matched)[j] == q.hardware;
      var m :| 0 <= m < |configs| && configs[m] == p.config;
      var n :| 0 <= n < |configs| && configs[n] == q.config;
      assert m < n || n < m;
    }
  }

  // ---------- Each on exactly one side

  /** With distinct ids, every config is either matched, once, or offline. */
  lemma ConfigsPartition<C, H, K, I, B>(r: Rules<C, H, K, I, B>, hardware: seq<H>, configs: seq<C>, res: Result<C, H, B>, c: C)
    requires Resolves(r, hardware, configs, res) && DistinctIds(configs, r.idOf) && MatchedOnce(r, res.matched) && c in configs
    ensures (exists i :: 0 <= i < |res.matched| && res.matched[i].config == c) <==> c !in res.offline
    ensures forall i, j :: 0 <= i < |res.matched| && 0 <= j < |res.matched| && res.matched[i].config == c == res.matched[j].config ==> i == j
  {
    var used := UsedIds(r, res.matched);
    if r.idOf(c) in used {
      var i :| 0 <= i < |res.matched| && r.idOf(res.matched[i].config) == r.idOf(c);
      assert PairOk(r, configs, res.matched[i]);
      var m :| 0 <= m < |configs| && configs[m] == res.matched[i].config;
      var n :| 0 <= n < |configs| && configs[n] == c;
      assert m == n;
    }
  }

  lemma {:induction false} OncePerKey<H, K>(hardware: seq<H>, keyOf: H -> K, none: K, h: H)
    requires DistinctKeys(hardware, keyOf, none) && keyOf(h) != none
    ensures multiset(hardware)[h] <= 1
  {
    if hardware != [] {
      var front, last := hardware[..|hardware| - 1], hardware[|hardware| - 1];
      assert hardware == front + [last];
      OncePerKey(front, keyOf, none, h);
      if last == h {
        assert h !in front by {
          forall m | 0 <= m < |front| ensures front[m] != h {
            assert hardware[m] == front[m] && hardware[|hardware| - 1] == h;
          }
        }
      }
    }
  }

  lemma BalancedCount<H>(a: seq<H>, u: seq<H>, g: seq<H>, all: seq<H>, h: H)
    requires Balanced(a + u, g, [], all)
    ensures multiset(a)[h] + multiset(u)[h] + multiset(g)[h] == multiset(all)[h]
  {
    var none: seq<H> := [];
    assert multiset(a + u) == multiset(a) + multiset(u);
    assert (multiset(a + u) + multiset(g))[h] == (multiset(none) + multiset(all))[h];
  }

  /** Hardware with a key is in exactly one place: matched once, or unmatched once. */
  lemma KeyedHardwarePartition<C, H, K, I, B>(r: Rules<C, H, K, I, B>, hardware: seq<H>, configs: seq<C>, res: Result<C, H, B>, h: H)
    requires Resolves(r, hardware, configs, res) && DistinctKeys(hardware, r.hardwareKey, r.none)
    requires h in hardware && r.hardwareKey(h) != r.none
    ensures multiset(HardwareOf(res.matched))[h] + multiset(res.unmatched)[h] == 1 && h !in res.degraded
  {
    OncePerKey(hardware, r.hardwareKey, r.none, h);
    BalancedCount(HardwareOf(res.matched), res.unmatched, res.degraded, hardware, h);
    assert h in multiset(hardware);
  }

  /** Hardware without a key is matched to a config without a key, or degraded. */
  lemma KeylessHardwarePartition<C, H, K, I, B>(r: Rules<C, H, K, I, B>, hardware: seq<H>, configs: seq<C>, res: Result<C, H, B>, h: H)
    requires Resolves(r, hardware, configs, res) && r.hardwareKey(h) == r.none
    ensures multiset(HardwareOf(res.matched))[h] + multiset(res.degraded)[h] == multiset(hardware)[h] && h !in res.unmatched
    ensures forall p :: p in res.matched && p.hardware == h ==> r.configKey(p.config) == r.none
  {
    BalancedCount(HardwareOf(res.matched), res.unmatched, res.degraded, hardware, h);
    forall p | p in res.matched && p.hardware == h ensures r.configKey(p.config) == r.none {
      assert PairOk(r, configs, p);
    }
  }

  /** Two configs that share an id: once one of them is matched by key, the other is neither matched nor
      offline, whatever the order of the rounds. */
  lemma SharedIdHidesConfig<C, H, K, I, B>(r: Rules<C, H, K, I, B>, h: H, a: C, b: C, res: Result<C, H, B>)
    requires r.hardwareKey(h) == r.configKey(a) != r.none && r.configKey(b) == r.none
    requires r.idOf(a) == r.idOf(b) && !r.pathMatch(b, h)
    requires Resolves(r, [h], [a, b], res)
    ensures b !in res.offline && forall p :: p in res.matched ==> p.config == a
  {
    assert a in [a, b];
    assert h !in res.unmatched && h !in res.degraded;
    BalancedCount(HardwareOf(res.matched), res.unmatched, res.degraded, [h], h);
    assert multiset([h])[h] == 1;
    assert h in HardwareOf(res.matched);
    forall p | p in res.matched ensures p.config == a {
      assert PairOk(r, [a, b], p);
      var i :| 0 <= i < |res.matched| && res.matched[i] == p;
      BalancedCount(HardwareOf(res.matched), res.unmatched, res.degraded, [h], p.hardware);
      assert p.hardware == HardwareOf(res.matched)[i];
      assert p.hardware in multiset([h]);
    }
    var i :| 0 <= i < |res.matched| && HardwareOf(res.matched)[i] == h;
    assert res.matched[i].config == a;
    assert r.idOf(b) in UsedIds(r, res.matched);
  }
}

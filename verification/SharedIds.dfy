/** When two configurations share an id, exactly which hardware makes one of them vanish. */
module SharedIds {

  import opened Wrappers
  import opened Matching

  /** Some hardware can have the config: it is the first of its key, or has no key and a path that hardware
      without a key fits. */
  ghost predicate Claimable<C, H(!new), K, I, B>(r: Rules<C, H, K, I, B>, configs: seq<C>, c: C) {
    || (exists n: nat, h: H :: FirstWithKey(r, configs, n) && configs[n] == c && r.hardwareKey(h) == r.configKey(c))
    || (r.configKey(c) == r.none && exists h: H :: r.hardwareKey(h) == r.none && r.pathMatch(c, h))
  }

  /** A config that hardware can have shares its id with no other config. */
  ghost predicate Unshared<C, H(!new), K, I, B>(r: Rules<C, H, K, I, B>, configs: seq<C>) {
    forall c, x :: c in configs && x in configs && r.idOf(c) == r.idOf(x) && Claimable(r, configs, c) ==> c == x
  }

  /** Whether hardware fits a path does not depend on its key. */
  ghost predicate PathsIgnoreKeys<C(!new), H(!new), K, I, B>(r: Rules<C, H, K, I, B>) {
    forall c: C, h: H :: r.pathMatch(c, h) ==> exists k: H :: r.hardwareKey(k) == r.none && r.pathMatch(c, k)
  }

  ghost predicate IsMatched<C, H, K, I, B>(r: Rules<C, H, K, I, B>, res: Result<C, H, B>, c: C) {
    exists i :: 0 <= i < |res.matched| && res.matched[i].config == c
  }

  /** Every config is matched or offline, and not both. */
  ghost predicate AllShown<C, H, K, I, B>(r: Rules<C, H, K, I, B>, configs: seq<C>, res: Result<C, H, B>) {
    forall c :: c in configs ==> (IsMatched(r, res, c) <==> c !in res.offline)
  }

  lemma OfflineIsUnused<C, H, K, I, B>(r: Rules<C, H, K, I, B>, hardware: seq<H>, configs: seq<C>, res: Result<C, H, B>, c: C)
    requires Resolves(r, hardware, configs, res) && c in configs
    ensures c in res.offline <==> r.idOf(c) !in UsedIds(r, res.matched)
    ensures IsMatched(r, res, c) ==> c !in res.offline
  {
    if IsMatched(r, res, c) {
      var i :| 0 <= i < |res.matched| && res.matched[i].config == c;
      assert r.idOf(res.matched[i].config) in UsedIds(r, res.matched);
    }
  }

  // ---------- Without sharing every config is shown

  lemma MatchedIsClaimable<C(!new), H(!new), K, I, B>(r: Rules<C, H, K, I, B>, configs: seq<C>, matched: seq<Pair<C, H, B>>, i: nat)
    requires PathsIgnoreKeys(r) && AllOk(r, configs, matched) && Greedy(r, configs, matched) && i < |matched|
    ensures matched[i].config in configs && Claimable(r, configs, matched[i].config)
  {
    var p := matched[i];
    assert PairOk(r, configs, p) && Placed(r, configs, p);
  }

  lemma UnsharedShowsAll<C(!new), H(!new), K, I, B>(r: Rules<C, H, K, I, B>, hardware: seq<H>, configs: seq<C>, res: Result<C, H, B>)
    requires PathsIgnoreKeys(r) && Unshared(r, configs) && Resolves(r, hardware, configs, res)
    ensures AllShown(r, configs, res)
  {
    forall c | c in configs ensures IsMatched(r, res, c) <==> c !in res.offline {
      OfflineIsUnused(r, hardware, configs, res, c);
      if r.idOf(c) in UsedIds(r, res.matched) {
        var i :| 0 <= i < |res.matched| && r.idOf(res.matched[i].config) == r.idOf(c);
        MatchedIsClaimable(r, configs, res.matched, i);
      }
    }
  }

  // ---------- With sharing some hardware hides one

  lemma HardwareCount<C, H, K, I, B>(r: Rules<C, H, K, I, B>, hardware: seq<H>, configs: seq<C>, res: Result<C, H, B>)
    requires Resolves(r, hardware, configs, res)
    ensures |res.matched| + |res.unmatched| + |res.degraded| == |hardware|
    ensures forall i :: 0 <= i < |res.matched| ==> res.matched[i].hardware in hardware
    ensures forall h :: h in res.unmatched ==> h in hardware
    ensures forall h :: h in res.degraded ==> h in hardware
  {
    var hs: seq<H> := HardwareOf(res.matched);
    var none: seq<H> := [];
    var all := multiset(hs + res.unmatched) + multiset(res.degraded);
    assert all == multiset(none) + multiset(hardware) == multiset(hardware);
    assert multiset(hs + res.unmatched) == multiset(hs) + multiset(res.unmatched);
    assert |all| == |hs| + |res.unmatched| + |res.degraded|;
    forall i | 0 <= i < |res.matched| ensures res.matched[i].hardware in hardware {
      assert hs[i] in multiset(hs) && hs[i] in all;
    }
    forall h | h in res.unmatched || h in res.degraded ensures h in hardware {
      assert h in all;
    }
  }

  /** One piece of hardware with the key of a first config cannot show two configs of one id. */
  lemma KeyHidesOne<C, H, K, I, B>(r: Rules<C, H, K, I, B>, configs: seq<C>, n: nat, x: C, h: H, res: Result<C, H, B>)
    requires FirstWithKey(r, configs, n) && r.hardwareKey(h) == r.configKey(configs[n])
    requires x in configs && x != configs[n] && r.idOf(x) == r.idOf(configs[n])
    requires Resolves(r, [h], configs, res)
    ensures !AllShown(r, configs, res)
  {
    var c := configs[n];
    HardwareCount(r, [h], configs, res);
    assert h in [h] && c !in res.offline;
    OfflineIsUnused(r, [h], configs, res, c);
    OfflineIsUnused(r, [h], configs, res, x);
    if IsMatched(r, res, c) {
      assert !IsMatched(r, res, x);
    }
  }

  function IdsOf<C, I(==)>(idOf: C -> I, cs: seq<C>): (ids: set<I>) {
    set i | 0 <= i < |cs| :: idOf(cs[i])
  }

  lemma {:induction false} IdsCount<C, I>(idOf: C -> I, cs: seq<C>)
    ensures |IdsOf(idOf, cs)| <= |cs|
    ensures (forall i, j :: 0 <= i < j < |cs| ==> idOf(cs[i]) != idOf(cs[j])) ==> |IdsOf(idOf, cs)| == |cs|
  {
    if cs != [] {
      var init, last := cs[..|cs| - 1], cs[|cs| - 1];
      IdsCount(idOf, init);
      IdsGrow(idOf, cs);
      if forall i, j :: 0 <= i < j < |cs| ==> idOf(cs[i]) != idOf(cs[j]) {
        assert forall i, j :: 0 <= i < j < |init| ==> idOf(init[i]) != idOf(init[j]);
        assert idOf(last) !in IdsOf(idOf, init);
      }
    }
  }

  lemma IdsGrow<C, I>(idOf: C -> I, cs: seq<C>)
    requires cs != []
    ensures IdsOf(idOf, cs) == IdsOf(idOf, cs[..|cs| - 1]) + {idOf(cs[|cs| - 1])}
  {
    var init := cs[..|cs| - 1];
    forall x | x in IdsOf(idOf, init) ensures x in IdsOf(idOf, cs) {
      var i :| 0 <= i < |init| && idOf(init[i]) == x;
      assert cs[i] == init[i];
    }
    forall x | x in IdsOf(idOf, cs) && x != idOf(cs[|cs| - 1]) ensures x in IdsOf(idOf, init) {
      var i :| 0 <= i < |cs| && idOf(cs[i]) == x;
      assert cs[i] == init[i];
    }
  }

  /** Pairs of distinct ids are no more than the configs. */
  lemma FewPairs<C, H, K, I, B>(r: Rules<C, H, K, I, B>, configs: seq<C>, matched: seq<Pair<C, H, B>>)
    requires AllOk(r, configs, matched) && MatchedOnce(r, matched)
    ensures |matched| <= |configs|
  {
    var cs := seq(|matched|, i requires 0 <= i < |matched| => matched[i].config);
    IdsCount(r.idOf, cs);
    IdsCount(r.idOf, configs);
    forall x | x in IdsOf(r.idOf, cs) ensures x in IdsOf(r.idOf, configs) {
      var i :| 0 <= i < |cs| && r.idOf(cs[i]) == x;
      assert PairOk(r, configs, matched[i]);
      var n :| 0 <= n < |configs| && configs[n] == matched[i].config;
    }
    SubsetCount(IdsOf(r.idOf, cs), IdsOf(r.idOf, configs));
  }

  lemma SubsetCount<A>(a: set<A>, b: set<A>)
    requires a <= b
    ensures |a| <= |b|
  {
    assert b == a + (b - a);
  }

  /** Hardware without a key takes configs of distinct ids. */
  lemma KeylessPairs<C, H, K, I, B>(r: Rules<C, H, K, I, B>, hardware: seq<H>, configs: seq<C>, res: Result<C, H, B>)
    requires Resolves(r, hardware, configs, res) && forall h :: h in hardware ==> r.hardwareKey(h) == r.none
    ensures MatchedOnce(r, res.matched) && res.unmatched == []
  {
    HardwareCount(r, hardware, configs, res);
    forall i | 0 <= i < |res.matched| ensures r.configKey(res.matched[i].config) == r.none {
      assert PairOk(r, configs, res.matched[i]);
    }
    EmptyExactly(res.unmatched);
  }

  /** More pieces of fitting hardware without a key than there are configs cannot show two configs of one id. */
  lemma PathHidesOne<C, H, K, I, B>(r: Rules<C, H, K, I, B>, hardware: seq<H>, configs: seq<C>, c: C, x: C, h: H, res: Result<C, H, B>)
    requires r.configKey(c) == r.none == r.hardwareKey(h) && r.pathMatch(c, h)
    requires c in configs && x in configs && x != c && r.idOf(x) == r.idOf(c)
    requires |hardware| == |configs| + 1 && forall g :: g in hardware ==> g == h
    requires Resolves(r, hardware, configs, res)
    ensures !AllShown(r, configs, res)
  {
    HardwareCount(r, hardware, configs, res);
    KeylessPairs(r, hardware, configs, res);
    FewPairs(r, configs, res.matched);
    assert res.degraded[0] in res.degraded && res.degraded[0] == h;
    assert c !in res.offline;
    OfflineIsUnused(r, hardware, configs, res, c);
    OfflineIsUnused(r, hardware, configs, res, x);
    if IsMatched(r, res, c) {
      assert !IsMatched(r, res, x);
    }
  }

  // ---------- There is always a resolution

  lemma {:induction false} IndexExists<C, H, K, I, B>(r: Rules<C, H, K, I, B>, configs: seq<C>) returns (byKey: map<K, C>)
    ensures IndexesConfigs(r, configs, byKey)
  {
    if configs == [] {
      byKey := map[];
    } else {
      var init, c := configs[..|configs| - 1], configs[|configs| - 1];
      byKey := IndexExists(r, init);
      OneMoreConfig(r, init, byKey, c);
      assert configs == init + [c];
      var k := r.configKey(c);
      byKey := if k != r.none && k !in byKey then byKey[k := c] else byKey;
    }
  }

  lemma {:induction false} FirstRoundExists<C, H, K, I, B>(r: Rules<C, H, K, I, B>, configs: seq<C>, byKey: map<K, C>, hardware: seq<H>)
    returns (matched: seq<Pair<C, H, B>>, used: set<I>, keyed: seq<H>, keyless: seq<H>)
    requires IndexesConfigs(r, configs, byKey)
    ensures FirstRound(r, configs, byKey, hardware, matched, used, keyed, keyless)
  {
    if hardware == [] {
      matched, used, keyed, keyless := [], {}, [], [];
    } else {
      var init, hw := hardware[..|hardware| - 1], hardware[|hardware| - 1];
      matched, used, keyed, keyless := FirstRoundExists(r, configs, byKey, init);
      FirstRoundStep(r, configs, byKey, init, matched, used, keyed, keyless, hw);
      assert hardware == init + [hw];
      var k := r.hardwareKey(hw);
      if k == r.none {
        keyless := keyless + [hw];
      } else if k in byKey {
        matched, used := matched + [Pair(byKey[k], hw, r.noBackfill)], used + {r.idOf(byKey[k])};
      } else {
        keyed := keyed + [hw];
      }
    }
  }

  lemma {:induction false} MigrationExists<C, H, K, I, B>(r: Rules<C, H, K, I, B>, configs: seq<C>, pending: seq<H>,
                                                          matched0: seq<Pair<C, H, B>>, used0: set<I>)
    returns (matched: seq<Pair<C, H, B>>, used: set<I>, rest: seq<H>)
    requires Tracks(r, matched0, used0) && AllOk(r, configs, matched0)
    ensures Migrated(r, configs, LegacyOf(r, configs), pending, matched0, used0, matched, used, rest)
  {
    var legacy := LegacyOf(r, configs);
    if pending == [] {
      matched, used, rest := matched0, used0, [];
    } else {
      var init, hw := pending[..|pending| - 1], pending[|pending| - 1];
      matched, used, rest := MigrationExists(r, configs, init, matched0, used0);
      assert pending == init + [hw];
      if c :| c in legacy && r.idOf(c) !in used && r.pathMatch(c, hw) {
        var p := Pair(c, hw, if r.hardwareKey(hw) != r.none then r.backfillOf(hw) else r.noBackfill);
        MigrateOne(r, configs, legacy, init, hw, matched0, used0, matched, used, rest, p);
        matched, used := matched + [p], used + {r.idOf(c)};
      } else {
        LeaveOne(r, configs, legacy, init, hw, matched0, used0, matched, used, rest);
        rest := rest + [hw];
      }
    }
  }

  lemma ResolutionExists<C, H, K, I, B>(r: Rules<C, H, K, I, B>, hardware: seq<H>, configs: seq<C>) returns (res: Result<C, H, B>)
    ensures Resolves(r, hardware, configs, res)
  {
    var byKey := IndexExists(r, configs);
    var matched1, used1, keyed, keyless := FirstRoundExists(r, configs, byKey, hardware);
    var matched2, used2, unmatched := MigrationExists(r, configs, keyed, matched1, used1);
    var matched3, used3, degraded := MigrationExists(r, configs, keyless, matched2, used2);
    res := Result(matched3, unmatched, Unused(r, configs, used3), degraded);
    RoundsResolve(r, configs, byKey, LegacyOf(r, configs), hardware, keyed, keyless, matched1, used1, matched2, used2, used3, res);
  }

  // ---------- The exact condition

  /** However the hardware is resolved, some config is in neither list. */
  ghost predicate Hides<C(!new), H(!new), K, I, B(!new)>(r: Rules<C, H, K, I, B>, configs: seq<C>, hardware: seq<H>) {
    forall res: Result<C, H, B> :: Resolves(r, hardware, configs, res) ==> !AllShown(r, configs, res)
  }

  /** With sharing there is deduplicated hardware that hides a config in every resolution. */
  lemma SharedHides<C(!new), H(!new), K, I, B(!new)>(r: Rules<C, H, K, I, B>, configs: seq<C>) returns (hardware: seq<H>)
    requires !Unshared(r, configs)
    ensures DistinctKeys(hardware, r.hardwareKey, r.none) && Hides(r, configs, hardware)
  {
    var c, x :| c in configs && x in configs && r.idOf(c) == r.idOf(x) && Claimable(r, configs, c) && c != x;
    if n: nat, h: H :| FirstWithKey(r, configs, n) && configs[n] == c && r.hardwareKey(h) == r.configKey(c) {
      hardware := [h];
      forall res: Result<C, H, B> | Resolves(r, hardware, configs, res) ensures !AllShown(r, configs, res) {
        KeyHidesOne(r, configs, n, x, h, res);
      }
    } else {
      var h: H :| r.hardwareKey(h) == r.none && r.pathMatch(c, h);
      hardware := seq(|configs| + 1, _ => h);
      forall res: Result<C, H, B> | Resolves(r, hardware, configs, res) ensures !AllShown(r, configs, res) {
        PathHidesOne(r, hardware, configs, c, x, h, res);
      }
    }
  }

  /** If no config that hardware can have shares its id with another, every config is matched or offline whatever
      hardware is found; otherwise some hardware hides a config however it is resolved. */
  lemma SharedIdsDecide<C(!new), H(!new), K(!new), I(!new), B(!new)>(r: Rules<C, H, K, I, B>, configs: seq<C>)
    requires PathsIgnoreKeys(r)
    ensures Unshared(r, configs) <==>
            forall hardware: seq<H>, res: Result<C, H, B> ::
              DistinctKeys(hardware, r.hardwareKey, r.none) && Resolves(r, hardware, configs, res) ==> AllShown(r, configs, res)
    ensures !Unshared(r, configs) <==>
            exists hardware: seq<H> :: DistinctKeys(hardware, r.hardwareKey, r.none) && Hides(r, configs, hardware)
  {
    if Unshared(r, configs) {
      forall hardware: seq<H>, res: Result<C, H, B> | Resolves(r, hardware, configs, res) ensures AllShown(r, configs, res) {
        UnsharedShowsAll(r, hardware, configs, res);
      }
      forall hardware: seq<H> ensures !Hides(r, configs, hardware) {
        var res := ResolutionExists(r, hardware, configs);
        UnsharedShowsAll(r, hardware, configs, res);
      }
    } else {
      var hardware := SharedHides(r, configs);
      var res := ResolutionExists(r, hardware, configs);
    }
  }
}

/** Merging the rows of one card that were stored under different spellings of its number
    (internal/db/card_policy_canonical_migration.go). K is a card number as stored, V the settings. */
module PolicyMerge {

  datatype Policy<K, V> = Policy(iccid: K, source: string, updatedAt: int, settings: V)

  /** How a number is brought to its canonical form, and the form that stands for no number. */
  datatype Canon<!K(==)> = Canon(form: K -> K, none: K)

  function Form<K(==)>(c: Canon<K>, k: K): K {
    c.form(k)
  }

  /** A row set by the user is better than an automatic one; otherwise the one updated later is. */
  predicate Better<K, V>(cand: Policy<K, V>, cur: Policy<K, V>) {
    var candUser, curUser := cand.source == "user", cur.source == "user";
    if candUser != curUser then candUser else cand.updatedAt > cur.updatedAt
  }

  // ---------- The surviving row

  /** The first of the best rows. */
  ghost predicate IsWinner<K, V>(rows: seq<Policy<K, V>>, w: nat) {
    && w < |rows|
    && (forall j :: 0 <= j < |rows| ==> !Better(rows[j], rows[w]))
    && forall j :: 0 <= j < w ==> Better(rows[w], rows[j])
  }

  lemma WinnerIsUnique<K, V>(rows: seq<Policy<K, V>>, v: nat, w: nat)
    requires IsWinner(rows, v) && IsWinner(rows, w)
    ensures v == w
  {
    assert Better(rows[w], rows[v]) || v >= w;
    assert Better(rows[v], rows[w]) || w >= v;
  }

  predicate ByUser<K, V>(p: Policy<K, V>) {
    p.source == "user"
  }

  /** A row set by the user wins over all others, among those or without one the row updated last, and among equals
      the first. */
  lemma WinnerExactly<K, V>(rows: seq<Policy<K, V>>, w: nat)
    requires w < |rows|
    ensures IsWinner(rows, w) <==>
            forall j :: 0 <= j < |rows| && j != w ==>
              || (ByUser(rows[w]) && !ByUser(rows[j]))
              || ((ByUser(rows[w]) <==> ByUser(rows[j])) &&
                  (rows[j].updatedAt < rows[w].updatedAt || (rows[j].updatedAt == rows[w].updatedAt && w < j)))
  {
    if IsWinner(rows, w) {
      forall j | 0 <= j < |rows| && j != w
        ensures || (ByUser(rows[w]) && !ByUser(rows[j]))
                || ((ByUser(rows[w]) <==> ByUser(rows[j])) &&
                    (rows[j].updatedAt < rows[w].updatedAt || (rows[j].updatedAt == rows[w].updatedAt && w < j)))
      {
        assert !Better(rows[j], rows[w]) && (j < w ==> Better(rows[w], rows[j]));
      }
    }
  }

  method FindWinner<K, V>(rows: seq<Policy<K, V>>) returns (winner: Policy<K, V>)
    requires rows != []
    ensures exists w: nat :: IsWinner(rows, w) && winner == rows[w]
  {
    winner := rows[0];
    ghost var w: nat := 0;
    for i := 1 to |rows|
      invariant IsWinner(rows[..i], w) && winner == rows[w]
    {
      if Better(rows[i], winner) {
        winner := rows[i];
        w := i;
      }
    }
    assert rows[..|rows|] == rows;
  }

  // ---------- Groups

  /** The rows with a canonical form, in the order they are stored. */
  function Group<K(==), V>(c: Canon<K>, all: seq<Policy<K, V>>, k: K): (rows: seq<Policy<K, V>>) {
    if all == [] then []
    else
      var last := all[|all| - 1];
      Group(c, all[..|all| - 1], k) + if Form(c, last.iccid) == k then [last] else []
  }

  lemma {:induction false} GroupMembers<K, V>(c: Canon<K>, all: seq<Policy<K, V>>, k: K)
    ensures forall p :: p in Group(c, all, k) <==> p in all && Form(c, p.iccid) == k
  {
    if all != [] {
      var init, last := all[..|all| - 1], all[|all| - 1];
      GroupMembers(c, init, k);
      assert all == init + [last];
    }
  }

  /** A group keeps the order in which its rows are stored. */
  lemma {:induction false} GroupKeepsOrder<K, V>(c: Canon<K>, all: seq<Policy<K, V>>, k: K) returns (places: seq<nat>)
    ensures |places| == |Group(c, all, k)|
    ensures forall i :: 0 <= i < |places| ==> places[i] < |all| && all[places[i]] == Group(c, all, k)[i]
    ensures forall i, j :: 0 <= i < j < |places| ==> places[i] < places[j]
    ensures forall n :: 0 <= n < |all| && Form(c, all[n].iccid) == k ==> n in places
  {
    if all == [] {
      places := [];
    } else {
      var init := all[..|all| - 1];
      places := GroupKeepsOrder(c, init, k);
      assert forall n :: 0 <= n < |init| ==> init[n] == all[n];
      if Form(c, all[|all| - 1].iccid) == k {
        places := places + [|all| - 1];
      }
    }
  }

  /** Every row of the group at its place. */
  lemma GroupRow<K, V>(c: Canon<K>, all: seq<Policy<K, V>>, k: K, i: nat)
    requires i < |Group(c, all, k)|
    ensures Group(c, all, k)[i] in all && Form(c, Group(c, all, k)[i].iccid) == k
  {
    GroupMembers(c, all, k);
    assert Group(c, all, k)[i] in Group(c, all, k);
  }

  ghost predicate IsGrouped<K, V>(c: Canon<K>, all: seq<Policy<K, V>>, groups: map<K, seq<Policy<K, V>>>) {
    && (forall k :: k in groups ==> k != c.none && groups[k] != [] && groups[k] == Group(c, all, k))
    && forall p :: p in all && Form(c, p.iccid) != c.none ==> Form(c, p.iccid) in groups
  }

  method GroupRows<K(==), V>(c: Canon<K>, all: seq<Policy<K, V>>) returns (groups: map<K, seq<Policy<K, V>>>)
    ensures IsGrouped(c, all, groups)
  {
    groups := map[];
    for i := 0 to |all|
      invariant IsGrouped(c, all[..i], groups)
    {
      var key := Form(c, all[i].iccid);
      assert all[..i + 1] == all[..i] + [all[i]];
      NextGrouped(c, all[..i], all[i], groups);
      if key != c.none {
        groups := groups[key := (if key in groups then groups[key] else []) + [all[i]]];
      }
    }
    assert all[..|all|] == all;
  }

  lemma NextGrouped<K, V>(c: Canon<K>, all: seq<Policy<K, V>>, p: Policy<K, V>, groups: map<K, seq<Policy<K, V>>>)
    requires IsGrouped(c, all, groups)
    ensures var key := Form(c, p.iccid);
            IsGrouped(c, all + [p], if key == c.none then groups
                                    else groups[key := (if key in groups then groups[key] else []) + [p]])
  {
    var key := Form(c, p.iccid);
    var more := all + [p];
    assert more[..|more| - 1] == all;
    var after := if key == c.none then groups else groups[key := (if key in groups then groups[key] else []) + [p]];
    if key !in groups && key != c.none {
      NoGroup(c, all, key, groups);
    }
    forall k | k in after ensures k != c.none && after[k] != [] && after[k] == Group(c, more, k) {
      assert Group(c, more, k) == Group(c, all, k) + if key == k then [p] else [];
    }
    forall q | q in more && Form(c, q.iccid) != c.none ensures Form(c, q.iccid) in after {
      assert q in all || q == p;
    }
  }

  lemma NoGroup<K, V>(c: Canon<K>, all: seq<Policy<K, V>>, k: K, groups: map<K, seq<Policy<K, V>>>)
    requires IsGrouped(c, all, groups) && k !in groups && k != c.none
    ensures Group(c, all, k) == []
  {
    if |Group(c, all, k)| > 0 {
      GroupRow(c, all, k, 0);
    }
  }

  // ---------- The merge

  type Table<!K(==), !V> = map<K, Policy<K, V>>

  /** The rows as they are read: each row of the table once. */
  ghost predicate Lists<K, V>(all: seq<Policy<K, V>>, table: Table<K, V>) {
    && |all| == |table|
    && (forall p :: p in all ==> p.iccid in table && table[p.iccid] == p)
    && forall k :: k in table ==> table[k] in all && table[k].iccid == k
  }

  /** A canonical form is its own canonical form, for every stored number. */
  ghost predicate Settles<K, V>(c: Canon<K>, all: seq<Policy<K, V>>) {
    forall p :: p in all ==> Form(c, Form(c, p.iccid)) == Form(c, p.iccid)
  }

  /** No stored number is the canonical form of another without being its own. */
  ghost predicate NoClash<K, V>(c: Canon<K>, all: seq<Policy<K, V>>) {
    forall p, q :: p in all && q in all ==> !Clash(c, p, q)
  }

  predicate Clash<K(==), V>(c: Canon<K>, p: Policy<K, V>, q: Policy<K, V>) {
    Form(c, p.iccid) != c.none && q.iccid == Form(c, p.iccid) && Form(c, q.iccid) != q.iccid
  }

  lemma ClashOf<K, V>(c: Canon<K>, p: Policy<K, V>, q: Policy<K, V>, plain: K)
    requires Form(c, p.iccid) == q.iccid != c.none && Form(c, q.iccid) == plain != q.iccid
    ensures Clash(c, p, q)
  {}

  ghost predicate IsSurvivor<K, V>(c: Canon<K>, all: seq<Policy<K, V>>, k: K, p: Policy<K, V>) {
    exists w: nat :: IsWinner(Group(c, all, k), w) && p == Group(c, all, k)[w].(iccid := k)
  }

  /** One row for every canonical form, holding the first of its best rows; rows without one stay. */
  ghost predicate IsMerged<K, V>(c: Canon<K>, all: seq<Policy<K, V>>, after: Table<K, V>) {
    && (forall p :: p in all && Form(c, p.iccid) != c.none ==> Form(c, p.iccid) in after)
    && (forall p :: p in all && Form(c, p.iccid) == c.none ==> p.iccid in after && after[p.iccid] == p)
    && forall k :: k in after ==> IsMergedRow(c, all, k, after[k])
  }

  ghost predicate IsMergedRow<K, V>(c: Canon<K>, all: seq<Policy<K, V>>, k: K, p: Policy<K, V>) {
    || (k != c.none && IsSurvivor(c, all, k, p))
    || (Form(c, k) == c.none && p in all && p.iccid == k)
  }

  lemma SurvivorIsUnique<K, V>(c: Canon<K>, all: seq<Policy<K, V>>, k: K, p: Policy<K, V>, q: Policy<K, V>)
    requires IsSurvivor(c, all, k, p) && IsSurvivor(c, all, k, q)
    ensures p == q
  {
    var rows := Group(c, all, k);
    var v: nat :| IsWinner(rows, v) && p == rows[v].(iccid := k);
    var w: nat :| IsWinner(rows, w) && q == rows[w].(iccid := k);
    WinnerIsUnique(rows, v, w);
  }

  lemma SurvivorHasRow<K, V>(c: Canon<K>, all: seq<Policy<K, V>>, k: K, p: Policy<K, V>)
    requires IsSurvivor(c, all, k, p)
    ensures p.iccid == k
    ensures exists q :: q in all && Form(c, q.iccid) == k
  {
    var rows := Group(c, all, k);
    var w: nat :| IsWinner(rows, w) && p == rows[w].(iccid := k);
    GroupRow(c, all, k, w);
  }

  lemma MergedWithin<K, V>(c: Canon<K>, all: seq<Policy<K, V>>, a: Table<K, V>, b: Table<K, V>)
    requires NoClash(c, all) && IsMerged(c, all, a) && IsMerged(c, all, b)
    ensures forall k :: k in a ==> k in b && a[k] == b[k]
  {
    forall k | k in a ensures k in b && a[k] == b[k] {
      assert IsMergedRow(c, all, k, a[k]);
      if k != c.none && IsSurvivor(c, all, k, a[k]) {
        SurvivorHasRow(c, all, k, a[k]);
        var q :| q in all && Form(c, q.iccid) == k;
        assert IsMergedRow(c, all, k, b[k]);
        assert !Clash(c, q, b[k]) || b[k] !in all;
        SurvivorIsUnique(c, all, k, a[k], b[k]);
      }
    }
  }

  /** The merge has one result, in whatever order the groups are visited. */
  lemma MergedIsUnique<K, V>(c: Canon<K>, all: seq<Policy<K, V>>, a: Table<K, V>, b: Table<K, V>)
    requires NoClash(c, all) && IsMerged(c, all, a) && IsMerged(c, all, b)
    ensures a == b
  {
    MergedWithin(c, all, a, b);
    MergedWithin(c, all, b, a);
    assert a.Keys == b.Keys;
  }

  lemma SettledNeverClash<K, V>(c: Canon<K>, all: seq<Policy<K, V>>)
    requires Settles(c, all)
    ensures NoClash(c, all)
  {
    forall p, q | p in all && q in all ensures !Clash(c, p, q) {
      assert Form(c, Form(c, p.iccid)) == Form(c, p.iccid);
    }
  }

  lemma LoneSurvivor<K, V>(c: Canon<K>, all: seq<Policy<K, V>>, k: K, p: Policy<K, V>)
    requires p in all && p.iccid == k && Form(c, k) == k
    requires forall q :: q in all && Form(c, q.iccid) == k ==> q == p
    ensures IsSurvivor(c, all, k, p)
  {
    var rows := Group(c, all, k);
    GroupMembers(c, all, k);
    assert p in rows;
    forall j | 0 <= j < |rows| ensures rows[j] == p {
      GroupRow(c, all, k, j);
    }
    assert IsWinner(rows, 0);
  }

  // ---------- Merging again

  /** Every canonical form is its own canonical form, or has none. */
  ghost predicate Stable<K, V>(c: Canon<K>, all: seq<Policy<K, V>>) {
    forall p :: p in all && Form(c, p.iccid) != c.none ==> IsStable(c, Form(c, p.iccid))
  }

  predicate IsStable<K(==)>(c: Canon<K>, k: K) {
    Form(c, k) == k || Form(c, k) == c.none
  }

  lemma MergedKey<K, V>(c: Canon<K>, all: seq<Policy<K, V>>, after: Table<K, V>, k: K)
    requires Stable(c, all) && IsMerged(c, all, after) && k in after
    ensures IsStable(c, k) && after[k].iccid == k
  {
    assert IsMergedRow(c, all, k, after[k]);
    if k != c.none && IsSurvivor(c, all, k, after[k]) {
      SurvivorHasRow(c, all, k, after[k]);
    }
  }

  lemma StableRowsNeverClash<K, V>(c: Canon<K>, again: seq<Policy<K, V>>, after: Table<K, V>)
    requires Lists(again, after) && forall p :: p in again ==> IsStable(c, p.iccid)
    ensures NoClash(c, again)
  {
    forall p, q | p in again && q in again ensures !Clash(c, p, q) {
      assert p.iccid == q.iccid ==> p == q;
    }
  }

  /** With stable forms the merged table is already merged. */
  lemma StableMergesOnce<K, V>(c: Canon<K>, all: seq<Policy<K, V>>, after: Table<K, V>, again: seq<Policy<K, V>>)
    requires Stable(c, all) && IsMerged(c, all, after) && Lists(again, after)
    ensures NoClash(c, again) && IsMerged(c, again, after)
  {
    forall p | p in again ensures IsStable(c, p.iccid) {
      MergedKey(c, all, after, p.iccid);
    }
    StableRowsNeverClash(c, again, after);
    forall k | k in after ensures IsMergedRow(c, again, k, after[k]) {
      MergedKey(c, all, after, k);
      assert after[k] in again && after[k].iccid == k;
      if Form(c, k) != c.none {
        assert forall q :: q in again && Form(c, q.iccid) == k ==> q.iccid == k && q == after[k];
        LoneSurvivor(c, again, k, after[k]);
      }
    }
  }

  /** A canonical form is shorter than what it was made from, or the same. */
  ghost predicate Shortens<K(!new)>(c: Canon<K>, size: K -> nat) {
    forall k: K :: size(Form(c, k)) < size(k) || Form(c, k) == k
  }

  function MaxSize<K, V>(rows: seq<Policy<K, V>>, size: K -> nat): (n: nat)
    ensures forall p :: p in rows ==> size(p.iccid) <= n
  {
    if rows == [] then 0
    else
      var m := MaxSize(rows[..|rows| - 1], size);
      assert rows == rows[..|rows| - 1] + [rows[|rows| - 1]];
      if size(rows[|rows| - 1].iccid) > m then size(rows[|rows| - 1].iccid) else m
  }

  /** An unstable number in a merged table that is merged again was made from a longer one, which is unstable
      too: there is no end to them. */
  lemma {:induction false} NoUnstableNumber<K(!new), V>(c: Canon<K>, size: K -> nat, again: seq<Policy<K, V>>, after: Table<K, V>, k: K)
    requires Shortens(c, size) && Lists(again, after) && IsMerged(c, again, after) && k in after && k != c.none
    ensures IsStable(c, k)
    decreases MaxSize(again, size) - size(k)
  {
    assert after[k] in again && after[k].iccid == k;
    assert IsMergedRow(c, again, k, after[k]);
    if !IsStable(c, k) {
      SurvivorHasRow(c, again, k, after[k]);
      var q :| q in again && Form(c, q.iccid) == k;
      assert size(k) < size(q.iccid);
      assert Form(c, c.none) != k || q.iccid != c.none;
      if q.iccid != c.none {
        NoUnstableNumber(c, size, again, after, q.iccid);
      }
    }
  }

  /** The merged table is already merged if and only if every canonical form is stable. */
  lemma MergesOnce<K(!new), V>(c: Canon<K>, size: K -> nat, all: seq<Policy<K, V>>, after: Table<K, V>, again: seq<Policy<K, V>>)
    requires Shortens(c, size) && IsMerged(c, all, after) && Lists(again, after)
    ensures IsMerged(c, again, after) <==> Stable(c, all)
  {
    if Stable(c, all) {
      StableMergesOnce(c, all, after, again);
    }
    if IsMerged(c, again, after) {
      forall p | p in all && Form(c, p.iccid) != c.none ensures IsStable(c, Form(c, p.iccid)) {
        NoUnstableNumber(c, size, again, after, Form(c, p.iccid));
      }
    }
  }

  /** So a second merge, where nothing stands in its way, changes nothing exactly then. */
  lemma MergeIsIdempotent<K(!new), V>(c: Canon<K>, size: K -> nat, all: seq<Policy<K, V>>, after: Table<K, V>, again: seq<Policy<K, V>>, last: Table<K, V>)
    requires Shortens(c, size) && IsMerged(c, all, after)
    requires Lists(again, after) && NoClash(c, again) && IsMerged(c, again, last)
    ensures last == after <==> Stable(c, all)
  {
    MergesOnce(c, size, all, after, again);
    if IsMerged(c, again, after) {
      MergedIsUnique(c, again, after, last);
    }
  }

  lemma OneRowMerged<K, V>(c: Canon<K>, p: Policy<K, V>, k: K)
    requires Form(c, p.iccid) == k != c.none
    ensures IsMerged(c, [p], map[k := p.(iccid := k)])
  {
    var all := [p];
    assert all[..0] == [];
    assert Group(c, all[..0], k) == [] && Group(c, all, k) == [p];
    assert IsWinner(Group(c, all, k), 0);
    assert IsSurvivor(c, all, k, p.(iccid := k));
  }

  /** Of the single row p a first merge makes a row under k, and a second one under l. */
  ghost predicate MovesTwice<K, V>(c: Canon<K>, p: Policy<K, V>, k: K, l: K) {
    && IsMerged(c, [p], map[k := p.(iccid := k)])
    && Lists([p.(iccid := k)], map[k := p.(iccid := k)])
    && IsMerged(c, [p.(iccid := k)], map[l := p.(iccid := l)])
    && l != k
  }

  lemma UnstableRowMovesTwice<K, V>(c: Canon<K>, p: Policy<K, V>, k: K, l: K)
    requires Form(c, p.iccid) == k != c.none && Form(c, k) == l != c.none && l != k
    ensures MovesTwice(c, p, k, l)
  {
    OneRowMerged(c, p, k);
    OneRowMerged(c, p.(iccid := k), l);
    assert p.(iccid := k) in [p.(iccid := k)];
  }

  // ---------- The migration, group by group

  /** Some groups were merged, the rows of the others are as they were. */
  ghost predicate Partly<K, V>(c: Canon<K>, all: seq<Policy<K, V>>, table: Table<K, V>, done: set<K>, now: Table<K, V>) {
    && (forall k :: k in done ==> k in now && IsSurvivor(c, all, k, now[k]))
    && (forall k :: k in table && Form(c, k) !in done ==> k in now && now[k] == table[k])
    && (forall k :: k in now ==> k in done || (k in table && Form(c, k) !in done))
    && forall k {:trigger FormIn(c, done, k)} :: k in done && k in table ==> FormIn(c, done, k)
  }

  ghost predicate FormIn<K>(c: Canon<K>, done: set<K>, k: K) {
    Form(c, k) in done
  }

  function Numbers<K(==), V>(rows: seq<Policy<K, V>>): (numbers: set<K>) {
    set i | 0 <= i < |rows| :: rows[i].iccid
  }

  lemma GroupIsOwn<K, V>(c: Canon<K>, all: seq<Policy<K, V>>, table: Table<K, V>, key: K, k: K)
    requires Lists(all, table) && k in table
    ensures k in Numbers(Group(c, all, key)) <==> Form(c, k) == key
  {
    var rows := Group(c, all, key);
    GroupMembers(c, all, key);
    assert table[k] in all && table[k].iccid == k;
    if Form(c, k) == key {
      var i :| 0 <= i < |rows| && rows[i] == table[k];
      assert rows[i].iccid == k;
    }
    if k in Numbers(rows) {
      var i :| 0 <= i < |rows| && rows[i].iccid == k;
      GroupRow(c, all, key, i);
    }
  }

  lemma KeyIsFree<K, V>(c: Canon<K>, all: seq<Policy<K, V>>, table: Table<K, V>, key: K)
    requires Lists(all, table) && NoClash(c, all) && key != c.none && Group(c, all, key) != [] && key in table
    ensures Form(c, key) == key && key in Numbers(Group(c, all, key))
  {
    var rows := Group(c, all, key);
    GroupRow(c, all, key, 0);
    assert table[key] in all && !Clash(c, rows[0], table[key]);
    GroupIsOwn(c, all, table, key, key);
  }

  lemma NumberOfGroup<K, V>(c: Canon<K>, all: seq<Policy<K, V>>, table: Table<K, V>, done: set<K>, now: Table<K, V>, key: K, k: K)
    requires Lists(all, table) && Partly(c, all, table, done, now) && key !in done
    requires k in Numbers(Group(c, all, key))
    ensures k in table && Form(c, k) == key && k !in done
  {
    var i :| 0 <= i < |Group(c, all, key)| && Group(c, all, key)[i].iccid == k;
    GroupRow(c, all, key, i);
    assert k in done ==> FormIn(c, done, k);
  }

  /** What is left after a group was deleted. */
  lemma GroupDeleted<K, V>(c: Canon<K>, all: seq<Policy<K, V>>, table: Table<K, V>, done: set<K>, now: Table<K, V>, key: K, left: Table<K, V>)
    requires Lists(all, table) && Partly(c, all, table, done, now)
    requires key !in done && left == now - Numbers(Group(c, all, key))
    ensures forall k :: k in done ==> k in left && left[k] == now[k]
    ensures forall k :: k in table && Form(c, k) !in done + {key} ==> k in left && left[k] == table[k]
    ensures forall k :: k in left ==> k in done || (k in table && Form(c, k) !in done + {key})
    ensures key in table && key !in left ==> Form(c, key) in done + {key}
  {
    var numbers := Numbers(Group(c, all, key));
    forall k | k in numbers ensures k in table && Form(c, k) == key && k !in done {
      NumberOfGroup(c, all, table, done, now, key, k);
    }
    forall k | k in left ensures k in done || (k in table && Form(c, k) !in done + {key}) {
      if k !in done {
        GroupIsOwn(c, all, table, key, k);
      }
    }
  }

  /** Without a clash a group's number is free once its rows are deleted. */
  lemma NumberIsFree<K, V>(c: Canon<K>, all: seq<Policy<K, V>>, table: Table<K, V>, done: set<K>, now: Table<K, V>, key: K)
    requires Lists(all, table) && NoClash(c, all) && Partly(c, all, table, done, now)
    requires key !in done && key != c.none && Group(c, all, key) != []
    ensures key !in now - Numbers(Group(c, all, key))
  {
    if key in table {
      KeyIsFree(c, all, table, key);
    }
  }

  /** Where the number is free, writing the survivor there merges the group and leaves the others alone. */
  lemma MergeGroup<K, V>(c: Canon<K>, all: seq<Policy<K, V>>, table: Table<K, V>, done: set<K>, now: Table<K, V>, key: K, w: nat,
                         left: Table<K, V>)
    requires Lists(all, table) && Partly(c, all, table, done, now)
    requires key !in done && key != c.none && IsWinner(Group(c, all, key), w)
    requires left == now - Numbers(Group(c, all, key))
    ensures NoClash(c, all) ==> key !in left
    ensures key !in left ==> Partly(c, all, table, done + {key}, left[key := Group(c, all, key)[w].(iccid := key)])
  {
    GroupDeleted(c, all, table, done, now, key, left);
    if NoClash(c, all) {
      NumberIsFree(c, all, table, done, now, key);
    }
    if key !in left {
      var p := Group(c, all, key)[w].(iccid := key);
      assert IsSurvivor(c, all, key, p);
      Merged(c, all, table, done, now, key, left, p);
    }
  }

  lemma Merged<K, V>(c: Canon<K>, all: seq<Policy<K, V>>, table: Table<K, V>, done: set<K>, now: Table<K, V>, key: K,
                     left: Table<K, V>, p: Policy<K, V>)
    requires Partly(c, all, table, done, now) && IsSurvivor(c, all, key, p) && (key in table ==> Form(c, key) in done + {key})
    requires forall k :: k in done ==> k in left && left[k] == now[k]
    requires forall k :: k in table && Form(c, k) !in done + {key} ==> k in left && left[k] == table[k]
    requires forall k :: k in left ==> k in done || (k in table && Form(c, k) !in done + {key})
    ensures Partly(c, all, table, done + {key}, left[key := p])
  {
    forall k | k in done ensures IsSurvivor(c, all, k, left[k]) {
      assert k in now && IsSurvivor(c, all, k, now[k]);
    }
    forall k | k in done + {key} && k in table ensures FormIn(c, done + {key}, k) {
      assert k in done ==> FormIn(c, done, k);
    }
  }

  /** When a stored number is the canonical form of another but not its own, it still stands in the way if that
      group is visited first. */
  lemma ClashStopsTheMerge<K, V>(c: Canon<K>, all: seq<Policy<K, V>>, table: Table<K, V>, p: Policy<K, V>, q: Policy<K, V>)
    requires Lists(all, table) && p in all && q in all && Clash(c, p, q)
    ensures var rows := Group(c, all, q.iccid);
            && rows != [] && !(|rows| == 1 && rows[0].iccid == q.iccid)
            && q.iccid in table - Numbers(rows)
  {
    var rows := Group(c, all, q.iccid);
    GroupMembers(c, all, q.iccid);
    assert p in rows;
    GroupIsOwn(c, all, table, q.iccid, q.iccid);
    GroupRow(c, all, q.iccid, 0);
  }

  lemma NothingMerged<K, V>(c: Canon<K>, all: seq<Policy<K, V>>, table: Table<K, V>)
    ensures Partly(c, all, table, {}, table)
  {}

  lemma GroupOf<K, V>(c: Canon<K>, all: seq<Policy<K, V>>, groups: map<K, seq<Policy<K, V>>>, key: K)
    requires IsGrouped(c, all, groups) && key in groups
    ensures groups[key] == Group(c, all, key) && groups[key] != [] && key != c.none
  {}

  class PolicyTable<!K(==), !V> {

    var rows: Table<K, V>

    /** Merge every group into one row under its canonical form. It fails when that number is still taken, and if it
        does not fail the table is merged. */
    method Migrate(c: Canon<K>, all: seq<Policy<K, V>>) returns (ok: bool)
      requires Lists(all, rows)
      modifies this
      ensures NoClash(c, all) ==> ok
      ensures ok ==> IsMerged(c, all, rows)
    {
      ghost var table := rows;
      var groups := GroupRows(c, all);
      NothingMerged(c, all, table);
      ok := MergeGroups(c, all, groups, table);
      if ok {
        AllMerged(c, all, table, groups, rows);
      }
    }

    /** Merge the groups one by one, in any order. */
    method MergeGroups(c: Canon<K>, ghost all: seq<Policy<K, V>>, groups: map<K, seq<Policy<K, V>>>, ghost table: Table<K, V>)
      returns (ok: bool)
      requires Lists(all, table) && IsGrouped(c, all, groups) && Partly(c, all, table, {}, rows)
      modifies this
      ensures NoClash(c, all) ==> ok
      ensures ok ==> Partly(c, all, table, groups.Keys, rows)
    {
      ghost var done: set<K> := {};
      var todo := groups.Keys;
      while todo != {}
        invariant done !! todo && done + todo == groups.Keys
        invariant Partly(c, all, table, done, rows)
        decreases |todo|
      {
        var key :| key in todo;
        GroupOf(c, all, groups, key);
        ok := MergeRows(c, all, key, groups[key], table, done);
        if !ok {
          return;
        }
        todo := todo - {key};
        done := done + {key};
      }
      assert done == groups.Keys;
      ok := true;
    }

    /** Merge one group. */
    method MergeRows(c: Canon<K>, ghost all: seq<Policy<K, V>>, canonical: K, group: seq<Policy<K, V>>, ghost table: Table<K, V>, ghost done: set<K>)
      returns (ok: bool)
      requires Lists(all, table) && group == Group(c, all, canonical) && group != []
      requires canonical !in done && canonical != c.none
      requires Partly(c, all, table, done, rows)
      modifies this
      ensures NoClash(c, all) ==> ok
      ensures ok ==> Partly(c, all, table, done + {canonical}, rows)
    {
      if |group| == 1 && group[0].iccid == canonical {
        LoneGroup(c, all, table, done, rows, canonical);
        return true;
      }
      ghost var was := rows;
      var winner := FindWinner(group);
      ghost var w: nat :| IsWinner(group, w) && winner == group[w];
      DeleteAll(group);
      MergeGroup(c, all, table, done, was, canonical, w, rows);
      if canonical in rows {
        return false;
      }
      rows := rows[canonical := winner.(iccid := canonical)];
      return true;
    }

    /** Delete the rows of a group one by one. */
    method DeleteAll(group: seq<Policy<K, V>>)
      modifies this
      ensures rows == old(rows) - Numbers(group)
    {
      for i := 0 to |group|
        invariant rows == old(rows) - Numbers(group[..i])
      {
        rows := rows - {group[i].iccid};
        NumbersGrow(group, i);
      }
      assert group[..|group|] == group;
    }
  }

  lemma NumbersGrow<K, V>(group: seq<Policy<K, V>>, i: nat)
    requires i < |group|
    ensures Numbers(group[..i + 1]) == Numbers(group[..i]) + {group[i].iccid}
  {
    var more, less := group[..i + 1], group[..i];
    assert forall j :: 0 <= j < i ==> more[j] == less[j];
    assert more[i] == group[i];
    forall k | k in Numbers(less) ensures k in Numbers(more) {
      var j :| 0 <= j < |less| && less[j].iccid == k;
      assert more[j].iccid == k;
    }
    assert more[i].iccid in Numbers(more);
  }

  lemma LoneRow<K, V>(c: Canon<K>, all: seq<Policy<K, V>>, table: Table<K, V>, key: K)
    requires Lists(all, table) && |Group(c, all, key)| == 1 && Group(c, all, key)[0].iccid == key
    ensures key in table && Form(c, key) == key && IsSurvivor(c, all, key, table[key])
    ensures forall k :: k in table && Form(c, k) == key ==> k == key
  {
    var p := Group(c, all, key)[0];
    GroupRow(c, all, key, 0);
    assert IsWinner(Group(c, all, key), 0) && p == p.(iccid := key);
    forall k | k in table && Form(c, k) == key ensures k == key {
      OnlyRow(c, all, table, key, k);
    }
  }

  lemma LoneMerged<K, V>(c: Canon<K>, all: seq<Policy<K, V>>, table: Table<K, V>, done: set<K>, now: Table<K, V>, key: K)
    requires Partly(c, all, table, done, now) && key !in done
    requires key in table && Form(c, key) == key && IsSurvivor(c, all, key, table[key])
    requires forall k :: k in table && Form(c, k) == key ==> k == key
    ensures Partly(c, all, table, done + {key}, now)
  {
    forall k | k in done + {key} && k in table ensures FormIn(c, done + {key}, k) {
      assert k in done ==> FormIn(c, done, k);
    }
  }

  lemma LoneGroup<K, V>(c: Canon<K>, all: seq<Policy<K, V>>, table: Table<K, V>, done: set<K>, now: Table<K, V>, key: K)
    requires Lists(all, table) && Partly(c, all, table, done, now) && key !in done && key != c.none
    requires |Group(c, all, key)| == 1 && Group(c, all, key)[0].iccid == key
    ensures Partly(c, all, table, done + {key}, now)
  {
    LoneRow(c, all, table, key);
    LoneMerged(c, all, table, done, now, key);
  }

  lemma OnlyRow<K, V>(c: Canon<K>, all: seq<Policy<K, V>>, table: Table<K, V>, key: K, k: K)
    requires Lists(all, table) && k in table && |Group(c, all, key)| == 1 && Group(c, all, key)[0].iccid == key
    ensures k == key || Form(c, k) != key
  {
    GroupMembers(c, all, key);
    assert table[k] in all && table[k].iccid == k;
    assert Form(c, k) == key ==> table[k] in Group(c, all, key);
  }

  lemma AllMerged<K, V>(c: Canon<K>, all: seq<Policy<K, V>>, table: Table<K, V>, groups: map<K, seq<Policy<K, V>>>, now: Table<K, V>)
    requires Lists(all, table) && IsGrouped(c, all, groups) && Partly(c, all, table, groups.Keys, now)
    ensures IsMerged(c, all, now)
  {
    forall k | k in now ensures IsMergedRow(c, all, k, now[k]) {
      if k !in groups {
        assert table[k] in all && table[k].iccid == k;
      }
    }
  }
}

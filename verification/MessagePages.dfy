/** Reading a thread page by page, from the newest message on (internal/db/sms_query.go). */
module MessagePages {

  import opened Wrappers
  import opened MessageOrder

  function PageLimit(limit: int): (n: nat)
    ensures 0 < n <= 200
    ensures n == limit || (limit <= 0 && n == 50) || (limit > 200 && n == 200)
  {
    if limit <= 0 then 50 else if limit > 200 then 200 else limit
  }

  /** The rows before a cursor. A zero time counts as no time, and a zero id as no id. */
  function Older<T(==), P(==)>(rows: set<Row<T, P>>, beforeTs: Option<nat>, beforeID: nat): (older: set<Row<T, P>>)
    ensures older <= rows
  {
    if beforeTs.Some? && beforeTs.value != 0 && beforeID > 0 then
      set x | x in rows && (x.timestamp < beforeTs.value || (x.timestamp == beforeTs.value && x.id < beforeID))
    else if beforeTs.Some? && beforeTs.value != 0 then
      set x | x in rows && x.timestamp < beforeTs.value
    else if beforeID > 0 then
      set x | x in rows && x.id < beforeID
    else rows
  }

  function Page<T(==), P(==)>(rows: set<Row<T, P>>, limit: int, beforeTs: Option<nat>, beforeID: nat): (page: seq<Row<T, P>>)
    requires DistinctIds(rows)
  {
    Take(InOrder(true, Older(rows, beforeTs, beforeID)), PageLimit(limit))
  }

  /** Without a time, a row goes by its id alone. */
  predicate GoesByTime<T(==), P(==)>(rows: set<Row<T, P>>, r: Row<T, P>) {
    r.timestamp != 0 || forall x :: x in rows && x.id < r.id ==> x.timestamp == 0
  }

  ghost predicate Pageable<T, P>(rows: set<Row<T, P>>) {
    && DistinctIds(rows)
    && forall r {:trigger GoesByTime(rows, r)} :: r in rows ==> 0 < r.id && GoesByTime(rows, r)
  }

  /** With a row as the cursor, the rows read next are those that come after it exactly when the row has a time
      or no row with a smaller id has one. */
  lemma ContinuationIsExact<T, P>(rows: set<Row<T, P>>, r: Row<T, P>)
    requires r in rows && 0 < r.id
    ensures Older(rows, Some(r.timestamp), r.id) == After(true, rows, r) <==> GoesByTime(rows, r)
  {
    if !GoesByTime(rows, r) {
      var x :| x in rows && x.id < r.id && x.timestamp != 0;
      assert x in Older(rows, Some(r.timestamp), r.id) && x !in After(true, rows, r);
    }
  }

  /** Asked for with a time alone, the query goes on with the first row that is earlier; with an id alone it takes the
      rows with smaller ids, and without either all of them. */
  lemma TimeCutsOrder<T, P>(rows: set<Row<T, P>>, ts: nat) returns (n: nat)
    requires DistinctIds(rows) && ts > 0
    ensures n <= |rows| && InOrder(true, Older(rows, Some(ts), 0)) == InOrder(true, rows)[n..]
    ensures forall i :: 0 <= i < |rows| ==> (i < n <==> ts <= InOrder(true, rows)[i].timestamp)
    ensures forall id: nat :: id > 0 ==> Older(rows, None, id) == set x | x in rows && x.id < id
    ensures Older(rows, None, 0) == rows
  {
    var s := InOrder(true, rows);
    InOrderListsAll(true, rows);
    n := EarlierFrom(s, ts);
    EarlierRows(rows, s, ts, n);
    InOrderListsAll(true, Older(rows, Some(ts), 0));
    SortedIsUnique(true, InOrder(true, Older(rows, Some(ts), 0)), s[n..]);
  }

  lemma {:induction false} EarlierFrom<T, P>(s: seq<Row<T, P>>, ts: nat) returns (n: nat)
    requires Sorted(true, s)
    ensures n <= |s| && forall i :: 0 <= i < |s| ==> (i < n <==> ts <= s[i].timestamp)
  {
    if s == [] || s[|s| - 1].timestamp >= ts {
      n := |s|;
      forall i | 0 <= i < |s| ensures ts <= s[i].timestamp {
        assert i < |s| - 1 ==> Before(true, s[i], s[|s| - 1]);
      }
    } else {
      assert Sorted(true, s[..|s| - 1]);
      n := EarlierFrom(s[..|s| - 1], ts);
    }
  }

  lemma EarlierRows<T, P>(rows: set<Row<T, P>>, s: seq<Row<T, P>>, ts: nat, n: nat)
    requires Sorted(true, s) && Members(s) == rows && n <= |s| && ts > 0
    requires forall i :: 0 <= i < |s| ==> (i < n <==> ts <= s[i].timestamp)
    ensures Sorted(true, s[n..]) && Members(s[n..]) == Older(rows, Some(ts), 0)
  {
    forall x | x in Older(rows, Some(ts), 0) ensures x in s[n..] {
      assert x in Members(s);
      var i :| 0 <= i < |s| && s[i] == x;
      assert s[n..][i - n] == x;
    }
    forall x | x in s[n..] ensures x in Older(rows, Some(ts), 0) {
      var i :| 0 <= i < |s| - n && s[n..][i] == x;
      assert s[n + i] in Members(s);
    }
    forall i, j | 0 <= i < j < |s[n..]| ensures Before(true, s[n..][i], s[n..][j]) {
      assert Before(true, s[n + i], s[n + j]);
    }
  }

  /** What a client has seen after one more page, asked for with the last row seen. */
  function ReadOn<T(==), P(==)>(rows: set<Row<T, P>>, limit: int, seen: seq<Row<T, P>>): (more: seq<Row<T, P>>)
    requires DistinctIds(rows)
  {
    if seen == [] then Page(rows, limit, None, 0)
    else
      var last := seen[|seen| - 1];
      seen + Page(rows, limit, Some(last.timestamp), last.id)
  }

  /** The rows of the first n pages. */
  function Walk<T(==), P(==)>(rows: set<Row<T, P>>, limit: int, n: nat): (seen: seq<Row<T, P>>)
    requires DistinctIds(rows)
  {
    if n == 0 then [] else ReadOn(rows, limit, Walk(rows, limit, n - 1))
  }

  lemma RowOfTable<T, P>(rows: set<Row<T, P>>, k: nat)
    requires DistinctIds(rows) && k < |rows|
    ensures InOrder(true, rows)[k] in rows
  {
    InOrderListsAll(true, rows);
    assert InOrder(true, rows)[k] in Members(InOrder(true, rows));
  }

  /** The row at place k of the thread can be a cursor. */
  ghost predicate Continues<T, P>(rows: set<Row<T, P>>, k: nat)
    requires DistinctIds(rows)
  {
    k < |rows| ==> 0 < InOrder(true, rows)[k].id && GoesByTime(rows, InOrder(true, rows)[k])
  }

  ghost predicate IsStuck<T, P>(rows: set<Row<T, P>>, k: nat)
    requires DistinctIds(rows) && k < |rows|
  {
    var r := InOrder(true, rows)[k];
    0 < r.id && !GoesByTime(rows, r)
  }

  lemma PageableContinues<T, P>(rows: set<Row<T, P>>, k: nat)
    requires Pageable(rows)
    ensures Continues(rows, k)
  {
    if k < |rows| {
      RowOfTable(rows, k);
      assert GoesByTime(rows, InOrder(true, rows)[k]);
    }
  }

  lemma NextPage<T, P>(rows: set<Row<T, P>>, limit: int, k: nat)
    requires DistinctIds(rows) && k < |rows| && Continues(rows, k)
    ensures var last := InOrder(true, rows)[k];
            Page(rows, limit, Some(last.timestamp), last.id) == Take(InOrder(true, rows)[k + 1..], PageLimit(limit))
  {
    var last := InOrder(true, rows)[k];
    RowOfTable(rows, k);
    ContinuationIsExact(rows, last);
    ReadingOn(true, rows, k);
  }

  lemma LastOfTake<A>(s: seq<A>, k: nat, n: nat)
    requires 0 < k && 0 < |s|
    ensures var taken := Take(s, k);
            && 0 < |taken| <= |s|
            && taken[|taken| - 1] == s[|taken| - 1]
            && taken + Take(s[|taken|..], n) == Take(s, k + n)
  {}

  lemma ReadOnContinues<T, P>(rows: set<Row<T, P>>, limit: int, k: nat, seen: seq<Row<T, P>>)
    requires DistinctIds(rows) && seen == Take(InOrder(true, rows), k)
    requires seen != [] ==> Continues(rows, |seen| - 1)
    ensures ReadOn(rows, limit, seen) == Take(InOrder(true, rows), k + PageLimit(limit))
  {
    var s := InOrder(true, rows);
    if seen != [] {
      LastOfTake(s, k, PageLimit(limit));
      NextPage(rows, limit, |seen| - 1);
    }
  }

  lemma PageableReadsOn<T, P>(rows: set<Row<T, P>>, limit: int, k: nat, seen: seq<Row<T, P>>)
    requires Pageable(rows) && seen == Take(InOrder(true, rows), k)
    ensures ReadOn(rows, limit, seen) == Take(InOrder(true, rows), k + PageLimit(limit))
  {
    if seen != [] {
      PageableContinues(rows, |seen| - 1);
    }
    ReadOnContinues(rows, limit, k, seen);
  }

  /** How many rows n full pages hold. */
  function Held(n: nat, limit: int): (rows: nat)
    ensures rows >= n
  {
    if n == 0 then 0 else Held(n - 1, limit) + PageLimit(limit)
  }

  /** The pages follow one another without gap or overlap, newest message first. */
  lemma {:induction false} WalkIsPrefix<T, P>(rows: set<Row<T, P>>, limit: int, n: nat)
    requires Pageable(rows)
    ensures Walk(rows, limit, n) == Take(InOrder(true, rows), Held(n, limit))
  {
    if n > 0 {
      WalkIsPrefix(rows, limit, n - 1);
      PageableReadsOn(rows, limit, Held(n - 1, limit), Walk(rows, limit, n - 1));
    }
  }

  /** The walk ends: an empty page means that every message was seen, which takes as many pages as the
      messages fill; each was seen once. */
  lemma WalkSeesAllOnce<T, P>(rows: set<Row<T, P>>, limit: int, n: nat)
    requires Pageable(rows)
    ensures Walk(rows, limit, n + 1) == Walk(rows, limit, n) <==> Held(n, limit) >= |rows|
    ensures Held(n, limit) >= |rows| ==>
              && Members(Walk(rows, limit, n)) == rows
              && |Walk(rows, limit, n)| == |rows|
              && Sorted(true, Walk(rows, limit, n))
    ensures Held(|rows|, limit) >= |rows|
  {
    WalkIsPrefix(rows, limit, n);
    WalkIsPrefix(rows, limit, n + 1);
    InOrderListsAll(true, rows);
  }

  // ---------- Exactly when no message is shown twice

  ghost predicate Once<A>(s: seq<A>) {
    forall i, j :: 0 <= i < j < |s| ==> s[i] != s[j]
  }

  lemma SortedIsOnce<T, P>(s: seq<Row<T, P>>)
    requires Sorted(true, s)
    ensures Once(s)
  {
    forall i, j | 0 <= i < j < |s| ensures s[i] != s[j] {
      assert Before(true, s[i], s[j]);
    }
  }

  lemma PrefixIsSorted<T, P>(s: seq<Row<T, P>>, k: nat)
    requires Sorted(true, s)
    ensures Sorted(true, Take(s, k))
  {
    forall i, j | 0 <= i < j < |Take(s, k)| ensures Before(true, Take(s, k)[i], Take(s, k)[j]) {
      assert Before(true, s[i], s[j]);
    }
  }

  lemma PageableWalksOnce<T, P>(rows: set<Row<T, P>>, limit: int, n: nat)
    requires Pageable(rows)
    ensures Once(Walk(rows, limit, n))
  {
    WalkIsPrefix(rows, limit, n);
    InOrderListsAll(true, rows);
    PrefixIsSorted(InOrder(true, rows), Held(n, limit));
    SortedIsOnce(Walk(rows, limit, n));
  }

  /** The first row that cannot be a cursor. */
  lemma {:induction false} FirstStuck<T, P>(rows: set<Row<T, P>>, k: nat) returns (first: nat)
    requires DistinctIds(rows) && k < |rows| && !Continues(rows, k)
    ensures first < |rows| && !Continues(rows, first) && forall j: nat :: j < first ==> Continues(rows, j)
    decreases k
  {
    if j: nat :| j < k && !Continues(rows, j) {
      first := FirstStuck(rows, j);
    } else {
      first := k;
    }
  }

  /** With single-row pages the walk is right up to the row that cannot be a cursor. */
  lemma {:induction false} WalkUpTo<T, P>(rows: set<Row<T, P>>, k: nat, n: nat)
    requires DistinctIds(rows) && k < |rows| && n <= k + 1 && forall j: nat :: j < k ==> Continues(rows, j)
    ensures Walk(rows, 1, n) == Take(InOrder(true, rows), n)
  {
    if n > 0 {
      WalkUpTo(rows, k, n - 1);
      ReadOnContinues(rows, 1, n - 1, Walk(rows, 1, n - 1));
    }
  }

  lemma RowAt<T, P>(rows: set<Row<T, P>>, x: Row<T, P>) returns (i: nat)
    requires DistinctIds(rows) && x in rows
    ensures i < |rows| && InOrder(true, rows)[i] == x
  {
    InOrderListsAll(true, rows);
    assert x in Members(InOrder(true, rows));
    i :| 0 <= i < |rows| && InOrder(true, rows)[i] == x;
  }

  /** Behind a row without a time the next page starts again with the newest of the rows with smaller ids, which
      was shown before. */
  lemma StuckShowsSeen<T, P>(rows: set<Row<T, P>>, k: nat) returns (i: nat)
    requires DistinctIds(rows) && k < |rows| && IsStuck(rows, k)
    ensures var r := InOrder(true, rows)[k];
            i < k && Page(rows, 1, Some(r.timestamp), r.id) == [InOrder(true, rows)[i]]
  {
    var s := InOrder(true, rows);
    var r := s[k];
    var older := Older(rows, Some(r.timestamp), r.id);
    var x :| x in rows && x.id < r.id && x.timestamp != 0;
    assert x in older;
    var y := First(true, older);
    assert y.timestamp != 0 by {
      assert y == x || Before(true, y, x);
    }
    NewestFirst(older);
    i := RowAt(rows, y);
    InOrderListsAll(true, rows);
    PlacesTell(s, i, k);
  }

  lemma PlacesTell<T, P>(s: seq<Row<T, P>>, i: nat, k: nat)
    requires Sorted(true, s) && i < |s| && k < |s|
    ensures Before(true, s[i], s[k]) <==> i < k
  {
    assert i < k ==> Before(true, s[i], s[k]);
    assert k < i ==> Before(true, s[k], s[i]);
  }

  lemma NewestFirst<T, P>(rows: set<Row<T, P>>)
    requires DistinctIds(rows) && rows != {}
    ensures Take(InOrder(true, rows), 1) == [First(true, rows)]
  {
  }

  lemma SeenAgain<A>(seen: seq<A>, i: nat, x: A)
    requires i < |seen| && seen[i] == x
    ensures !Once(seen + [x])
  {
    var walk := seen + [x];
    assert walk[i] == walk[|seen|];
  }

  lemma StuckReadsOn<T, P>(rows: set<Row<T, P>>, k: nat, seen: seq<Row<T, P>>) returns (i: nat, x: Row<T, P>)
    requires DistinctIds(rows) && k < |rows| && seen == Take(InOrder(true, rows), k + 1)
    requires IsStuck(rows, k)
    ensures i < |seen| && seen[i] == x && ReadOn(rows, 1, seen) == seen + [x]
  {
    i := StuckShowsSeen(rows, k);
    x := InOrder(true, rows)[i];
  }

  lemma StuckRepeats<T, P>(rows: set<Row<T, P>>, k: nat)
    requires DistinctIds(rows) && k < |rows| && forall j: nat :: j < k ==> Continues(rows, j)
    requires IsStuck(rows, k)
    ensures !Once(Walk(rows, 1, k + 2))
  {
    WalkUpTo(rows, k, k + 1);
    var seen := Walk(rows, 1, k + 1);
    var i, x := StuckReadsOn(rows, k, seen);
    SeenAgain(seen, i, x);
  }

  /** However large the pages are and however many are read, no message is shown twice, if and only if every
      message without a time has only such messages among the smaller ids. */
  lemma WalksOnce<T, P>(rows: set<Row<T, P>>)
    requires DistinctIds(rows) && forall r :: r in rows ==> 0 < r.id
    ensures (forall r :: r in rows ==> GoesByTime(rows, r)) <==> (forall limit: int, n: nat :: Once(Walk(rows, limit, n)))
  {
    if forall r :: r in rows ==> GoesByTime(rows, r) {
      forall limit: int, n: nat ensures Once(Walk(rows, limit, n)) {
        PageableWalksOnce(rows, limit, n);
      }
    } else {
      var r :| r in rows && !GoesByTime(rows, r);
      var j := RowAt(rows, r);
      var k := FirstStuck(rows, j);
      RowOfTable(rows, k);
      StuckRepeats(rows, k);
    }
  }

  /** Without times a page can repeat: here the message with a time comes first, and again after the other. */
  lemma ZeroTimeRepeats<T, P>(a: Row<T, P>, b: Row<T, P>)
    requires a.id == 1 && a.timestamp == 5 && b.id == 2 && b.timestamp == 0
    ensures DistinctIds({a, b})
    ensures Walk({a, b}, 1, 3) == [a, b, a]
  {
    var rows := {a, b};
    assert DistinctIds(rows) by { assert !SameId(a, b); }
    assert IsFirst(true, rows, First(true, rows)) && First(true, rows) == a;
    assert InOrder(true, rows) == [a] + InOrder(true, rows - {a});
    assert rows - {a} == {b};
    assert Older(rows, None, 0) == rows;
    assert Page(rows, 1, None, 0) == [a];
    assert Walk(rows, 1, 0) == [];
    assert Walk(rows, 1, 1) == [a];
    assert Older(rows, Some(5), 1) == {b};
    assert Walk(rows, 1, 2) == [a, b];
    assert Older(rows, Some(0), 2) == {a};
    assert Page(rows, 1, Some(0), 2) == [a];
  }

}

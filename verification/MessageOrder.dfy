/** Messages ordered by time and id, and reading them in order and by pages (internal/db). A table is a set
    of rows with distinct ids; T is the thread a row belongs to, P what its thread's summary repeats of it.
    Timestamps count from the zero time. */
module MessageOrder {

  datatype Row<T, P> = Row(id: nat, thread: T, shown: P, sender: string, recipient: string,
                           kind: int, status: int, timestamp: nat)

  predicate Less<T, P>(a: Row<T, P>, b: Row<T, P>) {
    a.timestamp < b.timestamp || (a.timestamp == b.timestamp && a.id < b.id)
  }

  /** The reading order: oldest first, or newest first when desc. */
  predicate Before<T, P>(desc: bool, a: Row<T, P>, b: Row<T, P>) {
    if desc then Less(b, a) else Less(a, b)
  }

  predicate SameId<T, P>(a: Row<T, P>, b: Row<T, P>) {
    a.id == b.id
  }

  predicate DistinctIds<T(==), P(==)>(table: set<Row<T, P>>) {
    forall a, b {:trigger SameId(a, b)} :: a in table && b in table && SameId(a, b) ==> a == b
  }

  predicate Sorted<T, P>(desc: bool, s: seq<Row<T, P>>) {
    forall i, j {:trigger Before(desc, s[i], s[j])} :: 0 <= i < j < |s| ==> Before(desc, s[i], s[j])
  }

  predicate IsFirst<T(==), P(==)>(desc: bool, table: set<Row<T, P>>, m: Row<T, P>) {
    m in table && forall x :: x in table ==> x == m || Before(desc, m, x)
  }

  lemma FirstExists<T, P>(desc: bool, table: set<Row<T, P>>)
    requires DistinctIds(table) && table != {}
    ensures exists m :: IsFirst(desc, table, m)
    decreases |table|
  {
    var m :| m in table;
    var rest := table - {m};
    if rest == {} {
      assert forall x :: x in table ==> x == m || x in rest;
      assert IsFirst(desc, table, m);
    } else {
      FirstExists(desc, rest);
      var n :| IsFirst(desc, rest, n);
      var first := if Before(desc, n, m) then n else m;
      forall x | x in table ensures x == first || Before(desc, first, x) {
        assert x == m || x in rest;
        assert !SameId(m, n) && (SameId(x, first) ==> x == first);
      }
      assert IsFirst(desc, table, first);
    }
  }

  function First<T(==), P(==)>(desc: bool, table: set<Row<T, P>>): (m: Row<T, P>)
    requires DistinctIds(table) && table != {}
    ensures IsFirst(desc, table, m)
  {
    FirstExists(desc, table);
    var m :| IsFirst(desc, table, m);
    m
  }

  /** The rows in reading order. */
  function InOrder<T(==), P(==)>(desc: bool, table: set<Row<T, P>>): (s: seq<Row<T, P>>)
    requires DistinctIds(table)
    ensures |s| == |table|
    decreases |table|
  {
    if table == {} then []
    else
      var m := First(desc, table);
      [m] + InOrder(desc, table - {m})
  }

  function Members<A(==)>(s: seq<A>): (all: set<A>) { set x | x in s }

  ghost predicate ComesFirst<T, P>(desc: bool, m: Row<T, P>, rest: set<Row<T, P>>) {
    forall x :: x in rest ==> Before(desc, m, x)
  }

  lemma PutFirst<T, P>(desc: bool, m: Row<T, P>, rest: seq<Row<T, P>>)
    requires Sorted(desc, rest) && ComesFirst(desc, m, Members(rest))
    ensures Sorted(desc, [m] + rest)
    ensures Members([m] + rest) == {m} + Members(rest)
  {
    forall i, j | 0 <= i < j < |[m] + rest| ensures Before(desc, ([m] + rest)[i], ([m] + rest)[j]) {
      assert ([m] + rest)[j] == rest[j - 1] && rest[j - 1] in Members(rest);
    }
  }

  /** It lists exactly the rows of the table, sorted. */
  lemma {:induction false} InOrderListsAll<T, P>(desc: bool, table: set<Row<T, P>>)
    requires DistinctIds(table)
    ensures Sorted(desc, InOrder(desc, table))
    ensures Members(InOrder(desc, table)) == table
    decreases |table|
  {
    if table != {} {
      var m := First(desc, table);
      InOrderListsAll(desc, table - {m});
      PutFirst(desc, m, InOrder(desc, table - {m}));
    }
  }

  lemma HeadComesFirst<T, P>(desc: bool, s: seq<Row<T, P>>)
    requires Sorted(desc, s) && s != []
    ensures ComesFirst(desc, s[0], Members(s[1..]))
    ensures IsFirst(desc, Members(s), s[0])
    ensures Sorted(desc, s[1..]) && Members(s[1..]) == Members(s) - {s[0]}
  {
    assert s == [s[0]] + s[1..];
  }

  lemma NoMembers<A>(s: seq<A>)
    ensures s == [] <==> Members(s) == {}
  {
    if s != [] {
      assert s[0] in Members(s);
    }
  }

  /** A sorted list is determined by its members. */
  lemma {:induction false} SortedIsUnique<T, P>(desc: bool, s: seq<Row<T, P>>, u: seq<Row<T, P>>)
    requires Sorted(desc, s) && Sorted(desc, u) && Members(s) == Members(u)
    ensures s == u
  {
    if s != [] && u != [] {
      HeadComesFirst(desc, s);
      HeadComesFirst(desc, u);
      assert s[0] == u[0];
      SortedIsUnique(desc, s[1..], u[1..]);
      assert s == [s[0]] + s[1..] && u == [u[0]] + u[1..];
    } else {
      NoMembers(s);
      NoMembers(u);
    }
  }

  function After<T(==), P(==)>(desc: bool, table: set<Row<T, P>>, m: Row<T, P>): (rest: set<Row<T, P>>) {
    set x | x in table && Before(desc, m, x)
  }

  /** Cutting a sorted list behind row k separates the rows that come after it from the others. */
  lemma CutBehind<T, P>(desc: bool, s: seq<Row<T, P>>, k: nat)
    requires Sorted(desc, s) && k < |s|
    ensures After(desc, Members(s), s[k]) == Members(s[k + 1..])
    ensures Sorted(desc, s[k + 1..])
  {
    forall x | x in Members(s[k + 1..]) ensures Before(desc, s[k], x) {
      var i: nat :| k + 1 <= i < |s| && s[i] == x;
    }
    forall x | x in After(desc, Members(s), s[k]) ensures x in s[k + 1..] {
      var i: nat :| i < |s| && s[i] == x;
      assert i <= k ==> i == k || Before(desc, s[i], s[k]);
      assert s[k + 1..][i - (k + 1)] == x;
    }
  }

  /** Reading on behind the k-th row gives exactly the rest of the list. */
  lemma ReadingOn<T, P>(desc: bool, table: set<Row<T, P>>, k: nat)
    requires DistinctIds(table) && k < |table|
    ensures DistinctIds(After(desc, table, InOrder(desc, table)[k]))
    ensures InOrder(desc, After(desc, table, InOrder(desc, table)[k])) == InOrder(desc, table)[k + 1..]
  {
    var s := InOrder(desc, table);
    var rest := After(desc, table, s[k]);
    InOrderListsAll(desc, table);
    InOrderListsAll(desc, rest);
    CutBehind(desc, s, k);
    SortedIsUnique(desc, InOrder(desc, rest), s[k + 1..]);
  }

  function Take<A>(s: seq<A>, n: nat): (r: seq<A>) { if n < |s| then s[..n] else s }
}

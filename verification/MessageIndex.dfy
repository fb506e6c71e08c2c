/** The summary kept for every message thread: kept up message by message, recomputed for one thread, or
    refilled for all of them (internal/db/db.go). */
module MessageIndex {

  import opened MessageOrder

  datatype Contact<P> = Contact(shown: P, lastID: nat, lastTimestamp: nat, lastKind: int, unread: nat)

  type Index<!T, P> = map<T, Contact<P>>

  /** Incoming, and not read yet. */
  predicate IsUnread<T, P>(m: Row<T, P>) {
    m.kind == 1 && m.status == 0
  }

  function Thread<T(==), P(==)>(table: set<Row<T, P>>, t: T): (rows: set<Row<T, P>>) {
    set m | m in table && m.thread == t
  }

  function UnreadRows<T(==), P(==)>(table: set<Row<T, P>>, t: T): (rows: set<Row<T, P>>) {
    set m | m in table && m.thread == t && IsUnread(m)
  }

  function Summary<T, P>(m: Row<T, P>, unread: nat): Contact<P> {
    Contact(m.shown, m.id, m.timestamp, m.kind, unread)
  }

  // What a reader of the whole table would say.

  /** c repeats the thread's newest message and counts its unread ones. */
  ghost predicate Tells<T, P>(table: set<Row<T, P>>, t: T, c: Contact<P>) {
    exists m :: m in table && IsFirst(true, Thread(table, t), m) && c == Summary(m, |UnreadRows(table, t)|)
  }

  ghost predicate AgreesOn<T, P>(table: set<Row<T, P>>, contacts: Index<T, P>, t: T) {
    if Thread(table, t) == {} then t !in contacts
    else t in contacts && Tells(table, t, contacts[t])
  }

  ghost predicate IndexAgrees<T(!new), P>(table: set<Row<T, P>>, contacts: Index<T, P>) {
    forall t: T :: AgreesOn(table, contacts, t)
  }

  /** The weaker half: the right threads, with the right unread counts. */
  ghost predicate CountsOn<T, P>(table: set<Row<T, P>>, contacts: Index<T, P>, t: T) {
    if Thread(table, t) == {} then t !in contacts
    else t in contacts && contacts[t].unread == |UnreadRows(table, t)|
  }

  ghost predicate IndexCounts<T(!new), P>(table: set<Row<T, P>>, contacts: Index<T, P>) {
    forall t: T :: CountsOn(table, contacts, t)
  }

  // What the program does.

  /** A message is entered: its thread's last fields are overwritten whatever its timestamp. */
  function Upsert<T(==), P>(contacts: Index<T, P>, m: Row<T, P>): (after: Index<T, P>) {
    var one := if IsUnread(m) then 1 else 0;
    contacts[m.thread := Summary(m, if m.thread in contacts then contacts[m.thread].unread + one else one)]
  }

  /** One thread's summary from the table. */
  function Rebuild<T(==), P(==)>(table: set<Row<T, P>>, contacts: Index<T, P>, t: T): (after: Index<T, P>)
    requires DistinctIds(table)
  {
    if Thread(table, t) == {} then contacts - {t}
    else contacts[t := Summary(InOrder(true, Thread(table, t))[0], |UnreadRows(table, t)|)]
  }

  // What holds of it.

  /** Two indexes that agree with the table are the same: the index holds nothing that the table does not. */
  lemma IndexIsDetermined<T(!new), P>(table: set<Row<T, P>>, a: Index<T, P>, b: Index<T, P>)
    requires IndexAgrees(table, a) && IndexAgrees(table, b)
    ensures a == b
  {
    forall t: T ensures (t in a <==> t in b) && (t in a ==> a[t] == b[t]) {
      assert AgreesOn(table, a, t) && AgreesOn(table, b, t);
    }
  }

  /** In an index that agrees, a contact repeats the message of its thread with the latest timestamp, of several the
      one with the greatest id, and counts the incoming ones that are not read. */
  lemma ContactTells<T(!new), P>(table: set<Row<T, P>>, contacts: Index<T, P>, t: T) returns (m: Row<T, P>)
    requires IndexAgrees(table, contacts) && t in contacts
    ensures m in table && m.thread == t
    ensures forall x :: x in table && x.thread == t && x != m ==> x.timestamp < m.timestamp || (x.timestamp == m.timestamp && x.id < m.id)
    ensures contacts[t] == Contact(m.shown, m.id, m.timestamp, m.kind, |set x | x in table && x.thread == t && x.kind == 1 && x.status == 0|)
  {
    assert AgreesOn(table, contacts, t);
    m :| m in table && IsFirst(true, Thread(table, t), m) && contacts[t] == Summary(m, |UnreadRows(table, t)|);
    assert UnreadRows(table, t) == set x | x in table && x.thread == t && x.kind == 1 && x.status == 0;
    forall x | x in table && x.thread == t && x != m ensures x.timestamp < m.timestamp || (x.timestamp == m.timestamp && x.id < m.id) {
      assert x in Thread(table, t);
    }
  }

  lemma AgreeingIndexCounts<T(!new), P>(table: set<Row<T, P>>, contacts: Index<T, P>)
    requires IndexAgrees(table, contacts)
    ensures IndexCounts(table, contacts)
  {
    forall t: T ensures CountsOn(table, contacts, t) {
      assert AgreesOn(table, contacts, t);
    }
  }

  /** Recomputing a thread puts its summary right and touches no other. */
  lemma RebuildPutsRight<T(!new), P>(table: set<Row<T, P>>, contacts: Index<T, P>, t: T)
    requires DistinctIds(table)
    ensures AgreesOn(table, Rebuild(table, contacts, t), t)
    ensures forall u: T :: u != t ==> (AgreesOn(table, Rebuild(table, contacts, t), u) <==> AgreesOn(table, contacts, u))
    ensures forall u: T :: u != t ==> (CountsOn(table, Rebuild(table, contacts, t), u) <==> CountsOn(table, contacts, u))
    ensures CountsOn(table, Rebuild(table, contacts, t), t)
  {}

  /** Which threads a new row changes. */
  lemma RowsWith<T(!new), P>(table: set<Row<T, P>>, m: Row<T, P>)
    requires m !in table
    ensures forall t: T :: t != m.thread ==> Thread(table + {m}, t) == Thread(table, t)
    ensures forall t: T :: t != m.thread ==> UnreadRows(table + {m}, t) == UnreadRows(table, t)
    ensures Thread(table + {m}, m.thread) == Thread(table, m.thread) + {m}
    ensures |UnreadRows(table + {m}, m.thread)| == |UnreadRows(table, m.thread)| + if IsUnread(m) then 1 else 0
  {
    var old', new' := UnreadRows(table, m.thread), UnreadRows(table + {m}, m.thread);
    assert new' == if IsUnread(m) then old' + {m} else old';
    assert Thread(table + {m}, m.thread) == Thread(table, m.thread) + {m};
    forall t: T | t != m.thread
      ensures Thread(table + {m}, t) == Thread(table, t) && UnreadRows(table + {m}, t) == UnreadRows(table, t)
    {
      assert forall x :: x in Thread(table + {m}, t) <==> x in Thread(table, t);
      assert forall x :: x in UnreadRows(table + {m}, t) <==> x in UnreadRows(table, t);
    }
  }

  /** Unread counts stay right in whatever order messages are entered. */
  lemma UpsertCounts<T(!new), P>(table: set<Row<T, P>>, contacts: Index<T, P>, m: Row<T, P>)
    requires IndexCounts(table, contacts) && m !in table
    ensures IndexCounts(table + {m}, Upsert(contacts, m))
  {
    RowsWith(table, m);
    forall t: T ensures CountsOn(table + {m}, Upsert(contacts, m), t) {
      assert CountsOn(table, contacts, t);
    }
  }

  /** No message of m's thread comes after it. */
  predicate IsNewest<T(==), P(==)>(table: set<Row<T, P>>, m: Row<T, P>) {
    forall x :: x in table && x.thread == m.thread ==> Less(x, m)
  }

  lemma NewestIsFirst<T, P>(table: set<Row<T, P>>, m: Row<T, P>)
    requires m !in table
    ensures IsNewest(table, m) <==> IsFirst(true, Thread(table + {m}, m.thread), m)
  {
    var rows := Thread(table + {m}, m.thread);
    if IsFirst(true, rows, m) {
      forall x | x in table && x.thread == m.thread ensures Less(x, m) {
        assert x in rows;
      }
    }
  }

  /** The index agrees after a message was entered exactly when that message is its thread's newest. */
  lemma UpsertAgrees<T(!new), P>(table: set<Row<T, P>>, contacts: Index<T, P>, m: Row<T, P>)
    requires IndexAgrees(table, contacts) && DistinctIds(table + {m}) && m !in table
    ensures IndexAgrees(table + {m}, Upsert(contacts, m)) <==> IsNewest(table, m)
  {
    var after, now := Upsert(contacts, m), table + {m};
    RowsWith(table, m);
    NewestIsFirst(table, m);
    AgreeingIndexCounts(table, contacts);
    UpsertCounts(table, contacts, m);
    forall t: T | t != m.thread ensures AgreesOn(now, after, t) {
      assert AgreesOn(table, contacts, t);
    }
    assert CountsOn(now, after, m.thread);
    assert m in Thread(now, m.thread);
    assert after[m.thread] == Summary(m, |UnreadRows(now, m.thread)|);
    if IndexAgrees(now, after) {
      assert AgreesOn(now, after, m.thread);
      assert Tells(now, m.thread, after[m.thread]);
      var l :| l in now && IsFirst(true, Thread(now, m.thread), l)
               && after[m.thread] == Summary(l, |UnreadRows(now, m.thread)|);
      assert SameId(l, m);
      assert l == m;
    }
  }

  /** Which threads a deleted row changes. */
  lemma AgreesWithout<T(!new), P>(table: set<Row<T, P>>, contacts: Index<T, P>, m: Row<T, P>)
    requires m in table
    ensures forall t: T :: t != m.thread ==> (AgreesOn(table - {m}, contacts, t) <==> AgreesOn(table, contacts, t))
    ensures forall t: T :: t != m.thread ==> (CountsOn(table - {m}, contacts, t) <==> CountsOn(table, contacts, t))
  {
    assert table - {m} + {m} == table;
    RowsWith(table - {m}, m);
  }

  /** Deleting a message and recomputing its thread keeps the index right; so do its unread counts. */
  lemma DeleteAgrees<T(!new), P>(table: set<Row<T, P>>, contacts: Index<T, P>, m: Row<T, P>)
    requires DistinctIds(table) && m in table
    ensures DistinctIds(table - {m})
    ensures IndexAgrees(table, contacts) ==>
              IndexAgrees(table - {m}, Rebuild(table - {m}, contacts, m.thread))
    ensures IndexCounts(table, contacts) ==>
              IndexCounts(table - {m}, Rebuild(table - {m}, contacts, m.thread))
  {
    var rest := table - {m};
    var after := Rebuild(rest, contacts, m.thread);
    AgreesWithout(table, contacts, m);
    RebuildPutsRight(rest, contacts, m.thread);
    if IndexAgrees(table, contacts) {
      forall t: T ensures AgreesOn(rest, after, t) {
        assert AgreesOn(table, contacts, t);
      }
    }
    if IndexCounts(table, contacts) {
      forall t: T ensures CountsOn(rest, after, t) {
        assert CountsOn(table, contacts, t);
      }
    }
  }

  /** Dropping a whole thread with its summary. */
  lemma DropAgrees<T(!new), P>(table: set<Row<T, P>>, contacts: Index<T, P>, t: T)
    ensures IndexAgrees(table, contacts) ==> IndexAgrees(table - Thread(table, t), contacts - {t})
    ensures IndexCounts(table, contacts) ==> IndexCounts(table - Thread(table, t), contacts - {t})
  {
    var rest := table - Thread(table, t);
    forall u: T
      ensures AgreesOn(table, contacts, u) ==> AgreesOn(rest, contacts - {t}, u)
      ensures CountsOn(table, contacts, u) ==> CountsOn(rest, contacts - {t}, u)
    {
      assert Thread(rest, u) == if u == t then {} else Thread(table, u);
      assert UnreadRows(rest, u) == if u == t then {} else UnreadRows(table, u);
    }
    if IndexAgrees(table, contacts) {
      forall u: T ensures AgreesOn(rest, contacts - {t}, u) { assert AgreesOn(table, contacts, u); }
    }
    if IndexCounts(table, contacts) {
      forall u: T ensures CountsOn(rest, contacts - {t}, u) { assert CountsOn(table, contacts, u); }
    }
  }

  /** Deleting a message without recomputing its thread leaves the index right exactly when the message
      was neither unread nor the newest of its thread. */
  lemma ForgottenDelete<T(!new), P>(table: set<Row<T, P>>, contacts: Index<T, P>, m: Row<T, P>)
    requires IndexAgrees(table, contacts) && DistinctIds(table) && m in table
    ensures IndexAgrees(table - {m}, contacts) <==> !IsUnread(m) && !IsNewest(table - {m}, m)
  {
    var rest, t := table - {m}, m.thread;
    assert rest + {m} == table;
    AgreesWithout(table, contacts, m);
    RowsWith(rest, m);
    NewestIsFirst(rest, m);
    assert AgreesOn(table, contacts, t) && m in Thread(table, t);
    var l :| l in table && IsFirst(true, Thread(table, t), l) && contacts[t] == Summary(l, |UnreadRows(table, t)|);
    if !IsUnread(m) && !IsNewest(rest, m) {
      assert l != m && l in Thread(rest, t);
      assert IsFirst(true, Thread(rest, t), l);
      forall u: T ensures AgreesOn(rest, contacts, u) {
        assert AgreesOn(table, contacts, u);
      }
    }
    if IndexAgrees(rest, contacts) {
      assert AgreesOn(rest, contacts, t) && Tells(rest, t, contacts[t]);
      var k :| k in rest && IsFirst(true, Thread(rest, t), k) && contacts[t] == Summary(k, |UnreadRows(rest, t)|);
      assert SameId(k, l);
      assert k == l;
    }
  }

  // ---------- Only the rows with a peer are listed

  function Listed<T(==), P(==)>(hasPeer: T -> bool, table: set<Row<T, P>>): (listed: set<Row<T, P>>) {
    set m | m in table && hasPeer(m.thread)
  }

  /** What entering one message does to the index. */
  function Enter<T(==), P>(hasPeer: T -> bool, contacts: Index<T, P>, m: Row<T, P>): (after: Index<T, P>) {
    if hasPeer(m.thread) then Upsert(contacts, m) else contacts
  }

  lemma EnterCounts<T(!new), P>(hasPeer: T -> bool, table: set<Row<T, P>>, contacts: Index<T, P>, m: Row<T, P>)
    requires m !in table && IndexCounts(Listed(hasPeer, table), contacts)
    ensures IndexCounts(Listed(hasPeer, table + {m}), Enter(hasPeer, contacts, m))
  {
    if hasPeer(m.thread) {
      assert Listed(hasPeer, table + {m}) == Listed(hasPeer, table) + {m};
      UpsertCounts(Listed(hasPeer, table), contacts, m);
    } else {
      assert Listed(hasPeer, table + {m}) == Listed(hasPeer, table);
    }
  }

  lemma EnterAgrees<T(!new), P>(hasPeer: T -> bool, table: set<Row<T, P>>, contacts: Index<T, P>, m: Row<T, P>)
    requires m !in table && DistinctIds(table + {m})
    requires IndexAgrees(Listed(hasPeer, table), contacts)
    ensures IndexAgrees(Listed(hasPeer, table + {m}), Enter(hasPeer, contacts, m)) <==>
            !hasPeer(m.thread) || IsNewest(Listed(hasPeer, table), m)
  {
    if hasPeer(m.thread) {
      assert Listed(hasPeer, table + {m}) == Listed(hasPeer, table) + {m};
      UpsertAgrees(Listed(hasPeer, table), contacts, m);
    } else {
      assert Listed(hasPeer, table + {m}) == Listed(hasPeer, table);
    }
  }

  /** A thread with a peer has the same rows in the whole table and among the listed ones. */
  lemma ListedThread<T, P>(hasPeer: T -> bool, table: set<Row<T, P>>, contacts: Index<T, P>, t: T)
    requires DistinctIds(table) && hasPeer(t)
    ensures DistinctIds(Listed(hasPeer, table))
    ensures Thread(Listed(hasPeer, table), t) == Thread(table, t)
    ensures Rebuild(Listed(hasPeer, table), contacts, t) == Rebuild(table, contacts, t)
  {
    assert Thread(Listed(hasPeer, table), t) == Thread(table, t);
    assert UnreadRows(Listed(hasPeer, table), t) == UnreadRows(table, t);
  }

  lemma ListedWithout<T, P>(hasPeer: T -> bool, table: set<Row<T, P>>, m: Row<T, P>)
    requires m in table
    ensures Listed(hasPeer, table - {m}) == if hasPeer(m.thread) then Listed(hasPeer, table) - {m} else Listed(hasPeer, table)
    ensures hasPeer(m.thread) ==> (IsNewest(Listed(hasPeer, table - {m}), m) <==> IsNewest(table - {m}, m))
  {
    if hasPeer(m.thread) && IsNewest(Listed(hasPeer, table - {m}), m) {
      forall x | x in table - {m} && x.thread == m.thread ensures Less(x, m) {
        assert x in Listed(hasPeer, table - {m});
      }
    }
  }

  // ---------- Refilling the index

  function Filled<T(==), P(==)>(fill: Row<T, P> -> Row<T, P>, table: set<Row<T, P>>): (filled: set<Row<T, P>>) {
    set m | m in table :: fill(m)
  }

  /** The index after the given messages were read, filled and entered one by one. */
  function Entered<T(==), P>(fill: Row<T, P> -> Row<T, P>, hasPeer: T -> bool, s: seq<Row<T, P>>): (contacts: Index<T, P>) {
    if s == [] then map[] else Enter(hasPeer, Entered(fill, hasPeer, s[..|s| - 1]), fill(s[|s| - 1]))
  }

  /** Filling changes neither the id nor the timestamp. */
  ghost predicate KeepsPlace<T(!new), P(!new)>(fill: Row<T, P> -> Row<T, P>) {
    forall m: Row<T, P> {:trigger fill(m)} :: fill(m).id == m.id && fill(m).timestamp == m.timestamp
  }

  lemma FilledKeepsIds<T(!new), P(!new)>(fill: Row<T, P> -> Row<T, P>, table: set<Row<T, P>>)
    requires KeepsPlace(fill) && DistinctIds(table)
    ensures DistinctIds(Filled(fill, table))
  {
    forall a, b | a in Filled(fill, table) && b in Filled(fill, table) && SameId(a, b) ensures a == b {
      var m :| m in table && fill(m) == a;
      var n :| n in table && fill(n) == b;
      assert SameId(m, n);
    }
  }

  lemma MembersOfInit<T, P>(fill: Row<T, P> -> Row<T, P>, s: seq<Row<T, P>>)
    requires s != []
    ensures Members(s[..|s| - 1]) <= Members(s)
    ensures Filled(fill, Members(s)) == Filled(fill, Members(s[..|s| - 1])) + {fill(s[|s| - 1])}
  {
    assert s == s[..|s| - 1] + [s[|s| - 1]];
  }

  predicate AllBefore<T(==), P(==)>(rows: set<Row<T, P>>, m: Row<T, P>) {
    forall x :: x in rows ==> Less(x, m)
  }

  lemma LastIsNewest<T(!new), P(!new)>(fill: Row<T, P> -> Row<T, P>, s: seq<Row<T, P>>)
    requires KeepsPlace(fill) && Sorted(false, s) && s != []
    ensures AllBefore(Filled(fill, Members(s[..|s| - 1])), fill(s[|s| - 1]))
  {
    var init := s[..|s| - 1];
    forall x | x in Filled(fill, Members(init)) ensures Less(x, fill(s[|s| - 1])) {
      var y :| y in Members(init) && fill(y) == x;
      var i: nat :| i < |init| && init[i] == y;
      assert Before(false, s[i], s[|s| - 1]);
    }
  }

  /** Entering messages oldest first, starting from nothing, gives the index of their table. */
  lemma {:induction false} EnteredAgrees<T(!new), P(!new)>(fill: Row<T, P> -> Row<T, P>, hasPeer: T -> bool, s: seq<Row<T, P>>)
    requires KeepsPlace(fill) && Sorted(false, s) && DistinctIds(Members(s))
    ensures IndexAgrees(Listed(hasPeer, Filled(fill, Members(s))), Entered(fill, hasPeer, s))
  {
    if s == [] {
      forall t: T ensures AgreesOn(Listed(hasPeer, Filled(fill, Members(s))), Entered(fill, hasPeer, s), t) {
        assert Thread(Listed(hasPeer, Filled(fill, Members(s))), t) == {};
      }
    } else {
      var init, m := s[..|s| - 1], fill(s[|s| - 1]);
      MembersOfInit(fill, s);
      assert Sorted(false, init);
      EnteredAgrees(fill, hasPeer, init);
      LastIsNewest(fill, s);
      var table := Filled(fill, Members(init));
      FilledKeepsIds(fill, Members(s));
      assert m !in table;
      EnterAgrees(hasPeer, table, Entered(fill, hasPeer, init), m);
    }
  }
}

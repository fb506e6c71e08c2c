/** The message and contact tables, changed row by row (internal/db/db.go). */
module MessageTableObject {
  import opened Wrappers
  import opened MessageOrder
  import opened MessageIndex
  import S = MessageStore

  /** The rows of a query with a limit. */
  function Find<T(==), P(==)>(desc: bool, rows: set<Row<T, P>>, limit: nat): (found: seq<Row<T, P>>)
    requires DistinctIds(rows)
  {
    Take(InOrder(desc, rows), limit)
  }

  // ---------- A half-finished backfill

  /** The table when the first n rows in order were filled. */
  function Partly<T(==), P(==)>(fill: Row<T, P> -> Row<T, P>, order: seq<Row<T, P>>, n: nat): (table: set<Row<T, P>>)
    requires n <= |order|
  {
    Filled(fill, Members(order[..n])) + Members(order[n..])
  }

  ghost predicate IsOrder<T, P>(order: seq<Row<T, P>>) {
    && Sorted(false, order)
    && DistinctIds(Members(order))
    && forall m :: m in Members(order) ==> 0 < m.id
  }

  lemma MembersSplit<T, P>(order: seq<Row<T, P>>, n: nat)
    requires n < |order|
    ensures Members(order[..n + 1]) == Members(order[..n]) + {order[n]}
    ensures Members(order[n..]) == {order[n]} + Members(order[n + 1..])
  {
    assert order[..n + 1] == order[..n] + [order[n]];
    assert order[n..] == [order[n]] + order[n + 1..];
  }

  lemma FilledBefore<T(!new), P(!new)>(fill: Row<T, P> -> Row<T, P>, order: seq<Row<T, P>>, n: nat, m: Row<T, P>)
    requires KeepsPlace(fill) && IsOrder(order) && n < |order|
    requires m in Filled(fill, Members(order[..n]))
    ensures Less(m, order[n])
  {
    var x :| x in Members(order[..n]) && fill(x) == m;
    var i: nat :| i < n && order[i] == x;
    assert Before(false, order[i], order[n]);
  }

  lemma RestAfter<T, P>(order: seq<Row<T, P>>, n: nat, m: Row<T, P>)
    requires IsOrder(order) && n < |order| && m in Members(order[n + 1..])
    ensures Less(order[n], m)
  {
    var i: nat :| n + 1 <= i < |order| && order[i] == m;
    assert Before(false, order[n], order[i]);
  }

  lemma FillOne<T(!new), P(!new)>(fill: Row<T, P> -> Row<T, P>, order: seq<Row<T, P>>, n: nat)
    requires KeepsPlace(fill) && IsOrder(order) && n < |order|
    ensures order[n] in Partly(fill, order, n)
    ensures Partly(fill, order, n) - {order[n]} + {fill(order[n])} == Partly(fill, order, n + 1)
  {
    MembersSplit(order, n);
    var m, before, rest := order[n], Filled(fill, Members(order[..n])), Members(order[n + 1..]);
    assert Filled(fill, Members(order[..n + 1])) == before + {fill(m)};
    assert m !in before by { if m in before { FilledBefore(fill, order, n, m); } }
    assert m !in rest by { if m in rest { RestAfter(order, n, m); } }
    assert Partly(fill, order, n) == before + ({m} + rest);
  }

  /** The rows that the next batch is taken from. */
  function Behind<T(==), P(==)>(table: set<Row<T, P>>, lastTs: nat, lastID: nat): (rows: set<Row<T, P>>) {
    if lastTs == 0 && lastID == 0 then table
    else set x | x in table && (x.timestamp > lastTs || (x.timestamp == lastTs && x.id > lastID))
  }

  /** Whether reading goes on behind row n of the order, or from its start. */
  predicate CursorAt<T(==), P(==)>(order: seq<Row<T, P>>, n: nat, lastTs: nat, lastID: nat)
    requires n <= |order|
  {
    if n == 0 then lastTs == 0 && lastID == 0 else lastTs == order[n - 1].timestamp && lastID == order[n - 1].id
  }

  lemma FilledIsNotBehind<T(!new), P(!new)>(fill: Row<T, P> -> Row<T, P>, order: seq<Row<T, P>>, n: nat, m: Row<T, P>)
    requires KeepsPlace(fill) && IsOrder(order) && 0 < n <= |order|
    requires m in Filled(fill, Members(order[..n]))
    ensures !Less(order[n - 1], m)
  {
    var x :| x in Members(order[..n]) && fill(x) == m;
    var i: nat :| i < n && order[i] == x;
    assert i < n - 1 ==> Before(false, order[i], order[n - 1]);
  }

  /** The rows behind the cursor are the ones not read yet, whatever was filled in before it. */
  lemma BehindIsTheRest<T(!new), P(!new)>(fill: Row<T, P> -> Row<T, P>, order: seq<Row<T, P>>, n: nat, lastTs: nat, lastID: nat)
    requires KeepsPlace(fill) && IsOrder(order) && n <= |order| && CursorAt(order, n, lastTs, lastID)
    ensures Behind(Partly(fill, order, n), lastTs, lastID) == Members(order[n..])
  {
    var rest := Members(order[n..]);
    if n == 0 {
      assert order[..0] == [];
      assert Partly(fill, order, 0) == rest;
    } else {
      var last, before := order[n - 1], Filled(fill, Members(order[..n]));
      assert last in Members(order);
      forall m | m in before ensures !Less(last, m) {
        FilledIsNotBehind(fill, order, n, m);
      }
      forall m | m in rest ensures Less(last, m) {
        RestAfter(order, n - 1, m);
      }
      assert Partly(fill, order, n) == before + rest;
      assert forall m :: m in Behind(before + rest, lastTs, lastID) <==> m in before + rest && Less(last, m);
    }
  }

  lemma RestInOrder<T, P>(order: seq<Row<T, P>>, n: nat)
    requires IsOrder(order) && n <= |order|
    ensures DistinctIds(Members(order[n..]))
    ensures InOrder(false, Members(order[n..])) == order[n..]
  {
    var rest := Members(order[n..]);
    assert rest <= Members(order);
    assert Sorted(false, order[n..]);
    InOrderListsAll(false, rest);
    SortedIsUnique(false, InOrder(false, rest), order[n..]);
  }

  lemma SameRows<T, P>(rows: set<Row<T, P>>, rest: seq<Row<T, P>>, limit: nat)
    requires rows == Members(rest) && DistinctIds(Members(rest)) && InOrder(false, Members(rest)) == rest
    ensures DistinctIds(rows) && Find(false, rows, limit) == Take(rest, limit)
  {}

  lemma BatchIsNext<T(!new), P(!new)>(fill: Row<T, P> -> Row<T, P>, order: seq<Row<T, P>>, n: nat, lastTs: nat, lastID: nat, limit: nat)
    requires KeepsPlace(fill) && IsOrder(order) && n <= |order| && CursorAt(order, n, lastTs, lastID)
    ensures DistinctIds(Behind(Partly(fill, order, n), lastTs, lastID))
    ensures Find(false, Behind(Partly(fill, order, n), lastTs, lastID), limit) == Take(order[n..], limit)
  {
    var rest := order[n..];
    BehindIsTheRest(fill, order, n, lastTs, lastID);
    RestInOrder(order, n);
    SameRows(Behind(Partly(fill, order, n), lastTs, lastID), rest, limit);
  }

  // The same about the order of a table.

  ghost predicate IsTable<T, P>(table: set<Row<T, P>>) {
    DistinctIds(table) && forall m :: m in table ==> 0 < m.id
  }

  lemma OrderOfTable<T, P>(table: set<Row<T, P>>)
    requires IsTable(table)
    ensures IsOrder(InOrder(false, table)) && Members(InOrder(false, table)) == table
  {
    InOrderListsAll(false, table);
  }

  datatype Tables<!T(==), !P(==)> = Tables(messages: set<Row<T, P>>, contacts: Index<T, P>)

  /** The tables when a backfill has read, filled and entered the first n rows of the order. */
  ghost function FilledUpTo<T, P>(r: S.Rules<T, P>, table: set<Row<T, P>>, order: seq<Row<T, P>>, n: nat): Tables<T, P>
    requires n <= |order|
  {
    if n == 0 then Tables(table, map[])
    else
      var before, m := FilledUpTo(r, table, order, n - 1), order[n - 1];
      Tables(before.messages - {m} + {S.FillRow(r, m)}, if S.HasPeer(r, S.FillRow(r, m).thread) then Upsert(before.contacts, S.FillRow(r, m)) else before.contacts)
  }

  lemma FilledFirst<T(!new), P(!new)>(fill: Row<T, P> -> Row<T, P>, order: seq<Row<T, P>>)
    ensures Partly(fill, order, 0) == Members(order)
  {
    assert order[..0] == [] && order[0..] == order;
    assert Filled(fill, Members(order[..0])) == {};
  }

  /** One row more, when the rows before are filled. */
  lemma FilledOneMore<T(!new), P(!new)>(r: S.Rules<T, P>, order: seq<Row<T, P>>, n: nat, before: set<Row<T, P>>)
    requires KeepsPlace(r.fill) && IsOrder(order) && n < |order| && before == Partly(r.fill, order, n)
    ensures before - {order[n]} + {S.FillRow(r, order[n])} == Partly(r.fill, order, n + 1)
  {
    FillOne(r.fill, order, n);
  }

  lemma {:induction false} FilledMessages<T(!new), P(!new)>(r: S.Rules<T, P>, order: seq<Row<T, P>>, n: nat)
    requires KeepsPlace(r.fill) && IsOrder(order) && n <= |order|
    ensures FilledUpTo(r, Members(order), order, n).messages == Partly(r.fill, order, n)
  {
    if n == 0 {
      FilledFirst(r.fill, order);
    } else {
      FilledMessages(r, order, n - 1);
      FilledOneMore(r, order, n - 1, FilledUpTo(r, Members(order), order, n - 1).messages);
    }
  }

  lemma {:induction false} FilledContacts<T, P>(r: S.Rules<T, P>, table: set<Row<T, P>>, order: seq<Row<T, P>>, n: nat)
    requires n <= |order|
    ensures FilledUpTo(r, table, order, n).contacts == Entered(r.fill, r.hasPeer, order[..n])
  {
    if n > 0 {
      FilledContacts(r, table, order, n - 1);
      EnteredNext(r.fill, r.hasPeer, order, n - 1);
    }
  }

  lemma FilledAll<T(!new), P(!new)>(r: S.Rules<T, P>, table: set<Row<T, P>>)
    requires KeepsPlace(r.fill) && IsTable(table)
    ensures var order := InOrder(false, table);
            FilledUpTo(r, table, order, |order|) == Tables(Filled(r.fill, table), Entered(r.fill, r.hasPeer, order))
  {
    var order := InOrder(false, table);
    OrderOfTable(table);
    FilledMessages(r, order, |order|);
    FilledContacts(r, table, order, |order|);
    assert order[..|order|] == order && order[|order|..] == [];
  }

  /** The batch continues the order behind its first n rows, and is empty only at the end. */
  predicate ContinuesOrder<A(==)>(batch: seq<A>, order: seq<A>, n: nat) {
    n + |batch| <= |order| && batch == order[n..n + |batch|] && (batch == [] ==> n == |order|)
  }

  lemma TakeIsSlice<A>(taken: seq<A>, s: seq<A>, n: nat, limit: nat)
    requires n <= |s| && limit > 0 && taken == Take(s[n..], limit)
    ensures ContinuesOrder(taken, s, n)
  {}

  lemma TakenNext<T(!new), P(!new)>(r: S.Rules<T, P>, table: set<Row<T, P>>, order: seq<Row<T, P>>, n: nat, messages: set<Row<T, P>>,
                                    lastTs: nat, lastID: nat, limit: nat)
    requires KeepsPlace(r.fill) && IsTable(table) && order == InOrder(false, table) && n <= |order| && limit > 0
    requires messages == FilledUpTo(r, table, order, n).messages && CursorAt(order, n, lastTs, lastID)
    ensures DistinctIds(Behind(messages, lastTs, lastID))
    ensures Find(false, Behind(messages, lastTs, lastID), limit) == Take(order[n..], limit)
  {
    OrderOfTable(table);
    FilledMessages(r, order, n);
    BatchIsNext(r.fill, order, n, lastTs, lastID, limit);
  }

  /** The next batch continues the order where the last one ended. */
  lemma NextBatch<T(!new), P(!new)>(r: S.Rules<T, P>, table: set<Row<T, P>>, order: seq<Row<T, P>>, n: nat, messages: set<Row<T, P>>,
                                    lastTs: nat, lastID: nat, limit: nat)
    requires KeepsPlace(r.fill) && IsTable(table) && order == InOrder(false, table) && n <= |order| && limit > 0
    requires messages == FilledUpTo(r, table, order, n).messages && CursorAt(order, n, lastTs, lastID)
    ensures DistinctIds(Behind(messages, lastTs, lastID))
    ensures ContinuesOrder(Find(false, Behind(messages, lastTs, lastID), limit), order, n)
  {
    TakenNext(r, table, order, n, messages, lastTs, lastID, limit);
    TakeIsSlice(Find(false, Behind(messages, lastTs, lastID), limit), order, n, limit);
  }

  lemma EnteredNext<T, P>(fill: Row<T, P> -> Row<T, P>, hasPeer: T -> bool, order: seq<Row<T, P>>, n: nat)
    requires n < |order|
    ensures Entered(fill, hasPeer, order[..n + 1]) == Enter(hasPeer, Entered(fill, hasPeer, order[..n]), fill(order[n]))
  {
    assert order[..n + 1][..n] == order[..n];
  }

  class MessageTable<!T(!new, ==), !P(!new, ==)> {

    const rules: S.Rules<T, P>
    var messages: set<Row<T, P>>
    var contacts: Index<T, P>
    var nextID: nat

    ghost function View(): S.Store<T, P>
      reads this
    {
      S.Store(messages, contacts, nextID)
    }

    ghost predicate Valid()
      reads this
    {
      S.Valid(View()) && 0 < nextID && S.FillsWell(rules)
    }

    constructor (rules: S.Rules<T, P>)
      requires S.FillsWell(rules)
      ensures Valid() && View() == S.Store({}, map[], 1) && this.rules == rules
    {
      this.rules := rules;
      messages, contacts, nextID := {}, map[], 1;
    }

    /** Insert the message's contact, or overwrite the last fields of the one that is there. */
    method EnterContact(m: Row<T, P>)
      modifies this`contacts
      ensures contacts == Upsert(old(contacts), m)
    {
      var unread := if IsUnread(m) then 1 else 0;
      if m.thread in contacts {
        var c := contacts[m.thread];
        c := c.(shown := m.shown, lastID := m.id, lastTimestamp := m.timestamp, lastKind := m.kind);
        if unread == 1 {
          c := c.(unread := c.unread + 1);
        }
        contacts := contacts[m.thread := c];
      } else {
        contacts := contacts[m.thread := Contact(m.shown, m.id, m.timestamp, m.kind, unread)];
      }
    }

    /** Store a message under the next id and enter it in the index. */
    method Save(thread: T, shown: P, sender: string, recipient: string, kind: int, status: int, timestamp: nat)
      requires Valid()
      modifies this
      ensures Valid()
      ensures var m := Row(old(nextID), thread, shown, sender, recipient, kind, status, timestamp);
              && View() == S.Save(rules, old(View()), m)
              && messages == old(messages) + {m} && nextID == old(nextID) + 1
              && (old(S.Counts(rules, View())) ==> S.Counts(rules, View()))
              && (old(S.Agrees(rules, View())) ==>
                    (S.Agrees(rules, View()) <==> !S.HasPeer(rules, thread) || S.InTime(old(View()), S.Saved(m))))
    {
      var m := Row(nextID, thread, shown, sender, recipient, kind, status, timestamp);
      S.SaveAgrees(rules, View(), m);
      messages := messages + {m};
      nextID := nextID + 1;
      if S.HasPeer(rules, m.thread) {
        EnterContact(m);
      }
    }

    /** Recompute one contact from the table, deleting it if its thread is empty. */
    method RebuildContact(key: T) returns (threadEmpty: bool)
      requires Valid()
      modifies this`contacts
      ensures Valid()
      ensures View() == S.RebuildContact(rules, old(View()), key)
      ensures threadEmpty <==> !S.Recomputable(rules, S.TrimKey(rules, key)) || Thread(messages, S.TrimKey(rules, key)) == {}
    {
      var t := S.TrimKey(rules, key);
      if !S.Recomputable(rules, t) {
        return true;
      }
      var latest := Find(true, Thread(messages, t), 1);
      if |latest| == 0 {
        contacts := contacts - {t};
        return true;
      }
      var m := latest[0];
      var unreadCount := |UnreadRows(messages, t)|;
      contacts := contacts[t := Contact(m.shown, m.id, m.timestamp, m.kind, unreadCount)];
      return false;
    }

    /** Delete one message; without one under this id nothing changes. */
    method DeleteByID(id: nat) returns (threadEmpty: bool, key: Option<T>)
      requires Valid()
      modifies this
      ensures Valid()
      ensures key.Some? <==> exists m :: m in old(messages) && m.id == id
      ensures key.None? ==> View() == old(View()) && !threadEmpty
      ensures messages == set m | m in old(messages) && m.id != id
      ensures key.Some? ==>
                && (threadEmpty <==> !S.Recomputable(rules, key.value) || forall m :: m in old(messages) && m.thread == key.value ==> m.id == id)
                && (S.Recomputable(rules, key.value) ==> (key.value in contacts <==> !threadEmpty))
                && forall t :: t != key.value ==> (t in contacts <==> t in old(contacts)) && (t in contacts ==> contacts[t] == old(contacts)[t])
      ensures forall m :: m in old(messages) && m.id == id ==>
                && View() == S.DeleteMessage(rules, old(View()), m)
                && key == Some(S.TrimKey(rules, m.thread))
                && (threadEmpty <==> !S.Recomputable(rules, key.value) || Thread(messages, key.value) == {})
    {
      var rows := set m | m in messages && m.id == id;
      if |rows| == 0 {
        assert forall m :: m in messages && m.id == id ==> m in rows;
        return false, None;
      }
      var m :| m in rows;
      assert forall x :: x in messages && x.id == id ==> SameId(x, m);
      S.DeletionRemoves(rules, View(), m);
      messages := messages - {m};
      key := Some(S.TrimKey(rules, m.thread));
      S.ThreadAfterDeletion(old(messages), messages, key.value, id);
      threadEmpty := RebuildContact(m.thread);
    }

    /** Delete a thread and its contact; without rows, or without a full key, nothing is deleted. */
    method DeleteThread(key: T) returns (found: bool, deleted: nat)
      requires Valid()
      modifies this
      ensures Valid()
      ensures found <==> S.Recomputable(rules, S.TrimKey(rules, key)) && old(Thread(messages, S.TrimKey(rules, key))) != {}
      ensures View() == if found then S.DeleteThread(old(View()), S.TrimKey(rules, key)) else old(View())
      ensures deleted == if found then |old(Thread(messages, S.TrimKey(rules, key)))| else 0
      ensures found ==>
                && messages == (set m | m in old(messages) && m.thread != S.TrimKey(rules, key))
                && S.TrimKey(rules, key) !in contacts
                && forall t :: t != S.TrimKey(rules, key) ==>
                     (t in contacts <==> t in old(contacts)) && (t in contacts ==> contacts[t] == old(contacts)[t])
    {
      var t := S.TrimKey(rules, key);
      if !S.Recomputable(rules, t) {
        return false, 0;
      }
      var rows := Thread(messages, t);
      deleted := |rows|;
      if deleted == 0 {
        return false, 0;
      }
      messages := messages - rows;
      contacts := contacts - {t};
      found := true;
    }

    ghost predicate HasTables(tables: Tables<T, P>)
      reads this`messages, this`contacts
    {
      messages == tables.messages && contacts == tables.contacts
    }

    /** Fill and enter the rows of one batch; its last row is where the next one starts. */
    method FillBatch(batch: seq<Row<T, P>>, ghost table: set<Row<T, P>>, ghost order: seq<Row<T, P>>, ghost start: nat)
      returns (lastTs: nat, lastID: nat)
      requires batch != [] && start + |batch| <= |order| && batch == order[start..start + |batch|]
      requires HasTables(FilledUpTo(rules, table, order, start))
      modifies this`messages, this`contacts
      ensures HasTables(FilledUpTo(rules, table, order, start + |batch|))
      ensures CursorAt(order, start + |batch|, lastTs, lastID)
    {
      for i := 0 to |batch|
        invariant HasTables(FilledUpTo(rules, table, order, start + i))
      {
        var sms := batch[i];
        var filled := S.FillRow(rules, sms);
        messages := messages - {sms} + {filled};
        if S.HasPeer(rules, filled.thread) {
          EnterContact(filled);
        }
      }
      var last := batch[|batch| - 1];
      lastTs, lastID := last.timestamp, last.id;
    }

    /** Whether there are messages, and no contact yet or a peer missing. */
    method NeedBackfill() returns (need: bool)
      ensures need <==> S.NeedsBackfill(rules, View())
    {
      var missing := set m | m in messages && S.LacksPeer(rules, m.thread);
      need := |messages| > 0 && (|contacts| == 0 || |missing| > 0);
      if |missing| > 0 {
        var m :| m in missing;
      } else {
        assert forall m :: m in messages && S.LacksPeer(rules, m.thread) ==> m in missing;
      }
    }

    /** The next batch of rows behind the cursor. */
    method ReadBatch(limit: nat, lastTs: nat, lastID: nat, ghost table: set<Row<T, P>>, ghost order: seq<Row<T, P>>, ghost done: nat)
      returns (batch: seq<Row<T, P>>)
      requires KeepsPlace(rules.fill) && IsTable(table) && order == InOrder(false, table)
      requires done <= |order| && HasTables(FilledUpTo(rules, table, order, done)) && CursorAt(order, done, lastTs, lastID)
      requires limit > 0
      ensures done + |batch| <= |order| && batch == order[done..done + |batch|]
      ensures batch == [] ==> done == |order|
    {
      NextBatch(rules, table, order, done, messages, lastTs, lastID, limit);
      batch := Find(false, Behind(messages, lastTs, lastID), limit);
    }

    /** Refill the empty index from the whole table, in batches. */
    method Refill(limit: nat, ghost order: seq<Row<T, P>>)
      requires KeepsPlace(rules.fill) && IsTable(messages) && order == InOrder(false, messages)
      requires limit > 0 && contacts == map[]
      modifies this`messages, this`contacts
      ensures HasTables(FilledUpTo(rules, old(messages), order, |order|))
    {
      ghost var table := messages;
      ghost var done := 0;
      var lastTs, lastID := 0, 0;
      while true
        invariant done <= |order| && HasTables(FilledUpTo(rules, table, order, done))
        invariant CursorAt(order, done, lastTs, lastID)
        decreases |order| - done
      {
        var batch := ReadBatch(limit, lastTs, lastID, table, order, done);
        if |batch| == 0 {
          break;
        }
        lastTs, lastID := FillBatch(batch, table, order, done);
        done := done + |batch|;
      }
    }

    /** Fill in missing peers and refill the index. The result does not depend on the size of the batches. */
    method Backfill(batchSize: int)
      requires Valid()
      modifies this
      ensures Valid()
      ensures View() == S.Backfill(rules, old(View()))
      ensures old(S.NeedsBackfill(rules, View())) ==> S.Agrees(rules, View())
    {
      var limit: nat := if batchSize <= 0 then 500 else batchSize;
      var need := NeedBackfill();
      if need {
        S.BackfillAgrees(rules, View());
        FilledAll(rules, messages);
        contacts := map[];
        Refill(limit, InOrder(false, messages));
      }
    }
  }
}

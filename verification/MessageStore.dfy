/** A message table with its contact index, as the operations on it leave them (internal/db/db.go). */
module MessageStore {

  import opened MessageOrder
  import opened MessageIndex

  datatype Store<!T(==), P(==)> = Store(messages: set<Row<T, P>>, contacts: Index<T, P>, nextID: nat)

  /** Which threads have an identity and which a peer, when a peer counts as missing, how a key is trimmed,
      and how a missing peer is filled in. */
  datatype Rules<!T(==), !P(==)> = Rules(hasIMSI: T -> bool, hasPeer: T -> bool, missing: T -> bool, trim: T -> T,
                                         fill: Row<T, P> -> Row<T, P>)

  function FillRow<T, P>(r: Rules<T, P>, m: Row<T, P>): Row<T, P> {
    r.fill(m)
  }

  function TrimKey<T, P>(r: Rules<T, P>, t: T): T {
    r.trim(t)
  }

  predicate HasPeer<T, P>(r: Rules<T, P>, t: T) {
    r.hasPeer(t)
  }

  predicate LacksPeer<T, P>(r: Rules<T, P>, t: T) {
    r.missing(t)
  }

  /** A key without identity or without peer is not recomputed. */
  predicate Recomputable<T, P>(r: Rules<T, P>, t: T) {
    r.hasIMSI(t) && r.hasPeer(t)
  }

  ghost predicate Valid<T, P>(s: Store<T, P>) {
    && DistinctIds(s.messages)
    && forall m :: m in s.messages ==> 0 < m.id < s.nextID
  }

  /** The index is what a reader of all messages with a peer would compute. */
  ghost predicate Agrees<T(!new), P>(r: Rules<T, P>, s: Store<T, P>) {
    IndexAgrees(Listed(r.hasPeer, s.messages), s.contacts)
  }

  ghost predicate Counts<T(!new), P>(r: Rules<T, P>, s: Store<T, P>) {
    IndexCounts(Listed(r.hasPeer, s.messages), s.contacts)
  }

  function Save<T(==), P(==)>(r: Rules<T, P>, s: Store<T, P>, m: Row<T, P>): Store<T, P> {
    Store(s.messages + {m}, Enter(r.hasPeer, s.contacts, m), s.nextID + 1)
  }

  function RebuildContact<T(==), P(==)>(r: Rules<T, P>, s: Store<T, P>, key: T): Store<T, P>
    requires DistinctIds(s.messages)
  {
    if Recomputable(r, r.trim(key)) then s.(contacts := Rebuild(s.messages, s.contacts, r.trim(key))) else s
  }

  function DeleteMessage<T(==), P(==)>(r: Rules<T, P>, s: Store<T, P>, m: Row<T, P>): Store<T, P>
    requires DistinctIds(s.messages)
  {
    RebuildContact(r, s.(messages := s.messages - {m}), m.thread)
  }

  function DeleteThread<T(==), P(==)>(s: Store<T, P>, t: T): Store<T, P> {
    Store(s.messages - Thread(s.messages, t), s.contacts - {t}, s.nextID)
  }

  predicate NeedsBackfill<T(==), P(==)>(r: Rules<T, P>, s: Store<T, P>) {
    s.messages != {} && (s.contacts == map[] || exists m :: m in s.messages && r.missing(m.thread))
  }

  function Backfill<T(==), P(==)>(r: Rules<T, P>, s: Store<T, P>): Store<T, P>
    requires DistinctIds(s.messages)
  {
    if !NeedsBackfill(r, s) then s
    else Store(Filled(r.fill, s.messages), Entered(r.fill, r.hasPeer, InOrder(false, s.messages)), s.nextID)
  }

  // ---------- What keeps the index right

  /** A saved message keeps the unread counts right, whatever the order of timestamps, and the whole index
      exactly when it has no peer or no message of its thread has a later timestamp. */
  lemma SaveAgrees<T(!new), P>(r: Rules<T, P>, s: Store<T, P>, m: Row<T, P>)
    requires Valid(s) && m.id == s.nextID && 0 < s.nextID
    ensures Valid(Save(r, s, m))
    ensures Counts(r, s) ==> Counts(r, Save(r, s, m))
    ensures Agrees(r, s) ==>
              (Agrees(r, Save(r, s, m)) <==>
               !r.hasPeer(m.thread) || forall x :: x in s.messages && x.thread == m.thread ==> x.timestamp <= m.timestamp)
  {
    if Counts(r, s) {
      EnterCounts(r.hasPeer, s.messages, s.contacts, m);
    }
    if Agrees(r, s) {
      EnterAgrees(r.hasPeer, s.messages, s.contacts, m);
    }
  }

  /** A deletion keeps the index right, except in a listed thread without identity, which is not recomputed:
      there the message must have been neither unread nor the newest. */
  lemma DeleteMessageAgrees<T(!new), P>(r: Rules<T, P>, s: Store<T, P>, m: Row<T, P>)
    requires Valid(s) && m in s.messages && r.trim(m.thread) == m.thread
    ensures Valid(DeleteMessage(r, s, m))
    ensures Agrees(r, s) ==>
              (Agrees(r, DeleteMessage(r, s, m)) <==>
               || r.hasIMSI(m.thread)
               || !r.hasPeer(m.thread)
               || (!IsUnread(m) && !IsNewest(s.messages - {m}, m)))
    ensures Counts(r, s) && (r.hasIMSI(m.thread) || !r.hasPeer(m.thread)) ==> Counts(r, DeleteMessage(r, s, m))
  {
    ListedWithout(r.hasPeer, s.messages, m);
    if r.hasPeer(m.thread) {
      ListedThread(r.hasPeer, s.messages - {m}, s.contacts, m.thread);
      DeleteAgrees(Listed(r.hasPeer, s.messages), s.contacts, m);
      if Agrees(r, s) && !Recomputable(r, m.thread) {
        ForgottenDelete(Listed(r.hasPeer, s.messages), s.contacts, m);
      }
    }
  }

  lemma DeleteThreadAgrees<T(!new), P>(r: Rules<T, P>, s: Store<T, P>, t: T)
    requires Valid(s) && r.hasPeer(t)
    ensures Valid(DeleteThread(s, t))
    ensures Agrees(r, s) ==> Agrees(r, DeleteThread(s, t))
    ensures Counts(r, s) ==> Counts(r, DeleteThread(s, t))
  {
    ListedThread(r.hasPeer, s.messages, s.contacts, t);
    assert Listed(r.hasPeer, s.messages - Thread(s.messages, t))
        == Listed(r.hasPeer, s.messages) - Thread(Listed(r.hasPeer, s.messages), t);
    DropAgrees(Listed(r.hasPeer, s.messages), s.contacts, t);
  }

  /** Recomputing a thread repairs its contact and touches no other. */
  lemma RebuildRepairs<T(!new), P>(r: Rules<T, P>, s: Store<T, P>, key: T)
    requires Valid(s) && Recomputable(r, r.trim(key))
    ensures AgreesOn(Listed(r.hasPeer, s.messages), RebuildContact(r, s, key).contacts, r.trim(key))
    ensures forall u: T :: u != r.trim(key) ==>
              (AgreesOn(Listed(r.hasPeer, s.messages), RebuildContact(r, s, key).contacts, u) <==>
               AgreesOn(Listed(r.hasPeer, s.messages), s.contacts, u))
  {
    ListedThread(r.hasPeer, s.messages, s.contacts, r.trim(key));
    RebuildPutsRight(Listed(r.hasPeer, s.messages), s.contacts, r.trim(key));
  }

  /** In an index that agrees, recomputing a thread changes nothing. */
  lemma RebuildIsIdle<T(!new), P>(r: Rules<T, P>, s: Store<T, P>, key: T)
    requires Valid(s) && Agrees(r, s)
    ensures RebuildContact(r, s, key) == s
  {
    if Recomputable(r, r.trim(key)) {
      RebuildRepairs(r, s, key);
      var after := RebuildContact(r, s, key).contacts;
      forall u: T ensures AgreesOn(Listed(r.hasPeer, s.messages), after, u) {
        assert AgreesOn(Listed(r.hasPeer, s.messages), s.contacts, u);
      }
      IndexIsDetermined(Listed(r.hasPeer, s.messages), s.contacts, after);
    }
  }

  /** A backfill that runs leaves, whatever was in the index, one contact for every thread with a peer, equal to what
      recomputing that thread gives. */
  lemma BackfillAgrees<T(!new), P(!new)>(r: Rules<T, P>, s: Store<T, P>)
    requires Valid(s) && KeepsPlace(r.fill) && NeedsBackfill(r, s)
    ensures Valid(Backfill(r, s)) && Agrees(r, Backfill(r, s)) && Backfill(r, s).messages == Filled(r.fill, s.messages)
    ensures forall key: T :: RebuildContact(r, Backfill(r, s), key) == Backfill(r, s)
  {
    var order := InOrder(false, s.messages);
    InOrderListsAll(false, s.messages);
    assert Members(order) == s.messages;
    FilledKeepsIds(r.fill, s.messages);
    EnteredAgrees(r.fill, r.hasPeer, order);
    forall key: T ensures RebuildContact(r, Backfill(r, s), key) == Backfill(r, s) {
      RebuildIsIdle(r, Backfill(r, s), key);
    }
  }

  // ---------- Which rows there are

  ghost predicate HasID<T, P>(s: Store<T, P>, id: nat) {
    exists m :: m in s.messages && m.id == id
  }

  /** A deletion takes exactly the rows of that id, and leaves the contacts of other threads alone. */
  lemma DeletionRemoves<T, P>(r: Rules<T, P>, s: Store<T, P>, m: Row<T, P>)
    requires Valid(s) && m in s.messages
    ensures DeleteMessage(r, s, m).messages == set x | x in s.messages && x.id != m.id
    ensures DeleteMessage(r, s, m).nextID == s.nextID
    ensures forall t :: t != r.trim(m.thread) ==>
              && (t in DeleteMessage(r, s, m).contacts <==> t in s.contacts)
              && (t in s.contacts ==> DeleteMessage(r, s, m).contacts[t] == s.contacts[t])
  {
    forall x | x in s.messages ensures x.id == m.id <==> x == m {
      assert SameId(x, m) ==> x == m;
    }
  }

  /** A thread is empty after the deletion of an id exactly when it had no other row. */
  lemma ThreadAfterDeletion<T, P>(rows: set<Row<T, P>>, rest: set<Row<T, P>>, t: T, id: nat)
    requires rest == set m | m in rows && m.id != id
    ensures Thread(rest, t) == {} <==> forall m :: m in rows && m.thread == t ==> m.id == id
  {
    if Thread(rest, t) == {} {
      forall m | m in rows && m.thread == t ensures m.id == id {
        assert m !in Thread(rest, t);
      }
    } else {
      var m :| m in Thread(rest, t);
    }
  }

  /** What deletes a row: its own deletion, or that of its thread. */
  ghost predicate Deletes<T, P>(s: Store<T, P>, op: Operation<T, P>, id: nat) {
    match op
    case Deleted(m) => m.id == id
    case ThreadDeleted(t) => exists m :: m in s.messages && m.id == id && m.thread == t
    case _ => false
  }

  lemma FilledHasID<T(!new), P(!new)>(r: Rules<T, P>, s: Store<T, P>, id: nat)
    requires KeepsPlace(r.fill)
    ensures (exists m :: m in Filled(r.fill, s.messages) && m.id == id) <==> HasID(s, id)
  {
    if m :| m in s.messages && m.id == id {
      assert r.fill(m) in Filled(r.fill, s.messages);
    }
    if f :| f in Filled(r.fill, s.messages) && f.id == id {
      var m :| m in s.messages && r.fill(m) == f;
    }
  }

  /** A row is there after an operation if and only if it was there and not deleted, or was just saved. */
  lemma RowsAfter<T(!new), P(!new)>(r: Rules<T, P>, s: Store<T, P>, op: Operation<T, P>, id: nat)
    requires KeepsPlace(r.fill) && Valid(s) && CanApply(r, s, op)
    ensures HasID(Apply(r, s, op), id) <==> (HasID(s, id) && !Deletes(s, op, id)) || (op.Saved? && op.m.id == id)
    ensures Apply(r, s, op).nextID == s.nextID + if op.Saved? then 1 else 0
  {
    match op
    case Saved(m) => SavedIsThere(r, s, m, id);
    case Deleted(m) => DeletionRemoves(r, s, m);
    case ThreadDeleted(t) => ThreadIsGone(s, t, id);
    case Rebuilt(t) =>
    case Backfilled => FilledHasID(r, s, id);
  }

  lemma SavedIsThere<T, P>(r: Rules<T, P>, s: Store<T, P>, m: Row<T, P>, id: nat)
    ensures HasID(Save(r, s, m), id) <==> HasID(s, id) || m.id == id
  {
    assert m in Save(r, s, m).messages;
    if x :| x in s.messages && x.id == id {
      assert x in Save(r, s, m).messages;
    }
  }

  lemma ThreadIsGone<T, P>(s: Store<T, P>, t: T, id: nat)
    requires Valid(s)
    ensures HasID(DeleteThread(s, t), id) <==> HasID(s, id) && !Deletes<T, P>(s, ThreadDeleted(t), id)
  {
    if x :| x in s.messages && x.id == id {
      assert forall y :: y in s.messages && y.id == id ==> SameId(x, y);
    }
  }

  lemma IdStaysBelow<T(!new), P(!new)>(r: Rules<T, P>, states: seq<Store<T, P>>, ops: seq<Operation<T, P>>, id: nat, k: nat)
    requires FillsWell(r) && IsRun(r, states, ops) && Sound(r, states[0]) && k < |ops|
    requires !HasID(states[k], id) && id < states[k].nextID
    ensures !HasID(states[k + 1], id) && id < states[k + 1].nextID
  {
    RunKeepsTheIndex(r, states, ops, k, k);
    assert OperationAt(r, states, ops, k);
    RowsAfter(r, states[k], ops[k], id);
  }

  lemma {:induction false} IdsStayBelow<T(!new), P(!new)>(r: Rules<T, P>, states: seq<Store<T, P>>, ops: seq<Operation<T, P>>, id: nat,
                                                         from: nat, k: nat)
    requires FillsWell(r) && IsRun(r, states, ops) && Sound(r, states[0]) && from <= k < |states|
    requires !HasID(states[from], id) && id < states[from].nextID
    ensures !HasID(states[k], id) && id < states[k].nextID
    decreases k
  {
    if from < k {
      IdsStayBelow(r, states, ops, id, from, k - 1);
      IdStaysBelow(r, states, ops, id, k - 1);
    }
  }

  /** Once deleted, by itself or with its thread, a row's id never appears again. */
  lemma DeletedForGood<T(!new), P(!new)>(r: Rules<T, P>, states: seq<Store<T, P>>, ops: seq<Operation<T, P>>, id: nat, i: nat, k: nat)
    requires FillsWell(r) && IsRun(r, states, ops) && Sound(r, states[0]) && i < k < |states|
    requires HasID(states[i], id) && Deletes(states[i], ops[i], id)
    ensures !HasID(states[k], id)
  {
    RunKeepsTheIndex(r, states, ops, i, i);
    assert OperationAt(r, states, ops, i);
    RowsAfter(r, states[i], ops[i], id);
    IdsStayBelow(r, states, ops, id, i + 1, k);
  }

  // ---------- Whole runs

  datatype Operation<T, P> =
    | Saved(m: Row<T, P>)
    | Deleted(m: Row<T, P>)
    | ThreadDeleted(t: T)
    | Rebuilt(t: T)
    | Backfilled

  /** Trimmed, and with an identity. */
  predicate IsKeyed<T(==), P>(r: Rules<T, P>, t: T) {
    r.trim(t) == t && r.hasIMSI(t)
  }

  ghost predicate AllKeyed<T, P>(r: Rules<T, P>, s: Store<T, P>) {
    forall m :: m in s.messages ==> IsKeyed(r, m.thread)
  }

  /** Filling in a peer leaves a message in its place and its key trimmed. */
  ghost predicate FillsWell<T(!new), P(!new)>(r: Rules<T, P>) {
    KeepsPlace(r.fill) && forall m: Row<T, P> {:trigger r.fill(m)} :: IsKeyed(r, m.thread) ==> IsKeyed(r, r.fill(m).thread)
  }

  ghost predicate CanApply<T, P>(r: Rules<T, P>, s: Store<T, P>, op: Operation<T, P>) {
    match op
    case Saved(m) => m.id == s.nextID && 0 < m.id && IsKeyed(r, m.thread)
    case Deleted(m) => m in s.messages
    case ThreadDeleted(t) => r.hasPeer(t)
    case Rebuilt(t) => true
    case Backfilled => true
  }

  /** A message is saved in order if no message of its thread has a later timestamp. */
  predicate InTime<T(==), P(==)>(s: Store<T, P>, op: Operation<T, P>) {
    op.Saved? ==> forall x :: x in s.messages && x.thread == op.m.thread ==> x.timestamp <= op.m.timestamp
  }

  ghost function Apply<T, P>(r: Rules<T, P>, s: Store<T, P>, op: Operation<T, P>): Store<T, P>
    requires DistinctIds(s.messages)
  {
    match op
    case Saved(m) => Save(r, s, m)
    case Deleted(m) => DeleteMessage(r, s, m)
    case ThreadDeleted(t) => DeleteThread(s, t)
    case Rebuilt(t) => RebuildContact(r, s, t)
    case Backfilled => Backfill(r, s)
  }

  ghost predicate Sound<T(!new), P>(r: Rules<T, P>, s: Store<T, P>) {
    Valid(s) && AllKeyed(r, s) && Counts(r, s)
  }

  lemma RebuildCounts<T(!new), P>(r: Rules<T, P>, s: Store<T, P>, key: T)
    requires Valid(s) && Counts(r, s)
    ensures Counts(r, RebuildContact(r, s, key))
  {
    if Recomputable(r, r.trim(key)) {
      ListedThread(r.hasPeer, s.messages, s.contacts, r.trim(key));
      RebuildPutsRight(Listed(r.hasPeer, s.messages), s.contacts, r.trim(key));
      forall t: T ensures CountsOn(Listed(r.hasPeer, s.messages), RebuildContact(r, s, key).contacts, t) {
        assert CountsOn(Listed(r.hasPeer, s.messages), s.contacts, t);
      }
    }
  }

  /** Every operation keeps the unread counts; one that saves nothing out of order keeps the whole index. */
  lemma ApplyKeeps<T(!new), P(!new)>(r: Rules<T, P>, s: Store<T, P>, op: Operation<T, P>)
    requires FillsWell(r) && Sound(r, s) && CanApply(r, s, op)
    ensures Sound(r, Apply(r, s, op))
    ensures Agrees(r, s) && InTime(s, op) ==> Agrees(r, Apply(r, s, op))
  {
    match op
    case Saved(m) => SaveAgrees(r, s, m);
    case Deleted(m) => DeleteMessageAgrees(r, s, m);
    case ThreadDeleted(t) => DeleteThreadAgrees(r, s, t);
    case Rebuilt(t) =>
      RebuildCounts(r, s, t);
      if Agrees(r, s) {
        RebuildIsIdle(r, s, t);
      }
    case Backfilled =>
      if NeedsBackfill(r, s) {
        BackfillAgrees(r, s);
        AgreeingIndexCounts(Listed(r.hasPeer, Backfill(r, s).messages), Backfill(r, s).contacts);
      }
  }

  ghost predicate IsRun<T, P>(r: Rules<T, P>, states: seq<Store<T, P>>, ops: seq<Operation<T, P>>) {
    && |states| == |ops| + 1
    && forall k :: 0 <= k < |ops| ==> OperationAt(r, states, ops, k)
  }

  ghost predicate OperationAt<T, P>(r: Rules<T, P>, states: seq<Store<T, P>>, ops: seq<Operation<T, P>>, k: nat)
    requires k < |ops| < |states|
  {
    && DistinctIds(states[k].messages)
    && CanApply(r, states[k], ops[k])
    && states[k + 1] == Apply(r, states[k], ops[k])
  }

  /** Over a whole run the unread counts stay right whatever the timestamps, and from the last moment the index
      agreed, it agrees as long as every message is saved in order. */
  lemma {:induction false} RunKeepsTheIndex<T(!new), P(!new)>(r: Rules<T, P>, states: seq<Store<T, P>>, ops: seq<Operation<T, P>>,
                                                              from: nat, k: nat)
    requires FillsWell(r) && IsRun(r, states, ops) && Sound(r, states[0]) && from <= k < |states|
    ensures Sound(r, states[k])
    ensures Agrees(r, states[from]) && (forall i :: from <= i < k ==> InTime(states[i], ops[i])) ==> Agrees(r, states[k])
  {
    if k > 0 {
      RunKeepsTheIndex(r, states, ops, if from < k then from else k - 1, k - 1);
      assert OperationAt(r, states, ops, k - 1);
      ApplyKeeps(r, states[k - 1], ops[k - 1]);
    }
  }
}

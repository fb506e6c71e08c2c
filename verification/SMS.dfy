/** Short messages: their threads, saving them, and reading a thread (internal/db). */
module SMS {

  import opened Text
  import opened Wrappers
  import opened MessageOrder
  import opened MessageIndex
  import opened MessagePages
  import opened MessageTableObject
  import S = MessageStore

  datatype ThreadKey = ThreadKey(imsi: string, peer: string)

  /** What a contact repeats of its newest message. */
  datatype Shown = Shown(iccid: string, content: string)

  type Message = Row<ThreadKey, Shown>

  /** The other end: of an outgoing message its recipient if there is one, otherwise the sender. */
  function NormalizePeer(kind: int, sender: string, recipient: string): (peer: string)
    ensures peer == TrimSpace(if kind == 2 && TrimSpace(recipient) != "" then recipient else sender)
  {
    var p := TrimSpace(recipient);
    if kind == 2 && p != "" then p else TrimSpace(sender)
  }

  lemma PeerIsTrimmed(kind: int, sender: string, recipient: string)
    ensures TrimSpace(NormalizePeer(kind, sender, recipient)) == NormalizePeer(kind, sender, recipient)
  {
    TrimmedTwice(recipient);
    TrimmedTwice(sender);
  }

  predicate HasIMSI(t: ThreadKey) {
    t.imsi != ""
  }

  predicate HasPeer(t: ThreadKey) {
    TrimSpace(t.peer) != ""
  }

  predicate LacksPeer(t: ThreadKey) {
    t.peer == ""
  }

  function TrimKey(t: ThreadKey): (u: ThreadKey) {
    ThreadKey(TrimSpace(t.imsi), TrimSpace(t.peer))
  }

  /** The message with its peer filled in, if it had none and one can be told. */
  function FillPeer(m: Message): (filled: Message) {
    if HasPeer(m.thread) then m
    else
      var peer := NormalizePeer(m.kind, m.sender, m.recipient);
      if peer == "" then m else m.(thread := ThreadKey(m.thread.imsi, peer))
  }

  function SMSRules(): S.Rules<ThreadKey, Shown> {
    S.Rules(HasIMSI, HasPeer, LacksPeer, TrimKey, FillPeer)
  }

  lemma TrimmedTwice(s: string)
    ensures TrimSpace(TrimSpace(s)) == TrimSpace(s)
  {
  }

  /** The message rules keep a message in its place and its key trimmed, so what holds of the store holds of
      the messages. */
  lemma RulesFillWell()
    ensures S.FillsWell(SMSRules())
  {
    var r := SMSRules();
    forall m: Message
      ensures r.fill(m).id == m.id && r.fill(m).timestamp == m.timestamp
      ensures S.IsKeyed(r, m.thread) ==> S.IsKeyed(r, r.fill(m).thread)
    {}
  }

  /** A thread is recomputed exactly when neither part of its key is blank. */
  lemma RecomputedUnlessBlank(t: ThreadKey)
    ensures S.Recomputable(SMSRules(), TrimKey(t)) <==> TrimSpace(t.imsi) != "" && TrimSpace(t.peer) != ""
  {
    TrimmedTwice(t.peer);
  }

  /** Save a message under its thread, at whole seconds. */
  method SaveSMS(table: MessageTable<ThreadKey, Shown>, imsi: string, iccid: string, sender: string, recipient: string,
                 content: string, kind: int, status: int, nanoseconds: nat)
    requires table.Valid() && table.rules == SMSRules()
    modifies table
    ensures table.Valid()
    ensures var thread := ThreadKey(TrimSpace(imsi), NormalizePeer(kind, TrimSpace(sender), TrimSpace(recipient)));
            var m := Row(old(table.nextID), thread, Shown(iccid, content), TrimSpace(sender), TrimSpace(recipient),
                         kind, status, nanoseconds / 1_000_000_000);
            && table.View() == S.Save(SMSRules(), old(table.View()), m)
            && table.messages == old(table.messages) + {m}
            && (old(S.Agrees(SMSRules(), table.View())) && S.InTime(old(table.View()), S.Saved(m)) ==>
                  S.Agrees(SMSRules(), table.View()))
  {
    var from, other := TrimSpace(sender), TrimSpace(recipient);
    var peer := NormalizePeer(kind, from, other);
    table.Save(ThreadKey(TrimSpace(imsi), peer), Shown(iccid, content), from, other, kind, status, nanoseconds / 1_000_000_000);
  }

  // ---------- The backfill

  /** A backfill of messages runs when there is no contact or some peer is empty, and leaves the right index; otherwise
      it changes nothing. */
  lemma BackfillRunsWhenNeeded(s: S.Store<ThreadKey, Shown>)
    requires S.Valid(s) && s.messages != {}
    ensures s.contacts == map[] || (exists m :: m in s.messages && m.thread.peer == "") ==> S.Agrees(SMSRules(), S.Backfill(SMSRules(), s))
    ensures s.contacts != map[] && (forall m :: m in s.messages ==> m.thread.peer != "") ==> S.Backfill(SMSRules(), s) == s
  {
    var r := SMSRules();
    RulesFillWell();
    if m :| m in s.messages && m.thread.peer == "" {
      assert r.missing(m.thread);
    }
    if S.NeedsBackfill(r, s) {
      S.BackfillAgrees(r, s);
    }
  }

  /** The other end of a message, as far as its own fields tell it. */
  function Told(m: Message): (peer: string) {
    if m.kind == 2 && TrimSpace(m.recipient) != "" then TrimSpace(m.recipient) else TrimSpace(m.sender)
  }

  /** The peer a message has after a backfill. */
  function PeerAfter(m: Message): (peer: string) {
    if TrimSpace(m.thread.peer) != "" || Told(m) == "" then m.thread.peer else Told(m)
  }

  lemma ToldIs(m: Message)
    ensures NormalizePeer(m.kind, m.sender, m.recipient) == Told(m)
  {}

  lemma FilledWith(m: Message, told: string)
    requires !HasPeer(m.thread) && told == NormalizePeer(m.kind, m.sender, m.recipient)
    ensures FillPeer(m) == if told == "" then m else m.(thread := ThreadKey(m.thread.imsi, told))
  {}

  lemma FillMeans(m: Message)
    ensures FillPeer(m) == m.(thread := ThreadKey(m.thread.imsi, PeerAfter(m)))
  {
    if !HasPeer(m.thread) {
      ToldIs(m);
      FilledWith(m, Told(m));
    }
  }

  /** It gives every message with a blank peer the other end it was sent to or came from, if there is one, and changes
      nothing else. */
  lemma BackfillFillsPeers(s: S.Store<ThreadKey, Shown>, m: Message)
    requires S.Valid(s) && m in s.messages
    requires s.contacts == map[] || exists x :: x in s.messages && x.thread.peer == ""
    ensures m.(thread := ThreadKey(m.thread.imsi, PeerAfter(m))) in S.Backfill(SMSRules(), s).messages
  {
    var r := SMSRules();
    RulesFillWell();
    if x :| x in s.messages && x.thread.peer == "" {
      assert r.missing(x.thread);
    }
    S.BackfillAgrees(r, s);
    FillMeans(m);
    assert r.fill(m) in Filled(r.fill, s.messages);
  }

  /** An index that agrees has a contact for exactly the threads of messages whose peer is not blank. */
  lemma ContactsAreThreads(s: S.Store<ThreadKey, Shown>, t: ThreadKey)
    requires S.Agrees(SMSRules(), s)
    ensures t in s.contacts <==> TrimSpace(t.peer) != "" && exists m :: m in s.messages && m.thread == t
  {
    var r := SMSRules();
    var listed := Listed(r.hasPeer, s.messages);
    assert AgreesOn(listed, s.contacts, t);
    if m :| m in s.messages && m.thread == t && HasPeer(t) {
      assert m in Thread(listed, t);
    }
    if Thread(listed, t) != {} {
      var m :| m in Thread(listed, t);
      assert r.hasPeer(m.thread);
    }
  }

  // ---------- Reading a thread

  function ByIMSI(messages: set<Message>, imsi: string, peer: string): (rows: set<Message>) {
    set m | m in messages && m.thread.imsi == imsi && m.thread.peer == peer
  }

  function ByICCID(messages: set<Message>, iccid: string, peer: string): (rows: set<Message>) {
    set m | m in messages && m.shown.iccid == iccid && m.thread.peer == peer
  }

  function GetSMSByIMSIAndPeer(messages: set<Message>, imsi: string, peer: string, limit: int, beforeTs: Option<nat>, beforeID: nat): (page: seq<Message>)
    requires DistinctIds(messages)
  {
    Page(ByIMSI(messages, imsi, peer), limit, beforeTs, beforeID)
  }

  function GetSMSByICCIDAndPeer(messages: set<Message>, iccid: string, peer: string, limit: int, beforeTs: Option<nat>, beforeID: nat): (page: seq<Message>)
    requires DistinctIds(messages)
  {
    Page(ByICCID(messages, iccid, peer), limit, beforeTs, beforeID)
  }

  /** A further page is asked for with the time and id of the last message seen. */
  lemma QueriesReadOn(messages: set<Message>, key: string, peer: string, limit: int, seen: seq<Message>)
    requires DistinctIds(messages)
    ensures forall beforeTs, beforeID :: (if seen == [] then beforeTs == None && beforeID == 0
                                          else beforeTs == Some(seen[|seen| - 1].timestamp) && beforeID == seen[|seen| - 1].id) ==>
              && seen + GetSMSByIMSIAndPeer(messages, key, peer, limit, beforeTs, beforeID) == ReadOn(ByIMSI(messages, key, peer), limit, seen)
              && seen + GetSMSByICCIDAndPeer(messages, key, peer, limit, beforeTs, beforeID) == ReadOn(ByICCID(messages, key, peer), limit, seen)
  {
  }

  /** Paging through a thread by either query shows every message of the thread once, newest first. */
  lemma PagingIsExact(messages: set<Message>, key: string, peer: string, limit: int, nextID: nat)
    requires S.Valid(S.Store(messages, map[], nextID))
    requires forall m :: m in messages ==> m.timestamp != 0
    ensures forall rows :: rows in {ByIMSI(messages, key, peer), ByICCID(messages, key, peer)} ==>
              && DistinctIds(rows)
              && Members(Walk(rows, limit, |rows|)) == rows
              && |Walk(rows, limit, |rows|)| == |rows|
              && Sorted(true, Walk(rows, limit, |rows|))
              && Walk(rows, limit, |rows| + 1) == Walk(rows, limit, |rows|)
    ensures ByIMSI(messages, key, peer) == set m | m in messages && m.thread == ThreadKey(key, peer)
    ensures ByICCID(messages, key, peer) == set m | m in messages && m.shown.iccid == key && m.thread.peer == peer
  {
    forall rows | rows in {ByIMSI(messages, key, peer), ByICCID(messages, key, peer)}
      ensures Pageable(rows)
      ensures Members(Walk(rows, limit, |rows|)) == rows && |Walk(rows, limit, |rows|)| == |rows|
      ensures Sorted(true, Walk(rows, limit, |rows|)) && Walk(rows, limit, |rows| + 1) == Walk(rows, limit, |rows|)
    {
      WalkSeesAllOnce(rows, limit, |rows|);
    }
  }
}

/**
  From the gateway's Send to the message tables: the fast idempotency keys in Redis, the partitioned inbox
  log, and the persist workers that consume it at least once. Any number of senders and consumers; keys
  expire at any time, replies get lost, consumers crash, and a partition may be handed to a new consumer
  while the old one is still working.
*/
module Ingress {
  import opened Common
  import opened MessageStore

  /** A key as the client spelled it. Redis keeps the text; the tables keep the 16 bytes it parses to. */
  datatype RawKey = RawKey(sender: UserId, uuid: nat, spelling: nat)

  function KeyOf(raw: RawKey): Key {
    Key(raw.sender, raw.uuid)
  }

  datatype IdemValue = Processing(nonce: nat) | Accepted

  /** An inbox record; `valid` says that it decodes and passes the content checks. */
  datatype Record = Record(valid: bool, raw: RawKey, conv: ConvId, content: string)

  datatype SendPhase = Arrived | Acquired(nonce: Option<nat>) | Published(nonce: Option<nat>) | Failed(nonce: Option<nat>)

  datatype Sender = Sender(raw: RawKey, conv: ConvId, content: string, phase: SendPhase)

  datatype Stage = Ready | Persisting(draft: Draft, attempt: nat) | ToDlq | ToCommit

  datatype Consumer = Consumer(partition: nat, pos: nat, stage: Stage)

  datatype Config = Config(checksum: Hash, keyHash: Hash, partitions: nat, maxRetries: nat)

  /** `committed[p]` is the next offset to consume; `dlq` holds the partition and offset a record names. */
  datatype State = State(
    idem: map<RawKey, IdemValue>, inbox: seq<seq<Record>>, senders: map<nat, Sender>, replies: seq<RawKey>,
    consumers: map<nat, Consumer>, committed: seq<nat>, dlq: set<(nat, nat)>, db: Db)

  datatype Action =
    // Send, past its checks
    | Arrive(s: nat, raw: RawKey, conv: ConvId, content: string)
    | AcquireTaken(s: nat, nonce: nat)
    | AcquireAccepted(s: nat)
    | AcquireFault(s: nat, nonce: nat, took: bool)
    | PublishOk(s: nat)
    | PublishFault(s: nat, landed: bool)
    | Reply(s: nat, marked: bool)
    | Release(s: nat, done: bool)
    | GiveUp(s: nat)
    // the environment
    | Expire(raw: RawKey)
    | Append(partition: nat, rec: Record)
    | NewConversation(conv: ConvId)
    | Close(conv: ConvId)
    // a persist worker on one partition
    | Start(c: nat, partition: nat, from: nat)
    | Reject(c: nat)
    | FindExisting(c: nat)
    | Allocate(c: nat, id: MessageId)
    | PersistOk(c: nat, now: int)
    | PersistFault(c: nat, now: int, committedAnyway: bool, permanent: bool)
    | DlqOk(c: nat)
    | DlqFault(c: nat, landed: bool)
    | CommitOk(c: nat)
    | CommitFault(c: nat, landed: bool)
    | Crash(c: nat)

  /** A conversation's records all go to one partition, by a hash of its id. */
  function PartitionOf(cfg: Config, conv: ConvId): nat {
    if cfg.partitions == 0 then 0 else HashOf(cfg.keyHash, conv) % cfg.partitions
  }

  function Current(s: State, k: Consumer): Record
    requires k.partition < |s.inbox| && k.pos < |s.inbox[k.partition]|
  {
    s.inbox[k.partition][k.pos]
  }

  predicate At(s: State, c: nat) {
    c in s.consumers && s.consumers[c].partition < |s.inbox| && s.consumers[c].partition < |s.committed|
    && s.consumers[c].pos < |s.inbox[s.consumers[c].partition]|
  }

  function RecordOf(x: Sender): Record {
    Record(true, x.raw, x.conv, x.content)
  }

  function Appended(inbox: seq<seq<Record>>, p: nat, rec: Record): seq<seq<Record>>
    requires p < |inbox|
  {
    inbox[p := inbox[p] + [rec]]
  }

  /** The row that a Persist of this draft leaves: the one already there, or a new one. */
  function Persisted(checksum: Hash, db: Db, d: Draft, now: int): Db {
    if Insertable(db, d) then Insert(checksum, db, d, now) else db
  }

  predicate Enabled(cfg: Config, s: State, action: Action) {
    match action
    case Arrive(x, _, _, _) => x !in s.senders
    case AcquireTaken(x, _) => x in s.senders && s.senders[x].phase.Arrived? && s.senders[x].raw !in s.idem
    case AcquireAccepted(x) =>
      x in s.senders && s.senders[x].phase.Arrived? && s.senders[x].raw in s.idem && s.idem[s.senders[x].raw].Accepted?
    case AcquireFault(x, _, took) =>
      x in s.senders && s.senders[x].phase.Arrived? && (took ==> s.senders[x].raw !in s.idem)
    case PublishOk(x) => x in s.senders && s.senders[x].phase.Acquired? && PartitionOf(cfg, s.senders[x].conv) < |s.inbox|
    case PublishFault(x, _) => x in s.senders && s.senders[x].phase.Acquired? && PartitionOf(cfg, s.senders[x].conv) < |s.inbox|
    case Reply(x, _) => x in s.senders && s.senders[x].phase.Published?
    case Release(x, _) => x in s.senders && s.senders[x].phase.Failed?
    case GiveUp(x) => x in s.senders
    case Expire(_) => true
    case Append(p, rec) => p < |s.inbox| && (rec.valid ==> p == PartitionOf(cfg, rec.conv))
    case NewConversation(conv) => conv !in s.db.convs
    case Close(conv) => conv in s.db.convs
    case Start(_, p, from) => p < |s.committed| && p < |s.inbox| && from <= s.committed[p]
    case Reject(c) => At(s, c) && s.consumers[c].stage.Ready? && !Current(s, s.consumers[c]).valid
    case FindExisting(c) =>
      At(s, c) && s.consumers[c].stage.Ready? && Current(s, s.consumers[c]).valid && HasKey(s.db, KeyOf(Current(s, s.consumers[c]).raw))
    case Allocate(c, _) =>
      At(s, c) && s.consumers[c].stage.Ready? && Current(s, s.consumers[c]).valid && !HasKey(s.db, KeyOf(Current(s, s.consumers[c]).raw))
    case PersistOk(c, _) =>
      At(s, c) && s.consumers[c].stage.Persisting?
      && (HasKey(s.db, s.consumers[c].stage.draft.key) || Insertable(s.db, s.consumers[c].stage.draft))
    case PersistFault(c, _, _, _) => At(s, c) && s.consumers[c].stage.Persisting?
    case DlqOk(c) => At(s, c) && s.consumers[c].stage.ToDlq?
    case DlqFault(c, _) => At(s, c) && s.consumers[c].stage.ToDlq?
    case CommitOk(c) => At(s, c) && s.consumers[c].stage.ToCommit?
    case CommitFault(c, _) => At(s, c) && s.consumers[c].stage.ToCommit?
    case Crash(c) => c in s.consumers
  }

  function Moved(s: State, c: nat, stage: Stage): map<nat, Consumer>
    requires c in s.consumers
  {
    s.consumers[c := s.consumers[c].(stage := stage)]
  }

  function Sent(s: State, x: nat, phase: SendPhase): map<nat, Sender>
    requires x in s.senders
  {
    s.senders[x := s.senders[x].(phase := phase)]
  }

  /** The conditional update of the idempotency key: only while it still holds the caller's own nonce. */
  predicate OwnsKey(idem: map<RawKey, IdemValue>, raw: RawKey, nonce: Option<nat>) {
    nonce.Some? && raw in idem && idem[raw] == Processing(nonce.value)
  }

  function AfterSend(cfg: Config, s: State, action: Action): State
    requires Enabled(cfg, s, action)
  {
    match action
    case Arrive(x, raw, conv, content) => s.(senders := s.senders[x := Sender(raw, conv, content, Arrived)])
    case AcquireTaken(x, nonce) =>
      s.(idem := s.idem[s.senders[x].raw := Processing(nonce)], senders := Sent(s, x, Acquired(Some(nonce))))
    case AcquireAccepted(x) => s.(replies := s.replies + [s.senders[x].raw], senders := s.senders - {x})
    case AcquireFault(x, nonce, took) =>
      s.(idem := if took then s.idem[s.senders[x].raw := Processing(nonce)] else s.idem, senders := Sent(s, x, Acquired(None)))
    case PublishOk(x) =>
      s.(inbox := Appended(s.inbox, PartitionOf(cfg, s.senders[x].conv), RecordOf(s.senders[x])),
         senders := Sent(s, x, Published(s.senders[x].phase.nonce)))
    case PublishFault(x, landed) =>
      s.(inbox := if landed then Appended(s.inbox, PartitionOf(cfg, s.senders[x].conv), RecordOf(s.senders[x])) else s.inbox,
         senders := Sent(s, x, Failed(s.senders[x].phase.nonce)))
    case Reply(x, marked) =>
      s.(idem := if marked && OwnsKey(s.idem, s.senders[x].raw, s.senders[x].phase.nonce)
                 then s.idem[s.senders[x].raw := Accepted] else s.idem,
         replies := s.replies + [s.senders[x].raw], senders := s.senders - {x})
    case Release(x, done) =>
      s.(idem := if done && OwnsKey(s.idem, s.senders[x].raw, s.senders[x].phase.nonce)
                 then s.idem - {s.senders[x].raw} else s.idem,
         senders := s.senders - {x})
    case GiveUp(x) => s.(senders := s.senders - {x})
    case Expire(raw) => s.(idem := s.idem - {raw})
    case Append(p, rec) => s.(inbox := Appended(s.inbox, p, rec))
    case _ => s
  }

  function AfterWork(cfg: Config, s: State, action: Action): State
    requires Enabled(cfg, s, action)
  {
    match action
    case NewConversation(conv) => s.(db := s.db.(convs := s.db.convs[conv := Conversation(true, 0, None)]))
    case Close(conv) => s.(db := s.db.(convs := s.db.convs[conv := s.db.convs[conv].(open := false)]))
    case Start(c, p, from) => s.(consumers := s.consumers[c := Consumer(p, from, Ready)])
    case Reject(c) => s.(consumers := Moved(s, c, ToDlq))
    case FindExisting(c) => s.(consumers := Moved(s, c, ToCommit))
    case Allocate(c, id) =>
      var rec := Current(s, s.consumers[c]);
      s.(consumers := Moved(s, c, Persisting(Draft(id, rec.conv, KeyOf(rec.raw), rec.content), 0)))
    case PersistOk(c, now) =>
      s.(db := Persisted(cfg.checksum, s.db, s.consumers[c].stage.draft, now), consumers := Moved(s, c, ToCommit))
    case PersistFault(c, now, committedAnyway, permanent) =>
      var d, n := s.consumers[c].stage.draft, s.consumers[c].stage.attempt;
      s.(db := if committedAnyway then Persisted(cfg.checksum, s.db, d, now) else s.db,
         consumers := Moved(s, c, if permanent || n >= cfg.maxRetries then ToDlq else Persisting(d, n + 1)))
    case DlqOk(c) => s.(dlq := s.dlq + {(s.consumers[c].partition, s.consumers[c].pos)}, consumers := Moved(s, c, ToCommit))
    case DlqFault(c, landed) =>
      s.(dlq := if landed then s.dlq + {(s.consumers[c].partition, s.consumers[c].pos)} else s.dlq, consumers := Moved(s, c, Ready))
    case CommitOk(c) =>
      var k := s.consumers[c];
      s.(committed := s.committed[k.partition := k.pos + 1], consumers := s.consumers[c := Consumer(k.partition, k.pos + 1, Ready)])
    case CommitFault(c, landed) =>
      var k := s.consumers[c];
      s.(committed := if landed then s.committed[k.partition := k.pos + 1] else s.committed, consumers := Moved(s, c, Ready))
    case Crash(c) => s.(consumers := s.consumers - {c})
    case _ => s
  }

  predicate BySender(action: Action) {
    || action.Arrive? || action.AcquireTaken? || action.AcquireAccepted? || action.AcquireFault? || action.PublishOk?
    || action.PublishFault? || action.Reply? || action.Release? || action.GiveUp? || action.Expire? || action.Append?
  }

  function After(cfg: Config, s: State, action: Action): State
    requires Enabled(cfg, s, action)
  {
    if BySender(action) then AfterSend(cfg, s, action) else AfterWork(cfg, s, action)
  }

  ghost predicate Step(cfg: Config, s: State, action: Action, s': State) {
    Enabled(cfg, s, action) && s' == After(cfg, s, action)
  }

  ghost predicate Initial(cfg: Config, s: State) {
    && s.idem == map[] && s.senders == map[] && s.replies == [] && s.consumers == map[] && s.dlq == {}
    && |s.committed| == |s.inbox|
    && (forall p :: 0 <= p < |s.inbox| ==> s.inbox[p] == [] && s.committed[p] == 0)
    && s.db == Db(map[], map[], map[])
  }

  /** A run, step by step; `state` is where it stands. */
  datatype Run = Begun(state: State) | Then(before: Run, action: Action, state: State)

  ghost predicate IsRun(cfg: Config, run: Run) {
    match run
    case Begun(s) => Initial(cfg, s)
    case Then(before, action, s) => IsRun(cfg, before) && Step(cfg, before.state, action, s)
  }

  // ---- The invariant ----

  ghost predicate RecordAt(inbox: seq<seq<Record>>, p: int, o: int, raw: RawKey) {
    0 <= p < |inbox| && 0 <= o < |inbox[p]| && inbox[p][o].valid && inbox[p][o].raw == raw
  }

  ghost predicate InInbox(inbox: seq<seq<Record>>, raw: RawKey) {
    exists p, o :: RecordAt(inbox, p, o, raw)
  }

  /** Nothing is answered or remembered as accepted before its record is in the log. */
  ghost predicate AcceptInv(s: State) {
    && (forall raw :: raw in s.idem && s.idem[raw].Accepted? ==> InInbox(s.inbox, raw))
    && (forall x :: x in s.senders && s.senders[x].phase.Published? ==> InInbox(s.inbox, s.senders[x].raw))
    && (forall i :: 0 <= i < |s.replies| ==> InInbox(s.inbox, s.replies[i]))
  }

  /** There is a message of this sender with this client message id. */
  ghost predicate HasMessageOf(db: Db, sender: UserId, uuid: nat) {
    exists id :: id in db.messages && db.messages[id].key.sender == sender && db.messages[id].key.uuid == uuid
  }

  lemma KeyIsBoth(db: Db, raw: RawKey)
    ensures HasKey(db, KeyOf(raw)) <==> HasMessageOf(db, raw.sender, raw.uuid)
  {
    if HasKey(db, KeyOf(raw)) {
      var id :| id in db.messages && HoldsKey(db, id, KeyOf(raw));
      assert db.messages[id].key.sender == raw.sender && db.messages[id].key.uuid == raw.uuid;
    }
    if HasMessageOf(db, raw.sender, raw.uuid) {
      var id :| id in db.messages && db.messages[id].key.sender == raw.sender && db.messages[id].key.uuid == raw.uuid;
      assert HoldsKey(db, id, KeyOf(raw));
    }
  }

  /** The record was turned into a row, or a dead-letter record names its offset. */
  ghost predicate Handled(inbox: seq<seq<Record>>, dlq: set<(nat, nat)>, db: Db, p: nat, o: nat) {
    && p < |inbox| && o < |inbox[p]|
    && ((p, o) in dlq || (inbox[p][o].valid && HasMessageOf(db, inbox[p][o].raw.sender, inbox[p][o].raw.uuid)))
  }

  ghost predicate HandledBelow(inbox: seq<seq<Record>>, dlq: set<(nat, nat)>, db: Db, p: nat, end: nat) {
    forall o :: 0 <= o < end ==> Handled(inbox, dlq, db, p, o)
  }

  ghost predicate DraftFits(d: Draft, rec: Record) {
    rec.valid && d.conv == rec.conv && d.key == KeyOf(rec.raw) && d.content == rec.content
  }

  ghost predicate ConsumerOk(inbox: seq<seq<Record>>, dlq: set<(nat, nat)>, db: Db, k: Consumer) {
    && k.partition < |inbox|
    && HandledBelow(inbox, dlq, db, k.partition, k.pos)
    && (!k.stage.Ready? ==> k.pos < |inbox[k.partition]|)
    && (k.stage.ToCommit? ==> Handled(inbox, dlq, db, k.partition, k.pos))
    && (k.stage.Persisting? ==> DraftFits(k.stage.draft, inbox[k.partition][k.pos]))
  }

  ghost predicate ConsumeInv(s: State) {
    && |s.committed| == |s.inbox|
    && (forall p :: 0 <= p < |s.committed| ==> HandledBelow(s.inbox, s.dlq, s.db, p, s.committed[p]))
    && (forall c :: c in s.consumers ==> ConsumerOk(s.inbox, s.dlq, s.db, s.consumers[c]))
  }

  ghost predicate InboxInv(cfg: Config, inbox: seq<seq<Record>>) {
    forall p, o :: 0 <= p < |inbox| && 0 <= o < |inbox[p]| && inbox[p][o].valid ==> PartitionOf(cfg, inbox[p][o].conv) == p
  }

  /** The key got its row before message m did. */
  ghost predicate Earlier(db: Db, key: Key, m: Message) {
    exists id :: HoldsKey(db, id, key) && (db.messages[id].conv == m.conv ==> db.messages[id].seqNo < m.seqNo)
  }

  /** Message m is the row of the record at offset o, and everything before o was handled before it. */
  ghost predicate SourceAt(cfg: Config, inbox: seq<seq<Record>>, dlq: set<(nat, nat)>, db: Db, m: Message, o: nat) {
    var p := PartitionOf(cfg, m.conv);
    && p < |inbox| && o < |inbox[p]|
    && inbox[p][o].valid && inbox[p][o].conv == m.conv && inbox[p][o].content == m.content
    && inbox[p][o].raw.sender == m.key.sender && inbox[p][o].raw.uuid == m.key.uuid
    && forall e :: 0 <= e < o && inbox[p][e].valid ==> (p, e) in dlq || Earlier(db, KeyOf(inbox[p][e].raw), m)
  }

  ghost predicate HasSource(cfg: Config, inbox: seq<seq<Record>>, dlq: set<(nat, nat)>, db: Db, m: Message) {
    exists o :: SourceAt(cfg, inbox, dlq, db, m, o)
  }

  ghost predicate SourceInv(cfg: Config, s: State) {
    forall id {:trigger HasSource(cfg, s.inbox, s.dlq, s.db, s.db.messages[id])} ::
      id in s.db.messages ==> HasSource(cfg, s.inbox, s.dlq, s.db, s.db.messages[id])
  }

  ghost predicate Inv(cfg: Config, s: State) {
    && DbInv(cfg.checksum, s.db)
    && AcceptInv(s)
    && InboxInv(cfg, s.inbox)
    && ConsumeInv(s)
    && SourceInv(cfg, s)
  }

  // ---- What is true stays true ----

  ghost predicate LogGrows(inbox: seq<seq<Record>>, inbox': seq<seq<Record>>) {
    |inbox'| == |inbox| && forall p :: 0 <= p < |inbox| ==> inbox[p] <= inbox'[p]
  }

  ghost predicate Grows(s: State, s': State) {
    LogGrows(s.inbox, s'.inbox) && s.dlq <= s'.dlq && Extends(s.db, s'.db)
  }

  lemma InInboxStays(inbox: seq<seq<Record>>, inbox': seq<seq<Record>>, raw: RawKey)
    requires LogGrows(inbox, inbox') && InInbox(inbox, raw)
    ensures InInbox(inbox', raw)
  {
    var p, o :| RecordAt(inbox, p, o, raw);
    assert RecordAt(inbox', p, o, raw);
  }

  lemma HandledStays(s: State, s': State, p: nat, end: nat)
    requires Grows(s, s') && HandledBelow(s.inbox, s.dlq, s.db, p, end)
    ensures HandledBelow(s'.inbox, s'.dlq, s'.db, p, end)
  {
    forall o | 0 <= o < end ensures Handled(s'.inbox, s'.dlq, s'.db, p, o) {
      OneHandledStays(s, s', p, o);
    }
  }

  lemma OneHandledStays(s: State, s': State, p: nat, o: nat)
    requires Grows(s, s') && Handled(s.inbox, s.dlq, s.db, p, o)
    ensures Handled(s'.inbox, s'.dlq, s'.db, p, o)
  {
    if (p, o) !in s.dlq {
      var raw := s.inbox[p][o].raw;
      var id :| id in s.db.messages && s.db.messages[id].key.sender == raw.sender && s.db.messages[id].key.uuid == raw.uuid;
      assert s'.db.messages[id] == s.db.messages[id];
    }
  }

  lemma ConsumerStays(s: State, s': State, k: Consumer)
    requires Grows(s, s') && ConsumerOk(s.inbox, s.dlq, s.db, k)
    ensures ConsumerOk(s'.inbox, s'.dlq, s'.db, k)
  {
    HandledStays(s, s', k.partition, k.pos);
    if k.stage.ToCommit? {
      OneHandledStays(s, s', k.partition, k.pos);
    }
  }

  lemma SourceStays(cfg: Config, s: State, s': State, m: Message)
    requires Grows(s, s') && HasSource(cfg, s.inbox, s.dlq, s.db, m)
    ensures HasSource(cfg, s'.inbox, s'.dlq, s'.db, m)
  {
    var o :| SourceAt(cfg, s.inbox, s.dlq, s.db, m, o);
    var p := PartitionOf(cfg, m.conv);
    forall e | 0 <= e < o && s'.inbox[p][e].valid ensures (p, e) in s'.dlq || Earlier(s'.db, KeyOf(s'.inbox[p][e].raw), m) {
      assert s'.inbox[p][e] == s.inbox[p][e];
      if (p, e) !in s.dlq {
        var key := KeyOf(s.inbox[p][e].raw);
        var id :| HoldsKey(s.db, id, key) && (s.db.messages[id].conv == m.conv ==> s.db.messages[id].seqNo < m.seqNo);
        assert HoldsKey(s'.db, id, key);
      }
    }
    assert SourceAt(cfg, s'.inbox, s'.dlq, s'.db, m, o);
  }

  /** The row that a consumer inserts comes after every row of the records before its own. */
  lemma NewRowHasSource(cfg: Config, s: State, s': State, k: Consumer, now: int)
    requires DbInv(cfg.checksum, s.db) && InboxInv(cfg, s.inbox) && ConsumerOk(s.inbox, s.dlq, s.db, k) && k.stage.Persisting?
    requires Insertable(s.db, k.stage.draft) && Grows(s, s')
    requires s'.db == Insert(cfg.checksum, s.db, k.stage.draft, now)
    ensures HasSource(cfg, s'.inbox, s'.dlq, s'.db, s'.db.messages[k.stage.draft.id])
  {
    var p, o := k.partition, k.pos;
    var m := s'.db.messages[k.stage.draft.id];
    assert s'.inbox[p][o] == s.inbox[p][o];
    forall e | 0 <= e < o && s'.inbox[p][e].valid ensures (p, e) in s'.dlq || Earlier(s'.db, KeyOf(s'.inbox[p][e].raw), m) {
      assert s'.inbox[p][e] == s.inbox[p][e] && Handled(s.inbox, s.dlq, s.db, p, e);
      if (p, e) !in s.dlq {
        var key := KeyOf(s.inbox[p][e].raw);
        KeyIsBoth(s.db, s.inbox[p][e].raw);
        var id :| id in s.db.messages && HoldsKey(s.db, id, key);
        assert HoldsKey(s'.db, id, key);
      }
    }
    assert SourceAt(cfg, s'.inbox, s'.dlq, s'.db, m, o);
  }

  // ---- Every step keeps the invariant ----

  lemma AppendedGrows(inbox: seq<seq<Record>>, p: nat, rec: Record)
    requires p < |inbox|
    ensures LogGrows(inbox, Appended(inbox, p, rec))
    ensures rec.valid ==> InInbox(Appended(inbox, p, rec), rec.raw)
  {
    var after := Appended(inbox, p, rec);
    assert rec.valid ==> RecordAt(after, p, |inbox[p]|, rec.raw);
  }

  lemma SenderStepGrows(cfg: Config, s: State, action: Action)
    requires Enabled(cfg, s, action) && BySender(action)
    ensures Grows(s, AfterSend(cfg, s, action))
    ensures InboxInv(cfg, s.inbox) ==> InboxInv(cfg, AfterSend(cfg, s, action).inbox)
  {
    match action
    case PublishOk(x) => AppendedGrows(s.inbox, PartitionOf(cfg, s.senders[x].conv), RecordOf(s.senders[x]));
    case PublishFault(x, _) => AppendedGrows(s.inbox, PartitionOf(cfg, s.senders[x].conv), RecordOf(s.senders[x]));
    case Append(p, rec) => AppendedGrows(s.inbox, p, rec);
    case _ =>
  }

  lemma SenderKeepsAccept(cfg: Config, s: State, action: Action)
    requires AcceptInv(s) && Enabled(cfg, s, action) && BySender(action)
    ensures AcceptInv(AfterSend(cfg, s, action))
  {
    var s' := AfterSend(cfg, s, action);
    SenderStepGrows(cfg, s, action);
    forall raw | InInbox(s.inbox, raw) ensures InInbox(s'.inbox, raw) {
      InInboxStays(s.inbox, s'.inbox, raw);
    }
    if action.PublishOk? {
      var x := s.senders[action.s];
      AppendedGrows(s.inbox, PartitionOf(cfg, x.conv), RecordOf(x));
    }
  }

  /** A step that leaves the tables, the consumers and the committed offsets alone. */
  lemma SenderKeepsInv(cfg: Config, s: State, action: Action)
    requires Inv(cfg, s) && Enabled(cfg, s, action) && BySender(action)
    ensures Inv(cfg, AfterSend(cfg, s, action))
  {
    var s' := AfterSend(cfg, s, action);
    SenderStepGrows(cfg, s, action);
    SenderKeepsAccept(cfg, s, action);
    KeepsConsume(s, s');
    KeepsSources(cfg, s, s');
  }

  lemma KeepsConsume(s: State, s': State)
    requires ConsumeInv(s) && Grows(s, s') && s'.consumers == s.consumers && s'.committed == s.committed
    ensures ConsumeInv(s')
  {
    forall p | 0 <= p < |s'.committed| ensures HandledBelow(s'.inbox, s'.dlq, s'.db, p, s'.committed[p]) {
      HandledStays(s, s', p, s.committed[p]);
    }
    forall c | c in s'.consumers ensures ConsumerOk(s'.inbox, s'.dlq, s'.db, s'.consumers[c]) {
      ConsumerStays(s, s', s.consumers[c]);
    }
  }

  lemma KeepsSources(cfg: Config, s: State, s': State)
    requires SourceInv(cfg, s) && Grows(s, s')
    requires forall id :: id in s'.db.messages && id !in s.db.messages ==> HasSource(cfg, s'.inbox, s'.dlq, s'.db, s'.db.messages[id])
    ensures SourceInv(cfg, s')
  {
    forall id | id in s'.db.messages ensures HasSource(cfg, s'.inbox, s'.dlq, s'.db, s'.db.messages[id]) {
      if id in s.db.messages {
        SourceStays(cfg, s, s', s.db.messages[id]);
      }
    }
  }

  lemma WorkStepGrows(cfg: Config, s: State, action: Action)
    requires DbInv(cfg.checksum, s.db) && Enabled(cfg, s, action) && !BySender(action)
    ensures Grows(s, AfterWork(cfg, s, action)) && DbInv(cfg.checksum, AfterWork(cfg, s, action).db)
  {
    match action
    case PersistOk(c, now) =>
      PersistedOk(cfg.checksum, s.db, s.consumers[c].stage.draft, now);
      PersistedExtends(cfg.checksum, s.db, s.consumers[c].stage.draft, now);
    case PersistFault(c, now, _, _) =>
      PersistedOk(cfg.checksum, s.db, s.consumers[c].stage.draft, now);
      PersistedExtends(cfg.checksum, s.db, s.consumers[c].stage.draft, now);
    case NewConversation(conv) => ConversationChangeOk(cfg, s.db, conv, Conversation(true, 0, None));
    case Close(conv) => ConversationChangeOk(cfg, s.db, conv, s.db.convs[conv].(open := false));
    case _ =>
  }

  lemma PersistedOk(checksum: Hash, db: Db, d: Draft, now: int)
    requires DbInv(checksum, db)
    ensures DbInv(checksum, Persisted(checksum, db, d, now))
  {
    if Insertable(db, d) {
      InsertKeepsInv(checksum, db, d, now);
    }
  }

  lemma PersistedExtends(checksum: Hash, db: Db, d: Draft, now: int)
    ensures Extends(db, Persisted(checksum, db, d, now))
  {
  }

  lemma PersistedHasKey(cfg: Config, db: Db, d: Draft, now: int)
    requires HasKey(db, d.key) || Insertable(db, d)
    ensures HasKey(Persisted(cfg.checksum, db, d, now), d.key)
  {
    if Insertable(db, d) {
      assert HoldsKey(Persisted(cfg.checksum, db, d, now), d.id, d.key);
    }
  }

  /** Whatever a call to the repository's Persist leaves behind is what a step of the consumer that made it leaves. */
  lemma PersistCallIsStep(cfg: Config, s: State, c: nat, after: Db, now: int, ok: bool, permanent: bool)
    requires At(s, c) && s.consumers[c].stage.Persisting?
    requires PersistLeaves(cfg.checksum, s.db, after, s.consumers[c].stage.draft, now, ok)
    ensures var step := if ok then PersistOk(c, now) else PersistFault(c, now, after != s.db, permanent);
            Enabled(cfg, s, step) && After(cfg, s, step).db == after
  {
    var d := s.consumers[c].stage.draft;
    if ok && after == s.db {
      assert !Insertable(s.db, d);
    }
  }

  lemma MessagesDecide(db: Db, db': Db, conv: ConvId, seqNo: int)
    requires db'.messages == db.messages && HasMessage(db, conv, seqNo)
    ensures HasMessage(db', conv, seqNo)
  {
  }

  lemma ConversationChangeKeepsCover(db: Db, conv: ConvId, to: Conversation)
    requires SeqsCovered(db) && to.lastSeq == if conv in db.convs then db.convs[conv].lastSeq else 0
    ensures SeqsCovered(db.(convs := db.convs[conv := to]))
  {
    var db' := db.(convs := db.convs[conv := to]);
    forall c, n | c in db'.convs && 1 <= n <= db'.convs[c].lastSeq ensures HasMessage(db', c, n) {
      MessagesDecide(db, db', c, n);
    }
  }

  lemma ConversationChangeKeepsRest(db: Db, conv: ConvId, to: Conversation)
    requires RowsFit(db) && SlotsDistinct(db) && LastNamed(db)
    requires if conv in db.convs then to.lastSeq == db.convs[conv].lastSeq && to.lastMessageId == db.convs[conv].lastMessageId
             else to.lastSeq == 0 && to.lastMessageId.None?
    ensures var db' := db.(convs := db.convs[conv := to]); RowsFit(db') && SlotsDistinct(db') && LastNamed(db')
  {
  }

  lemma ConversationChangeOk(cfg: Config, db: Db, conv: ConvId, to: Conversation)
    requires DbInv(cfg.checksum, db)
    requires if conv in db.convs then to.lastSeq == db.convs[conv].lastSeq && to.lastMessageId == db.convs[conv].lastMessageId
             else to.lastSeq == 0 && to.lastMessageId.None?
    ensures DbInv(cfg.checksum, db.(convs := db.convs[conv := to])) && Extends(db, db.(convs := db.convs[conv := to]))
  {
    ConversationChangeKeepsCover(db, conv, to);
    ConversationChangeKeepsRest(db, conv, to);
  }

  /** The consumer that acts keeps its part. */
  lemma ActorOk(cfg: Config, s: State, action: Action, c: nat)
    requires ConsumeInv(s) && Enabled(cfg, s, action) && !BySender(action) && Grows(s, AfterWork(cfg, s, action))
    requires !action.NewConversation? && !action.Close? && c == action.c && c in AfterWork(cfg, s, action).consumers
    ensures var s' := AfterWork(cfg, s, action); ConsumerOk(s'.inbox, s'.dlq, s'.db, s'.consumers[c])
  {
    var s' := AfterWork(cfg, s, action);
    if action.Start? {
      HandledStays(s, s', action.partition, s.committed[action.partition]);
    } else {
      var k := s.consumers[c];
      assert ConsumerOk(s.inbox, s.dlq, s.db, k);
      ConsumerStays(s, s', k);
      if action.PersistOk? {
        PersistedHasKey(cfg, s.db, k.stage.draft, action.now);
        KeyIsBoth(s'.db, s.inbox[k.partition][k.pos].raw);
      } else if action.FindExisting? {
        KeyIsBoth(s.db, s.inbox[k.partition][k.pos].raw);
      }
    }
  }

  lemma WorkKeepsConsumer(cfg: Config, s: State, action: Action, c: nat)
    requires ConsumeInv(s) && Enabled(cfg, s, action) && !BySender(action) && Grows(s, AfterWork(cfg, s, action))
    requires c in AfterWork(cfg, s, action).consumers
    ensures var s' := AfterWork(cfg, s, action); ConsumerOk(s'.inbox, s'.dlq, s'.db, s'.consumers[c])
  {
    var s' := AfterWork(cfg, s, action);
    if !action.NewConversation? && !action.Close? && c == action.c {
      ActorOk(cfg, s, action, c);
    } else {
      assert s'.consumers[c] == s.consumers[c];
      ConsumerStays(s, s', s.consumers[c]);
    }
  }

  lemma WorkKeepsCommitted(cfg: Config, s: State, action: Action, p: nat)
    requires ConsumeInv(s) && Enabled(cfg, s, action) && !BySender(action) && Grows(s, AfterWork(cfg, s, action))
    requires p < |s.committed|
    ensures var s' := AfterWork(cfg, s, action); HandledBelow(s'.inbox, s'.dlq, s'.db, p, s'.committed[p])
  {
    var s' := AfterWork(cfg, s, action);
    if AfterWork(cfg, s, action).committed == s.committed {
      HandledStays(s, s', p, s.committed[p]);
    } else {
      var k := s.consumers[action.c];
      assert ConsumerOk(s.inbox, s.dlq, s.db, k);
      assert HandledBelow(s.inbox, s.dlq, s.db, k.partition, k.pos + 1);
      HandledStays(s, s', p, if p == k.partition then k.pos + 1 else s.committed[p]);
    }
  }

  lemma WorkKeepsConsume(cfg: Config, s: State, action: Action)
    requires ConsumeInv(s) && Enabled(cfg, s, action) && !BySender(action) && Grows(s, AfterWork(cfg, s, action))
    ensures ConsumeInv(AfterWork(cfg, s, action))
  {
    var s' := AfterWork(cfg, s, action);
    forall c | c in s'.consumers ensures ConsumerOk(s'.inbox, s'.dlq, s'.db, s'.consumers[c]) {
      WorkKeepsConsumer(cfg, s, action, c);
    }
    forall p | 0 <= p < |s'.committed| ensures HandledBelow(s'.inbox, s'.dlq, s'.db, p, s'.committed[p]) {
      WorkKeepsCommitted(cfg, s, action, p);
    }
  }

  lemma WorkKeepsSources(cfg: Config, s: State, action: Action)
    requires Inv(cfg, s) && Enabled(cfg, s, action) && !BySender(action)
    ensures SourceInv(cfg, AfterWork(cfg, s, action))
  {
    var s' := AfterWork(cfg, s, action);
    WorkStepGrows(cfg, s, action);
    if action.PersistOk? || action.PersistFault? {
      var k := s.consumers[action.c];
      if s'.db != s.db {
        NewRowHasSource(cfg, s, s', k, action.now);
      }
    }
    KeepsSources(cfg, s, s');
  }

  lemma WorkLeavesSenders(cfg: Config, s: State, action: Action)
    requires Enabled(cfg, s, action) && !BySender(action)
    ensures var s' := AfterWork(cfg, s, action);
            s'.idem == s.idem && s'.senders == s.senders && s'.replies == s.replies && s'.inbox == s.inbox
  {
  }

  lemma WorkKeepsInv(cfg: Config, s: State, action: Action)
    requires Inv(cfg, s) && Enabled(cfg, s, action) && !BySender(action)
    ensures Inv(cfg, AfterWork(cfg, s, action))
  {
    WorkStepGrows(cfg, s, action);
    WorkKeepsSources(cfg, s, action);
    WorkKeepsConsume(cfg, s, action);
    WorkLeavesSenders(cfg, s, action);
  }

  /** Every step keeps the invariant. */
  lemma StepKeepsInv(cfg: Config, s: State, action: Action, s': State)
    requires Inv(cfg, s) && Step(cfg, s, action, s')
    ensures Inv(cfg, s')
  {
    if BySender(action) {
      SenderKeepsInv(cfg, s, action);
    } else {
      WorkKeepsInv(cfg, s, action);
    }
  }

  lemma EmptyTablesOk(cfg: Config)
    ensures DbInv(cfg.checksum, Db(map[], map[], map[]))
  {
  }

  lemma InitialRest(cfg: Config, s: State)
    requires Initial(cfg, s)
    ensures AcceptInv(s) && InboxInv(cfg, s.inbox) && ConsumeInv(s) && SourceInv(cfg, s)
  {
  }

  lemma InitialInv(cfg: Config, s: State)
    requires Initial(cfg, s)
    ensures Inv(cfg, s)
  {
    EmptyTablesOk(cfg);
    InitialRest(cfg, s);
  }

  lemma {:induction false} RunKeepsInv(cfg: Config, run: Run)
    requires IsRun(cfg, run)
    ensures Inv(cfg, run.state)
    decreases run
  {
    match run
    case Begun(s) => InitialInv(cfg, s);
    case Then(before, action, s) =>
      RunKeepsInv(cfg, before);
      StepKeepsInv(cfg, before.state, action, s);
  }

  // ---- What holds of every run ----

  /** Exactly once, end to end: however often a key is sent, and whatever happens to its Redis entry, at most one
      message, one seq and one outbox row carry it; and an answer "accepted" means that a record of that very
      key is in the inbox log. */
  lemma ExactlyOnce(cfg: Config, run: Run)
    requires IsRun(cfg, run)
    ensures var s := run.state;
            && (forall k :: 0 <= k < |s.replies| ==> InInbox(s.inbox, s.replies[k]))
            && (forall a, b :: a in s.db.messages && b in s.db.messages && s.db.messages[a].key == s.db.messages[b].key ==> a == b)
            && s.db.outbox.Keys == s.db.messages.Keys
            && (forall id :: id in s.db.messages ==> HasSource(cfg, s.inbox, s.dlq, s.db, s.db.messages[id]))
  {
    RunKeepsInv(cfg, run);
  }

  /** Commit safety: every offset below the committed one was turned into a row or is named by a dead-letter record. */
  lemma CommitSafety(cfg: Config, run: Run, p: nat, o: nat)
    requires IsRun(cfg, run) && p < |run.state.committed| && o < run.state.committed[p]
    ensures var s := run.state;
            && p < |s.inbox| && o < |s.inbox[p]|
            && ((p, o) in s.dlq
                || (s.inbox[p][o].valid
                    && exists id :: id in s.db.messages
                         && s.db.messages[id].key.sender == s.inbox[p][o].raw.sender && s.db.messages[id].key.uuid == s.inbox[p][o].raw.uuid))
  {
    RunKeepsInv(cfg, run);
    assert HandledBelow(run.state.inbox, run.state.dlq, run.state.db, p, run.state.committed[p]);
    assert Handled(run.state.inbox, run.state.dlq, run.state.db, p, o);
  }

  ghost predicate RowOf(s: State, p: nat, o: nat, id: MessageId) {
    && p < |s.inbox| && o < |s.inbox[p]| && s.inbox[p][o].valid && id in s.db.messages
    && s.db.messages[id].key.sender == s.inbox[p][o].raw.sender && s.db.messages[id].key.uuid == s.inbox[p][o].raw.uuid
  }

  lemma RowBehind(cfg: Config, run: Run, p: nat, o: nat) returns (id: MessageId)
    requires IsRun(cfg, run) && p < |run.state.committed| && o < run.state.committed[p] && (p, o) !in run.state.dlq
    ensures RowOf(run.state, p, o, id)
  {
    CommitSafety(cfg, run, p, o);
    var s := run.state;
    id :| id in s.db.messages && s.db.messages[id].key.sender == s.inbox[p][o].raw.sender && s.db.messages[id].key.uuid == s.inbox[p][o].raw.uuid;
  }

  /** Two records behind the committed offsets share a message exactly when they have the same sender and the same
      client message id. */
  lemma OneMessageEach(cfg: Config, run: Run, p: nat, o: nat, p': nat, o': nat) returns (a: MessageId, b: MessageId)
    requires IsRun(cfg, run) && p < |run.state.committed| && o < run.state.committed[p] && (p, o) !in run.state.dlq
    requires p' < |run.state.committed| && o' < run.state.committed[p'] && (p', o') !in run.state.dlq
    ensures RowOf(run.state, p, o, a) && RowOf(run.state, p', o', b)
    ensures forall id :: (RowOf(run.state, p, o, id) ==> id == a) && (RowOf(run.state, p', o', id) ==> id == b)
    ensures a == b <==> && run.state.inbox[p][o].raw.sender == run.state.inbox[p'][o'].raw.sender
                        && run.state.inbox[p][o].raw.uuid == run.state.inbox[p'][o'].raw.uuid
  {
    var s := run.state;
    RunKeepsInv(cfg, run);
    a := RowBehind(cfg, run, p, o);
    b := RowBehind(cfg, run, p', o');
    forall id ensures (RowOf(s, p, o, id) ==> id == a) && (RowOf(s, p', o', id) ==> id == b) {
      SameKeySameRow(s.db, a, id);
      SameKeySameRow(s.db, b, id);
    }
    SameKeySameRow(s.db, a, b);
  }

  lemma SameKeySameRow(db: Db, a: MessageId, b: MessageId)
    requires KeysInv(db) && a in db.messages
    ensures b in db.messages && db.messages[b].key.sender == db.messages[a].key.sender && db.messages[b].key.uuid == db.messages[a].key.uuid ==> a == b
  {
    if b in db.messages && db.messages[b].key.sender == db.messages[a].key.sender && db.messages[b].key.uuid == db.messages[a].key.uuid {
      assert db.messages[a].key == db.messages[b].key;
    }
  }

  /** Some record of message a stands before every record of message b in their partition, and no dead-letter
      record names it. */
  ghost predicate ComesFirst(cfg: Config, s: State, a: Message, b: Message, o: nat) {
    var p := PartitionOf(cfg, a.conv);
    && p < |s.inbox| && o < |s.inbox[p]| && s.inbox[p][o].valid && (p, o) !in s.dlq
    && s.inbox[p][o].raw.sender == a.key.sender && s.inbox[p][o].raw.uuid == a.key.uuid
    && forall e :: 0 <= e <= o && s.inbox[p][e].valid ==> !(s.inbox[p][e].raw.sender == b.key.sender && s.inbox[p][e].raw.uuid == b.key.uuid)
  }

  lemma ComesFirstOrdersSeqs(cfg: Config, s: State, a: MessageId, b: MessageId, o: nat)
    requires Inv(cfg, s) && a in s.db.messages && b in s.db.messages && s.db.messages[a].conv == s.db.messages[b].conv
    requires ComesFirst(cfg, s, s.db.messages[a], s.db.messages[b], o)
    ensures s.db.messages[a].seqNo < s.db.messages[b].seqNo
  {
    var m := s.db.messages[b];
    var p := PartitionOf(cfg, m.conv);
    assert HasSource(cfg, s.inbox, s.dlq, s.db, m);
    var e :| SourceAt(cfg, s.inbox, s.dlq, s.db, m, e);
    assert o < e;
    var id :| HoldsKey(s.db, id, s.db.messages[a].key) && (s.db.messages[id].conv == m.conv ==> s.db.messages[id].seqNo < m.seqNo);
    assert id == a;
  }

  /** Order under redelivery: of two messages of a conversation, the one whose record comes first has the smaller seq. */
  lemma SeqsFollowTheLog(cfg: Config, run: Run, a: MessageId, b: MessageId, o: nat)
    requires IsRun(cfg, run)
    requires a in run.state.db.messages && b in run.state.db.messages
    requires run.state.db.messages[a].conv == run.state.db.messages[b].conv
    requires ComesFirst(cfg, run.state, run.state.db.messages[a], run.state.db.messages[b], o)
    ensures run.state.db.messages[a].seqNo < run.state.db.messages[b].seqNo
  {
    RunKeepsInv(cfg, run);
    ComesFirstOrdersSeqs(cfg, run.state, a, b, o);
  }

  // ---- Nothing blocks a partition for ever ----

  /** A set of states that holds the first ones and that no step leaves. */
  ghost predicate Closed(cfg: Config, p: iset<State>) {
    && (forall s :: Initial(cfg, s) ==> s in p)
    && (forall s, action :: s in p && Enabled(cfg, s, action) ==> After(cfg, s, action) in p)
  }

  ghost predicate Reachable(cfg: Config, s: State) {
    forall p :: Closed(cfg, p) ==> s in p
  }

  ghost predicate EndsIn(cfg: Config, s: State) {
    exists run :: IsRun(cfg, run) && run.state == s
  }

  /** These are exactly the states that some run ends in. */
  lemma ReachableIffRun(cfg: Config, s: State)
    ensures Reachable(cfg, s) <==> EndsIn(cfg, s)
  {
    if Reachable(cfg, s) {
      var p := iset t: State | EndsIn(cfg, t);
      forall t | Initial(cfg, t) ensures t in p {
        assert IsRun(cfg, Run.Begun(t)) && Run.Begun(t).state == t;
      }
      forall t, action | t in p && Enabled(cfg, t, action) ensures After(cfg, t, action) in p {
        var run :| IsRun(cfg, run) && run.state == t;
        var next := Then(run, action, After(cfg, t, action));
        assert IsRun(cfg, next) && next.state == After(cfg, t, action);
      }
      assert Closed(cfg, p);
    }
    forall run, p | IsRun(cfg, run) && run.state == s && Closed(cfg, p) ensures s in p {
      RunStaysIn(cfg, run, p);
    }
  }

  lemma {:induction false} RunStaysIn(cfg: Config, run: Run, p: iset<State>)
    requires IsRun(cfg, run) && Closed(cfg, p)
    ensures run.state in p
    decreases run
  {
    match run
    case Begun(_) =>
    case Then(before, action, s) =>
      RunStaysIn(cfg, before, p);
  }

  lemma Extend(cfg: Config, s: State, action: Action) returns (s': State)
    requires Reachable(cfg, s) && Enabled(cfg, s, action)
    ensures Reachable(cfg, s') && s' == After(cfg, s, action)
  {
    s' := After(cfg, s, action);
    forall p | Closed(cfg, p) ensures s' in p {
      assert s in p;
    }
  }

  lemma ReachableInv(cfg: Config, s: State)
    requires Reachable(cfg, s)
    ensures Inv(cfg, s)
  {
    ReachableIffRun(cfg, s);
    var run :| IsRun(cfg, run) && run.state == s;
    RunKeepsInv(cfg, run);
  }

  function First(path: Run): State {
    match path
    case Begun(s) => s
    case Then(before, _, _) => First(before)
  }

  ghost predicate Steps(cfg: Config, path: Run)
    decreases path
  {
    match path
    case Begun(_) => true
    case Then(before, action, s) => Steps(cfg, before) && Step(cfg, before.state, action, s)
  }

  /** Some steps lead from one state to the other. */
  ghost predicate Leads(cfg: Config, s: State, s': State) {
    exists path :: Steps(cfg, path) && First(path) == s && path.state == s'
  }

  lemma Go(cfg: Config, origin: State, s: State, action: Action) returns (s': State)
    requires Leads(cfg, origin, s) && Enabled(cfg, s, action)
    ensures Leads(cfg, origin, s') && s' == After(cfg, s, action)
  {
    s' := After(cfg, s, action);
    var path :| Steps(cfg, path) && First(path) == origin && path.state == s;
    assert Steps(cfg, Then(path, action, s')) && First(Then(path, action, s')) == origin;
  }

  /** The run goes on with one consumer in the given stage; offsets, records and other consumers stay. */
  ghost predicate OnlyMoves(s: State, s': State, c: nat, stage: Stage) {
    && At(s, c) && At(s', c)
    && s'.consumers == s.consumers[c := s.consumers[c].(stage := stage)]
    && s'.committed == s.committed && s'.inbox == s.inbox
  }

  /** Handle the record with a dead-letter record. */
  lemma CanDeadLetter(cfg: Config, origin: State, s: State, c: nat) returns (s': State)
    requires Leads(cfg, origin, s) && At(s, c) && s.consumers[c].stage.ToDlq?
    ensures Leads(cfg, origin, s') && OnlyMoves(s, s', c, ToCommit) && s'.db == s.db
  {
    s' := Go(cfg, origin, s, DlqOk(c));
  }

  lemma CanReject(cfg: Config, origin: State, s: State, c: nat) returns (s': State)
    requires Leads(cfg, origin, s) && At(s, c) && s.consumers[c].stage.Ready?
    requires !Current(s, s.consumers[c]).valid
    ensures Leads(cfg, origin, s') && OnlyMoves(s, s', c, ToCommit) && s'.db == s.db
  {
    s' := Go(cfg, origin, s, Reject(c));
    s' := CanDeadLetter(cfg, origin, s', c);
  }

  /** A row for the draft, or, when it cannot be inserted, a dead-letter record. */
  lemma CanInsert(cfg: Config, origin: State, s: State, c: nat) returns (s': State)
    requires Leads(cfg, origin, s) && At(s, c) && s.consumers[c].stage.Persisting?
    ensures Leads(cfg, origin, s') && OnlyMoves(s, s', c, ToCommit)
    ensures Insertable(s.db, s.consumers[c].stage.draft) ==> HasKey(s'.db, s.consumers[c].stage.draft.key)
  {
    var d := s.consumers[c].stage.draft;
    if Insertable(s.db, d) {
      PersistedHasKey(cfg, s.db, d, 0);
      s' := Go(cfg, origin, s, PersistOk(c, 0));
    } else {
      s' := Go(cfg, origin, s, PersistFault(c, 0, false, true));
      s' := CanDeadLetter(cfg, origin, s', c);
    }
  }

  /** Handle a valid record: find its row, insert it, or, in a closed conversation, give it up to the dead-letter log. */
  lemma CanPersist(cfg: Config, origin: State, s: State, c: nat) returns (s': State)
    requires Leads(cfg, origin, s) && At(s, c) && s.consumers[c].stage.Ready?
    requires Current(s, s.consumers[c]).valid
    ensures Leads(cfg, origin, s') && OnlyMoves(s, s', c, ToCommit)
    ensures var rec := Current(s, s.consumers[c]);
            rec.conv in s.db.convs && s.db.convs[rec.conv].open ==> HasKey(s'.db, KeyOf(rec.raw))
  {
    var rec := Current(s, s.consumers[c]);
    if HasKey(s.db, KeyOf(rec.raw)) {
      s' := Go(cfg, origin, s, FindExisting(c));
    } else {
      var id: MessageId := FreshAbove(s.db.messages.Keys);
      s' := Go(cfg, origin, s, Allocate(c, id));
      s' := CanInsert(cfg, origin, s', c);
    }
  }

  lemma CanHandle(cfg: Config, origin: State, s: State, c: nat) returns (s': State)
    requires Leads(cfg, origin, s) && At(s, c) && s.consumers[c].stage.Ready?
    ensures Leads(cfg, origin, s') && OnlyMoves(s, s', c, ToCommit)
    ensures var rec := Current(s, s.consumers[c]);
            rec.valid && rec.conv in s.db.convs && s.db.convs[rec.conv].open ==> HasKey(s'.db, KeyOf(rec.raw))
  {
    if Current(s, s.consumers[c]).valid {
      s' := CanPersist(cfg, origin, s, c);
    } else {
      s' := CanReject(cfg, origin, s, c);
    }
  }

  lemma CanCommit(cfg: Config, origin: State, s: State, c: nat) returns (s': State)
    requires Leads(cfg, origin, s) && At(s, c) && s.consumers[c].stage.ToCommit?
    ensures Leads(cfg, origin, s') && s'.db == s.db
    ensures s'.committed == s.committed[s.consumers[c].partition := s.consumers[c].pos + 1]
  {
    s' := Go(cfg, origin, s, CommitOk(c));
  }

  lemma CanHandleAndCommit(cfg: Config, origin: State, s: State, c: nat) returns (s': State)
    requires Leads(cfg, origin, s) && At(s, c) && s.consumers[c].stage.Ready?
    ensures Leads(cfg, origin, s') && s'.committed == s.committed[s.consumers[c].partition := s.consumers[c].pos + 1]
    ensures var rec := Current(s, s.consumers[c]);
            rec.valid && rec.conv in s.db.convs && s.db.convs[rec.conv].open ==> HasKey(s'.db, KeyOf(rec.raw))
  {
    var s1 := CanHandle(cfg, origin, s, c);
    assert s1.consumers[c] == s.consumers[c].(stage := ToCommit);
    s' := CanCommit(cfg, origin, s1, c);
  }

  lemma CanStart(cfg: Config, origin: State, s: State, p: nat) returns (s': State, c: nat)
    requires Leads(cfg, origin, s) && p < |s.inbox| && p < |s.committed|
    requires s.committed[p] < |s.inbox[p]|
    ensures Leads(cfg, origin, s') && At(s', c) && s'.consumers[c] == Consumer(p, s.committed[p], Ready)
    ensures s'.committed == s.committed && s'.inbox == s.inbox && s'.db == s.db
  {
    c := 0;
    s' := Go(cfg, origin, s, Start(c, p, s.committed[p]));
  }

  ghost predicate CanCommitNext(cfg: Config, s: State, p: nat)
    requires p < |s.inbox| && p < |s.committed| && s.committed[p] < |s.inbox[p]|
  {
    var rec := s.inbox[p][s.committed[p]];
    exists s' ::
      && Leads(cfg, s, s') && s'.committed == s.committed[p := s.committed[p] + 1]
      && (rec.valid && rec.conv in s.db.convs && s.db.convs[rec.conv].open ==> HasMessageOf(s'.db, rec.raw.sender, rec.raw.uuid))
  }

  lemma CommitNext(cfg: Config, s: State, p: nat) returns (s': State)
    requires p < |s.inbox| && p < |s.committed| && s.committed[p] < |s.inbox[p]|
    ensures Leads(cfg, s, s') && s'.committed == s.committed[p := s.committed[p] + 1]
    ensures var rec := s.inbox[p][s.committed[p]];
            rec.valid && rec.conv in s.db.convs && s.db.convs[rec.conv].open ==> HasKey(s'.db, KeyOf(rec.raw))
  {
    assert Steps(cfg, Run.Begun(s)) && First(Run.Begun(s)) == s;
    var s1, c := CanStart(cfg, s, s, p);
    assert Current(s1, s1.consumers[c]) == s.inbox[p][s.committed[p]];
    s' := CanHandleAndCommit(cfg, s, s1, c);
  }

  /** From every state the next record of a partition can be handled and committed, and in an open conversation
      it can become a row. */
  lemma CommittedCanAdvance(cfg: Config, s: State, p: nat)
    requires p < |s.inbox| && p < |s.committed| && s.committed[p] < |s.inbox[p]|
    ensures CanCommitNext(cfg, s, p)
  {
    var s' := CommitNext(cfg, s, p);
    KeyIsBoth(s'.db, s.inbox[p][s.committed[p]].raw);
  }
}

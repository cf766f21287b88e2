/**
  The message tables and the persist transaction: allocate the next seq of a conversation under its row
  lock, insert the message under its unique keys, and queue its outbox row, all or nothing.
*/
module MessageStore {
  import opened Common
  import opened OutboxRows
  import opened Shards
  import OutboxProtocol

  /** The idempotency key: sender and client message id, the latter as its 16 bytes. */
  datatype Key = Key(sender: UserId, uuid: nat)

  datatype Conversation = Conversation(open: bool, lastSeq: nat, lastMessageId: Option<MessageId>)

  datatype Message = Message(id: MessageId, conv: ConvId, seqNo: int, key: Key, content: string)

  datatype Db = Db(convs: map<ConvId, Conversation>, messages: map<MessageId, Message>, outbox: Table)

  datatype Draft = Draft(id: MessageId, conv: ConvId, key: Key, content: string)

  /** Every error inside the transaction reaches the caller as an internal one. */
  datatype PersistError = Internal

  predicate HoldsKey(db: Db, id: MessageId, key: Key) {
    id in db.messages && db.messages[id].key == key
  }

  predicate HasKey(db: Db, key: Key) {
    exists id :: id in db.messages && HoldsKey(db, id, key)
  }

  ghost predicate HasMessage(db: Db, conv: ConvId, seqNo: int) {
    exists id :: id in db.messages && db.messages[id].conv == conv && db.messages[id].seqNo == seqNo
  }

  predicate SameSlot(a: Message, b: Message) {
    a.conv == b.conv && a.seqNo == b.seqNo
  }

  ghost predicate RowsFit(db: Db) {
    forall id :: id in db.messages ==>
      var m := db.messages[id];
      m.id == id && m.conv in db.convs && 1 <= m.seqNo <= db.convs[m.conv].lastSeq
  }

  ghost predicate SeqsCovered(db: Db) {
    forall c, n :: c in db.convs && 1 <= n <= db.convs[c].lastSeq ==> HasMessage(db, c, n)
  }

  ghost predicate SlotsDistinct(db: Db) {
    forall a, b :: a in db.messages && b in db.messages && SameSlot(db.messages[a], db.messages[b]) ==> a == b
  }

  ghost predicate LastNamed(db: Db) {
    forall c :: c in db.convs ==>
      match db.convs[c].lastMessageId
      case None => db.convs[c].lastSeq == 0
      case Some(id) => id in db.messages && db.messages[id].conv == c && db.messages[id].seqNo == db.convs[c].lastSeq
  }

  /** The seqs of each conversation are exactly 1..last_seq and last_message_id names the row at last_seq. */
  ghost predicate SeqsInv(db: Db) {
    RowsFit(db) && SeqsCovered(db) && SlotsDistinct(db) && LastNamed(db)
  }

  ghost predicate KeysInv(db: Db) {
    forall a, b :: a in db.messages && b in db.messages && db.messages[a].key == db.messages[b].key ==> a == b
  }

  /** Outbox rows match messages one to one. */
  ghost predicate QueuedInv(checksum: Hash, db: Db) {
    && db.outbox.Keys == db.messages.Keys
    && forall id :: id in db.messages ==>
         && db.outbox[id].conv == db.messages[id].conv && db.outbox[id].seqNo == db.messages[id].seqNo
         && db.outbox[id].shard == ShardId(checksum, db.messages[id].conv)
  }

  ghost predicate DbInv(checksum: Hash, db: Db) {
    SeqsInv(db) && KeysInv(db) && QueuedInv(checksum, db)
  }

  /** Messages are never changed or removed, and conversations only grow. */
  ghost predicate Extends(db: Db, db': Db) {
    && (forall id :: id in db.messages ==> id in db'.messages && db'.messages[id] == db.messages[id])
    && (forall c :: c in db.convs ==> c in db'.convs && db.convs[c].lastSeq <= db'.convs[c].lastSeq)
  }

  predicate Insertable(db: Db, d: Draft) {
    d.conv in db.convs && db.convs[d.conv].open && d.id !in db.messages && !HasKey(db, d.key)
  }

  function MessageOf(d: Draft, seqNo: int): Message {
    Message(d.id, d.conv, seqNo, d.key, d.content)
  }

  /** The writes of one transaction that read `lastSeq` under the lock. */
  function Apply(checksum: Hash, db: Db, d: Draft, lastSeq: nat, now: int): Db
    requires d.conv in db.convs
  {
    Db(db.convs[d.conv := db.convs[d.conv].(lastSeq := lastSeq + 1, lastMessageId := Some(d.id))],
       db.messages[d.id := MessageOf(d, lastSeq + 1)],
       db.outbox[d.id := NewRow(d.conv, lastSeq + 1, ShardId(checksum, d.conv), false, now)])
  }

  /** The transaction as one step. */
  function Insert(checksum: Hash, db: Db, d: Draft, now: int): Db
    requires d.conv in db.convs
  {
    Apply(checksum, db, d, db.convs[d.conv].lastSeq, now)
  }

  lemma InsertKeepsSeqs(checksum: Hash, db: Db, d: Draft, now: int)
    requires SeqsInv(db) && Insertable(db, d)
    ensures SeqsInv(Insert(checksum, db, d, now))
  {
    var db' := Insert(checksum, db, d, now);
    forall c, n | c in db'.convs && 1 <= n <= db'.convs[c].lastSeq ensures HasMessage(db', c, n) {
      if c == d.conv && n == db'.convs[c].lastSeq {
        assert d.id in db'.messages && db'.messages[d.id].conv == c && db'.messages[d.id].seqNo == n;
      } else {
        assert HasMessage(db, c, n);
        var id :| id in db.messages && db.messages[id].conv == c && db.messages[id].seqNo == n;
        assert id in db'.messages && db'.messages[id].conv == c && db'.messages[id].seqNo == n;
      }
    }
  }

  lemma InsertKeepsKeys(checksum: Hash, db: Db, d: Draft, now: int)
    requires KeysInv(db) && Insertable(db, d)
    ensures KeysInv(Insert(checksum, db, d, now))
  {
    forall id | id in db.messages ensures db.messages[id].key != d.key {
      assert !HoldsKey(db, id, d.key);
    }
  }

  lemma InsertKeepsInv(checksum: Hash, db: Db, d: Draft, now: int)
    requires DbInv(checksum, db) && Insertable(db, d)
    ensures DbInv(checksum, Insert(checksum, db, d, now)) && Extends(db, Insert(checksum, db, d, now))
    ensures HoldsKey(Insert(checksum, db, d, now), d.id, d.key)
  {
    InsertKeepsSeqs(checksum, db, d, now);
    InsertKeepsKeys(checksum, db, d, now);
  }

  lemma KeyStays(db: Db, db': Db, key: Key)
    requires Extends(db, db') && HasKey(db, key)
    ensures HasKey(db', key)
  {
    var id :| id in db.messages && HoldsKey(db, id, key);
    assert HoldsKey(db', id, key);
  }

  /** A committed transaction is a Persist step of the outbox protocol. */
  lemma InsertIsOutboxStep(cfg: OutboxProtocol.Config, db: Db, d: Draft, now: int, s: OutboxProtocol.State)
    requires DbInv(cfg.checksum, db) && Insertable(db, d)
    requires s.rows == db.outbox && s.last == LastSeqs(db) && now <= s.clock
    ensures var step := OutboxProtocol.Persist(d.id, d.conv, false, now);
            && OutboxProtocol.Enabled(cfg, s, step)
            && OutboxProtocol.After(cfg, s, step).rows == Insert(cfg.checksum, db, d, now).outbox
            && OutboxProtocol.After(cfg, s, step).last == LastSeqs(Insert(cfg.checksum, db, d, now))
  {
    assert d.id !in db.outbox.Keys;
  }

  function LastSeqs(db: Db): map<ConvId, nat> {
    map c | c in db.convs :: db.convs[c].lastSeq
  }

  // ---- The transaction, statement by statement ----

  /** `Locked` and later: the conversation row is locked and lastSeq was read under the lock. `Inserted` and
      later: the unique keys of the new message are taken. Nothing is visible to others before the commit. */
  datatype Phase = Begun | Checked | Locked(lastSeq: nat) | Inserted(lastSeq: nat) | Updated(lastSeq: nat) | Queued(lastSeq: nat)

  datatype Tx = Tx(draft: Draft, phase: Phase)

  datatype World = World(db: Db, txs: map<nat, Tx>)

  predicate HoldsRow(p: Phase) {
    !p.Begun? && !p.Checked?
  }

  predicate HoldsKeys(p: Phase) {
    HoldsRow(p) && !p.Locked?
  }

  datatype TxStep =
    | Begin(t: nat, draft: Draft)
    | CheckMissing(t: nat)
    | LockRow(t: nat)
    | InsertMessage(t: nat)
    | UpdateConversation(t: nat)
    | InsertOutbox(t: nat)
    | Commit(t: nat, now: int)
    | End(t: nat)  // the key was found, a duplicate key or another error rolled it back, or the client went away

  predicate TxEnabled(w: World, step: TxStep) {
    match step
    case Begin(t, _) => t !in w.txs
    case CheckMissing(t) => t in w.txs && w.txs[t].phase.Begun? && !HasKey(w.db, w.txs[t].draft.key)
    case LockRow(t) =>
      && t in w.txs && w.txs[t].phase.Checked?
      && w.txs[t].draft.conv in w.db.convs && w.db.convs[w.txs[t].draft.conv].open
      && forall u :: u in w.txs && HoldsRow(w.txs[u].phase) ==> w.txs[u].draft.conv != w.txs[t].draft.conv
    case InsertMessage(t) =>
      && t in w.txs && w.txs[t].phase.Locked?
      && w.txs[t].draft.id !in w.db.messages && !HasKey(w.db, w.txs[t].draft.key)
      && forall u :: u in w.txs && HoldsKeys(w.txs[u].phase) ==>
           w.txs[u].draft.id != w.txs[t].draft.id && w.txs[u].draft.key != w.txs[t].draft.key
    case UpdateConversation(t) => t in w.txs && w.txs[t].phase.Inserted?
    case InsertOutbox(t) => t in w.txs && w.txs[t].phase.Updated?
    case Commit(t, _) => t in w.txs && w.txs[t].phase.Queued? && w.txs[t].draft.conv in w.db.convs
    case End(t) => t in w.txs
  }

  function AfterTx(checksum: Hash, w: World, step: TxStep): World
    requires TxEnabled(w, step)
  {
    match step
    case Begin(t, draft) => w.(txs := w.txs[t := Tx(draft, Begun)])
    case CheckMissing(t) => w.(txs := w.txs[t := w.txs[t].(phase := Checked)])
    case LockRow(t) => w.(txs := w.txs[t := w.txs[t].(phase := Locked(w.db.convs[w.txs[t].draft.conv].lastSeq))])
    case InsertMessage(t) => w.(txs := w.txs[t := w.txs[t].(phase := Inserted(w.txs[t].phase.lastSeq))])
    case UpdateConversation(t) => w.(txs := w.txs[t := w.txs[t].(phase := Updated(w.txs[t].phase.lastSeq))])
    case InsertOutbox(t) => w.(txs := w.txs[t := w.txs[t].(phase := Queued(w.txs[t].phase.lastSeq))])
    case Commit(t, now) => World(Apply(checksum, w.db, w.txs[t].draft, w.txs[t].phase.lastSeq, now), w.txs - {t})
    case End(t) => w.(txs := w.txs - {t})
  }

  ghost predicate LocksInv(w: World) {
    && (forall t :: t in w.txs && HoldsRow(w.txs[t].phase) ==>
          var d := w.txs[t].draft;
          d.conv in w.db.convs && w.db.convs[d.conv].open && w.txs[t].phase.lastSeq == w.db.convs[d.conv].lastSeq)
    && (forall t :: t in w.txs && HoldsKeys(w.txs[t].phase) ==>
          w.txs[t].draft.id !in w.db.messages && !HasKey(w.db, w.txs[t].draft.key))
    && (forall t, u :: t in w.txs && u in w.txs && t != u && HoldsRow(w.txs[t].phase) && HoldsRow(w.txs[u].phase) ==>
          w.txs[t].draft.conv != w.txs[u].draft.conv)
    && (forall t, u :: t in w.txs && u in w.txs && t != u && HoldsKeys(w.txs[t].phase) && HoldsKeys(w.txs[u].phase) ==>
          w.txs[t].draft.id != w.txs[u].draft.id && w.txs[t].draft.key != w.txs[u].draft.key)
  }

  /** Every interleaving of statements, rollbacks and duplicate-key races looks like whole transactions one
      after another: a commit is the one-step Insert on the tables as they are, and no other step shows. */
  lemma TransactionsAreAtomic(checksum: Hash, w: World, step: TxStep)
    requires DbInv(checksum, w.db) && LocksInv(w) && TxEnabled(w, step)
    ensures var w' := AfterTx(checksum, w, step);
            && DbInv(checksum, w'.db) && LocksInv(w') && Extends(w.db, w'.db)
            && (if step.Commit?
                then Insertable(w.db, w.txs[step.t].draft) && w'.db == Insert(checksum, w.db, w.txs[step.t].draft, step.now)
                else w'.db == w.db)
  {
    if step.Commit? {
      var d := w.txs[step.t].draft;
      assert Insertable(w.db, d);
      InsertKeepsInv(checksum, w.db, d, step.now);
      CommitKeepsLocks(checksum, w, step);
    } else {
      StatementsKeepLocks(checksum, w, step);
    }
  }

  lemma StatementsKeepLocks(checksum: Hash, w: World, step: TxStep)
    requires LocksInv(w) && !step.Commit? && TxEnabled(w, step)
    ensures LocksInv(AfterTx(checksum, w, step)) && AfterTx(checksum, w, step).db == w.db
  {
    match step
    case LockRow(t) => LockKeepsLocks(checksum, w, t);
    case InsertMessage(t) => InsertKeepsLocks(checksum, w, t);
    case UpdateConversation(t) => LaterKeepsLocks(checksum, w, t, step);
    case InsertOutbox(t) => LaterKeepsLocks(checksum, w, t, step);
    case _ =>
  }

  lemma LaterKeepsLocks(checksum: Hash, w: World, t: nat, step: TxStep)
    requires LocksInv(w) && (step == UpdateConversation(t) || step == InsertOutbox(t)) && TxEnabled(w, step)
    ensures LocksInv(AfterTx(checksum, w, step))
  {
  }

  lemma LockKeepsLocks(checksum: Hash, w: World, t: nat)
    requires LocksInv(w) && TxEnabled(w, LockRow(t))
    ensures LocksInv(AfterTx(checksum, w, LockRow(t)))
  {
  }

  lemma InsertKeepsLocks(checksum: Hash, w: World, t: nat)
    requires LocksInv(w) && TxEnabled(w, InsertMessage(t))
    ensures LocksInv(AfterTx(checksum, w, InsertMessage(t)))
  {
  }

  lemma CommitKeepsLocks(checksum: Hash, w: World, step: TxStep)
    requires LocksInv(w) && step.Commit? && TxEnabled(w, step)
    ensures LocksInv(AfterTx(checksum, w, step))
  {
    var w' := AfterTx(checksum, w, step);
    forall t | t in w'.txs && HoldsKeys(w'.txs[t].phase) ensures !HasKey(w'.db, w'.txs[t].draft.key) {
      forall id | id in w'.db.messages ensures !HoldsKey(w'.db, id, w'.txs[t].draft.key) {
        assert id in w.db.messages ==> !HoldsKey(w.db, id, w'.txs[t].draft.key);
      }
    }
  }

  ghost predicate IsTxRun(checksum: Hash, worlds: seq<World>, steps: seq<TxStep>) {
    && |worlds| == |steps| + 1
    && DbInv(checksum, worlds[0].db) && worlds[0].txs == map[]
    && forall i :: 0 <= i < |steps| ==> TxEnabled(worlds[i], steps[i]) && worlds[i + 1] == AfterTx(checksum, worlds[i], steps[i])
  }

  /** The tables are right after every prefix of every interleaving. */
  lemma {:induction false} TxRunKeepsInv(checksum: Hash, worlds: seq<World>, steps: seq<TxStep>, i: nat)
    requires IsTxRun(checksum, worlds, steps) && i < |worlds|
    ensures DbInv(checksum, worlds[i].db) && LocksInv(worlds[i])
    ensures var m := worlds[i].db.messages;
            forall a, b :: a in m && b in m && a != b ==> m[a].key != m[b].key && !(m[a].conv == m[b].conv && m[a].seqNo == m[b].seqNo)
  {
    if i > 0 {
      TxRunKeepsInv(checksum, worlds, steps, i - 1);
      assert worlds[i - 1 + 1] == AfterTx(checksum, worlds[i - 1], steps[i - 1]);
      TransactionsAreAtomic(checksum, worlds[i - 1], steps[i - 1]);
    }
  }

  /** What a Persist call leaves behind, given the tables once the other transactions were done. */
  ghost predicate PersistLeaves(checksum: Hash, mid: Db, after: Db, d: Draft, now: int, ok: bool) {
    && (after == mid || (Insertable(mid, d) && after == Insert(checksum, mid, d, now)))
    && (ok ==> HasKey(after, d.key))
  }

  /** The rows of one transaction, column by column. */
  ghost predicate WritesRows(checksum: Hash, was: Db, after: Db, d: Draft, now: int) {
    && d.conv in was.convs && was.convs[d.conv].open && d.id !in was.messages
    && (forall id :: id in was.messages ==> was.messages[id].key != d.key)
    && var n, shard := was.convs[d.conv].lastSeq + 1, (if d.conv in checksum then checksum[d.conv] else 0) % 1024;
       && after.convs == was.convs[d.conv := Conversation(true, n, Some(d.id))]
       && after.messages == was.messages[d.id := Message(d.id, d.conv, n, d.key, d.content)]
       && after.outbox == was.outbox[d.id := Row(d.conv, n, shard, false, Pending, 0, now, None, None, None)]
  }

  lemma InsertColumns(checksum: Hash, db: Db, d: Draft, now: int)
    requires Insertable(db, d)
    ensures WritesRows(checksum, db, Insert(checksum, db, d, now), d, now)
  {
    forall id | id in db.messages ensures db.messages[id].key != d.key {
      assert !HoldsKey(db, id, d.key);
    }
  }

  // ---- The repository ----

  class MessageRepository {
    const checksum: Hash
    const env: Environment
    var db: Db

    ghost predicate Valid()
      reads this
    {
      DbInv(checksum, db)
    }

    constructor (checksum: Hash, env: Environment)
      ensures this.checksum == checksum && this.env == env && db == Db(map[], map[], map[]) && Valid()
    {
      this.checksum, this.env := checksum, env;
      db := Db(map[], map[], map[]);
    }

    method FindByKey(key: Key) returns (found: Option<Message>)
      requires Valid()
      ensures found.Some? ==> found.value.id in db.messages && db.messages[found.value.id] == found.value && found.value.key == key
      ensures found.None? <==> forall id :: id in db.messages ==> db.messages[id].key != key
    {
      found := None;
      var todo := db.messages.Keys;
      while todo != {}
        invariant todo <= db.messages.Keys
        invariant found.None? ==> forall id :: id in db.messages && HoldsKey(db, id, key) ==> id in todo
        invariant found.Some? ==> exists id :: id in db.messages && HoldsKey(db, id, key) && found.value == db.messages[id]
        decreases todo
      {
        var id := Pick(todo);
        todo := todo - {id};
        if db.messages[id].key == key {
          assert HoldsKey(db, id, key);
          found := Some(db.messages[id]);
        }
      }
    }

    /** Other transactions that commit between two statements of this one. */
    method Others()
      requires Valid()
      modifies this
      ensures Valid() && Extends(old(db), db)
    {
      var more: nat := *;
      while more > 0
        invariant Valid() && Extends(old(db), db)
      {
        more := more - 1;
        var d: Draft, now: int := *, *;
        OtherInsert(d, now);
      }
    }

    method OtherInsert(d: Draft, now: int)
      requires Valid()
      modifies this
      ensures Valid() && Extends(old(db), db)
      ensures db == if Insertable(old(db), d) then Insert(checksum, old(db), d, now) else old(db)
    {
      if d.conv in db.convs && db.convs[d.conv].open && d.id !in db.messages {
        var other := FindByKey(d.key);
        if other.None? {
          InsertKeepsInv(checksum, db, d, now);
          db := Insert(checksum, db, d, now);
        }
      }
    }

    /** The part of the transaction under the row lock. Its writes stay in the transaction's own view until the commit. */
    method PersistLocked(d: Draft, now: int) returns (r: Result<Message, PersistError>)
      requires Valid() && d.conv in db.convs && db.convs[d.conv].open
      modifies this, env
      ensures db == old(db) || (Insertable(old(db), d) && db == Insert(checksum, old(db), d, now))
      ensures db == old(db) || WritesRows(checksum, old(db), db, d, now)
      ensures Valid() && Extends(old(db), db) && old(env.failures) <= env.failures
      ensures r.Ok? && db != old(db) ==> r.value == MessageOf(d, old(db).convs[d.conv].lastSeq + 1)
      ensures r.Ok? ==> r.value.id in db.messages && db.messages[r.value.id] == r.value && r.value.key == d.key
      ensures env.failures == old(env.failures) ==> (r.Ok? <==> HasKey(old(db), d.key) || d.id !in old(db).messages)
    {
      var view := db;
      var nextSeq := view.convs[d.conv].lastSeq + 1;
      var holder := FindByKey(d.key);
      if d.id in view.messages || holder.Some? {
        // A duplicate key: roll back and look the holder of the idempotency key up.
        var failed := env.Fails();
        r := if holder.Some? && !failed then Ok(holder.value) else Err(Internal);
        return;
      }
      view := view.(messages := view.messages[d.id := Message(d.id, d.conv, nextSeq, d.key, d.content)]);
      view := view.(convs := view.convs[d.conv := view.convs[d.conv].(lastSeq := nextSeq, lastMessageId := Some(d.id))]);
      view := view.(outbox := view.outbox[d.id := NewRow(d.conv, nextSeq, ShardId(checksum, d.conv), false, now)]);
      var lost := env.Fails();
      var landed := *;
      if lost && !landed {
        r := Err(Internal);
        return;
      }
      InsertKeepsInv(checksum, db, d, now);
      InsertColumns(checksum, db, d, now);
      assert view == Insert(checksum, db, d, now);
      db := view;
      r := if lost then Err(Internal) else Ok(Message(d.id, d.conv, nextSeq, d.key, d.content));
    }

    /** Persist. A successful call returns the row that holds its key, new or already there. A failed call left
        no trace, or committed and lost the reply. `mid` is the tables once the other transactions were done. Unless
        a statement or the commit reported an error, the call fails only for a conversation that is missing or
        closed, or a message id that another key has taken. */
    method Persist(d: Draft, now: int) returns (r: Result<Message, PersistError>, ghost mid: Db)
      requires Valid()
      modifies this, env
      ensures Valid() && Extends(old(db), mid) && Extends(mid, db) && old(env.failures) <= env.failures
      ensures PersistLeaves(checksum, mid, db, d, now, r.Ok?)
      ensures db == mid || WritesRows(checksum, mid, db, d, now)
      ensures r.Ok? && db != mid ==> r.value == MessageOf(d, mid.convs[d.conv].lastSeq + 1)
      ensures r.Ok? ==> r.value.id in db.messages && db.messages[r.value.id] == r.value && r.value.key == d.key
      ensures (exists id :: id in old(db).messages && old(db).messages[id].key == d.key) ==> db == old(db)
      ensures env.failures == old(env.failures) ==>
                (r.Ok? <==> || (exists id :: id in old(db).messages && old(db).messages[id].key == d.key)
                            || (d.conv in mid.convs && mid.convs[d.conv].open
                                && (d.id !in mid.messages || exists id :: id in mid.messages && mid.messages[id].key == d.key)))
    {
      mid := db;
      var lost := env.Fails();
      if lost {
        r := Err(Internal);
        return;
      }
      var existing := FindByKey(d.key);
      if existing.Some? {
        assert HoldsKey(db, existing.value.id, d.key);
        r := Ok(existing.value);
        return;
      }
      Others();
      mid := db;
      if d.conv !in db.convs || !db.convs[d.conv].open {
        r := Err(Internal);
        return;
      }
      r := PersistLocked(d, now);
      assert r.Ok? ==> HoldsKey(db, r.value.id, d.key);
    }
  }
}

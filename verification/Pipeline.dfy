/**
  The whole way of a message, from Send to the push partitions: the machine of module Ingress writes the
  message tables, the machine of module OutboxProtocol claims and moves the outbox rows of the same tables,
  and each sees at once what the other did.
*/
module Pipeline {
  import opened Common
  import opened MessageStore
  import Ingress
  import Outbox = OutboxProtocol
  import OutboxRows
  import OutboxRuns

  datatype Config = Config(ingress: Ingress.Config, outbox: Outbox.Config)

  ghost predicate ValidConfig(cfg: Config) {
    Outbox.ValidConfig(cfg.outbox) && cfg.outbox.checksum == cfg.ingress.checksum
  }

  datatype State = State(front: Ingress.State, back: Outbox.State)

  datatype Action = Front(act: Ingress.Action) | Back(move: Outbox.Action)

  /** The draft that a front action turns into a row, if it does. */
  function Inserted(s: Ingress.State, act: Ingress.Action): Option<Draft> {
    if (act.PersistOk? || (act.PersistFault? && act.committedAnyway)) && act.c in s.consumers
       && s.consumers[act.c].stage.Persisting? && Insertable(s.db, s.consumers[act.c].stage.draft)
    then Some(s.consumers[act.c].stage.draft)
    else None
  }

  /** Rows and conversations come from the front only, and no row is stamped with a time yet to come. */
  ghost predicate Enabled(cfg: Config, s: State, action: Action) {
    match action
    case Front(act) => Ingress.Enabled(cfg.ingress, s.front, act) && (Inserted(s.front, act).Some? ==> act.now <= s.back.clock)
    case Back(move) => Outbox.Enabled(cfg.outbox, s.back, move) && !move.Persist? && !move.OpenConversation?
  }

  ghost function After(cfg: Config, s: State, action: Action): State
    requires Enabled(cfg, s, action)
  {
    match action
    case Front(act) =>
      var front := Ingress.After(cfg.ingress, s.front, act);
      State(front, s.back.(rows := front.db.outbox, last := LastSeqs(front.db)))
    case Back(move) =>
      var back := Outbox.After(cfg.outbox, s.back, move);
      State(s.front.(db := s.front.db.(outbox := back.rows)), back)
  }

  ghost predicate Initial(cfg: Config, s: State) {
    Ingress.Initial(cfg.ingress, s.front) && Outbox.Initial(s.back)
  }

  datatype Run = Begun(state: State) | Then(before: Run, action: Action, state: State)

  ghost predicate IsRun(cfg: Config, run: Run) {
    match run
    case Begun(s) => Initial(cfg, s)
    case Then(before, action, s) => IsRun(cfg, before) && Enabled(cfg, before.state, action) && s == After(cfg, before.state, action)
  }

  ghost predicate Linked(s: State) {
    s.back.rows == s.front.db.outbox && s.back.last == LastSeqs(s.front.db)
  }

  ghost predicate Inv(cfg: Config, s: State) {
    Ingress.Inv(cfg.ingress, s.front) && Outbox.Inv(cfg.outbox, s.back) && Linked(s)
  }

  // ---- What one side does is a step of the other, or leaves it alone ----

  /** What the outbox machine sees of a front action. */
  function Mirror(s: State, act: Ingress.Action): Outbox.Action {
    match Inserted(s.front, act)
    case Some(d) => Outbox.Persist(d.id, d.conv, false, act.now)
    case None => if act.NewConversation? then Outbox.OpenConversation(act.conv) else Outbox.Tick(s.back.clock)
  }

  lemma OnlyInsertsShow(cfg: Ingress.Config, s: Ingress.State, act: Ingress.Action)
    requires Ingress.Enabled(cfg, s, act)
    ensures var s' := Ingress.After(cfg, s, act);
            match Inserted(s, act)
            case Some(d) => Insertable(s.db, d) && s'.db == Insert(cfg.checksum, s.db, d, act.now)
            case None =>
              && s'.db.outbox == s.db.outbox
              && LastSeqs(s'.db) == if act.NewConversation? then LastSeqs(s.db)[act.conv := 0] else LastSeqs(s.db)
  {
    if Inserted(s, act).None? && !act.NewConversation? && !act.Close? {
      TablesStay(cfg, s, act);
    }
  }

  lemma TablesStay(cfg: Ingress.Config, s: Ingress.State, act: Ingress.Action)
    requires Ingress.Enabled(cfg, s, act) && Inserted(s, act).None? && !act.NewConversation? && !act.Close?
    ensures Ingress.After(cfg, s, act).db == s.db
  {
    if Ingress.BySender(act) {
      SendersLeaveTables(cfg, s, act);
    }
  }

  lemma SendersLeaveTables(cfg: Ingress.Config, s: Ingress.State, act: Ingress.Action)
    requires Ingress.Enabled(cfg, s, act) && Ingress.BySender(act)
    ensures Ingress.AfterSend(cfg, s, act).db == s.db
  {
  }

  /** Every front action, whatever it does to the tables, is a step of the outbox machine. */
  lemma FrontIsOutboxStep(cfg: Config, s: State, act: Ingress.Action)
    requires ValidConfig(cfg) && DbInv(cfg.ingress.checksum, s.front.db) && Linked(s) && Enabled(cfg, s, Front(act))
    ensures Outbox.Step(cfg.outbox, s.back, Mirror(s, act), After(cfg, s, Front(act)).back)
  {
    OnlyInsertsShow(cfg.ingress, s.front, act);
    var found := Inserted(s.front, act);
    if found.Some? {
      InsertIsOutboxStep(cfg.outbox, s.front.db, found.value, act.now, s.back);
    }
  }

  lemma MovesKeepKeys(cfg: Outbox.Config, s: Outbox.State, move: Outbox.Action)
    requires Outbox.ValidConfig(cfg) && Outbox.Inv(cfg, s) && Outbox.Enabled(cfg, s, move) && !move.Persist?
    ensures Outbox.After(cfg, s, move).rows.Keys == s.rows.Keys
    ensures !move.OpenConversation? ==> Outbox.After(cfg, s, move).last == s.last
  {
  }

  /** The other way round, claims, fenced updates and crashes keep outbox rows and messages in step. */
  lemma OutboxStepsKeepTables(cfg: Outbox.Config, s: Outbox.State, move: Outbox.Action, s': Outbox.State, db: Db)
    requires Outbox.ValidConfig(cfg) && Outbox.Inv(cfg, s) && Outbox.Step(cfg, s, move, s') && !move.Persist?
    requires s.rows == db.outbox && DbInv(cfg.checksum, db)
    ensures DbInv(cfg.checksum, db.(outbox := s'.rows))
  {
    OutboxRuns.StepMovesForward(cfg, s, move, s');
    MovesKeepKeys(cfg, s, move);
    RowsStayQueued(cfg.checksum, db, s'.rows);
    SeqsCoveredAside(db, s'.rows);
    OutboxAside(db, s'.rows);
  }

  lemma RowsStayQueued(checksum: Hash, db: Db, rows: OutboxRows.Table)
    requires QueuedInv(checksum, db) && Outbox.TableMoves(db.outbox, rows) && rows.Keys == db.outbox.Keys
    ensures QueuedInv(checksum, db.(outbox := rows))
  {
    forall id | id in db.messages
      ensures rows[id].conv == db.outbox[id].conv && rows[id].seqNo == db.outbox[id].seqNo && rows[id].shard == db.outbox[id].shard
    {
      assert Outbox.RowMoves(db.outbox[id], rows[id]);
    }
  }

  lemma OutboxAside(db: Db, rows: OutboxRows.Table)
    requires RowsFit(db) && SlotsDistinct(db) && LastNamed(db) && KeysInv(db)
    ensures var db' := db.(outbox := rows); RowsFit(db') && SlotsDistinct(db') && LastNamed(db') && KeysInv(db')
  {
  }

  lemma SeqsCoveredAside(db: Db, rows: OutboxRows.Table)
    requires SeqsCovered(db)
    ensures SeqsCovered(db.(outbox := rows))
  {
    var db' := db.(outbox := rows);
    forall c, n | c in db'.convs && 1 <= n <= db'.convs[c].lastSeq ensures HasMessage(db', c, n) {
      assert HasMessage(db, c, n);
    }
  }

  /** Nothing else in the front looks at the outbox rows. */
  lemma BackKeepsFront(cfg: Config, s: State, move: Outbox.Action)
    requires ValidConfig(cfg) && Inv(cfg, s) && Enabled(cfg, s, Back(move))
    ensures Ingress.Inv(cfg.ingress, After(cfg, s, Back(move)).front)
  {
    var s' := After(cfg, s, Back(move));
    OutboxStepsKeepTables(cfg.outbox, s.back, move, s'.back, s.front.db);
    OutboxRowsApart(cfg.ingress, s.front, s'.front, s'.back.rows);
  }

  lemma OutboxRowsApart(cfg: Ingress.Config, s: Ingress.State, s': Ingress.State, rows: OutboxRows.Table)
    requires Ingress.Inv(cfg, s) && s' == s.(db := s.db.(outbox := rows)) && DbInv(cfg.checksum, s'.db)
    ensures Ingress.Inv(cfg, s')
  {
    GrowsApart(s, rows);
    AcceptApart(s, rows);
    Ingress.KeepsConsume(s, s');
    Ingress.KeepsSources(cfg, s, s');
  }

  lemma GrowsApart(s: Ingress.State, rows: OutboxRows.Table)
    ensures Ingress.Grows(s, s.(db := s.db.(outbox := rows)))
  {
  }

  lemma AcceptApart(s: Ingress.State, rows: OutboxRows.Table)
    requires Ingress.AcceptInv(s)
    ensures Ingress.AcceptInv(s.(db := s.db.(outbox := rows)))
  {
  }

  lemma {:induction false} StepKeepsInv(cfg: Config, s: State, action: Action)
    requires ValidConfig(cfg) && Inv(cfg, s) && Enabled(cfg, s, action)
    ensures Inv(cfg, After(cfg, s, action))
  {
    var s' := After(cfg, s, action);
    match action
    case Front(act) =>
      Ingress.StepKeepsInv(cfg.ingress, s.front, act, s'.front);
      FrontIsOutboxStep(cfg, s, act);
      Outbox.StepKeepsInv(cfg.outbox, s.back, Mirror(s, act), s'.back);
    case Back(move) =>
      BackKeepsFront(cfg, s, move);
      Outbox.StepKeepsInv(cfg.outbox, s.back, move, s'.back);
      MovesKeepKeys(cfg.outbox, s.back, move);
  }

  lemma InitialOutboxInv(cfg: Outbox.Config, s: Outbox.State)
    requires Outbox.Initial(s)
    ensures Outbox.Inv(cfg, s)
  {
  }

  lemma InitialLinked(cfg: Config, s: State)
    requires Initial(cfg, s)
    ensures Linked(s)
  {
  }

  lemma {:induction false} InitialInv(cfg: Config, s: State)
    requires Initial(cfg, s)
    ensures Inv(cfg, s)
  {
    Ingress.InitialInv(cfg.ingress, s.front);
    InitialOutboxInv(cfg.outbox, s.back);
    InitialLinked(cfg, s);
  }

  lemma {:induction false} RunKeepsInv(cfg: Config, run: Run)
    requires ValidConfig(cfg) && IsRun(cfg, run)
    ensures Inv(cfg, run.state)
    decreases run
  {
    match run
    case Begun(s) => InitialInv(cfg, s);
    case Then(before, action, s) =>
      RunKeepsInv(cfg, before);
      StepKeepsInv(cfg, before.state, action);
  }

  // ---- Order from the inbox log to the push log ----

  ghost predicate AppendsSafe(run: Run) {
    match run
    case Begun(_) => true
    case Then(before, _, s) => AppendsSafe(before) && OutboxRuns.SafeAppend(before.state.back, s.back)
  }

  ghost predicate AppendsFenced(run: Run) {
    match run
    case Begun(_) => true
    case Then(before, _, s) => AppendsFenced(before) && OutboxRuns.FencedAppend(before.state.back, s.back)
  }

  lemma StepIsOutboxStep(cfg: Config, s: State, action: Action) returns (move: Outbox.Action)
    requires ValidConfig(cfg) && Inv(cfg, s) && Enabled(cfg, s, action)
    ensures Outbox.Step(cfg.outbox, s.back, move, After(cfg, s, action).back)
  {
    match action
    case Front(act) =>
      FrontIsOutboxStep(cfg, s, act);
      move := Mirror(s, act);
    case Back(m) =>
      move := m;
  }

  lemma {:induction false} OrderIff(cfg: Config, run: Run)
    requires ValidConfig(cfg) && IsRun(cfg, run)
    ensures OutboxRuns.OrderedPerConversation(run.state.back.pushes) <==> AppendsSafe(run)
    decreases run
  {
    if run.Then? {
      OrderIff(cfg, run.before);
      RunKeepsInv(cfg, run.before);
      var move := StepIsOutboxStep(cfg, run.before.state, run.action);
      OutboxRuns.StepOrderIff(cfg.outbox, run.before.state.back, move, run.state.back);
    }
  }

  lemma {:induction false} FencedRunsAreSafe(cfg: Config, run: Run)
    requires ValidConfig(cfg) && IsRun(cfg, run) && AppendsFenced(run)
    ensures AppendsSafe(run)
    decreases run
  {
    if run.Then? {
      FencedRunsAreSafe(cfg, run.before);
      RunKeepsInv(cfg, run.before);
      OutboxRuns.FencedIsSafe(cfg.outbox, run.before.state.back, run.state.back);
    }
  }

  type Messages = map<MessageId, Message>

  /** Every push of message a stands before every push of message b. */
  ghost predicate PushedBefore(pushes: seq<Outbox.Push>, a: MessageId, b: MessageId) {
    forall i, j :: 0 <= i < |pushes| && 0 <= j < |pushes| && pushes[i].tag.id == a && pushes[j].tag.id == b ==> i < j
  }

  predicate Names(m: Messages, p: Outbox.Push) {
    p.tag.id in m && p.conv == m[p.tag.id].conv && p.seqNo == m[p.tag.id].seqNo
  }

  ghost predicate AllNamed(m: Messages, pushes: seq<Outbox.Push>) {
    forall k :: 0 <= k < |pushes| ==> Names(m, pushes[k])
  }

  predicate InSeqOrder(a: Message, b: Message) {
    a.conv == b.conv && a.seqNo < b.seqNo
  }

  /** Every conversation reaches the push log in the order of its seqs. */
  ghost predicate PushedInSeqOrder(m: Messages, pushes: seq<Outbox.Push>) {
    forall a, b :: a in m && b in m && InSeqOrder(m[a], m[b]) ==> PushedBefore(pushes, a, b)
  }

  /** Every push carries the conversation and the seq of a stored message. */
  lemma PushesNameMessages(cfg: Config, s: State)
    requires Inv(cfg, s)
    ensures AllNamed(s.front.db.messages, s.back.pushes)
  {
    forall k | 0 <= k < |s.back.pushes| ensures Names(s.front.db.messages, s.back.pushes[k]) {
      assert Outbox.PushRecordOk(s.back.rows, s.back.routes, s.back.pushes[k]);
    }
  }

  lemma OrderedLogIff(m: Messages, pushes: seq<Outbox.Push>)
    requires AllNamed(m, pushes)
    ensures OutboxRuns.OrderedPerConversation(pushes) <==> PushedInSeqOrder(m, pushes)
  {
    if OutboxRuns.OrderedPerConversation(pushes) {
      forall a, b | a in m && b in m && InSeqOrder(m[a], m[b]) ensures PushedBefore(pushes, a, b) {
        OrderedLogOrders(m, pushes, a, b);
      }
    } else {
      var i, j :| 0 <= i < j < |pushes| && pushes[i].conv == pushes[j].conv && pushes[j].seqNo < pushes[i].seqNo;
      assert Names(m, pushes[i]) && Names(m, pushes[j]);
      assert InSeqOrder(m[pushes[j].tag.id], m[pushes[i].tag.id]) && !PushedBefore(pushes, pushes[j].tag.id, pushes[i].tag.id);
    }
  }

  lemma OrderedLogOrders(m: Messages, pushes: seq<Outbox.Push>, a: MessageId, b: MessageId)
    requires AllNamed(m, pushes) && OutboxRuns.OrderedPerConversation(pushes)
    requires a in m && b in m && InSeqOrder(m[a], m[b])
    ensures PushedBefore(pushes, a, b)
  {
    forall i, j | 0 <= i < |pushes| && 0 <= j < |pushes| && pushes[i].tag.id == a && pushes[j].tag.id == b ensures i < j {
      assert Names(m, pushes[i]) && Names(m, pushes[j]);
    }
  }

  /** Messages are pushed in the order of their seqs exactly in the runs whose appends were all safe, whatever the
      front does meanwhile. */
  lemma PushedInSeqOrderIff(cfg: Config, run: Run)
    requires ValidConfig(cfg) && IsRun(cfg, run)
    ensures PushedInSeqOrder(run.state.front.db.messages, run.state.back.pushes) <==> AppendsSafe(run)
  {
    RunKeepsInv(cfg, run);
    OrderIff(cfg, run);
    PushesNameMessages(cfg, run.state);
    OrderedLogIff(run.state.front.db.messages, run.state.back.pushes);
  }

  /** Order from end to end: if no append is late, then of two messages of a conversation, whichever has a record
      in the inbox log before every record of the other is pushed before it, on every partition and however
      often either record is redelivered and either push retried. */
  lemma EndToEndOrder(cfg: Config, run: Run, a: MessageId, b: MessageId, o: nat)
    requires ValidConfig(cfg) && IsRun(cfg, run) && AppendsSafe(run)
    requires a in run.state.front.db.messages && b in run.state.front.db.messages
    requires run.state.front.db.messages[a].conv == run.state.front.db.messages[b].conv
    requires Ingress.ComesFirst(cfg.ingress, run.state.front, run.state.front.db.messages[a], run.state.front.db.messages[b], o)
    ensures PushedBefore(run.state.back.pushes, a, b)
  {
    RunKeepsInv(cfg, run);
    PushedInSeqOrderIff(cfg, run);
    Ingress.ComesFirstOrdersSeqs(cfg.ingress, run.state.front, a, b, o);
  }

  // ---- Nothing is lost on the way ----

  /** Where a record that is behind the committed offset has got to. */
  ghost predicate Accounted(s: State, p: nat, o: nat) {
    || (p, o) in s.front.dlq
    || exists id ::
         && Ingress.RowOf(s.front, p, o, id)
         && id in s.back.rows
         && (s.back.rows[id].status.Published? ==> Outbox.PublishedInFull(s.back, id))
         && (s.back.rows[id].status.Dead? ==> Outbox.DeadLettered(s.back.dlq, id))
  }

  /** Nothing is lost from end to end: a record behind the committed offset is named by a dead-letter record, or
      its message has an outbox row, which ends as Published only with every partition of a route lookup
      written, and as Dead only with a dead letter. */
  lemma NothingIsLost(cfg: Config, run: Run, p: nat, o: nat)
    requires ValidConfig(cfg) && IsRun(cfg, run) && p < |run.state.front.committed| && o < run.state.front.committed[p]
    ensures Accounted(run.state, p, o)
  {
    RunKeepsInv(cfg, run);
    var s := run.state;
    assert Ingress.HandledBelow(s.front.inbox, s.front.dlq, s.front.db, p, s.front.committed[p]);
    assert Ingress.Handled(s.front.inbox, s.front.dlq, s.front.db, p, o);
    if (p, o) !in s.front.dlq {
      var raw := s.front.inbox[p][o].raw;
      var id :| id in s.front.db.messages && s.front.db.messages[id].key.sender == raw.sender && s.front.db.messages[id].key.uuid == raw.uuid;
      assert Ingress.RowOf(s.front, p, o, id) && id in s.back.rows;
    }
  }
}

/**
  The outbox delivery protocol as a state machine: any number of publishers claim conversation heads
  under a lease, look up routes, append to push partitions, and apply fenced transitions. Owners may
  stall past their lease and act later, crash, or lose the reply to an update that took effect.
  Every single statement against the table and every append to a log is one step.
  */
module OutboxProtocol {
  import opened Common
  import opened OutboxRows
  import opened Shards

  /** One route lookup: for each push partition the users to reach through it. */
  type Targets = map<int, seq<UserId>>

  datatype Config = Config(checksum: Hash, maxRetries: int, backoff: int, lease: int)

  ghost predicate ValidConfig(cfg: Config) {
    0 < cfg.maxRetries && 0 < cfg.backoff && 0 < cfg.lease
  }

  /** An attempt is one claim of one row. */
  datatype Tag = Tag(claim: nat, id: MessageId)

  /** Where a worker stands inside publishOne, markFailed and publishDLQ. */
  datatype Phase =
    | Route
    | Publish(targets: Targets, done: set<int>)
    | FailRead
    | FailWrite(retries: nat, now: int)
    | DlqPublish
    | DlqBackoff
    | DlqMark

  datatype Attempt = Attempt(owner: Owner, retryCount: nat, phase: Phase)

  datatype Push = Push(tag: Tag, owner: Owner, conv: ConvId, seqNo: int, partition: int, users: seq<UserId>)

  datatype DeadLetter = DeadLetter(tag: Tag, retryCount: nat)

  /** `routes`, `via`, `failures` and `failedAt` are history: the answer of each route lookup, the attempt
      that published a row, and the MarkFailed updates that were applied. No step reads them. */
  datatype State = State(
    clock: int, last: map<ConvId, nat>, rows: Table,
    attempts: map<Tag, Attempt>, claims: nat,
    pushes: seq<Push>, dlq: seq<DeadLetter>,
    routes: map<Tag, Targets>, via: map<MessageId, Tag>,
    failures: multiset<MessageId>, failedAt: map<MessageId, int>)

  /** What one worker does next, with the answer it got from outside. */
  datatype Act =
    | RouteOk(found: Targets)
    | RouteErr
    | PushOk(partition: int)
    | PushErr(partition: int, landed: bool)  // an error does not tell whether the record was appended
    | MarkPublished(at: int)
    | ReadRetries(at: int, seen: Option<nat>)
    | WriteFailed(jitter: int, applied: bool, needsDlq: bool)
    | DlqOk
    | DlqErr(landed: bool)
    | RetryDlq(at: int)
    | MarkDead

  datatype Action =
    | Tick(to: int)
    | OpenConversation(conv: ConvId)
    | Persist(id: MessageId, conv: ConvId, corrupt: bool, now: int)
    | Claim(owner: Owner, now: int, ids: set<MessageId>)
    | Work(tag: Tag, act: Act)
    | Drop(tag: Tag)  // a crash, a cancelled context, or an update whose reply was an error

  datatype Next = Illegal | Done | Goto(phase: Phase)

  /** The control flow of a worker, independent of the shared state. */
  function NextPhase(phase: Phase, act: Act): Next {
    match (phase, act)
    case (Route, RouteOk(found)) => Goto(Publish(found, {}))
    case (Route, RouteErr) => Goto(FailRead)
    case (Publish(targets, done), PushOk(p)) =>
      if p in targets && p !in done then Goto(Publish(targets, done + {p})) else Illegal
    case (Publish(targets, done), PushErr(p, _)) =>
      if p in targets && p !in done then Goto(FailRead) else Illegal
    case (Publish(targets, done), MarkPublished(_)) => if done == targets.Keys then Done else Illegal
    case (FailRead, ReadRetries(now, seen)) => if seen.Some? then Goto(FailWrite(seen.value, now)) else Done
    case (FailWrite(_, _), WriteFailed(_, applied, needsDlq)) =>
      if needsDlq && !applied then Illegal else if needsDlq then Goto(DlqPublish) else Done
    case (DlqPublish, DlqOk) => Goto(DlqMark)
    case (DlqPublish, DlqErr(_)) => Goto(DlqBackoff)
    case (DlqBackoff, RetryDlq(_)) => Done
    case (DlqMark, MarkDead) => Done
    case _ => Illegal
  }

  function StartPhase(status: Status): Phase {
    if status.DlqPending? then DlqPublish else Route
  }

  predicate Fenced(rows: Table, id: MessageId, owner: Owner) {
    id in rows && rows[id].lockedBy == Some(owner)
  }

  predicate FencedDlq(rows: Table, id: MessageId, owner: Owner) {
    Fenced(rows, id, owner) && rows[id].status.DlqPending?
  }

  ghost predicate ActEnabled(cfg: Config, s: State, tag: Tag, act: Act)
    requires tag in s.attempts
  {
    var a := s.attempts[tag];
    && !NextPhase(a.phase, act).Illegal?
    && match act
       case MarkPublished(now) => now <= s.clock
       case ReadRetries(now, seen) =>
         && now <= s.clock
         && seen == (if Fenced(s.rows, tag.id, a.owner) then Some(s.rows[tag.id].retryCount) else None)
       case WriteFailed(jitter, applied, needsDlq) =>
         && ValidJitter(Delay(cfg.backoff, a.phase.retries + 1), jitter)
         && applied == Fenced(s.rows, tag.id, a.owner)
         && needsDlq == (applied && a.phase.retries + 1 >= cfg.maxRetries)
       case RetryDlq(now) => now <= s.clock
       case _ => true
  }

  function RowsAfter(cfg: Config, rows: Table, id: MessageId, a: Attempt, act: Act): Table {
    match act
    case MarkPublished(now) => if Fenced(rows, id, a.owner) then rows[id := PublishedRow(rows[id], now)] else rows
    case WriteFailed(jitter, _, _) =>
      if Fenced(rows, id, a.owner) && a.phase.FailWrite?
      then rows[id := FailedRow(rows[id], a.phase.retries, cfg.maxRetries, cfg.backoff, cfg.lease, a.owner, a.phase.now, jitter)]
      else rows
    case RetryDlq(now) => if FencedDlq(rows, id, a.owner) then rows[id := DlqRetriedRow(rows[id], now, cfg.backoff)] else rows
    case MarkDead => if FencedDlq(rows, id, a.owner) then rows[id := DeadRow(rows[id])] else rows
    case _ => rows
  }

  function AttemptsAfter(attempts: map<Tag, Attempt>, tag: Tag, act: Act): map<Tag, Attempt>
    requires tag in attempts
  {
    var a := attempts[tag];
    match NextPhase(a.phase, act)
    case Goto(phase) =>
      attempts[tag := a.(phase := phase, retryCount := if act.WriteFailed? then a.retryCount + 1 else a.retryCount)]
    case _ => attempts - {tag}
  }

  function PushOf(rows: Table, tag: Tag, a: Attempt, partition: int): Push
    requires tag.id in rows && a.phase.Publish? && partition in a.phase.targets
  {
    Push(tag, a.owner, rows[tag.id].conv, rows[tag.id].seqNo, partition, a.phase.targets[partition])
  }

  function PushesAfter(s: State, tag: Tag, act: Act): seq<Push>
    requires tag in s.attempts
  {
    var a := s.attempts[tag];
    if (act.PushOk? || (act.PushErr? && act.landed)) && tag.id in s.rows && a.phase.Publish? && act.partition in a.phase.targets
    then s.pushes + [PushOf(s.rows, tag, a, act.partition)]
    else s.pushes
  }

  function DlqAfter(s: State, tag: Tag, act: Act): seq<DeadLetter>
    requires tag in s.attempts
  {
    if act.DlqOk? || (act.DlqErr? && act.landed) then s.dlq + [DeadLetter(tag, s.attempts[tag].retryCount)] else s.dlq
  }

  function AfterAct(cfg: Config, s: State, tag: Tag, act: Act): State
    requires tag in s.attempts
  {
    var a := s.attempts[tag];
    var failed := act.WriteFailed? && a.phase.FailWrite? && Fenced(s.rows, tag.id, a.owner);
    s.(rows := RowsAfter(cfg, s.rows, tag.id, a, act),
       attempts := AttemptsAfter(s.attempts, tag, act),
       pushes := PushesAfter(s, tag, act),
       dlq := DlqAfter(s, tag, act),
       routes := if act.RouteOk? then s.routes[tag := act.found] else s.routes,
       via := if act.MarkPublished? && Fenced(s.rows, tag.id, a.owner) then s.via[tag.id := tag] else s.via,
       failures := if failed then s.failures + multiset{tag.id} else s.failures,
       failedAt := if failed then s.failedAt[tag.id := a.phase.now] else s.failedAt)
  }

  function NewAttempts(rows: Table, claim: nat, owner: Owner, ids: set<MessageId>): map<Tag, Attempt>
    requires forall id :: id in ids ==> id in rows
  {
    map id | id in ids :: Tag(claim, id) := Attempt(owner, rows[id].retryCount, StartPhase(ClaimedStatus(rows[id])))
  }

  /** An owner claims only after all of its previous attempts have ended: dispatch joins its goroutines. */
  ghost predicate Idle(s: State, owner: Owner) {
    forall t :: t in s.attempts ==> s.attempts[t].owner != owner
  }

  ghost predicate Enabled(cfg: Config, s: State, action: Action) {
    match action
    case Tick(to) => s.clock <= to
    case OpenConversation(conv) => conv !in s.last
    case Persist(id, conv, _, now) => id !in s.rows && conv in s.last && now <= s.clock
    case Claim(owner, now, ids) =>
      && now <= s.clock
      && Idle(s, owner)
      && forall id :: id in ids ==>
           id in s.rows && IsHead(s.rows, s.rows[id].shard, s.rows[id].conv, id) && s.rows[id].nextRetryAt <= now
    case Work(tag, act) => tag in s.attempts && ActEnabled(cfg, s, tag, act)
    case Drop(tag) => tag in s.attempts
  }

  ghost function After(cfg: Config, s: State, action: Action): State
    requires Enabled(cfg, s, action)
  {
    match action
    case Tick(to) => s.(clock := to)
    case OpenConversation(conv) => s.(last := s.last[conv := 0])
    case Persist(id, conv, corrupt, now) =>
      var seqNo := s.last[conv] + 1;
      s.(last := s.last[conv := seqNo], rows := s.rows[id := NewRow(conv, seqNo, ShardId(cfg.checksum, conv), corrupt, now)])
    case Claim(owner, now, ids) =>
      s.(rows := ClaimRows(s.rows, ids, owner, now, cfg.lease),
         attempts := s.attempts + NewAttempts(s.rows, s.claims, owner, ids),
         claims := s.claims + 1)
    case Work(tag, act) => AfterAct(cfg, s, tag, act)
    case Drop(tag) => s.(attempts := s.attempts - {tag})
  }

  ghost predicate Step(cfg: Config, s: State, action: Action, s': State) {
    Enabled(cfg, s, action) && s' == After(cfg, s, action)
  }

  ghost predicate Initial(s: State) {
    && s.rows == map[] && s.last == map[] && s.attempts == map[] && s.pushes == [] && s.dlq == []
    && s.routes == map[] && s.via == map[] && s.failures == multiset{} && s.failedAt == map[]
  }

  ghost predicate IsRun(cfg: Config, states: seq<State>, actions: seq<Action>) {
    && |states| == |actions| + 1
    && Initial(states[0])
    && forall i :: 0 <= i < |actions| ==> Step(cfg, states[i], actions[i], states[i + 1])
  }

  // ---- The invariant ----

  ghost predicate RowOk(cfg: Config, r: Row) {
    && 1 <= r.seqNo
    && r.shard == ShardId(cfg.checksum, r.conv)
    && (r.lockedBy.Some? ==> r.status.Retrying? || r.status.DlqPending?)
    && (r.lockedBy.Some? <==> r.lockedAt.Some?)
    && (r.publishedAt.Some? <==> r.status.Published?)
    && (r.status.Pending? ==> r.retryCount == 0)
    && r.retryCount <= cfg.maxRetries
    && (r.status.Pending? || r.status.Retrying? || r.status.Published? ==> r.retryCount < cfg.maxRetries)
  }

  ghost predicate HasSeq(rows: Table, conv: ConvId, seqNo: int) {
    exists id :: id in rows && rows[id].conv == conv && rows[id].seqNo == seqNo
  }

  predicate Before(a: Row, b: Row) {
    a.conv == b.conv && a.seqNo < b.seqNo
  }

  /** Nothing after a row moves before that row is terminal. */
  ghost predicate HeadOfLine(rows: Table) {
    forall a, b :: a in rows && b in rows && Before(rows[a], rows[b]) && !rows[b].status.Pending? ==> Terminal(rows[a])
  }

  ghost predicate RowsInv(cfg: Config, rows: Table, last: map<ConvId, nat>) {
    && (forall id :: id in rows ==> RowOk(cfg, rows[id]) && rows[id].conv in last && rows[id].seqNo <= last[rows[id].conv])
    && (forall c, n :: c in last && 1 <= n <= last[c] ==> HasSeq(rows, c, n))
    && DistinctSeqs(rows)
    && HeadOfLine(rows)
  }

  ghost predicate Written(pushes: seq<Push>, tag: Tag, partition: int, users: seq<UserId>) {
    exists k :: 0 <= k < |pushes| && pushes[k].tag == tag && pushes[k].partition == partition && pushes[k].users == users
  }

  ghost predicate DeadLettered(dlq: seq<DeadLetter>, id: MessageId) {
    exists k :: 0 <= k < |dlq| && dlq[k].tag.id == id
  }

  ghost predicate AllWritten(pushes: seq<Push>, tag: Tag, targets: Targets, done: set<int>) {
    forall p :: p in done ==> p in targets && Written(pushes, tag, p, targets[p])
  }

  predicate InDlqPhase(phase: Phase) {
    phase.DlqPublish? || phase.DlqBackoff? || phase.DlqMark?
  }

  /** The row has been moved to the dead-letter path for good. */
  predicate OnDlqPath(r: Row) {
    r.status.DlqPending? || r.status.Dead?
  }

  ghost predicate AttemptOk(rows: Table, clock: int, pushes: seq<Push>, dlq: seq<DeadLetter>, routes: map<Tag, Targets>,
                            tag: Tag, a: Attempt) {
    && tag.id in rows
    && !rows[tag.id].status.Pending?
    && (rows[tag.id].lockedBy == Some(a.owner) ==>
          && rows[tag.id].retryCount == a.retryCount
          && (InDlqPhase(a.phase) || rows[tag.id].status.Retrying?)
          && (a.phase.FailWrite? ==> a.phase.retries == a.retryCount))
    && (InDlqPhase(a.phase) ==> OnDlqPath(rows[tag.id]) && rows[tag.id].retryCount == a.retryCount)
    && (a.phase.FailWrite? ==> a.phase.now <= clock)
    && (a.phase.Route? ==> tag !in routes)
    && (a.phase.Publish? ==> tag in routes && routes[tag] == a.phase.targets && AllWritten(pushes, tag, a.phase.targets, a.phase.done))
    && (a.phase.DlqMark? ==> DeadLettered(dlq, tag.id))
  }

  /** No owner works twice on one row at a time. */
  ghost predicate Exclusive(attempts: map<Tag, Attempt>) {
    forall t, u :: t in attempts && u in attempts && t.id == u.id && attempts[t].owner == attempts[u].owner ==> t == u
  }

  ghost predicate AttemptsInv(s: State) {
    && (forall t :: t in s.attempts ==>
          t.claim < s.claims && AttemptOk(s.rows, s.clock, s.pushes, s.dlq, s.routes, t, s.attempts[t]))
    && Exclusive(s.attempts)
    && (forall t :: t in s.routes ==> t.claim < s.claims)
  }

  /** A record in a push partition speaks of a row that was a head, and carries what the lookup said. */
  ghost predicate PushRecordOk(rows: Table, routes: map<Tag, Targets>, p: Push) {
    && p.tag.id in rows
    && !rows[p.tag.id].status.Pending?
    && p.conv == rows[p.tag.id].conv && p.seqNo == rows[p.tag.id].seqNo
    && p.tag in routes && p.partition in routes[p.tag] && p.users == routes[p.tag][p.partition]
  }

  ghost predicate DeadLetterOk(rows: Table, d: DeadLetter) {
    d.tag.id in rows && OnDlqPath(rows[d.tag.id]) && rows[d.tag.id].retryCount == d.retryCount
  }

  ghost predicate PublishedInFull(s: State, id: MessageId) {
    && id in s.via && s.via[id].id == id && s.via[id] in s.routes
    && AllWritten(s.pushes, s.via[id], s.routes[s.via[id]], s.routes[s.via[id]].Keys)
  }

  ghost predicate LogsInv(s: State) {
    && (forall k :: 0 <= k < |s.pushes| ==> PushRecordOk(s.rows, s.routes, s.pushes[k]))
    && (forall k :: 0 <= k < |s.dlq| ==> DeadLetterOk(s.rows, s.dlq[k]))
    && (forall id :: id in s.rows && s.rows[id].status.Published? ==> PublishedInFull(s, id))
    && (forall id :: id in s.rows && s.rows[id].status.Dead? ==> DeadLettered(s.dlq, id))
  }

  /** The row is put off from its last applied failure by 2, 4, 8, 16, 32 and then always 64 backoffs, and by less
      than a quarter more. */
  ghost predicate InBackoffWindow(cfg: Config, r: Row, failedAt: int) {
    var d := cfg.backoff * [1, 2, 4, 8, 16, 32, 64][if r.retryCount < 6 then r.retryCount else 6];
    0 < r.retryCount && d <= r.nextRetryAt - failedAt && 4 * (r.nextRetryAt - failedAt) < 5 * d
  }

  ghost predicate RetryInv(cfg: Config, s: State) {
    && (forall id :: id in s.rows ==> s.failures[id] == s.rows[id].retryCount)
    && (forall id :: id in s.failures ==> id in s.rows)
    && (forall id :: id in s.rows && s.rows[id].status.Retrying? && s.rows[id].lockedBy.None? ==>
          id in s.failedAt && InBackoffWindow(cfg, s.rows[id], s.failedAt[id]))
  }

  /** The longest a row is ever put off: a lease, or 64 backoffs and a quarter. */
  function MaxDelay(cfg: Config): int {
    Max(cfg.lease, 80 * cfg.backoff)
  }

  ghost predicate TimeInv(cfg: Config, s: State) {
    forall id :: id in s.rows ==> s.rows[id].nextRetryAt <= s.clock + MaxDelay(cfg)
  }

  ghost predicate Inv(cfg: Config, s: State) {
    && RowsInv(cfg, s.rows, s.last)
    && AttemptsInv(s)
    && LogsInv(s)
    && RetryInv(cfg, s)
    && TimeInv(cfg, s)
  }

  // ---- How a row may move ----

  /** What never changes back, for one row. */
  ghost predicate RowMoves(r: Row, r': Row) {
    && r'.conv == r.conv && r'.seqNo == r.seqNo && r'.shard == r.shard && r'.corrupt == r.corrupt
    && (Terminal(r) ==> r' == r)
    && (!r.status.Pending? ==> !r'.status.Pending?)
    && (r.status.DlqPending? ==> OnDlqPath(r') && r'.retryCount == r.retryCount)
    && r.retryCount <= r'.retryCount
  }

  ghost predicate TableMoves(rows: Table, rows': Table) {
    forall id :: id in rows ==> id in rows' && RowMoves(rows[id], rows'[id])
  }

  /** An act changes at most the row that its attempt still holds, and moves it forward. */
  lemma ActMovesRow(cfg: Config, s: State, tag: Tag, act: Act)
    requires ValidConfig(cfg) && tag in s.attempts && ActEnabled(cfg, s, tag, act)
    requires AttemptOk(s.rows, s.clock, s.pushes, s.dlq, s.routes, tag, s.attempts[tag])
    requires RowOk(cfg, s.rows[tag.id])
    ensures var rows' := RowsAfter(cfg, s.rows, tag.id, s.attempts[tag], act);
            rows' != s.rows ==>
              && Fenced(s.rows, tag.id, s.attempts[tag].owner)
              && tag.id in rows' && rows' == s.rows[tag.id := rows'[tag.id]]
              && RowMoves(s.rows[tag.id], rows'[tag.id]) && RowOk(cfg, rows'[tag.id])
              && rows'[tag.id].nextRetryAt <= Max(s.rows[tag.id].nextRetryAt, s.clock + MaxDelay(cfg))
  {
    if act.WriteFailed? {
      DelayExact(cfg.backoff, s.attempts[tag].phase.retries + 1);
    }
  }

  lemma RowUpdateKeepsRows(cfg: Config, rows: Table, last: map<ConvId, nat>, id: MessageId, r: Row)
    requires RowsInv(cfg, rows, last) && id in rows && !rows[id].status.Pending?
    requires RowMoves(rows[id], r) && RowOk(cfg, r)
    ensures RowsInv(cfg, rows[id := r], last)
    ensures TableMoves(rows, rows[id := r])
  {
    var rows' := rows[id := r];
    forall c, n | c in last && 1 <= n <= last[c] ensures HasSeq(rows', c, n) {
      assert HasSeq(rows, c, n);
      var k :| k in rows && rows[k].conv == c && rows[k].seqNo == n;
      assert k in rows' && rows'[k].conv == c && rows'[k].seqNo == n;
    }
  }

  lemma ClaimKeepsRows(cfg: Config, rows: Table, last: map<ConvId, nat>, ids: set<MessageId>, owner: Owner, now: int)
    requires RowsInv(cfg, rows, last)
    requires forall id :: id in ids ==> id in rows && IsHead(rows, rows[id].shard, rows[id].conv, id)
    ensures RowsInv(cfg, ClaimRows(rows, ids, owner, now, cfg.lease), last)
    ensures TableMoves(rows, ClaimRows(rows, ids, owner, now, cfg.lease))
  {
    var rows' := ClaimRows(rows, ids, owner, now, cfg.lease);
    forall c, n | c in last && 1 <= n <= last[c] ensures HasSeq(rows', c, n) {
      assert HasSeq(rows, c, n);
      var k :| k in rows && rows[k].conv == c && rows[k].seqNo == n;
      assert k in rows' && rows'[k].conv == c && rows'[k].seqNo == n;
    }
    forall a, b | a in rows' && b in rows' && Before(rows'[a], rows'[b]) && !rows'[b].status.Pending?
      ensures Terminal(rows'[a])
    {
      if b in ids {
        assert InQueue(rows, rows[b].shard, rows[b].conv, a) || Terminal(rows[a]);
      }
    }
  }

  lemma PersistKeepsRows(cfg: Config, rows: Table, last: map<ConvId, nat>, id: MessageId, conv: ConvId, corrupt: bool, now: int)
    requires ValidConfig(cfg) && RowsInv(cfg, rows, last) && id !in rows && conv in last
    ensures RowsInv(cfg, rows[id := NewRow(conv, last[conv] + 1, ShardId(cfg.checksum, conv), corrupt, now)], last[conv := last[conv] + 1])
  {
    var last' := last[conv := last[conv] + 1];
    var rows' := rows[id := NewRow(conv, last[conv] + 1, ShardId(cfg.checksum, conv), corrupt, now)];
    forall c, n | c in last' && 1 <= n <= last'[c] ensures HasSeq(rows', c, n) {
      if c == conv && n == last'[conv] {
        assert id in rows' && rows'[id].conv == c && rows'[id].seqNo == n;
      } else {
        assert HasSeq(rows, c, n);
        var k :| k in rows && rows[k].conv == c && rows[k].seqNo == n;
        assert k in rows' && rows'[k].conv == c && rows'[k].seqNo == n;
      }
    }
  }

  // ---- The invariant is inductive ----

  lemma WrittenGrows(pushes: seq<Push>, more: seq<Push>, tag: Tag, targets: Targets, done: set<int>)
    requires pushes <= more && AllWritten(pushes, tag, targets, done)
    ensures AllWritten(more, tag, targets, done)
  {
    forall p | p in done ensures Written(more, tag, p, targets[p]) {
      var k :| 0 <= k < |pushes| && pushes[k].tag == tag && pushes[k].partition == p && pushes[k].users == targets[p];
      assert more[k] == pushes[k];
    }
  }

  lemma DeadLetteredGrows(dlq: seq<DeadLetter>, more: seq<DeadLetter>, id: MessageId)
    requires dlq <= more && DeadLettered(dlq, id)
    ensures DeadLettered(more, id)
  {
    var k :| 0 <= k < |dlq| && dlq[k].tag.id == id;
    assert more[k] == dlq[k];
  }

  /** An attempt that does not act keeps its part of the invariant while logs grow and rows move,
      as long as nobody changes a row it holds. */
  lemma BystanderOk(s: State, s': State, t: Tag)
    requires t in s.attempts && AttemptOk(s.rows, s.clock, s.pushes, s.dlq, s.routes, t, s.attempts[t])
    requires TableMoves(s.rows, s'.rows) && s.clock <= s'.clock
    requires s.pushes <= s'.pushes && s.dlq <= s'.dlq
    requires t in s.routes <==> t in s'.routes
    requires t in s.routes ==> s'.routes[t] == s.routes[t]
    requires s'.rows[t.id] == s.rows[t.id] || s'.rows[t.id].lockedBy != Some(s.attempts[t].owner)
    ensures AttemptOk(s'.rows, s'.clock, s'.pushes, s'.dlq, s'.routes, t, s.attempts[t])
  {
    var a := s.attempts[t];
    assert RowMoves(s.rows[t.id], s'.rows[t.id]);
    if a.phase.Publish? {
      WrittenGrows(s.pushes, s'.pushes, t, a.phase.targets, a.phase.done);
    }
    if a.phase.DlqMark? {
      DeadLetteredGrows(s.dlq, s'.dlq, t.id);
    }
  }

  /** Log entries stay right while rows move and lookups are added. */
  lemma LogEntriesKept(s: State, s': State)
    requires LogsInv(s) && TableMoves(s.rows, s'.rows)
    requires s.pushes <= s'.pushes && s.dlq <= s'.dlq
    requires forall t :: t in s.routes ==> t in s'.routes && s'.routes[t] == s.routes[t]
    requires forall id :: id in s.via ==> id in s'.via && (id in s.rows && s.rows[id].status.Published? ==> s'.via[id] == s.via[id])
    ensures forall k :: 0 <= k < |s.pushes| ==> PushRecordOk(s'.rows, s'.routes, s'.pushes[k])
    ensures forall k :: 0 <= k < |s.dlq| ==> DeadLetterOk(s'.rows, s'.dlq[k])
    ensures forall id :: id in s.rows && s.rows[id].status.Published? ==> PublishedInFull(s', id)
    ensures forall id :: id in s.rows && s.rows[id].status.Dead? ==> DeadLettered(s'.dlq, id)
  {
    forall k | 0 <= k < |s.pushes| ensures PushRecordOk(s'.rows, s'.routes, s'.pushes[k]) {
      assert s'.pushes[k] == s.pushes[k] && PushRecordOk(s.rows, s.routes, s.pushes[k]);
      assert RowMoves(s.rows[s.pushes[k].tag.id], s'.rows[s.pushes[k].tag.id]);
    }
    forall k | 0 <= k < |s.dlq| ensures DeadLetterOk(s'.rows, s'.dlq[k]) {
      assert s'.dlq[k] == s.dlq[k] && DeadLetterOk(s.rows, s.dlq[k]);
      assert RowMoves(s.rows[s.dlq[k].tag.id], s'.rows[s.dlq[k].tag.id]);
    }
    forall id | id in s.rows && s.rows[id].status.Published? ensures PublishedInFull(s', id) {
      assert PublishedInFull(s, id);
      WrittenGrows(s.pushes, s'.pushes, s.via[id], s.routes[s.via[id]], s.routes[s.via[id]].Keys);
    }
    forall id | id in s.rows && s.rows[id].status.Dead? ensures DeadLettered(s'.dlq, id) {
      DeadLetteredGrows(s.dlq, s'.dlq, id);
    }
  }

  /** A fresh attempt holds its row, and starts in the phase that fits the row's status. */
  lemma NewAttemptOk(cfg: Config, s: State, owner: Owner, now: int, ids: set<MessageId>, id: MessageId)
    requires Enabled(cfg, s, Claim(owner, now, ids)) && id in ids
    requires forall t :: t in s.routes ==> t.claim < s.claims
    ensures var s' := After(cfg, s, Claim(owner, now, ids));
            var a := Attempt(owner, s.rows[id].retryCount, StartPhase(ClaimedStatus(s.rows[id])));
            AttemptOk(s'.rows, s'.clock, s'.pushes, s'.dlq, s'.routes, Tag(s.claims, id), a)
  {
  }

  lemma OldAttemptOk(cfg: Config, s: State, owner: Owner, now: int, ids: set<MessageId>, t: Tag)
    requires Enabled(cfg, s, Claim(owner, now, ids)) && t in s.attempts
    requires AttemptOk(s.rows, s.clock, s.pushes, s.dlq, s.routes, t, s.attempts[t])
    requires TableMoves(s.rows, After(cfg, s, Claim(owner, now, ids)).rows)
    ensures var s' := After(cfg, s, Claim(owner, now, ids));
            AttemptOk(s'.rows, s'.clock, s'.pushes, s'.dlq, s'.routes, t, s.attempts[t])
  {
    BystanderOk(s, After(cfg, s, Claim(owner, now, ids)), t);
  }

  lemma ClaimKeepsExclusive(s: State, owner: Owner, ids: set<MessageId>)
    requires Exclusive(s.attempts) && Idle(s, owner) && forall id :: id in ids ==> id in s.rows
    ensures Exclusive(s.attempts + NewAttempts(s.rows, s.claims, owner, ids))
  {
    var added := NewAttempts(s.rows, s.claims, owner, ids);
    assert forall t :: t in added ==> t == Tag(s.claims, t.id) && added[t].owner == owner;
  }

  lemma ClaimKeepsAttempts(cfg: Config, s: State, owner: Owner, now: int, ids: set<MessageId>)
    requires AttemptsInv(s) && Enabled(cfg, s, Claim(owner, now, ids))
    requires TableMoves(s.rows, After(cfg, s, Claim(owner, now, ids)).rows)
    ensures AttemptsInv(After(cfg, s, Claim(owner, now, ids)))
  {
    var s' := After(cfg, s, Claim(owner, now, ids));
    var added := NewAttempts(s.rows, s.claims, owner, ids);
    ClaimKeepsExclusive(s, owner, ids);
    forall t | t in s'.attempts
      ensures t.claim < s'.claims && AttemptOk(s'.rows, s'.clock, s'.pushes, s'.dlq, s'.routes, t, s'.attempts[t])
    {
      if t in added {
        assert t == Tag(s.claims, t.id) && t.id in ids;
        NewAttemptOk(cfg, s, owner, now, ids, t.id);
      } else {
        OldAttemptOk(cfg, s, owner, now, ids, t);
      }
    }
  }

  lemma ClaimKeepsRetries(cfg: Config, s: State, owner: Owner, now: int, ids: set<MessageId>)
    requires RetryInv(cfg, s) && TimeInv(cfg, s) && Enabled(cfg, s, Claim(owner, now, ids))
    ensures RetryInv(cfg, After(cfg, s, Claim(owner, now, ids)))
    ensures TimeInv(cfg, After(cfg, s, Claim(owner, now, ids)))
  {
  }

  lemma ClaimKeepsLogs(cfg: Config, s: State, owner: Owner, now: int, ids: set<MessageId>)
    requires LogsInv(s) && Enabled(cfg, s, Claim(owner, now, ids))
    requires TableMoves(s.rows, After(cfg, s, Claim(owner, now, ids)).rows)
    ensures LogsInv(After(cfg, s, Claim(owner, now, ids)))
  {
    LogEntriesKept(s, After(cfg, s, Claim(owner, now, ids)));
  }

  lemma ClaimKeepsInv(cfg: Config, s: State, owner: Owner, now: int, ids: set<MessageId>)
    requires ValidConfig(cfg) && Inv(cfg, s) && Enabled(cfg, s, Claim(owner, now, ids))
    ensures Inv(cfg, After(cfg, s, Claim(owner, now, ids)))
  {
    ClaimKeepsRows(cfg, s.rows, s.last, ids, owner, now);
    ClaimKeepsAttempts(cfg, s, owner, now, ids);
    ClaimKeepsLogs(cfg, s, owner, now, ids);
    ClaimKeepsRetries(cfg, s, owner, now, ids);
  }

  lemma PersistKeepsLogs(s: State, s': State, id: MessageId, r: Row)
    requires LogsInv(s) && id !in s.rows && r.status.Pending?
    requires s' == s.(last := s'.last, rows := s.rows[id := r])
    ensures LogsInv(s')
  {
    LogEntriesKept(s, s');
  }

  lemma PersistKeepsAttempts(s: State, s': State, id: MessageId, r: Row)
    requires AttemptsInv(s) && id !in s.rows
    requires s' == s.(last := s'.last, rows := s.rows[id := r])
    ensures AttemptsInv(s')
  {
    BystandersOk(s, s');
  }

  lemma PersistKeepsRest(cfg: Config, s: State, id: MessageId, conv: ConvId, corrupt: bool, now: int)
    requires AttemptsInv(s) && LogsInv(s) && Enabled(cfg, s, Persist(id, conv, corrupt, now))
    ensures var s' := After(cfg, s, Persist(id, conv, corrupt, now)); AttemptsInv(s') && LogsInv(s')
  {
    var s' := After(cfg, s, Persist(id, conv, corrupt, now));
    PersistKeepsAttempts(s, s', id, s'.rows[id]);
    PersistKeepsLogs(s, s', id, s'.rows[id]);
  }

  lemma PersistKeepsTable(cfg: Config, s: State, id: MessageId, conv: ConvId, corrupt: bool, now: int)
    requires ValidConfig(cfg) && RowsInv(cfg, s.rows, s.last) && Enabled(cfg, s, Persist(id, conv, corrupt, now))
    ensures var s' := After(cfg, s, Persist(id, conv, corrupt, now)); RowsInv(cfg, s'.rows, s'.last)
  {
    PersistKeepsRows(cfg, s.rows, s.last, id, conv, corrupt, now);
  }

  lemma PersistKeepsInv(cfg: Config, s: State, id: MessageId, conv: ConvId, corrupt: bool, now: int)
    requires ValidConfig(cfg) && Inv(cfg, s) && Enabled(cfg, s, Persist(id, conv, corrupt, now))
    ensures Inv(cfg, After(cfg, s, Persist(id, conv, corrupt, now)))
  {
    PersistKeepsTable(cfg, s, id, conv, corrupt, now);
    PersistKeepsRest(cfg, s, id, conv, corrupt, now);
    PersistKeepsRetries(cfg, s, id, conv, corrupt, now);
  }

  lemma PersistKeepsRetries(cfg: Config, s: State, id: MessageId, conv: ConvId, corrupt: bool, now: int)
    requires ValidConfig(cfg) && RetryInv(cfg, s) && TimeInv(cfg, s) && Enabled(cfg, s, Persist(id, conv, corrupt, now))
    ensures RetryInv(cfg, After(cfg, s, Persist(id, conv, corrupt, now)))
    ensures TimeInv(cfg, After(cfg, s, Persist(id, conv, corrupt, now)))
  {
  }

  /** A step in which no attempt acts. */
  lemma BystandersOk(s: State, s': State)
    requires AttemptsInv(s)
    requires TableMoves(s.rows, s'.rows) && s.clock <= s'.clock && s'.claims == s.claims
    requires s'.pushes == s.pushes && s'.dlq == s.dlq && s'.routes == s.routes
    requires forall t :: t in s'.attempts ==> t in s.attempts && s'.attempts[t] == s.attempts[t]
    requires forall id :: id in s.rows ==> s'.rows[id] == s.rows[id]
    ensures AttemptsInv(s')
  {
    forall t | t in s'.attempts ensures AttemptOk(s'.rows, s'.clock, s'.pushes, s'.dlq, s'.routes, t, s'.attempts[t]) {
      BystanderOk(s, s', t);
    }
  }

  /** The attempt that acts keeps its own part. */
  lemma ActorOk(cfg: Config, s: State, tag: Tag, act: Act)
    requires tag in s.attempts && ActEnabled(cfg, s, tag, act)
    requires AttemptOk(s.rows, s.clock, s.pushes, s.dlq, s.routes, tag, s.attempts[tag])
    requires NextPhase(s.attempts[tag].phase, act).Goto?
    ensures var s' := AfterAct(cfg, s, tag, act);
            AttemptOk(s'.rows, s'.clock, s'.pushes, s'.dlq, s'.routes, tag, s'.attempts[tag])
  {
    var s' := AfterAct(cfg, s, tag, act);
    var a := s.attempts[tag];
    match act
    case PushOk(p) =>
      WrittenGrows(s.pushes, s'.pushes, tag, a.phase.targets, a.phase.done);
      assert s'.pushes[|s.pushes|] == PushOf(s.rows, tag, a, p);
      assert Written(s'.pushes, tag, p, a.phase.targets[p]);
    case DlqOk =>
      assert s'.dlq[|s.dlq|].tag.id == tag.id;
    case _ =>
  }

  lemma ActKeepsAttempts(cfg: Config, s: State, tag: Tag, act: Act)
    requires AttemptsInv(s) && tag in s.attempts && ActEnabled(cfg, s, tag, act)
    requires TableMoves(s.rows, AfterAct(cfg, s, tag, act).rows)
    ensures AttemptsInv(AfterAct(cfg, s, tag, act))
  {
    var s' := AfterAct(cfg, s, tag, act);
    ActKeepsTags(cfg, s, tag, act);
    forall t | t in s'.attempts ensures AttemptOk(s'.rows, s'.clock, s'.pushes, s'.dlq, s'.routes, t, s'.attempts[t]) {
      ActKeepsAttempt(cfg, s, tag, act, t);
    }
  }

  lemma ActKeepsTags(cfg: Config, s: State, tag: Tag, act: Act)
    requires AttemptsInv(s) && tag in s.attempts
    ensures var s' := AfterAct(cfg, s, tag, act);
            && Exclusive(s'.attempts)
            && (forall t :: t in s'.attempts ==> t.claim < s'.claims)
            && (forall t :: t in s'.routes ==> t.claim < s'.claims)
  {
  }

  lemma ActKeepsAttempt(cfg: Config, s: State, tag: Tag, act: Act, t: Tag)
    requires AttemptsInv(s) && tag in s.attempts && ActEnabled(cfg, s, tag, act)
    requires TableMoves(s.rows, AfterAct(cfg, s, tag, act).rows) && t in AfterAct(cfg, s, tag, act).attempts
    ensures var s' := AfterAct(cfg, s, tag, act); AttemptOk(s'.rows, s'.clock, s'.pushes, s'.dlq, s'.routes, t, s'.attempts[t])
  {
    if t == tag {
      ActorOk(cfg, s, tag, act);
    } else {
      OthersUntouched(cfg, s, tag, act, t);
      BystanderOk(s, AfterAct(cfg, s, tag, act), t);
    }
  }

  lemma OthersUntouched(cfg: Config, s: State, tag: Tag, act: Act, t: Tag)
    requires Exclusive(s.attempts) && tag in s.attempts && t in s.attempts && t != tag && t.id in s.rows
    ensures var s' := AfterAct(cfg, s, tag, act);
            t in s'.attempts && s'.attempts[t] == s.attempts[t] && t.id in s'.rows
            && (s'.rows[t.id] == s.rows[t.id] || s'.rows[t.id].lockedBy != Some(s.attempts[t].owner))
  {
  }

  lemma ActKeepsLogs(cfg: Config, s: State, tag: Tag, act: Act)
    requires LogsInv(s) && tag in s.attempts && ActEnabled(cfg, s, tag, act)
    requires AttemptOk(s.rows, s.clock, s.pushes, s.dlq, s.routes, tag, s.attempts[tag])
    requires !Terminal(s.rows[tag.id]) || s.rows[tag.id].lockedBy.None?
    requires TableMoves(s.rows, AfterAct(cfg, s, tag, act).rows)
    ensures LogsInv(AfterAct(cfg, s, tag, act))
  {
    var s' := AfterAct(cfg, s, tag, act);
    var a := s.attempts[tag];
    LogEntriesKept(s, s');
    ActAddsToLogs(cfg, s, tag, act);
    forall id | id in s'.rows && s'.rows[id].status.Published? ensures PublishedInFull(s', id) {
      if !s.rows[id].status.Published? {
        assert id == tag.id;
      }
    }
    forall id | id in s'.rows && s'.rows[id].status.Dead? ensures DeadLettered(s'.dlq, id) {
      if !s.rows[id].status.Dead? {
        assert id == tag.id;
      }
    }
  }

  /** The entries that this act appends, and what they leave behind for the row, are right. */
  lemma ActAddsToLogs(cfg: Config, s: State, tag: Tag, act: Act)
    requires tag in s.attempts && ActEnabled(cfg, s, tag, act)
    requires AttemptOk(s.rows, s.clock, s.pushes, s.dlq, s.routes, tag, s.attempts[tag])
    requires TableMoves(s.rows, AfterAct(cfg, s, tag, act).rows)
    ensures var s' := AfterAct(cfg, s, tag, act);
            && (forall k :: |s.pushes| <= k < |s'.pushes| ==> PushRecordOk(s'.rows, s'.routes, s'.pushes[k]))
            && (forall k :: |s.dlq| <= k < |s'.dlq| ==> DeadLetterOk(s'.rows, s'.dlq[k]))
            && (s'.rows[tag.id].status.Published? && !s.rows[tag.id].status.Published? ==> PublishedInFull(s', tag.id))
            && (s'.rows[tag.id].status.Dead? && !s.rows[tag.id].status.Dead? ==> DeadLettered(s'.dlq, tag.id))
  {
    var s' := AfterAct(cfg, s, tag, act);
    assert RowMoves(s.rows[tag.id], s'.rows[tag.id]);
  }

  lemma FailureKeepsRetries(cfg: Config, s: State, s': State, id: MessageId, r: Row, at: int)
    requires RetryInv(cfg, s) && id in s.rows && r.retryCount == s.rows[id].retryCount + 1
    requires r.status.Retrying? && r.lockedBy.None? ==> InBackoffWindow(cfg, r, at)
    requires s'.rows == s.rows[id := r] && s'.failures == s.failures + multiset{id} && s'.failedAt == s.failedAt[id := at]
    ensures RetryInv(cfg, s')
  {
  }

  lemma OtherActKeepsRetries(cfg: Config, s: State, s': State, id: MessageId)
    requires RetryInv(cfg, s) && id in s.rows && s'.failures == s.failures && s'.failedAt == s.failedAt
    requires s'.rows.Keys == s.rows.Keys && forall o :: o in s.rows && o != id ==> s'.rows[o] == s.rows[o]
    requires s'.rows[id].retryCount == s.rows[id].retryCount
    requires s'.rows[id].status.Retrying? && s'.rows[id].lockedBy.None? ==> s'.rows[id] == s.rows[id]
    ensures RetryInv(cfg, s')
  {
  }

  lemma ActKeepsRetries(cfg: Config, s: State, tag: Tag, act: Act)
    requires ValidConfig(cfg) && RetryInv(cfg, s) && tag in s.attempts && ActEnabled(cfg, s, tag, act)
    requires AttemptOk(s.rows, s.clock, s.pushes, s.dlq, s.routes, tag, s.attempts[tag])
    ensures RetryInv(cfg, AfterAct(cfg, s, tag, act))
  {
    var s' := AfterAct(cfg, s, tag, act);
    var a := s.attempts[tag];
    if act.WriteFailed? && Fenced(s.rows, tag.id, a.owner) {
      FailureOpensWindow(cfg, s.rows[tag.id], a.owner, a.phase.now, act.jitter);
      FailureKeepsRetries(cfg, s, s', tag.id, s'.rows[tag.id], a.phase.now);
    } else {
      OtherActKeepsRetries(cfg, s, s', tag.id);
    }
  }

  /** An applied failure counts once and opens the backoff window, or is the last one. */
  lemma FailureOpensWindow(cfg: Config, r: Row, owner: Owner, now: int, jitter: int)
    requires ValidConfig(cfg) && ValidJitter(Delay(cfg.backoff, r.retryCount + 1), jitter)
    ensures var r' := FailedRow(r, r.retryCount, cfg.maxRetries, cfg.backoff, cfg.lease, owner, now, jitter);
            && r'.retryCount == r.retryCount + 1
            && (if r'.retryCount < cfg.maxRetries
                then r'.status.Retrying? && r'.lockedBy.None? && InBackoffWindow(cfg, r', now)
                else r'.status.DlqPending? && r'.lockedBy == Some(owner) && r'.nextRetryAt == now + cfg.lease)
  {
    WaitInWindow(cfg.backoff, r.retryCount + 1, jitter);
  }

  lemma ActKeepsRows(cfg: Config, s: State, tag: Tag, act: Act)
    requires ValidConfig(cfg) && RowsInv(cfg, s.rows, s.last) && TimeInv(cfg, s) && AttemptsInv(s)
    requires tag in s.attempts && ActEnabled(cfg, s, tag, act)
    ensures var s' := AfterAct(cfg, s, tag, act);
            RowsInv(cfg, s'.rows, s'.last) && TableMoves(s.rows, s'.rows) && TimeInv(cfg, s')
    ensures AttemptOk(s.rows, s.clock, s.pushes, s.dlq, s.routes, tag, s.attempts[tag])
    ensures !Terminal(s.rows[tag.id]) || s.rows[tag.id].lockedBy.None?
  {
    var rows' := RowsAfter(cfg, s.rows, tag.id, s.attempts[tag], act);
    assert AttemptOk(s.rows, s.clock, s.pushes, s.dlq, s.routes, tag, s.attempts[tag]);
    assert RowOk(cfg, s.rows[tag.id]);
    ActMovesRow(cfg, s, tag, act);
    if rows' != s.rows {
      RowUpdateKeepsRows(cfg, s.rows, s.last, tag.id, rows'[tag.id]);
    }
  }

  lemma ActKeepsInv(cfg: Config, s: State, tag: Tag, act: Act)
    requires ValidConfig(cfg) && Inv(cfg, s) && tag in s.attempts && ActEnabled(cfg, s, tag, act)
    ensures Inv(cfg, AfterAct(cfg, s, tag, act))
  {
    ActKeepsRows(cfg, s, tag, act);
    ActKeepsAttempts(cfg, s, tag, act);
    ActKeepsLogs(cfg, s, tag, act);
    ActKeepsRetries(cfg, s, tag, act);
  }

  lemma OpenKeepsRows(cfg: Config, rows: Table, last: map<ConvId, nat>, conv: ConvId)
    requires RowsInv(cfg, rows, last) && conv !in last
    ensures RowsInv(cfg, rows, last[conv := 0])
  {
    forall c, n | c in last[conv := 0] && 1 <= n <= last[conv := 0][c] ensures HasSeq(rows, c, n) {
      assert HasSeq(rows, c, n);
    }
  }

  /** A step that touches neither rows nor logs. */
  lemma QuietKeepsInv(cfg: Config, s: State, clock: int, last: map<ConvId, nat>, attempts: map<Tag, Attempt>)
    requires Inv(cfg, s) && RowsInv(cfg, s.rows, last) && s.clock <= clock
    requires forall t :: t in attempts ==> t in s.attempts && attempts[t] == s.attempts[t]
    ensures Inv(cfg, s.(clock := clock, last := last, attempts := attempts))
  {
    var s' := s.(clock := clock, last := last, attempts := attempts);
    QuietKeepsAttempts(s, s');
    QuietKeepsLogs(s, s');
    QuietKeepsRetries(cfg, s, s');
  }

  lemma QuietKeepsAttempts(s: State, s': State)
    requires AttemptsInv(s) && s.clock <= s'.clock
    requires s' == s.(clock := s'.clock, last := s'.last, attempts := s'.attempts)
    requires forall t :: t in s'.attempts ==> t in s.attempts && s'.attempts[t] == s.attempts[t]
    ensures AttemptsInv(s')
  {
    BystandersOk(s, s');
  }

  lemma QuietKeepsRetries(cfg: Config, s: State, s': State)
    requires RetryInv(cfg, s) && TimeInv(cfg, s) && s.clock <= s'.clock
    requires s' == s.(clock := s'.clock, last := s'.last, attempts := s'.attempts)
    ensures RetryInv(cfg, s') && TimeInv(cfg, s')
  {
  }

  lemma QuietKeepsLogs(s: State, s': State)
    requires LogsInv(s) && s' == s.(clock := s'.clock, last := s'.last, attempts := s'.attempts)
    ensures LogsInv(s')
  {
    LogEntriesKept(s, s');
  }

  lemma OpenKeepsInv(cfg: Config, s: State, conv: ConvId)
    requires Inv(cfg, s) && conv !in s.last
    ensures Inv(cfg, s.(last := s.last[conv := 0]))
  {
    OpenKeepsRows(cfg, s.rows, s.last, conv);
    QuietKeepsInv(cfg, s, s.clock, s.last[conv := 0], s.attempts);
  }

  lemma TickKeepsInv(cfg: Config, s: State, to: int)
    requires Inv(cfg, s) && Enabled(cfg, s, Tick(to))
    ensures Inv(cfg, After(cfg, s, Tick(to)))
  {
    QuietKeepsInv(cfg, s, to, s.last, s.attempts);
  }

  lemma OpenConversationKeepsInv(cfg: Config, s: State, conv: ConvId)
    requires Inv(cfg, s) && Enabled(cfg, s, OpenConversation(conv))
    ensures Inv(cfg, After(cfg, s, OpenConversation(conv)))
  {
    OpenKeepsInv(cfg, s, conv);
  }

  lemma WorkKeepsInv(cfg: Config, s: State, tag: Tag, act: Act)
    requires ValidConfig(cfg) && Inv(cfg, s) && Enabled(cfg, s, Work(tag, act))
    ensures Inv(cfg, After(cfg, s, Work(tag, act)))
  {
    ActKeepsInv(cfg, s, tag, act);
  }

  lemma DropKeepsInv(cfg: Config, s: State, tag: Tag)
    requires Inv(cfg, s) && Enabled(cfg, s, Drop(tag))
    ensures Inv(cfg, After(cfg, s, Drop(tag)))
  {
    QuietKeepsInv(cfg, s, s.clock, s.last, s.attempts - {tag});
  }

  /** Every step keeps the invariant. */
  lemma StepKeepsInv(cfg: Config, s: State, action: Action, s': State)
    requires ValidConfig(cfg) && Inv(cfg, s) && Step(cfg, s, action, s')
    ensures Inv(cfg, s')
  {
    match action
    case Tick(to) => TickKeepsInv(cfg, s, to);
    case OpenConversation(conv) => OpenConversationKeepsInv(cfg, s, conv);
    case Persist(id, conv, corrupt, now) => PersistKeepsInv(cfg, s, id, conv, corrupt, now);
    case Claim(owner, now, ids) => ClaimKeepsInv(cfg, s, owner, now, ids);
    case Work(tag, act) => WorkKeepsInv(cfg, s, tag, act);
    case Drop(tag) => DropKeepsInv(cfg, s, tag);
  }

  // ---- The repository's Claim is a step ----

  /** A Claim transaction of an idle owner is a Claim step of the protocol, whatever candidates it went through;
      and each record it hands out starts an attempt with the retry count and in the phase that the record says. */
  lemma ClaimIsStep(cfg: Config, s: State, t: Table, records: seq<Record>, candidates: seq<Candidate>, busy: set<ConvId>, owner: Owner, now: int)
    requires ClaimedFrom(s.rows, t, records, candidates, busy, owner, now, cfg.lease)
    requires Idle(s, owner) && now <= s.clock
    ensures var step := Claim(owner, now, Ids(records));
            && Enabled(cfg, s, step)
            && After(cfg, s, step).rows == t
            && forall r :: r in records ==>
                 && Tag(s.claims, r.id) in After(cfg, s, step).attempts
                 && After(cfg, s, step).attempts[Tag(s.claims, r.id)] == Attempt(owner, r.retryCount, StartPhase(r.status))
  {
    var step := Claim(owner, now, Ids(records));
    assert forall id :: id in Ids(records) ==> exists r :: r in records && r.id == id;
    assert Enabled(cfg, s, step);
    forall r | r in records
      ensures Tag(s.claims, r.id) in After(cfg, s, step).attempts
      ensures After(cfg, s, step).attempts[Tag(s.claims, r.id)] == Attempt(owner, r.retryCount, StartPhase(r.status))
    {
      assert r.id in Ids(records) && r == RecordOf(r.id, s.rows[r.id]);
      assert Tag(s.claims, r.id) in NewAttempts(s.rows, s.claims, owner, Ids(records));
    }
  }

  /** Publishers that hold different slots hand out records of different conversations, however far apart the
      tables are that their Claim transactions look at. */
  lemma SlotsClaimApart(cfg: Config, n: int, v: int, w: int,
                        rows: Table, last: map<ConvId, nat>, t: Table, records: seq<Record>, candidates: seq<Candidate>,
                        busy: set<ConvId>, owner: Owner, now: int,
                        rows': Table, last': map<ConvId, nat>, t': Table, records': seq<Record>, candidates': seq<Candidate>,
                        busy': set<ConvId>, owner': Owner, now': int)
    requires v != w && RowsInv(cfg, rows, last) && RowsInv(cfg, rows', last')
    requires ClaimedFrom(rows, t, records, candidates, busy, owner, now, cfg.lease)
    requires ClaimedFrom(rows', t', records', candidates', busy', owner', now', cfg.lease)
    requires forall c :: c in candidates ==> OwnedBy(c.shard, v, n)
    requires forall c :: c in candidates' ==> OwnedBy(c.shard, w, n)
    ensures forall r, r' :: r in records && r' in records' ==> r.conv != r'.conv
  {
    ClaimsOwnShards(cfg, n, v, rows, last, t, records, candidates, busy, owner, now);
    ClaimsOwnShards(cfg, n, w, rows', last', t', records', candidates', busy', owner', now');
    forall r, r' | r in records && r' in records' ensures r.conv != r'.conv {
      assert OwnedBy(ShardId(cfg.checksum, r.conv), v, n) && OwnedBy(ShardId(cfg.checksum, r'.conv), w, n);
    }
  }

  lemma ClaimsOwnShards(cfg: Config, n: int, v: int, rows: Table, last: map<ConvId, nat>, t: Table, records: seq<Record>,
                        candidates: seq<Candidate>, busy: set<ConvId>, owner: Owner, now: int)
    requires RowsInv(cfg, rows, last) && ClaimedFrom(rows, t, records, candidates, busy, owner, now, cfg.lease)
    requires forall c :: c in candidates ==> OwnedBy(c.shard, v, n)
    ensures forall r :: r in records ==> OwnedBy(ShardId(cfg.checksum, r.conv), v, n)
  {
    forall r | r in records ensures OwnedBy(ShardId(cfg.checksum, r.conv), v, n) {
      assert IsHead(rows, r.shard, r.conv, r.id);
      assert RowOk(cfg, rows[r.id]);
      assert Candidate(r.shard, r.conv) in candidates;
    }
  }
}

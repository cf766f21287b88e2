/** What the outbox protocol guarantees over whole runs. */
module OutboxRuns {
  import opened Common
  import opened OutboxRows
  import opened OutboxProtocol

  // ---- The frontier of a conversation ----

  ghost predicate TerminalAt(rows: Table, conv: ConvId, seqNo: int) {
    exists id :: id in rows && rows[id].conv == conv && rows[id].seqNo == seqNo && Terminal(rows[id])
  }

  ghost function FrontierBelow(rows: Table, conv: ConvId, n: nat): (t: nat)
    ensures t <= n && (t == 0 || TerminalAt(rows, conv, t))
    ensures forall k :: t < k <= n ==> !TerminalAt(rows, conv, k)
  {
    if n == 0 then 0 else if TerminalAt(rows, conv, n) then n else FrontierBelow(rows, conv, n - 1)
  }

  /** The highest terminal seq of a conversation. */
  ghost function Frontier(s: State, conv: ConvId): nat
    requires conv in s.last
  {
    FrontierBelow(s.rows, conv, s.last[conv])
  }

  /** The shape of one conversation's queue: 1..t are terminal, t + 1 is the only row anybody may be
      working on, and everything behind it is as Persist left it. */
  ghost predicate QueueShape(s: State, conv: ConvId, t: nat) {
    && conv in s.last && t <= s.last[conv]
    && (forall n :: 1 <= n <= s.last[conv] ==> HasSeq(s.rows, conv, n))
    && (forall id :: id in s.rows && s.rows[id].conv == conv ==>
          var r := s.rows[id];
          && 1 <= r.seqNo <= s.last[conv]
          && (Terminal(r) <==> r.seqNo <= t)
          && (r.lockedBy.Some? || r.status.Retrying? || r.status.DlqPending? ==> r.seqNo == t + 1)
          && (r.seqNo > t + 1 ==> r.status.Pending? && r.retryCount == 0 && r.lockedBy.None?))
  }

  lemma InvGivesQueueShape(cfg: Config, s: State, conv: ConvId)
    requires RowsInv(cfg, s.rows, s.last) && conv in s.last
    ensures QueueShape(s, conv, Frontier(s, conv))
  {
    var t := Frontier(s, conv);
    forall n | 1 <= n <= s.last[conv] ensures HasSeq(s.rows, conv, n) {
      assert HasSeq(s.rows, conv, n);
    }
    forall id | id in s.rows && s.rows[id].conv == conv
      ensures Terminal(s.rows[id]) <==> s.rows[id].seqNo <= t
      ensures !s.rows[id].status.Pending? ==> s.rows[id].seqNo <= t + 1
    {
      var r := s.rows[id];
      assert RowOk(cfg, r);
      if Terminal(r) {
        assert TerminalAt(s.rows, conv, r.seqNo);
      }
      if r.seqNo <= t {
        var top :| top in s.rows && s.rows[top].conv == conv && s.rows[top].seqNo == t && Terminal(s.rows[top]);
        assert Before(r, s.rows[top]) || id == top;
      }
      if t + 1 < r.seqNo {
        assert HasSeq(s.rows, conv, t + 1);
        var mid :| mid in s.rows && s.rows[mid].conv == conv && s.rows[mid].seqNo == t + 1;
        assert !Terminal(s.rows[mid]) || TerminalAt(s.rows, conv, t + 1);
        assert Before(s.rows[mid], r);
      }
    }
    forall id | id in s.rows && s.rows[id].conv == conv
      ensures 1 <= s.rows[id].seqNo <= s.last[conv]
      ensures s.rows[id].seqNo > t + 1 ==> s.rows[id].status.Pending? && s.rows[id].retryCount == 0 && s.rows[id].lockedBy.None?
    {
      assert RowOk(cfg, s.rows[id]);
    }
  }

  // ---- Runs ----

  lemma {:induction false} RunKeepsInv(cfg: Config, states: seq<State>, actions: seq<Action>, i: nat)
    requires ValidConfig(cfg) && IsRun(cfg, states, actions) && i < |states|
    ensures Inv(cfg, states[i])
  {
    if i > 0 {
      RunKeepsInv(cfg, states, actions, i - 1);
      assert Step(cfg, states[i - 1], actions[i - 1], states[i]);
      StepKeepsInv(cfg, states[i - 1], actions[i - 1], states[i]);
    }
  }

  /** Rows only move forward, and conversations only grow. */
  ghost predicate MovesForward(s: State, s': State) {
    && TableMoves(s.rows, s'.rows)
    && (forall c :: c in s.last ==> c in s'.last && s.last[c] <= s'.last[c])
    && s.pushes <= s'.pushes && s.dlq <= s'.dlq
  }

  lemma StepMovesForward(cfg: Config, s: State, action: Action, s': State)
    requires ValidConfig(cfg) && Inv(cfg, s) && Step(cfg, s, action, s')
    ensures MovesForward(s, s')
  {
    match action
    case Work(tag, act) => WorkMovesForward(cfg, s, tag, act);
    case Claim(owner, now, ids) => ClaimMovesForward(cfg, s, owner, now, ids);
    case Persist(id, conv, corrupt, now) => PersistMovesForward(cfg, s, id, conv, corrupt, now);
    case _ =>
  }

  lemma ClaimMovesForward(cfg: Config, s: State, owner: Owner, now: int, ids: set<MessageId>)
    requires ValidConfig(cfg) && Inv(cfg, s) && Enabled(cfg, s, Claim(owner, now, ids))
    ensures MovesForward(s, After(cfg, s, Claim(owner, now, ids)))
  {
    ClaimKeepsRows(cfg, s.rows, s.last, ids, owner, now);
  }

  lemma PersistMovesForward(cfg: Config, s: State, id: MessageId, conv: ConvId, corrupt: bool, now: int)
    requires Enabled(cfg, s, Persist(id, conv, corrupt, now))
    ensures MovesForward(s, After(cfg, s, Persist(id, conv, corrupt, now)))
  {
  }

  lemma WorkMovesForward(cfg: Config, s: State, tag: Tag, act: Act)
    requires ValidConfig(cfg) && Inv(cfg, s) && tag in s.attempts && ActEnabled(cfg, s, tag, act)
    ensures MovesForward(s, AfterAct(cfg, s, tag, act))
  {
    ActKeepsRows(cfg, s, tag, act);
  }

  lemma {:induction false} RunMovesForward(cfg: Config, states: seq<State>, actions: seq<Action>, i: nat, j: nat)
    requires ValidConfig(cfg) && IsRun(cfg, states, actions) && i <= j < |states|
    ensures MovesForward(states[i], states[j])
    decreases j
  {
    if i < j {
      var k: nat := j - 1;
      RunMovesForward(cfg, states, actions, i, k);
      RunStepMovesForward(cfg, states, actions, k);
      MovesCompose(states[i], states[k], states[k + 1]);
    } else {
      MovesNowhere(states[i]);
    }
  }

  lemma RunStepMovesForward(cfg: Config, states: seq<State>, actions: seq<Action>, j: nat)
    requires ValidConfig(cfg) && IsRun(cfg, states, actions) && j < |actions|
    ensures MovesForward(states[j], states[j + 1])
  {
    RunKeepsInv(cfg, states, actions, j);
    StepMovesForward(cfg, states[j], actions[j], states[j + 1]);
  }

  lemma MovesNowhere(s: State)
    ensures MovesForward(s, s)
  {
  }

  lemma MovesCompose(a: State, b: State, c: State)
    requires MovesForward(a, b) && MovesForward(b, c)
    ensures MovesForward(a, c)
  {
    forall id | id in a.rows ensures id in c.rows && RowMoves(a.rows[id], c.rows[id]) {
      assert RowMoves(a.rows[id], b.rows[id]) && RowMoves(b.rows[id], c.rows[id]);
    }
  }

  /** Head-of-line safety: at every moment of every run the terminal rows of a conversation are exactly
      seqs 1..t, only seq t + 1 is being worked on, and the rest is untouched; t never decreases and a
      terminal row never changes again. */
  lemma HeadOfLineSafety(cfg: Config, states: seq<State>, actions: seq<Action>, i: nat, j: nat, conv: ConvId)
    requires ValidConfig(cfg) && IsRun(cfg, states, actions) && i <= j < |states| && conv in states[i].last
    ensures QueueShape(states[i], conv, Frontier(states[i], conv))
    ensures conv in states[j].last && Frontier(states[i], conv) <= Frontier(states[j], conv)
    ensures forall id :: id in states[i].rows && Terminal(states[i].rows[id]) ==>
              id in states[j].rows && states[j].rows[id] == states[i].rows[id]
  {
    RunKeepsInv(cfg, states, actions, i);
    InvGivesQueueShape(cfg, states[i], conv);
    RunMovesForward(cfg, states, actions, i, j);
    FrontierGrows(states[i], states[j], conv);
    forall id | id in states[i].rows && Terminal(states[i].rows[id]) ensures id in states[j].rows && states[j].rows[id] == states[i].rows[id] {
      assert RowMoves(states[i].rows[id], states[j].rows[id]);
    }
  }

  lemma FrontierGrows(s: State, s': State, conv: ConvId)
    requires MovesForward(s, s') && conv in s.last
    ensures Frontier(s, conv) <= Frontier(s', conv)
  {
    var t := Frontier(s, conv);
    if t > 0 {
      var id :| id in s.rows && s.rows[id].conv == conv && s.rows[id].seqNo == t && Terminal(s.rows[id]);
      assert RowMoves(s.rows[id], s'.rows[id]);
      assert TerminalAt(s'.rows, conv, t);
    }
  }

  // ---- Order of pushes ----

  /** Whatever a step appends to the push partitions is at most one past the frontier of its conversation,
      even when a stale owner appends it; an owner that still holds the row appends exactly the head. */
  lemma PushWithinFrontier(cfg: Config, s: State, action: Action, s': State, k: nat)
    requires ValidConfig(cfg) && Inv(cfg, s) && Step(cfg, s, action, s')
    requires |s.pushes| <= k < |s'.pushes|
    ensures var p := s'.pushes[k];
            && p.conv in s.last
            && p.seqNo <= Frontier(s, p.conv) + 1
            && (Fenced(s.rows, p.tag.id, p.owner) ==> p.seqNo == Frontier(s, p.conv) + 1)
  {
    var p := s'.pushes[k];
    assert AttemptOk(s.rows, s.clock, s.pushes, s.dlq, s.routes, action.tag, s.attempts[action.tag]);
    assert p.tag == action.tag && p.conv == s.rows[p.tag.id].conv && p.seqNo == s.rows[p.tag.id].seqNo;
    InvGivesQueueShape(cfg, s, p.conv);
  }

  ghost predicate OrderedPerConversation(pushes: seq<Push>) {
    forall a, b :: 0 <= a < b < |pushes| && pushes[a].conv == pushes[b].conv ==> pushes[a].seqNo <= pushes[b].seqNo
  }

  /** No later seq of the conversation has reached the push log. */
  ghost predicate NothingLater(pushes: seq<Push>, p: Push) {
    forall a :: 0 <= a < |pushes| && pushes[a].conv == p.conv ==> pushes[a].seqNo <= p.seqNo
  }

  /** The row of an append is not finished yet, or else none after it was pushed. Under the invariant the first
      implies the second (UnfinishedAppendIsLast): what there is to PushOrderIff is that an append for an
      unfinished row is always in order, whoever makes it, and only those for finished rows have to be looked at. */
  ghost predicate SafeToAppend(s: State, p: Push) {
    p.tag.id in s.rows && (!Terminal(s.rows[p.tag.id]) || NothingLater(s.pushes, p))
  }

  ghost predicate SafeAppend(s: State, s': State) {
    forall k :: |s.pushes| <= k < |s'.pushes| ==> SafeToAppend(s, s'.pushes[k])
  }

  lemma AtMostOnePush(cfg: Config, s: State, action: Action, s': State)
    requires Step(cfg, s, action, s')
    ensures |s'.pushes| <= |s.pushes| + 1 && s.pushes <= s'.pushes
  {
  }

  /** An append for a row that is not finished is the head, and nothing logged is past the head. */
  lemma UnfinishedAppendIsLast(cfg: Config, s: State, action: Action, s': State, k: nat)
    requires ValidConfig(cfg) && Inv(cfg, s) && Step(cfg, s, action, s') && |s.pushes| <= k < |s'.pushes|
    ensures s'.pushes[k].tag.id in s.rows
    ensures !Terminal(s.rows[s'.pushes[k].tag.id]) ==> NothingLater(s.pushes, s'.pushes[k])
  {
    var p := s'.pushes[k];
    assert AttemptOk(s.rows, s.clock, s.pushes, s.dlq, s.routes, action.tag, s.attempts[action.tag]);
    assert p.tag == action.tag && p.conv == s.rows[p.tag.id].conv && p.seqNo == s.rows[p.tag.id].seqNo;
    InvGivesQueueShape(cfg, s, p.conv);
    forall a | 0 <= a < |s.pushes| && s.pushes[a].conv == p.conv && !Terminal(s.rows[p.tag.id]) ensures s.pushes[a].seqNo <= p.seqNo {
      LoggedWithinFrontier(cfg, s, a);
    }
  }

  lemma SnocOrdered(pushes: seq<Push>, p: Push)
    ensures OrderedPerConversation(pushes + [p]) <==> OrderedPerConversation(pushes) && NothingLater(pushes, p)
  {
    var more := pushes + [p];
    if OrderedPerConversation(more) {
      forall a, b | 0 <= a < b < |pushes| && pushes[a].conv == pushes[b].conv ensures pushes[a].seqNo <= pushes[b].seqNo {
        assert more[a] == pushes[a] && more[b] == pushes[b];
      }
      forall a | 0 <= a < |pushes| && pushes[a].conv == p.conv ensures pushes[a].seqNo <= p.seqNo {
        assert more[a] == pushes[a] && more[|pushes|] == p;
      }
    }
  }

  /** A step leaves an ordered push log exactly when it finds one and its append is safe. */
  lemma StepOrderIff(cfg: Config, s: State, action: Action, s': State)
    requires ValidConfig(cfg) && Inv(cfg, s) && Step(cfg, s, action, s')
    ensures OrderedPerConversation(s'.pushes) <==> OrderedPerConversation(s.pushes) && SafeAppend(s, s')
  {
    AtMostOnePush(cfg, s, action, s');
    if |s'.pushes| > |s.pushes| {
      var p := s'.pushes[|s.pushes|];
      assert s'.pushes == s.pushes + [p];
      UnfinishedAppendIsLast(cfg, s, action, s', |s.pushes|);
      SnocOrdered(s.pushes, p);
      assert SafeAppend(s, s') <==> SafeToAppend(s, p);
    } else {
      assert s'.pushes == s.pushes;
    }
  }

  ghost predicate AppendsSafe(states: seq<State>, i: nat)
    requires i < |states|
  {
    forall j :: 0 <= j < i ==> SafeAppend(states[j], states[j + 1])
  }

  /** Push order, exactly: each conversation reaches the push log in seq order if and only if every append comes
      before its row is finished, or at least before a later seq of its conversation is pushed. */
  lemma {:induction false} PushOrderIff(cfg: Config, states: seq<State>, actions: seq<Action>, i: nat)
    requires ValidConfig(cfg) && IsRun(cfg, states, actions) && i < |states|
    ensures OrderedPerConversation(states[i].pushes) <==> AppendsSafe(states, i)
  {
    if i > 0 {
      var h: nat := i - 1;
      PushOrderIff(cfg, states, actions, h);
      RunStepOrderIff(cfg, states, actions, h);
      assert AppendsSafe(states, i) <==> AppendsSafe(states, h) && SafeAppend(states[h], states[h + 1]);
    }
  }

  lemma RunStepOrderIff(cfg: Config, states: seq<State>, actions: seq<Action>, j: nat)
    requires ValidConfig(cfg) && IsRun(cfg, states, actions) && j < |actions|
    ensures OrderedPerConversation(states[j + 1].pushes) <==> OrderedPerConversation(states[j].pushes) && SafeAppend(states[j], states[j + 1])
  {
    RunKeepsInv(cfg, states, actions, j);
    StepOrderIff(cfg, states[j], actions[j], states[j + 1]);
  }

  /** What this step appends is appended by the owner still recorded in locked_by. */
  ghost predicate FencedAppend(s: State, s': State) {
    forall k :: |s.pushes| <= k < |s'.pushes| ==> Fenced(s.rows, s'.pushes[k].tag.id, s'.pushes[k].owner)
  }

  ghost predicate PushesFenced(states: seq<State>) {
    forall i :: 0 <= i < |states| - 1 ==> FencedAppend(states[i], states[i + 1])
  }

  lemma FencedIsSafe(cfg: Config, s: State, s': State)
    requires RowsInv(cfg, s.rows, s.last) && FencedAppend(s, s')
    ensures SafeAppend(s, s')
  {
    forall k | |s.pushes| <= k < |s'.pushes| ensures SafeToAppend(s, s'.pushes[k]) {
      assert RowOk(cfg, s.rows[s'.pushes[k].tag.id]);
    }
  }

  /** So it is if no stale owner appends: a row that is still locked is not finished. */
  lemma PushOrder(cfg: Config, states: seq<State>, actions: seq<Action>, i: nat)
    requires ValidConfig(cfg) && IsRun(cfg, states, actions) && i < |states| && PushesFenced(states)
    ensures OrderedPerConversation(states[i].pushes)
  {
    PushOrderIff(cfg, states, actions, i);
    forall j | 0 <= j < i ensures SafeAppend(states[j], states[j + 1]) {
      RunKeepsInv(cfg, states, actions, j);
      assert FencedAppend(states[j], states[j + 1]);
      FencedIsSafe(cfg, states[j], states[j + 1]);
    }
  }

  lemma LoggedWithinFrontier(cfg: Config, s: State, k: nat)
    requires Inv(cfg, s) && k < |s.pushes|
    ensures s.pushes[k].conv in s.last && s.pushes[k].seqNo <= Frontier(s, s.pushes[k].conv) + 1
  {
    assert PushRecordOk(s.rows, s.routes, s.pushes[k]);
    InvGivesQueueShape(cfg, s, s.pushes[k].conv);
  }

  // ---- No silent loss ----

  /** A Published row went through one attempt that wrote every partition of its own route lookup with
      exactly that partition's users, and a Dead row is in the dead-letter log with its final retry count. */
  lemma NoSilentLoss(cfg: Config, states: seq<State>, actions: seq<Action>, i: nat, id: MessageId)
    requires ValidConfig(cfg) && IsRun(cfg, states, actions) && i < |states| && id in states[i].rows
    ensures var s := states[i];
            && (s.rows[id].status.Published? ==>
                  exists tag: Tag :: tag.id == id && tag in s.routes && AllWritten(s.pushes, tag, s.routes[tag], s.routes[tag].Keys))
            && (s.rows[id].status.Dead? ==>
                  exists k :: 0 <= k < |s.dlq| && s.dlq[k].tag.id == id && s.dlq[k].retryCount == s.rows[id].retryCount)
    ensures var s := states[i];
            forall k :: 0 <= k < |s.pushes| ==> PushRecordOk(s.rows, s.routes, s.pushes[k])
  {
    RunKeepsInv(cfg, states, actions, i);
    var s := states[i];
    if s.rows[id].status.Published? {
      assert PublishedInFull(s, id);
    }
    if s.rows[id].status.Dead? {
      assert DeadLettered(s.dlq, id);
      var k :| 0 <= k < |s.dlq| && s.dlq[k].tag.id == id;
      assert DeadLetterOk(s.rows, s.dlq[k]);
    }
  }

  // ---- Retry accounting ----

  /** The read and the update of MarkFailed act as one step: in every run, whenever the update applies, the
      retry_count it was computed from is still the row's. */
  lemma MarkFailedIsAtomic(cfg: Config, states: seq<State>, actions: seq<Action>, i: nat, tag: Tag, act: Act)
    requires ValidConfig(cfg) && IsRun(cfg, states, actions) && i < |actions|
    requires actions[i] == Work(tag, act) && act.WriteFailed? && act.applied
    ensures tag in states[i].attempts && states[i].attempts[tag].phase.FailWrite? && tag.id in states[i].rows
    ensures var s := states[i]; var a := s.attempts[tag];
            && a.phase.retries == s.rows[tag.id].retryCount && s.rows[tag.id].status.Retrying?
            && states[i + 1].rows ==
               s.rows[tag.id := FailedRow(s.rows[tag.id], s.rows[tag.id].retryCount, cfg.maxRetries, cfg.backoff, cfg.lease, a.owner, a.phase.now, act.jitter)]
  {
    RunKeepsInv(cfg, states, actions, i);
    var s := states[i];
    assert Step(cfg, s, actions[i], states[i + 1]);
    assert AttemptOk(s.rows, s.clock, s.pushes, s.dlq, s.routes, tag, s.attempts[tag]);
  }

  /** retry_count is the number of applied failures and never passes the bound; a row waiting out its n-th
      failure is put off by 2, 4, 8, 16, 32 and then always 64 backoffs and by less than a quarter more; and once on
      the dead-letter path a row stays there with its count. */
  lemma RetryAccounting(cfg: Config, states: seq<State>, actions: seq<Action>, i: nat, j: nat, id: MessageId)
    requires ValidConfig(cfg) && IsRun(cfg, states, actions) && i <= j < |states| && id in states[i].rows
    ensures states[i].failures[id] == states[i].rows[id].retryCount <= cfg.maxRetries
    ensures var r := states[i].rows[id];
            r.status.Retrying? && r.lockedBy.None? ==>
              && id in states[i].failedAt && 0 < r.retryCount
              && var d, wait := cfg.backoff * [1, 2, 4, 8, 16, 32, 64][if r.retryCount < 6 then r.retryCount else 6], r.nextRetryAt - states[i].failedAt[id];
                 d <= wait && 4 * wait < 5 * d
    ensures id in states[j].rows
    ensures OnDlqPath(states[i].rows[id]) ==> OnDlqPath(states[j].rows[id]) && states[j].rows[id].retryCount == states[i].rows[id].retryCount
  {
    RunKeepsInv(cfg, states, actions, i);
    RunMovesForward(cfg, states, actions, i, j);
    assert RowMoves(states[i].rows[id], states[j].rows[id]);
  }

  /** In every run, a claim never comes before the end of the backoff that the last failure asked for. */
  lemma ClaimWaitsForBackoff(cfg: Config, states: seq<State>, actions: seq<Action>, i: nat, id: MessageId)
    requires ValidConfig(cfg) && IsRun(cfg, states, actions) && i < |actions|
    requires actions[i].Claim? && id in actions[i].ids && id in states[i].rows
    requires states[i].rows[id].status.Retrying? && states[i].rows[id].lockedBy.None?
    ensures var n := states[i].failures[id];
            && id in states[i].failedAt && 0 < n
            && states[i].failedAt[id] + cfg.backoff * [1, 2, 4, 8, 16, 32, 64][if n < 6 then n else 6] <= actions[i].now
  {
    RunKeepsInv(cfg, states, actions, i);
    assert Step(cfg, states[i], actions[i], states[i + 1]);
  }

  /** The holder of a row gives it up, or starts over with it, by one of the updates that locked_by fences. */
  ghost predicate HolderMarks(s: State, action: Action, id: MessageId) {
    && action.Work? && action.tag.id == id && action.tag in s.attempts
    && id in s.rows && s.rows[id].lockedBy == Some(s.attempts[action.tag].owner)
    && (action.act.MarkPublished? || action.act.WriteFailed? || action.act.RetryDlq? || action.act.MarkDead?)
  }

  ghost predicate LeasedUntil(s: State, id: MessageId, until: int) {
    id in s.rows && s.rows[id].lockedBy.Some? && until <= s.rows[id].nextRetryAt
  }

  lemma ClaimLeases(cfg: Config, s: State, owner: Owner, now: int, ids: set<MessageId>, id: MessageId)
    requires Enabled(cfg, s, Claim(owner, now, ids)) && id in ids
    ensures s.rows[id].nextRetryAt <= now
    ensures var s' := After(cfg, s, Claim(owner, now, ids)); LeasedUntil(s', id, now + cfg.lease)
  {
  }

  lemma WorkKeepsLease(cfg: Config, s: State, tag: Tag, act: Act, id: MessageId, until: int)
    requires Enabled(cfg, s, Work(tag, act)) && LeasedUntil(s, id, until) && !HolderMarks(s, Work(tag, act), id)
    ensures LeasedUntil(After(cfg, s, Work(tag, act)), id, until)
  {
  }

  lemma StepKeepsLease(cfg: Config, s: State, action: Action, s': State, id: MessageId, until: int)
    requires ValidConfig(cfg) && Step(cfg, s, action, s') && LeasedUntil(s, id, until) && !HolderMarks(s, action, id)
    ensures LeasedUntil(s', id, until)
  {
    match action
    case Work(tag, act) => WorkKeepsLease(cfg, s, tag, act, id, until);
    case Claim(owner, now, ids) =>
      if id in ids {
        ClaimLeases(cfg, s, owner, now, ids, id);
      }
    case _ =>
  }

  lemma {:induction false} LeaseLasts(cfg: Config, states: seq<State>, actions: seq<Action>, i: nat, j: nat, id: MessageId)
    requires ValidConfig(cfg) && IsRun(cfg, states, actions) && i < j < |states|
    requires actions[i].Claim? && id in actions[i].ids
    requires forall k :: i < k < j ==> !HolderMarks(states[k], actions[k], id)
    ensures LeasedUntil(states[j], id, actions[i].now + cfg.lease)
    decreases j
  {
    var k: nat := j - 1;
    assert Step(cfg, states[k], actions[k], states[k + 1]);
    if i < k {
      LeaseLasts(cfg, states, actions, i, k, id);
      StepKeepsLease(cfg, states[k], actions[k], states[k + 1], id, actions[i].now + cfg.lease);
    } else {
      ClaimLeases(cfg, states[i], actions[i].owner, actions[i].now, actions[i].ids, id);
    }
  }

  /** The lease excludes: in every run, once a row is claimed at `now`, no claim takes it before now + lease, unless
      a holder marked it in between. */
  lemma LeaseExcludes(cfg: Config, states: seq<State>, actions: seq<Action>, i: nat, j: nat, id: MessageId)
    requires ValidConfig(cfg) && IsRun(cfg, states, actions) && i < j < |actions|
    requires actions[i].Claim? && id in actions[i].ids && actions[j].Claim? && id in actions[j].ids
    ensures actions[i].now + cfg.lease <= actions[j].now || exists k :: i < k < j && HolderMarks(states[k], actions[k], id)
  {
    if forall k :: i < k < j ==> !HolderMarks(states[k], actions[k], id) {
      LeaseLasts(cfg, states, actions, i, j, id);
      assert Step(cfg, states[j], actions[j], states[j + 1]);
    }
  }

  /** In every run, two attempts never hold one row together. */
  lemma OneHolderPerRow(cfg: Config, states: seq<State>, actions: seq<Action>, i: nat, t: Tag, u: Tag)
    requires ValidConfig(cfg) && IsRun(cfg, states, actions) && i < |states|
    requires t in states[i].attempts && u in states[i].attempts && t.id == u.id
    requires Fenced(states[i].rows, t.id, states[i].attempts[t].owner) && Fenced(states[i].rows, u.id, states[i].attempts[u].owner)
    ensures t == u
  {
    RunKeepsInv(cfg, states, actions, i);
  }

  // ---- No conversation gets stuck ----

  /** An unfinished conversation has a head at seq t + 1, it falls due within a lease or 80 backoffs, and from then on any
      idle owner can claim it. */
  lemma HeadBecomesClaimable(cfg: Config, s: State, conv: ConvId) returns (id: MessageId)
    requires ValidConfig(cfg) && Inv(cfg, s) && conv in s.last && Frontier(s, conv) < s.last[conv]
    ensures id in s.rows && s.rows[id].conv == conv && s.rows[id].seqNo == Frontier(s, conv) + 1
    ensures IsHead(s.rows, s.rows[id].shard, conv, id)
    ensures s.rows[id].nextRetryAt <= s.clock + Max(cfg.lease, 80 * cfg.backoff)
    ensures forall owner, now :: Idle(s, owner) && s.rows[id].nextRetryAt <= now <= s.clock ==> Enabled(cfg, s, Claim(owner, now, {id}))
  {
    var t := Frontier(s, conv);
    InvGivesQueueShape(cfg, s, conv);
    assert HasSeq(s.rows, conv, t + 1);
    id :| id in s.rows && s.rows[id].conv == conv && s.rows[id].seqNo == t + 1;
    var shard := s.rows[id].shard;
    forall o | InQueue(s.rows, shard, conv, o) ensures s.rows[id].seqNo <= s.rows[o].seqNo {
    }
  }

  /** Reachability by a given list of actions. */
  ghost predicate Reaches(cfg: Config, s: State, actions: seq<Action>, s': State)
    decreases |actions|
  {
    if actions == [] then s' == s
    else Enabled(cfg, s, actions[0]) && Reaches(cfg, After(cfg, s, actions[0]), actions[1..], s')
  }

  lemma {:induction false} ReachesExtends(cfg: Config, s: State, actions: seq<Action>, mid: State, action: Action)
    requires Reaches(cfg, s, actions, mid) && Enabled(cfg, mid, action)
    ensures Reaches(cfg, s, actions + [action], After(cfg, mid, action))
    decreases |actions|
  {
    var all := actions + [action];
    if actions == [] {
      assert all[1..] == [];
      assert Reaches(cfg, After(cfg, mid, action), all[1..], After(cfg, mid, action));
    } else {
      assert all[1..] == actions[1..] + [action] && all[0] == actions[0];
      ReachesExtends(cfg, After(cfg, s, actions[0]), actions[1..], mid, action);
    }
  }

  lemma FreshOwner(s: State) returns (owner: Owner)
    ensures Idle(s, owner)
  {
    var taken := set t | t in s.attempts :: s.attempts[t].owner;
    owner := FreshAbove(taken);
    forall t | t in s.attempts ensures s.attempts[t].owner != owner {
      assert s.attempts[t].owner in taken;
    }
  }

  /** Once its head is due, an idle owner can take it. */
  lemma ClaimOne(cfg: Config, s: State, id: MessageId, owner: Owner, due: int) returns (s': State, tag: Tag)
    requires Enabled(cfg, s, Claim(owner, due, {id}))
    ensures s' == After(cfg, s, Claim(owner, due, {id}))
    ensures tag.id == id && tag in s'.attempts && Fenced(s'.rows, id, s'.attempts[tag].owner)
    ensures s'.attempts[tag].phase == StartPhase(s'.rows[id].status)
    ensures s'.rows == s.rows[id := ClaimedRow(s.rows[id], owner, due, cfg.lease)] && s'.last == s.last
  {
    s' := After(cfg, s, Claim(owner, due, {id}));
    tag := Tag(s.claims, id);
    assert tag in NewAttempts(s.rows, s.claims, owner, {id});
  }

  lemma ReachClaim(cfg: Config, s: State, conv: ConvId, id: MessageId) returns (actions: seq<Action>, s': State, tag: Tag)
    requires id in s.rows && IsHead(s.rows, s.rows[id].shard, conv, id)
    ensures Reaches(cfg, s, actions, s')
    ensures tag.id == id && tag in s'.attempts && Fenced(s'.rows, id, s'.attempts[tag].owner)
    ensures s'.attempts[tag].phase == StartPhase(s'.rows[id].status)
    ensures s'.last == s.last && s'.rows == s.rows[id := s'.rows[id]]
    ensures s'.rows[id].conv == s.rows[id].conv && s'.rows[id].seqNo == s.rows[id].seqNo
  {
    var due := Max(s.clock, s.rows[id].nextRetryAt);
    var owner := FreshOwner(s);
    assert Reaches(cfg, s, [], s);
    ReachesExtends(cfg, s, [], s, Tick(due));
    var s1 := After(cfg, s, Tick(due));
    ReachesExtends(cfg, s, [] + [Tick(due)], s1, Claim(owner, due, {id}));
    actions := [] + [Tick(due)] + [Claim(owner, due, {id})];
    s', tag := ClaimOne(cfg, s1, id, owner, due);
  }

  /** The head was finished by an attempt whose lookup found these targets and that wrote all of them, unless it
      was on the dead-letter path already. */
  ghost predicate FinishedFor(s: State, id: MessageId, tag: Tag, targets: Targets) {
    && id in s.rows && Terminal(s.rows[id])
    && (s.rows[id].status.Published? ==>
          tag.id == id && tag in s.routes && s.routes[tag] == targets && AllWritten(s.pushes, tag, targets, targets.Keys))
  }

  ghost predicate CanAdvance(cfg: Config, s: State, conv: ConvId, targets: Targets)
    requires conv in s.last
  {
    exists actions, s', id, tag ::
      && Reaches(cfg, s, actions, s') && s'.last == s.last
      && Frontier(s', conv) == Frontier(s, conv) + 1
      && FinishedFor(s', id, tag, targets) && s'.rows[id].conv == conv && s'.rows[id].seqNo == Frontier(s', conv)
  }

  /** From every state of the invariant an unfinished conversation can get its head finished, whoever is online then:
      no crash, stale lease or lost reply blocks it for ever. */
  lemma FrontierCanAdvance(cfg: Config, s: State, conv: ConvId, targets: Targets)
    requires ValidConfig(cfg) && Inv(cfg, s) && conv in s.last && Frontier(s, conv) < s.last[conv]
    ensures CanAdvance(cfg, s, conv, targets)
  {
    var id := HeadBecomesClaimable(cfg, s, conv);
    var claiming, claimed, tag := ReachClaim(cfg, s, conv, id);
    var actions, s' := FinishAttempt(cfg, s, claiming, claimed, tag, targets);
    FrontierOfFinished(cfg, s, s', conv, id);
  }

  /** An attempt that holds its row and has just started can run to the end. */
  lemma FinishAttempt(cfg: Config, s0: State, before: seq<Action>, s: State, tag: Tag, targets: Targets) returns (actions: seq<Action>, s': State)
    requires Reaches(cfg, s0, before, s)
    requires tag in s.attempts && Fenced(s.rows, tag.id, s.attempts[tag].owner)
    requires s.attempts[tag].phase == StartPhase(s.rows[tag.id].status)
    ensures Reaches(cfg, s0, actions, s') && FinishedFor(s', tag.id, tag, targets)
    ensures s'.last == s.last && s'.rows == s.rows[tag.id := s'.rows[tag.id]]
    ensures s'.rows[tag.id].conv == s.rows[tag.id].conv && s'.rows[tag.id].seqNo == s.rows[tag.id].seqNo
  {
    if s.rows[tag.id].status.DlqPending? {
      actions, s' := TwoActs(cfg, s0, before, s, tag, DlqOk, MarkDead);
    } else {
      ReachesExtends(cfg, s0, before, s, Work(tag, RouteOk(targets)));
      var s1 := AfterAct(cfg, s, tag, RouteOk(targets));
      assert targets.Keys - targets.Keys == {};
      var writing, s2 := WriteTargets(cfg, s0, before + [Work(tag, RouteOk(targets))], s1, tag, targets.Keys);
      ReachesExtends(cfg, s0, writing, s2, Work(tag, MarkPublished(s2.clock)));
      actions := writing + [Work(tag, MarkPublished(s2.clock))];
      s' := AfterAct(cfg, s2, tag, MarkPublished(s2.clock));
    }
  }

  lemma TwoActs(cfg: Config, s0: State, before: seq<Action>, s: State, tag: Tag, a1: Act, a2: Act) returns (actions: seq<Action>, s': State)
    requires Reaches(cfg, s0, before, s) && tag in s.attempts && ActEnabled(cfg, s, tag, a1)
    requires tag in AfterAct(cfg, s, tag, a1).attempts && ActEnabled(cfg, AfterAct(cfg, s, tag, a1), tag, a2)
    ensures Reaches(cfg, s0, actions, s') && s' == AfterAct(cfg, AfterAct(cfg, s, tag, a1), tag, a2)
  {
    var s1 := AfterAct(cfg, s, tag, a1);
    ReachesExtends(cfg, s0, before, s, Work(tag, a1));
    ReachesExtends(cfg, s0, before + [Work(tag, a1)], s1, Work(tag, a2));
    actions := before + [Work(tag, a1)] + [Work(tag, a2)];
    s' := AfterAct(cfg, s1, tag, a2);
  }

  /** The partitions still to do can all be written. */
  lemma {:induction false} WriteTargets(cfg: Config, s0: State, before: seq<Action>, s: State, tag: Tag, todo: set<int>)
    returns (actions: seq<Action>, s': State)
    requires Reaches(cfg, s0, before, s) && tag in s.attempts && tag.id in s.rows && s.attempts[tag].phase.Publish?
    requires var ph := s.attempts[tag].phase;
             todo <= ph.targets.Keys && ph.done == ph.targets.Keys - todo && AllWritten(s.pushes, tag, ph.targets, ph.done)
    ensures Reaches(cfg, s0, actions, s')
    ensures s'.rows == s.rows && s'.last == s.last && s'.clock == s.clock && s'.routes == s.routes
    ensures var ts := s.attempts[tag].phase.targets;
            && tag in s'.attempts && s'.attempts[tag] == s.attempts[tag].(phase := Publish(ts, ts.Keys))
            && AllWritten(s'.pushes, tag, ts, ts.Keys)
    decreases |todo|
  {
    var ts := s.attempts[tag].phase.targets;
    if todo == {} {
      actions, s' := before, s;
      assert ts.Keys - todo == ts.Keys;
    } else {
      var p := AnyMember(todo);
      ReachesExtends(cfg, s0, before, s, Work(tag, PushOk(p)));
      var s1 := AfterAct(cfg, s, tag, PushOk(p));
      WroteOne(cfg, s, tag, p);
      assert ts.Keys - todo + {p} == ts.Keys - (todo - {p});
      actions, s' := WriteTargets(cfg, s0, before + [Work(tag, PushOk(p))], s1, tag, todo - {p});
    }
  }

  lemma WroteOne(cfg: Config, s: State, tag: Tag, p: int)
    requires tag in s.attempts && tag.id in s.rows && s.attempts[tag].phase.Publish?
    requires var ph := s.attempts[tag].phase; p in ph.targets && p !in ph.done && AllWritten(s.pushes, tag, ph.targets, ph.done)
    ensures var s', ph := AfterAct(cfg, s, tag, PushOk(p)), s.attempts[tag].phase;
            && s'.attempts == s.attempts[tag := s.attempts[tag].(phase := Publish(ph.targets, ph.done + {p}))]
            && AllWritten(s'.pushes, tag, ph.targets, ph.done + {p})
            && s'.rows == s.rows && s'.last == s.last && s'.clock == s.clock && s'.routes == s.routes
  {
    var s', ph := AfterAct(cfg, s, tag, PushOk(p)), s.attempts[tag].phase;
    WrittenGrows(s.pushes, s'.pushes, tag, ph.targets, ph.done);
    assert s'.pushes[|s.pushes|] == PushOf(s.rows, tag, s.attempts[tag], p);
    assert Written(s'.pushes, tag, p, ph.targets[p]);
  }

  lemma FrontierOfFinished(cfg: Config, s: State, s': State, conv: ConvId, id: MessageId)
    requires RowsInv(cfg, s.rows, s.last) && conv in s.last && s'.last == s.last
    requires id in s.rows && s.rows[id].conv == conv && s.rows[id].seqNo == Frontier(s, conv) + 1
    requires id in s'.rows && Terminal(s'.rows[id]) && s'.rows[id].conv == conv && s'.rows[id].seqNo == s.rows[id].seqNo
    requires s'.rows.Keys == s.rows.Keys
    requires forall o :: o in s.rows && o != id ==>
               s'.rows[o].conv == s.rows[o].conv && s'.rows[o].seqNo == s.rows[o].seqNo && (Terminal(s'.rows[o]) <==> Terminal(s.rows[o]))
    ensures Frontier(s', conv) == Frontier(s, conv) + 1
  {
    var t := Frontier(s, conv);
    InvGivesQueueShape(cfg, s, conv);
    assert TerminalAt(s'.rows, conv, t + 1);
    forall n | t + 1 < n <= s.last[conv] ensures !TerminalAt(s'.rows, conv, n) {
    }
  }
}

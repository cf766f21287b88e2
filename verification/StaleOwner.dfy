/** Why the order of pushes asks for fenced appends: one stale owner is enough to break it. */
module StaleOwner {
  import opened Common
  import opened OutboxRows
  import opened OutboxProtocol
  import opened OutboxRuns
  import opened Shards

  ghost predicate Reachable(cfg: Config, s: State) {
    exists states, actions :: IsRun(cfg, states, actions) && states[|states| - 1] == s
  }

  lemma Extend(cfg: Config, s: State, action: Action) returns (s': State)
    requires Reachable(cfg, s) && Enabled(cfg, s, action)
    ensures Reachable(cfg, s') && s' == After(cfg, s, action)
  {
    s' := After(cfg, s, action);
    var states, actions :| IsRun(cfg, states, actions) && states[|states| - 1] == s;
    assert IsRun(cfg, states + [s'], actions + [action]);
    assert (states + [s'])[|states + [s']| - 1] == s';
  }

  function FreshRow(cfg: Config, seqNo: int): Row {
    NewRow(1, seqNo, ShardId(cfg.checksum, 1), false, 0)
  }

  /** Conversation 1 with the messages 1 and 2 waiting. */
  lemma TwoWaiting(cfg: Config) returns (s: State)
    ensures Reachable(cfg, s) && s.clock == 0 && s.attempts == map[] && s.pushes == [] && s.claims == 0
    ensures s.rows == map[1 := FreshRow(cfg, 1), 2 := FreshRow(cfg, 2)]
  {
    s := State(0, map[], map[], map[], 0, [], [], map[], map[], multiset{}, map[]);
    assert IsRun(cfg, [s], []);
    assert [s][|[s]| - 1] == s;
    s := Extend(cfg, s, OpenConversation(1));
    s := Extend(cfg, s, Persist(1, 1, false, 0));
    s := Extend(cfg, s, Persist(2, 1, false, 0));
  }

  lemma TakeOne(cfg: Config, s: State, owner: Owner, id: MessageId) returns (s': State)
    requires Reachable(cfg, s) && Enabled(cfg, s, Claim(owner, s.clock, {id})) && id in s.rows && !s.rows[id].corrupt && !s.rows[id].status.DlqPending?
    ensures Reachable(cfg, s') && s'.clock == s.clock && s'.pushes == s.pushes && s'.claims == s.claims + 1
    ensures s'.rows == s.rows[id := ClaimedRow(s.rows[id], owner, s.clock, cfg.lease)]
    ensures s'.attempts == s.attempts[Tag(s.claims, id) := Attempt(owner, s.rows[id].retryCount, Route)]
  {
    s' := Extend(cfg, s, Claim(owner, s.clock, {id}));
    assert NewAttempts(s.rows, s.claims, owner, {id}) == map[Tag(s.claims, id) := Attempt(owner, s.rows[id].retryCount, Route)];
  }

  /** The attempt that a claim of one row starts, after its route lookup. */
  lemma ClaimAndRoute(cfg: Config, s: State, owner: Owner, id: MessageId, targets: Targets) returns (s': State)
    requires Reachable(cfg, s) && Enabled(cfg, s, Claim(owner, s.clock, {id})) && id in s.rows && !s.rows[id].corrupt && !s.rows[id].status.DlqPending?
    ensures Reachable(cfg, s') && s'.clock == s.clock && s'.pushes == s.pushes && s'.claims == s.claims + 1
    ensures s'.rows == s.rows[id := ClaimedRow(s.rows[id], owner, s.clock, cfg.lease)]
    ensures s'.attempts == s.attempts[Tag(s.claims, id) := Attempt(owner, s.rows[id].retryCount, Publish(targets, {}))]
  {
    var s1 := TakeOne(cfg, s, owner, id);
    s' := Extend(cfg, s1, Work(Tag(s.claims, id), RouteOk(targets)));
  }

  lemma HeadClaimable(cfg: Config, s: State, owner: Owner, id: MessageId)
    requires s.rows.Keys == {1, 2} && id in {1, 2} && forall k :: k in s.rows ==> s.rows[k].conv == 1 && s.rows[k].seqNo == k
    requires !Terminal(s.rows[id]) && (id == 2 ==> Terminal(s.rows[1])) && s.rows[id].nextRetryAt <= s.clock && Idle(s, owner)
    ensures Enabled(cfg, s, Claim(owner, s.clock, {id}))
  {
    assert IsHead(s.rows, s.rows[id].shard, s.rows[id].conv, id);
  }

  lemma Push1(cfg: Config, s: State, tag: Tag, partition: int) returns (s': State)
    requires Reachable(cfg, s) && tag in s.attempts && tag.id in s.rows
    requires s.attempts[tag].phase.Publish? && s.attempts[tag].phase.done == {} && partition in s.attempts[tag].phase.targets
    ensures Reachable(cfg, s') && s'.pushes == s.pushes + [PushOf(s.rows, tag, s.attempts[tag], partition)]
    ensures s'.rows == s.rows && s'.clock == s.clock
    ensures forall t :: t in s.attempts && t != tag ==> t in s'.attempts && s'.attempts[t] == s.attempts[t]
  {
    s' := Extend(cfg, s, Work(tag, PushOk(partition)));
  }

  /** Owner 10 takes message 1 and is held up until its lease has run out. */
  lemma HeldUp(cfg: Config) returns (s: State)
    requires ValidConfig(cfg)
    ensures Reachable(cfg, s) && s.clock == cfg.lease && s.pushes == [] && s.claims == 1
    ensures s.rows == map[1 := ClaimedRow(FreshRow(cfg, 1), 10, 0, cfg.lease), 2 := FreshRow(cfg, 2)]
    ensures s.attempts == map[Tag(0, 1) := Attempt(10, 0, Publish(map[7 := [5]], {}))]
  {
    var s0 := TwoWaiting(cfg);
    HeadClaimable(cfg, s0, 10, 1);
    var s1 := ClaimAndRoute(cfg, s0, 10, 1, map[7 := [5]]);
    s := Extend(cfg, s1, Tick(cfg.lease));
  }

  /** Owner 20 takes it over and publishes it to nobody. */
  lemma Overtaken(cfg: Config) returns (s: State)
    requires ValidConfig(cfg)
    ensures Reachable(cfg, s) && s.clock == cfg.lease && s.pushes == []
    ensures s.rows.Keys == {1, 2} && s.rows[2] == FreshRow(cfg, 2) && Terminal(s.rows[1]) && s.rows[1].conv == 1 && s.rows[1].seqNo == 1
    ensures s.attempts == map[Tag(0, 1) := Attempt(10, 0, Publish(map[7 := [5]], {}))]
  {
    var s0 := HeldUp(cfg);
    HeadClaimable(cfg, s0, 20, 1);
    var s1 := ClaimAndRoute(cfg, s0, 20, 1, map[]);
    s := Extend(cfg, s1, Work(Tag(1, 1), MarkPublished(cfg.lease)));
    assert s.attempts == s0.attempts;
  }

  /** A run in which message 2 reaches the push log before message 1: the append of a stale owner comes last. */
  lemma StaleAppendBreaksOrder(cfg: Config)
    requires ValidConfig(cfg)
    ensures exists s :: Reachable(cfg, s) && !OrderedPerConversation(s.pushes)
  {
    var s0 := Overtaken(cfg);
    HeadClaimable(cfg, s0, 20, 2);
    var s1 := ClaimAndRoute(cfg, s0, 20, 2, map[7 := [5]]);
    var s2 := Push1(cfg, s1, Tag(s0.claims, 2), 7);
    var s := Push1(cfg, s2, Tag(0, 1), 7);
    assert s.pushes[0].conv == s.pushes[1].conv && s.pushes[0].seqNo == 2 && s.pushes[1].seqNo == 1;
  }
}

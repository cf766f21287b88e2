/** The outbox publisher: route lookup and the publish attempt, as the worker runs them. */
module Publisher {
  import opened Common
  import opened OutboxRows
  import opened OutboxProtocol
  import Presence

  // ---- Route targets ----

  predicate Ascending(ids: seq<UserId>) {
    forall i, j :: 0 <= i < j < |ids| ==> ids[i] < ids[j]
  }

  predicate HasRoute(online: map<UserId, seq<Presence.ConnRoute>>, u: UserId, p: int) {
    u in online && exists k :: 0 <= k < |online[u]| && online[u][k].partition == p
  }

  /** Each partition in range lists exactly the users with a route there, ascending and never empty. */
  ghost predicate ExactTargets(targets: Targets, online: map<UserId, seq<Presence.ConnRoute>>, partitions: int) {
    && (forall p :: p in targets ==> 0 <= p < partitions && targets[p] != [] && Ascending(targets[p]))
    && (forall p, u :: p in targets && u in targets[p] ==> HasRoute(online, u, p))
    && (forall p, u :: 0 <= p < partitions && HasRoute(online, u, p) ==> p in targets && u in targets[p])
  }

  method Least(ids: set<UserId>) returns (least: UserId)
    requires ids != {}
    ensures least in ids && forall u :: u in ids ==> least <= u
  {
    least := Pick(ids);
    var todo := ids;
    while todo != {}
      invariant todo <= ids && least in ids
      invariant forall u :: u in ids && u !in todo ==> least <= u
      decreases todo
    {
      var u := Pick(todo);
      todo := todo - {u};
      if u < least {
        least := u;
      }
    }
  }

  method Sorted(ids: set<UserId>) returns (sorted: seq<UserId>)
    ensures Ascending(sorted)
    ensures forall u :: u in sorted <==> u in ids
    ensures sorted == [] ==> ids == {}
  {
    sorted := [];
    var todo := ids;
    while todo != {}
      invariant todo <= ids && Ascending(sorted)
      invariant forall u :: u in sorted <==> u in ids && u !in todo
      invariant forall u, v :: u in sorted && v in todo ==> u < v
      invariant sorted == [] ==> todo == ids
      decreases todo
    {
      var u := Least(todo);
      assert forall i :: 0 <= i < |sorted| ==> sorted[i] in sorted;
      todo := todo - {u};
      sorted := sorted + [u];
    }
  }

  /** The grouping loop of routeTargets; routes with a partition out of range are skipped. */
  method GroupByPartition(online: map<UserId, seq<Presence.ConnRoute>>, partitions: int) returns (grouped: map<int, set<UserId>>)
    ensures forall p :: p in grouped ==> 0 <= p < partitions && grouped[p] != {}
    ensures forall p, u :: p in grouped && u in grouped[p] ==> HasRoute(online, u, p)
    ensures forall p, u :: 0 <= p < partitions && HasRoute(online, u, p) ==> p in grouped && u in grouped[p]
  {
    grouped := map[];
    var todo := online.Keys;
    while todo != {}
      invariant todo <= online.Keys
      invariant forall p :: p in grouped ==> 0 <= p < partitions && grouped[p] != {}
      invariant forall p, u :: p in grouped && u in grouped[p] ==> HasRoute(online, u, p)
      invariant forall p, u :: 0 <= p < partitions && HasRoute(online, u, p) && u !in todo ==> p in grouped && u in grouped[p]
      decreases todo
    {
      var u := Pick(todo);
      todo := todo - {u};
      var routes := online[u];
      for i := 0 to |routes|
        invariant forall p :: p in grouped ==> 0 <= p < partitions && grouped[p] != {}
        invariant forall p, v :: p in grouped && v in grouped[p] ==> HasRoute(online, v, p)
        invariant forall p, v :: 0 <= p < partitions && HasRoute(online, v, p) && v !in todo && v != u ==> p in grouped && v in grouped[p]
        invariant forall k :: 0 <= k < i && 0 <= routes[k].partition < partitions ==>
                    routes[k].partition in grouped && u in grouped[routes[k].partition]
      {
        var p := routes[i].partition;
        if 0 <= p < partitions {
          assert HasRoute(online, u, p);
          grouped := grouped[p := (if p in grouped then grouped[p] else {}) + {u}];
        }
      }
    }
  }

  /** The second loop of routeTargets: each partition's users in ascending order. */
  method SortTargets(grouped: map<int, set<UserId>>) returns (targets: Targets)
    requires forall p :: p in grouped ==> grouped[p] != {}
    ensures targets.Keys == grouped.Keys
    ensures forall p :: p in targets ==> targets[p] != [] && Ascending(targets[p]) && forall u :: u in targets[p] <==> u in grouped[p]
  {
    targets := map[];
    var todo := grouped.Keys;
    while todo != {}
      invariant todo <= grouped.Keys
      invariant targets.Keys == grouped.Keys - todo
      invariant forall p :: p in targets ==> targets[p] != [] && Ascending(targets[p]) && forall u :: u in targets[p] <==> u in grouped[p]
      decreases todo
    {
      var p := Pick(todo);
      todo := todo - {p};
      var ids := Sorted(grouped[p]);
      targets := targets[p := ids];
    }
  }

  /** The snapshot of members in the event, or the membership table for events that carry none. */
  datatype Members = Members(snapshot: seq<UserId>, fallback: Option<seq<UserId>>)

  function MemberIds(m: Members): Option<seq<UserId>> {
    if m.snapshot != [] then Some(m.snapshot) else m.fallback
  }

  function PartitionCount(configured: int): int {
    if configured <= 0 then 1 else configured
  }

  /** Routing is exact: given that a connection id is listed for one user only, partition p's list holds u if
      and only if u is a member with a live route whose partition is p, and p is in range. Without a registry
      or without members the lookup fails. */
  method RouteTargets(registry: Presence.PresenceRegistry?, members: Members, configured: int, now: int, later: int)
    returns (found: Option<Targets>)
    requires now <= later
    modifies registry
    ensures found.None? <==> registry == null || (members.snapshot == [] && members.fallback.None?)
    ensures found.Some? ==>
              forall p :: p in found.value ==>
                && (if configured <= 0 then p == 0 else 0 <= p < configured)
                && found.value[p] != [] && forall i, j :: 0 <= i < j < |found.value[p]| ==> found.value[p][i] < found.value[p][j]
    ensures found.Some? ==>
              forall p, u :: p in found.value && u in found.value[p] ==>
                && (if members.snapshot != [] then u in members.snapshot else u in members.fallback.value)
                && 0 < u && ReachableAt(registry.routes, old(registry.users), now, later, u, p)
    ensures found.Some? && Presence.OneUserPerConnection(old(registry.users)) ==>
              forall p, u :: && (if configured <= 0 then p == 0 else 0 <= p < configured)
                             && (if members.snapshot != [] then u in members.snapshot else u in members.fallback.value)
                             && 0 < u && ReachableAt(registry.routes, old(registry.users), now, later, u, p) ==>
                p in found.value && u in found.value[p]
  {
    if registry == null || MemberIds(members).None? {
      return None;
    }
    var ids := MemberIds(members).value;
    var partitions := PartitionCount(configured);
    ghost var users := registry.users;
    var online := registry.OnlineConnectionsBatch(ids, now, later);
    var grouped := GroupByPartition(online, partitions);
    var targets := SortTargets(grouped);
    assert ExactTargets(targets, online, partitions);
    forall p, u | p in targets && u in targets[p] ensures u in ids && 0 < u && ReachableAt(registry.routes, users, now, later, u, p) {
      assert HasRoute(online, u, p);
      var k :| 0 <= k < |online[u]| && online[u][k].partition == p;
      assert online[u][k] in online[u];
    }
    if Presence.OneUserPerConnection(users) {
      forall p, u | 0 <= p < partitions && u in ids && 0 < u && ReachableAt(registry.routes, users, now, later, u, p)
        ensures p in targets && u in targets[p]
      {
        var r :| Presence.Live(registry.routes, users, now, later, u, r) && r.partition == p;
        assert r in online[u];
        assert HasRoute(online, u, p);
      }
    }
    found := Some(targets);
  }

  ghost predicate ReachableAt(routes: Presence.Routes, users: Presence.Users, now: int, later: int, u: UserId, p: int) {
    exists r :: Presence.Live(routes, users, now, later, u, r) && r.partition == p
  }

  // ---- One publish attempt ----

  /** The push partitions and the dead-letter topic. An append that reports success happened; one that reports
      an error may have happened. */
  class Broker {
    var pushes: seq<Push>
    var dlq: seq<DeadLetter>
    ghost var errors: nat  // how many appends reported an error

    constructor ()
      ensures pushes == [] && dlq == [] && errors == 0
    {
      pushes, dlq, errors := [], [], 0;
    }

    method PublishPush(p: Push) returns (ok: bool, landed: bool)
      modifies this
      ensures ok ==> landed
      ensures pushes == (if landed then old(pushes) + [p] else old(pushes)) && dlq == old(dlq)
      ensures errors == if ok then old(errors) else old(errors) + 1
    {
      ok, landed := *, *;
      landed := landed || ok;
      if landed {
        pushes := pushes + [p];
      }
      errors := if ok then errors else errors + 1;
    }

    method PublishDlq(d: DeadLetter) returns (ok: bool, landed: bool)
      modifies this
      ensures ok ==> landed
      ensures dlq == (if landed then old(dlq) + [d] else old(dlq)) && pushes == old(pushes)
      ensures errors == if ok then old(errors) else old(errors) + 1
    {
      ok, landed := *, *;
      landed := landed || ok;
      if landed {
        dlq := dlq + [d];
      }
      errors := if ok then errors else errors + 1;
    }
  }

  /** Two states joined by acts of one attempt. */
  ghost predicate Acts(cfg: Config, s: State, tag: Tag, acts: seq<Act>, s': State)
    decreases |acts|
  {
    if acts == [] then s' == s
    else tag in s.attempts && ActEnabled(cfg, s, tag, acts[0]) && Acts(cfg, AfterAct(cfg, s, tag, acts[0]), tag, acts[1..], s')
  }

  lemma {:induction false} ActsExtend(cfg: Config, s: State, tag: Tag, acts: seq<Act>, mid: State, act: Act)
    requires Acts(cfg, s, tag, acts, mid) && tag in mid.attempts && ActEnabled(cfg, mid, tag, act)
    ensures Acts(cfg, s, tag, acts + [act], AfterAct(cfg, mid, tag, act))
    decreases |acts|
  {
    var all := acts + [act];
    if acts == [] {
      assert all[1..] == [];
      assert Acts(cfg, AfterAct(cfg, mid, tag, act), tag, all[1..], AfterAct(cfg, mid, tag, act));
    } else {
      assert all[1..] == acts[1..] + [act] && all[0] == acts[0];
      ActsExtend(cfg, AfterAct(cfg, s, tag, acts[0]), tag, acts[1..], mid, act);
    }
  }

  lemma {:induction false} ActsKeepInv(cfg: Config, s: State, tag: Tag, acts: seq<Act>, s': State)
    requires ValidConfig(cfg) && Inv(cfg, s) && Acts(cfg, s, tag, acts, s')
    ensures Inv(cfg, s')
    decreases |acts|
  {
    if acts != [] {
      ActKeepsInv(cfg, s, tag, acts[0]);
      ActsKeepInv(cfg, AfterAct(cfg, s, tag, acts[0]), tag, acts[1..], s');
    }
  }

  /** A dead-letter append failed: the row stays as it was, free, and put off by one backoff. */
  ghost predicate PutOff(cfg: Config, r: Row, was: Row, now: int) {
    r == was.(nextRetryAt := now + cfg.backoff, lockedBy := None, lockedAt := None)
  }

  /** A failed attempt: the failure is counted once. Below the bound the row is free and waits for a retry inside its
      backoff window; at the bound it is dead if its dead-letter record was appended, and put off if not. */
  ghost predicate FailureCounted(cfg: Config, was: Row, r: Row, now: int, appended: bool) {
    && r.retryCount == was.retryCount + 1
    && (if r.retryCount < cfg.maxRetries then r.status.Retrying? && r.lockedBy.None? && InBackoffWindow(cfg, r, now)
        else if appended then r.status.Dead? && r.lockedBy.None?
        else PutOff(cfg, r, was.(status := DlqPending, retryCount := was.retryCount + 1), now))
  }

  /** The count alone settles a failure below the bound, at `now`; at the bound the dead-letter step that follows
      does. */
  lemma FailureSettled(cfg: Config, was: Row, counted: Row, r: Row, owner: Owner, now: int, at: int, jitter: int, appended: bool)
    requires 0 < cfg.backoff && ValidJitter(Delay(cfg.backoff, was.retryCount + 1), jitter)
    requires counted == FailedRow(was, was.retryCount, cfg.maxRetries, cfg.backoff, cfg.lease, owner, now, jitter)
    requires if counted.retryCount < cfg.maxRetries then r == counted && at == now
             else if appended then r == DeadRow(counted) else PutOff(cfg, r, counted, at)
    ensures FailureCounted(cfg, was, r, at, appended)
    ensures r.status.Dead? ==> appended
    ensures r.status.Retrying? ==> counted.retryCount < cfg.maxRetries
  {
    WaitInWindow(cfg.backoff, was.retryCount + 1, jitter);
  }

  /** Only this row may have changed. */
  ghost predicate OnlyRow(rows: Table, rows': Table, id: MessageId) {
    rows'.Keys == rows.Keys && forall o :: o in rows && o != id ==> rows'[o] == rows[o]
  }

  /** How an attempt of a holder ends when no call to the repository reports an error: published or dead if all went
      well, otherwise counted as a failure, or, on the dead-letter path, put off. */
  ghost predicate Ended(cfg: Config, dlqPath: bool, was: Row, r: Row, at: int, ok: bool, appended: bool) {
    if dlqPath then (if ok then r == DeadRow(was) else PutOff(cfg, r, was, at))
    else if ok then r == PublishedRow(was, at) else FailureCounted(cfg, was, r, at, appended)
  }

  /** The worker, with nobody else acting between its own statements. `run` is the protocol state that the
      table and the logs stand for; each method moves it along acts of this one attempt, so the code follows
      the protocol act by act. The other interleavings are those of the protocol itself. `env` is the connection
      to the database, `clock` the protocol's clock meanwhile. */
  class Worker {
    const cfg: Config
    const repo: OutboxRepository
    const broker: Broker
    const env: Environment
    const tag: Tag
    const owner: Owner
    const clock: int
    ghost const start: State
    ghost var run: State
    ghost var acts: seq<Act>

    ghost predicate Follows()
      reads this, repo, broker
    {
      && 0 < cfg.backoff && 0 < cfg.lease
      && Acts(cfg, start, tag, acts, run)
      && run.rows == repo.rows && run.pushes == broker.pushes && run.dlq == broker.dlq && run.clock == clock
      && tag.id in run.rows
    }

    /** The attempt is still this worker's, and stands at `phase`. */
    ghost predicate At(phase: Phase, retryCount: nat)
      reads this
    {
      tag in run.attempts && run.attempts[tag] == Attempt(owner, retryCount, phase)
    }

    predicate Holds()
      reads this, repo
    {
      Fenced(repo.rows, tag.id, owner)
    }

    constructor (cfg: Config, repo: OutboxRepository, broker: Broker, env: Environment, tag: Tag, owner: Owner, clock: int, ghost s: State)
      requires 0 < cfg.backoff && 0 < cfg.lease && tag.id in s.rows
      requires s.rows == repo.rows && s.pushes == broker.pushes && s.dlq == broker.dlq && s.clock == clock
      ensures this.cfg == cfg && this.repo == repo && this.broker == broker && this.env == env
      ensures this.tag == tag && this.owner == owner && this.clock == clock
      ensures start == s && run == s && acts == [] && Follows()
    {
      this.cfg, this.repo, this.broker, this.env, this.tag, this.owner, this.clock := cfg, repo, broker, env, tag, owner, clock;
      this.start, this.run, this.acts := s, s, [];
    }

    ghost method Did(act: Act)
      requires Acts(cfg, start, tag, acts, run)
      requires tag in run.attempts && ActEnabled(cfg, run, tag, act)
      modifies `run, `acts
      ensures Acts(cfg, start, tag, acts, run)
      ensures run.clock == old(run.clock)
      ensures run.rows == RowsAfter(cfg, old(run.rows), tag.id, old(run.attempts)[tag], act)
      ensures run.attempts == AttemptsAfter(old(run.attempts), tag, act)
      ensures run.pushes == PushesAfter(old(run), tag, act)
      ensures run.dlq == DlqAfter(old(run), tag, act)
    {
      ActsExtend(cfg, start, tag, acts, run, act);
      run, acts := AfterAct(cfg, run, tag, act), acts + [act];
    }

    /** Each statement reads the clock again, some time after `since`. */
    method Now(since: int) returns (at: int)
      requires since <= clock
      ensures since <= at <= clock
    {
      at :| since <= at <= clock;
    }

    /** publishOne. `lookup` is what routeTargets answered (None when it failed). Every way through is a list of
        acts of this attempt; `ok` says that the lookup and every append went well, and `at` is when the row was
        last updated. If no call to the repository reports an error, a worker that holds its row leaves it
        published or dead if all went well, and counted or put off if not. A worker that has lost its row
        changes nothing. */
    method PublishOne(rec: Record, lookup: Option<Targets>, since: int) returns (ok: bool, ghost at: int)
      requires Follows() && rec.id == tag.id && At(StartPhase(rec.status), rec.retryCount) && since <= clock
      requires rec.status.DlqPending? && Holds() ==> repo.rows[tag.id].status.DlqPending?
      modifies this, repo, broker, env
      ensures Follows() && OnlyRow(old(repo.rows), repo.rows, tag.id) && old(env.failures) <= env.failures && since <= at <= clock
      ensures !old(Holds()) ==> repo.rows == old(repo.rows)
      ensures ok <==> (rec.status.DlqPending? || lookup.Some?) && broker.errors == old(broker.errors)
      ensures env.failures == old(env.failures) && old(Holds()) ==>
                && Ended(cfg, rec.status.DlqPending?, old(repo.rows)[tag.id], repo.rows[tag.id], at, ok,
                         broker.errors == old(broker.errors) + if lookup.None? then 0 else 1)
                && (repo.rows[tag.id].status.Dead? ==>
                      broker.dlq == old(broker.dlq) + [DeadLetter(tag, rec.retryCount + if rec.status.DlqPending? then 0 else 1)])
    {
      if rec.status.DlqPending? {
        ok, at := PublishDlq(rec.retryCount, since);
      } else {
        ok, at := PublishEvent(rec.retryCount, lookup, since);
      }
    }

    /** publishOne for a row that is not on the dead-letter path. */
    method PublishEvent(retryCount: nat, lookup: Option<Targets>, since: int) returns (ok: bool, ghost at: int)
      requires Follows() && At(Route, retryCount) && since <= clock
      modifies this, repo, broker, env
      ensures Follows() && OnlyRow(old(repo.rows), repo.rows, tag.id) && old(env.failures) <= env.failures && since <= at <= clock
      ensures !old(Holds()) ==> repo.rows == old(repo.rows)
      ensures ok <==> lookup.Some? && broker.errors == old(broker.errors)
      ensures env.failures == old(env.failures) && old(Holds()) ==>
                && Ended(cfg, false, old(repo.rows)[tag.id], repo.rows[tag.id], at, ok,
                         broker.errors == old(broker.errors) + if lookup.None? then 0 else 1)
                && (repo.rows[tag.id].status.Dead? ==> broker.dlq == old(broker.dlq) + [DeadLetter(tag, retryCount + 1)])
    {
      if lookup.None? {
        Did(RouteErr);
        at := MarkFailed(retryCount, since);
        ok := false;
      } else {
        Did(RouteOk(lookup.value));
        ok, at := PublishRouted(retryCount, lookup.value, since);
      }
    }

    method PublishRouted(retryCount: nat, targets: Targets, since: int) returns (ok: bool, ghost at: int)
      requires Follows() && At(Publish(targets, {}), retryCount) && since <= clock
      modifies this, repo, broker, env
      ensures Follows() && OnlyRow(old(repo.rows), repo.rows, tag.id) && old(env.failures) <= env.failures && since <= at <= clock
      ensures !old(Holds()) ==> repo.rows == old(repo.rows)
      ensures ok <==> broker.errors == old(broker.errors)
      ensures env.failures == old(env.failures) && old(Holds()) ==>
                && Ended(cfg, false, old(repo.rows)[tag.id], repo.rows[tag.id], at, ok, broker.errors == old(broker.errors) + 1)
                && (repo.rows[tag.id].status.Dead? ==> broker.dlq == old(broker.dlq) + [DeadLetter(tag, retryCount + 1)])
    {
      ok := PublishTargets(retryCount, targets);
      if ok {
        at := Confirm(retryCount, targets, since);
      } else {
        at := MarkFailed(retryCount, since);
      }
    }

    /** MarkPublished, which may be lost on the way there or back. */
    method Confirm(retryCount: nat, targets: Targets, since: int) returns (ghost at: int)
      requires Follows() && At(Publish(targets, targets.Keys), retryCount) && since <= clock
      modifies this, repo, env
      ensures Follows() && OnlyRow(old(repo.rows), repo.rows, tag.id) && old(env.failures) <= env.failures && since <= at <= clock
      ensures !old(Holds()) ==> repo.rows == old(repo.rows)
      ensures env.failures == old(env.failures) && old(Holds()) ==> repo.rows[tag.id] == PublishedRow(old(repo.rows)[tag.id], at)
    {
      var now := Now(since);
      at := now;
      var lost := env.Fails();
      var landed := *;
      if !lost || landed {
        var applied := repo.MarkPublished(tag.id, now, owner);
        Did(MarkPublished(now));
      }
    }

    /** The loop over the target partitions, left at the first failure. */
    method PublishTargets(retryCount: nat, targets: Targets) returns (ok: bool)
      requires Follows() && At(Publish(targets, {}), retryCount)
      modifies this, broker
      ensures Follows() && repo.rows == old(repo.rows)
      ensures At(if ok then Publish(targets, targets.Keys) else FailRead, retryCount)
      ensures broker.errors == (if ok then old(broker.errors) else old(broker.errors) + 1) && broker.dlq == old(broker.dlq)
    {
      var todo := targets.Keys;
      assert targets.Keys - todo == {};
      while todo != {}
        invariant todo <= targets.Keys
        invariant Follows() && repo.rows == old(repo.rows)
        invariant At(Publish(targets, targets.Keys - todo), retryCount)
        invariant broker.errors == old(broker.errors) && broker.dlq == old(broker.dlq)
        decreases todo
      {
        var p := Pick(todo);
        ok := PushTo(retryCount, targets, targets.Keys - todo, p);
        if !ok {
          return;
        }
        assert targets.Keys - todo + {p} == targets.Keys - (todo - {p});
        todo := todo - {p};
      }
      assert targets.Keys - todo == targets.Keys;
      ok := true;
    }

    method PushTo(retryCount: nat, targets: Targets, ghost done: set<int>, p: int) returns (ok: bool)
      requires Follows() && At(Publish(targets, done), retryCount) && p in targets && p !in done
      modifies this, broker
      ensures Follows() && repo.rows == old(repo.rows)
      ensures At(if ok then Publish(targets, done + {p}) else FailRead, retryCount)
      ensures broker.errors == (if ok then old(broker.errors) else old(broker.errors) + 1) && broker.dlq == old(broker.dlq)
    {
      var landed: bool;
      ok, landed := broker.PublishPush(Push(tag, owner, repo.rows[tag.id].conv, repo.rows[tag.id].seqNo, p, targets[p]));
      if ok {
        Did(PushOk(p));
      } else {
        Did(PushErr(p, landed));
      }
    }

    /** markFailed: count the failure, and go straight on to the dead-letter topic when it was the last one. */
    method MarkFailed(retryCount: nat, since: int) returns (ghost at: int)
      requires Follows() && At(FailRead, retryCount) && since <= clock
      modifies this, repo, broker, env
      ensures Follows() && OnlyRow(old(repo.rows), repo.rows, tag.id) && since <= at <= clock
      ensures old(broker.errors) <= broker.errors && old(env.failures) <= env.failures
      ensures !old(Holds()) ==> repo.rows == old(repo.rows) && broker.dlq == old(broker.dlq)
      ensures env.failures == old(env.failures) && old(Holds()) ==>
                && FailureCounted(cfg, old(repo.rows)[tag.id], repo.rows[tag.id], at, broker.errors == old(broker.errors))
                && (repo.rows[tag.id].status.Dead? ==> broker.dlq == old(broker.dlq) + [DeadLetter(tag, retryCount + 1)])
                && (repo.rows[tag.id].status.Retrying? ==> broker.dlq == old(broker.dlq))
    {
      var now := Now(since);
      at := now;
      var lost := env.Fails();
      if lost {
        return;
      }
      var seen := repo.ReadRetries(tag.id, owner);
      Did(ReadRetries(now, seen));
      if seen.None? {
        return;
      }
      at := CountAndSettle(retryCount, seen.value, now);
    }

    /** The update half of markFailed, and what follows it. */
    method CountAndSettle(retryCount: nat, retries: nat, now: int) returns (ghost at: int)
      requires Follows() && At(FailWrite(retries, now), retryCount) && now <= clock
      requires Holds() ==> repo.rows[tag.id].retryCount == retries
      modifies this, repo, broker, env
      ensures Follows() && OnlyRow(old(repo.rows), repo.rows, tag.id) && now <= at <= clock
      ensures old(broker.errors) <= broker.errors && old(env.failures) <= env.failures
      ensures !old(Holds()) ==> repo.rows == old(repo.rows) && broker.dlq == old(broker.dlq)
      ensures env.failures == old(env.failures) && old(Holds()) ==>
                && FailureCounted(cfg, old(repo.rows)[tag.id], repo.rows[tag.id], at, broker.errors == old(broker.errors))
                && (repo.rows[tag.id].status.Dead? ==> broker.dlq == old(broker.dlq) + [DeadLetter(tag, retryCount + 1)])
                && (repo.rows[tag.id].status.Retrying? ==> broker.dlq == old(broker.dlq))
    {
      at := now;
      var lost := env.Fails();
      var landed := *;
      if lost && !landed {
        return;
      }
      ghost var jitter: int;
      var needsDlq;
      needsDlq, jitter := CountFailure(retryCount, retries, now);
      if lost {
        return;
      }
      ghost var counted := repo.rows[tag.id];
      if needsDlq {
        var ok;
        ok, at := PublishDlq(retryCount + 1, now);
      }
      if env.failures == old(env.failures) && old(Holds()) {
        FailureSettled(cfg, old(repo.rows)[tag.id], counted, repo.rows[tag.id], owner, now, at, jitter, broker.errors == old(broker.errors));
      }
    }

    /** rand.Int63n, which is not called with 0. */
    method Jitter(delay: int) returns (jitter: int)
      ensures ValidJitter(delay, jitter)
    {
      jitter := 0;
      if delay / 4 > 0 {
        jitter :| 0 <= jitter < delay / 4;
      }
    }

    method CountFailure(retryCount: nat, retries: nat, now: int) returns (needsDlq: bool, ghost jitter: int)
      requires Follows() && At(FailWrite(retries, now), retryCount)
      requires Holds() ==> repo.rows[tag.id].retryCount == retries
      modifies this, repo
      ensures Follows() && OnlyRow(old(repo.rows), repo.rows, tag.id) && ValidJitter(Delay(cfg.backoff, retries + 1), jitter)
      ensures needsDlq ==> At(DlqPublish, retryCount + 1) && Holds() && repo.rows[tag.id].status.DlqPending?
      ensures !old(Holds()) ==> !needsDlq && repo.rows == old(repo.rows)
      ensures old(Holds()) ==>
                && repo.rows[tag.id] == FailedRow(old(repo.rows)[tag.id], retries, cfg.maxRetries, cfg.backoff, cfg.lease, owner, now, jitter)
                && (needsDlq <==> retries + 1 >= cfg.maxRetries)
    {
      var drawn := Jitter(Delay(cfg.backoff, retries + 1));
      jitter := drawn;
      var applied: bool;
      applied, needsDlq := repo.UpdateFailed(tag.id, retries, cfg.maxRetries, cfg.backoff, cfg.lease, owner, now, drawn);
      Did(WriteFailed(drawn, applied, needsDlq));
    }

    /** publishDLQ: the row becomes terminal only after the dead-letter record was appended; otherwise it is
        put off and stays the head. */
    method PublishDlq(retryCount: nat, since: int) returns (ok: bool, ghost at: int)
      requires Follows() && At(DlqPublish, retryCount) && since <= clock
      requires Holds() ==> repo.rows[tag.id].status.DlqPending?
      modifies this, repo, broker, env
      ensures Follows() && OnlyRow(old(repo.rows), repo.rows, tag.id) && old(env.failures) <= env.failures && since <= at <= clock
      ensures ok <==> broker.errors == old(broker.errors)
      ensures old(broker.errors) <= broker.errors && (ok ==> broker.dlq == old(broker.dlq) + [DeadLetter(tag, retryCount)])
      ensures !old(Holds()) ==> repo.rows == old(repo.rows)
      ensures env.failures == old(env.failures) && old(Holds()) ==>
                var was, r := old(repo.rows)[tag.id], repo.rows[tag.id];
                if ok then r == DeadRow(was) else PutOff(cfg, r, was, at)
    {
      ok := AppendDeadLetter(retryCount);
      var now := Now(since);
      at := now;
      var lost := env.Fails();
      var landed := *;
      if !lost || landed {
        SettleDlq(retryCount, ok, now);
      }
    }

    /** The row's last step on the dead-letter path, or its next wait. */
    method SettleDlq(retryCount: nat, ok: bool, now: int)
      requires Follows() && At(if ok then DlqMark else DlqBackoff, retryCount) && now <= clock
      requires Holds() ==> repo.rows[tag.id].status.DlqPending?
      modifies this, repo
      ensures Follows() && OnlyRow(old(repo.rows), repo.rows, tag.id)
      ensures !old(Holds()) ==> repo.rows == old(repo.rows)
      ensures old(Holds()) ==>
                var was, r := old(repo.rows)[tag.id], repo.rows[tag.id];
                if ok then r == DeadRow(was) else PutOff(cfg, r, was, now)
    {
      if ok {
        var applied := repo.MarkDead(tag.id, owner);
        Did(MarkDead);
      } else {
        var applied := repo.RetryDlq(tag.id, cfg.backoff, owner, now);
        Did(RetryDlq(now));
      }
    }

    method AppendDeadLetter(retryCount: nat) returns (ok: bool)
      requires Follows() && At(DlqPublish, retryCount)
      modifies this, broker
      ensures Follows() && repo.rows == old(repo.rows)
      ensures At(if ok then DlqMark else DlqBackoff, retryCount)
      ensures broker.errors == (if ok then old(broker.errors) else old(broker.errors) + 1)
      ensures ok ==> broker.dlq == old(broker.dlq) + [DeadLetter(tag, retryCount)]
    {
      var landed: bool;
      ok, landed := broker.PublishDlq(DeadLetter(tag, retryCount));
      if ok {
        Did(DlqOk);
      } else {
        Did(DlqErr(landed));
      }
    }
  }
}

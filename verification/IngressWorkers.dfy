/**
  The two ends of the ingress pipeline as they run: Send with its idempotency store, and the persist worker of
  one partition. Every method moves the machine of module Ingress along its steps, so what is proved there of
  every run holds of what these methods do.
*/
module IngressWorkers {
  import opened Common
  import opened MessageStore
  import opened Ingress

  /** A key is gone once the clock has passed its expiry. */
  datatype Entry = Entry(value: IdemValue, expireAt: int)

  type Entries = map<RawKey, Entry>

  datatype Acquisition = Taken(nonce: nat) | AlreadyAccepted | InProgress | Unreachable

  predicate Live(entries: Entries, raw: RawKey, now: int) {
    raw in entries && now <= entries[raw].expireAt
  }

  function Values(entries: Entries): map<RawKey, IdemValue> {
    map k | k in entries :: entries[k].value
  }

  predicate OwnedAt(entries: Entries, raw: RawKey, nonce: nat, now: int) {
    Live(entries, raw, now) && entries[raw].value == Processing(nonce)
  }

  /** The keys in Redis, and this process's nonces. A script whose reply is lost may have run or not. */
  class IdempotencyStore {
    const env: Environment
    const processingTtl: int
    const acceptedTtl: int
    var entries: Entries
    var nonces: nat

    constructor (env: Environment, processingTtl: int, acceptedTtl: int)
      ensures this.env == env && this.processingTtl == processingTtl && this.acceptedTtl == acceptedTtl && entries == map[] && nonces == 0
    {
      this.env, this.processingTtl, this.acceptedTtl := env, processingTtl, acceptedTtl;
      entries, nonces := map[], 0;
    }

    /** Set if absent, with the three-way answer. */
    method Acquire(raw: RawKey, now: int) returns (a: Acquisition, nonce: nat, ghost took: bool)
      modifies this, env
      ensures nonce == nonces == old(nonces) + 1
      ensures old(env.failures) <= env.failures && (a.Unreachable? <==> env.failures != old(env.failures))
      ensures entries == if took then old(entries)[raw := Entry(Processing(nonce), now + processingTtl)] else old(entries)
      ensures took ==> raw !in old(entries) || old(entries)[raw].expireAt < now
      ensures match a
              case Taken(n) => took && n == nonce
              case AlreadyAccepted => !took && raw in entries && now <= entries[raw].expireAt && entries[raw].value.Accepted?
              case InProgress => !took && raw in entries && now <= entries[raw].expireAt && !entries[raw].value.Accepted?
              case Unreachable => true
    {
      nonces := nonces + 1;
      nonce := nonces;
      var lost := env.Fails();
      var ran := *;
      took := false;
      if lost && !ran {
        return Unreachable, nonce, took;
      }
      if Live(entries, raw, now) {
        a := if entries[raw].value.Accepted? then AlreadyAccepted else InProgress;
      } else {
        entries := entries[raw := Entry(Processing(nonce), now + processingTtl)];
        took := true;
        a := Taken(nonce);
      }
      if lost {
        a := Unreachable;
      }
    }

    /** The conditional script: to accepted with a new TTL, or away. Only the holder of the nonce changes anything. */
    method Conclude(raw: RawKey, nonce: nat, accept: bool, now: int) returns (ghost done: bool)
      modifies `entries, env
      ensures old(env.failures) <= env.failures
      ensures done ==> raw in old(entries) && old(entries)[raw].value == Processing(nonce) && now <= old(entries)[raw].expireAt
      ensures env.failures == old(env.failures) && raw in old(entries) && old(entries)[raw].value == Processing(nonce) && now <= old(entries)[raw].expireAt
              ==> done
      ensures entries == if !done then old(entries)
                         else if accept then old(entries)[raw := Entry(Accepted, now + acceptedTtl)] else old(entries) - {raw}
    {
      done := false;
      var lost := env.Fails();
      var ran := *;
      if lost && !ran {
        return;
      }
      if !OwnedAt(entries, raw, nonce, now) {
        return;
      }
      if accept {
        entries := entries[raw := Entry(Accepted, now + acceptedTtl)];
      } else {
        entries := entries - {raw};
      }
      done := true;
    }
  }

  /** Redis, Kafka and MySQL as both ends see them. */
  class System {
    const cfg: Config
    const env: Environment
    const idem: IdempotencyStore
    var inbox: seq<seq<Record>>
    var committed: seq<nat>
    var dlq: set<(nat, nat)>
    var db: Db
    ghost var run: State
    ghost var tries: nat       // how often Persist was called
    ghost var permanents: nat  // how many of the calls failed with a permanent error

    ghost predicate Valid()
      reads this, idem
    {
      && Reachable(cfg, run) && 0 < cfg.partitions == |inbox| && idem.env == env
      && run.idem == Values(idem.entries) && run.inbox == inbox && run.committed == committed && run.dlq == dlq && run.db == db
    }

    constructor (cfg: Config, idem: IdempotencyStore)
      requires idem.entries == map[] && 0 < cfg.partitions
      ensures this.cfg == cfg && this.idem == idem && this.env == idem.env && Valid() && Initial(cfg, run)
    {
      this.cfg, this.idem, this.env := cfg, idem, idem.env;
      inbox, committed := seq(cfg.partitions, _ => []), seq(cfg.partitions, _ => 0);
      dlq, db := {}, Db(map[], map[], map[]);
      run := State(map[], seq(cfg.partitions, _ => []), map[], [], map[], seq(cfg.partitions, _ => 0), {}, Db(map[], map[], map[]));
      new;
      assert Initial(cfg, run);
    }

    ghost method Did(action: Action)
      requires Reachable(cfg, run) && Enabled(cfg, run, action)
      modifies `run
      ensures Reachable(cfg, run) && run == After(cfg, old(run), action)
    {
      run := Extend(cfg, run, action);
    }

    // ---- The sender's side; x names the call to Send in the run ----

    ghost predicate Sending(x: nat, phase: SendPhase, raw: RawKey, conv: ConvId, content: string)
      reads this
    {
      x in run.senders && run.senders[x] == Sender(raw, conv, content, phase)
    }

    method Acquire(ghost x: nat, raw: RawKey, conv: ConvId, content: string, now: int) returns (a: Acquisition)
      requires Valid() && Sending(x, Arrived, raw, conv, content)
      modifies idem, `run, env
      ensures Valid() && old(env.failures) <= env.failures
      ensures a.Unreachable? <==> env.failures != old(env.failures)
      ensures run.senders == if a.AlreadyAccepted? || a.InProgress? then old(run.senders) - {x}
                             else old(run.senders)[x := Sender(raw, conv, content, Acquired(if a.Taken? then Some(a.nonce) else None))]
      ensures match a
              case Taken(n) =>
                !Live(old(idem.entries), raw, now) && idem.entries == old(idem.entries)[raw := Entry(Processing(n), now + idem.processingTtl)]
              case AlreadyAccepted =>
                idem.entries == old(idem.entries) && Live(idem.entries, raw, now) && idem.entries[raw].value.Accepted?
              case InProgress =>
                idem.entries == old(idem.entries) && Live(idem.entries, raw, now) && !idem.entries[raw].value.Accepted?
              case Unreachable => true
    {
      var nonce: nat;
      ghost var took: bool;
      a, nonce, took := idem.Acquire(raw, now);
      if took {
        Takes(x, raw, if a.Taken? then Some(nonce) else None, nonce);
      } else if a.Unreachable? {
        Did(AcquireFault(x, nonce, false));
      } else {
        Leaves(x, raw, a.AlreadyAccepted?);
      }
    }

    /** The key was there, and the call ends. */
    ghost method Leaves(x: nat, raw: RawKey, accepted: bool)
      requires Reachable(cfg, run) && x in run.senders && run.senders[x].phase.Arrived? && run.senders[x].raw == raw
      requires accepted ==> raw in run.idem && run.idem[raw].Accepted?
      modifies `run
      ensures Reachable(cfg, run)
      ensures run == old(run).(senders := old(run).senders - {x}, replies := run.replies)
    {
      if accepted {
        Did(AcquireAccepted(x));
      } else {
        Did(GiveUp(x));
      }
    }

    /** The key is set, after an expired one was dropped; `known` is what the caller learns of it. */
    ghost method Takes(x: nat, raw: RawKey, known: Option<nat>, nonce: nat)
      requires Reachable(cfg, run) && x in run.senders && run.senders[x].phase.Arrived? && run.senders[x].raw == raw
      requires known.Some? ==> known.value == nonce
      modifies `run
      ensures Reachable(cfg, run)
      ensures run == old(run).(idem := old(run).idem[raw := Processing(nonce)],
                               senders := old(run).senders[x := old(run).senders[x].(phase := Acquired(known))])
    {
      ghost var was := run;
      if raw in run.idem {
        Did(Expire(raw));
      }
      if known.Some? {
        Did(AcquireTaken(x, nonce));
      } else {
        Did(AcquireFault(x, nonce, true));
      }
      assert run.idem == was.idem[raw := Processing(nonce)];
    }

    method Publish(ghost x: nat, raw: RawKey, conv: ConvId, content: string, ghost nonce: Option<nat>) returns (ok: bool)
      requires Valid() && Sending(x, Acquired(nonce), raw, conv, content)
      modifies `inbox, `run, env
      ensures Valid() && env.failures == old(env.failures) + if ok then 0 else 1
      ensures run.senders == old(run.senders)[x := Sender(raw, conv, content, if ok then Published(nonce) else Failed(nonce))]
      ensures inbox == Appended(old(inbox), PartitionOf(cfg, conv), Record(true, raw, conv, content)) || (!ok && inbox == old(inbox))
    {
      var failed := env.Fails();
      var landed := *;
      ok := !failed;
      if ok || landed {
        inbox := Appended(inbox, PartitionOf(cfg, conv), Record(true, raw, conv, content));
      }
      if ok {
        Did(PublishOk(x));
      } else {
        Did(PublishFault(x, landed));
      }
    }

    /** The end of Send after an append: the key becomes accepted if it is still this call's. */
    method MarkAccepted(ghost x: nat, raw: RawKey, conv: ConvId, content: string, nonce: Option<nat>, now: int)
      requires Valid() && Sending(x, Published(nonce), raw, conv, content)
      modifies idem, `run, env
      ensures old(env.failures) <= env.failures
      ensures Valid() && run.senders == old(run.senders) - {x}
      ensures || idem.entries == old(idem.entries)
              || (nonce.Some? && OwnedAt(old(idem.entries), raw, nonce.value, now)
                  && idem.entries == old(idem.entries)[raw := Entry(Accepted, now + idem.acceptedTtl)])
      ensures env.failures == old(env.failures) && nonce.Some? && OwnedAt(old(idem.entries), raw, nonce.value, now) ==> raw in idem.entries && idem.entries[raw].value.Accepted?
    {
      ghost var done := false;
      if nonce.Some? {
        done := idem.Conclude(raw, nonce.value, true, now);
      }
      run := ReplyStep(cfg, run, x, done);
    }

    /** The end of Send after a failed append: the key goes away if it is still this call's. */
    method Release(ghost x: nat, raw: RawKey, conv: ConvId, content: string, nonce: Option<nat>, now: int)
      requires Valid() && Sending(x, Failed(nonce), raw, conv, content)
      modifies idem, `run, env
      ensures old(env.failures) <= env.failures
      ensures Valid() && run.senders == old(run.senders) - {x}
      ensures idem.entries == old(idem.entries) || (nonce.Some? && OwnedAt(old(idem.entries), raw, nonce.value, now) && idem.entries == old(idem.entries) - {raw})
      ensures env.failures == old(env.failures) && nonce.Some? && OwnedAt(old(idem.entries), raw, nonce.value, now) ==> raw !in idem.entries
    {
      ghost var done := false;
      if nonce.Some? {
        done := idem.Conclude(raw, nonce.value, false, now);
      }
      Did(Ingress.Release(x, done));
    }

    // ---- The consumer's side; c names the goroutine of the partition in the run ----

    ghost predicate Consuming(c: nat, p: nat, pos: nat, stage: Stage)
      reads this
    {
      && c in run.consumers && run.consumers[c] == Consumer(p, pos, stage)
      && p < |inbox| && p < |committed| && pos < |inbox[p]|
    }

    /** A commit that reports an error may have taken effect. */
    method CommitMessage(ghost c: nat, p: nat, pos: nat) returns (ok: bool)
      requires Valid() && Consuming(c, p, pos, ToCommit)
      modifies `committed, `run, env
      ensures env.failures == old(env.failures) + if ok then 0 else 1
      ensures Valid() && run.consumers == old(run.consumers)[c := Consumer(p, if ok then pos + 1 else pos, Ready)]
      ensures committed == old(committed)[p := pos + 1] || (!ok && committed == old(committed))
    {
      var failed := env.Fails();
      var landed := *;
      ok := !failed;
      if ok {
        run := CommitStep(cfg, run, c, p, pos);
        committed := committed[p := pos + 1];
        return;
      }
      run := CommitFaultStep(cfg, run, c, p, pos, landed);
      if landed {
        committed := committed[p := pos + 1];
      }
    }

    method PublishDlq(ghost c: nat, p: nat, pos: nat) returns (ok: bool)
      requires Valid() && Consuming(c, p, pos, ToDlq)
      modifies `dlq, `run, env
      ensures env.failures == old(env.failures) + if ok then 0 else 1
      ensures Valid() && run.consumers == old(run.consumers)[c := Consumer(p, pos, if ok then ToCommit else Ready)]
      ensures dlq == old(dlq) + {(p, pos)} || (!ok && dlq == old(dlq))
    {
      var failed := env.Fails();
      var landed := *;
      ok := !failed;
      if ok || landed {
        dlq := dlq + {(p, pos)};
      }
      if ok {
        Did(DlqOk(c));
      } else {
        Did(DlqFault(c, landed));
      }
    }

    /** Persist, as its contract in MessageStore.MessageRepository has it: it fails only when the draft cannot be
        inserted and nobody has its key, or when a call reports an error; a failed call may have committed.
        `permanent` is the classification of the error. */
    method Persist(ghost c: nat, p: nat, pos: nat, d: Draft, attempt: nat, now: int) returns (ok: bool, permanent: bool)
      requires Valid() && Consuming(c, p, pos, Persisting(d, attempt))
      modifies `db, `run, `tries, `permanents, env
      ensures Valid() && old(env.failures) <= env.failures
      ensures tries == old(tries) + 1 && permanents == old(permanents) + if !ok && permanent then 1 else 0
      ensures run.consumers == old(run.consumers)[c := Consumer(p, pos, if ok then ToCommit
                                                                       else if permanent || attempt >= cfg.maxRetries then ToDlq
                                                                       else Persisting(d, attempt + 1))]
      ensures db == Persisted(cfg.checksum, old(db), d, now) || (!ok && db == old(db))
      ensures ok ==> HasKey(db, d.key)
      ensures env.failures == old(env.failures) ==> (ok <==> HasKey(old(db), d.key) || Insertable(old(db), d)) && (!ok ==> db == old(db))
    {
      var lost := env.Fails();
      permanent := *;
      tries := tries + 1;
      ok := !lost && (HasKey(db, d.key) || Insertable(db, d));
      if ok {
        PersistedHasKey(cfg, db, d, now);
        run := PersistOkStep(cfg, run, c, now);
        db := Persisted(cfg.checksum, db, d, now);
      } else {
        permanents := if permanent then permanents + 1 else permanents;
        PersistFails(c, p, pos, d, attempt, now, permanent);
      }
    }

    /** An error says nothing of the commit. */
    method PersistFails(ghost c: nat, p: nat, pos: nat, d: Draft, attempt: nat, now: int, permanent: bool)
      requires Valid() && Consuming(c, p, pos, Persisting(d, attempt))
      modifies `db, `run
      ensures Valid()
      ensures run.consumers == old(run.consumers)[c := Consumer(p, pos, if permanent || attempt >= cfg.maxRetries then ToDlq
                                                                       else Persisting(d, attempt + 1))]
      ensures db == Persisted(cfg.checksum, old(db), d, now) || db == old(db)
    {
      var landed := *;
      if landed {
        run := PersistLandedStep(cfg, run, c, now, permanent);
        db := Persisted(cfg.checksum, db, d, now);
      } else {
        run := PersistVanishedStep(cfg, run, c, now, permanent);
      }
    }
  }

  // ---- Send ----

  /** `raw` is None for a client message id that is missing or is not a UUID. */
  datatype Command = Command(raw: Option<RawKey>, goodContent: bool, conv: ConvId, content: string)

  datatype SendError = InvalidArgument | Refused | ConversationNotFound | RedisUnavailable | SystemBusy | KafkaUnavailable

  /** The record is appended to the partition that its conversation hashes to. */
  ghost predicate AddsRecord(cfg: Config, was: seq<seq<Record>>, after: seq<seq<Record>>, rec: Record) {
    && 0 < cfg.partitions == |was|
    && var p := (if rec.conv in cfg.keyHash then cfg.keyHash[rec.conv] else 0) % cfg.partitions;
       after == was[p := was[p] + [rec]]
  }

  class MessageService {
    const sys: System
    const hasFastIdem: bool
    const idemFallback: bool

    constructor (sys: System, hasFastIdem: bool, idemFallback: bool)
      ensures this.sys == sys && this.hasFastIdem == hasFastIdem && this.idemFallback == idemFallback
    {
      this.sys, this.hasFastIdem, this.idemFallback := sys, hasFastIdem, idemFallback;
    }

    /** Send. `refused` is the answer of the rate limiter and the membership check. An accepted answer means that a
        record of this very key is in the inbox log; a call appends at most its own record; if no call
        outside reports an error it appends exactly when nobody has the key. */
    method Send(cmd: Command, refused: bool, now: int) returns (r: Result<(), SendError>)
      requires sys.Valid()
      modifies sys, sys.idem, sys.env
      ensures old(sys.env.failures) <= sys.env.failures
      ensures sys.Valid() && sys.run.senders == old(sys.run.senders)
      ensures sys.committed == old(sys.committed) && sys.dlq == old(sys.dlq) && sys.db == old(sys.db)
      ensures r == Err(InvalidArgument) <==> cmd.raw.None? || !cmd.goodContent
      ensures r == Err(Refused) <==> cmd.raw.Some? && cmd.goodContent && refused
      ensures r == Err(ConversationNotFound) <==>
                cmd.raw.Some? && cmd.goodContent && !refused && (cmd.conv in old(sys.db).convs ==> !old(sys.db).convs[cmd.conv].open)
      ensures r.Ok? ==> cmd.raw.Some? && InInbox(sys.inbox, cmd.raw.value)
      ensures || sys.inbox == old(sys.inbox)
              || (cmd.raw.Some? && AddsRecord(sys.cfg, old(sys.inbox), sys.inbox, Record(true, cmd.raw.value, cmd.conv, cmd.content)))
      ensures cmd.raw.Some? && cmd.goodContent && !refused && cmd.conv in old(sys.db).convs && old(sys.db).convs[cmd.conv].open
              && sys.env.failures == old(sys.env.failures) ==>
                if hasFastIdem && cmd.raw.value in old(sys.idem.entries) && now <= old(sys.idem.entries)[cmd.raw.value].expireAt then
                  && sys.inbox == old(sys.inbox) && sys.idem.entries == old(sys.idem.entries)
                  && r == if sys.idem.entries[cmd.raw.value].value.Accepted? then Ok(()) else Err(SystemBusy)
                else
                  && r.Ok? && AddsRecord(sys.cfg, old(sys.inbox), sys.inbox, Record(true, cmd.raw.value, cmd.conv, cmd.content))
                  && (hasFastIdem && 0 <= sys.idem.processingTtl ==>
                        cmd.raw.value in sys.idem.entries && sys.idem.entries[cmd.raw.value].value.Accepted?)
    {
      if cmd.raw.None? || !cmd.goodContent {
        return Err(InvalidArgument);
      }
      if refused {
        return Err(Refused);
      }
      if !IsOpen(sys.db, cmd.conv) {
        return Err(ConversationNotFound);
      }
      var raw := cmd.raw.value;
      ghost var x := FreshAbove(sys.run.senders.Keys);
      sys.Did(Arrive(x, raw, cmd.conv, cmd.content));
      var answer, nonce := AcquireKey(x, raw, cmd.conv, cmd.content, now);
      if answer.Some? {
        return answer.value;
      }
      r := PublishAndConclude(x, raw, cmd.conv, cmd.content, nonce, now);
    }

    /** The first half of Send: take the key, or answer at once. Without Redis it may go on without a key. */
    method AcquireKey(ghost x: nat, raw: RawKey, conv: ConvId, content: string, now: int)
      returns (answer: Option<Result<(), SendError>>, nonce: Option<nat>)
      requires sys.Valid() && sys.Sending(x, Arrived, raw, conv, content)
      modifies sys`run, sys.idem, sys.env
      ensures sys.Valid() && old(sys.env.failures) <= sys.env.failures
      ensures sys.run.senders == if answer.Some? then old(sys.run.senders) - {x}
                                 else old(sys.run.senders)[x := Sender(raw, conv, content, Acquired(nonce))]
      ensures answer == Some(Ok(())) ==> InInbox(sys.inbox, raw)
      ensures answer.None? || answer.value in {Ok(()), Err(SystemBusy), Err(RedisUnavailable)}
      ensures sys.env.failures == old(sys.env.failures) ==>
                if hasFastIdem && Live(old(sys.idem.entries), raw, now) then
                  && sys.idem.entries == old(sys.idem.entries)
                  && answer == Some(if sys.idem.entries[raw].value.Accepted? then Ok(()) else Err(SystemBusy))
                else
                  && answer.None? && (hasFastIdem <==> nonce.Some?)
                  && (nonce.Some? && 0 <= sys.idem.processingTtl ==> OwnedAt(sys.idem.entries, raw, nonce.value, now))
      ensures sys.env.failures != old(sys.env.failures) ==> nonce.None? && answer == if idemFallback then None else Some(Err(RedisUnavailable))
    {
      answer, nonce := None, None;
      if !hasFastIdem {
        sys.Did(AcquireFault(x, 0, false));
        return;
      }
      var a := sys.Acquire(x, raw, conv, content, now);
      match a
      case AlreadyAccepted =>
        AcceptedInInbox(sys.cfg, sys.run, raw);
        answer := Some(Ok(()));
      case InProgress =>
        answer := Some(Err(SystemBusy));
      case Unreachable =>
        if !idemFallback {
          sys.Did(GiveUp(x));
          answer := Some(Err(RedisUnavailable));
        }
      case Taken(n) =>
        nonce := Some(n);
    }

    /** The second half of Send: append the record, then accept the key, or release it after a failed append. */
    method PublishAndConclude(ghost x: nat, raw: RawKey, conv: ConvId, content: string, nonce: Option<nat>, now: int)
      returns (r: Result<(), SendError>)
      requires sys.Valid() && sys.Sending(x, Acquired(nonce), raw, conv, content)
      modifies sys`inbox, sys`run, sys.idem, sys.env
      ensures sys.Valid() && sys.run.senders == old(sys.run.senders) - {x} && old(sys.env.failures) <= sys.env.failures
      ensures r == Ok(()) || r == Err(KafkaUnavailable)
      ensures var longer := Appended(old(sys.inbox), PartitionOf(sys.cfg, conv), Record(true, raw, conv, content));
              sys.inbox == longer || (r.Err? && sys.inbox == old(sys.inbox))
      ensures r.Ok? ==> InInbox(sys.inbox, raw)
      ensures sys.env.failures == old(sys.env.failures) ==> r.Ok?
      ensures nonce.Some? && OwnedAt(old(sys.idem.entries), raw, nonce.value, now) ==>
                && (r.Ok? && sys.env.failures == old(sys.env.failures) ==> raw in sys.idem.entries && sys.idem.entries[raw].value.Accepted?)
                && (r.Err? && sys.env.failures == old(sys.env.failures) + 1 ==> raw !in sys.idem.entries)
    {
      var ok := sys.Publish(x, raw, conv, content, nonce);
      if !ok {
        sys.Release(x, raw, conv, content, nonce, now);
        return Err(KafkaUnavailable);
      }
      PublishedInInbox(sys.inbox, PartitionOf(sys.cfg, conv), raw);
      sys.MarkAccepted(x, raw, conv, content, nonce, now);
      r := Ok(());
    }
  }

  // ---- The persist worker ----

  datatype Outcome = Done | Again | Stopped

  class PersistWorker {
    const sys: System
    const partition: nat

    constructor (sys: System, partition: nat)
      ensures this.sys == sys && this.partition == partition
    {
      this.sys, this.partition := sys, partition;
    }

    /** What this consumer is left with. */
    ghost predicate Standing(c: nat, pos: nat, r: Outcome)
      reads this, sys
    {
      match r
      case Done => c in sys.run.consumers && sys.run.consumers[c] == Consumer(partition, pos + 1, Ready)
      case Again => sys.Consuming(c, partition, pos, Ready)
      case Stopped => c !in sys.run.consumers
    }

    /** dlqAndCommit: no dead-letter record, no commit. */
    method DlqAndCommit(ghost c: nat, pos: nat) returns (r: Outcome)
      requires sys.Valid() && sys.Consuming(c, partition, pos, ToDlq)
      modifies sys`dlq, sys`committed, sys`run, sys.env
      ensures sys.Valid() && Standing(c, pos, r) && !r.Stopped? && old(sys.env.failures) <= sys.env.failures
      ensures r.Done? <==> sys.env.failures == old(sys.env.failures)
      ensures sys.dlq == old(sys.dlq) || sys.dlq == old(sys.dlq) + {(partition, pos)}
      ensures sys.committed == old(sys.committed) || (sys.committed == old(sys.committed)[partition := pos + 1] && (partition, pos) in sys.dlq)
      ensures r.Done? ==> sys.committed == old(sys.committed)[partition := pos + 1] && (partition, pos) in sys.dlq
    {
      var ok := sys.PublishDlq(c, partition, pos);
      if !ok {
        return Again;
      }
      ok := sys.CommitMessage(c, partition, pos);
      r := if ok then Done else Again;
    }

    /** The retry loop around the transaction: `ok` says that the record has its row now. It gives up after maxRetries
        failed retries, or after a permanent error. */
    method PersistWithRetry(ghost c: nat, pos: nat, d: Draft, now: int) returns (ok: bool, stopped: bool)
      requires sys.Valid() && sys.Consuming(c, partition, pos, Persisting(d, 0))
      modifies sys`db, sys`run, sys`tries, sys`permanents, sys.env
      ensures if ok then old(sys.tries) < sys.tries <= old(sys.tries) + sys.cfg.maxRetries + 1
              else stopped || sys.tries == old(sys.tries) + sys.cfg.maxRetries + 1 || sys.permanents == old(sys.permanents) + 1
      ensures sys.Valid() && Extends(old(sys.db), sys.db) && old(sys.env.failures) <= sys.env.failures
      ensures if stopped then !ok && c !in sys.run.consumers else sys.Consuming(c, partition, pos, if ok then ToCommit else ToDlq)
      ensures ok ==> HasKey(sys.db, d.key)
      ensures sys.env.failures == old(sys.env.failures) ==>
                && !stopped && (ok <==> HasKey(old(sys.db), d.key) || Insertable(old(sys.db), d))
                && sys.db == if ok then Persisted(sys.cfg.checksum, old(sys.db), d, now) else old(sys.db)
    {
      var attempt := 0;
      ok := false;
      while attempt <= sys.cfg.maxRetries
        invariant attempt <= sys.cfg.maxRetries + 1 && !ok && old(sys.env.failures) <= sys.env.failures
        invariant sys.Valid() && Extends(old(sys.db), sys.db) && (sys.env.failures == old(sys.env.failures) ==> sys.db == old(sys.db))
        invariant sys.tries == old(sys.tries) + attempt && sys.permanents == old(sys.permanents)
        invariant sys.Consuming(c, partition, pos, if attempt <= sys.cfg.maxRetries then Persisting(d, attempt) else ToDlq)
        invariant sys.env.failures == old(sys.env.failures) && attempt > 0 ==> !HasKey(sys.db, d.key) && !Insertable(sys.db, d)
      {
        if attempt > 0 {
          var cancelled := sys.env.Fails();
          if cancelled {
            sys.Did(Crash(c));
            return false, true;
          }
        }
        PersistedExtends(sys.cfg.checksum, sys.db, d, now);
        ExtendsMore(old(sys.db), sys.db, Persisted(sys.cfg.checksum, sys.db, d, now));
        var permanent: bool;
        ok, permanent := sys.Persist(c, partition, pos, d, attempt, now);
        if ok {
          return true, false;
        }
        if permanent {
          return false, false;
        }
        attempt := attempt + 1;
      }
      stopped := false;
    }

    /** handle. The offset is committed only once the record has its row or a dead-letter record names it; if no call
        outside reports an error it is committed, with a row whenever the key has one or the draft can be
        inserted, and otherwise with a dead-letter record. A valid record is dead-lettered only after all retries, or
        after a permanent error. */
    method Handle(ghost c: nat, pos: nat, id: MessageId, now: int) returns (r: Outcome)
      requires sys.Valid() && sys.Consuming(c, partition, pos, Ready)
      modifies sys, sys.env
      ensures sys.Valid() && Standing(c, pos, r) && old(sys.env.failures) <= sys.env.failures
      ensures sys.inbox == old(sys.inbox) && Extends(old(sys.db), sys.db) && old(sys.dlq) <= sys.dlq
      ensures || sys.committed == old(sys.committed)
              || (sys.committed == old(sys.committed)[partition := pos + 1]
                  && ((partition, pos) in sys.dlq
                      || (sys.inbox[partition][pos].valid
                          && HasMessageOf(sys.db, sys.inbox[partition][pos].raw.sender, sys.inbox[partition][pos].raw.uuid))))
      ensures r.Done? ==> sys.committed == old(sys.committed)[partition := pos + 1]
      ensures sys.inbox[partition][pos].valid ==>
                sys.dlq == old(sys.dlq) || sys.tries == old(sys.tries) + sys.cfg.maxRetries + 1 || sys.permanents == old(sys.permanents) + 1
      ensures sys.env.failures == old(sys.env.failures) ==>
                && r.Done?
                && if CanHaveRow(old(sys.db), sys.inbox[partition][pos], id)
                   then RowStored(old(sys.db), sys.db, sys.inbox[partition][pos], id) && sys.dlq == old(sys.dlq)
                   else (partition, pos) in sys.dlq && sys.db == old(sys.db)
    {
      var rec := sys.inbox[partition][pos];
      if !rec.valid {
        sys.Did(Reject(c));
        r := DlqAndCommit(c, pos);
        return;
      }
      r := HandleValid(c, pos, rec, id, now);
    }

    /** The rest of handle, for a record that decodes and passes the checks. */
    method HandleValid(ghost c: nat, pos: nat, rec: Record, id: MessageId, now: int) returns (r: Outcome)
      requires sys.Valid() && sys.Consuming(c, partition, pos, Ready) && rec == sys.inbox[partition][pos] && rec.valid
      modifies sys`db, sys`dlq, sys`committed, sys`run, sys`tries, sys`permanents, sys.env
      ensures sys.Valid() && Standing(c, pos, r) && old(sys.env.failures) <= sys.env.failures
      ensures sys.dlq == old(sys.dlq) || sys.tries == old(sys.tries) + sys.cfg.maxRetries + 1 || sys.permanents == old(sys.permanents) + 1
      ensures Extends(old(sys.db), sys.db) && old(sys.dlq) <= sys.dlq
      ensures || sys.committed == old(sys.committed)
              || (sys.committed == old(sys.committed)[partition := pos + 1] && ((partition, pos) in sys.dlq || HasMessageOf(sys.db, rec.raw.sender, rec.raw.uuid)))
      ensures r.Done? ==> sys.committed == old(sys.committed)[partition := pos + 1]
      ensures sys.env.failures == old(sys.env.failures) ==>
                && r.Done?
                && if CanHaveRow(old(sys.db), rec, id) then RowStored(old(sys.db), sys.db, rec, id) && sys.dlq == old(sys.dlq)
                   else (partition, pos) in sys.dlq && sys.db == old(sys.db)
    {
      KeyIsBoth(sys.db, rec.raw);
      // The look-up of the members, and that of the key.
      var lost := sys.env.Fails();
      if lost {
        return Again;
      }
      if HasKey(sys.db, KeyOf(rec.raw)) {
        sys.Did(FindExisting(c));
        var done := sys.CommitMessage(c, partition, pos);
        return if done then Done else Again;
      }
      var noId := sys.env.Fails();
      if noId {
        return Again;
      }
      sys.Did(Allocate(c, id));
      var ok, stopped := PersistWithRetry(c, pos, DraftOf(rec, id), now);
      KeyIsBoth(sys.db, rec.raw);
      if stopped {
        return Stopped;
      }
      r := Settle(c, pos, ok);
    }

    /** Commit after a row, or after a dead-letter record. */
    method Settle(ghost c: nat, pos: nat, ok: bool) returns (r: Outcome)
      requires sys.Valid() && sys.Consuming(c, partition, pos, if ok then ToCommit else ToDlq)
      modifies sys`dlq, sys`committed, sys`run, sys.env
      ensures sys.Valid() && Standing(c, pos, r) && old(sys.env.failures) <= sys.env.failures
      ensures r.Done? <==> sys.env.failures == old(sys.env.failures)
      ensures if ok then sys.dlq == old(sys.dlq) else sys.dlq == old(sys.dlq) || sys.dlq == old(sys.dlq) + {(partition, pos)}
      ensures || sys.committed == old(sys.committed)
              || (sys.committed == old(sys.committed)[partition := pos + 1] && (ok || (partition, pos) in sys.dlq))
      ensures r.Done? ==> sys.committed == old(sys.committed)[partition := pos + 1] && (ok || (partition, pos) in sys.dlq)
    {
      if !ok {
        r := DlqAndCommit(c, pos);
      } else {
        var done := sys.CommitMessage(c, partition, pos);
        r := if done then Done else Again;
      }
    }

    /** Run, for this partition and until it is cancelled: start from the committed offset, and leave an offset
        only once it is committed. `ids` are the message ids that the generator hands out. */
    method Run(ids: seq<MessageId>, now: int) returns (ghost to: nat)
      requires sys.Valid() && partition < |sys.committed|
      modifies sys, sys.env
      ensures sys.Valid() && sys.inbox == old(sys.inbox) && |sys.inbox| == |old(sys.committed)|
      ensures old(sys.committed[partition]) <= to <= |sys.inbox[partition]| && sys.committed == old(sys.committed)[partition := to]
      ensures HandledBelow(sys.inbox, sys.dlq, sys.db, partition, to)
    {
      CommittedHandled(sys.cfg, sys.run, partition);
      ghost var c := FreshAbove(sys.run.consumers.Keys);
      var pos: nat := sys.committed[partition];
      sys.Did(Start(c, partition, pos));
      var left := |ids|;
      to := pos;
      assert sys.committed == old(sys.committed)[partition := to];
      while pos < |sys.inbox[partition]| && left > 0
        invariant sys.Valid() && sys.inbox == old(sys.inbox)
        invariant c in sys.run.consumers && sys.run.consumers[c] == Consumer(partition, pos, Ready)
        invariant old(sys.committed[partition]) <= pos <= to <= |sys.inbox[partition]| && to <= pos + 1
        invariant sys.committed == old(sys.committed)[partition := to]
        invariant 0 <= left <= |ids|
        decreases left
      {
        left := left - 1;
        var r := Handle(c, pos, ids[left], now);
        to := sys.committed[partition];
        if r.Stopped? {
          break;
        }
        if r.Done? {
          pos := pos + 1;
        }
      }
      CommittedHandled(sys.cfg, sys.run, partition);
    }
  }

  /** The record's message is there already, or its conversation is open and the id is free. */
  ghost predicate CanHaveRow(db: Db, rec: Record, id: MessageId) {
    && rec.valid
    && (HasMessageOf(db, rec.raw.sender, rec.raw.uuid) || (rec.conv in db.convs && db.convs[rec.conv].open && id !in db.messages))
  }

  /** The message was there and nothing changes, or it is now the last one of its conversation. */
  ghost predicate RowStored(was: Db, after: Db, rec: Record, id: MessageId) {
    if HasMessageOf(was, rec.raw.sender, rec.raw.uuid) then after == was
    else
      && rec.conv in was.convs
      && after.messages == was.messages[id := Message(id, rec.conv, was.convs[rec.conv].lastSeq + 1, Key(rec.raw.sender, rec.raw.uuid), rec.content)]
  }

  function DraftOf(rec: Record, id: MessageId): Draft {
    Draft(id, rec.conv, KeyOf(rec.raw), rec.content)
  }

  lemma ExtendsMore(a: Db, b: Db, c: Db)
    requires Extends(a, b) && Extends(b, c)
    ensures Extends(a, c)
  {
  }

  predicate IsOpen(db: Db, conv: ConvId) {
    conv in db.convs && db.convs[conv].open
  }

  // Steps of the run, by what they change.

  ghost predicate OnlyWork(s: State, s': State) {
    s'.idem == s.idem && s'.inbox == s.inbox && s'.senders == s.senders
  }

  lemma CommitStep(cfg: Config, s: State, c: nat, p: nat, pos: nat) returns (s': State)
    requires Reachable(cfg, s) && c in s.consumers && s.consumers[c] == Consumer(p, pos, ToCommit) && At(s, c)
    ensures Reachable(cfg, s') && OnlyWork(s, s') && s'.dlq == s.dlq && s'.db == s.db
    ensures s'.committed == s.committed[p := pos + 1] && s'.consumers == s.consumers[c := Consumer(p, pos + 1, Ready)]
  {
    s' := Extend(cfg, s, CommitOk(c));
  }

  lemma CommitFaultStep(cfg: Config, s: State, c: nat, p: nat, pos: nat, landed: bool) returns (s': State)
    requires Reachable(cfg, s) && c in s.consumers && s.consumers[c] == Consumer(p, pos, ToCommit) && At(s, c)
    ensures Reachable(cfg, s') && OnlyWork(s, s') && s'.dlq == s.dlq && s'.db == s.db
    ensures s'.committed == (if landed then s.committed[p := pos + 1] else s.committed) && s'.consumers == s.consumers[c := Consumer(p, pos, Ready)]
  {
    s' := Extend(cfg, s, CommitFault(c, landed));
  }

  lemma PersistOkStep(cfg: Config, s: State, c: nat, now: int) returns (s': State)
    requires Reachable(cfg, s) && At(s, c) && s.consumers[c].stage.Persisting?
    requires HasKey(s.db, s.consumers[c].stage.draft.key) || Insertable(s.db, s.consumers[c].stage.draft)
    ensures Reachable(cfg, s') && OnlyWork(s, s') && s'.dlq == s.dlq && s'.committed == s.committed
    ensures s'.db == Persisted(cfg.checksum, s.db, s.consumers[c].stage.draft, now)
    ensures s'.consumers == s.consumers[c := s.consumers[c].(stage := ToCommit)]
  {
    s' := Extend(cfg, s, PersistOk(c, now));
  }

  function AfterFailure(cfg: Config, k: Consumer, permanent: bool): Consumer
    requires k.stage.Persisting?
  {
    k.(stage := if permanent || k.stage.attempt >= cfg.maxRetries then ToDlq else Persisting(k.stage.draft, k.stage.attempt + 1))
  }

  lemma PersistLandedStep(cfg: Config, s: State, c: nat, now: int, permanent: bool) returns (s': State)
    requires Reachable(cfg, s) && At(s, c) && s.consumers[c].stage.Persisting?
    ensures Reachable(cfg, s') && OnlyWork(s, s') && s'.dlq == s.dlq && s'.committed == s.committed
    ensures s'.db == Persisted(cfg.checksum, s.db, s.consumers[c].stage.draft, now)
    ensures s'.consumers == s.consumers[c := AfterFailure(cfg, s.consumers[c], permanent)]
  {
    s' := Extend(cfg, s, PersistFault(c, now, true, permanent));
  }

  lemma PersistVanishedStep(cfg: Config, s: State, c: nat, now: int, permanent: bool) returns (s': State)
    requires Reachable(cfg, s) && At(s, c) && s.consumers[c].stage.Persisting?
    ensures Reachable(cfg, s') && OnlyWork(s, s') && s'.dlq == s.dlq && s'.committed == s.committed && s'.db == s.db
    ensures s'.consumers == s.consumers[c := AfterFailure(cfg, s.consumers[c], permanent)]
  {
    s' := Extend(cfg, s, PersistFault(c, now, false, permanent));
  }

  lemma ReplyStep(cfg: Config, s: State, x: nat, done: bool) returns (s': State)
    requires Reachable(cfg, s) && x in s.senders && s.senders[x].phase.Published?
    requires done ==> OwnsKey(s.idem, s.senders[x].raw, s.senders[x].phase.nonce)
    ensures Reachable(cfg, s') && s'.senders == s.senders - {x}
    ensures s'.idem == if done then s.idem[s.senders[x].raw := IdemValue.Accepted] else s.idem
    ensures s'.inbox == s.inbox && s'.committed == s.committed && s'.dlq == s.dlq && s'.db == s.db && s'.consumers == s.consumers
  {
    s' := Extend(cfg, s, Reply(x, done));
  }

  lemma CommittedHandled(cfg: Config, s: State, p: nat)
    requires Reachable(cfg, s) && p < |s.committed|
    ensures |s.inbox| == |s.committed| && s.committed[p] <= |s.inbox[p]|
    ensures HandledBelow(s.inbox, s.dlq, s.db, p, s.committed[p])
  {
    ReachableInv(cfg, s);
    if 0 < s.committed[p] {
      assert Handled(s.inbox, s.dlq, s.db, p, s.committed[p] - 1);
    }
  }

  lemma AcceptedInInbox(cfg: Config, s: State, raw: RawKey)
    requires Reachable(cfg, s) && raw in s.idem && s.idem[raw].Accepted?
    ensures InInbox(s.inbox, raw)
  {
    ReachableInv(cfg, s);
  }

  lemma PublishedInInbox(inbox: seq<seq<Record>>, p: nat, raw: RawKey)
    requires p < |inbox| && inbox[p] != [] && inbox[p][|inbox[p]| - 1].valid && inbox[p][|inbox[p]| - 1].raw == raw
    ensures InInbox(inbox, raw)
  {
    assert RecordAt(inbox, p, |inbox[p]| - 1, raw);
  }
}

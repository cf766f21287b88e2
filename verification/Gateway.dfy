/**
  The gateway's end of a push partition: the connections of this node with their index by user, the
  short-lived memory of delivered message ids, and the worker that hands each record to every local
  connection of its targets before it commits the offset.
*/
module Gateway {
  import opened Common

  type ConnId = string

  /** What one client receives: the sender learns that the message is stored, everybody else gets it. */
  datatype Event = Persisted(messageId: MessageId, conv: ConvId, seqNo: int)
                 | New(messageId: MessageId, conv: ConvId, seqNo: int, sender: UserId, content: string)

  /** `contentOk` tells whether the content, which the record carries as raw text, can be put into an event. */
  datatype PushEvent = PushEvent(messageId: MessageId, conv: ConvId, seqNo: int, sender: UserId, content: string, contentOk: bool,
                                 targets: seq<UserId>)

  /** A record of the partition; the first three do not reach any connection. */
  datatype Record = Garbage | OtherType | BadData | Push(event: PushEvent)

  /** A failed push to one connection, or to a whole user whose event could not be built. */
  datatype Failure = Failure(user: UserId, conn: Option<ConnId>)

  datatype Sent = Sent(conn: ConnId, user: UserId, event: Event, ok: bool)

  datatype DeadLetter = DeadLetter(offset: nat, failures: seq<Failure>)

  function EventFor(e: PushEvent, u: UserId): Event {
    if u == e.sender then Persisted(e.messageId, e.conv, e.seqNo) else New(e.messageId, e.conv, e.seqNo, e.sender, e.content)
  }

  /** The sender's event carries no content, so it can always be built. */
  predicate Buildable(e: PushEvent, u: UserId) {
    u == e.sender || e.contentOk
  }

  // ---- The memory of delivered ids ----

  const PURGE_ABOVE := 10000

  /** `marks` is every mark ever made, `clock` the latest time looked at. */
  class Dedupe {
    const ttl: int
    var seen: map<MessageId, int>
    ghost var marks: map<MessageId, int>
    ghost var clock: int

    /** Whatever was purged had run out. */
    ghost predicate Valid()
      reads this
    {
      && (forall id :: id in seen ==> id in marks && seen[id] == marks[id])
      && (forall id :: id in marks && id !in seen ==> clock - marks[id] > ttl)
    }

    constructor (ttl: int, now: int)
      ensures Valid() && this.ttl == ttl && marks == map[] && clock == now
    {
      this.ttl := ttl;
      seen, marks, clock := map[], map[], now;
    }

    /** The answer is that of a memory that never purges. */
    method Seen(id: MessageId, now: int) returns (r: bool)
      requires Valid() && clock <= now
      modifies `clock
      ensures Valid() && clock == now
      ensures r <==> id in marks && now - marks[id] < ttl
    {
      clock := now;
      if id !in seen {
        return false;
      }
      r := now - seen[id] < ttl;
    }

    method Mark(id: MessageId, now: int, later: int)
      requires Valid() && clock <= now <= later
      modifies this
      ensures Valid() && clock == later && marks == old(marks)[id := later]
      ensures |old(seen)| <= 10000 ==> seen == old(seen)[id := later]
      ensures |old(seen)| > 10000 ==> forall k :: k in seen && k != id ==> now - seen[k] <= ttl
    {
      if |seen| > PURGE_ABOVE {
        seen := Unexpired(now);
      }
      seen := seen[id := later];
      marks, clock := marks[id := later], later;
    }

    method Unexpired(now: int) returns (kept: map<MessageId, int>)
      ensures forall k :: k in kept <==> k in seen && now - seen[k] <= ttl
      ensures forall k :: k in kept ==> kept[k] == seen[k]
    {
      kept := seen;
      var todo := seen.Keys;
      while todo != {}
        invariant todo <= seen.Keys
        invariant forall k :: k in kept <==> k in seen && (k in todo || now - seen[k] <= ttl)
        invariant forall k :: k in kept ==> kept[k] == seen[k]
        decreases todo
      {
        var k := Pick(todo);
        todo := todo - {k};
        if now - seen[k] > ttl {
          kept := kept - {k};
        }
      }
    }
  }

  // ---- The connections ----

  type Conns = map<ConnId, UserId>
  type Index = map<UserId, set<ConnId>>

  /** The index is the inverse of the connections. */
  ghost predicate Inverse(conns: Conns, byUser: Index) {
    && (forall u :: u in byUser ==> byUser[u] != {})
    && (forall u, c :: u in byUser && c in byUser[u] ==> c in conns && conns[c] == u)
    && (forall c :: c in conns ==> conns[c] in byUser && c in byUser[conns[c]])
  }

  function IndexAdd(byUser: Index, u: UserId, c: ConnId): Index {
    byUser[u := (if u in byUser then byUser[u] else {}) + {c}]
  }

  function IndexRemove(byUser: Index, u: UserId, c: ConnId): Index {
    if u !in byUser then byUser
    else if byUser[u] - {c} == {} then byUser - {u} else byUser[u := byUser[u] - {c}]
  }

  /** Registering keeps the index exact if and only if the id is new or was this user's already. */
  lemma RegisterKeepsInverse(conns: Conns, byUser: Index, c: ConnId, u: UserId)
    requires Inverse(conns, byUser)
    ensures Inverse(conns[c := u], IndexAdd(byUser, u, c)) <==> (c !in conns || conns[c] == u)
  {
    var now, after := conns[c := u], IndexAdd(byUser, u, c);
    if c in conns && conns[c] != u {
      StrayEntry(now, after, conns[c], c);
    } else {
      forall v, d | v in after && d in after[v] ensures d in now && now[d] == v {
        assert (v == u && d == c) || (v in byUser && d in byUser[v]);
      }
      assert Inverse(now, after);
    }
  }

  lemma StrayEntry(conns: Conns, byUser: Index, v: UserId, c: ConnId)
    requires v in byUser && c in byUser[v] && (c !in conns || conns[c] != v)
    ensures !Inverse(conns, byUser)
  {
  }

  /** Unregistering looks up the id, not the connection: the same condition. */
  lemma UnregisterKeepsInverse(conns: Conns, byUser: Index, c: ConnId, u: UserId)
    requires Inverse(conns, byUser) && c in conns
    ensures Inverse(conns - {c}, IndexRemove(byUser, u, c)) <==> conns[c] == u
  {
    var now, after := conns - {c}, IndexRemove(byUser, u, c);
    if conns[c] == u {
      forall v, d | v in after && d in after[v] ensures d in now && now[d] == v {
        assert v in byUser && d in byUser[v];
      }
      forall d | d in now ensures now[d] in after && d in after[now[d]] {
        assert d in byUser[conns[d]] - {c};
      }
      assert Inverse(now, after);
    } else {
      StrayEntry(now, after, conns[c], c);
    }
  }

  /** `conns` gives the owner of each connection id. A push that does not reach its client is a failure of `clients`. */
  class Manager {
    const clients: Environment
    var conns: Conns
    var byUser: Index
    var active: int
    var sent: seq<Sent>

    constructor (clients: Environment)
      ensures Inverse(conns, byUser) && this.clients == clients && conns == map[] && active == 0 && sent == []
    {
      this.clients := clients;
      conns, byUser, active, sent := map[], map[], 0, [];
    }

    /** The count of active connections stays exact if and only if the id is new. */
    method Register(c: ConnId, u: UserId)
      modifies this
      ensures conns == old(conns)[c := u] && byUser == IndexAdd(old(byUser), u, c) && sent == old(sent)
      ensures old(active) == |old(conns)| ==> (active == |conns| <==> c !in old(conns))
    {
      assert conns[c := u].Keys == conns.Keys + {c};
      conns := conns[c := u];
      if u !in byUser {
        byUser := byUser[u := {}];
      }
      byUser := byUser[u := byUser[u] + {c}];
      active := active + 1;
    }

    method Unregister(c: ConnId, u: UserId)
      modifies this
      ensures conns == old(conns) - {c} && sent == old(sent)
      ensures byUser == if c in old(conns) then IndexRemove(old(byUser), u, c) else old(byUser)
      ensures old(active) == |old(conns)| ==> active == |conns|
    {
      if c in conns {
        assert conns.Keys == (conns - {c}).Keys + {c};
        conns := conns - {c};
        if u in byUser {
          byUser := byUser[u := byUser[u] - {c}];
          if byUser[u] == {} {
            byUser := byUser - {u};
          }
        }
        active := active - 1;
      } else {
        assert conns - {c} == conns;
      }
    }

    /** Clients come, under new connection ids, and go. */
    method Others()
      requires Inverse(conns, byUser)
      modifies this
      ensures Inverse(conns, byUser) && sent == old(sent)
    {
      var n: nat := *;
      while n > 0
        invariant Inverse(conns, byUser) && sent == old(sent)
      {
        n := n - 1;
        var joins, c: ConnId, u: UserId := *, *, *;
        if joins && c !in conns {
          RegisterKeepsInverse(conns, byUser, c, u);
          Register(c, u);
        } else if !joins && c in conns {
          UnregisterKeepsInverse(conns, byUser, c, conns[c]);
          Unregister(c, conns[c]);
        }
      }
    }

    /** Every connection of the user is tried once, and the failures are exactly the pushes that failed. */
    method PushToUserWithFailures(u: UserId, ev: Event) returns (delivered: nat, failures: seq<Failure>)
      requires Inverse(conns, byUser)
      modifies `sent, clients
      ensures old(sent) <= sent && clients.failures == old(clients.failures) + |failures|
      ensures forall c :: c in conns && conns[c] == u ==> Covered(sent, |old(sent)|, failures, u, c, ev)
      ensures forall k :: |old(sent)| <= k < |sent| ==> sent[k].user == u && sent[k].event == ev && sent[k].conn in conns && conns[sent[k].conn] == u
      ensures forall j, k :: |old(sent)| <= j < k < |sent| ==> sent[j].conn != sent[k].conn
      ensures delivered + |failures| == |sent| - |old(sent)|
      ensures forall f :: f in failures ==> exists k :: |old(sent)| <= k < |sent| && f == Failure(u, Some(sent[k].conn)) && !sent[k].ok
    {
      delivered, failures := 0, [];
      var todo := if u in byUser then byUser[u] else {};
      ghost var from := |sent|;
      while todo != {}
        invariant todo <= if u in byUser then byUser[u] else {}
        invariant old(sent) <= sent && clients.failures == old(clients.failures) + |failures|
        invariant forall c :: c in conns && conns[c] == u && c !in todo ==> Covered(sent, from, failures, u, c, ev)
        invariant forall k :: from <= k < |sent| ==>
                    sent[k].user == u && sent[k].event == ev && sent[k].conn in conns && conns[sent[k].conn] == u && sent[k].conn !in todo
        invariant forall j, k :: from <= j < k < |sent| ==> sent[j].conn != sent[k].conn
        invariant delivered + |failures| == |sent| - from
        invariant forall f :: f in failures ==> exists k :: from <= k < |sent| && f == Failure(u, Some(sent[k].conn)) && !sent[k].ok
        decreases todo
      {
        var c := Pick(todo);
        todo := todo - {c};
        var lost := clients.Fails();
        ghost var before, failed := sent, failures;
        sent := sent + [Sent(c, u, ev, !lost)];
        assert sent[|before|] == Sent(c, u, ev, !lost);
        if !lost {
          delivered := delivered + 1;
        } else {
          failures := failures + [Failure(u, Some(c))];
        }
        forall d | d in conns && conns[d] == u && d !in todo ensures Covered(sent, from, failures, u, d, ev) {
          if d != c {
            CoveredStays(before, sent, from, failed, failures, u, d, ev);
          } else {
            assert failures != failed ==> failures[|failed|] == Failure(u, Some(c));
          }
        }
        forall f | f in failures ensures exists k :: from <= k < |sent| && f == Failure(u, Some(sent[k].conn)) && !sent[k].ok {
          if f in failed {
            var k :| from <= k < |before| && f == Failure(u, Some(before[k].conn)) && !before[k].ok;
            assert sent[k] == before[k];
          }
        }
      }
    }
  }

  /** The event was pushed to the connection, and a failure is on the list. */
  ghost predicate Covered(sent: seq<Sent>, from: nat, failures: seq<Failure>, u: UserId, c: ConnId, ev: Event) {
    exists k :: from <= k < |sent| && sent[k].conn == c && sent[k].user == u && sent[k].event == ev
                && (sent[k].ok || Failure(u, Some(c)) in failures)
  }

  lemma CoveredStays(sent: seq<Sent>, more: seq<Sent>, from: nat, failures: seq<Failure>, longer: seq<Failure>, u: UserId, c: ConnId, ev: Event)
    requires Covered(sent, from, failures, u, c, ev) && sent <= more && failures <= longer
    ensures Covered(more, from, longer, u, c, ev)
  {
    var k :| from <= k < |sent| && sent[k].conn == c && sent[k].user == u && sent[k].event == ev
             && (sent[k].ok || Failure(u, Some(c)) in failures);
    assert more[k] == sent[k];
  }

  // ---- The worker ----

  /** User u is done with: every connection it had was tried, or its event could not be built and that is on the list. */
  ghost predicate UserDone(sent: seq<Sent>, from: nat, failures: seq<Failure>, locals: Conns, e: PushEvent, u: UserId) {
    || u <= 0
    || (u != e.sender && !e.contentOk && Failure(u, None) in failures)
    || forall c :: c in locals && locals[c] == u ==> Covered(sent, from, failures, u, c, EventFor(e, u))
  }

  ghost predicate UsersDone(sent: seq<Sent>, from: nat, failures: seq<Failure>, locals: Conns, e: PushEvent, n: nat)
    requires n <= |e.targets|
  {
    forall i :: 0 <= i < n ==> UserDone(sent, from, failures, locals, e, e.targets[i])
  }

  lemma UsersStayDone(sent: seq<Sent>, more: seq<Sent>, from: nat, failures: seq<Failure>, longer: seq<Failure>,
                      locals: Conns, e: PushEvent, n: nat)
    requires n <= |e.targets| && UsersDone(sent, from, failures, locals, e, n) && sent <= more && failures <= longer
    ensures UsersDone(more, from, longer, locals, e, n)
  {
    forall i, c | 0 <= i < n && c in locals && locals[c] == e.targets[i] && Covered(sent, from, failures, e.targets[i], c, EventFor(e, e.targets[i]))
      ensures Covered(more, from, longer, e.targets[i], c, EventFor(e, e.targets[i]))
    {
      CoveredStays(sent, more, from, failures, longer, e.targets[i], c, EventFor(e, e.targets[i]));
    }
    forall i | 0 <= i < n ensures UserDone(more, from, longer, locals, e, e.targets[i]) {
      assert UserDone(sent, from, failures, locals, e, e.targets[i]);
    }
  }

  /** Every target of the record was done with, and all failures are in a dead-letter record of its offset. */
  ghost predicate Delivered(sent: seq<Sent>, dlq: seq<DeadLetter>, from: nat, locals: Conns, offset: nat, e: PushEvent) {
    exists failures ::
      && UsersDone(sent, from, failures, locals, e, |e.targets|)
      && (failures == [] || DeadLetter(offset, failures) in dlq)
  }

  lemma DeliveredStays(sent: seq<Sent>, more: seq<Sent>, dlq: seq<DeadLetter>, dlq': seq<DeadLetter>,
                       from: nat, locals: Conns, offset: nat, e: PushEvent)
    requires Delivered(sent, dlq, from, locals, offset, e) && sent <= more && dlq <= dlq'
    ensures Delivered(more, dlq', from, locals, offset, e)
  {
    var failures :| UsersDone(sent, from, failures, locals, e, |e.targets|) && (failures == [] || DeadLetter(offset, failures) in dlq);
    UsersStayDone(sent, more, from, failures, failures, locals, e, |e.targets|);
  }

  lemma UserDoneSince(sent: seq<Sent>, from: nat, failures: seq<Failure>, locals: Conns, e: PushEvent, u: UserId)
    requires UserDone(sent, from, failures, locals, e, u)
    ensures UserDone(sent, 0, failures, locals, e, u)
  {
    forall c | c in locals && locals[c] == u && Covered(sent, from, failures, u, c, EventFor(e, u))
      ensures Covered(sent, 0, failures, u, c, EventFor(e, u))
    {
    }
  }

  lemma DeliveredSince(sent: seq<Sent>, dlq: seq<DeadLetter>, from: nat, locals: Conns, offset: nat, e: PushEvent)
    requires Delivered(sent, dlq, from, locals, offset, e)
    ensures Delivered(sent, dlq, 0, locals, offset, e)
  {
    var failures :| UsersDone(sent, from, failures, locals, e, |e.targets|) && (failures == [] || DeadLetter(offset, failures) in dlq);
    forall i | 0 <= i < |e.targets| ensures UserDone(sent, 0, failures, locals, e, e.targets[i]) {
      UserDoneSince(sent, from, failures, locals, e, e.targets[i]);
    }
    assert UsersDone(sent, 0, failures, locals, e, |e.targets|);
  }

  /** What has happened on the partition: `locals` remembers the node's connections at the time a record was delivered. */
  datatype Past = Past(log: seq<Record>, sent: seq<Sent>, dlq: seq<DeadLetter>, locals: map<nat, Conns>)

  /** The record at offset o was delivered to every connection that its targets had on this node. */
  ghost predicate DeliveredAt(p: Past, o: nat, id: MessageId) {
    && o < |p.log| && p.log[o].Push? && p.log[o].event.messageId == id
    && o in p.locals && Delivered(p.sent, p.dlq, 0, p.locals[o], o, p.log[o].event)
  }

  /** Nothing is owed for offset o: there was nothing to push, or its message was delivered, by this record or an equal one. */
  ghost predicate Settled(p: Past, o: nat) {
    o < |p.log| && (p.log[o].Push? ==> exists d :: DeliveredAt(p, d, p.log[o].event.messageId))
  }

  ghost predicate MarksMeanDelivered(p: Past, marks: map<MessageId, int>, origin: map<MessageId, nat>) {
    forall id :: id in marks ==> id in origin && DeliveredAt(p, origin[id], id)
  }

  ghost predicate AllSettled(p: Past, start: nat, end: nat) {
    forall o :: start <= o < end ==> Settled(p, o)
  }

  ghost predicate Goes(p: Past, p': Past) {
    && p'.log == p.log && p.sent <= p'.sent && p.dlq <= p'.dlq
    && (forall o :: o in p.locals ==> o in p'.locals && (p'.locals[o] == p.locals[o] || RedeliveredAt(p', o)))
  }

  ghost predicate RedeliveredAt(p: Past, o: nat) {
    o < |p.log| && p.log[o].Push? && o in p.locals && Delivered(p.sent, p.dlq, 0, p.locals[o], o, p.log[o].event)
  }

  lemma DeliveredAtStays(p: Past, p': Past, o: nat, id: MessageId)
    requires DeliveredAt(p, o, id) && Goes(p, p')
    ensures DeliveredAt(p', o, id)
  {
    if p'.locals[o] == p.locals[o] {
      DeliveredStays(p.sent, p'.sent, p.dlq, p'.dlq, 0, p.locals[o], o, p.log[o].event);
    }
  }

  lemma PastStays(p: Past, p': Past, marks: map<MessageId, int>, origin: map<MessageId, nat>, start: nat, end: nat)
    requires Goes(p, p')
    ensures MarksMeanDelivered(p, marks, origin) ==> MarksMeanDelivered(p', marks, origin)
    ensures AllSettled(p, start, end) ==> AllSettled(p', start, end)
  {
    forall id | id in marks && id in origin && DeliveredAt(p, origin[id], id) ensures DeliveredAt(p', origin[id], id) {
      DeliveredAtStays(p, p', origin[id], id);
    }
    forall o | start <= o < end && Settled(p, o) ensures Settled(p', o) {
      if p.log[o].Push? {
        var d :| DeliveredAt(p, d, p.log[o].event.messageId);
        DeliveredAtStays(p, p', d, p.log[o].event.messageId);
      }
    }
  }

  /** `origin` remembers which record a mark came from. The dead-letter topic and the committed offset outlive
      the worker, the rest does not. `reader` takes the commits, `writer` the dead letters. */
  class Worker {
    const manager: Manager
    const dedupe: Dedupe
    const reader: Environment
    const writer: Environment
    const start: nat
    const log: seq<Record>
    var committed: nat
    var dlq: seq<DeadLetter>
    ghost var locals: map<nat, Conns>
    ghost var origin: map<MessageId, nat>

    ghost function Now(): Past
      reads this, manager
    {
      Past(log, manager.sent, dlq, locals)
    }

    ghost predicate Valid()
      reads this, manager, dedupe
    {
      && Inverse(manager.conns, manager.byUser) && dedupe.Valid()
      && reader != writer && manager.clients != reader && manager.clients != writer
      && start <= committed
      && MarksMeanDelivered(Now(), dedupe.marks, origin)
      && AllSettled(Now(), start, committed)
    }

    /** How many commits and dead letters failed. */
    ghost function Errors(): nat
      reads reader, writer
    {
      reader.failures + writer.failures
    }

    constructor (manager: Manager, dedupe: Dedupe, reader: Environment, writer: Environment,
                 log: seq<Record>, committed: nat, dlq: seq<DeadLetter>)
      requires Inverse(manager.conns, manager.byUser) && dedupe.Valid() && dedupe.marks == map[] && committed <= |log|
      requires reader != writer && manager.clients != reader && manager.clients != writer
      ensures this.manager == manager && this.dedupe == dedupe && this.log == log && this.dlq == dlq
      ensures this.reader == reader && this.writer == writer
      ensures this.committed == start == committed && Valid()
    {
      this.manager, this.dedupe, this.start, this.log := manager, dedupe, committed, log;
      this.reader, this.writer := reader, writer;
      this.committed, this.dlq, this.locals, this.origin := committed, dlq, map[], map[];
    }

    /** Commits that report an error may have taken effect. */
    method CommitMessage(offset: nat) returns (err: bool)
      modifies `committed, reader
      ensures committed == offset + 1 || (err && committed == old(committed))
      ensures reader.failures == old(reader.failures) + if err then 1 else 0
    {
      var landed := *;
      err := reader.Fails();
      if landed || !err {
        committed := offset + 1;
      }
    }

    method PublishDlq(offset: nat, failures: seq<Failure>) returns (err: bool)
      modifies `dlq, writer
      ensures dlq == old(dlq) + [DeadLetter(offset, failures)] || (err && dlq == old(dlq))
      ensures writer.failures == old(writer.failures) + if err then 1 else 0
    {
      var landed := *;
      err := writer.Fails();
      if landed || !err {
        dlq := dlq + [DeadLetter(offset, failures)];
      }
    }

    /** Some target's event cannot be built. */
    ghost predicate SomeUnbuildable(e: PushEvent, n: nat)
      requires n <= |e.targets|
    {
      exists i :: 0 <= i < n && 0 < e.targets[i] && e.targets[i] != e.sender && !e.contentOk
    }

    /** The loop over the targets of one record. */
    method PushToTargets(e: PushEvent) returns (failures: seq<Failure>)
      requires Inverse(manager.conns, manager.byUser)
      modifies manager`sent, manager.clients
      ensures old(manager.sent) <= manager.sent
      ensures UsersDone(manager.sent, |old(manager.sent)|, failures, manager.conns, e, |e.targets|)
      ensures forall k :: |old(manager.sent)| <= k < |manager.sent| ==>
                && 0 < manager.sent[k].user && manager.sent[k].user in e.targets
                && manager.sent[k].event == if manager.sent[k].user == e.sender then Persisted(e.messageId, e.conv, e.seqNo)
                                            else New(e.messageId, e.conv, e.seqNo, e.sender, e.content)
      ensures failures != [] <==> manager.clients.failures != old(manager.clients.failures) || SomeUnbuildable(e, |e.targets|)
    {
      failures := [];
      for i := 0 to |e.targets|
        invariant old(manager.sent) <= manager.sent && old(manager.clients.failures) <= manager.clients.failures
        invariant UsersDone(manager.sent, |old(manager.sent)|, failures, manager.conns, e, i)
        invariant forall k :: |old(manager.sent)| <= k < |manager.sent| ==>
                    && 0 < manager.sent[k].user && manager.sent[k].user in e.targets
                    && manager.sent[k].event == if manager.sent[k].user == e.sender then Persisted(e.messageId, e.conv, e.seqNo)
                                                else New(e.messageId, e.conv, e.seqNo, e.sender, e.content)
        invariant failures != [] <==> manager.clients.failures != old(manager.clients.failures) || SomeUnbuildable(e, i)
      {
        ghost var before, failed := manager.sent, failures;
        var u := e.targets[i];
        if 0 < u {
          if !Buildable(e, u) {
            failures := failures + [Failure(u, None)];
            assert failures[|failed|] == Failure(u, None);
          } else {
            failures := PushToOne(e, u, failures, |old(manager.sent)|);
          }
        }
        UsersStayDone(before, manager.sent, |old(manager.sent)|, failed, failures, manager.conns, e, i);
      }
    }

    method PushToOne(e: PushEvent, u: UserId, failures: seq<Failure>, ghost from: nat) returns (more: seq<Failure>)
      requires Inverse(manager.conns, manager.byUser) && from <= |manager.sent|
      modifies manager`sent, manager.clients
      ensures old(manager.sent) <= manager.sent && failures <= more
      ensures manager.clients.failures == old(manager.clients.failures) + |more| - |failures|
      ensures UserDone(manager.sent, from, more, manager.conns, e, u)
      ensures forall k :: |old(manager.sent)| <= k < |manager.sent| ==> manager.sent[k].user == u && manager.sent[k].event == EventFor(e, u)
    {
      var delivered, failed := manager.PushToUserWithFailures(u, EventFor(e, u));
      more := failures + failed;
      forall c | c in manager.conns && manager.conns[c] == u ensures Covered(manager.sent, from, more, u, c, EventFor(e, u)) {
        assert Covered(manager.sent, |old(manager.sent)|, failed, u, c, EventFor(e, u));
      }
    }

    /** handle. The offset moves only if there was nothing to push, or the message was marked within the TTL, or
        every connection of every target was tried in this call and the failures were written to the
        dead-letter topic first. A repeated message reaches no connection. An error means that a commit or a dead
        letter failed; without the latter the message is marked, and without either the offset is committed. */
    method Handle(offset: nat, now: int, later: int) returns (err: bool)
      requires Valid() && start <= offset < |log| && offset <= committed <= offset + 1
      requires dedupe.clock <= now <= later
      modifies this, dedupe, manager`sent, manager.clients, reader, writer
      ensures Valid() && dedupe.clock <= later && old(manager.sent) <= manager.sent
      ensures log[offset].Push? ==>
                var e := log[offset].event;
                forall k :: |old(manager.sent)| <= k < |manager.sent| ==>
                  && 0 < manager.sent[k].user && manager.sent[k].user in e.targets
                  && manager.sent[k].event == if manager.sent[k].user == e.sender then Persisted(e.messageId, e.conv, e.seqNo)
                                              else New(e.messageId, e.conv, e.seqNo, e.sender, e.content)
      ensures Errors() == old(Errors()) + if err then 1 else 0
      ensures old(writer.failures) <= writer.failures
      ensures committed == offset + 1 || (err && committed == old(committed))
      ensures committed != old(committed) ==>
                || !log[offset].Push?
                || Repeated(old(dedupe.marks), log[offset].event.messageId, now)
                || Delivered(manager.sent, dlq, |old(manager.sent)|, manager.conns, offset, log[offset].event)
      ensures if log[offset].Push? && !Repeated(old(dedupe.marks), log[offset].event.messageId, now) then
                if writer.failures == old(writer.failures) then
                  && dedupe.marks == old(dedupe.marks)[log[offset].event.messageId := later]
                  && Delivered(manager.sent, dlq, |old(manager.sent)|, manager.conns, offset, log[offset].event)
                else committed == old(committed) && dedupe.marks == old(dedupe.marks)
              else manager.sent == old(manager.sent) && dlq == old(dlq) && dedupe.marks == old(dedupe.marks)
    {
      if !log[offset].Push? {
        err := CommitMessage(offset);
        return;
      }
      var e := log[offset].event;
      var seen := dedupe.Seen(e.messageId, now);
      if seen {
        assert DeliveredAt(Now(), origin[e.messageId], e.messageId);
        err := CommitMessage(offset);
        return;
      }
      err := Deliver(offset, e);
      if err {
        return;
      }
      dedupe.Mark(e.messageId, now, later);
      origin := origin[e.messageId := offset];
      assert MarksMeanDelivered(Now(), dedupe.marks, origin);
      err := CommitMessage(offset);
      assert DeliveredAt(Now(), offset, e.messageId);
    }

    predicate Repeated(marks: map<MessageId, int>, id: MessageId, now: int) {
      id in marks && now - marks[id] < dedupe.ttl
    }

    /** The pushes, and the dead-letter record if any of them failed. */
    method Deliver(offset: nat, e: PushEvent) returns (err: bool)
      requires Valid() && start <= offset < |log| && log[offset] == Push(e)
      modifies `dlq, `locals, manager`sent, manager.clients, writer
      ensures Valid() && old(manager.sent) <= manager.sent
      ensures forall k :: |old(manager.sent)| <= k < |manager.sent| ==>
                && 0 < manager.sent[k].user && manager.sent[k].user in e.targets
                && manager.sent[k].event == if manager.sent[k].user == e.sender then Persisted(e.messageId, e.conv, e.seqNo)
                                            else New(e.messageId, e.conv, e.seqNo, e.sender, e.content)
      ensures writer.failures == old(writer.failures) + if err then 1 else 0
      ensures manager.clients.failures == old(manager.clients.failures) && !SomeUnbuildable(e, |e.targets|) ==> !err && dlq == old(dlq)
      ensures !err ==> DeliveredAt(Now(), offset, e.messageId) && Delivered(manager.sent, dlq, |old(manager.sent)|, manager.conns, offset, e)
    {
      var failures := PushToTargets(e);
      err := false;
      if failures != [] {
        err := PublishDlq(offset, failures);
      }
      if !err {
        assert Delivered(manager.sent, dlq, |old(manager.sent)|, manager.conns, offset, e);
        DeliveredSince(manager.sent, dlq, |old(manager.sent)|, manager.conns, offset, e);
        locals := locals[offset := manager.conns];
        assert RedeliveredAt(Now(), offset);
      }
      PastStays(old(Now()), Now(), dedupe.marks, origin, start, committed);
    }

    /** handleWithRetry: an offset is left only once it is committed, and given up only when every try failed. */
    method HandleWithRetry(offset: nat, from: int, tries: nat) returns (done: bool, until: int)
      requires Valid() && start <= offset < |log| && committed == offset
      requires dedupe.clock <= from
      modifies this, dedupe, manager, manager.clients, reader, writer
      ensures Valid() && dedupe.clock <= until && from <= until
      ensures offset <= committed <= offset + 1 && (done ==> committed == offset + 1)
      ensures old(Errors()) <= Errors() && (!done ==> Errors() == old(Errors()) + tries)
    {
      until := from;
      done := false;
      var left: nat := tries;
      while left > 0
        invariant Valid() && offset <= committed <= offset + 1 && dedupe.clock <= until && from <= until
        invariant left <= tries && Errors() == old(Errors()) + tries - left
      {
        left := left - 1;
        manager.Others();
        var wait: nat, took: nat := *, *;
        var err := Handle(offset, until + wait, until + wait + took);
        until := until + wait + took;
        if !err {
          return true, until;
        }
      }
    }

    /** Run, until it is cancelled. */
    method Run(from: int, tries: nat)
      requires Valid() && committed == start <= |log| && dedupe.clock <= from
      modifies this, dedupe, manager, manager.clients, reader, writer
      ensures Valid() && start <= committed <= |log|
      ensures committed == |log| || old(Errors()) + tries <= Errors()
    {
      var next, now := committed, from;
      while next < |log|
        invariant Valid() && committed == next <= |log| && dedupe.clock <= now && old(Errors()) <= Errors()
      {
        var done: bool;
        done, now := HandleWithRetry(next, now, tries);
        if !done {
          return;
        }
        next := next + 1;
      }
    }
  }
}

/**
  The message_outbox table: one row per persisted message, keyed by message id,
  with the row transitions of OutboxRepository. A row is claimed under a lease
  and every later transition is fenced by locked_by.
  */
module OutboxRows {
  import opened Common

  type Owner = nat
  type Table = map<MessageId, Row>

  // Durations are in nanoseconds, as in Go's time.Duration.
  const SECOND := 1_000_000_000
  const DEFAULT_LEASE := 5 * SECOND
  const DEFAULT_DLQ_BACKOFF := SECOND

  datatype Status = Pending | Published | Retrying | Dead | DlqPending

  /** `corrupt` says that the stored payload does not decode, or that its
      identity does not match the row. The payload itself never changes. */
  datatype Row = Row(conv: ConvId, seqNo: int, shard: int, corrupt: bool,
                     status: Status, retryCount: nat, nextRetryAt: int,
                     lockedBy: Option<Owner>, lockedAt: Option<int>, publishedAt: Option<int>)

  datatype Candidate = Candidate(shard: int, conv: ConvId)

  /** What Claim hands to a worker. */
  datatype Record = Record(id: MessageId, status: Status, retryCount: nat, shard: int, conv: ConvId, seqNo: int)

  predicate Terminal(r: Row) {
    r.status.Published? || r.status.Dead?
  }

  // ---- Row transitions ----

  function NewRow(conv: ConvId, seqNo: int, shard: int, corrupt: bool, now: int): Row {
    Row(conv, seqNo, shard, corrupt, Pending, 0, now, None, None, None)
  }

  function ClaimedStatus(r: Row): Status {
    if r.corrupt || r.status.DlqPending? then DlqPending else Retrying
  }

  function ClaimedRow(r: Row, owner: Owner, now: int, lease: int): Row {
    r.(status := ClaimedStatus(r), lockedBy := Some(owner), lockedAt := Some(now), nextRetryAt := now + lease)
  }

  function PublishedRow(r: Row, now: int): Row {
    r.(status := Published, publishedAt := Some(now), lockedBy := None, lockedAt := None)
  }

  function Shift(n: nat): nat {
    if n == 0 then 1 else 2 * Shift(n - 1)
  }

  /** backoff * 2^min(n, 6) */
  function Delay(backoff: int, n: nat): int {
    backoff * Shift(Min(n, 6))
  }

  /** rand.Int63n(delay / 4) is below delay / 4, and is not drawn when that is 0. */
  predicate ValidJitter(delay: int, jitter: int) {
    if delay / 4 > 0 then 0 <= jitter < delay / 4 else jitter == 0
  }

  /** `retries` is the retry_count that MarkFailed read before this update. */
  function FailedRow(r: Row, retries: nat, maxRetries: int, backoff: int, lease: int, owner: Owner, now: int, jitter: int): Row {
    var next := retries + 1;
    if next >= maxRetries then
      r.(status := DlqPending, retryCount := next, nextRetryAt := now + lease, lockedBy := Some(owner), lockedAt := Some(now))
    else
      r.(status := Retrying, retryCount := next, nextRetryAt := now + (Delay(backoff, next) + jitter), lockedBy := None, lockedAt := None)
  }

  function DlqRetriedRow(r: Row, now: int, backoff: int): Row {
    r.(nextRetryAt := now + backoff, lockedBy := None, lockedAt := None)
  }

  function DeadRow(r: Row): Row {
    r.(status := Dead, lockedBy := None, lockedAt := None)
  }

  lemma ShiftExact(n: nat)
    requires n <= 6
    ensures Shift(n) == [1, 2, 4, 8, 16, 32, 64][n]
  {
    if n > 0 {
      ShiftExact(n - 1);
    }
  }

  /** The n-th failure waits 2, 4, 8, 16, 32 and from then on 64 backoffs. */
  lemma DelayExact(backoff: int, n: nat)
    ensures Delay(backoff, n) == backoff * [1, 2, 4, 8, 16, 32, 64][if n < 6 then n else 6]
    ensures 0 < backoff ==> backoff <= Delay(backoff, n) <= 64 * backoff
  {
    var k: nat := if n < 6 then n else 6;
    ShiftExact(k);
    var s := Shift(k);
    assert s == 1 || s == 2 || s == 4 || s == 8 || s == 16 || s == 32 || s == 64;
  }

  /** The jitter adds less than a quarter. */
  lemma WaitInWindow(backoff: int, n: nat, jitter: int)
    requires 0 < backoff && ValidJitter(Delay(backoff, n), jitter)
    ensures var d, wait := backoff * [1, 2, 4, 8, 16, 32, 64][if n < 6 then n else 6], Delay(backoff, n) + jitter;
            d <= wait && 4 * wait < 5 * d
  {
    DelayExact(backoff, n);
  }

  // ---- The head of a conversation ----

  ghost predicate InQueue(t: Table, shard: int, conv: ConvId, id: MessageId) {
    id in t && t[id].shard == shard && t[id].conv == conv && !Terminal(t[id])
  }

  /** The row the locking query of Claim returns: the lowest seq among the non-terminal rows. */
  ghost predicate IsHead(t: Table, shard: int, conv: ConvId, id: MessageId) {
    && InQueue(t, shard, conv, id)
    && forall o :: InQueue(t, shard, conv, o) ==> t[id].seqNo <= t[o].seqNo
  }

  /** No conversation holds two rows with one seq. */
  ghost predicate DistinctSeqs(t: Table) {
    forall a, b :: a in t && b in t && t[a].conv == t[b].conv && t[a].seqNo == t[b].seqNo ==> a == b
  }

  /** The candidate query: a due non-terminal row with no earlier non-terminal row before it. */
  ghost predicate DueCandidate(t: Table, shards: set<int>, dbNow: int, shard: int, conv: ConvId) {
    && shard in shards
    && exists o :: InQueue(t, shard, conv, o) && t[o].nextRetryAt <= dbNow
                   && forall p :: InQueue(t, shard, conv, p) ==> !(t[p].seqNo < t[o].seqNo)
  }

  lemma CandidateIffDueHead(t: Table, shards: set<int>, dbNow: int, shard: int, conv: ConvId)
    ensures DueCandidate(t, shards, dbNow, shard, conv)
            <==> shard in shards && exists id :: IsHead(t, shard, conv, id) && t[id].nextRetryAt <= dbNow
  {
    if shard in shards && exists id :: IsHead(t, shard, conv, id) && t[id].nextRetryAt <= dbNow {
      var id :| IsHead(t, shard, conv, id) && t[id].nextRetryAt <= dbNow;
      assert InQueue(t, shard, conv, id);
    }
    if DueCandidate(t, shards, dbNow, shard, conv) {
      var o :| InQueue(t, shard, conv, o) && t[o].nextRetryAt <= dbNow
               && forall p :: InQueue(t, shard, conv, p) ==> !(t[p].seqNo < t[o].seqNo);
      assert IsHead(t, shard, conv, o);
    }
  }

  /** The table after one Claim transaction that locked the rows in `ids`. */
  function ClaimRows(t: Table, ids: set<MessageId>, owner: Owner, now: int, lease: int): Table {
    map id | id in t :: if id in ids then ClaimedRow(t[id], owner, now, lease) else t[id]
  }

  function RecordOf(id: MessageId, r: Row): Record {
    Record(id, ClaimedStatus(r), r.retryCount, r.shard, r.conv, r.seqNo)
  }

  function Ids(records: seq<Record>): set<MessageId> {
    set r | r in records :: r.id
  }

  /** Every handed-out record is a head that was due, once per row. */
  ghost predicate ClaimsDueHeads(t: Table, records: seq<Record>, now: int) {
    && (forall r :: r in records ==>
          IsHead(t, r.shard, r.conv, r.id) && t[r.id].nextRetryAt <= now && r == RecordOf(r.id, t[r.id]))
    && (forall i, j :: 0 <= i < j < |records| ==> records[i].id != records[j].id)
  }

  ghost predicate HasDueHead(t: Table, c: Candidate, now: int) {
    exists id :: IsHead(t, c.shard, c.conv, id) && t[id].nextRetryAt <= now
  }

  ghost predicate Served(records: seq<Record>, c: Candidate) {
    exists r :: r in records && r.conv == c.conv && r.shard == c.shard
  }

  lemma ClaimKeepsQueues(t: Table, ids: set<MessageId>, owner: Owner, now: int, lease: int, shard: int, conv: ConvId, id: MessageId)
    requires forall k :: k in ids ==> k in t && !Terminal(t[k])
    ensures InQueue(ClaimRows(t, ids, owner, now, lease), shard, conv, id) <==> InQueue(t, shard, conv, id)
    ensures IsHead(ClaimRows(t, ids, owner, now, lease), shard, conv, id) <==> IsHead(t, shard, conv, id)
  {
    var u := ClaimRows(t, ids, owner, now, lease);
    forall o ensures InQueue(u, shard, conv, o) <==> InQueue(t, shard, conv, o) {
    }
  }

  /** What a Claim transaction that went through `candidates` did: it handed out due heads only, locked exactly
      their rows, and served every candidate that was free and due. */
  ghost predicate ClaimedFrom(was: Table, t: Table, records: seq<Record>, candidates: seq<Candidate>, busy: set<ConvId>,
                              owner: Owner, now: int, lease: int) {
    && ClaimsDueHeads(was, records, now)
    && t == ClaimRows(was, Ids(records), owner, now, lease)
    && (forall r :: r in records ==> r.conv !in busy && Candidate(r.shard, r.conv) in candidates)
    && (DistinctSeqs(was) ==>
          forall c :: c in candidates && c.conv !in busy && HasDueHead(was, c, now) ==> Served(records, c))
  }

  /** A head that is not due under the lock either was not due before the transaction, or was claimed by it. */
  lemma ClaimSkips(was: Table, t: Table, records: seq<Record>, candidates: seq<Candidate>, busy: set<ConvId>,
                   owner: Owner, now: int, lease: int, cand: Candidate)
    requires ClaimedFrom(was, t, records, candidates, busy, owner, now, lease)
    requires || cand.conv in busy
             || (forall o :: !InQueue(t, cand.shard, cand.conv, o))
             || (exists id :: IsHead(t, cand.shard, cand.conv, id) && t[id].nextRetryAt > now)
    ensures ClaimedFrom(was, t, records, candidates + [cand], busy, owner, now, lease)
  {
    forall o ensures InQueue(t, cand.shard, cand.conv, o) <==> InQueue(was, cand.shard, cand.conv, o)
             ensures IsHead(t, cand.shard, cand.conv, o) <==> IsHead(was, cand.shard, cand.conv, o) {
      ClaimKeepsQueues(was, Ids(records), owner, now, lease, cand.shard, cand.conv, o);
    }
    if DistinctSeqs(was) && cand.conv !in busy && HasDueHead(was, cand, now) {
      var o :| IsHead(was, cand.shard, cand.conv, o) && was[o].nextRetryAt <= now;
      assert InQueue(t, cand.shard, cand.conv, o);
      var id :| IsHead(t, cand.shard, cand.conv, id) && t[id].nextRetryAt > now;
      assert InQueue(was, cand.shard, cand.conv, id);
      assert id == o;
      var r :| r in records && r.id == id;
      assert Served(records, cand);
    }
  }

  lemma ClaimTakes(was: Table, t: Table, records: seq<Record>, candidates: seq<Candidate>, busy: set<ConvId>,
                   owner: Owner, now: int, lease: int, cand: Candidate, id: MessageId)
    requires 0 < lease
    requires ClaimedFrom(was, t, records, candidates, busy, owner, now, lease)
    requires cand.conv !in busy
    requires IsHead(t, cand.shard, cand.conv, id) && t[id].nextRetryAt <= now
    ensures ClaimedFrom(was, t[id := ClaimedRow(t[id], owner, now, lease)], records + [RecordOf(id, t[id])],
                        candidates + [cand], busy, owner, now, lease)
  {
    ClaimKeepsQueues(was, Ids(records), owner, now, lease, cand.shard, cand.conv, id);
    assert id !in Ids(records);
    var more := records + [RecordOf(id, t[id])];
    assert Ids(more) == Ids(records) + {id};
    assert t[id := ClaimedRow(t[id], owner, now, lease)] == ClaimRows(was, Ids(more), owner, now, lease);
    assert more[|records|].conv == cand.conv && more[|records|].shard == cand.shard;
    forall c | Served(records, c) ensures Served(more, c) {
      var r :| r in records && r.conv == c.conv && r.shard == c.shard;
      assert r in more;
    }
  }

  /** The repository over the table. Each Mark is one UPDATE statement; Claim is one transaction
      that holds the row locks it takes until it commits, so it is one step for everybody else. */
  class OutboxRepository {
    var rows: Table

    constructor ()
      ensures rows == map[]
    {
      rows := map[];
    }

    method Head(shard: int, conv: ConvId) returns (found: Option<MessageId>)
      ensures found.None? ==> forall o :: !InQueue(rows, shard, conv, o)
      ensures found.Some? ==> IsHead(rows, shard, conv, found.value)
    {
      found := None;
      var todo := rows.Keys;
      while todo != {}
        invariant todo <= rows.Keys
        invariant found.None? ==> forall o :: InQueue(rows, shard, conv, o) ==> o in todo
        invariant found.Some? ==>
                    && InQueue(rows, shard, conv, found.value)
                    && forall o :: InQueue(rows, shard, conv, o) && o !in todo ==> rows[found.value].seqNo <= rows[o].seqNo
        decreases todo
      {
        var id := Pick(todo);
        todo := todo - {id};
        var r := rows[id];
        if r.shard == shard && r.conv == conv && !Terminal(r) {
          if found.None? || r.seqNo < rows[found.value].seqNo {
            found := Some(id);
          }
        }
      }
    }

    /** `candidates` is whatever the narrowing query saw, possibly stale; `busy` holds the conversations
        whose row is missing or locked by another transaction (SKIP LOCKED). */
    method Claim(candidates: seq<Candidate>, busy: set<ConvId>, owner: Owner, now: int, lease: int)
      returns (records: seq<Record>)
      modifies this
      ensures ClaimedFrom(old(rows), rows, records, candidates, busy, owner, now, if lease <= 0 then DEFAULT_LEASE else lease)
      ensures rows.Keys == old(rows).Keys
      ensures forall id :: id in rows && (forall r :: r in records ==> r.id != id) ==> rows[id] == old(rows)[id]
      ensures forall r :: r in records && r.id in rows ==>
                var was, status := old(rows)[r.id], if old(rows)[r.id].corrupt || old(rows)[r.id].status == DlqPending then DlqPending else Retrying;
                && was.status != Published && was.status != Dead && was.nextRetryAt <= now
                && rows[r.id] == was.(status := status, lockedBy := Some(owner), lockedAt := Some(now),
                                      nextRetryAt := now + if lease <= 0 then 5_000_000_000 else lease)
                && r == Record(r.id, status, was.retryCount, was.shard, was.conv, was.seqNo)
    {
      var hold := if lease <= 0 then DEFAULT_LEASE else lease;
      records := [];
      ghost var was := rows;
      for i := 0 to |candidates|
        invariant ClaimedFrom(was, rows, records, candidates[..i], busy, owner, now, hold)
      {
        var cand := candidates[i];
        assert candidates[..i + 1] == candidates[..i] + [cand];
        if cand.conv in busy {
          ClaimSkips(was, rows, records, candidates[..i], busy, owner, now, hold, cand);
          continue;
        }
        var head := Head(cand.shard, cand.conv);
        if head.None? || rows[head.value].nextRetryAt > now {
          ClaimSkips(was, rows, records, candidates[..i], busy, owner, now, hold, cand);
          continue;
        }
        var id := head.value;
        var row := rows[id];
        ClaimTakes(was, rows, records, candidates[..i], busy, owner, now, hold, cand, id);
        var status := if row.corrupt then DlqPending else row.status;
        if !status.DlqPending? {
          status := Retrying;
        }
        rows := rows[id := row.(status := status, lockedBy := Some(owner), lockedAt := Some(now), nextRetryAt := now + hold)];
        records := records + [Record(id, status, row.retryCount, row.shard, row.conv, row.seqNo)];
      }
      assert candidates[..|candidates|] == candidates;
    }

    method MarkPublished(id: MessageId, now: int, owner: Owner) returns (applied: bool)
      modifies this
      ensures applied <==> id in old(rows) && old(rows)[id].lockedBy == Some(owner)
      ensures rows == if applied
                      then old(rows)[id := old(rows)[id].(status := Published, publishedAt := Some(now), lockedBy := None, lockedAt := None)]
                      else old(rows)
    {
      applied := id in rows && rows[id].lockedBy == Some(owner);
      if applied {
        rows := rows[id := rows[id].(status := Published, publishedAt := Some(now), lockedBy := None, lockedAt := None)];
      }
    }

    /** The read half of MarkFailed. */
    method ReadRetries(id: MessageId, owner: Owner) returns (cur: Option<nat>)
      ensures cur == if id in rows && rows[id].lockedBy == Some(owner) then Some(rows[id].retryCount) else None
    {
      if id in rows && rows[id].lockedBy == Some(owner) {
        cur := Some(rows[id].retryCount);
      } else {
        cur := None;
      }
    }

    /** The update half of MarkFailed, with the retry_count that the read returned: the last failure keeps the lock for
        a lease, any other puts the row off by 2, 4, .. 64 backoffs and the jitter, and frees it. */
    method UpdateFailed(id: MessageId, retries: nat, maxRetries: int, backoff: int, lease: int, owner: Owner, now: int, jitter: int)
      returns (applied: bool, needsDlq: bool)
      modifies this
      ensures applied <==> id in old(rows) && old(rows)[id].lockedBy == Some(owner)
      ensures needsDlq <==> applied && retries + 1 >= maxRetries
      ensures applied ==>
                var r := old(rows)[id].(retryCount := retries + 1);
                rows == old(rows)[id :=
                  if retries + 1 >= maxRetries
                  then r.(status := DlqPending, nextRetryAt := now + (if lease <= 0 then 5_000_000_000 else lease), lockedBy := Some(owner), lockedAt := Some(now))
                  else r.(status := Retrying, lockedBy := None, lockedAt := None,
                          nextRetryAt := now + backoff * [1, 2, 4, 8, 16, 32, 64][if retries + 1 < 6 then retries + 1 else 6] + jitter)]
      ensures rows == if applied
                      then old(rows)[id := FailedRow(old(rows)[id], retries, maxRetries, backoff, if lease <= 0 then DEFAULT_LEASE else lease, owner, now, jitter)]
                      else old(rows)
    {
      DelayExact(backoff, retries + 1);
      var nextRetries := retries + 1;
      var wantsDlq := nextRetries >= maxRetries;
      applied := id in rows && rows[id].lockedBy == Some(owner);
      if applied {
        var r := rows[id].(status := Retrying, retryCount := nextRetries, lockedBy := None, lockedAt := None);
        if wantsDlq {
          var hold := if lease <= 0 then DEFAULT_LEASE else lease;
          r := r.(status := DlqPending, nextRetryAt := now + hold, lockedBy := Some(owner), lockedAt := Some(now));
        } else {
          var delay := backoff * Shift(Min(nextRetries, 6));
          r := r.(nextRetryAt := now + (delay + jitter));
        }
        rows := rows[id := r];
      }
      needsDlq := applied && wantsDlq;
    }

    method RetryDlq(id: MessageId, backoff: int, owner: Owner, now: int) returns (applied: bool)
      modifies this
      ensures applied <==> id in old(rows) && old(rows)[id].status.DlqPending? && old(rows)[id].lockedBy == Some(owner)
      ensures rows == if applied
                      then old(rows)[id := old(rows)[id].(nextRetryAt := now + (if backoff <= 0 then 1_000_000_000 else backoff), lockedBy := None, lockedAt := None)]
                      else old(rows)
    {
      var wait := if backoff <= 0 then DEFAULT_DLQ_BACKOFF else backoff;
      applied := id in rows && rows[id].status.DlqPending? && rows[id].lockedBy == Some(owner);
      if applied {
        rows := rows[id := rows[id].(nextRetryAt := now + wait, lockedBy := None, lockedAt := None)];
      }
    }

    method MarkDead(id: MessageId, owner: Owner) returns (applied: bool)
      modifies this
      ensures applied <==> id in old(rows) && old(rows)[id].status.DlqPending? && old(rows)[id].lockedBy == Some(owner)
      ensures rows == if applied then old(rows)[id := old(rows)[id].(status := Dead, lockedBy := None, lockedAt := None)] else old(rows)
    {
      applied := id in rows && rows[id].status.DlqPending? && rows[id].lockedBy == Some(owner);
      if applied {
        rows := rows[id := rows[id].(status := Dead, lockedBy := None, lockedAt := None)];
      }
    }
  }
}

/** The fixed shards of the outbox and the publisher slots that own them. */
module Shards {
  import opened Common

  const OUTBOX_SHARD_COUNT := 1024

  /** OutboxShardID, over an arbitrary checksum of the conversation id. */
  function ShardId(checksum: Hash, conv: ConvId): (shard: int)
    ensures 0 <= shard < OUTBOX_SHARD_COUNT
  {
    HashOf(checksum, conv) % OUTBOX_SHARD_COUNT
  }

  lemma AddModulus(a: nat, n: nat)
    requires 0 < n
    ensures (a + n) % n == a % n
  {
    var q, r := a / n, a % n;
    assert a + n == (q + 1) * n + r;
    QuotientIsUnique(a + n, n, q + 1, r);
  }

  lemma QuotientIsUnique(a: nat, n: nat, q: nat, r: nat)
    requires r < n && a == q * n + r
    ensures a / n == q && a % n == r
  {
    var d := q - a / n;
    assert d * n + r == a % n;
    MulGap(d, n);
  }

  lemma MulGap(d: int, n: int)
    requires 0 < n
    ensures 0 < d ==> n <= d * n
    ensures d < 0 ==> d * n <= -n
  {
    if 0 < d {
      assert (d - 1) * n >= 0;
    } else if d < 0 {
      assert (-d - 1) * n >= 0;
    }
  }

  lemma SameResidueGap(a: nat, b: nat, n: nat)
    requires 0 < n && a < b && a % n == b % n
    ensures a + n <= b
  {
    var p, q := a / n, b / n;
    assert a == p * n + a % n && b == q * n + b % n;
    assert q * n - p * n == (q - p) * n;
    MulGap(q - p, n);
  }

  /** No other number of its residue comes before the next step. */
  lemma NoneBetween(a: nat, n: nat)
    requires 0 < n
    ensures forall s :: a < s < a + n ==> s % n != a % n
  {
    forall s | a < s < a + n ensures s % n != a % n {
      if s % n == a % n {
        SameResidueGap(a, s, n);
      }
    }
  }

  lemma NoneBelow(w: nat, n: nat)
    requires w < n
    ensures forall s :: 0 <= s < w ==> s % n != w
  {
    forall s | 0 <= s < w ensures s % n != w {
      QuotientIsUnique(s, n, 0, s);
    }
  }

  /** A worker owns exactly the shards congruent to its slot, ascending; a slot out of range owns none. */
  method OutboxShardsForWorker(workerId: int, workerCount: int) returns (shards: seq<int>)
    ensures forall s :: s in shards <==> 0 <= workerId < workerCount && 0 <= s < 1024 && s % workerCount == workerId
    ensures forall i, j :: 0 <= i < j < |shards| ==> shards[i] < shards[j]
  {
    shards := [];
    if workerCount <= 0 || workerId < 0 || workerId >= workerCount {
      return;
    }
    var shardId := workerId;
    QuotientIsUnique(workerId, workerCount, 0, workerId);
    NoneBelow(workerId, workerCount);
    while shardId < OUTBOX_SHARD_COUNT
      invariant 0 <= shardId && shardId % workerCount == workerId
      invariant forall s :: s in shards <==> OwnedBy(s, workerId, workerCount) && s < shardId
      invariant forall i, j :: 0 <= i < j < |shards| ==> shards[i] < shards[j]
      decreases OUTBOX_SHARD_COUNT - shardId
    {
      NoneBetween(shardId, workerCount);
      AddModulus(shardId, workerCount);
      assert forall i :: 0 <= i < |shards| ==> shards[i] in shards;
      shards := shards + [shardId];
      shardId := shardId + workerCount;
    }
  }

  predicate OwnedBy(shard: int, workerId: int, workerCount: int) {
    && 0 < workerCount && 0 <= workerId < workerCount
    && 0 <= shard < OUTBOX_SHARD_COUNT && shard % workerCount == workerId
  }

  /** The shard of a conversation has exactly one owner, whatever the number of slots. */
  lemma OneSlotPerConversation(checksum: Hash, conv: ConvId, workerCount: int)
    requires 1 <= workerCount
    ensures exists w :: OwnedBy(ShardId(checksum, conv), w, workerCount)
    ensures forall v, w :: OwnedBy(ShardId(checksum, conv), v, workerCount) && OwnedBy(ShardId(checksum, conv), w, workerCount) ==> v == w
  {
    var shard := ShardId(checksum, conv);
    assert OwnedBy(shard, shard % workerCount, workerCount);
  }
}

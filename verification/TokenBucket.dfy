/**
  The distributed token bucket: one script call reads the hash, refills it by the time gone by, takes a token
  if there is one, writes the hash back and renews its expiry. Tokens are exact reals; times are the
  milliseconds of the Redis clock, which is the clock that keys expire by.
*/
module TokenBucket {
  import opened Common

  /** `ttl` is in whole seconds, as EXPIRE takes it. */
  datatype Params = Params(capacity: real, perSecond: real, ttl: nat)

  datatype Bucket = Bucket(tokens: real, lastRefill: int, expireAt: int)

  predicate ValidParams(p: Params) {
    0.0 <= p.capacity && 0.0 <= p.perSecond && 1 <= p.ttl
  }

  /** The tokens that come in over some milliseconds. */
  function Refill(p: Params, ms: int): real {
    p.perSecond * ms as real / 1000.0
  }

  function LeastReal(a: real, b: real): real {
    if a > b then b else a
  }

  /** What HGET sees: a key is gone once the clock has passed its expiry. `expiring` is false for a store that
      never drops a key, which is what the bucket is meant to look like. */
  function Seen(expiring: bool, key: Option<Bucket>, now: int): Option<Bucket> {
    if expiring && key.Some? && key.value.expireAt < now then None else key
  }

  /** The tokens in the bucket when a call looks at it. */
  function Level(p: Params, seen: Option<Bucket>, now: int): real {
    match seen
    case None => p.capacity
    case Some(b) => LeastReal(b.tokens + Refill(p, Max(now - b.lastRefill, 0)), p.capacity)
  }

  function AfterCall(p: Params, level: real, now: int): Option<Bucket> {
    Some(Bucket(if level >= 1.0 then level - 1.0 else level, now, now + 1000 * p.ttl))
  }

  // ---- The script ----

  class Redis {
    var key: Option<Bucket>

    constructor ()
      ensures key == None
    {
      key := None;
    }

    /** token_bucket.lua. A new or expired key counts as a full bucket; any other holds what was left and what came in
        since, up to its capacity. A call takes one token if there is one, and leaves the rest as it is if not. */
    method Take(p: Params, now: int) returns (allowed: bool)
      requires ValidParams(p)
      modifies this
      ensures var level := Level(p, Seen(true, old(key), now), now);
              (allowed <==> level >= 1.0) && key == AfterCall(p, level, now)
      ensures key.Some? && key.value.lastRefill == now && key.value.expireAt == now + 1000 * p.ttl
      ensures var left := key.value.tokens + if allowed then 1.0 else 0.0;
              && (allowed <==> left >= 1.0)
              && (if old(key).None? || old(key).value.expireAt < now then left == p.capacity
                  else
                    var came := if now < old(key).value.lastRefill then 0.0 else p.perSecond * (now - old(key).value.lastRefill) as real / 1000.0;
                    left == if old(key).value.tokens + came > p.capacity then p.capacity else old(key).value.tokens + came)
    {
      if key.Some? && key.value.expireAt < now {
        key := None;
      }
      var tokens, lastRefill;
      if key.None? {
        tokens := p.capacity;
        lastRefill := now;
      } else {
        tokens := key.value.tokens;
        lastRefill := key.value.lastRefill;
      }
      var elapsed := now - lastRefill;
      if elapsed < 0 {
        elapsed := 0;
      }
      tokens := tokens + p.perSecond * elapsed as real / 1000.0;
      if tokens > p.capacity {
        tokens := p.capacity;
      }
      allowed := tokens >= 1.0;
      if allowed {
        tokens := tokens - 1.0;
      }
      key := Some(Bucket(tokens, now, now + 1000 * p.ttl));
    }
  }

  // ---- Any number of calls on one key, at the given times ----

  ghost predicate Nondecreasing(times: seq<int>) {
    forall i, j :: 0 <= i <= j < |times| ==> times[i] <= times[j]
  }

  function KeyBefore(p: Params, expiring: bool, times: seq<int>, k: nat): Option<Bucket>
    requires k <= |times|
    decreases k, 0
  {
    if k == 0 then None else AfterCall(p, LevelOf(p, expiring, times, k - 1), times[k - 1])
  }

  function LevelOf(p: Params, expiring: bool, times: seq<int>, k: nat): real
    requires k < |times|
    decreases k, 1
  {
    Level(p, Seen(expiring, KeyBefore(p, expiring, times, k), times[k]), times[k])
  }

  predicate Admitted(p: Params, expiring: bool, times: seq<int>, k: nat)
    requires k < |times|
  {
    LevelOf(p, expiring, times, k) >= 1.0
  }

  /** How many of the calls i .. j - 1 are admitted. */
  function Count(p: Params, expiring: bool, times: seq<int>, i: nat, j: nat): nat
    requires j <= |times|
  {
    if j <= i then 0 else Count(p, expiring, times, i, j - 1) + if Admitted(p, expiring, times, j - 1) then 1 else 0
  }

  lemma RefillAdds(p: Params, a: int, b: int)
    ensures Refill(p, a) + Refill(p, b) == Refill(p, a + b)
  {
    assert p.perSecond * a as real + p.perSecond * b as real == p.perSecond * (a + b) as real;
  }

  lemma RefillGrows(p: Params, a: int, b: int)
    requires ValidParams(p) && a <= b
    ensures Refill(p, a) <= Refill(p, b)
  {
    assert p.perSecond * (b - a) as real >= 0.0;
    assert p.perSecond * b as real == p.perSecond * a as real + p.perSecond * (b - a) as real;
  }

  lemma {:induction false} TokensInRange(p: Params, expiring: bool, times: seq<int>, k: nat)
    requires ValidParams(p) && k < |times|
    ensures 0.0 <= LevelOf(p, expiring, times, k) <= p.capacity
    ensures 0.0 <= KeyBefore(p, expiring, times, k + 1).value.tokens <= p.capacity
  {
    RefillGrows(p, 0, if k == 0 then 0 else Max(times[k] - times[k - 1], 0));
    if k > 0 {
      TokensInRange(p, expiring, times, k - 1);
    }
  }

  /** Tokens taken and tokens left add up to no more than a full bucket and what came in since call i. */
  lemma {:induction false} TokensConserved(p: Params, times: seq<int>, i: nat, j: nat)
    requires ValidParams(p) && Nondecreasing(times) && i < j <= |times|
    ensures Count(p, false, times, i, j) as real + KeyBefore(p, false, times, j).value.tokens
            <= p.capacity + Refill(p, times[j - 1] - times[i])
    decreases j
  {
    var k: nat := j - 1;
    TokensInRange(p, false, times, k);
    if i < k {
      TokensConserved(p, times, i, k);
      assert times[k - 1] <= times[k];
      assert LevelOf(p, false, times, k) <= KeyBefore(p, false, times, k).value.tokens + Refill(p, times[k] - times[k - 1]);
      RefillAdds(p, times[k - 1] - times[i], times[k] - times[k - 1]);
    } else {
      assert Count(p, false, times, i, k) == 0;
    }
  }

  /** The bound of the bucket: a window of d milliseconds admits at most capacity + perSecond * d / 1000 calls. */
  lemma WindowBound(p: Params, times: seq<int>, i: nat, j: nat)
    requires ValidParams(p) && Nondecreasing(times) && i < j <= |times|
    ensures Count(p, false, times, i, j) as real <= p.capacity + Refill(p, times[j - 1] - times[i])
  {
    TokensConserved(p, times, i, j);
    TokensInRange(p, false, times, j - 1);
  }

  // ---- What the bucket gives ----

  /** No call after i finds the bucket full or its key gone. */
  ghost predicate NeverFull(p: Params, expiring: bool, times: seq<int>, i: nat, j: nat)
    requires j <= |times|
  {
    forall k: nat :: i < k < j ==>
      && KeyBefore(p, expiring, times, k).value.tokens + Refill(p, times[k] - times[k - 1]) <= p.capacity
      && (expiring ==> times[k] - times[k - 1] <= 1000 * p.ttl)
  }

  lemma LevelFollows(p: Params, expiring: bool, times: seq<int>, k: nat)
    requires ValidParams(p) && 0 < k < |times| && times[k - 1] <= times[k]
    requires expiring ==> times[k] - times[k - 1] <= 1000 * p.ttl
    ensures LevelOf(p, expiring, times, k)
            == LeastReal(KeyBefore(p, expiring, times, k).value.tokens + Refill(p, times[k] - times[k - 1]), p.capacity)
    ensures KeyBefore(p, expiring, times, k).value.tokens
            == LevelOf(p, expiring, times, k - 1) - if LevelOf(p, expiring, times, k - 1) >= 1.0 then 1.0 else 0.0
  {
  }

  /** Nothing is lost: while the bucket does not fill up, what the first call of a window finds and what comes in during
      the window is what its calls take and what they leave. A refused call takes nothing. */
  lemma {:induction false} TokensExact(p: Params, expiring: bool, times: seq<int>, i: nat, j: nat)
    requires ValidParams(p) && Nondecreasing(times) && i < j <= |times| && NeverFull(p, expiring, times, i, j)
    ensures LevelOf(p, expiring, times, i) + Refill(p, times[j - 1] - times[i])
            == Count(p, expiring, times, i, j) as real + KeyBefore(p, expiring, times, j).value.tokens
    decreases j
  {
    var k: nat := j - 1;
    if i < k {
      TokensExact(p, expiring, times, i, k);
      assert times[k - 1] <= times[k];
      OneMoreCall(p, expiring, times, i, k);
    } else {
      assert Count(p, expiring, times, i, k) == 0;
      assert Refill(p, 0) == 0.0;
    }
  }

  lemma OneMoreCall(p: Params, expiring: bool, times: seq<int>, i: nat, k: nat)
    requires ValidParams(p) && i < k < |times| && times[k - 1] <= times[k]
    requires KeyBefore(p, expiring, times, k).value.tokens + Refill(p, times[k] - times[k - 1]) <= p.capacity
    requires expiring ==> times[k] - times[k - 1] <= 1000 * p.ttl
    ensures Count(p, expiring, times, i, k + 1) as real + KeyBefore(p, expiring, times, k + 1).value.tokens
            == Count(p, expiring, times, i, k) as real + KeyBefore(p, expiring, times, k).value.tokens + Refill(p, times[k] - times[k - 1])
    ensures Refill(p, times[k - 1] - times[i]) + Refill(p, times[k] - times[k - 1]) == Refill(p, times[k] - times[i])
  {
    LevelFollows(p, expiring, times, k);
    RefillAdds(p, times[k - 1] - times[i], times[k] - times[k - 1]);
  }

  ghost predicate AllRefused(p: Params, expiring: bool, times: seq<int>, i: nat, j: nat)
    requires j <= |times|
  {
    forall k: nat :: i <= k < j ==> !Admitted(p, expiring, times, k)
  }

  /** After refused calls, however many and whenever they came, the next one is admitted exactly when what the first of
      them found and what came in since make a token. */
  lemma {:induction false} AdmittedAgainIff(p: Params, expiring: bool, times: seq<int>, i: nat, j: nat)
    requires ValidParams(p) && 1.0 <= p.capacity && Nondecreasing(times) && i < j < |times| && AllRefused(p, expiring, times, i, j)
    requires expiring ==> forall k :: i < k <= j ==> times[k] - times[k - 1] <= 1000 * p.ttl
    ensures LevelOf(p, expiring, times, j) == LeastReal(LevelOf(p, expiring, times, i) + Refill(p, times[j] - times[i]), p.capacity)
    ensures Admitted(p, expiring, times, j) <==> LevelOf(p, expiring, times, i) + Refill(p, times[j] - times[i]) >= 1.0
    decreases j
  {
    var k: nat := j - 1;
    assert times[k] <= times[j] && !Admitted(p, expiring, times, k);
    LevelFollows(p, expiring, times, j);
    if i < k {
      AdmittedAgainIff(p, expiring, times, i, k);
      RefillAdds(p, times[k] - times[i], times[j] - times[k]);
    }
  }

  // ---- Refused calls do no harm ----

  function Without(times: seq<int>, k: nat): seq<int>
    requires k < |times|
  {
    times[..k] + times[k + 1..]
  }

  lemma {:induction false} SameBefore(p: Params, expiring: bool, times: seq<int>, times': seq<int>, k: nat)
    requires k <= |times| && k <= |times'| && times[..k] == times'[..k]
    ensures KeyBefore(p, expiring, times, k) == KeyBefore(p, expiring, times', k)
  {
    if k > 0 {
      var h: nat := k - 1;
      assert times[..h] == times[..k][..h] && times'[..h] == times'[..k][..h];
      assert times[h] == times[..k][h] && times'[h] == times'[..k][h];
      SameBefore(p, expiring, times, times', h);
    }
  }

  /** The first call after a refused one finds what it would have found without it. */
  lemma NextUnharmed(p: Params, times: seq<int>, k: nat)
    requires ValidParams(p) && Nondecreasing(times) && k + 1 < |times| && !Admitted(p, false, times, k)
    ensures LevelOf(p, false, times, k + 1) == LevelOf(p, false, Without(times, k), k)
  {
    var rest := Without(times, k);
    assert rest[k] == times[k + 1] && times[..k] == rest[..k];
    SameBefore(p, false, times, rest, k);
    assert times[k] <= times[k + 1];
    LevelFollows(p, false, times, k + 1);
    RefillGrows(p, 0, times[k + 1] - times[k]);
    assert Refill(p, 0) == 0.0;
    if k > 0 {
      assert times[k - 1] <= times[k] && rest[k - 1] == times[k - 1];
      LevelFollows(p, false, times, k);
      LevelFollows(p, false, rest, k);
      RefillAdds(p, times[k] - times[k - 1], times[k + 1] - times[k]);
    }
  }

  /** A refused call changes no later answer of the bucket. */
  lemma {:induction false} RefusedIsFree(p: Params, times: seq<int>, k: nat, j: nat)
    requires ValidParams(p) && Nondecreasing(times) && k < j < |times| && !Admitted(p, false, times, k)
    ensures LevelOf(p, false, times, j) == LevelOf(p, false, Without(times, k), j - 1)
    ensures Admitted(p, false, times, j) <==> Admitted(p, false, Without(times, k), j - 1)
    decreases j
  {
    var rest := Without(times, k);
    if j == k + 1 {
      NextUnharmed(p, times, k);
    } else {
      var h: nat := j - 1;
      RefusedIsFree(p, times, k, h);
      assert rest[h] == times[j] && rest[h - 1] == times[h];
    }
  }

  // ---- Expiry ----

  /** The bucket has filled up by the first millisecond at which its key is gone. */
  predicate FullBeforeExpiry(p: Params) {
    Refill(p, 1000 * p.ttl + 1) >= p.capacity
  }

  lemma {:induction false} SameKeys(p: Params, times: seq<int>, k: nat)
    requires ValidParams(p) && FullBeforeExpiry(p) && k < |times|
    ensures KeyBefore(p, true, times, k) == KeyBefore(p, false, times, k)
    ensures LevelOf(p, true, times, k) == LevelOf(p, false, times, k)
  {
    if k > 0 {
      SameKeys(p, times, k - 1);
      TokensInRange(p, true, times, k - 1);
      var b := KeyBefore(p, true, times, k).value;
      if b.expireAt < times[k] {
        RefillGrows(p, 1000 * p.ttl + 1, times[k] - b.lastRefill);
      }
    }
  }

  /** The bound holds of the real store too whenever expiry cannot be told. */
  lemma {:induction false} SameCounts(p: Params, times: seq<int>, i: nat, j: nat)
    requires ValidParams(p) && FullBeforeExpiry(p) && j <= |times|
    ensures Count(p, true, times, i, j) == Count(p, false, times, i, j)
    decreases j
  {
    if i < j {
      SameCounts(p, times, i, j - 1);
      SameKeys(p, times, j - 1);
    }
  }

  lemma WindowBoundWithExpiry(p: Params, times: seq<int>, i: nat, j: nat)
    requires ValidParams(p) && p.perSecond * p.ttl as real >= p.capacity && Nondecreasing(times) && i < j <= |times|
    ensures Count(p, true, times, i, j) as real <= p.capacity + Refill(p, times[j - 1] - times[i])
  {
    assert Refill(p, 1000 * p.ttl) == p.perSecond * p.ttl as real by {
      assert (1000 * p.ttl) as real == 1000.0 * p.ttl as real;
    }
    RefillGrows(p, 1000 * p.ttl, 1000 * p.ttl + 1);
    SameCounts(p, times, i, j);
    WindowBound(p, times, i, j);
  }

  ghost predicate ExpiryUnseen(p: Params, times: seq<int>) {
    forall k: nat :: k < |times| ==> Admitted(p, true, times, k) == Admitted(p, false, times, k)
  }

  /** Drain the bucket, wait until the key is just gone, and drain it again. */
  function TwoBursts(p: Params, n: nat): seq<int> {
    seq(2 * n, k => if k < n then 0 else 1000 * p.ttl + 1)
  }

  /** With expiry every call of the two bursts is admitted. */
  lemma {:induction false} BurstsAdmitted(p: Params, n: nat, k: nat)
    requires ValidParams(p) && 1 <= n && p.capacity == n as real && k < 2 * n
    ensures LevelOf(p, true, TwoBursts(p, n), k) == (if k < n then n - k else 2 * n - k) as real
    ensures Count(p, true, TwoBursts(p, n), 0, k + 1) == k + 1
  {
    assert Refill(p, 0) == 0.0;
    if k > 0 {
      BurstsAdmitted(p, n, k - 1);
    }
  }

  /** For a whole capacity, callers can tell that the key expires exactly when the bucket is not full by then. */
  lemma ExpiryUnseenIff(p: Params, n: nat)
    requires ValidParams(p) && 1 <= n && p.capacity == n as real
    ensures (forall times :: Nondecreasing(times) ==> ExpiryUnseen(p, times)) <==> FullBeforeExpiry(p)
  {
    if FullBeforeExpiry(p) {
      forall times: seq<int>, k: nat | k < |times| ensures Admitted(p, true, times, k) == Admitted(p, false, times, k) {
        SameKeys(p, times, k);
      }
    } else {
      var times := TwoBursts(p, n);
      if ExpiryUnseen(p, times) {
        BurstsAdmitted(p, n, 2 * n - 1);
        WindowBound(p, times, 0, 2 * n);
        CountsAgree(p, times, 2 * n);
      }
      assert Nondecreasing(times);
    }
  }

  lemma {:induction false} CountsAgree(p: Params, times: seq<int>, j: nat)
    requires j <= |times| && ExpiryUnseen(p, times)
    ensures Count(p, true, times, 0, j) == Count(p, false, times, 0, j)
  {
    if j > 0 {
      CountsAgree(p, times, j - 1);
    }
  }

  // ---- Refused calls and expiry ----

  /** In the store that drops keys, callers cannot tell a refused call from none. */
  ghost predicate RefusalsUnseen(p: Params) {
    forall times, k: nat, j: nat :: Nondecreasing(times) && k < j < |times| && !Admitted(p, true, times, k) ==>
      Admitted(p, true, times, j) == Admitted(p, true, Without(times, k), j - 1)
  }

  /** A token comes in every millisecond, so a refused call comes in the same one as the call before it. */
  lemma FastRefusal(p: Params, times: seq<int>, k: nat)
    requires ValidParams(p) && 1.0 <= p.capacity && p.perSecond >= 1000.0
    requires k < |times| && (k > 0 ==> times[k - 1] <= times[k]) && !Admitted(p, true, times, k)
    ensures KeyBefore(p, true, times, k + 1) == KeyBefore(p, true, times, k)
  {
    if k > 0 {
      TokensInRange(p, true, times, k - 1);
      if times[k - 1] < times[k] {
        RefillGrows(p, 1, times[k] - times[k - 1]);
      }
      assert Refill(p, 0) == 0.0;
    }
  }

  lemma {:induction false} FastRefusalsFree(p: Params, times: seq<int>, k: nat, j: nat)
    requires ValidParams(p) && 1.0 <= p.capacity && p.perSecond >= 1000.0
    requires Nondecreasing(times) && k < j <= |times| && !Admitted(p, true, times, k)
    ensures KeyBefore(p, true, times, j) == KeyBefore(p, true, Without(times, k), j - 1)
    decreases j
  {
    var rest, h: nat := Without(times, k), j - 1;
    if j == k + 1 {
      assert times[..k] == rest[..k];
      FastRefusal(p, times, k);
      SameBefore(p, true, times, rest, k);
    } else {
      FastRefusalsFree(p, times, k, h);
      assert rest[h - 1] == times[h];
    }
  }

  /** The two bursts with one more call, a millisecond after the first, that finds less than a token. */
  function Kept(p: Params, n: nat): seq<int> {
    seq(2 * n + 1, k => if k < n then 0 else if k == n then 1 else 1000 * p.ttl + 1)
  }

  lemma KeptRefuses(p: Params, n: nat)
    requires ValidParams(p) && 1 <= n && p.capacity == n as real && p.perSecond < 1000.0
    ensures LevelOf(p, true, Kept(p, n), n) == Refill(p, 1) < 1.0
  {
    var times, bursts, h: nat := Kept(p, n), TwoBursts(p, n), n - 1;
    assert times[..n] == bursts[..n];
    SameBefore(p, true, times, bursts, n);
    BurstsAdmitted(p, n, h);
  }

  /** While all of them are admitted, the calls of the second burst find one token less each. */
  lemma {:induction false} KeptLevels(p: Params, n: nat, m: nat)
    requires ValidParams(p) && 1 <= n && p.capacity == n as real && p.perSecond < 1000.0 && !FullBeforeExpiry(p) && m < n
    requires forall j: nat :: n < j < 2 * n + 1 ==> Admitted(p, true, Kept(p, n), j)
    ensures LevelOf(p, true, Kept(p, n), n + 1 + m) == Refill(p, 1000 * p.ttl + 1) - m as real
    decreases m
  {
    if m == 0 {
      KeptRefuses(p, n);
      RefillAdds(p, 1, 1000 * p.ttl);
    } else {
      KeptLevels(p, n, m - 1);
      assert Admitted(p, true, Kept(p, n), n + m);
      assert Refill(p, 0) == 0.0;
    }
  }

  /** A refused call renews the expiry, which can keep a key that would have been dropped, and a full bucket with it.
      For a whole capacity callers cannot tell exactly when the bucket is full by then, or when no refused call comes
      later than the call before it. */
  lemma RefusalsUnseenIff(p: Params, n: nat)
    requires ValidParams(p) && 1 <= n && p.capacity == n as real
    ensures RefusalsUnseen(p) <==> FullBeforeExpiry(p) || p.perSecond >= 1000.0
  {
    if FullBeforeExpiry(p) || p.perSecond >= 1000.0 {
      forall times: seq<int>, k: nat, j: nat | Nondecreasing(times) && k < j < |times| && !Admitted(p, true, times, k)
        ensures Admitted(p, true, times, j) == Admitted(p, true, Without(times, k), j - 1)
      {
        RefusalUnseen(p, times, k, j);
      }
    } else if RefusalsUnseen(p) {
      KeptContradicts(p, n);
    }
  }

  lemma RefusalUnseen(p: Params, times: seq<int>, k: nat, j: nat)
    requires ValidParams(p) && 1.0 <= p.capacity && (FullBeforeExpiry(p) || p.perSecond >= 1000.0)
    requires Nondecreasing(times) && k < j < |times| && !Admitted(p, true, times, k)
    ensures Admitted(p, true, times, j) == Admitted(p, true, Without(times, k), j - 1)
  {
    var rest, h: nat := Without(times, k), j - 1;
    if FullBeforeExpiry(p) {
      SameKeys(p, times, k);
      SameKeys(p, times, j);
      SameKeys(p, rest, h);
      RefusedIsFree(p, times, k, j);
    } else {
      FastRefusalsFree(p, times, k, j);
      assert rest[h] == times[j];
    }
  }

  lemma KeptContradicts(p: Params, n: nat)
    requires ValidParams(p) && 1 <= n && p.capacity == n as real && p.perSecond < 1000.0 && !FullBeforeExpiry(p)
    ensures !RefusalsUnseen(p)
  {
    var times, bursts := Kept(p, n), TwoBursts(p, n);
    assert Without(times, n) == bursts;
    assert Nondecreasing(times);
    KeptRefuses(p, n);
    if RefusalsUnseen(p) {
      forall j: nat | n < j < 2 * n + 1 ensures Admitted(p, true, times, j) {
        var h: nat := j - 1;
        BurstsAdmitted(p, n, h);
        assert Admitted(p, true, Without(times, n), h);
      }
      assert Admitted(p, true, times, 2 * n);
      KeptLevels(p, n, n - 1);
    }
  }
}

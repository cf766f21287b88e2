/**
  The generator and its repository as they run. Every method follows the machine of module Segments step by
  step, so what is proved there of every run holds of the ids handed out here. One goroutine calls Next, one
  loads in the background; other instances take segments from the row at any time.
*/
module SegmentGenerator {
  import opened Common
  import opened Segments

  datatype AllocError = Conflict | Internal

  datatype GeneratorError = Unavailable(retryable: bool)

  /** The id_generator table. `run` is the state of the whole system that it is part of. */
  class SegmentRepository {
    const bizTag: string
    const maxRetries: nat
    const env: Environment
    var rows: map<string, Row>
    ghost var run: State
    ghost var calls: nat  // how often Allocate was called

    ghost predicate Valid()
      reads this
    {
      Reachable(maxRetries, run) && (bizTag in rows ==> rows[bizTag] == run.row)
    }

    constructor (bizTag: string, maxRetries: nat, env: Environment, rows: map<string, Row>)
      requires bizTag in rows ==> 0 < rows[bizTag].step
      ensures this.bizTag == bizTag && this.maxRetries == maxRetries && this.env == env && this.rows == rows
      ensures Valid() && Initial(run)
    {
      this.bizTag, this.maxRetries, this.env, this.rows := bizTag, maxRetries, env, rows;
      this.run := State(if bizTag in rows then rows[bizTag] else Row(0, 1, 0), map[], {}, [], []);
      new;
      assert IsRun(maxRetries, Begun(run));
    }

    ghost method Did(action: Action)
      requires Reachable(maxRetries, run) && Enabled(run, action)
      modifies `run
      ensures Reachable(maxRetries, run) && run == After(maxRetries, old(run), action)
    {
      run := Extend(maxRetries, run, action);
    }

    /** Another instance takes the next segment. */
    method OtherTakes()
      requires Valid() && bizTag in rows
      modifies `rows, `run
      ensures Valid() && rows.Keys == old(rows).Keys && run.issued == old(run).issued && old(run).allocs < run.allocs
      ensures forall g :: g in old(run).born ==> g in run.born && (g in run.generators <==> g in old(run).generators)
      ensures forall g :: g in old(run).generators && g in old(run).born ==> run.generators[g] == old(run).generators[g]
    {
      ghost var h := FreshAbove(run.born);
      Did(Boot(h));
      Did(ReadRow(h));
      rows := rows[bizTag := rows[bizTag].(maxId := rows[bizTag].maxId + rows[bizTag].step, version := rows[bizTag].version + 1)];
      Did(Cas(h, false));
    }

    /** Whatever else can happen to the row between two statements of one instance: other instances take
        segments, and an operator changes the step. */
    method Others(ghost me: InstanceId)
      requires Valid() && me in run.generators
      modifies `rows, `run
      ensures Valid() && rows.Keys == old(rows).Keys && run.issued == old(run).issued && old(run).allocs <= run.allocs
      ensures me in run.generators && run.generators[me] == old(run).generators[me]
      ensures run.allocs == old(run).allocs ==> CasMatches(run.row, old(run).row)
    {
      ghost var start := ReachableInv(maxRetries, run);
      var n: nat := *;
      while n > 0 && bizTag in rows
        invariant Valid() && rows.Keys == old(rows).Keys && run.issued == old(run).issued && old(run).allocs <= run.allocs
        invariant me in run.born && me in run.generators && run.generators[me] == old(run).generators[me]
        invariant run.allocs == old(run).allocs ==> CasMatches(run.row, old(run).row)
        decreases n
      {
        n := n - 1;
        var takes, step := *, *;
        if takes {
          OtherTakes();
        } else if 0 < step {
          rows := rows[bizTag := rows[bizTag].(step := step)];
          Did(SetStep(step));
        }
      }
    }

    /** Allocate. The segment starts right after the max_id that the update found in the row, and the row moves
        to its end; a conflict leaves the row alone and means that another instance moved it in between. */
    method Allocate(ghost me: InstanceId, ghost attempt: nat) returns (r: Result<Seg, AllocError>)
      requires Valid() && me in run.generators && run.generators[me].loader == Reading(attempt)
      modifies this, env
      ensures old(env.failures) <= env.failures && calls == old(calls) + 1
      ensures Valid() && rows.Keys == old(rows).Keys && run.issued == old(run).issued && me in run.generators
      ensures run.generators[me] == old(run).generators[me].(loader := LoaderAfter(r, attempt, maxRetries))
      ensures old(run).allocs <= run.allocs
      ensures r.Ok? ==> && Alloc(me, r.value) !in old(run).allocs && Alloc(me, r.value) in run.allocs
                        && bizTag in rows && rows[bizTag].maxId == r.value.max && r.value.min <= r.value.max
      ensures r.Ok? ==> r.value.max - r.value.min + 1 == old(rows)[bizTag].step
      ensures r == Err(Conflict) ==> old(run).allocs < run.allocs
      ensures r == Err(Internal) <==> bizTag !in old(rows) || env.failures != old(env.failures)
    {
      calls := calls + 1;
      var failed := env.Fails();
      if bizTag !in rows || failed {
        Did(Fail(me));
        return Err(Internal);
      }
      var m := Read(me, attempt);
      r := Update(me, m, attempt);
      if r.Ok? {
        ghost var start := ReachableInv(maxRetries, run);
        NewSegment(start, old(run).allocs, run.allocs, run.row.maxId);
      }
    }

    /** The read, and whatever happens before the update. */
    method Read(ghost me: InstanceId, ghost attempt: nat) returns (m: Row)
      requires Valid() && bizTag in rows && me in run.generators && run.generators[me].loader == Reading(attempt)
      modifies `rows, `run
      ensures Valid() && rows.Keys == old(rows).Keys && run.issued == old(run).issued && old(run).allocs <= run.allocs
      ensures m == old(rows)[bizTag] && me in run.generators
      ensures run.generators[me] == old(run).generators[me].(loader := HasRead(m, attempt))
      ensures run.allocs == old(run).allocs ==> CasMatches(run.row, m)
    {
      m := rows[bizTag];
      Did(ReadRow(me));
      Others(me);
    }

    /** The conditional update, with what the read saw. */
    method Update(ghost me: InstanceId, m: Row, ghost attempt: nat) returns (r: Result<Seg, AllocError>)
      requires Valid() && bizTag in rows && me in run.generators && run.generators[me].loader == HasRead(m, attempt)
      modifies `rows, `run, env
      ensures old(env.failures) <= env.failures
      ensures Valid() && rows.Keys == old(rows).Keys && run.issued == old(run).issued && me in run.generators
      ensures run.generators[me] == old(run).generators[me].(loader := LoaderAfter(r, attempt, maxRetries))
      ensures run.allocs == old(run).allocs || (CasMatches(old(run).row, m) && run.allocs == old(run).allocs + [Alloc(me, SegmentOf(m))])
      ensures r.Ok? ==> run.allocs != old(run).allocs && CasMatches(old(run).row, m) && r.value == SegmentOf(m) && rows[bizTag].maxId == r.value.max && r.value.min <= r.value.max
      ensures r.Ok? ==> r.value.min == m.maxId + 1 && r.value.max == m.maxId + m.step
      ensures rows == old(rows)
              || (old(rows)[bizTag].maxId == m.maxId && old(rows)[bizTag].version == m.version
                  && rows == old(rows)[bizTag := old(rows)[bizTag].(maxId := m.maxId + m.step, version := m.version + 1)])
      ensures env.failures == old(env.failures) ==>
                (r.Ok? <==> old(rows)[bizTag].maxId == m.maxId && old(rows)[bizTag].version == m.version) && (r.Ok? <==> rows != old(rows))
      ensures r == Err(Conflict) ==> !CasMatches(old(run).row, m) && rows == old(rows)
      ensures r == Err(Internal) <==> env.failures != old(env.failures)
    {
      ghost var start := ReachableInv(maxRetries, run);
      assert GeneratorOk(run.allocs, me, run.generators[me]);
      var newMax := m.maxId + m.step;
      var lost := env.Fails();
      var landed := *;
      if lost && !landed {
        Did(Fail(me));
        return Err(Internal);
      }
      var affected := rows[bizTag].maxId == m.maxId && rows[bizTag].version == m.version;
      if affected {
        rows := rows[bizTag := rows[bizTag].(maxId := newMax, version := rows[bizTag].version + 1)];
      }
      Did(Cas(me, lost));
      if lost {
        return Err(Internal);
      }
      r := if affected then Ok(Seg(m.maxId + 1, newMax)) else Err(Conflict);
    }
  }

  function LoaderAfter(r: Result<Seg, AllocError>, attempt: nat, maxRetries: nat): Loader {
    match r
    case Ok(seg) => Got(seg)
    case Err(Conflict) => AfterConflict(attempt, maxRetries)
    case Err(Internal) => Done(false)
  }

  class Generator {
    const repo: SegmentRepository
    const prefetchRatio: real
    ghost const id: InstanceId
    var constructed: bool
    var min: int
    var max: int
    var cursor: int
    var loading: bool
    var nextReady: bool
    var nextMin: int
    var nextMax: int
    ghost var loads: nat  // how many background loads were started

    /** These fields are this instance's part of the run. */
    ghost predicate Follows(loader: Loader)
      reads this, repo
    {
      && repo.Valid() && id in repo.run.generators
      && repo.run.generators[id] == Segments.Generator(constructed, min, max, cursor, Seg(nextMin, nextMax), nextReady, loading, loader)
    }

    /** Between calls the background load is off or has only been started. */
    ghost predicate Valid()
      reads this, repo
    {
      constructed && Follows(if loading then Reading(0) else Off)
    }

    constructor (repo: SegmentRepository, prefetchRatio: real)
      requires repo.Valid()
      modifies repo`run
      ensures this.repo == repo && this.prefetchRatio == prefetchRatio && !constructed && id !in old(repo.run).born
      ensures Follows(Reading(0)) && repo.run.issued == old(repo.run).issued && repo.run.allocs == old(repo.run).allocs
    {
      ghost var h := FreshAbove(repo.run.born);
      this.repo, this.prefetchRatio, this.id := repo, prefetchRatio, h;
      constructed, min, max, cursor, loading, nextReady, nextMin, nextMax, loads := false, 0, 0, 0, false, false, 0, 0, 0;
      new;
      repo.Did(Boot(h));
    }

    /** NewGenerator: nobody gets a generator without a first segment. */
    static method NewGenerator(repo: SegmentRepository, prefetchRatio: real) returns (g: Generator?)
      requires repo.Valid()
      modifies repo, repo.env
      ensures repo.Valid() && repo.run.issued == old(repo.run).issued && old(repo.env.failures) <= repo.env.failures
      ensures g != null ==> && fresh(g) && g.repo == repo && g.Valid() && g.min == g.cursor <= g.max
                            && g.id !in old(repo.run).born
      ensures repo.bizTag !in old(repo.rows) ==> g == null
      ensures g == null ==> || repo.env.failures != old(repo.env.failures) || repo.bizTag !in old(repo.rows)
                            || |old(repo.run).allocs| + repo.maxRetries < |repo.run.allocs|
    {
      var x := new Generator(repo, prefetchRatio);
      assert repo.run.allocs == old(repo.run).allocs;
      var ok := x.LoadNext();
      if !ok {
        repo.Did(Finish(x.id));
        return null;
      }
      x.SwapFirst();
      g := x;
    }

    /** The swap that ends NewGenerator. */
    method SwapFirst()
      requires Follows(Done(true)) && !constructed && nextReady
      modifies this, repo`run
      ensures Valid() && min == cursor <= max && repo.run.issued == old(repo.run).issued
    {
      ghost var start := ReachableInv(repo.maxRetries, repo.run);
      AllOwnBelow(start, repo.run, id);
      SwapToNext();
      constructed := true;
      repo.Did(Finish(id));
    }

    method SwapToNext()
      modifies this
      ensures min == old(nextMin) && max == old(nextMax) && cursor == old(nextMin) && !nextReady
      ensures constructed == old(constructed) && loading == old(loading) && nextMin == old(nextMin) && nextMax == old(nextMax)
    {
      min := nextMin;
      max := nextMax;
      cursor := min;
      nextReady := false;
    }

    /** One pass of the loop of loadNext. It touches the next buffer only, and fills it with a segment that nobody had. */
    method LoadOnce(ghost attempt: nat) returns (r: Result<Seg, AllocError>)
      requires Follows(Reading(attempt))
      modifies this`nextMin, this`nextMax, this`nextReady, repo, repo.env
      ensures Follows(if r.Ok? then Done(true) else LoaderAfter(r, attempt, repo.maxRetries))
      ensures repo.run.issued == old(repo.run).issued && repo.rows.Keys == old(repo.rows).Keys
      ensures if r.Ok? then nextReady && r.value == Seg(nextMin, nextMax) && Alloc(id, r.value) !in old(repo.run).allocs
              else nextReady == old(nextReady) && nextMin == old(nextMin) && nextMax == old(nextMax)
      ensures old(repo.run).allocs <= repo.run.allocs && old(repo.env.failures) <= repo.env.failures && repo.calls == old(repo.calls) + 1
      ensures r == Err(Internal) <==> repo.bizTag !in old(repo.rows) || repo.env.failures != old(repo.env.failures)
      ensures r == Err(Conflict) ==> |old(repo.run).allocs| < |repo.run.allocs|
    {
      r := repo.Allocate(id, attempt);
      if r.Ok? {
        nextMin := r.value.min;
        nextMax := r.value.max;
        nextReady := true;
        repo.Did(StoreNext(id));
      }
    }

    /** loadNext, with its compare-and-swap retries. If no call fails and the context is not cancelled, it gives up only
        for a missing biz_tag, or after losing every attempt to an update of another instance. */
    method LoadNext() returns (ok: bool)
      requires Follows(Reading(0))
      modifies this`nextMin, this`nextMax, this`nextReady, repo, repo.env
      ensures Follows(Done(ok)) && repo.run.issued == old(repo.run).issued && old(repo.env.failures) <= repo.env.failures
      ensures if ok then nextReady && Alloc(id, Seg(nextMin, nextMax)) !in old(repo.run).allocs
              else nextReady == old(nextReady) && nextMin == old(nextMin) && nextMax == old(nextMax)
      ensures repo.bizTag !in old(repo.rows) ==> !ok
      ensures repo.calls <= old(repo.calls) + repo.maxRetries + 1
      ensures !ok ==> || repo.env.failures != old(repo.env.failures) || repo.bizTag !in old(repo.rows)
                      || |old(repo.run).allocs| + repo.maxRetries < |repo.run.allocs|
    {
      ok := false;
      var attempt: nat := 0;
      while attempt <= repo.maxRetries
        invariant attempt <= repo.maxRetries + 1 && !ok && old(repo.env.failures) <= repo.env.failures
        invariant Follows(if attempt <= repo.maxRetries then Reading(attempt) else Done(false))
        invariant repo.run.issued == old(repo.run).issued && old(repo.run).allocs <= repo.run.allocs
        invariant |old(repo.run).allocs| + attempt <= |repo.run.allocs| && repo.calls == old(repo.calls) + attempt
        invariant repo.rows.Keys == old(repo.rows).Keys
        invariant nextReady == old(nextReady) && nextMin == old(nextMin) && nextMax == old(nextMax)
      {
        var r := LoadOnce(attempt);
        if r.Ok? {
          return true;
        }
        if r == Err(Internal) {
          return false;
        }
        var cancelled := repo.env.Fails();
        if cancelled {
          if attempt < repo.maxRetries {
            repo.Did(Fail(id));
          }
          return false;
        }
        attempt := attempt + 1;
      }
    }

    /** The goroutine that a trigger starts. */
    method LoadNextBackground()
      requires Valid() && loading
      modifies this`nextMin, this`nextMax, this`nextReady, this`loading, repo, repo.env
      ensures Valid() && !loading && repo.run.issued == old(repo.run).issued && old(repo.env.failures) <= repo.env.failures
      ensures old(nextReady) ==> nextReady
      ensures nextReady || repo.env.failures != old(repo.env.failures) || repo.bizTag !in old(repo.rows)
              || |old(repo.run).allocs| + repo.maxRetries < |repo.run.allocs|
    {
      var ok := LoadNext();
      loading := false;
      repo.Did(Finish(id));
    }

    /** The background load may run to its end at any moment. */
    method Background()
      requires Valid()
      modifies this`nextMin, this`nextMax, this`nextReady, this`loading, repo, repo.env
      ensures Valid() && repo.run.issued == old(repo.run).issued && old(repo.env.failures) <= repo.env.failures
      ensures (old(nextReady) ==> nextReady) && (loading || nextReady ==> old(loading) || old(nextReady))
    {
      var runs := *;
      if runs && loading {
        LoadNextBackground();
      }
    }

    method StartLoading()
      requires Valid() && !loading
      modifies this`loading, this`loads, repo`run
      ensures Valid() && loading && loads == old(loads) + 1 && repo.run.issued == old(repo.run).issued
    {
      loading := true;
      loads := loads + 1;
      repo.Did(Trigger(id));
    }

    /** The prefetch starts once the used share of the segment reaches the ratio, unless one runs or next is full. */
    method MaybePrefetchLocked()
      requires Valid()
      modifies this`loading, this`loads, repo`run
      ensures Valid() && repo.run.issued == old(repo.run).issued
      ensures loading <==> old(loading)
                           || (!nextReady && min <= max && (cursor - min) as real >= prefetchRatio * (max - min + 1) as real)
    {
      if loading || nextReady {
        return;
      }
      var total := max - min + 1;
      if total <= 0 {
        return;
      }
      var used := cursor - min;
      RatioReached(used, total, prefetchRatio);
      if used as real / total as real >= prefetchRatio {
        StartLoading();
      }
    }

    method TryNext() returns (n: int, ok: bool)
      requires Valid()
      modifies this`cursor, this`loading, this`loads, repo`run
      ensures Valid() && (ok <==> old(cursor) <= max)
      ensures ok ==> n == old(cursor) && cursor == n + 1
      ensures repo.run.issued == old(repo.run).issued + if ok then [Issue(id, n)] else []
    {
      n, ok := 0, false;
      if cursor <= max {
        n := cursor;
        cursor := cursor + 1;
        repo.Did(Segments.TryNext(id));
        MaybePrefetchLocked();
        ok := true;
      }
    }

    /** switchSegment: a segment with stock left is never swapped out, and it gives up only after a load was under way
        or was started. `polls` is how often it looks before the deadline; the background load may end at any
        moment in between. */
    method SwitchSegment(polls: nat) returns (r: Result<(), GeneratorError>)
      requires Valid()
      modifies this, repo, repo.env
      ensures Valid() && repo.run.issued == old(repo.run).issued && old(repo.env.failures) <= repo.env.failures
      ensures r.Ok? ==> cursor <= max
      ensures old(cursor <= max) ==> r.Ok? && cursor == old(cursor) && max == old(max)
      ensures old(nextReady) ==> r.Ok?
      ensures r.Err? ==> cursor > max && (old(loading) || old(loads) < loads)
      ensures r == Err(Unavailable(false)) ==> repo.env.failures != old(repo.env.failures)
    {
      var left := polls;
      while true
        invariant Valid() && repo.run.issued == old(repo.run).issued && old(repo.env.failures) <= repo.env.failures
        invariant cursor == old(cursor) && max == old(max) && (old(nextReady) ==> nextReady) && old(loads) <= loads
        invariant loading || nextReady ==> old(loading) || old(nextReady) || old(loads) < loads
        decreases left
      {
        if cursor <= max {
          return Ok(());
        }
        if nextReady {
          SwapExhausted();
          return Ok(());
        }
        Background();
        if !loading && !nextReady {
          StartLoading();
        }
        Background();
        if left == 0 {
          return Err(Unavailable(true));
        }
        var cancelled := repo.env.Fails();
        if cancelled {
          return Err(Unavailable(false));
        }
        Background();
        left := left - 1;
      }
    }

    method SwapExhausted()
      requires Valid() && nextReady && cursor > max
      modifies this, repo`run
      ensures Valid() && cursor == min <= max && repo.run.issued == old(repo.run).issued
    {
      ghost var start := ReachableInv(repo.maxRetries, repo.run);
      AllOwnBelow(start, repo.run, id);
      SwapToNext();
      repo.Did(Swap(id));
    }

    /** Next hands out an id that nobody was given before, and one that is larger than all of its own before. */
    method Next(polls: nat) returns (r: Result<int, GeneratorError>)
      requires Valid()
      modifies this, repo, repo.env
      ensures Valid() && old(repo.env.failures) <= repo.env.failures
      ensures repo.run.issued == old(repo.run).issued + if r.Ok? then [Issue(id, r.value)] else []
      ensures r.Ok? ==> forall k :: 0 <= k < |old(repo.run).issued| ==>
                old(repo.run).issued[k].id != r.value && (old(repo.run).issued[k].owner == id ==> old(repo.run).issued[k].id < r.value)
      ensures old(cursor <= max || nextReady) ==> r.Ok?
    {
      while true
        invariant Valid() && repo.run.issued == old(repo.run).issued && old(repo.env.failures) <= repo.env.failures
        invariant old(cursor <= max || nextReady) ==> cursor <= max || nextReady
        decreases if cursor <= max then 0 else 1
      {
        var n, ok := TryNext();
        if ok {
          IssuedIsNew(repo.maxRetries, repo.run, old(repo.run).issued, Issue(id, n));
          return Ok(n);
        }
        var switched := SwitchSegment(polls);
        if switched.Err? {
          return Err(switched.error);
        }
      }
    }
  }

  lemma IssuedIsNew(maxRetries: nat, s: State, before: seq<Issue>, last: Issue)
    requires Reachable(maxRetries, s) && s.issued == before + [last]
    ensures forall k :: 0 <= k < |before| ==> before[k].id != last.id && (before[k].owner == last.owner ==> before[k].id < last.id)
  {
    var run :| IsRun(maxRetries, run) && run.state == s;
    IdsAreUnique(maxRetries, run);
    assert s.issued[|before|] == last;
    assert forall k :: 0 <= k < |before| ==> s.issued[k] == before[k];
  }

  /** The last segment taken was not there before. */
  lemma NewSegment(start: int, before: seq<Alloc>, allocs: seq<Alloc>, maxId: int)
    requires Tiles(start, allocs, maxId) && before < allocs
    ensures allocs[|allocs| - 1] !in before
  {
    var last: nat := |allocs| - 1;
    if allocs[last] in before {
      var k: nat :| k < |before| && before[k] == allocs[last];
      assert allocs[k] == allocs[last];
      SegmentsAscend(start, allocs, maxId, k, last);
    }
  }

  lemma RatioReached(used: int, total: int, ratio: real)
    requires 0 < total
    ensures used as real / total as real >= ratio <==> used as real >= ratio * total as real
  {
    var t := total as real;
    var q := used as real / t;
    assert q * t == used as real;
    if q >= ratio {
      assert (q - ratio) * t >= 0.0;
    } else {
      assert (ratio - q) * t > 0.0;
    }
  }
}

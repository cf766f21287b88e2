/**
  The segment id generator: many instances share one row of id_generator per biz_tag, take segments from it
  with a read and a conditional update, and hand the ids out through a double buffer. The machine below is
  that of one biz_tag; rows of different biz_tags never meet in a statement.

  Granularity: storing nextMin, nextMax and nextReady is one step, and so is the swap under the mutex.
  TornSwap says what hangs on that.
*/
module Segments {
  import opened Common

  type InstanceId = nat

  /** The table checks step > 0. */
  datatype Row = Row(maxId: int, step: int, version: nat)

  datatype Seg = Seg(min: int, max: int)

  datatype Alloc = Alloc(owner: InstanceId, seg: Seg)

  /** loadNext: the attempts of the compare-and-swap loop, the segment it won, and its end. */
  datatype Loader = Off | Reading(attempt: nat) | HasRead(row: Row, attempt: nat) | Got(seg: Seg) | Done(ok: bool)

  /** `constructed` says that NewGenerator has returned it; before that nobody can ask it for an id. */
  datatype Generator = Generator(constructed: bool, min: int, max: int, cursor: int,
                                 next: Seg, nextReady: bool, loading: bool, loader: Loader)

  datatype Issue = Issue(owner: InstanceId, id: int)

  /** `allocs` lists the updates of the row that took effect, `issued` the ids handed out, both as history. */
  datatype State = State(row: Row, generators: map<InstanceId, Generator>, born: set<InstanceId>,
                         allocs: seq<Alloc>, issued: seq<Issue>)

  datatype Action =
    | Boot(g: InstanceId)
    | Trigger(g: InstanceId)
    | ReadRow(g: InstanceId)
    | Cas(g: InstanceId, replyLost: bool)
    | Fail(g: InstanceId)  // a read or update error, a timeout or a cancelled context
    | StoreNext(g: InstanceId)
    | Finish(g: InstanceId)
    | Swap(g: InstanceId)
    | TryNext(g: InstanceId)
    | Crash(g: InstanceId)
    | SetStep(step: int)

  predicate Contains(seg: Seg, id: int) {
    seg.min <= id <= seg.max
  }

  // ---- The generator's own transitions ----

  function Booting(): Generator {
    Generator(false, 0, 0, 0, Seg(0, 0), false, false, Reading(0))
  }

  function Swapped(x: Generator): Generator {
    x.(min := x.next.min, max := x.next.max, cursor := x.next.min, nextReady := false)
  }

  function Stored(x: Generator, seg: Seg): Generator {
    x.(next := seg, nextReady := true)
  }

  predicate Exhausted(x: Generator) {
    x.cursor > x.max
  }

  /** The condition of the conditional update. */
  predicate CasMatches(row: Row, seen: Row) {
    row.maxId == seen.maxId && row.version == seen.version
  }

  function CasRow(row: Row, seen: Row): Row {
    row.(maxId := seen.maxId + seen.step, version := row.version + 1)
  }

  function SegmentOf(seen: Row): Seg {
    Seg(seen.maxId + 1, seen.maxId + seen.step)
  }

  function AfterConflict(attempt: nat, maxRetries: nat): Loader {
    if attempt < maxRetries then Reading(attempt + 1) else Done(false)
  }

  // ---- Steps ----

  predicate Enabled(s: State, action: Action) {
    match action
    case Boot(g) => g !in s.born
    // Both places that start a load end in loading.CompareAndSwap(false, true); next may be ready by then.
    case Trigger(g) => g in s.generators && s.generators[g].constructed && !s.generators[g].loading
    case ReadRow(g) => g in s.generators && s.generators[g].loader.Reading?
    case Cas(g, _) => g in s.generators && s.generators[g].loader.HasRead?
    case Fail(g) => g in s.generators && (s.generators[g].loader.Reading? || s.generators[g].loader.HasRead?)
    case StoreNext(g) => g in s.generators && s.generators[g].loader.Got?
    case Finish(g) => g in s.generators && s.generators[g].loader.Done?
    case Swap(g) => g in s.generators && s.generators[g].constructed && Exhausted(s.generators[g]) && s.generators[g].nextReady
    case TryNext(g) => g in s.generators && s.generators[g].constructed && !Exhausted(s.generators[g])
    case Crash(g) => g in s.generators
    case SetStep(step) => 0 < step
  }

  function With(s: State, g: InstanceId, x: Generator): State {
    s.(generators := s.generators[g := x])
  }

  function After(maxRetries: nat, s: State, action: Action): State
    requires Enabled(s, action)
  {
    match action
    case Boot(g) => With(s, g, Booting()).(born := s.born + {g})
    case Trigger(g) => With(s, g, s.generators[g].(loading := true, loader := Reading(0)))
    case ReadRow(g) => With(s, g, s.generators[g].(loader := HasRead(s.row, s.generators[g].loader.attempt)))
    case Cas(g, replyLost) =>
      var x := s.generators[g];
      if CasMatches(s.row, x.loader.row) then
        With(s, g, x.(loader := if replyLost then Done(false) else Got(SegmentOf(x.loader.row))))
          .(row := CasRow(s.row, x.loader.row), allocs := s.allocs + [Alloc(g, SegmentOf(x.loader.row))])
      else
        With(s, g, x.(loader := if replyLost then Done(false) else AfterConflict(x.loader.attempt, maxRetries)))
    case Fail(g) => With(s, g, s.generators[g].(loader := Done(false)))
    case StoreNext(g) => With(s, g, Stored(s.generators[g], s.generators[g].loader.seg).(loader := Done(true)))
    case Finish(g) =>
      var x := s.generators[g];
      if x.constructed then With(s, g, x.(loading := false, loader := Off))
      else if x.loader.ok then With(s, g, Swapped(x).(constructed := true, loader := Off))
      else s.(generators := s.generators - {g})
    case Swap(g) => With(s, g, Swapped(s.generators[g]))
    case TryNext(g) =>
      var x := s.generators[g];
      With(s, g, x.(cursor := x.cursor + 1)).(issued := s.issued + [Issue(g, x.cursor)])
    case Crash(g) => s.(generators := s.generators - {g})
    case SetStep(step) => s.(row := s.row.(step := step))
  }

  datatype Run = Begun(state: State) | Then(before: Run, action: Action, state: State)

  ghost predicate Initial(s: State) {
    s.generators == map[] && s.born == {} && s.allocs == [] && s.issued == [] && 0 < s.row.step
  }

  ghost predicate IsRun(maxRetries: nat, run: Run) {
    match run
    case Begun(s) => Initial(s)
    case Then(before, action, s) =>
      IsRun(maxRetries, before) && Enabled(before.state, action) && s == After(maxRetries, before.state, action)
  }

  function First(run: Run): State {
    match run
    case Begun(s) => s
    case Then(before, _, _) => First(before)
  }

  // ---- Segments tile the range ----

  function EndOf(start: int, allocs: seq<Alloc>, k: nat): int
    requires k <= |allocs|
  {
    if k == 0 then start else allocs[k - 1].seg.max
  }

  ghost predicate Tiles(start: int, allocs: seq<Alloc>, maxId: int) {
    && (forall k: nat :: k < |allocs| ==> allocs[k].seg.min == EndOf(start, allocs, k) + 1 && allocs[k].seg.min <= allocs[k].seg.max)
    && maxId == EndOf(start, allocs, |allocs|)
  }

  ghost predicate Allocated(allocs: seq<Alloc>, id: int) {
    exists k :: 0 <= k < |allocs| && Contains(allocs[k].seg, id)
  }

  lemma TilesExtend(start: int, allocs: seq<Alloc>, maxId: int, a: Alloc)
    requires Tiles(start, allocs, maxId) && a.seg.min == maxId + 1 && a.seg.min <= a.seg.max
    ensures Tiles(start, allocs + [a], a.seg.max)
  {
    var all := allocs + [a];
    forall k: nat | k < |all| ensures all[k].seg.min == EndOf(start, all, k) + 1 && all[k].seg.min <= all[k].seg.max {
      if k < |allocs| {
        assert EndOf(start, all, k) == EndOf(start, allocs, k);
      }
    }
  }

  /** Later segments lie above earlier ones. */
  lemma {:induction false} SegmentsAscend(start: int, allocs: seq<Alloc>, maxId: int, i: nat, j: nat)
    requires Tiles(start, allocs, maxId) && i < j <= |allocs|
    ensures start < allocs[i].seg.min && allocs[i].seg.max <= EndOf(start, allocs, j)
    ensures j < |allocs| ==> allocs[i].seg.max < allocs[j].seg.min
    decreases j
  {
    assert j < |allocs| ==> allocs[j].seg.min == EndOf(start, allocs, j) + 1;
    if i + 1 < j {
      var k: nat := j - 1;
      SegmentsAscend(start, allocs, maxId, i, k);
      assert allocs[k].seg.min == EndOf(start, allocs, k) + 1;
    } else {
      StartBelow(start, allocs, maxId, i);
    }
  }

  lemma {:induction false} StartBelow(start: int, allocs: seq<Alloc>, maxId: int, i: nat)
    requires Tiles(start, allocs, maxId) && i < |allocs|
    ensures start < allocs[i].seg.min
  {
    assert allocs[i].seg.min == EndOf(start, allocs, i) + 1;
    if i > 0 {
      var k: nat := i - 1;
      StartBelow(start, allocs, maxId, k);
      assert allocs[k].seg.min <= allocs[k].seg.max;
    }
  }

  lemma AllocatedBelow(start: int, allocs: seq<Alloc>, maxId: int, a: Alloc)
    requires Tiles(start, allocs, maxId) && a in allocs
    ensures start < a.seg.min <= a.seg.max <= maxId
  {
    var k: nat :| k < |allocs| && allocs[k] == a;
    SegmentsAscend(start, allocs, maxId, k, |allocs|);
  }

  /** Compare-and-swap tiling: the segments are pairwise disjoint and cover exactly the range from the first
      max_id + 1 to the current max_id. */
  lemma TilingExact(start: int, allocs: seq<Alloc>, maxId: int)
    requires Tiles(start, allocs, maxId)
    ensures forall i, j, id :: 0 <= i < |allocs| && 0 <= j < |allocs| && Contains(allocs[i].seg, id) && Contains(allocs[j].seg, id) ==> i == j
    ensures forall id :: start < id <= maxId <==> Allocated(allocs, id)
  {
    forall i, j, id | 0 <= i < |allocs| && 0 <= j < |allocs| && Contains(allocs[i].seg, id) && Contains(allocs[j].seg, id)
      ensures i == j
    {
      if i < j {
        SegmentsAscend(start, allocs, maxId, i, j);
      } else if j < i {
        SegmentsAscend(start, allocs, maxId, j, i);
      }
    }
    forall id ensures start < id <= maxId <==> Allocated(allocs, id) {
      if start < id <= maxId {
        var k := Cover(start, allocs, maxId, id, |allocs|);
      }
      if Allocated(allocs, id) {
        var k :| 0 <= k < |allocs| && Contains(allocs[k].seg, id);
        AllocatedBelow(start, allocs, maxId, allocs[k]);
      }
    }
  }

  lemma {:induction false} Cover(start: int, allocs: seq<Alloc>, maxId: int, id: int, n: nat) returns (k: nat)
    requires Tiles(start, allocs, maxId) && n <= |allocs| && start < id <= EndOf(start, allocs, n)
    ensures k < |allocs| && Contains(allocs[k].seg, id)
    decreases n
  {
    k := n - 1;
    assert allocs[k].seg.min == EndOf(start, allocs, k) + 1;
    if id < allocs[k].seg.min {
      k := Cover(start, allocs, maxId, id, n - 1);
    }
  }

  // ---- The invariant ----

  ghost predicate OwnsId(allocs: seq<Alloc>, g: InstanceId, id: int) {
    exists a :: a in allocs && a.owner == g && Contains(a.seg, id)
  }

  /** Whatever an instance still has in hand is its own and lies above what it had before. */
  ghost predicate GeneratorOk(allocs: seq<Alloc>, g: InstanceId, x: Generator) {
    && (x.constructed ==> Alloc(g, Seg(x.min, x.max)) in allocs && x.min <= x.cursor <= x.max + 1)
    && (x.nextReady ==> Alloc(g, x.next) in allocs && (x.constructed ==> x.max < x.next.min))
    && (x.loader.Got? ==> && Alloc(g, x.loader.seg) in allocs
                          && (x.constructed ==> x.max < x.loader.seg.min)
                          && (x.nextReady ==> x.next.max < x.loader.seg.min))
    && (x.loader.HasRead? ==> 0 < x.loader.row.step)
    && (x.loading <==> x.constructed && x.loader != Off)
    && (!x.constructed ==> x.loader != Off && (x.nextReady <==> x.loader == Done(true)))
  }

  ghost predicate GeneratorsInv(s: State) {
    && s.generators.Keys <= s.born
    && forall g :: g in s.generators ==> GeneratorOk(s.allocs, g, s.generators[g])
  }

  ghost predicate IssuedInv(s: State) {
    && (forall i :: 0 <= i < |s.issued| ==> s.issued[i].owner in s.born && OwnsId(s.allocs, s.issued[i].owner, s.issued[i].id))
    && (forall i, j :: 0 <= i < j < |s.issued| && s.issued[i].owner == s.issued[j].owner ==> s.issued[i].id < s.issued[j].id)
    && (forall i :: 0 <= i < |s.issued| && s.issued[i].owner in s.generators ==>
          s.generators[s.issued[i].owner].constructed && s.issued[i].id < s.generators[s.issued[i].owner].cursor)
  }

  ghost predicate Inv(start: int, s: State) {
    0 < s.row.step && Tiles(start, s.allocs, s.row.maxId) && GeneratorsInv(s) && IssuedInv(s)
  }

  lemma OwnsGrows(allocs: seq<Alloc>, more: seq<Alloc>, g: InstanceId, id: int)
    requires OwnsId(allocs, g, id) && allocs <= more
    ensures OwnsId(more, g, id)
  {
    var a :| a in allocs && a.owner == g && Contains(a.seg, id);
    assert a in more;
  }

  /** The row and the list of allocations after a step. */
  lemma StepKeepsTiles(maxRetries: nat, start: int, s: State, action: Action)
    requires 0 < s.row.step && Tiles(start, s.allocs, s.row.maxId) && GeneratorsInv(s) && Enabled(s, action)
    ensures var s' := After(maxRetries, s, action);
            0 < s'.row.step && Tiles(start, s'.allocs, s'.row.maxId) && s.allocs <= s'.allocs
  {
    if action.Cas? && CasMatches(s.row, s.generators[action.g].loader.row) {
      var seen := s.generators[action.g].loader.row;
      assert GeneratorOk(s.allocs, action.g, s.generators[action.g]);
      TilesExtend(start, s.allocs, s.row.maxId, Alloc(action.g, SegmentOf(seen)));
    }
  }

  lemma AllOwnBelow(start: int, s: State, g: InstanceId)
    requires Tiles(start, s.allocs, s.row.maxId) && g in s.generators && GeneratorOk(s.allocs, g, s.generators[g])
    ensures s.generators[g].constructed ==> s.generators[g].min <= s.generators[g].max <= s.row.maxId
    ensures s.generators[g].nextReady ==> s.generators[g].next.min <= s.generators[g].next.max <= s.row.maxId
    ensures s.generators[g].loader.Got? ==> s.generators[g].loader.seg.min <= s.generators[g].loader.seg.max <= s.row.maxId
  {
    var x := s.generators[g];
    if x.constructed {
      AllocatedBelow(start, s.allocs, s.row.maxId, Alloc(g, Seg(x.min, x.max)));
    }
    if x.nextReady {
      AllocatedBelow(start, s.allocs, s.row.maxId, Alloc(g, x.next));
    }
    if x.loader.Got? {
      AllocatedBelow(start, s.allocs, s.row.maxId, Alloc(g, x.loader.seg));
    }
  }

  /** The instance that acts keeps its part. */
  lemma ActorOk(maxRetries: nat, start: int, s: State, action: Action)
    requires 0 < s.row.step && Tiles(start, s.allocs, s.row.maxId) && GeneratorsInv(s) && Enabled(s, action) && !action.SetStep?
    ensures var s' := After(maxRetries, s, action);
            action.g in s'.generators ==> GeneratorOk(s'.allocs, action.g, s'.generators[action.g])
  {
    if action.g in s.generators {
      assert GeneratorOk(s.allocs, action.g, s.generators[action.g]);
      AllOwnBelow(start, s, action.g);
    }
  }

  lemma StepKeepsGenerators(maxRetries: nat, start: int, s: State, action: Action)
    requires 0 < s.row.step && Tiles(start, s.allocs, s.row.maxId) && GeneratorsInv(s) && Enabled(s, action)
    ensures GeneratorsInv(After(maxRetries, s, action))
  {
    var s' := After(maxRetries, s, action);
    forall g | g in s'.generators ensures GeneratorOk(s'.allocs, g, s'.generators[g]) {
      if !action.SetStep? && g == action.g {
        ActorOk(maxRetries, start, s, action);
      } else {
        assert GeneratorOk(s.allocs, g, s.generators[g]);
      }
    }
  }

  lemma IssueKeepsIssued(maxRetries: nat, s: State, g: InstanceId)
    requires GeneratorsInv(s) && IssuedInv(s) && Enabled(s, TryNext(g))
    ensures IssuedInv(After(maxRetries, s, TryNext(g)))
  {
    var x := s.generators[g];
    assert GeneratorOk(s.allocs, g, x);
    assert Contains(Alloc(g, Seg(x.min, x.max)).seg, x.cursor);
    assert OwnsId(s.allocs, g, x.cursor);
  }

  lemma StepKeepsIssued(maxRetries: nat, s: State, action: Action)
    requires GeneratorsInv(s) && IssuedInv(s) && Enabled(s, action) && s.allocs <= After(maxRetries, s, action).allocs
    ensures IssuedInv(After(maxRetries, s, action))
  {
    var s' := After(maxRetries, s, action);
    if action.TryNext? {
      IssueKeepsIssued(maxRetries, s, action.g);
    } else {
      forall i | 0 <= i < |s'.issued| ensures OwnsId(s'.allocs, s'.issued[i].owner, s'.issued[i].id) {
        OwnsGrows(s.allocs, s'.allocs, s.issued[i].owner, s.issued[i].id);
      }
      CursorsRise(maxRetries, s, action);
    }
  }

  /** No step moves a cursor back. */
  lemma CursorsRise(maxRetries: nat, s: State, action: Action)
    requires GeneratorsInv(s) && Enabled(s, action)
    ensures var s' := After(maxRetries, s, action);
            forall g :: g in s.born && g in s'.generators ==>
              && g in s.generators
              && (s.generators[g].constructed ==> s'.generators[g].constructed && s.generators[g].cursor <= s'.generators[g].cursor)
  {
    var s' := After(maxRetries, s, action);
    forall g | g in s.born && g in s'.generators
      ensures g in s.generators
      ensures s.generators[g].constructed ==> s'.generators[g].constructed && s.generators[g].cursor <= s'.generators[g].cursor
    {
      if g in s.generators {
        assert GeneratorOk(s.allocs, g, s.generators[g]);
      }
    }
  }

  /** Every step keeps the invariant. */
  lemma StepKeepsInv(maxRetries: nat, start: int, s: State, action: Action)
    requires Inv(start, s) && Enabled(s, action)
    ensures Inv(start, After(maxRetries, s, action))
  {
    StepKeepsTiles(maxRetries, start, s, action);
    StepKeepsGenerators(maxRetries, start, s, action);
    StepKeepsIssued(maxRetries, s, action);
  }

  lemma {:induction false} RunKeepsInv(maxRetries: nat, run: Run)
    requires IsRun(maxRetries, run)
    ensures Inv(First(run).row.maxId, run.state)
    decreases run
  {
    match run
    case Begun(_) =>
    case Then(before, action, _) =>
      RunKeepsInv(maxRetries, before);
      StepKeepsInv(maxRetries, First(run).row.maxId, before.state, action);
  }

  // ---- What holds of every run ----

  /** At every moment of every run the segments that were taken tile the range from the first max_id + 1 to the current one. */
  lemma CasTiling(maxRetries: nat, run: Run, id: int)
    requires IsRun(maxRetries, run)
    ensures var s := run.state;
            && (First(run).row.maxId < id <= s.row.maxId <==> Allocated(s.allocs, id))
            && forall i, j :: 0 <= i < |s.allocs| && 0 <= j < |s.allocs| && Contains(s.allocs[i].seg, id) && Contains(s.allocs[j].seg, id) ==> i == j
  {
    RunKeepsInv(maxRetries, run);
    TilingExact(First(run).row.maxId, run.state.allocs, run.state.row.maxId);
  }

  /** No id is issued twice, by whatever instances; every issued id lies in a segment of its issuer; and the ids
      of one instance strictly increase. */
  lemma IdsAreUnique(maxRetries: nat, run: Run)
    requires IsRun(maxRetries, run)
    ensures var s := run.state;
            && (forall i, j :: 0 <= i < j < |s.issued| ==> s.issued[i].id != s.issued[j].id)
            && (forall i :: 0 <= i < |s.issued| ==> OwnsId(s.allocs, s.issued[i].owner, s.issued[i].id))
            && (forall i, j :: 0 <= i < j < |s.issued| && s.issued[i].owner == s.issued[j].owner ==> s.issued[i].id < s.issued[j].id)
  {
    RunKeepsInv(maxRetries, run);
    var s := run.state;
    forall i, j | 0 <= i < j < |s.issued| ensures s.issued[i].id != s.issued[j].id {
      if s.issued[i].id == s.issued[j].id {
        OneOwner(First(run).row.maxId, s.allocs, s.row.maxId, s.issued[i].owner, s.issued[j].owner, s.issued[i].id);
      }
    }
  }

  lemma OneOwner(start: int, allocs: seq<Alloc>, maxId: int, g: InstanceId, h: InstanceId, id: int)
    requires Tiles(start, allocs, maxId) && OwnsId(allocs, g, id) && OwnsId(allocs, h, id)
    ensures g == h
  {
    TilingExact(start, allocs, maxId);
    var a :| a in allocs && a.owner == g && Contains(a.seg, id);
    var b :| b in allocs && b.owner == h && Contains(b.seg, id);
    var i :| 0 <= i < |allocs| && allocs[i] == a;
    var j :| 0 <= j < |allocs| && allocs[j] == b;
    assert i == j;
  }

  /** The segment a swap would install if it read nextMin of segment i and nextMax of segment j. */
  function Torn(allocs: seq<Alloc>, i: nat, j: nat): Seg
    requires i < |allocs| && j < |allocs|
  {
    Seg(allocs[i].seg.min, allocs[j].seg.max)
  }

  lemma TornIdOwned(start: int, allocs: seq<Alloc>, maxId: int, g: InstanceId, i: nat, j: nat, id: int)
    requires Tiles(start, allocs, maxId) && i < j < |allocs| && Contains(Torn(allocs, i, j), id)
    requires forall k :: i <= k <= j ==> allocs[k].owner == g
    ensures OwnsId(allocs, g, id)
  {
    AllocatedBelow(start, allocs, maxId, allocs[i]);
    AllocatedBelow(start, allocs, maxId, allocs[j]);
    var k := Cover(start, allocs, maxId, id, |allocs|);
    TornBounds(start, allocs, maxId, i, j, k, id);
    assert allocs[k] in allocs;
  }

  lemma TornNeighbourMine(start: int, allocs: seq<Alloc>, maxId: int, g: InstanceId, i: nat, j: nat, k: nat)
    requires Tiles(start, allocs, maxId) && i <= k <= j < |allocs|
    requires forall id :: Contains(Torn(allocs, i, j), id) ==> OwnsId(allocs, g, id)
    ensures allocs[k].owner == g
  {
    TornCovers(start, allocs, maxId, i, j, k);
    var id := allocs[k].seg.min;
    assert Contains(Torn(allocs, i, j), id);
    assert allocs[k] in allocs && Contains(allocs[k].seg, id);
    OneOwner(start, allocs, maxId, g, allocs[k].owner, id);
  }

  /** What the granularity of the swap is worth. If a swap could read nextMin of the instance's segment i and
      nextMax of a later segment j, the ids it would go on to hand out are all its own exactly when no other
      instance was given a segment in between. */
  lemma TornSwap(start: int, allocs: seq<Alloc>, maxId: int, g: InstanceId, i: nat, j: nat)
    requires Tiles(start, allocs, maxId) && i < j < |allocs|
    ensures (forall id :: Contains(Torn(allocs, i, j), id) ==> OwnsId(allocs, g, id))
            <==> (forall k :: i <= k <= j ==> allocs[k].owner == g)
  {
    if forall id :: Contains(Torn(allocs, i, j), id) ==> OwnsId(allocs, g, id) {
      forall k | i <= k <= j ensures allocs[k].owner == g {
        TornNeighbourMine(start, allocs, maxId, g, i, j, k);
      }
    }
    if forall k :: i <= k <= j ==> allocs[k].owner == g {
      forall id | Contains(Torn(allocs, i, j), id) ensures OwnsId(allocs, g, id) {
        TornIdOwned(start, allocs, maxId, g, i, j, id);
      }
    }
  }

  lemma TornCovers(start: int, allocs: seq<Alloc>, maxId: int, i: nat, j: nat, k: nat)
    requires Tiles(start, allocs, maxId) && i <= k <= j < |allocs|
    ensures allocs[i].seg.min <= allocs[k].seg.min <= allocs[k].seg.max <= allocs[j].seg.max
  {
    if i < k {
      SegmentsAscend(start, allocs, maxId, i, k);
    }
    if k < j {
      SegmentsAscend(start, allocs, maxId, k, j);
    }
  }

  lemma TornBounds(start: int, allocs: seq<Alloc>, maxId: int, i: nat, j: nat, k: nat, id: int)
    requires Tiles(start, allocs, maxId) && i < j < |allocs| && k < |allocs|
    requires Contains(allocs[k].seg, id) && Contains(Torn(allocs, i, j), id)
    ensures i <= k <= j
  {
    if k < i {
      SegmentsAscend(start, allocs, maxId, k, i);
    }
    if j < k {
      SegmentsAscend(start, allocs, maxId, j, k);
    }
  }

  // ---- An exhausted instance can go on ----

  ghost predicate Reachable(maxRetries: nat, s: State) {
    exists run :: IsRun(maxRetries, run) && run.state == s
  }

  lemma Extend(maxRetries: nat, s: State, action: Action) returns (s': State)
    requires Reachable(maxRetries, s) && Enabled(s, action)
    ensures Reachable(maxRetries, s') && s' == After(maxRetries, s, action)
  {
    s' := After(maxRetries, s, action);
    var run :| IsRun(maxRetries, run) && run.state == s;
    assert IsRun(maxRetries, Then(run, action, s'));
  }

  /** Some steps lead from one state to the other. */
  ghost predicate Leads(maxRetries: nat, s: State, s': State) {
    exists path :: Steps(maxRetries, path) && First(path) == s && path.state == s'
  }

  ghost predicate Steps(maxRetries: nat, path: Run)
    decreases path
  {
    match path
    case Begun(_) => true
    case Then(before, action, s) =>
      Steps(maxRetries, before) && Enabled(before.state, action) && s == After(maxRetries, before.state, action)
  }

  lemma Go(maxRetries: nat, origin: State, s: State, action: Action) returns (s': State)
    requires Leads(maxRetries, origin, s) && Enabled(s, action)
    ensures Leads(maxRetries, origin, s') && s' == After(maxRetries, s, action)
  {
    s' := After(maxRetries, s, action);
    var path :| Steps(maxRetries, path) && First(path) == origin && path.state == s;
    assert Steps(maxRetries, Then(path, action, s')) && First(Then(path, action, s')) == origin;
  }

  lemma LeadsKeepsInv(maxRetries: nat, start: int, origin: State, s: State)
    requires Inv(start, origin) && Leads(maxRetries, origin, s)
    ensures Inv(start, s)
  {
    var path :| Steps(maxRetries, path) && First(path) == origin && path.state == s;
    StepsKeepInv(maxRetries, start, path);
  }

  lemma {:induction false} StepsKeepInv(maxRetries: nat, start: int, path: Run)
    requires Steps(maxRetries, path) && Inv(start, First(path))
    ensures Inv(start, path.state)
    decreases path
  {
    match path
    case Begun(_) =>
    case Then(before, action, _) =>
      StepsKeepInv(maxRetries, start, before);
      StepKeepsInv(maxRetries, start, before.state, action);
  }

  ghost predicate Usable(s: State, g: InstanceId) {
    g in s.generators && s.generators[g].constructed
  }

  /** Whatever its loader is doing, it can come to an end. */
  lemma CanStopLoading(maxRetries: nat, origin: State, s: State, g: InstanceId) returns (s': State)
    requires Leads(maxRetries, origin, s) && Usable(s, g)
    ensures Leads(maxRetries, origin, s') && Usable(s', g) && s'.generators[g].loader == Off && s'.issued == s.issued
    ensures s'.generators[g].cursor == s.generators[g].cursor && s'.generators[g].max == s.generators[g].max
  {
    s' := s;
    if s'.generators[g].loader.Reading? || s'.generators[g].loader.HasRead? {
      s' := Go(maxRetries, origin, s', Fail(g));
    } else if s'.generators[g].loader.Got? {
      s' := Go(maxRetries, origin, s', StoreNext(g));
    }
    if s'.generators[g].loader.Done? {
      s' := Go(maxRetries, origin, s', Finish(g));
    }
  }

  /** It can take a new segment from the row as it is. */
  lemma CanLoad(maxRetries: nat, origin: State, s: State, g: InstanceId) returns (s': State)
    requires Leads(maxRetries, origin, s) && Usable(s, g) && !s.generators[g].loading
    ensures Leads(maxRetries, origin, s') && Usable(s', g) && s'.generators[g].nextReady && s'.issued == s.issued
    ensures s'.generators[g].cursor == s.generators[g].cursor && s'.generators[g].max == s.generators[g].max
  {
    s' := Go(maxRetries, origin, s, Trigger(g));
    s' := Go(maxRetries, origin, s', ReadRow(g));
    s' := Go(maxRetries, origin, s', Cas(g, false));
    s' := Go(maxRetries, origin, s', StoreNext(g));
  }

  lemma CanSwap(maxRetries: nat, start: int, origin: State, s: State, g: InstanceId) returns (s': State)
    requires Inv(start, s) && Leads(maxRetries, origin, s)
    requires Usable(s, g) && s.generators[g].nextReady && Exhausted(s.generators[g])
    ensures Leads(maxRetries, origin, s') && Usable(s', g) && !Exhausted(s'.generators[g]) && s'.issued == s.issued
  {
    assert GeneratorOk(s.allocs, g, s.generators[g]);
    AllOwnBelow(start, s, g);
    s' := Go(maxRetries, origin, s, Swap(g));
  }

  lemma ReachableInv(maxRetries: nat, s: State) returns (start: int)
    requires Reachable(maxRetries, s)
    ensures Inv(start, s)
  {
    var run :| IsRun(maxRetries, run) && run.state == s;
    RunKeepsInv(maxRetries, run);
    start := First(run).row.maxId;
  }

  /** An instance that has used its segment up can get to one with stock. */
  lemma CanRefill(maxRetries: nat, s: State, g: InstanceId) returns (s': State)
    requires Reachable(maxRetries, s) && Usable(s, g) && Exhausted(s.generators[g])
    ensures Leads(maxRetries, s, s') && Usable(s', g) && !Exhausted(s'.generators[g]) && s'.issued == s.issued
  {
    var start := ReachableInv(maxRetries, s);
    assert Steps(maxRetries, Begun(s)) && First(Begun(s)) == s;
    var s1 := CanStopLoading(maxRetries, s, s, g);
    LeadsKeepsInv(maxRetries, start, s, s1);
    assert GeneratorOk(s1.allocs, g, s1.generators[g]);
    var s2 := CanLoad(maxRetries, s, s1, g);
    LeadsKeepsInv(maxRetries, start, s, s2);
    s' := CanSwap(maxRetries, start, s, s2, g);
  }

  ghost predicate CanIssueNext(maxRetries: nat, s: State, g: InstanceId) {
    exists s' :: Leads(maxRetries, s, s') && |s'.issued| == |s.issued| + 1 && s.issued <= s'.issued && s'.issued[|s.issued|].owner == g
  }

  /** From every reachable state every running instance can go on to issue another id: no crash of others, lost
      reply, failed prefetch or overwritten buffer leaves it stuck. */
  lemma NextIdPossible(maxRetries: nat, s: State, g: InstanceId)
    requires Reachable(maxRetries, s) && Usable(s, g)
    ensures CanIssueNext(maxRetries, s, g)
  {
    var s1 := s;
    assert Steps(maxRetries, Begun(s)) && First(Begun(s)) == s;
    if Exhausted(s.generators[g]) {
      s1 := CanRefill(maxRetries, s, g);
    }
    var s2 := Go(maxRetries, s, s1, TryNext(g));
    assert s2.issued == s.issued + [Issue(g, s1.generators[g].cursor)];
  }
}

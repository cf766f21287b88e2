/**
  History paging and offline catch-up: one page at a time out of a conversation that keeps growing, backward
  from a seq or forward from the client's cursor, with a visibility bound per member and a forward-only
  cursor kept on the server.
*/
module History {
  import opened Common
  import opened MessageStore

  datatype Member = Member(joinedSeq: int, clearBeforeSeq: int)

  datatype Query = Query(actor: UserId, conv: ConvId, before: int, after: int, limit: int)

  datatype Page = Page(items: seq<Message>, nextBefore: int, nextAfter: int, hasMore: bool, resync: bool)

  datatype HistoryError = InvalidArgument | NotMember | Unavailable

  const DEFAULT_LIMIT := 20
  const MAX_LIMIT := 100

  function PageLimit(limit: int): (n: nat)
    ensures 1 <= n <= MAX_LIMIT
  {
    if limit <= 0 then DEFAULT_LIMIT else if limit > MAX_LIMIT then MAX_LIMIT else limit
  }

  function VisibleAfter(m: Member): int {
    Max(m.joinedSeq, m.clearBeforeSeq)
  }

  // ---- The two queries ----

  ghost predicate Stored(db: Db, conv: ConvId, m: Message) {
    m.id in db.messages && db.messages[m.id] == m && m.conv == conv
  }

  /** SELECT .. WHERE seq > after ORDER BY seq ASC LIMIT limit */
  ghost predicate SelectAfter(db: Db, conv: ConvId, after: int, limit: nat, items: seq<Message>) {
    && |items| <= limit
    && (forall k :: 0 <= k < |items| ==> Stored(db, conv, items[k]) && after < items[k].seqNo)
    && (forall j, k :: 0 <= j < k < |items| ==> items[j].seqNo < items[k].seqNo)
    && (forall id :: id in db.messages && db.messages[id].conv == conv && after < db.messages[id].seqNo ==>
          db.messages[id] in items || (|items| == limit > 0 && items[limit - 1].seqNo < db.messages[id].seqNo))
  }

  predicate Below(before: int, seqNo: int) {
    before > 0 ==> seqNo < before
  }

  /** SELECT .. [WHERE seq < before] ORDER BY seq DESC LIMIT limit */
  ghost predicate SelectBefore(db: Db, conv: ConvId, before: int, limit: nat, items: seq<Message>) {
    && |items| <= limit
    && (forall k :: 0 <= k < |items| ==> Stored(db, conv, items[k]) && Below(before, items[k].seqNo))
    && (forall j, k :: 0 <= j < k < |items| ==> items[k].seqNo < items[j].seqNo)
    && (forall id :: id in db.messages && db.messages[id].conv == conv && Below(before, db.messages[id].seqNo) ==>
          db.messages[id] in items || (|items| == limit > 0 && db.messages[id].seqNo < items[limit - 1].seqNo))
  }

  /** Items in the order of the table's seqs, with no gap. */
  ghost predicate Rising(items: seq<Message>, from: int) {
    forall k :: 0 <= k < |items| ==> items[k].seqNo == from + 1 + k
  }

  ghost predicate Falling(items: seq<Message>, top: int) {
    forall k :: 0 <= k < |items| ==> items[k].seqNo == top - k
  }

  ghost predicate OnPage(items: seq<Message>, n: int) {
    exists j :: 0 <= j < |items| && items[j].seqNo == n
  }

  /** A row of the range is on the page, or past the end of a full page. */
  lemma RowOnAfterPage(db: Db, conv: ConvId, after: int, limit: nat, items: seq<Message>, n: nat)
    requires SeqsInv(db) && conv in db.convs && SelectAfter(db, conv, after, limit, items)
    requires after < n && 1 <= n <= db.convs[conv].lastSeq
    ensures OnPage(items, n) || (|items| == limit > 0 && items[limit - 1].seqNo < n)
  {
    assert HasMessage(db, conv, n);
    var id :| id in db.messages && db.messages[id].conv == conv && db.messages[id].seqNo == n;
  }

  lemma {:induction false} AfterItemAt(db: Db, conv: ConvId, after: nat, limit: nat, items: seq<Message>, k: nat)
    requires SeqsInv(db) && conv in db.convs && SelectAfter(db, conv, after, limit, items) && k < |items|
    ensures items[k].seqNo == after + 1 + k
  {
    if k > 0 {
      AfterItemAt(db, conv, after, limit, items, k - 1);
    }
    assert Stored(db, conv, items[k]);
    if after + 1 + k < items[k].seqNo {
      RowOnAfterPage(db, conv, after, limit, items, after + 1 + k);
    }
  }

  /** A forward page holds exactly the next seqs, as many as there are up to the limit. */
  lemma AfterPageExact(db: Db, conv: ConvId, after: nat, limit: nat, items: seq<Message>)
    requires SeqsInv(db) && conv in db.convs && SelectAfter(db, conv, after, limit, items)
    ensures Rising(items, after) && |items| == Min(limit, Max(0, db.convs[conv].lastSeq - after))
  {
    forall k | 0 <= k < |items| ensures items[k].seqNo == after + 1 + k {
      AfterItemAt(db, conv, after, limit, items, k);
    }
    if |items| > 0 {
      assert Stored(db, conv, items[|items| - 1]);
    }
    var n: nat := after + |items| + 1;
    if |items| < limit && n <= db.convs[conv].lastSeq {
      RowOnAfterPage(db, conv, after, limit, items, n);
    }
  }

  function Top(db: Db, conv: ConvId, before: int): (top: nat)
    requires conv in db.convs
  {
    if before > 0 then Min(before - 1, db.convs[conv].lastSeq) else db.convs[conv].lastSeq
  }

  lemma RowOnBeforePage(db: Db, conv: ConvId, before: int, limit: nat, items: seq<Message>, n: nat)
    requires SeqsInv(db) && conv in db.convs && SelectBefore(db, conv, before, limit, items)
    requires Below(before, n) && 1 <= n <= db.convs[conv].lastSeq
    ensures OnPage(items, n) || (|items| == limit > 0 && n < items[limit - 1].seqNo)
  {
    assert HasMessage(db, conv, n);
    var id :| id in db.messages && db.messages[id].conv == conv && db.messages[id].seqNo == n;
  }

  lemma {:induction false} BeforeItemAt(db: Db, conv: ConvId, before: int, limit: nat, items: seq<Message>, k: nat)
    requires SeqsInv(db) && conv in db.convs && SelectBefore(db, conv, before, limit, items) && k < |items|
    ensures items[k].seqNo == Top(db, conv, before) - k
  {
    if k > 0 {
      BeforeItemAt(db, conv, before, limit, items, k - 1);
    }
    assert Stored(db, conv, items[k]);
    if items[k].seqNo < Top(db, conv, before) - k {
      RowOnBeforePage(db, conv, before, limit, items, Top(db, conv, before) - k);
    }
  }

  lemma BeforePageExact(db: Db, conv: ConvId, before: int, limit: nat, items: seq<Message>)
    requires SeqsInv(db) && conv in db.convs && SelectBefore(db, conv, before, limit, items)
    ensures Falling(items, Top(db, conv, before)) && |items| == Min(limit, Top(db, conv, before))
  {
    var top := Top(db, conv, before);
    forall k | 0 <= k < |items| ensures items[k].seqNo == top - k {
      BeforeItemAt(db, conv, before, limit, items, k);
    }
    if |items| > 0 {
      assert Stored(db, conv, items[|items| - 1]);
    }
    if |items| < limit && |items| < top {
      var n: nat := top - |items|;
      RowOnBeforePage(db, conv, before, limit, items, n);
    }
  }

  // ---- One response ----

  function Visible(items: seq<Message>, bound: int): seq<Message> {
    if items == [] then []
    else
      var last := items[|items| - 1];
      Visible(items[..|items| - 1], bound) + if last.seqNo > bound then [last] else []
  }

  /** The bound cuts a backward page at one place. */
  lemma {:induction false} VisiblePrefix(items: seq<Message>, top: int, bound: int)
    requires Falling(items, top)
    ensures Visible(items, bound) == items[..Min(|items|, Max(0, top - bound))]
  {
    if items != [] {
      VisiblePrefix(items[..|items| - 1], top, bound);
    }
  }

  ghost predicate ResponseAfter(db: Db, conv: ConvId, after: int, bound: int, limit: nat, page: Page) {
    && SelectAfter(db, conv, Max(after, bound), limit, page.items)
    && page.nextAfter == (if page.items == [] then 0 else page.items[|page.items| - 1].seqNo)
    && page.nextBefore == 0
    && (page.hasMore <==> |page.items| == limit)
    && (page.resync <==> after < bound)
  }

  ghost predicate ResponseBefore(db: Db, conv: ConvId, before: int, bound: int, limit: nat, page: Page) {
    && (exists items :: SelectBefore(db, conv, before, limit, items) && page.items == Visible(items, bound))
    && page.nextBefore == (if page.items == [] then 0 else page.items[|page.items| - 1].seqNo)
    && page.nextAfter == 0
    && (page.hasMore <==> |page.items| == limit)
    && !page.resync
  }

  lemma VisibleExact(items: seq<Message>, top: nat, bound: int, limit: nat)
    requires Falling(items, top) && |items| == Min(limit, top)
    ensures Falling(Visible(items, bound), top) && Visible(items, bound) <= items
    ensures |Visible(items, bound)| == Min(limit, Max(0, top - Max(bound, 0)))
  {
    VisiblePrefix(items, top, bound);
  }

  lemma BackwardItemsExact(db: Db, conv: ConvId, before: int, bound: int, limit: nat, items: seq<Message>)
    requires SeqsInv(db) && conv in db.convs && SelectBefore(db, conv, before, limit, items)
    ensures Falling(Visible(items, bound), Top(db, conv, before))
    ensures |Visible(items, bound)| == Min(limit, Max(0, Top(db, conv, before) - Max(bound, 0)))
    ensures Visible(items, bound) <= items
  {
    BeforePageExact(db, conv, before, limit, items);
    VisibleExact(items, Top(db, conv, before), bound, limit);
  }

  lemma BackwardPageExact(db: Db, conv: ConvId, before: int, bound: int, limit: nat, page: Page)
    requires SeqsInv(db) && conv in db.convs && ResponseBefore(db, conv, before, bound, limit, page)
    ensures Falling(page.items, Top(db, conv, before))
    ensures |page.items| == Min(limit, Max(0, Top(db, conv, before) - Max(bound, 0)))
    ensures forall k :: 0 <= k < |page.items| ==> Stored(db, conv, page.items[k])
  {
    var items :| SelectBefore(db, conv, before, limit, items) && page.items == Visible(items, bound);
    BackwardItemsExact(db, conv, before, bound, limit, items);
    forall k | 0 <= k < |page.items| ensures Stored(db, conv, page.items[k]) {
      assert page.items[k] == items[k];
    }
  }

  // ---- Following the pages while the conversation grows ----

  function Collected(pages: seq<Page>): seq<Message> {
    if pages == [] then [] else pages[0].items + Collected(pages[1..])
  }

  /** `dbs[k]` is the database as the k-th query sees it. */
  ghost predicate Growing(conv: ConvId, dbs: seq<Db>) {
    && (forall k :: 0 <= k < |dbs| ==> SeqsInv(dbs[k]) && conv in dbs[k].convs)
    && (forall j, k :: 0 <= j <= k < |dbs| ==> Extends(dbs[j], dbs[k]))
  }

  /** A client asks for what comes after its cursor, and goes on from NextAfterSeq until HasMore is false. */
  ghost predicate CatchUp(dbs: seq<Db>, conv: ConvId, after: int, bound: int, limit: nat, pages: seq<Page>)
    decreases |pages|
  {
    && |pages| == |dbs| > 0
    && ResponseAfter(dbs[0], conv, after, bound, limit, pages[0])
    && (pages[0].hasMore <==> |pages| > 1)
    && (|pages| > 1 ==> CatchUp(dbs[1..], conv, pages[0].nextAfter, bound, limit, pages[1..]))
  }

  lemma GrowingTail(conv: ConvId, dbs: seq<Db>)
    requires Growing(conv, dbs) && |dbs| > 1
    ensures Growing(conv, dbs[1..]) && dbs[1..][|dbs| - 2] == dbs[|dbs| - 1]
  {
  }

  lemma Joined(a: seq<Message>, b: seq<Message>, from: int, end: Db, conv: ConvId)
    requires forall k :: 0 <= k < |a| ==> Stored(end, conv, a[k])
    requires forall k :: 0 <= k < |b| ==> Stored(end, conv, b[k])
    ensures Rising(a, from) && Rising(b, from + |a|) ==> Rising(a + b, from)
    ensures Falling(a, from) && Falling(b, from - |a|) ==> Falling(a + b, from)
    ensures forall k :: 0 <= k < |a + b| ==> Stored(end, conv, (a + b)[k])
  {
  }

  /** Catch-up is complete: together the pages hold exactly the seqs from the cursor, or the visible bound if
      that is higher, up to the last seq at the final read, in order, with no gap and no repeat, although
      messages keep arriving between the reads. */
  lemma {:induction false} CatchUpComplete(dbs: seq<Db>, conv: ConvId, after: int, bound: int, limit: nat, pages: seq<Page>)
    requires Growing(conv, dbs) && CatchUp(dbs, conv, after, bound, limit, pages) && 0 < after && 0 < limit
    ensures var all, from, end := Collected(pages), Max(after, bound), dbs[|dbs| - 1];
            && Rising(all, from) && |all| == Max(0, end.convs[conv].lastSeq - from)
            && (forall k :: 0 <= k < |all| ==> Stored(end, conv, all[k]))
    ensures |pages| - 1 <= Max(0, dbs[|dbs| - 1].convs[conv].lastSeq - Max(after, bound))
    decreases |pages|
  {
    var from := Max(after, bound);
    AfterPageExact(dbs[0], conv, from, limit, pages[0].items);
    if |pages| == 1 {
      assert pages[1..] == [];
      assert Collected(pages) == pages[0].items;
    } else {
      GrowingTail(conv, dbs);
      CatchUpComplete(dbs[1..], conv, pages[0].nextAfter, bound, limit, pages[1..]);
      FirstPageStays(dbs, conv, pages[0].items);
      Joined(pages[0].items, Collected(pages[1..]), from, dbs[|dbs| - 1], conv);
    }
  }

  lemma FirstPageStays(dbs: seq<Db>, conv: ConvId, items: seq<Message>)
    requires Growing(conv, dbs) && |dbs| > 0
    requires forall k :: 0 <= k < |items| ==> Stored(dbs[0], conv, items[k])
    ensures forall k :: 0 <= k < |items| ==> Stored(dbs[|dbs| - 1], conv, items[k])
  {
    assert Extends(dbs[0], dbs[|dbs| - 1]);
  }

  /** A full forward page ends above everything that the query excluded. */
  lemma NextAfterIsPast(db: Db, conv: ConvId, after: int, bound: int, limit: nat, page: Page)
    requires ResponseAfter(db, conv, after, bound, limit, page) && page.hasMore && 0 < limit
    ensures Max(after, bound) < page.nextAfter
  {
    assert Max(after, bound) < page.items[limit - 1].seqNo;
  }

  /** ResyncRequired is raised exactly when the client's cursor is below the bound, and then only on the first page. */
  lemma {:induction false} ResyncExact(dbs: seq<Db>, conv: ConvId, after: int, bound: int, limit: nat, pages: seq<Page>, k: nat)
    requires CatchUp(dbs, conv, after, bound, limit, pages) && 0 < limit && k < |pages|
    ensures pages[k].resync <==> k == 0 && after < bound
    decreases |pages|
  {
    if k > 0 {
      NextAfterIsPast(dbs[0], conv, after, bound, limit, pages[0]);
      ResyncExact(dbs[1..], conv, pages[0].nextAfter, bound, limit, pages[1..], k - 1);
    }
  }

  /** A client pages backward, going on from NextBeforeSeq until HasMore is false. */
  ghost predicate WalkBack(dbs: seq<Db>, conv: ConvId, before: int, bound: int, limit: nat, pages: seq<Page>)
    decreases |pages|
  {
    && |pages| == |dbs| > 0
    && ResponseBefore(dbs[0], conv, before, bound, limit, pages[0])
    && (pages[0].hasMore <==> |pages| > 1)
    && (|pages| > 1 ==> WalkBack(dbs[1..], conv, pages[0].nextBefore, bound, limit, pages[1..]))
  }

  /** Backward paging lists every message with bound < seq < start exactly once, downwards, and comes to an
      end, however the conversation grows meanwhile: the result is fixed by the first read. */
  lemma {:induction false} WalkBackComplete(dbs: seq<Db>, conv: ConvId, before: int, bound: int, limit: nat, pages: seq<Page>)
    requires Growing(conv, dbs) && WalkBack(dbs, conv, before, bound, limit, pages) && 0 < limit
    ensures var all, top := Collected(pages), Top(dbs[0], conv, before);
            && Falling(all, top) && |all| == Max(0, top - Max(bound, 0))
            && (forall k :: 0 <= k < |all| ==> Stored(dbs[|dbs| - 1], conv, all[k]))
            && |pages| - 1 <= Max(0, top - Max(bound, 0))
    decreases |pages|
  {
    BackwardPageExact(dbs[0], conv, before, bound, limit, pages[0]);
    FirstPageStays(dbs, conv, pages[0].items);
    if |pages| == 1 {
      assert pages[1..] == [];
      assert Collected(pages) == pages[0].items;
    } else {
      GrowingTail(conv, dbs);
      assert Extends(dbs[0], dbs[1]);
      assert Top(dbs[1], conv, pages[0].nextBefore) == Top(dbs[0], conv, before) - limit;
      WalkBackComplete(dbs[1..], conv, pages[0].nextBefore, bound, limit, pages[1..]);
      Joined(pages[0].items, Collected(pages[1..]), Top(dbs[0], conv, before), dbs[|dbs| - 1], conv);
    }
  }

  // ---- The server's record of the cursor ----

  datatype Advance = Advance(conv: ConvId, user: UserId, seqNo: int)

  /** The largest value recorded for a user and conversation, or 0. */
  function Highest(recorded: seq<Advance>, conv: ConvId, user: UserId): (h: int)
    ensures 0 <= h
    ensures forall k :: 0 <= k < |recorded| && recorded[k].conv == conv && recorded[k].user == user ==> recorded[k].seqNo <= h
    ensures h == 0 || exists k :: 0 <= k < |recorded| && recorded[k] == Advance(conv, user, h)
  {
    if recorded == [] then 0
    else
      var last := recorded[|recorded| - 1];
      var before := recorded[..|recorded| - 1];
      var h0 := Highest(before, conv, user);
      assert forall k :: 0 <= k < |before| ==> recorded[k] == before[k];
      if last.conv == conv && last.user == user then Max(h0, last.seqNo) else h0
  }

  ghost predicate StoresHighest(recorded: seq<Advance>, cursors: map<(ConvId, UserId), int>) {
    forall c, u :: Highest(recorded, c, u) == if (c, u) in cursors then cursors[(c, u)] else 0
  }

  /** A hash field per user. The script keeps the larger value, so answers that arrive out of order do no harm. */
  class CursorStore {
    const env: Environment
    var cursors: map<(ConvId, UserId), int>
    ghost var recorded: seq<Advance>

    ghost predicate Valid()
      reads this
    {
      StoresHighest(recorded, cursors)
    }

    constructor (env: Environment)
      ensures Valid() && this.env == env && recorded == [] && cursors == map[]
    {
      this.env := env;
      cursors, recorded := map[], [];
    }

    function Cursor(conv: ConvId, user: UserId): int
      reads this
    {
      if (conv, user) in cursors then cursors[(conv, user)] else 0
    }

    /** advance_cursor.lua */
    method AdvanceCursor(conv: ConvId, user: UserId, seqNo: int) returns (value: int)
      requires Valid()
      modifies this
      ensures Valid() && recorded == old(recorded) + [Advance(conv, user, seqNo)]
      ensures value == Max(old(Cursor(conv, user)), seqNo)
      ensures Cursor(conv, user) == value == Highest(recorded, conv, user)
      ensures forall c, u :: (c, u) != (conv, user) ==> Cursor(c, u) == old(Cursor(c, u))
    {
      var cur := Cursor(conv, user);
      recorded := recorded + [Advance(conv, user, seqNo)];
      assert recorded[..|recorded| - 1] == old(recorded);
      value := cur;
      if seqNo > cur {
        cursors := cursors[(conv, user) := seqNo];
        value := seqNo;
      }
    }
  }

  // ---- The service ----

  /** The primary key of the messages table, and each row under its own id. */
  ghost predicate DistinctRows(db: Db) {
    && (forall id :: id in db.messages ==> db.messages[id].id == id)
    && (forall a, b :: a in db.messages && b in db.messages && SameSlot(db.messages[a], db.messages[b]) ==> a == b)
  }

  lemma RowsAreDistinct(db: Db)
    requires SeqsInv(db)
    ensures DistinctRows(db) && forall id :: id in db.messages ==> 0 < db.messages[id].seqNo
  {
  }

  predicate IsAfter(db: Db, conv: ConvId, after: int, id: MessageId) {
    id in db.messages && db.messages[id].conv == conv && after < db.messages[id].seqNo
  }

  predicate IsBefore(db: Db, conv: ConvId, before: int, id: MessageId) {
    id in db.messages && db.messages[id].conv == conv && Below(before, db.messages[id].seqNo)
  }

  /** The lowest row past `after`. */
  method NextUp(db: Db, conv: ConvId, after: int) returns (found: Option<MessageId>)
    ensures found.None? ==> forall id :: !IsAfter(db, conv, after, id)
    ensures found.Some? ==>
              && IsAfter(db, conv, after, found.value)
              && forall id :: IsAfter(db, conv, after, id) ==> db.messages[found.value].seqNo <= db.messages[id].seqNo
  {
    found := None;
    var todo := db.messages.Keys;
    while todo != {}
      invariant todo <= db.messages.Keys
      invariant found.None? ==> forall id :: IsAfter(db, conv, after, id) ==> id in todo
      invariant found.Some? ==>
                  && IsAfter(db, conv, after, found.value)
                  && forall id :: IsAfter(db, conv, after, id) && id !in todo ==> db.messages[found.value].seqNo <= db.messages[id].seqNo
      decreases todo
    {
      var id := Pick(todo);
      todo := todo - {id};
      if IsAfter(db, conv, after, id) {
        if found.None? || db.messages[id].seqNo < db.messages[found.value].seqNo {
          found := Some(id);
        }
      }
    }
  }

  /** The highest row before `before`. */
  method NextDown(db: Db, conv: ConvId, before: int) returns (found: Option<MessageId>)
    ensures found.None? ==> forall id :: !IsBefore(db, conv, before, id)
    ensures found.Some? ==>
              && IsBefore(db, conv, before, found.value)
              && forall id :: IsBefore(db, conv, before, id) ==> db.messages[id].seqNo <= db.messages[found.value].seqNo
  {
    found := None;
    var todo := db.messages.Keys;
    while todo != {}
      invariant todo <= db.messages.Keys
      invariant found.None? ==> forall id :: IsBefore(db, conv, before, id) ==> id in todo
      invariant found.Some? ==>
                  && IsBefore(db, conv, before, found.value)
                  && forall id :: IsBefore(db, conv, before, id) && id !in todo ==> db.messages[id].seqNo <= db.messages[found.value].seqNo
      decreases todo
    {
      var id := Pick(todo);
      todo := todo - {id};
      if IsBefore(db, conv, before, id) {
        if found.None? || db.messages[id].seqNo > db.messages[found.value].seqNo {
          found := Some(id);
        }
      }
    }
  }

  lemma TakesNext(db: Db, conv: ConvId, after: int, from: int, items: seq<Message>, next: MessageId)
    requires DistinctRows(db) && IsAfter(db, conv, from, next)
    requires forall id :: IsAfter(db, conv, from, id) ==> db.messages[next].seqNo <= db.messages[id].seqNo
    requires forall id :: IsAfter(db, conv, after, id) ==> db.messages[id] in items || from < db.messages[id].seqNo
    ensures forall id :: IsAfter(db, conv, after, id) ==>
              db.messages[id] in items + [db.messages[next]] || db.messages[next].seqNo < db.messages[id].seqNo
  {
    forall id | IsAfter(db, conv, after, id) && db.messages[id] !in items && id != next ensures db.messages[next].seqNo < db.messages[id].seqNo {
      assert IsAfter(db, conv, from, id);
      assert !SameSlot(db.messages[id], db.messages[next]);
    }
  }

  method ListAfter(db: Db, conv: ConvId, after: int, limit: nat) returns (items: seq<Message>)
    requires DistinctRows(db) && 0 < limit
    ensures SelectAfter(db, conv, after, limit, items)
  {
    items := [];
    var from := after;
    while |items| < limit
      invariant |items| <= limit && after <= from
      invariant |items| > 0 ==> items[|items| - 1].seqNo == from
      invariant items == [] ==> from == after
      invariant forall k :: 0 <= k < |items| ==> Stored(db, conv, items[k]) && after < items[k].seqNo
      invariant forall j, k :: 0 <= j < k < |items| ==> items[j].seqNo < items[k].seqNo
      invariant forall id :: IsAfter(db, conv, after, id) ==> db.messages[id] in items || from < db.messages[id].seqNo
    {
      var found := NextUp(db, conv, from);
      if found.None? {
        forall id | IsAfter(db, conv, after, id) ensures db.messages[id] in items {
          assert !IsAfter(db, conv, from, id);
        }
        return;
      }
      var m := db.messages[found.value];
      TakesNext(db, conv, after, from, items, found.value);
      items, from := items + [m], m.seqNo;
    }
    assert forall id :: id in db.messages && db.messages[id].conv == conv && after < db.messages[id].seqNo ==> IsAfter(db, conv, after, id);
  }

  method ListBefore(db: Db, conv: ConvId, before: int, limit: nat) returns (items: seq<Message>)
    requires DistinctRows(db) && 0 < limit
    requires forall id :: id in db.messages ==> 0 < db.messages[id].seqNo
    ensures SelectBefore(db, conv, before, limit, items)
  {
    items := [];
    var from := before;
    while |items| < limit
      invariant |items| <= limit
      invariant if items == [] then from == before else from == items[|items| - 1].seqNo && 0 < from && Below(before, from)
      invariant forall k :: 0 <= k < |items| ==> Stored(db, conv, items[k]) && Below(before, items[k].seqNo)
      invariant forall j, k :: 0 <= j < k < |items| ==> items[k].seqNo < items[j].seqNo
      invariant forall id :: IsBefore(db, conv, before, id) ==> db.messages[id] in items || Below(from, db.messages[id].seqNo)
    {
      var found := NextDown(db, conv, from);
      if found.None? {
        forall id | IsBefore(db, conv, before, id) ensures db.messages[id] in items {
          assert !IsBefore(db, conv, from, id);
        }
        return;
      }
      var m := db.messages[found.value];
      forall id | IsBefore(db, conv, before, id) ensures db.messages[id] in items + [m] || db.messages[id].seqNo < m.seqNo {
        if db.messages[id] !in items {
          assert IsBefore(db, conv, from, id);
          assert SameSlot(db.messages[id], m) ==> id == found.value;
        }
      }
      items, from := items + [m], m.seqNo;
    }
    assert forall id :: id in db.messages && db.messages[id].conv == conv && Below(before, db.messages[id].seqNo) ==> IsBefore(db, conv, before, id);
  }

  /** The loop of listBefore. */
  method FilterVisible(items: seq<Message>, visibleAfter: int) returns (filtered: seq<Message>)
    ensures filtered == Visible(items, visibleAfter)
  {
    filtered := [];
    for i := 0 to |items|
      invariant filtered == Visible(items[..i], visibleAfter)
    {
      assert items[..i + 1][..i] == items[..i];
      if items[i].seqNo > visibleAfter {
        filtered := filtered + [items[i]];
      }
    }
    assert items[..|items|] == items;
  }

  /** What answering a forward query leaves in the store: the end of the page, or the client's cursor when the page is
      empty. */
  ghost predicate Records(was: seq<Advance>, after: seq<Advance>, query: Query, page: Page) {
    after == was + if page.resync then []
                   else if page.items == [] then [Advance(query.conv, query.actor, query.after)]
                   else [Advance(query.conv, query.actor, page.items[|page.items| - 1].seqNo)]
  }

  /** The member may see the message, and the query asks for it. */
  ghost predicate Shown(db: Db, query: Query, member: Member, m: Message) {
    && Stored(db, query.conv, m)
    && m.seqNo > member.joinedSeq && m.seqNo > member.clearBeforeSeq
    && (if query.after > 0 then m.seqNo > query.after else query.before > 0 ==> m.seqNo < query.before)
  }

  /** The first messages that are shown, in the order of the query, as many as the limit allows. */
  ghost predicate PageOf(db: Db, query: Query, member: Member, page: Page) {
    var n := if query.limit <= 0 then 20 else if query.limit > 100 then 100 else query.limit;
    var items := page.items;
    && |items| <= n && (page.hasMore <==> |items| == n)
    && (forall k :: 0 <= k < |items| ==> Shown(db, query, member, items[k]))
    && (forall j, k :: 0 <= j < k < |items| ==> if query.after > 0 then items[j].seqNo < items[k].seqNo else items[k].seqNo < items[j].seqNo)
    && (forall id :: id in db.messages && Shown(db, query, member, db.messages[id]) ==>
          || db.messages[id] in items
          || (page.hasMore && if query.after > 0 then items[n - 1].seqNo < db.messages[id].seqNo else db.messages[id].seqNo < items[n - 1].seqNo))
    && (page.resync <==> query.after > 0 && (query.after < member.joinedSeq || query.after < member.clearBeforeSeq))
    && page.nextAfter == (if query.after > 0 && items != [] then items[|items| - 1].seqNo else 0)
    && page.nextBefore == (if query.after <= 0 && items != [] then items[|items| - 1].seqNo else 0)
  }

  ghost predicate Descends(items: seq<Message>) {
    forall j, k :: 0 <= j < k < |items| ==> items[k].seqNo < items[j].seqNo
  }

  lemma {:induction false} VisibleMembers(items: seq<Message>, bound: int, m: Message)
    ensures m in Visible(items, bound) <==> m in items && m.seqNo > bound
  {
    if items != [] {
      var front, last := items[..|items| - 1], items[|items| - 1];
      assert items == front + [last];
      VisibleMembers(front, bound, m);
    }
  }

  lemma {:induction false} VisibleDescends(items: seq<Message>, bound: int)
    requires Descends(items)
    ensures Descends(Visible(items, bound))
  {
    if items != [] {
      var front, last := items[..|items| - 1], items[|items| - 1];
      VisibleDescends(front, bound);
      forall k | 0 <= k < |Visible(front, bound)| ensures last.seqNo < Visible(front, bound)[k].seqNo {
        VisibleMembers(front, bound, Visible(front, bound)[k]);
      }
    }
  }

  lemma {:induction false} AllVisible(items: seq<Message>, bound: int)
    requires forall k :: 0 <= k < |items| ==> items[k].seqNo > bound
    ensures Visible(items, bound) == items
  {
    if items != [] {
      AllVisible(items[..|items| - 1], bound);
    }
  }

  lemma {:induction false} FewerVisible(items: seq<Message>, bound: int)
    ensures |Visible(items, bound)| <= |items|
  {
    if items != [] {
      FewerVisible(items[..|items| - 1], bound);
    }
  }

  /** The filter leaves out no visible message, although it comes after the limit. */
  lemma FilterKeeps(items: seq<Message>, bound: int, limit: nat, m: Message)
    requires Descends(items) && m.seqNo > bound
    requires m in items || (|items| == limit > 0 && m.seqNo < items[limit - 1].seqNo)
    ensures m in Visible(items, bound) || (|Visible(items, bound)| == limit > 0 && m.seqNo < Visible(items, bound)[limit - 1].seqNo)
  {
    VisibleMembers(items, bound, m);
    if m !in items {
      AllVisible(items, bound);
    }
  }

  /** The page is the exact answer in the direction of the query. */
  ghost predicate Answers(db: Db, query: Query, bound: int, limit: nat, page: Page)
    requires 0 < limit
  {
    if query.after > 0 then ResponseAfter(db, query.conv, query.after, bound, limit, page)
    else ResponseBefore(db, query.conv, query.before, bound, limit, page)
  }

  lemma BackwardAnswer(db: Db, query: Query, member: Member, page: Page, items: seq<Message>)
    requires query.after <= 0 && SelectBefore(db, query.conv, query.before, PageLimit(query.limit), items)
    requires page.items == Visible(items, VisibleAfter(member))
    ensures |page.items| <= PageLimit(query.limit) && Descends(page.items)
    ensures forall k :: 0 <= k < |page.items| ==> Shown(db, query, member, page.items[k])
    ensures forall id :: id in db.messages && Shown(db, query, member, db.messages[id]) ==>
              || db.messages[id] in page.items
              || (|page.items| == PageLimit(query.limit) && db.messages[id].seqNo < page.items[PageLimit(query.limit) - 1].seqNo)
  {
    var bound := VisibleAfter(member);
    FewerVisible(items, bound);
    VisibleDescends(items, bound);
    forall k | 0 <= k < |page.items| ensures Shown(db, query, member, page.items[k]) {
      VisibleMembers(items, bound, page.items[k]);
    }
    forall id | id in db.messages && Shown(db, query, member, db.messages[id])
      ensures || db.messages[id] in page.items
              || (|page.items| == PageLimit(query.limit) && db.messages[id].seqNo < page.items[PageLimit(query.limit) - 1].seqNo)
    {
      FilterKeeps(items, bound, PageLimit(query.limit), db.messages[id]);
    }
  }

  lemma AnswerIsPage(db: Db, query: Query, member: Member, page: Page)
    requires Answers(db, query, VisibleAfter(member), PageLimit(query.limit), page)
    ensures PageOf(db, query, member, page)
  {
    if query.after <= 0 {
      var items :| SelectBefore(db, query.conv, query.before, PageLimit(query.limit), items) && page.items == Visible(items, VisibleAfter(member));
      BackwardAnswer(db, query, member, page, items);
    }
  }

  lemma BackwardResponds(db: Db, conv: ConvId, before: int, bound: int, limit: nat, items: seq<Message>, page: Page)
    requires SelectBefore(db, conv, before, limit, items) && page.items == Visible(items, bound)
    requires page.nextBefore == (if page.items == [] then 0 else page.items[|page.items| - 1].seqNo)
    requires page.nextAfter == 0 && (page.hasMore <==> |page.items| == limit) && !page.resync
    ensures ResponseBefore(db, conv, before, bound, limit, page)
  {
  }

  /** `cursors` may be missing; Redis, which holds it, fails apart from the message tables. */
  class HistoryService {
    const messages: MessageRepository
    const cursors: CursorStore?
    var members: map<(ConvId, UserId), Member>

    ghost predicate Valid()
      reads this, messages, cursors
    {
      messages.Valid() && CursorsOk()
    }

    ghost predicate CursorsOk()
      reads this, cursors
    {
      cursors != null ==> cursors.Valid() && cursors.env != messages.env
    }

    ghost const redis: set<object> := if cursors == null then {} else {cursors, cursors.env}

    constructor (messages: MessageRepository, cursors: CursorStore?, members: map<(ConvId, UserId), Member>)
      requires messages.Valid() && (cursors != null ==> cursors.Valid() && cursors.env != messages.env)
      ensures Valid() && this.messages == messages && this.cursors == cursors && this.members == members
    {
      this.messages, this.cursors, this.members := messages, cursors, members;
    }

    /** The page is the exact answer to the query as the tables stood, whichever way it goes. The server's cursor
        moves to the end of a forward page, or stays at the client's when the page is empty; a resync, a
        backward page, an error and a failed write leave it alone. */
    method ListHistory(query: Query) returns (r: Result<Page, HistoryError>)
      requires Valid()
      modifies redis, messages.env
      ensures CursorsOk()
      ensures r == Err(InvalidArgument) <==> query.before > 0 && query.after > 0
      ensures r == Err(NotMember) <==> !(query.before > 0 && query.after > 0) && (query.conv, query.actor) !in members
      ensures r == Err(Unavailable) <==> messages.env.failures != old(messages.env.failures)
      ensures r.Ok? ==> Answers(messages.db, query, VisibleAfter(members[(query.conv, query.actor)]), PageLimit(query.limit), r.value)
      ensures r.Ok? ==> PageOf(messages.db, query, members[(query.conv, query.actor)], r.value)
      ensures cursors != null ==>
                if r.Ok? && query.after > 0 && cursors.env.failures == old(cursors.env.failures)
                then Records(old(cursors.recorded), cursors.recorded, query, r.value) else cursors.recorded == old(cursors.recorded)
    {
      var limit := query.limit;
      if limit <= 0 {
        limit := 20;
      }
      if limit > 100 {
        limit := 100;
      }
      if query.before > 0 && query.after > 0 {
        return Err(InvalidArgument);
      }
      if (query.conv, query.actor) !in members {
        return Err(NotMember);
      }
      var member := members[(query.conv, query.actor)];
      var visibleAfter := member.joinedSeq;
      if member.clearBeforeSeq > visibleAfter {
        visibleAfter := member.clearBeforeSeq;
      }
      r := QueryPage(query, visibleAfter, limit, member);
    }

    /** Past the checks only MySQL can fail the query. */
    method QueryPage(query: Query, visibleAfter: int, limit: nat, ghost member: Member) returns (r: Result<Page, HistoryError>)
      requires Valid() && limit == PageLimit(query.limit) && visibleAfter == VisibleAfter(member)
      modifies redis, messages.env
      ensures CursorsOk()
      ensures if r.Err? then r == Err(Unavailable) && messages.env.failures != old(messages.env.failures)
              else messages.env.failures == old(messages.env.failures) && PageOf(messages.db, query, member, r.value)
                   && Answers(messages.db, query, visibleAfter, limit, r.value)
      ensures cursors != null ==>
                if r.Ok? && query.after > 0 && cursors.env.failures == old(cursors.env.failures)
                then Records(old(cursors.recorded), cursors.recorded, query, r.value) else cursors.recorded == old(cursors.recorded)
    {
      var failed := messages.env.Fails();
      if failed {
        return Err(Unavailable);
      }
      var page := PageFor(query, visibleAfter, limit);
      AnswerIsPage(messages.db, query, member, page);
      r := Ok(page);
    }

    method PageFor(query: Query, visibleAfter: int, limit: nat) returns (page: Page)
      requires Valid() && 0 < limit
      modifies redis
      ensures CursorsOk() && Answers(messages.db, query, visibleAfter, limit, page)
      ensures cursors != null ==>
                if query.after > 0 && cursors.env.failures == old(cursors.env.failures)
                then Records(old(cursors.recorded), cursors.recorded, query, page) else cursors.recorded == old(cursors.recorded)
    {
      if query.after > 0 {
        page := PageAfter(query, visibleAfter, limit);
      } else {
        page := PageBefore(query, visibleAfter, limit);
      }
    }

    method PageBefore(query: Query, visibleAfter: int, limit: nat) returns (page: Page)
      requires messages.Valid() && 0 < limit
      ensures ResponseBefore(messages.db, query.conv, query.before, visibleAfter, limit, page)
    {
      RowsAreDistinct(messages.db);
      var items := ListBefore(messages.db, query.conv, query.before, limit);
      var filtered := FilterVisible(items, visibleAfter);
      var next := if filtered == [] then 0 else filtered[|filtered| - 1].seqNo;
      page := Page(filtered, next, 0, |filtered| == limit, false);
      BackwardResponds(messages.db, query.conv, query.before, visibleAfter, limit, items, page);
    }

    method PageAfter(query: Query, visibleAfter: int, limit: nat) returns (page: Page)
      requires Valid() && query.after > 0 && 0 < limit
      modifies redis
      ensures CursorsOk() && ResponseAfter(messages.db, query.conv, query.after, visibleAfter, limit, page)
      ensures cursors != null ==>
                if cursors.env.failures == old(cursors.env.failures) then Records(old(cursors.recorded), cursors.recorded, query, page) else cursors.recorded == old(cursors.recorded)
    {
      var resync := query.after < visibleAfter;
      var after := query.after;
      if visibleAfter > after {
        after := visibleAfter;
      }
      RowsAreDistinct(messages.db);
      var items := ListAfter(messages.db, query.conv, after, limit);
      var next := if items == [] then 0 else items[|items| - 1].seqNo;
      page := Page(items, 0, next, |items| == limit, resync);
      RecordCursor(query, page);
    }

    method RecordCursor(query: Query, page: Page)
      requires Valid() && query.after > 0 && page.nextAfter == (if page.items == [] then 0 else page.items[|page.items| - 1].seqNo)
      requires page.items != [] ==> page.nextAfter > 0
      modifies redis
      ensures CursorsOk()
      ensures cursors != null ==>
                if cursors.env.failures == old(cursors.env.failures) then Records(old(cursors.recorded), cursors.recorded, query, page) else cursors.recorded == old(cursors.recorded)
    {
      if cursors == null || page.resync {
        return;
      }
      var synced := page.nextAfter;
      if synced == 0 {
        synced := query.after;
      }
      if synced <= 0 {
        return;
      }
      var failed := cursors.env.Fails();
      if failed {
        return;
      }
      var value := cursors.AdvanceCursor(query.conv, query.actor, synced);
    }
  }
}

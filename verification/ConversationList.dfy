/** The conversation list of one user, page by page, newest first, with an opaque keyset cursor. */
module ConversationList {
  import opened Common
  import opened Cursors

  /** Times are Unix milliseconds, which is what the DATETIME(3) columns hold. */
  datatype Conversation = Conversation(lastMessageAt: Option<int>, createdAt: int, lastSeq: int, readSeq: int)

  /** The user's conversations: those that are open and that the user is a member of. */
  type Rows = map<ConvId, Conversation>

  datatype Item = Item(id: ConvId, conversation: Conversation, unread: int)

  datatype Page = Page(items: seq<Item>, nextCursor: string, hasMore: bool)

  datatype ListError = InvalidArgument | Unavailable

  function OrderTs(c: Conversation): int {
    if c.lastMessageAt.Some? then c.lastMessageAt.value else c.createdAt
  }

  /** ORDER BY COALESCE(last_message_at, created_at) DESC, id DESC */
  predicate Precedes(rows: Rows, a: ConvId, b: ConvId)
    requires a in rows && b in rows
  {
    OrderTs(rows[a]) > OrderTs(rows[b]) || (OrderTs(rows[a]) == OrderTs(rows[b]) && a > b)
  }

  /** The keyset condition, which a cursor without a positive id does not add. */
  predicate Past(rows: Rows, cursorId: int, cursorTs: int, id: ConvId) {
    && id in rows
    && (cursorId > 0 ==> OrderTs(rows[id]) < cursorTs || (OrderTs(rows[id]) == cursorTs && id < cursorId))
  }

  ghost predicate Descending(rows: Rows, ids: seq<ConvId>) {
    && (forall k :: 0 <= k < |ids| ==> ids[k] in rows)
    && (forall j, k :: 0 <= j < k < |ids| ==> Precedes(rows, ids[j], ids[k]))
  }

  ghost predicate Select(rows: Rows, cursorId: int, cursorTs: int, limit: nat, ids: seq<ConvId>) {
    && |ids| <= limit
    && Descending(rows, ids)
    && (forall k :: 0 <= k < |ids| ==> Past(rows, cursorId, cursorTs, ids[k]))
    && (forall id :: Past(rows, cursorId, cursorTs, id) ==>
          id in ids || (|ids| == limit > 0 && Precedes(rows, ids[limit - 1], id)))
  }

  function CursorOf(cursor: string): Option<(int, int)> {
    if cursor == "" then Some((0, 0)) else ParseCursor(cursor)
  }

  function PageLimit(limit: int): (n: nat)
    ensures 1 <= n <= 100
  {
    if limit <= 0 then 20 else if limit > 100 then 100 else limit
  }

  function IdsOf(items: seq<Item>): (ids: seq<ConvId>)
    ensures |ids| == |items| && forall k :: 0 <= k < |items| ==> ids[k] == items[k].id
  {
    seq(|items|, k requires 0 <= k < |items| => items[k].id)
  }

  ghost predicate Storable(rows: Rows) {
    forall id :: id in rows ==> IsInt64(id) && IsInt64(OrderTs(rows[id]))
  }

  /** Each item shows its row, and counts what was not read. */
  ghost predicate Rendered(rows: Rows, items: seq<Item>) {
    forall k :: 0 <= k < |items| ==>
      && items[k].id in rows && items[k].conversation == rows[items[k].id]
      && items[k].unread == Max(0, rows[items[k].id].lastSeq - rows[items[k].id].readSeq)
  }

  /** One more row than asked for tells whether there is a next page; the cursor is that of the last row shown. */
  ghost predicate Response(rows: Rows, cursorId: int, cursorTs: int, limit: nat, page: Page)
    requires Storable(rows)
  {
    var ids := IdsOf(page.items);
    && Rendered(rows, page.items)
    && |ids| <= limit
    && (if page.hasMore
        then |ids| == limit > 0 && SelectMore(rows, cursorId, cursorTs, limit, ids)
             && page.nextCursor == EncodeCursor(ids[limit - 1], OrderTs(rows[ids[limit - 1]]))
        else Select(rows, cursorId, cursorTs, limit + 1, ids) && page.nextCursor == "")
  }

  // ---- Following the cursors ----

  /** A row's cursor goes on right behind the row exactly when its id is positive; any other id starts over. */
  lemma CursorResumesIff(rows: Rows, last: ConvId)
    requires last in rows
    ensures (forall id :: id in rows ==> (Past(rows, last, OrderTs(rows[last]), id) <==> Precedes(rows, last, id))) <==> last > 0
  {
    if last <= 0 {
      assert Past(rows, last, OrderTs(rows[last]), last) && !Precedes(rows, last, last);
    }
  }

  function Collected(pages: seq<Page>): seq<ConvId> {
    if pages == [] then [] else IdsOf(pages[0].items) + Collected(pages[1..])
  }

  /** A client that starts from a cursor and follows NextCursor while HasMore. */
  ghost predicate Walk(rows: Rows, cursor: string, limit: nat, pages: seq<Page>)
    requires Storable(rows)
    decreases |pages|
  {
    && pages != [] && CursorOf(cursor).Some?
    && Response(rows, CursorOf(cursor).value.0, CursorOf(cursor).value.1, limit, pages[0])
    && (pages[0].hasMore <==> |pages| > 1)
    && (|pages| > 1 ==> Walk(rows, pages[0].nextCursor, limit, pages[1..]))
  }

  /** The last row shown stands above the extra one and below the others. */
  lemma LastShown(rows: Rows, ids: seq<ConvId>, extra: ConvId, id: ConvId)
    requires Descending(rows, ids + [extra]) && ids != []
    ensures ids[|ids| - 1] in rows && extra in rows && Precedes(rows, ids[|ids| - 1], extra)
    ensures id in ids ==> id in rows && !Precedes(rows, ids[|ids| - 1], id)
  {
    var all := ids + [extra];
    assert all[|ids|] == extra && all[|ids| - 1] == ids[|ids| - 1];
    if id in ids {
      var k :| 0 <= k < |ids| && ids[k] == id;
      assert all[k] == id;
      assert k < |ids| - 1 ==> Precedes(rows, all[k], all[|ids| - 1]);
    }
  }

  /** A page is the next stretch of the order: what is past it is what its last row precedes. */
  lemma SelectCuts(rows: Rows, cursorId: int, cursorTs: int, ids: seq<ConvId>, extra: ConvId, id: ConvId)
    requires Select(rows, cursorId, cursorTs, |ids| + 1, ids + [extra]) && ids != []
    requires forall k :: k in rows ==> k > 0
    ensures var last := ids[|ids| - 1];
            && Past(rows, cursorId, cursorTs, last)
            && (Past(rows, cursorId, cursorTs, id) && id !in ids <==> Past(rows, last, OrderTs(rows[last]), id))
  {
    var all := ids + [extra];
    assert all[|ids| - 1] == ids[|ids| - 1] && all[|ids|] == extra;
    LastShown(rows, ids, extra, id);
    if Past(rows, cursorId, cursorTs, id) && id !in ids {
      assert id in all ==> id == extra;
      assert id == extra || Precedes(rows, extra, id);
    }
  }

  lemma PageCuts(rows: Rows, cursorId: int, cursorTs: int, limit: nat, page: Page, id: ConvId)
    requires Storable(rows) && Response(rows, cursorId, cursorTs, limit, page) && page.hasMore
    requires forall k :: k in rows ==> k > 0
    ensures var last := page.items[limit - 1].id;
            && Past(rows, cursorId, cursorTs, last)
            && (Past(rows, cursorId, cursorTs, id) && id !in IdsOf(page.items) <==> Past(rows, last, OrderTs(rows[last]), id))
  {
    var ids := IdsOf(page.items);
    var extra :| Select(rows, cursorId, cursorTs, limit + 1, ids + [extra]);
    SelectCuts(rows, cursorId, cursorTs, ids, extra, id);
  }

  /** Over an unchanged set of rows with positive ids, following the cursors shows every row past the starting
      one exactly once, newest first. */
  lemma {:induction false} WalkComplete(rows: Rows, cursor: string, limit: nat, pages: seq<Page>)
    requires Storable(rows) && Walk(rows, cursor, limit, pages)
    requires forall id :: id in rows ==> id > 0
    ensures var from := CursorOf(cursor).value;
            && Descending(rows, Collected(pages))
            && (forall id :: id in Collected(pages) <==> Past(rows, from.0, from.1, id))
    ensures |pages| - 1 <= |Collected(pages)|
    decreases |pages|
  {
    var from := CursorOf(cursor).value;
    var ids := IdsOf(pages[0].items);
    if |pages| == 1 {
      assert pages[1..] == [];
      assert Collected(pages) == ids;
      LastPage(rows, from.0, from.1, limit, pages[0]);
    } else {
      var last := pages[0].items[limit - 1].id;
      PageCuts(rows, from.0, from.1, limit, pages[0], last);
      CursorRoundTrip(last, OrderTs(rows[last]));
      WalkComplete(rows, pages[0].nextCursor, limit, pages[1..]);
      FirstAndRest(rows, from.0, from.1, limit, pages[0], Collected(pages[1..]));
    }
  }

  lemma LastPage(rows: Rows, cursorId: int, cursorTs: int, limit: nat, page: Page)
    requires Storable(rows) && Response(rows, cursorId, cursorTs, limit, page) && !page.hasMore
    ensures Descending(rows, IdsOf(page.items)) && forall id :: id in IdsOf(page.items) <==> Past(rows, cursorId, cursorTs, id)
  {
  }

  lemma FirstAndRest(rows: Rows, cursorId: int, cursorTs: int, limit: nat, page: Page, rest: seq<ConvId>)
    requires Storable(rows) && Response(rows, cursorId, cursorTs, limit, page) && page.hasMore
    requires forall id :: id in rows ==> id > 0
    requires Descending(rows, rest)
    requires var last := page.items[limit - 1].id; forall id :: id in rest <==> Past(rows, last, OrderTs(rows[last]), id)
    ensures Descending(rows, IdsOf(page.items) + rest)
    ensures forall id :: id in IdsOf(page.items) + rest <==> Past(rows, cursorId, cursorTs, id)
  {
    var ids := IdsOf(page.items);
    var extra :| Select(rows, cursorId, cursorTs, limit + 1, ids + [extra]);
    FirstPageDescends(rows, cursorId, cursorTs, limit, ids, extra);
    forall id ensures id in ids + rest <==> Past(rows, cursorId, cursorTs, id) {
      PageCuts(rows, cursorId, cursorTs, limit, page, id);
    }
    var last := ids[limit - 1];
    assert forall k :: 0 <= k < |rest| ==> rest[k] in rest && Past(rows, last, OrderTs(rows[last]), rest[k]);
    Chained(rows, ids, rest);
  }

  lemma FirstPageDescends(rows: Rows, cursorId: int, cursorTs: int, limit: nat, ids: seq<ConvId>, extra: ConvId)
    requires Select(rows, cursorId, cursorTs, limit + 1, ids + [extra])
    ensures Descending(rows, ids) && forall id :: id in ids ==> Past(rows, cursorId, cursorTs, id)
  {
    var all := ids + [extra];
    assert forall k :: 0 <= k < |ids| ==> ids[k] == all[k];
  }

  lemma Chained(rows: Rows, a: seq<ConvId>, b: seq<ConvId>)
    requires Descending(rows, a) && Descending(rows, b) && a != []
    requires forall k :: 0 <= k < |b| ==> Precedes(rows, a[|a| - 1], b[k])
    ensures Descending(rows, a + b)
  {
    forall j, k | 0 <= j < k < |a + b| ensures Precedes(rows, (a + b)[j], (a + b)[k]) {
      if j < |a| <= k {
        assert j < |a| - 1 ==> Precedes(rows, a[j], a[|a| - 1]);
        assert Precedes(rows, a[|a| - 1], b[k - |a|]);
      }
    }
  }

  /** From the empty cursor, that is every row, in a bounded number of pages. */
  lemma ListShowsEveryRowOnce(rows: Rows, limit: nat, pages: seq<Page>)
    requires Storable(rows) && Walk(rows, "", limit, pages)
    requires forall id :: id in rows ==> id > 0
    ensures Descending(rows, Collected(pages)) && (forall id :: id in Collected(pages) <==> id in rows)
    ensures forall j, k :: 0 <= j < k < |Collected(pages)| ==> Collected(pages)[j] != Collected(pages)[k]
    ensures |pages| - 1 <= |rows|
  {
    WalkComplete(rows, "", limit, pages);
    DistinctFits(Collected(pages), rows.Keys);
  }

  lemma {:induction false} DistinctFits(ids: seq<ConvId>, all: set<ConvId>)
    requires forall j, k :: 0 <= j < k < |ids| ==> ids[j] != ids[k]
    requires forall k :: 0 <= k < |ids| ==> ids[k] in all
    ensures |ids| <= |all|
  {
    if ids != [] {
      DistinctFits(ids[1..], all - {ids[0]});
    }
  }

  // ---- The query and the service ----

  /** The row of the query that comes first among those that are past the cursor and not in `taken`. */
  method First(rows: Rows, cursorId: int, cursorTs: int, taken: set<ConvId>) returns (found: Option<ConvId>)
    ensures found.None? ==> forall id :: Past(rows, cursorId, cursorTs, id) ==> id in taken
    ensures found.Some? ==>
              && Past(rows, cursorId, cursorTs, found.value) && found.value !in taken
              && forall id :: Past(rows, cursorId, cursorTs, id) && id !in taken && id != found.value ==> Precedes(rows, found.value, id)
  {
    found := None;
    var todo := rows.Keys;
    while todo != {}
      invariant todo <= rows.Keys
      invariant found.None? ==> forall id :: Past(rows, cursorId, cursorTs, id) && id !in taken ==> id in todo
      invariant found.Some? ==>
                  && Past(rows, cursorId, cursorTs, found.value) && found.value !in taken
                  && forall id :: Past(rows, cursorId, cursorTs, id) && id !in taken && id !in todo && id != found.value ==>
                       Precedes(rows, found.value, id)
      decreases todo
    {
      var id := Pick(todo);
      todo := todo - {id};
      if id !in taken && Past(rows, cursorId, cursorTs, id) {
        if found.None? || Precedes(rows, id, found.value) {
          found := Some(id);
        }
      }
    }
  }

  method ListByUser(rows: Rows, cursorId: int, cursorTs: int, limit: nat) returns (ids: seq<ConvId>)
    requires 0 < limit
    ensures Select(rows, cursorId, cursorTs, limit, ids)
  {
    ids := [];
    var taken: set<ConvId> := {};
    while |ids| < limit
      invariant |ids| <= limit
      invariant forall id :: id in taken <==> id in ids
      invariant Descending(rows, ids)
      invariant forall k :: 0 <= k < |ids| ==> Past(rows, cursorId, cursorTs, ids[k])
      invariant forall id :: Past(rows, cursorId, cursorTs, id) && id !in taken && ids != [] ==> Precedes(rows, ids[|ids| - 1], id)
    {
      var found := First(rows, cursorId, cursorTs, taken);
      if found.None? {
        return;
      }
      assert ids != [] ==> Precedes(rows, ids[|ids| - 1], found.value);
      Appended(rows, ids, found.value);
      ids := ids + [found.value];
      taken := taken + {found.value};
    }
  }

  lemma Appended(rows: Rows, ids: seq<ConvId>, id: ConvId)
    requires Descending(rows, ids) && id in rows && (ids != [] ==> Precedes(rows, ids[|ids| - 1], id))
    ensures Descending(rows, ids + [id])
  {
    if ids != [] {
      Chained(rows, ids, [id]);
    }
  }

  /** The loop of List over the page. */
  method CountUnread(rows: Rows, shown: seq<ConvId>) returns (items: seq<Item>)
    requires forall k :: 0 <= k < |shown| ==> shown[k] in rows
    ensures IdsOf(items) == shown && Rendered(rows, items)
  {
    items := [];
    for i := 0 to |shown|
      invariant |items| == i
      invariant forall k :: 0 <= k < i ==> items[k].id == shown[k]
      invariant Rendered(rows, items)
    {
      var c := rows[shown[i]];
      items := items + [Item(shown[i], c, Max(0, c.lastSeq - c.readSeq))];
    }
  }

  ghost predicate SelectMore(rows: Rows, cursorId: int, cursorTs: int, limit: nat, ids: seq<ConvId>) {
    exists extra :: Select(rows, cursorId, cursorTs, limit + 1, ids + [extra])
  }

  lemma CutShort(rows: Rows, cursorId: int, cursorTs: int, limit: nat, ids: seq<ConvId>)
    requires Select(rows, cursorId, cursorTs, limit + 1, ids) && |ids| == limit + 1
    ensures SelectMore(rows, cursorId, cursorTs, limit, ids[..limit])
  {
    assert ids == ids[..limit] + [ids[limit]];
  }

  lemma CutResponds(rows: Rows, cursorId: int, cursorTs: int, limit: nat, ids: seq<ConvId>, page: Page)
    requires Storable(rows) && Select(rows, cursorId, cursorTs, limit + 1, ids) && 0 < limit
    requires Rendered(rows, page.items) && (page.hasMore <==> |ids| > limit)
    requires IdsOf(page.items) == if page.hasMore then ids[..limit] else ids
    requires page.nextCursor == if page.hasMore then EncodeCursor(ids[limit - 1], OrderTs(rows[ids[limit - 1]])) else ""
    ensures Response(rows, cursorId, cursorTs, limit, page)
  {
    if page.hasMore {
      CutShort(rows, cursorId, cursorTs, limit, ids);
    }
  }

  /** Newer first: by the last message, or the creation of a conversation without one, and then by id. */
  ghost predicate Newer(rows: Rows, a: ConvId, b: ConvId)
    requires a in rows && b in rows
  {
    var ta := if rows[a].lastMessageAt.Some? then rows[a].lastMessageAt.value else rows[a].createdAt;
    var tb := if rows[b].lastMessageAt.Some? then rows[b].lastMessageAt.value else rows[b].createdAt;
    ta > tb || (ta == tb && a > b)
  }

  /** The cursor asks for the row: it is empty, or has no positive id, or names a place above the row. */
  ghost predicate Wanted(rows: Rows, cursor: string, id: ConvId)
    requires id in rows
  {
    var ts := if rows[id].lastMessageAt.Some? then rows[id].lastMessageAt.value else rows[id].createdAt;
    cursor == "" || exists cursorId, cursorTs ::
      ParseCursor(cursor) == Some((cursorId, cursorTs)) && (cursorId <= 0 || ts < cursorTs || (ts == cursorTs && id < cursorId))
  }

  /** The newest rows that the cursor asks for, as many as the limit allows, each with its unread count. */
  ghost predicate PageOf(rows: Rows, cursor: string, limit: int, page: Page) {
    var n := if limit <= 0 then 20 else if limit > 100 then 100 else limit;
    var items := page.items;
    && |items| <= n && (page.hasMore ==> |items| == n)
    && (forall k :: 0 <= k < |items| ==>
          && items[k].id in rows && items[k].conversation == rows[items[k].id] && Wanted(rows, cursor, items[k].id)
          && items[k].unread == if items[k].conversation.lastSeq > items[k].conversation.readSeq
                                then items[k].conversation.lastSeq - items[k].conversation.readSeq else 0)
    && (forall j, k :: 0 <= j < k < |items| ==> Newer(rows, items[j].id, items[k].id))
    && (forall id :: id in rows && Wanted(rows, cursor, id) ==>
          || (exists k :: 0 <= k < |items| && items[k].id == id)
          || (page.hasMore && Newer(rows, items[n - 1].id, id)))
    && (page.hasMore ==> exists id :: id in rows && Wanted(rows, cursor, id) && Newer(rows, items[n - 1].id, id))
  }

  lemma WantedIsPast(rows: Rows, cursor: string, id: ConvId)
    requires id in rows && CursorOf(cursor).Some?
    ensures Wanted(rows, cursor, id) <==> Past(rows, CursorOf(cursor).value.0, CursorOf(cursor).value.1, id)
  {
    if cursor != "" {
      assert ParseCursor(cursor) == Some((CursorOf(cursor).value.0, CursorOf(cursor).value.1));
    }
  }

  lemma NewerIsPrecedes(rows: Rows, a: ConvId, b: ConvId)
    requires a in rows && b in rows
    ensures Newer(rows, a, b) <==> Precedes(rows, a, b)
  {
  }

  /** The rows that a page leaves for later stand below its last one. */
  lemma LeftForLater(rows: Rows, cursorId: int, cursorTs: int, limit: nat, page: Page, id: ConvId)
    requires Storable(rows) && Response(rows, cursorId, cursorTs, limit, page)
    requires Past(rows, cursorId, cursorTs, id) && id !in IdsOf(page.items)
    ensures page.hasMore && Precedes(rows, IdsOf(page.items)[limit - 1], id)
  {
    var ids := IdsOf(page.items);
    if page.hasMore {
      var extra :| Select(rows, cursorId, cursorTs, limit + 1, ids + [extra]);
      assert (ids + [extra])[limit] == extra && (ids + [extra])[limit - 1] == ids[limit - 1];
    }
  }

  /** The rows that the query returned: those shown and, if there is more, the extra one. */
  lemma RowsRead(rows: Rows, cursorId: int, cursorTs: int, limit: nat, page: Page) returns (all: seq<ConvId>)
    requires Storable(rows) && Response(rows, cursorId, cursorTs, limit, page)
    ensures IdsOf(page.items) <= all && Descending(rows, all) && forall k :: 0 <= k < |all| ==> Past(rows, cursorId, cursorTs, all[k])
    ensures page.hasMore ==> |all| == |page.items| + 1 == limit + 1 > 1
  {
    all := IdsOf(page.items);
    if page.hasMore {
      var extra :| Select(rows, cursorId, cursorTs, limit + 1, all + [extra]);
      all := all + [extra];
    }
  }

  lemma ItemsShown(rows: Rows, cursor: string, limit: nat, page: Page)
    requires Storable(rows) && CursorOf(cursor).Some?
    requires Response(rows, CursorOf(cursor).value.0, CursorOf(cursor).value.1, limit, page)
    ensures forall k :: 0 <= k < |page.items| ==> page.items[k].id in rows && Wanted(rows, cursor, page.items[k].id)
    ensures forall j, k :: 0 <= j < k < |page.items| ==> Newer(rows, page.items[j].id, page.items[k].id)
    ensures page.hasMore ==> exists id :: id in rows && Wanted(rows, cursor, id) && Newer(rows, page.items[limit - 1].id, id)
  {
    var all := RowsRead(rows, CursorOf(cursor).value.0, CursorOf(cursor).value.1, limit, page);
    forall k | 0 <= k < |all| ensures all[k] in rows && Wanted(rows, cursor, all[k]) {
      WantedIsPast(rows, cursor, all[k]);
    }
    forall j, k | 0 <= j < k < |all| ensures Newer(rows, all[j], all[k]) {
      NewerIsPrecedes(rows, all[j], all[k]);
    }
    assert forall k :: 0 <= k < |page.items| ==> page.items[k].id == all[k];
    if page.hasMore {
      assert Newer(rows, all[limit - 1], all[limit]);
    }
  }

  lemma ResponseIsPage(rows: Rows, cursor: string, limit: int, page: Page)
    requires Storable(rows) && CursorOf(cursor).Some?
    requires Response(rows, CursorOf(cursor).value.0, CursorOf(cursor).value.1, PageLimit(limit), page)
    ensures PageOf(rows, cursor, limit, page)
  {
    ItemsShown(rows, cursor, PageLimit(limit), page);
    var ids := IdsOf(page.items);
    forall id | id in rows && Wanted(rows, cursor, id)
      ensures (exists k :: 0 <= k < |page.items| && page.items[k].id == id) || (page.hasMore && Newer(rows, page.items[PageLimit(limit) - 1].id, id))
    {
      WantedIsPast(rows, cursor, id);
      if id in ids {
        var k :| 0 <= k < |ids| && ids[k] == id;
        assert page.items[k].id == id;
      } else {
        LeftForLater(rows, CursorOf(cursor).value.0, CursorOf(cursor).value.1, PageLimit(limit), page, id);
        NewerIsPrecedes(rows, ids[PageLimit(limit) - 1], id);
      }
    }
  }

  lemma CursorReads(rows: Rows, cursorId: int, cursorTs: int, limit: nat, page: Page)
    requires Storable(rows) && Response(rows, cursorId, cursorTs, limit, page) && page.hasMore
    ensures page.items != []
    ensures var last := page.items[|page.items| - 1];
            && last.id in rows && last.conversation == rows[last.id]
            && ParseCursor(page.nextCursor)
               == Some((last.id, if last.conversation.lastMessageAt.Some? then last.conversation.lastMessageAt.value else last.conversation.createdAt))
  {
    var id := IdsOf(page.items)[limit - 1];
    CursorRoundTrip(id, OrderTs(rows[id]));
  }

  class ConversationService {
    const env: Environment
    var rows: Rows

    constructor (env: Environment, rows: Rows)
      ensures this.env == env && this.rows == rows
    {
      this.env, this.rows := env, rows;
    }

    /** List. Any cursor that is not empty and does not parse is refused; otherwise the page is the exact answer. */
    method List(cursor: string, limit: int) returns (r: Result<Page, ListError>)
      requires Storable(rows)
      modifies env
      ensures r == Err(InvalidArgument) <==> cursor != "" && ParseCursor(cursor).None?
      ensures r == Err(Unavailable) <==> env.failures != old(env.failures)
      ensures r.Ok? ==> PageOf(rows, cursor, limit, r.value)
      ensures r.Ok? ==>
                if r.value.hasMore
                then
                  var last := r.value.items[|r.value.items| - 1];
                  ParseCursor(r.value.nextCursor)
                  == Some((last.id, if last.conversation.lastMessageAt.Some? then last.conversation.lastMessageAt.value else last.conversation.createdAt))
                else r.value.nextCursor == ""
      ensures r.Ok? ==> Response(rows, CursorOf(cursor).value.0, CursorOf(cursor).value.1, PageLimit(limit), r.value)
    {
      var n := limit;
      if n <= 0 {
        n := 20;
      }
      if n > 100 {
        n := 100;
      }
      var cursorId, cursorTs := 0, 0;
      if cursor != "" {
        var parsed := ParseCursor(cursor);
        if parsed.None? {
          return Err(InvalidArgument);
        }
        cursorId, cursorTs := parsed.value.0, parsed.value.1;
      }
      var failed := env.Fails();
      if failed {
        return Err(Unavailable);
      }
      var ids := ListByUser(rows, cursorId, cursorTs, n + 1);
      var page := Cut(ids, cursorId, cursorTs, n);
      ResponseIsPage(rows, cursor, limit, page);
      if page.hasMore {
        CursorReads(rows, cursorId, cursorTs, n, page);
      }
      r := Ok(page);
    }

    /** Drop the extra row, and print the cursor of the last row shown. */
    method Cut(ids: seq<ConvId>, ghost cursorId: int, ghost cursorTs: int, limit: nat) returns (page: Page)
      requires Storable(rows) && Select(rows, cursorId, cursorTs, limit + 1, ids) && 0 < limit
      ensures Response(rows, cursorId, cursorTs, limit, page)
    {
      var hasMore := |ids| > limit;
      var shown := if hasMore then ids[..limit] else ids;
      var next := NextCursor(shown, hasMore);
      var items := CountUnread(rows, shown);
      page := Page(items, next, hasMore);
      CutResponds(rows, cursorId, cursorTs, limit, ids, page);
    }

    method NextCursor(shown: seq<ConvId>, hasMore: bool) returns (next: string)
      requires Storable(rows) && forall k :: 0 <= k < |shown| ==> shown[k] in rows
      ensures next == if hasMore && |shown| > 0 then EncodeCursor(shown[|shown| - 1], OrderTs(rows[shown[|shown| - 1]])) else ""
    {
      next := "";
      if hasMore && |shown| > 0 {
        var last := shown[|shown| - 1];
        next := EncodeCursor(last, OrderTs(rows[last]));
      }
    }
  }
}

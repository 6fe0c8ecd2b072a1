/**
 MessageService.ListMessages and what a client gets by following next_cursor over a fixed
 table. A cursor is a whole second, so a page that ends inside a second cuts it.
 */
module CursorPaging {
  import opened Listing
  import opened Wrappers

  const SECOND: int := 1_000_000

  /** A timestamp as the cursor text renders it: without fractional seconds. */
  function Floor(t: int): int {
    t - t % SECOND
  }

  datatype Cursor = NoCursor | Unparseable | At(time: int)

  datatype Tenant = AnyTenant | Only(id: nat)

  datatype Page = Page(data: seq<MessageRow>, nextCursor: Cursor, hasMore: bool)

  datatype Response = Ok(page: Page) | QueryFailed

  predicate Matches(r: MessageRow, tenant: Tenant, cursor: Cursor) {
    && (tenant.Only? ==> r.tenant == tenant.id)
    && (cursor.At? ==> r.createdAt < cursor.time)
  }

  function Filter(table: set<MessageRow>, tenant: Tenant, cursor: Cursor): set<MessageRow> {
    set r | r in table && Matches(r, tenant, cursor)
  }

  function ClampLimit(limit: int): nat {
    if limit <= 0 then 20 else if limit > 100 then 100 else limit
  }

  function NextCursor(data: seq<MessageRow>): Cursor {
    if data == [] then NoCursor else At(Floor(data[|data| - 1].createdAt))
  }

  /** p is a correct page of at most limit rows of S, with has_more exact. */
  ghost predicate IsPage(S: set<MessageRow>, limit: nat, p: Page) {
    && TopRows(S, limit, p.data)
    && p.nextCursor == NextCursor(p.data)
    && (p.hasMore <==> |S| > limit)
  }

  lemma UnparseableIsNone(table: set<MessageRow>, tenant: Tenant, cursor: Cursor, used: Cursor)
    requires used == if cursor.At? then cursor else NoCursor
    ensures Filter(table, tenant, used) == Filter(table, tenant, cursor)
  {
  }

  lemma MoreMeansOmitted(S: set<MessageRow>, limit: nat, p: Page) returns (r: MessageRow)
    requires IsPage(S, limit, p) && p.hasMore
    ensures r in S && r !in p.data
  {
    SetOfSize(p.data);
    if S <= SetOf(p.data) {
      SubsetSize(S, SetOf(p.data));
      assert false;
    }
    r :| r in S && r !in SetOf(p.data);
    assert r in p.data ==> r in SetOf(p.data);
  }

  /** Every row shown is in the table, of the tenant asked for and older than the cursor. */
  lemma PageShowsOnly(table: set<MessageRow>, tenant: Tenant, cursor: Cursor, limit: nat, p: Page)
    requires IsPage(Filter(table, tenant, cursor), limit, p)
    ensures forall r :: r in p.data ==>
              r in table && (tenant.Only? ==> r.tenant == tenant.id) && (cursor.At? ==> r.createdAt < cursor.time)
    ensures forall i, j :: 0 <= i < j < |p.data| ==>
              && p.data[i] != p.data[j]
              && (p.data[i].createdAt > p.data[j].createdAt
                  || (p.data[i].createdAt == p.data[j].createdAt && p.data[i].id >= p.data[j].id))
  {
    forall i, j | 0 <= i < j < |p.data|
      ensures p.data[i].createdAt > p.data[j].createdAt
              || (p.data[i].createdAt == p.data[j].createdAt && p.data[i].id >= p.data[j].id)
    {
      assert !Before(p.data[j], p.data[i]);
    }
  }

  /** Every such row that is not shown comes after all that are, and there is one exactly if
      has_more says so; the page is then full. */
  lemma PageShowsAll(table: set<MessageRow>, tenant: Tenant, cursor: Cursor, limit: nat, p: Page)
    requires IsPage(Filter(table, tenant, cursor), limit, p)
    ensures forall r, x ::
              x in p.data && r !in p.data && r in table
              && (tenant.Only? ==> r.tenant == tenant.id) && (cursor.At? ==> r.createdAt < cursor.time)
              ==> x.createdAt > r.createdAt || (x.createdAt == r.createdAt && x.id >= r.id)
    ensures p.hasMore <==>
              exists r :: r in table && r !in p.data
                          && (tenant.Only? ==> r.tenant == tenant.id) && (cursor.At? ==> r.createdAt < cursor.time)
    ensures |p.data| <= limit && (p.hasMore ==> |p.data| == limit)
  {
    var S := Filter(table, tenant, cursor);
    forall r, x | x in p.data && r in S && r !in p.data
      ensures x.createdAt > r.createdAt || (x.createdAt == r.createdAt && x.id >= r.id)
    {
      var i :| 0 <= i < |p.data| && p.data[i] == x;
      assert !Before(r, p.data[i]);
    }
    if p.hasMore {
      var r := MoreMeansOmitted(S, limit, p);
    } else {
      ListingCovers(S, p.data);
    }
  }

  /** The cursor is the whole second of the last row. */
  lemma CursorIsASecond(S: set<MessageRow>, limit: nat, p: Page)
    requires IsPage(S, limit, p)
    ensures p.data == [] ==> p.nextCursor == NoCursor
    ensures p.data != [] ==> p.nextCursor.At? && p.nextCursor.time % 1_000_000 == 0
                             && p.nextCursor.time <= p.data[|p.data| - 1].createdAt < p.nextCursor.time + 1_000_000
  {
  }

  lemma TopRowsSize(S: set<MessageRow>, n: nat, rs: seq<MessageRow>)
    requires TopRows(S, n, rs)
    ensures |rs| == Min(n, |S|)
  {
  }

  /** The end of ListMessages: one row more than the limit was asked for, to see if there is one. */
  method Trim(ghost S: set<MessageRow>, limit: nat, rows: seq<MessageRow>) returns (p: Page)
    requires TopRows(S, limit + 1, rows)
    ensures IsPage(S, limit, p)
  {
    hide TopRows;
    TopRowsSize(S, limit + 1, rows);
    TopRowsPrefix(S, limit + 1, limit, rows);
    var messages := rows;
    var hasMore := |messages| > limit;
    if hasMore {
      messages := messages[..limit];
    }
    assert messages == rows[..Min(limit, |rows|)];
    var nextCursor := NoCursor;
    if |messages| > 0 {
      nextCursor := At(Floor(messages[|messages| - 1].createdAt));
    }
    return Page(messages, nextCursor, hasMore);
  }

  method ListMessages(table: set<MessageRow>, tenant: Tenant, cursor: Cursor, limit: int, queryOk: bool, scanOk: nat -> bool)
    returns (resp: Response)
    ensures resp.Ok? <==> queryOk && forall i: nat :: i < Min(ClampLimit(limit) + 1, |Filter(table, tenant, cursor)|) ==> scanOk(i)
    ensures resp.Ok? ==> IsPage(Filter(table, tenant, cursor), ClampLimit(limit), resp.page)
    ensures resp.Ok? ==> forall r :: r in resp.page.data ==>
              r in table && (tenant.Only? ==> r.tenant == tenant.id) && (cursor.At? ==> r.createdAt < cursor.time)
    ensures resp.Ok? ==>
              (resp.page.hasMore <==>
                 exists r :: r in table && r !in resp.page.data
                             && (tenant.Only? ==> r.tenant == tenant.id) && (cursor.At? ==> r.createdAt < cursor.time))
    ensures resp.Ok? ==> var size := if limit <= 0 then 20 else if limit > 100 then 100 else limit;
              |resp.page.data| <= size && (resp.page.hasMore ==> |resp.page.data| == size)
    ensures resp.Ok? ==>
              forall i, j :: 0 <= i < j < |resp.page.data| ==>
                && resp.page.data[i] != resp.page.data[j]
                && (resp.page.data[i].createdAt > resp.page.data[j].createdAt
                    || (resp.page.data[i].createdAt == resp.page.data[j].createdAt
                        && resp.page.data[i].id >= resp.page.data[j].id))
    ensures resp.Ok? ==>
              forall r, x ::
                x in resp.page.data && r !in resp.page.data && r in table
                && (tenant.Only? ==> r.tenant == tenant.id) && (cursor.At? ==> r.createdAt < cursor.time)
                ==> x.createdAt > r.createdAt || (x.createdAt == r.createdAt && x.id >= r.id)
    ensures resp.Ok? && resp.page.data == [] ==> resp.page.nextCursor == NoCursor
    ensures resp.Ok? && resp.page.data != [] ==>
              && resp.page.nextCursor.At? && resp.page.nextCursor.time % 1_000_000 == 0
              && resp.page.nextCursor.time <= resp.page.data[|resp.page.data| - 1].createdAt < resp.page.nextCursor.time + 1_000_000
  {
    hide TopRows;
    hide IsPage;
    hide Filter;
    hide Floor;
    hide Matches;
    var lim := limit;
    if lim <= 0 {
      lim := 20;
    }
    if lim > 100 {
      lim := 100;
    }
    var cursorTime: Cursor := NoCursor;
    if cursor.At? {
      cursorTime := cursor;
    }
    UnparseableIsNone(table, tenant, cursor, cursorTime);
    if !queryOk {
      return QueryFailed;
    }
    var rows := Query(Filter(table, tenant, cursorTime), lim + 1);
    TopRowsSize(Filter(table, tenant, cursor), lim + 1, rows);
    var messages := [];
    for i := 0 to |rows|
      invariant messages == rows[..i]
      invariant forall j: nat :: j < i ==> scanOk(j)
    {
      if !scanOk(i) {
        return QueryFailed;
      }
      messages := messages + [rows[i]];
    }
    assert messages == rows;
    var page := Trim(Filter(table, tenant, cursor), lim, messages);
    resp := Ok(page);
    PageShowsOnly(table, tenant, cursor, lim, resp.page);
    PageShowsAll(table, tenant, cursor, lim, resp.page);
    CursorIsASecond(Filter(table, tenant, cursor), lim, resp.page);
  }

  /** Rows of other tenants never affect what a tenant is answered. */
  lemma OtherTenantsDoNotMatter(table: set<MessageRow>, other: set<MessageRow>, t: nat, cursor: Cursor, limit: nat, p: Page)
    requires forall r: MessageRow :: r.tenant == t ==> (r in table <==> r in other)
    ensures IsPage(Filter(table, Only(t), cursor), limit, p) <==> IsPage(Filter(other, Only(t), cursor), limit, p)
  {
    assert Filter(table, Only(t), cursor) == Filter(other, Only(t), cursor);
  }

  // ------------------------------------------------------------------------------- walks

  /** The pages a client receives by following next_cursor until has_more is false. */
  ghost predicate IsWalk(table: set<MessageRow>, tenant: Tenant, cursor: Cursor, limit: nat, pages: seq<Page>)
    decreases |pages|
  {
    && pages != []
    && IsPage(Filter(table, tenant, cursor), limit, pages[0])
    && if pages[0].hasMore then IsWalk(table, tenant, pages[0].nextCursor, limit, pages[1..]) else |pages| == 1
  }

  function Rows(pages: seq<Page>): seq<MessageRow> {
    if pages == [] then [] else pages[0].data + Rows(pages[1..])
  }

  /** The last row of a page that has more. */
  function Last(p: Page): MessageRow
    requires p.data != []
  {
    p.data[|p.data| - 1]
  }

  lemma FloorBounds(t: int)
    ensures Floor(t) <= t < Floor(t) + SECOND
  {
  }

  /** The next page's rows are the current page's candidates older than the cut second; all
      rows already returned are in that second or newer. */
  lemma NextFilter(table: set<MessageRow>, tenant: Tenant, cursor: Cursor, limit: nat, p: Page)
    requires limit >= 1 && IsPage(Filter(table, tenant, cursor), limit, p) && p.hasMore
    ensures p.data != [] && |p.data| == limit
    ensures p.nextCursor == At(Floor(Last(p).createdAt))
    ensures forall r :: r in Filter(table, tenant, p.nextCursor) <==>
              r in Filter(table, tenant, cursor) && r.createdAt < Floor(Last(p).createdAt)
    ensures forall r :: r in p.data ==> r.createdAt >= Last(p).createdAt >= Floor(Last(p).createdAt)
    ensures |Filter(table, tenant, p.nextCursor)| < |Filter(table, tenant, cursor)|
  {
    FloorBounds(Last(p).createdAt);
    assert Last(p) in Filter(table, tenant, cursor);
    var S, S' := Filter(table, tenant, cursor), Filter(table, tenant, p.nextCursor);
    assert S' <= S - {Last(p)};
    SubsetSize(S', S - {Last(p)});
  }

  /** A client's walk, with any limit the service accepts. It ends because the cursor strictly
      decreases past returned rows. */
  method FollowFrom(table: set<MessageRow>, tenant: Tenant, cursor: Cursor, limit: int) returns (pages: seq<Page>)
    ensures IsWalk(table, tenant, cursor, ClampLimit(limit), pages)
    ensures forall i :: 0 <= i < |Rows(pages)| ==>
              var r := Rows(pages)[i];
              r in table && (tenant.Only? ==> r.tenant == tenant.id) && (cursor.At? ==> r.createdAt < cursor.time)
    ensures forall k :: 0 <= k < |pages| - 1 ==>
              |pages[k].data| == if limit <= 0 then 20 else if limit > 100 then 100 else limit
    decreases |Filter(table, tenant, cursor)|
  {
    hide TopRows;
    hide Filter;
    hide Floor;
    hide NextCursor;
    var resp := ListMessages(table, tenant, cursor, limit, true, i => true);
    pages := [resp.page];
    if resp.page.hasMore {
      NextFilter(table, tenant, cursor, ClampLimit(limit), resp.page);
      var rest := FollowFrom(table, tenant, resp.page.nextCursor, limit);
      pages := pages + rest;
      assert pages[1..] == rest;
      assert forall k :: 1 <= k < |pages| ==> pages[k] == rest[k - 1];
    }
    WalkSafety(table, tenant, cursor, ClampLimit(limit), pages);
  }

  // ------------------------------------------------------------------------------ safety

  lemma OrderedConcat(A: seq<MessageRow>, B: seq<MessageRow>)
    requires Ordered(A) && Ordered(B)
    requires forall i, j :: 0 <= i < |A| && 0 <= j < |B| ==> A[i].createdAt > B[j].createdAt
    ensures Ordered(A + B)
  {
  }

  /** Over a fixed table the concatenated pages are in listing order without duplicates,
      every row matches the filter, and the walk has at most one page more than there
      are matching rows. */
  lemma {:induction false} WalkSafety(table: set<MessageRow>, tenant: Tenant, cursor: Cursor, limit: nat, pages: seq<Page>)
    requires limit >= 1 && IsWalk(table, tenant, cursor, limit, pages)
    ensures Ordered(Rows(pages))
    ensures forall i :: 0 <= i < |Rows(pages)| ==> Rows(pages)[i] in Filter(table, tenant, cursor)
    ensures forall i :: 0 <= i < |Rows(pages)| ==>
              var r := Rows(pages)[i];
              r in table && (tenant.Only? ==> r.tenant == tenant.id) && (cursor.At? ==> r.createdAt < cursor.time)
    ensures |pages| <= |Filter(table, tenant, cursor)| + 1
    decreases |pages|
  {
    hide Ordered;
    hide Floor;
    var p := pages[0];
    if p.hasMore {
      NextFilter(table, tenant, cursor, limit, p);
      WalkSafety(table, tenant, p.nextCursor, limit, pages[1..]);
      var A, B := p.data, Rows(pages[1..]);
      forall i, j | 0 <= i < |A| && 0 <= j < |B|
        ensures A[i].createdAt > B[j].createdAt
      {
        assert A[i] in A && B[j] in Filter(table, tenant, p.nextCursor);
      }
      OrderedConcat(A, B);
      assert Rows(pages) == A + B;
    } else {
      assert pages[1..] == [];
      assert Rows(pages) == p.data;
    }
  }

  ghost predicate Descending(rs: seq<MessageRow>) {
    forall i, j :: 0 <= i < j < |rs| ==> Before(rs[i], rs[j])
  }

  ghost predicate UniqueIds(table: set<MessageRow>, tenant: Tenant) {
    forall a, b :: a in Filter(table, tenant, NoCursor) && b in Filter(table, tenant, NoCursor) && a.id == b.id ==> a == b
  }

  ghost predicate PrimaryKey(table: set<MessageRow>) {
    forall a, b :: a in table && b in table && a.id == b.id && a.tenant == b.tenant ==> a == b
  }

  /** Within one tenant the primary key makes ids unique. */
  lemma TenantIdsUnique(table: set<MessageRow>, t: nat)
    requires PrimaryKey(table)
    ensures UniqueIds(table, Only(t))
  {
  }

  ghost predicate Subsequence(xs: seq<MessageRow>, ys: seq<MessageRow>)
    decreases |ys|
  {
    if xs == [] then true
    else if ys == [] then false
    else if xs[0] == ys[0] then Subsequence(xs[1..], ys[1..])
    else Subsequence(xs, ys[1..])
  }

  lemma {:induction false} DescendingSubsequence(xs: seq<MessageRow>, ys: seq<MessageRow>)
    requires Descending(xs) && Descending(ys)
    requires forall i :: 0 <= i < |xs| ==> xs[i] in ys
    ensures Subsequence(xs, ys)
    decreases |ys|
  {
    if xs != [] {
      assert xs[0] in ys;
      if xs[0] == ys[0] {
        forall i | 0 <= i < |xs[1..]| ensures xs[1..][i] in ys[1..] {
          assert xs[i + 1] in ys && Before(xs[0], xs[i + 1]);
        }
        DescendingSubsequence(xs[1..], ys[1..]);
      } else {
        forall i | 0 <= i < |xs| ensures xs[i] in ys[1..] {
          assert xs[i] in ys && xs[0] in ys;
          var j :| 0 <= j < |ys| && ys[j] == xs[0];
          assert Before(ys[0], ys[j]);
        }
        DescendingSubsequence(xs, ys[1..]);
      }
    }
  }

  /** Where ids are unique the pages are strictly descending in (created_at, id) and form a
      subsequence of the full listing. */
  lemma WalkIsSubsequence(table: set<MessageRow>, tenant: Tenant, limit: nat, pages: seq<Page>, L: seq<MessageRow>)
    requires limit >= 1 && IsWalk(table, tenant, NoCursor, limit, pages)
    requires UniqueIds(table, tenant) && IsListing(Filter(table, tenant, NoCursor), L)
    ensures Descending(Rows(pages))
    ensures Subsequence(Rows(pages), L)
  {
    WalkSafety(table, tenant, NoCursor, limit, pages);
    ListingCovers(Filter(table, tenant, NoCursor), L);
    DescendingSubsequence(Rows(pages), L);
  }

  /** Within one tenant the primary key is enough for that. */
  lemma TenantWalkIsSubsequence(table: set<MessageRow>, t: nat, limit: nat, pages: seq<Page>, L: seq<MessageRow>)
    requires limit >= 1 && IsWalk(table, Only(t), NoCursor, limit, pages)
    requires PrimaryKey(table) && IsListing(Filter(table, Only(t), NoCursor), L)
    ensures Descending(Rows(pages))
    ensures Subsequence(Rows(pages), L)
    ensures forall r :: r in L <==> r in table && r.tenant == t
  {
    ListingCovers(Filter(table, Only(t), NoCursor), L);
    TenantIdsUnique(table, t);
    WalkIsSubsequence(table, Only(t), limit, pages, L);
  }

  // ------------------------------------------------------------- exactly what is omitted

  function CursorAt(cursor: Cursor, pages: seq<Page>, k: nat): Cursor
    requires k <= |pages|
  {
    if k == 0 then cursor else pages[k - 1].nextCursor
  }

  /** Page k has more rows and r is one of them, but falls into the second its cursor cuts. */
  ghost predicate CutAt(table: set<MessageRow>, tenant: Tenant, cursor: Cursor, pages: seq<Page>, k: nat, r: MessageRow) {
    && k < |pages| && pages[k].hasMore && pages[k].data != []
    && r in Filter(table, tenant, CursorAt(cursor, pages, k)) && r !in pages[k].data
    && r.createdAt >= Floor(Last(pages[k]).createdAt)
  }

  /** A cut row is no newer than the page's last row and in the same second. */
  lemma CutIsSameSecond(table: set<MessageRow>, tenant: Tenant, cursor: Cursor, limit: nat, pages: seq<Page>, k: nat, r: MessageRow)
    requires CutAt(table, tenant, cursor, pages, k, r)
    requires IsPage(Filter(table, tenant, CursorAt(cursor, pages, k)), limit, pages[k])
    ensures r.createdAt <= Last(pages[k]).createdAt
    ensures Floor(r.createdAt) == Floor(Last(pages[k]).createdAt)
  {
    assert !Before(r, Last(pages[k]));
    FloorBounds(r.createdAt);
    FloorBounds(Last(pages[k]).createdAt);
    var q, q' := r.createdAt / SECOND, Last(pages[k]).createdAt / SECOND;
    assert Floor(r.createdAt) == q * SECOND && Floor(Last(pages[k]).createdAt) == q' * SECOND;
  }

  /** Some page of the walk cuts r off. */
  ghost predicate CutOff(table: set<MessageRow>, tenant: Tenant, cursor: Cursor, pages: seq<Page>, r: MessageRow) {
    exists k: nat :: CutAt(table, tenant, cursor, pages, k, r)
  }

  lemma CutAtTail(table: set<MessageRow>, tenant: Tenant, cursor: Cursor, pages: seq<Page>, k: nat, r: MessageRow)
    requires pages != []
    ensures CutAt(table, tenant, cursor, pages, k + 1, r) <==> CutAt(table, tenant, pages[0].nextCursor, pages[1..], k, r)
  {
    if k + 1 < |pages| {
      assert pages[1..][k] == pages[k + 1];
      assert CursorAt(cursor, pages, k + 1) == CursorAt(pages[0].nextCursor, pages[1..], k);
    }
  }

  lemma CutOffUnfold(table: set<MessageRow>, tenant: Tenant, cursor: Cursor, pages: seq<Page>, r: MessageRow)
    requires pages != []
    ensures CutOff(table, tenant, cursor, pages, r) <==>
              CutAt(table, tenant, cursor, pages, 0, r) || CutOff(table, tenant, pages[0].nextCursor, pages[1..], r)
  {
    if CutOff(table, tenant, cursor, pages, r) {
      var k: nat :| CutAt(table, tenant, cursor, pages, k, r);
      if k > 0 {
        CutAtTail(table, tenant, cursor, pages, k - 1, r);
      }
    }
    if CutOff(table, tenant, pages[0].nextCursor, pages[1..], r) {
      var k: nat :| CutAt(table, tenant, pages[0].nextCursor, pages[1..], k, r);
      CutAtTail(table, tenant, cursor, pages, k, r);
    }
  }

  lemma {:induction false} CutOffMatches(table: set<MessageRow>, tenant: Tenant, cursor: Cursor, limit: nat, pages: seq<Page>, r: MessageRow)
    requires limit >= 1 && IsWalk(table, tenant, cursor, limit, pages) && CutOff(table, tenant, cursor, pages, r)
    ensures r in Filter(table, tenant, cursor)
    decreases |pages|
  {
    CutOffUnfold(table, tenant, cursor, pages, r);
    if !CutAt(table, tenant, cursor, pages, 0, r) {
      NextFilter(table, tenant, cursor, limit, pages[0]);
      CutOffMatches(table, tenant, pages[0].nextCursor, limit, pages[1..], r);
    }
  }

  /** A matching row is never returned, by any page, if and only if some page cut it off. */
  lemma {:induction false} OmittedExactly(table: set<MessageRow>, tenant: Tenant, cursor: Cursor, limit: nat, pages: seq<Page>, r: MessageRow)
    requires limit >= 1 && IsWalk(table, tenant, cursor, limit, pages)
    requires r in Filter(table, tenant, cursor)
    ensures r !in Rows(pages) <==> CutOff(table, tenant, cursor, pages, r)
    decreases |pages|
  {
    var p, rest := pages[0], pages[1..];
    CutOffUnfold(table, tenant, cursor, pages, r);
    if p.hasMore {
      NextFilter(table, tenant, cursor, limit, p);
      if r in Filter(table, tenant, p.nextCursor) {
        OmittedExactly(table, tenant, p.nextCursor, limit, rest, r);
      } else {
        RowsMatch(table, tenant, p.nextCursor, limit, rest, r);
        if CutOff(table, tenant, p.nextCursor, rest, r) {
          CutOffMatches(table, tenant, p.nextCursor, limit, rest, r);
        }
      }
    } else {
      assert rest == [] && Rows(pages) == p.data;
      ListingCovers(Filter(table, tenant, cursor), p.data);
    }
  }

  lemma RowsMatch(table: set<MessageRow>, tenant: Tenant, cursor: Cursor, limit: nat, pages: seq<Page>, r: MessageRow)
    requires limit >= 1 && IsWalk(table, tenant, cursor, limit, pages)
    ensures r in Rows(pages) ==> r in Filter(table, tenant, cursor)
  {
    WalkSafety(table, tenant, cursor, limit, pages);
  }

  lemma {:induction false} PageAt(table: set<MessageRow>, tenant: Tenant, cursor: Cursor, limit: nat, pages: seq<Page>, k: nat)
    requires IsWalk(table, tenant, cursor, limit, pages) && k < |pages|
    ensures IsPage(Filter(table, tenant, CursorAt(cursor, pages, k)), limit, pages[k])
    decreases k
  {
    hide IsPage;
    if k > 0 {
      PageAt(table, tenant, pages[0].nextCursor, limit, pages[1..], k - 1);
      assert pages[1..][k - 1] == pages[k];
      assert CursorAt(pages[0].nextCursor, pages[1..], k - 1) == CursorAt(cursor, pages, k);
    }
  }

  /** Only rows of the second in which some page ended can be omitted, and none newer than it. */
  lemma OmittedShareASecond(table: set<MessageRow>, tenant: Tenant, cursor: Cursor, limit: nat, pages: seq<Page>, r: MessageRow)
    returns (k: nat)
    requires limit >= 1 && IsWalk(table, tenant, cursor, limit, pages)
    requires r in Filter(table, tenant, cursor) && r !in Rows(pages)
    ensures k < |pages| && pages[k].hasMore && pages[k].data != []
    ensures r.createdAt <= Last(pages[k]).createdAt && Floor(r.createdAt) == Floor(Last(pages[k]).createdAt)
  {
    OmittedExactly(table, tenant, cursor, limit, pages, r);
    k :| CutAt(table, tenant, cursor, pages, k, r);
    PageAt(table, tenant, cursor, limit, pages, k);
    CutIsSameSecond(table, tenant, cursor, limit, pages, k, r);
  }

  // -------------------------------------------------- when the walk is complete, in advance

  ghost predicate Complete(table: set<MessageRow>, tenant: Tenant, cursor: Cursor, pages: seq<Page>) {
    forall r :: r in Filter(table, tenant, cursor) ==> r in Rows(pages)
  }

  predicate Multiple(i: nat, n: nat)
    requires n >= 1
  {
    i == 0 || (i >= n && Multiple(i - n, n))
  }

  /** At every multiple of the limit, the listing L passes into a strictly older second. */
  ghost predicate CleanCuts(L: seq<MessageRow>, limit: nat)
    requires limit >= 1
  {
    forall i: nat :: 0 < i < |L| && Multiple(i, limit) ==> L[i].createdAt < Floor(L[i - 1].createdAt)
  }

  lemma CleanCutsTail(L: seq<MessageRow>, limit: nat)
    requires 1 <= limit < |L|
    ensures CleanCuts(L, limit) <==> L[limit].createdAt < Floor(L[limit - 1].createdAt) && CleanCuts(L[limit..], limit)
  {
    var L' := L[limit..];
    assert Multiple(limit, limit);
    if CleanCuts(L, limit) {
      forall i: nat | 0 < i < |L'| && Multiple(i, limit)
        ensures L'[i].createdAt < Floor(L'[i - 1].createdAt)
      {
        assert Multiple(i + limit, limit);
        assert L[i + limit].createdAt < Floor(L[i + limit - 1].createdAt);
      }
    }
    if L[limit].createdAt < Floor(L[limit - 1].createdAt) && CleanCuts(L', limit) {
      forall i: nat | 0 < i < |L| && Multiple(i, limit)
        ensures L[i].createdAt < Floor(L[i - 1].createdAt)
      {
        if i > limit {
          assert L'[i - limit].createdAt < Floor(L'[i - limit - 1].createdAt);
        }
      }
    }
  }

  /** However ties are ordered, the last of the first n rows has one possible timestamp. */
  lemma LastTimestamp(S: set<MessageRow>, n: nat, rs: seq<MessageRow>, L: seq<MessageRow>)
    requires 1 <= n < |S| && TopRows(S, n, rs) && IsListing(S, L)
    ensures rs[n - 1].createdAt == L[n - 1].createdAt
  {
    LastNotNewer(S, n, rs, L);
    LastNotOlder(S, n, rs, L);
  }

  lemma LastNotNewer(S: set<MessageRow>, n: nat, rs: seq<MessageRow>, L: seq<MessageRow>)
    requires 1 <= n < |S| && TopRows(S, n, rs) && IsListing(S, L)
    ensures rs[n - 1].createdAt <= L[n - 1].createdAt
  {
    if rs[n - 1].createdAt > L[n - 1].createdAt {
      ListingCovers(S, L);
      forall r | r in SetOf(rs) ensures r in SetOf(L[..n - 1]) {
        assert r.createdAt >= rs[n - 1].createdAt && r in L;
        var j :| 0 <= j < |L| && L[j] == r;
        assert j < n - 1;
        assert L[..n - 1][j] == r;
      }
      SetOfSize(rs);
      SetOfSize(L[..n - 1]);
      SubsetSize(SetOf(rs), SetOf(L[..n - 1]));
    }
  }

  lemma LastNotOlder(S: set<MessageRow>, n: nat, rs: seq<MessageRow>, L: seq<MessageRow>)
    requires 1 <= n < |S| && TopRows(S, n, rs) && IsListing(S, L)
    ensures rs[n - 1].createdAt >= L[n - 1].createdAt
  {
    var last := rs[n - 1];
    if last.createdAt < L[n - 1].createdAt {
      forall r | r in SetOf(L[..n]) ensures r in SetOf(rs) - {last} {
        var j :| 0 <= j < n && L[j] == r;
        assert r.createdAt >= L[n - 1].createdAt > last.createdAt && r in S;
        assert r in rs;
      }
      SetOfSize(rs);
      SetOfSize(L[..n]);
      SubsetSize(SetOf(L[..n]), SetOf(rs) - {last});
    }
  }

  /** A page whose boundary does not pass into an older second cuts some row off. */
  lemma DirtyCut(S: set<MessageRow>, n: nat, rs: seq<MessageRow>, L: seq<MessageRow>) returns (r: MessageRow)
    requires 1 <= n < |S| && TopRows(S, n, rs) && IsListing(S, L)
    requires L[n].createdAt >= Floor(L[n - 1].createdAt)
    ensures r in S && r !in rs && r.createdAt >= Floor(rs[n - 1].createdAt)
  {
    LastTimestamp(S, n, rs, L);
    SetOfSize(rs);
    SetOfSize(L[..n + 1]);
    FloorBounds(L[n - 1].createdAt);
    if SetOf(L[..n + 1]) <= SetOf(rs) {
      SubsetSize(SetOf(L[..n + 1]), SetOf(rs));
      assert false;
    }
    r :| r in SetOf(L[..n + 1]) && r !in SetOf(rs);
    var j :| 0 <= j <= n && L[j] == r;
    assert j < n ==> r.createdAt >= L[n - 1].createdAt;
  }

  /** At a clean boundary the rows after it are exactly the next page's candidates. */
  lemma CleanCutListing(S: set<MessageRow>, n: nat, L: seq<MessageRow>, S': set<MessageRow>)
    requires 1 <= n < |S| && IsListing(S, L)
    requires L[n].createdAt < Floor(L[n - 1].createdAt)
    requires forall r :: r in S' <==> r in S && r.createdAt < Floor(L[n - 1].createdAt)
    ensures IsListing(S', L[n..]) && |S'| == |S| - n
  {
    CleanCutSet(S, n, L, S');
    SetOfSize(L[n..]);
    assert forall r :: r in SetOf(L[n..]) ==> r in L[n..];
    assert forall i :: 0 <= i < |L[n..]| ==> L[n..][i] in SetOf(L[n..]);
  }

  lemma NewerUpTo(L: seq<MessageRow>, k: nat)
    requires Ordered(L) && k < |L|
    ensures forall j :: 0 <= j <= k ==> L[j].createdAt >= L[k].createdAt
  {
    assert forall j :: 0 <= j < k ==> !Before(L[k], L[j]);
  }

  lemma CleanCutSet(S: set<MessageRow>, n: nat, L: seq<MessageRow>, S': set<MessageRow>)
    requires 1 <= n < |S| && IsListing(S, L)
    requires L[n].createdAt < Floor(L[n - 1].createdAt)
    requires forall r :: r in S' <==> r in S && r.createdAt < Floor(L[n - 1].createdAt)
    ensures SetOf(L[n..]) == S' && |L| == |S|
  {
    ListingCovers(S, L);
    FloorBounds(L[n - 1].createdAt);
    NewerUpTo(L, n - 1);
    forall r | r in S' ensures r in SetOf(L[n..]) {
      var j :| 0 <= j < |L| && L[j] == r;
      assert L[n..][j - n] == r;
    }
    forall i | 0 <= i < |L[n..]| ensures L[n..][i] in S' {
      assert L[n..][i] == L[i + n] && L[i + n] in S;
      assert i > 0 ==> !Before(L[i + n], L[n]);
    }
  }

  lemma CleanCut(S: set<MessageRow>, n: nat, rs: seq<MessageRow>, L: seq<MessageRow>, S': set<MessageRow>)
    requires 1 <= n < |S| && TopRows(S, n, rs) && IsListing(S, L)
    requires L[n].createdAt < Floor(L[n - 1].createdAt)
    requires forall r :: r in S' <==> r in S && r.createdAt < Floor(rs[n - 1].createdAt)
    ensures IsListing(S', L[n..])
    ensures forall r :: r in S && r !in S' ==> r in rs
  {
    LastTimestamp(S, n, rs, L);
    CleanCutListing(S, n, L, S');
    FloorBounds(rs[n - 1].createdAt);
    assert forall i :: 0 <= i < n ==> rs[i].createdAt >= rs[n - 1].createdAt;
    assert SetOf(rs) <= S - S';
    assert |S - S'| == |S| - |S'| by {
      assert S == S' + (S - S');
    }
    SetOfSize(rs);
    SubsetSize(SetOf(rs), S - S');
  }

  lemma SinglePageComplete(table: set<MessageRow>, tenant: Tenant, cursor: Cursor, limit: nat, pages: seq<Page>, L: seq<MessageRow>)
    requires limit >= 1 && IsWalk(table, tenant, cursor, limit, pages) && !pages[0].hasMore
    requires IsListing(Filter(table, tenant, cursor), L)
    ensures Complete(table, tenant, cursor, pages) && CleanCuts(L, limit)
  {
    assert pages[1..] == [] && Rows(pages) == pages[0].data;
    ListingCovers(Filter(table, tenant, cursor), pages[0].data);
    ListingCovers(Filter(table, tenant, cursor), L);
  }

  lemma DirtyCutIncomplete(table: set<MessageRow>, tenant: Tenant, cursor: Cursor, limit: nat, pages: seq<Page>, L: seq<MessageRow>)
    requires limit >= 1 && IsWalk(table, tenant, cursor, limit, pages) && pages[0].hasMore
    requires IsListing(Filter(table, tenant, cursor), L)
    requires L[limit].createdAt >= Floor(L[limit - 1].createdAt)
    ensures !Complete(table, tenant, cursor, pages)
  {
    hide TopRows;
    hide IsListing;
    hide Floor;
    hide NextCursor;
    hide ClampLimit;
    NextFilter(table, tenant, cursor, limit, pages[0]);
    var r := DirtyCut(Filter(table, tenant, cursor), limit, pages[0].data, L);
    RowsMatch(table, tenant, pages[0].nextCursor, limit, pages[1..], r);
    RowNowhere(pages, r);
  }

  lemma RowNowhere(pages: seq<Page>, r: MessageRow)
    requires pages != [] && r !in pages[0].data && r !in Rows(pages[1..])
    ensures r !in Rows(pages)
  {
  }

  /** Following next_cursor returns every matching row if and only if, in the full listing,
      every limit-th row is followed by one of a strictly older second. */
  lemma {:induction false} CompleteIff(table: set<MessageRow>, tenant: Tenant, cursor: Cursor, limit: nat, pages: seq<Page>, L: seq<MessageRow>)
    requires limit >= 1 && IsWalk(table, tenant, cursor, limit, pages)
    requires IsListing(Filter(table, tenant, cursor), L)
    ensures Complete(table, tenant, cursor, pages) <==> CleanCuts(L, limit)
    decreases |pages|
  {
    if !pages[0].hasMore {
      SinglePageComplete(table, tenant, cursor, limit, pages, L);
    } else {
      CleanCutsTail(L, limit);
      if L[limit].createdAt < Floor(L[limit - 1].createdAt) {
        CleanCutTail(table, tenant, cursor, limit, pages, L);
        CompleteIff(table, tenant, pages[0].nextCursor, limit, pages[1..], L[limit..]);
      } else {
        DirtyCutIncomplete(table, tenant, cursor, limit, pages, L);
      }
    }
  }

  lemma CleanCutTail(table: set<MessageRow>, tenant: Tenant, cursor: Cursor, limit: nat, pages: seq<Page>, L: seq<MessageRow>)
    requires limit >= 1 && IsWalk(table, tenant, cursor, limit, pages) && pages[0].hasMore
    requires IsListing(Filter(table, tenant, cursor), L)
    requires L[limit].createdAt < Floor(L[limit - 1].createdAt)
    ensures IsListing(Filter(table, tenant, pages[0].nextCursor), L[limit..])
    ensures Complete(table, tenant, cursor, pages) <==> Complete(table, tenant, pages[0].nextCursor, pages[1..])
  {
    NextFilter(table, tenant, cursor, limit, pages[0]);
    CleanCut(Filter(table, tenant, cursor), limit, pages[0].data, L, Filter(table, tenant, pages[0].nextCursor));
    CompleteTail(table, tenant, cursor, limit, pages);
  }

  lemma CompleteTail(table: set<MessageRow>, tenant: Tenant, cursor: Cursor, limit: nat, pages: seq<Page>)
    requires limit >= 1 && IsWalk(table, tenant, cursor, limit, pages) && pages[0].hasMore
    requires forall r :: r in Filter(table, tenant, cursor) && r !in Filter(table, tenant, pages[0].nextCursor) ==> r in pages[0].data
    ensures Complete(table, tenant, cursor, pages) <==> Complete(table, tenant, pages[0].nextCursor, pages[1..])
  {
    NextFilter(table, tenant, cursor, limit, pages[0]);
    assert Rows(pages) == pages[0].data + Rows(pages[1..]);
    forall r | r in Filter(table, tenant, pages[0].nextCursor) ensures r !in pages[0].data {}
  }

  /** Two rows of one second, one row a page: the older one is never listed. */
  lemma SameSecondLosesARow(a: MessageRow, b: MessageRow, pages: seq<Page>)
    requires Before(a, b) && Floor(a.createdAt) == Floor(b.createdAt)
    requires IsWalk({a, b}, AnyTenant, NoCursor, 1, pages)
    ensures !Complete({a, b}, AnyTenant, NoCursor, pages)
  {
    assert Filter({a, b}, AnyTenant, NoCursor) == {a, b};
    var L := [a, b];
    assert |{a, b}| == 2;
    assert IsListing({a, b}, L);
    FloorBounds(b.createdAt);
    assert Multiple(1, 1) && L[1].createdAt >= Floor(L[0].createdAt);
    CompleteIff({a, b}, AnyTenant, NoCursor, 1, pages, L);
  }
}

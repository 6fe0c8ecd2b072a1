/**
 The two listing queries of the SQL file for one tenant: LIMIT/OFFSET, and the composite
 (created_at, id) cursor. Over a fixed table they return the same pages; the cursor keeps
 doing so while newer rows are inserted between the pages.
 */
module KeysetPaging {
  import opened Listing
  import opened Wrappers

  datatype Position = Start | After(row: MessageRow)

  /** The rows the cursor query considers: (created_at, id) < ($2, $3). */
  function Below(S: set<MessageRow>, at: Position): set<MessageRow> {
    set r | r in S && (at.After? ==> Before(at.row, r))
  }

  /** One tenant's rows: the primary key makes (created_at, id) unique among them. */
  ghost predicate UniqueKeys(S: set<MessageRow>) {
    forall a, b :: a in S && b in S && a.createdAt == b.createdAt && a.id == b.id ==> a == b
  }

  /** Different rows may share a created_at or an id, but not both. */
  lemma KeysInWords(S: set<MessageRow>)
    ensures UniqueKeys(S) <==> forall a, b :: a in S && b in S && a != b ==> a.createdAt != b.createdAt || a.id != b.id
  {
  }

  function OffsetPage(L: seq<MessageRow>, limit: nat, offset: nat): seq<MessageRow> {
    L[Min(offset, |L|)..Min(offset + limit, |L|)]
  }

  function Advance(at: Position, page: seq<MessageRow>): Position {
    if page == [] then at else After(page[|page| - 1])
  }

  /** Pages of the cursor query, each from the last row of the one before, up to the first
      that is not full. The k-th query runs against tables[k]. */
  ghost predicate IsKeysetWalk(tables: seq<set<MessageRow>>, at: Position, limit: nat, pages: seq<seq<MessageRow>>)
    decreases |pages|
  {
    && pages != [] && |tables| == |pages|
    && TopRows(Below(tables[0], at), limit, pages[0])
    && if |pages[0]| < limit then |pages| == 1
       else IsKeysetWalk(tables[1..], Advance(at, pages[0]), limit, pages[1..])
  }

  /** Pages of the OFFSET query over one listing, up to the first that is not full. */
  ghost predicate IsOffsetWalk(L: seq<MessageRow>, offset: nat, limit: nat, pages: seq<seq<MessageRow>>)
    decreases |pages|
  {
    && pages != []
    && pages[0] == OffsetPage(L, limit, offset)
    && if |pages[0]| < limit then |pages| == 1 else IsOffsetWalk(L, offset + limit, limit, pages[1..])
  }

  function Concat(pages: seq<seq<MessageRow>>): seq<MessageRow> {
    if pages == [] then [] else pages[0] + Concat(pages[1..])
  }

  function Repeat(S: set<MessageRow>, n: nat): seq<set<MessageRow>> {
    if n == 0 then [] else [S] + Repeat(S, n - 1)
  }

  /** What the two queries answer, in the words of their text: the first rows, newest first, whose
      (created_at, id) is below the cursor's; or those from the offset on. */
  lemma QueriesAnswer(S: set<MessageRow>, last: MessageRow, limit: nat, page: seq<MessageRow>, L: seq<MessageRow>, offset: nat)
    requires TopRows(Below(S, After(last)), limit, page)
    ensures |page| <= limit
    ensures forall r :: r in page ==>
              r in S && (r.createdAt < last.createdAt || (r.createdAt == last.createdAt && r.id < last.id))
    ensures forall r, x ::
              r in S && r !in page && (r.createdAt < last.createdAt || (r.createdAt == last.createdAt && r.id < last.id))
              && x in page
              ==> x.createdAt > r.createdAt || (x.createdAt == r.createdAt && x.id >= r.id)
    ensures (exists r :: r in S && r !in page
                         && (r.createdAt < last.createdAt || (r.createdAt == last.createdAt && r.id < last.id)))
            ==> |page| == limit
    ensures |OffsetPage(L, limit, offset)| == if |L| <= offset then 0 else if |L| <= offset + limit then |L| - offset else limit
    ensures forall i :: 0 <= i < |OffsetPage(L, limit, offset)| ==> OffsetPage(L, limit, offset)[i] == L[offset + i]
  {
    var B := Below(S, After(last));
    forall r, x | r in B && r !in page && x in page
      ensures x.createdAt > r.createdAt || (x.createdAt == r.createdAt && x.id >= r.id)
    {
      var i :| 0 <= i < |page| && page[i] == x;
      assert !Before(r, page[i]);
    }
    if |page| < limit {
      ListingCovers(B, page);
    }
  }

  // ------------------------------------------------------------- the listing is determined

  lemma {:induction false} ListingUnique(S: set<MessageRow>, L: seq<MessageRow>, M: seq<MessageRow>)
    requires UniqueKeys(S) && IsListing(S, L) && IsListing(S, M)
    ensures L == M
    decreases |S|
  {
    hide IsListing;
    hide UniqueKeys;
    ListingCovers(S, L);
    ListingCovers(S, M);
    if S != {} {
      SameFirst(S, L, M);
      ListingTail(S, L);
      ListingTail(S, M);
      ListingUnique(S - {L[0]}, L[1..], M[1..]);
      assert L == [L[0]] + L[1..] && M == [M[0]] + M[1..];
    }
  }

  lemma SameFirst(S: set<MessageRow>, L: seq<MessageRow>, M: seq<MessageRow>)
    requires UniqueKeys(S) && IsListing(S, L) && IsListing(S, M) && S != {}
    ensures L != [] && M != [] && L[0] == M[0] && L[0] in S
    ensures UniqueKeys(S - {L[0]})
  {
    FirstIsFirst(S, L);
    FirstIsFirst(S, M);
  }

  lemma FirstIsFirst(S: set<MessageRow>, L: seq<MessageRow>)
    requires IsListing(S, L) && S != {}
    ensures L != [] && L[0] in S && forall r :: r in S ==> !Before(r, L[0])
  {
    ListingCovers(S, L);
    forall r | r in S ensures !Before(r, L[0]) {
      var i :| 0 <= i < |L| && L[i] == r;
      if i == 0 {
        assert !Before(L[0], L[0]);
      }
    }
  }

  lemma ListingTail(S: set<MessageRow>, L: seq<MessageRow>)
    requires IsListing(S, L) && L != []
    ensures IsListing(S - {L[0]}, L[1..])
  {
    ListingCovers(S, L);
    forall r | r in S - {L[0]} ensures r in L[1..] {
      var i :| 0 <= i < |L| && L[i] == r;
      assert L[1..][i - 1] == r;
    }
  }

  /** The first n rows of S are the first n of its listing. */
  lemma TopRowsAreListingPrefix(S: set<MessageRow>, n: nat, rs: seq<MessageRow>, L: seq<MessageRow>)
    requires UniqueKeys(S) && TopRows(S, n, rs) && IsListing(S, L)
    ensures rs == L[..Min(n, |L|)]
  {
    ListingCovers(S, L);
    var A := SetOf(rs);
    SetOfSize(rs);
    var k := Min(n, |L|);
    TopRowsPrefix(S, |S|, k, L);
    assert TopRows(S, k, L[..k]) && TopRows(S, k, rs);
    SameTopRows(S, k, rs, L[..k]);
    assert IsListing(A, rs) by {
      assert forall r :: r in A ==> r in rs;
    }
    assert IsListing(A, L[..k]) by {
      assert SetOf(L[..k]) == A;
      assert forall r :: r in A ==> r in L[..k];
    }
    ListingUnique(A, rs, L[..k]);
  }

  lemma SameTopRows(S: set<MessageRow>, n: nat, rs: seq<MessageRow>, qs: seq<MessageRow>)
    requires UniqueKeys(S) && TopRows(S, n, rs) && TopRows(S, n, qs)
    ensures SetOf(rs) == SetOf(qs)
  {
    SetOfSize(rs);
    SetOfSize(qs);
    if r :| r in rs && r !in qs {
      OneSurplus(S, n, rs, qs, r);
      SubsetSize(SetOf(qs), SetOf(rs));
    }
    SubsetSize(SetOf(rs), SetOf(qs));
  }

  /** If rs has a row that qs lacks, then qs can have none that rs lacks. */
  lemma OneSurplus(S: set<MessageRow>, n: nat, rs: seq<MessageRow>, qs: seq<MessageRow>, r: MessageRow)
    requires UniqueKeys(S) && TopRows(S, n, rs) && TopRows(S, n, qs)
    requires r in rs && r !in qs
    ensures SetOf(qs) <= SetOf(rs)
  {
    forall q | q in qs ensures q in rs {
      assert q !in rs ==> !Before(q, r);
      assert !Before(r, q);
    }
  }

  // ---------------------------------------------------------------- keyset refines OFFSET

  /** Moving on within what the cursor already sees. */
  lemma BelowNarrows(S: set<MessageRow>, at: Position, row: MessageRow)
    requires row in Below(S, at)
    ensures Below(S, After(row)) == set r | r in Below(S, at) && Before(row, r)
  {
  }

  /** After a full page, the cursor query sees the rest of the listing. */
  lemma NextSuffix(S: set<MessageRow>, at: Position, L: seq<MessageRow>, n: nat)
    requires UniqueKeys(S) && IsListing(Below(S, at), L) && 1 <= n <= |L|
    ensures IsListing(Below(S, After(L[n - 1])), L[n..])
  {
    hide UniqueKeys;
    hide Below;
    NextSuffixSet(S, at, L, n);
    SetOfSize(L[n..]);
    assert forall r :: r in SetOf(L[n..]) ==> r in L[n..];
    assert forall i :: 0 <= i < |L[n..]| ==> L[n..][i] in SetOf(L[n..]);
  }

  lemma NextSuffixSet(S: set<MessageRow>, at: Position, L: seq<MessageRow>, n: nat)
    requires UniqueKeys(S) && IsListing(Below(S, at), L) && 1 <= n <= |L|
    ensures SetOf(L[n..]) == Below(S, After(L[n - 1]))
  {
    ListingCovers(Below(S, at), L);
    BelowNarrows(S, at, L[n - 1]);
    var S' := Below(S, After(L[n - 1]));
    forall r | r in S' ensures r in SetOf(L[n..]) {
      var j :| 0 <= j < |L| && L[j] == r;
      assert j >= n;
      assert L[n..][j - n] == r;
    }
    forall i | 0 <= i < |L[n..]| ensures L[n..][i] in S' {
      assert L[n..][i] == L[i + n];
      assert L[n - 1] != L[i + n] && !Before(L[i + n], L[n - 1]) && L[n - 1] in S;
    }
  }

  lemma RepeatTail(S: set<MessageRow>, n: nat)
    requires n >= 1
    ensures |Repeat(S, n)| == n && Repeat(S, n)[0] == S && Repeat(S, n)[1..] == Repeat(S, n - 1)
  {
    if n > 1 {
      RepeatTail(S, n - 1);
    }
  }

  lemma PageIsPrefix(S: set<MessageRow>, limit: nat, L: seq<MessageRow>, page: seq<MessageRow>)
    requires UniqueKeys(S) && IsListing(S, L)
    ensures TopRows(S, limit, page) <==> page == L[..Min(limit, |L|)]
  {
    ListingCovers(S, L);
    TopRowsPrefix(S, |L|, Min(limit, |L|), L);
    if TopRows(S, limit, page) {
      TopRowsAreListingPrefix(S, limit, page, L);
    }
  }

  lemma BelowUnique(S: set<MessageRow>, at: Position)
    requires UniqueKeys(S)
    ensures UniqueKeys(Below(S, at))
  {
  }

  /** One step of both walks: the same page, and the same situation after it. */
  lemma PageStep(S: set<MessageRow>, at: Position, M: seq<MessageRow>, offset: nat, limit: nat, page: seq<MessageRow>)
    requires limit >= 1 && UniqueKeys(S) && offset <= |M| && IsListing(Below(S, at), M[offset..])
    ensures TopRows(Below(S, at), limit, page) <==> page == OffsetPage(M, limit, offset)
    ensures page == OffsetPage(M, limit, offset) && |page| < limit ==> page == M[offset..]
    ensures page == OffsetPage(M, limit, offset) && |page| >= limit ==>
              && offset + limit <= |M| && M[offset..] == page + M[offset + limit..]
              && IsListing(Below(S, Advance(at, page)), M[offset + limit..])
  {
    hide TopRows;
    hide IsListing;
    hide UniqueKeys;
    hide Below;
    var L := M[offset..];
    BelowUnique(S, at);
    PageIsPrefix(Below(S, at), limit, L, page);
    assert OffsetPage(M, limit, offset) == L[..Min(limit, |L|)];
    if page == OffsetPage(M, limit, offset) && |page| >= limit {
      NextSuffix(S, at, L, limit);
      assert M[offset + limit..] == L[limit..];
      assert L == page + L[limit..];
    }
  }

  lemma {:induction false} KeysetToOffset(S: set<MessageRow>, at: Position, M: seq<MessageRow>, offset: nat, limit: nat, pages: seq<seq<MessageRow>>)
    requires limit >= 1 && UniqueKeys(S) && offset <= |M| && IsListing(Below(S, at), M[offset..])
    requires IsKeysetWalk(Repeat(S, |pages|), at, limit, pages)
    ensures IsOffsetWalk(M, offset, limit, pages)
    decreases |pages|
  {
    RepeatTail(S, |pages|);
    PageStep(S, at, M, offset, limit, pages[0]);
    if |pages[0]| >= limit {
      KeysetToOffset(S, Advance(at, pages[0]), M, offset + limit, limit, pages[1..]);
    }
  }

  lemma {:induction false} OffsetToKeyset(S: set<MessageRow>, at: Position, M: seq<MessageRow>, offset: nat, limit: nat, pages: seq<seq<MessageRow>>)
    requires limit >= 1 && UniqueKeys(S) && offset <= |M| && IsListing(Below(S, at), M[offset..])
    requires IsOffsetWalk(M, offset, limit, pages)
    ensures IsKeysetWalk(Repeat(S, |pages|), at, limit, pages)
    decreases |pages|
  {
    RepeatTail(S, |pages|);
    PageStep(S, at, M, offset, limit, pages[0]);
    if |pages[0]| >= limit {
      OffsetToKeyset(S, Advance(at, pages[0]), M, offset + limit, limit, pages[1..]);
    }
  }

  lemma {:induction false} OffsetIsComplete(M: seq<MessageRow>, offset: nat, limit: nat, pages: seq<seq<MessageRow>>)
    requires limit >= 1 && offset <= |M| && IsOffsetWalk(M, offset, limit, pages)
    ensures Concat(pages) == M[offset..]
    decreases |pages|
  {
    if |pages[0]| >= limit {
      OffsetIsComplete(M, offset + limit, limit, pages[1..]);
      assert M[offset..] == M[offset..offset + limit] + M[offset + limit..];
    } else {
      assert pages[1..] == [] && Concat(pages) == pages[0] + [];
    }
  }

  /** Over a fixed table: for every limit the two queries page identically and completely. */
  lemma KeysetRefinesOffset(S: set<MessageRow>, M: seq<MessageRow>, limit: nat, pages: seq<seq<MessageRow>>)
    requires limit >= 1 && UniqueKeys(S) && IsListing(S, M)
    ensures IsKeysetWalk(Repeat(S, |pages|), Start, limit, pages) <==> IsOffsetWalk(M, 0, limit, pages)
    ensures IsOffsetWalk(M, 0, limit, pages) ==> Concat(pages) == M
  {
    assert Below(S, Start) == S && M[0..] == M;
    if IsKeysetWalk(Repeat(S, |pages|), Start, limit, pages) {
      KeysetToOffset(S, Start, M, 0, limit, pages);
    }
    if IsOffsetWalk(M, 0, limit, pages) {
      OffsetToKeyset(S, Start, M, 0, limit, pages);
      OffsetIsComplete(M, 0, limit, pages);
    }
  }

  // ----------------------------------------------------------------------------- inserts

  /** Between page k and page k+1 rows may be inserted, all above the cursor. */
  ghost predicate InsertsAbove(tables: seq<set<MessageRow>>, pages: seq<seq<MessageRow>>) {
    && |tables| == |pages|
    && forall k :: 0 <= k < |pages| - 1 ==>
         && pages[k] != [] && tables[k] <= tables[k + 1]
         && forall r :: r in tables[k + 1] && r !in tables[k] ==> Before(r, pages[k][|pages[k]| - 1])
  }

  lemma {:induction false} SameBelow(A: set<MessageRow>, B: set<MessageRow>, at: Position, limit: nat, pages: seq<seq<MessageRow>>)
    requires limit >= 1 && Below(A, at) == Below(B, at)
    requires IsKeysetWalk(Repeat(A, |pages|), at, limit, pages)
    ensures IsKeysetWalk(Repeat(B, |pages|), at, limit, pages)
    decreases |pages|
  {
    RepeatTail(A, |pages|);
    RepeatTail(B, |pages|);
    if |pages[0]| == limit {
      var last := pages[0][limit - 1];
      BelowNarrows(A, at, last);
      BelowNarrows(B, at, last);
      SameBelow(A, B, After(last), limit, pages[1..]);
    }
  }

  /** Rows inserted above the cursor between the pages do not change what the walk returns:
      exactly the rows present at its start. */
  lemma {:induction false} InsertsDoNotShow(tables: seq<set<MessageRow>>, at: Position, limit: nat, pages: seq<seq<MessageRow>>)
    requires limit >= 1 && IsKeysetWalk(tables, at, limit, pages) && InsertsAbove(tables, pages)
    ensures IsKeysetWalk(Repeat(tables[0], |pages|), at, limit, pages)
    decreases |pages|
  {
    RepeatTail(tables[0], |pages|);
    if |pages[0]| == limit {
      var at', rest := Advance(at, pages[0]), pages[1..];
      assert InsertsAbove(tables[1..], rest);
      InsertsDoNotShow(tables[1..], at', limit, rest);
      assert 0 < |pages| - 1 && tables[0] <= tables[1];
      assert Below(tables[1], at') == Below(tables[0], at');
      SameBelow(tables[1], tables[0], at', limit, rest);
    }
  }

  lemma WalkUnderInsertsIsOriginalListing(tables: seq<set<MessageRow>>, limit: nat, pages: seq<seq<MessageRow>>, M: seq<MessageRow>)
    requires limit >= 1 && IsKeysetWalk(tables, Start, limit, pages) && InsertsAbove(tables, pages)
    requires UniqueKeys(tables[0]) && IsListing(tables[0], M)
    ensures Concat(pages) == M
  {
    InsertsDoNotShow(tables, Start, limit, pages);
    KeysetRefinesOffset(tables[0], M, limit, pages);
  }

  /** L without the row at position p. */
  function Without(L: seq<MessageRow>, p: nat): (r: seq<MessageRow>)
    requires p < |L|
    ensures |r| == |L| - 1
    ensures forall i :: 0 <= i < |r| ==> r[i] == L[if i < p then i else i + 1]
  {
    L[..p] + L[p + 1..]
  }

  lemma WithoutOrdered(L: seq<MessageRow>, p: nat)
    requires p < |L| && Ordered(L)
    ensures Ordered(Without(L, p)) && L[p] !in Without(L, p)
  {
    hide Before;
  }

  lemma WithoutCovers(L: seq<MessageRow>, p: nat, r: MessageRow)
    requires p < |L| && r in L && r != L[p]
    ensures r in Without(L, p)
  {
    var i :| 0 <= i < |L| && L[i] == r;
    assert Without(L, p)[if i < p then i else i - 1] == r;
  }

  lemma WithoutListing(S: set<MessageRow>, x: MessageRow, N: seq<MessageRow>, p: nat)
    requires x !in S && IsListing(S + {x}, N) && p < |N| && N[p] == x
    ensures IsListing(S, Without(N, p))
  {
    hide Before;
    hide Ordered;
    hide Without;
    ListingCovers(S + {x}, N);
    WithoutOrdered(N, p);
    forall r | r in S ensures r in Without(N, p) {
      WithoutCovers(N, p, r);
    }
    forall i | 0 <= i < |Without(N, p)| ensures Without(N, p)[i] in S {
      assert Without(N, p)[i] in Without(N, p);
    }
  }

  lemma KeysWithout(S: set<MessageRow>, x: MessageRow)
    requires UniqueKeys(S + {x})
    ensures UniqueKeys(S)
  {
  }

  /** Inserting a row puts it somewhere into the listing and leaves the order of the others. */
  lemma ListingAfterInsert(S: set<MessageRow>, x: MessageRow, M: seq<MessageRow>, N: seq<MessageRow>) returns (p: nat)
    requires x !in S && UniqueKeys(S + {x}) && IsListing(S, M) && IsListing(S + {x}, N)
    ensures p < |N| && N[p] == x && Without(N, p) == M
  {
    hide UniqueKeys;
    hide IsListing;
    ListingCovers(S + {x}, N);
    assert x in N;
    p :| p < |N| && N[p] == x;
    WithoutListing(S, x, N, p);
    KeysWithout(S, x);
    ListingUnique(S, M, Without(N, p));
  }

  /** OFFSET has no such protection: after one insert the page at an offset repeats the last
      row of the page before it, exactly if the new row lists before that row. */
  lemma OffsetRepeatsUnderInsert(S: set<MessageRow>, x: MessageRow, M: seq<MessageRow>, N: seq<MessageRow>, limit: nat, offset: nat)
    requires x !in S && UniqueKeys(S + {x}) && IsListing(S, M) && IsListing(S + {x}, N)
    requires limit >= 1 && 1 <= offset <= |M|
    ensures OffsetPage(N, limit, offset) != []
    ensures OffsetPage(N, limit, offset)[0] == M[offset - 1] <==> Before(x, M[offset - 1])
  {
    hide IsListing;
    var p := ListingAfterInsert(S, x, M, N);
    ListingFacts(S, M);
    ListingFacts(S + {x}, N);
    assert M[offset - 1] == N[if offset - 1 < p then offset - 1 else offset];
  }

  lemma ListingFacts(S: set<MessageRow>, L: seq<MessageRow>)
    requires IsListing(S, L)
    ensures Ordered(L) && forall i :: 0 <= i < |L| ==> L[i] in S
  {
  }
}

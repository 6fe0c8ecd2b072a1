/**
 Message rows as the listing queries see them: filtered sets, ordered by
 (created_at, id) descending, of which a query returns the first n.
 */
module Listing {
  import opened Wrappers

  /** createdAt counts microseconds; the primary key of a row is (id, tenant). */
  datatype MessageRow = MessageRow(id: nat, tenant: nat, createdAt: int)

  /** a comes strictly before b in ORDER BY created_at DESC, id DESC. */
  predicate Before(a: MessageRow, b: MessageRow) {
    a.createdAt > b.createdAt || (a.createdAt == b.createdAt && a.id > b.id)
  }

  ghost predicate Ordered(rs: seq<MessageRow>) {
    forall i, j :: 0 <= i < j < |rs| ==> rs[i] != rs[j] && !Before(rs[j], rs[i])
  }

  /** rs is a possible answer of a query over the rows S with LIMIT n. Rows that tie in
      (created_at, id), which only different tenants' rows can, may come in any order. */
  ghost predicate TopRows(S: set<MessageRow>, n: nat, rs: seq<MessageRow>) {
    && |rs| == Min(n, |S|)
    && (forall i :: 0 <= i < |rs| ==> rs[i] in S)
    && Ordered(rs)
    && (forall r, i :: r in S && r !in rs && 0 <= i < |rs| ==> !Before(r, rs[i]))
  }

  /** L lists all of S. */
  ghost predicate IsListing(S: set<MessageRow>, L: seq<MessageRow>) {
    TopRows(S, |S|, L)
  }

  ghost function SetOf(rs: seq<MessageRow>): set<MessageRow> {
    set i | 0 <= i < |rs| :: rs[i]
  }

  lemma {:induction false} SetOfSize(rs: seq<MessageRow>)
    requires forall i, j :: 0 <= i < j < |rs| ==> rs[i] != rs[j]
    ensures |SetOf(rs)| == |rs|
  {
    if rs != [] {
      var last := |rs| - 1;
      SetOfSize(rs[..last]);
      assert SetOf(rs) == SetOf(rs[..last]) + {rs[last]};
      assert rs[last] !in SetOf(rs[..last]);
    }
  }

  lemma SubsetSize(A: set<MessageRow>, B: set<MessageRow>)
    requires A <= B
    ensures |A| <= |B|
    ensures |A| == |B| ==> A == B
  {
    assert B == A + (B - A);
    assert |B| == |A| + |B - A|;
  }

  lemma ListingCovers(S: set<MessageRow>, L: seq<MessageRow>)
    requires IsListing(S, L)
    ensures SetOf(L) == S && |L| == |S|
    ensures forall r :: r in S <==> r in L
  {
    SetOfSize(L);
    SubsetSize(SetOf(L), S);
    assert forall r :: r in L <==> r in SetOf(L);
  }

  /** A query for n rows, cut after m of them, is a query for m rows. */
  lemma TopRowsPrefix(S: set<MessageRow>, n: nat, m: nat, rs: seq<MessageRow>)
    requires TopRows(S, n, rs) && m <= n
    ensures TopRows(S, m, rs[..Min(m, |rs|)])
  {
    var k := Min(m, |rs|);
    assert forall j :: 0 <= j < k ==> rs[j] == rs[..k][j] && rs[j] in rs[..k];
  }

  /** A first row exists in every nonempty set. */
  lemma {:induction false} FirstRow(S: set<MessageRow>) returns (m: MessageRow)
    requires S != {}
    ensures m in S && forall r :: r in S ==> !Before(r, m)
    decreases |S|
  {
    var x :| x in S;
    if S == {x} {
      m := x;
    } else {
      var T := S - {x};
      assert S == T + {x};
      assert T != {};
      var y := FirstRow(T);
      m := if Before(x, y) then x else y;
    }
  }

  /** A query: the database picks the next row until it has n or runs out. */
  method Query(S: set<MessageRow>, n: nat) returns (rs: seq<MessageRow>)
    ensures TopRows(S, n, rs)
    ensures |rs| == if n <= |S| then n else |S|
    ensures forall i, j :: 0 <= i < j < |rs| ==>
              rs[i].createdAt > rs[j].createdAt || (rs[i].createdAt == rs[j].createdAt && rs[i].id >= rs[j].id)
    ensures forall r, i :: r in S && r !in rs && 0 <= i < |rs| ==>
              rs[i].createdAt > r.createdAt || (rs[i].createdAt == r.createdAt && rs[i].id >= r.id)
  {
    rs := [];
    var rest := S;
    while |rs| < n && rest != {}
      invariant |rs| + |rest| == |S| && |rs| <= n
      invariant rest <= S
      invariant forall i :: 0 <= i < |rs| ==> rs[i] in S && rs[i] !in rest
      invariant forall r :: r in S && r !in rs ==> r in rest
      invariant Ordered(rs)
      invariant forall r, i :: r in rest && 0 <= i < |rs| ==> !Before(r, rs[i])
      decreases |rest|
    {
      ghost var first := FirstRow(rest);
      assert exists m :: m in rest && forall r :: r in rest ==> !Before(r, m);
      var m :| m in rest && forall r :: r in rest ==> !Before(r, m);
      rs := rs + [m];
      rest := rest - {m};
    }
  }
}

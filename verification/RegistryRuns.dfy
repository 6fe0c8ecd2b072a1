/**
 The tenant routes with many requests in flight: the database half and the manager half of
 a request are two separate steps, and the steps of all requests interleave.
 */
module RegistryRuns {
  import opened Wrappers
  import opened Registry

  /** The stores and, for every tenant, the requests that are between their halves, in the
      order in which the database saw them. */
  datatype Routes = Routes(stores: Stores, pending: map<nat, seq<Request>>)

  /** The requests in flight for tenant u. */
  function InFlight(s: Routes, u: nat): seq<Request> {
    if u in s.pending then s.pending[u] else []
  }

  ghost predicate NothingInFlight(s: Routes) {
    forall u: nat :: InFlight(s, u) == []
  }

  datatype Event =
    | Begin(request: Request)     // the database half; ShutdownAll has none and is done at once
    | End(tenant: nat, place: nat) // the manager half of one of the tenant's requests in flight

  /** The tenant a request is about. */
  function Target(ids: Ids, r: Request): Option<nat> {
    match r
    case Create(u, _, _, _) => Some(u)
    case Delete(id, _) => ids.parse(id)
    case Update(id, _, _) => ids.parse(id)
    case ShutdownAll => None
  }

  predicate Enabled(s: Routes, e: Event) {
    e.End? ==> e.place < |InFlight(s, e.tenant)|
  }

  function Step(ids: Ids, maxWorkers: nat, s: Routes, e: Event): Routes
    requires Enabled(s, e)
  {
    match e
    case Begin(r) =>
      if r.ShutdownAll? then s.(stores := ManagerHalf(ids, maxWorkers, s.stores, r))
      else if Proceeds(ids, s.stores, r) && Target(ids, r).Some? then
        var u := Target(ids, r).value;
        Routes(DatabaseHalf(ids, s.stores, r), s.pending[u := InFlight(s, u) + [r]])
      else s
    case End(u, i) =>
      var q := InFlight(s, u);
      Routes(ManagerHalf(ids, maxWorkers, s.stores, q[i]), s.pending[u := q[..i] + q[i + 1..]])
  }

  ghost predicate Reaches(ids: Ids, maxWorkers: nat, s: Routes, es: seq<Event>, t: Routes)
    decreases |es|
  {
    if es == [] then s == t
    else Enabled(s, es[0]) && Reaches(ids, maxWorkers, Step(ids, maxWorkers, s, es[0]), es[1..], t)
  }

  /** All ids are spelled the way the database does. */
  ghost predicate CanonicalIds(ids: Ids, es: seq<Event>) {
    forall i :: 0 <= i < |es| && es[i].Begin? ==> CanonicalRequest(ids, es[i].request)
  }

  /** No manager half overtakes that of an earlier request for the same tenant. */
  ghost predicate InTurn(es: seq<Event>) {
    forall i :: 0 <= i < |es| && es[i].End? ==> es[i].place == 0
  }

  /** No request starts while another one for the same tenant is in flight. */
  ghost predicate Apart(ids: Ids, maxWorkers: nat, s: Routes, es: seq<Event>)
    decreases |es|
  {
    es != [] && Enabled(s, es[0]) ==>
      && (es[0].Begin? && Target(ids, es[0].request).Some? ==> InFlight(s, Target(ids, es[0].request).value) == [])
      && Apart(ids, maxWorkers, Step(ids, maxWorkers, s, es[0]), es[1..])
  }

  // ------------------------------------------------------------------------ the invariant

  /** The tenant's row is what the last database half made of it. */
  predicate RowFits(s: Stores, u: nat, r: Request) {
    match r
    case Create(_, n, _, _) => u in s.rows && s.rows[u] == CreateCount(n)
    case Delete(_, _) => u !in s.rows
    case Update(_, n, _) => u in s.rows && s.rows[u] == n
    case ShutdownAll => false
  }

  /** Requests for tenant u with canonical ids, in which a create can only follow a delete. */
  ghost predicate Queued(ids: Ids, u: nat, q: seq<Request>) {
    && (forall i :: 0 < i < |q| && q[i].Create? ==> q[i - 1].Delete?)
    && (forall i :: 0 <= i < |q| ==> Target(ids, q[i]) == Some(u) && CanonicalRequest(ids, q[i]))
  }

  lemma QueuedTail(ids: Ids, u: nat, q: seq<Request>)
    requires Queued(ids, u, q) && q != []
    ensures Queued(ids, u, q[1..])
    ensures |q| > 1 && q[1].Create? ==> q[0].Delete?
    ensures Target(ids, q[0]) == Some(u) && CanonicalRequest(ids, q[0])
  {
    hide Target;
    hide CanonicalRequest;
  }

  lemma QueuedSnoc(ids: Ids, u: nat, q: seq<Request>, r: Request)
    requires Queued(ids, u, q) && Target(ids, r) == Some(u) && CanonicalRequest(ids, r)
    requires r.Create? && q != [] ==> q[|q| - 1].Delete?
    ensures Queued(ids, u, q + [r])
  {
    hide Target;
    hide CanonicalRequest;
  }

  /** A tenant with nothing in flight has no consumer or one of its row's size. One with
      requests in flight has the last one's row, and whenever it is a create's turn there
      is no consumer. */
  ghost predicate Orderly(ids: Ids, maxWorkers: nat, s: Routes, u: nat) {
    var q, key := InFlight(s, u), ids.text(u);
    && (q == [] ==> key in s.stores.pools ==> Backed(ids, maxWorkers, s.stores, key))
    && (q != [] ==> RowFits(s.stores, u, q[|q| - 1]))
    && (q != [] && q[0].Create? ==> key !in s.stores.pools)
    && Queued(ids, u, q)
  }

  ghost predicate Inv(ids: Ids, maxWorkers: nat, s: Routes) {
    && (forall u :: u in s.stores.rows ==> 1 <= s.stores.rows[u] <= 50)
    && (forall key :: key in s.stores.pools ==> ids.parse(key).Some? && key == ids.text(ids.parse(key).value))
    && (forall u: nat :: Orderly(ids, maxWorkers, s, u))
  }

  /** Nothing changes for tenants other than u. */
  ghost predicate OnlyFor(ids: Ids, s: Routes, s': Routes, u: nat) {
    && (forall v: nat :: v != u ==> InFlight(s', v) == InFlight(s, v))
    && (forall v :: v != u ==> (v in s'.stores.rows <==> v in s.stores.rows) && (v in s.stores.rows ==> s'.stores.rows[v] == s.stores.rows[v]))
    && (forall key :: key != ids.text(u) ==>
          (key in s'.stores.pools <==> key in s.stores.pools)
          && (key in s.stores.pools ==> s'.stores.pools[key] == s.stores.pools[key]))
  }

  lemma OthersOrderly(ids: Ids, maxWorkers: nat, s: Routes, s': Routes, u: nat, v: nat)
    requires IdsSound(ids) && OnlyFor(ids, s, s', u) && v != u && Orderly(ids, maxWorkers, s, v)
    ensures Orderly(ids, maxWorkers, s', v)
  {
    hide Queued;
    assert ids.parse(ids.text(u)) == Some(u) && ids.parse(ids.text(v)) == Some(v);
    assert ids.text(u) != ids.text(v);
  }

  lemma BeginLocal(ids: Ids, maxWorkers: nat, s: Routes, r: Request, u: nat)
    requires CanonicalRequest(ids, r) && Target(ids, r) == Some(u)
    ensures OnlyFor(ids, s, Step(ids, maxWorkers, s, Begin(r)), u)
    ensures Step(ids, maxWorkers, s, Begin(r)).stores.pools == s.stores.pools
  {
  }

  lemma EndLocal(ids: Ids, maxWorkers: nat, s: Routes, u: nat, i: nat)
    requires IdsSound(ids) && Enabled(s, End(u, i)) && Orderly(ids, maxWorkers, s, u)
    ensures var s' := Step(ids, maxWorkers, s, End(u, i));
            && OnlyFor(ids, s, s', u)
            && s'.stores.rows == s.stores.rows
            && forall key :: key in s'.stores.pools ==> key in s.stores.pools || key == ids.text(u)
  {
    hide Backed;
    var r := InFlight(s, u)[i];
    assert Target(ids, r) == Some(u) && CanonicalRequest(ids, r);
  }

  lemma BeginOrderly(ids: Ids, maxWorkers: nat, s: Routes, r: Request, u: nat)
    requires IdsSound(ids) && Orderly(ids, maxWorkers, s, u)
    requires CanonicalRequest(ids, r) && Target(ids, r) == Some(u) && Proceeds(ids, s.stores, r)
    ensures Orderly(ids, maxWorkers, Step(ids, maxWorkers, s, Begin(r)), u)
  {
    hide Queued;
    assert ids.parse(ids.text(u)) == Some(u);
    var q := InFlight(s, u);
    assert InFlight(Step(ids, maxWorkers, s, Begin(r)), u) == q + [r];
    QueuedSnoc(ids, u, q, r);
  }

  /** The manager half of the tenant's first request in flight. */
  lemma EndOrderly(ids: Ids, maxWorkers: nat, s: Routes, u: nat)
    requires IdsSound(ids) && Enabled(s, End(u, 0)) && Orderly(ids, maxWorkers, s, u)
    ensures Orderly(ids, maxWorkers, Step(ids, maxWorkers, s, End(u, 0)), u)
  {
    hide Queued;
    assert ids.parse(ids.text(u)) == Some(u);
    var q := InFlight(s, u);
    assert InFlight(Step(ids, maxWorkers, s, End(u, 0)), u) == q[1..];
    QueuedTail(ids, u, q);
  }

  lemma StepInv(ids: Ids, maxWorkers: nat, s: Routes, e: Event)
    requires IdsSound(ids) && Inv(ids, maxWorkers, s) && Enabled(s, e) && CanonicalIds(ids, [e]) && InTurn([e])
    ensures Inv(ids, maxWorkers, Step(ids, maxWorkers, s, e))
  {
    assert [e][0] == e;
    var s' := Step(ids, maxWorkers, s, e);
    if e.Begin? {
      if e.request.ShutdownAll? {
        ShutdownInv(ids, maxWorkers, s);
      } else if Proceeds(ids, s.stores, e.request) && Target(ids, e.request).Some? {
        BeginInv(ids, maxWorkers, s, e.request, Target(ids, e.request).value);
      }
    } else {
      EndInv(ids, maxWorkers, s, e.tenant);
    }
  }

  /** ShutdownAll empties the map whatever is in flight. */
  lemma ShutdownInv(ids: Ids, maxWorkers: nat, s: Routes)
    requires Inv(ids, maxWorkers, s)
    ensures Inv(ids, maxWorkers, Step(ids, maxWorkers, s, Begin(ShutdownAll)))
  {
    hide Queued;
    var s' := Step(ids, maxWorkers, s, Begin(ShutdownAll));
    forall u: nat ensures Orderly(ids, maxWorkers, s', u) {
      assert Orderly(ids, maxWorkers, s, u) && InFlight(s', u) == InFlight(s, u);
    }
  }

  lemma BeginInv(ids: Ids, maxWorkers: nat, s: Routes, r: Request, u: nat)
    requires IdsSound(ids) && Inv(ids, maxWorkers, s)
    requires CanonicalRequest(ids, r) && Target(ids, r) == Some(u) && Proceeds(ids, s.stores, r)
    ensures Inv(ids, maxWorkers, Step(ids, maxWorkers, s, Begin(r)))
  {
    hide Orderly;
    var s' := Step(ids, maxWorkers, s, Begin(r));
    BeginLocal(ids, maxWorkers, s, r, u);
    BeginOrderly(ids, maxWorkers, s, r, u);
    forall v: nat ensures Orderly(ids, maxWorkers, s', v) {
      if v != u {
        OthersOrderly(ids, maxWorkers, s, s', u, v);
      }
    }
  }

  lemma EndInv(ids: Ids, maxWorkers: nat, s: Routes, u: nat)
    requires IdsSound(ids) && Inv(ids, maxWorkers, s) && Enabled(s, End(u, 0))
    ensures Inv(ids, maxWorkers, Step(ids, maxWorkers, s, End(u, 0)))
  {
    hide Orderly;
    hide ManagerHalf;
    var s' := Step(ids, maxWorkers, s, End(u, 0));
    EndLocal(ids, maxWorkers, s, u, 0);
    EndOrderly(ids, maxWorkers, s, u);
    assert ids.parse(ids.text(u)) == Some(u);
    forall v: nat ensures Orderly(ids, maxWorkers, s', v) {
      if v != u {
        OthersOrderly(ids, maxWorkers, s, s', u, v);
      }
    }
  }

  lemma {:induction false} RunInv(ids: Ids, maxWorkers: nat, s: Routes, es: seq<Event>, t: Routes)
    requires IdsSound(ids) && Inv(ids, maxWorkers, s) && Reaches(ids, maxWorkers, s, es, t)
    requires CanonicalIds(ids, es) && InTurn(es)
    ensures Inv(ids, maxWorkers, t)
    decreases |es|
  {
    hide Inv;
    hide Step;
    if es != [] {
      assert CanonicalIds(ids, [es[0]]) && CanonicalIds(ids, es[1..]) && InTurn([es[0]]) && InTurn(es[1..]);
      StepInv(ids, maxWorkers, s, es[0]);
      RunInv(ids, maxWorkers, Step(ids, maxWorkers, s, es[0]), es[1..], t);
    }
  }

  // ---------------------------------------------------------------------------- theorems

  lemma AgreeInv(ids: Ids, maxWorkers: nat, s: Stores)
    requires Agree(ids, maxWorkers, s)
    ensures Inv(ids, maxWorkers, Routes(s, map[]))
  {
    assert forall key :: key in s.pools ==> Backed(ids, maxWorkers, s, key);
  }

  /** However the halves of all requests with canonical ids and ShutdownAll interleave, as long
      as the manager halves of one tenant's requests come in the order of their database halves: at every
      moment each consumer whose tenant has nothing in flight agrees with its row, and when
      nothing at all is in flight the two stores agree. */
  lemma OrderedRequestsAgree(ids: Ids, maxWorkers: nat, s: Stores, es: seq<Event>, t: Routes)
    requires IdsSound(ids) && Agree(ids, maxWorkers, s)
    requires Reaches(ids, maxWorkers, Routes(s, map[]), es, t) && CanonicalIds(ids, es) && InTurn(es)
    ensures forall key :: key in t.stores.pools ==>
              ids.parse(key).Some? && (InFlight(t, ids.parse(key).value) == [] ==> Backed(ids, maxWorkers, t.stores, key))
    ensures NothingInFlight(t) ==> Agree(ids, maxWorkers, t.stores)
  {
    hide Reaches;
    AgreeInv(ids, maxWorkers, s);
    RunInv(ids, maxWorkers, Routes(s, map[]), es, t);
    forall key | key in t.stores.pools
      ensures ids.parse(key).Some? && (InFlight(t, ids.parse(key).value) == [] ==> Backed(ids, maxWorkers, t.stores, key))
    {
      assert Orderly(ids, maxWorkers, t, ids.parse(key).value);
    }
  }

  ghost predicate AtMostOne(s: Routes) {
    forall u: nat :: |InFlight(s, u)| <= 1
  }

  lemma StepAtMostOne(ids: Ids, maxWorkers: nat, s: Routes, e: Event)
    requires AtMostOne(s) && Enabled(s, e) && Apart(ids, maxWorkers, s, [e])
    ensures AtMostOne(Step(ids, maxWorkers, s, e)) && (e.End? ==> e.place == 0)
  {
    var s' := Step(ids, maxWorkers, s, e);
    assert [e][0] == e;
    if e.End? {
      assert |InFlight(s, e.tenant)| <= 1;
    }
    forall u: nat ensures |InFlight(s', u)| <= 1 {
      assert |InFlight(s, u)| <= 1;
    }
  }

  lemma {:induction false} ApartIsInTurn(ids: Ids, maxWorkers: nat, s: Routes, es: seq<Event>, t: Routes)
    requires AtMostOne(s) && Reaches(ids, maxWorkers, s, es, t) && Apart(ids, maxWorkers, s, es)
    ensures InTurn(es)
    decreases |es|
  {
    hide Step;
    hide AtMostOne;
    if es != [] {
      assert Apart(ids, maxWorkers, s, [es[0]]) by {
        assert [es[0]][1..] == [];
      }
      StepAtMostOne(ids, maxWorkers, s, es[0]);
      ApartIsInTurn(ids, maxWorkers, Step(ids, maxWorkers, s, es[0]), es[1..], t);
      assert forall i :: 1 <= i < |es| ==> es[i] == es[1..][i - 1];
    }
  }

  /** In particular, with canonical ids, if no two requests for the same tenant ever overlap,
      whatever other tenants' requests and ShutdownAll do in between. */
  lemma ApartRequestsAgree(ids: Ids, maxWorkers: nat, s: Stores, es: seq<Event>, t: Routes)
    requires IdsSound(ids) && Agree(ids, maxWorkers, s)
    requires Reaches(ids, maxWorkers, Routes(s, map[]), es, t)
    requires CanonicalIds(ids, es) && Apart(ids, maxWorkers, Routes(s, map[]), es)
    ensures NothingInFlight(t) ==> Agree(ids, maxWorkers, t.stores)
  {
    hide Reaches;
    ApartIsInTurn(ids, maxWorkers, Routes(s, map[]), es, t);
    OrderedRequestsAgree(ids, maxWorkers, s, es, t);
  }

  /** Whether r may overtake q: known from the requests and the stores before them. */
  predicate Harmless(ids: Ids, maxWorkers: nat, s: Stores, u: nat, q: Request, r: Request) {
    if q.Create? && r.Delete? then !q.brokerOk
    else if q.Create? && r.Update? then
      !q.brokerOk || PoolSize(r.workers, maxWorkers) == PoolSize(CreateCount(q.workers), maxWorkers)
    else if q.Update? && r.Update? then
      ids.text(u) !in s.pools || PoolSize(q.workers, maxWorkers) == PoolSize(r.workers, maxWorkers)
    else true
  }

  /** Two requests with canonical ids in flight for one tenant, the later one's manager half first: the stores
      agree afterwards if and only if the overtaking is harmless. */
  lemma OvertakingAgreesIff(ids: Ids, maxWorkers: nat, s: Stores, u: nat, q: Request, r: Request)
    requires IdsSound(ids) && Agree(ids, maxWorkers, s)
    requires Target(ids, q) == Some(u) && CanonicalRequest(ids, q) && Proceeds(ids, s, q)
    requires Target(ids, r) == Some(u) && CanonicalRequest(ids, r) && Proceeds(ids, DatabaseHalf(ids, s, q), r)
    ensures var begun := Step(ids, maxWorkers, Step(ids, maxWorkers, Routes(s, map[]), Begin(q)), Begin(r));
            InFlight(begun, u) == [q, r] &&
            var ended := Step(ids, maxWorkers, begun, End(u, 1));
            InFlight(ended, u) == [q] &&
            (Agree(ids, maxWorkers, Step(ids, maxWorkers, ended, End(u, 0)).stores) <==> Harmless(ids, maxWorkers, s, u, q, r))
  {
    hide Agree;
    assert ids.parse(ids.text(u)) == Some(u);
    if q.Create? && r.Delete? {
      InterleavedCreateDelete(ids, maxWorkers, s, u, q.workers, q.brokerOk);
    } else if q.Create? && r.Update? {
      InterleavedCreateUpdate(ids, maxWorkers, s, u, q.workers, r.workers, q.brokerOk);
    } else if q.Update? && r.Update? {
      InterleavedUpdates(ids, maxWorkers, s, u, q.workers, r.workers);
    } else if q.Update? && r.Delete? {
      InterleavedUpdateDelete(ids, maxWorkers, s, u, q.workers);
    } else {
      assert q.Delete? && r.Create?;
      InterleavedDeleteCreate(ids, maxWorkers, s, u, r.workers, r.brokerOk);
    }
  }

  /** A request served whole is its two halves, one after the other. */
  lemma ServeIsARun(ids: Ids, maxWorkers: nat, s: Routes, r: Request) returns (es: seq<Event>, t: Routes)
    requires NothingInFlight(s)
    ensures Reaches(ids, maxWorkers, s, es, t) && NothingInFlight(t) && t.stores == Serve(ids, maxWorkers, s.stores, r)
  {
    hide DatabaseHalf;
    hide ManagerHalf;
    var begun := Step(ids, maxWorkers, s, Begin(r));
    assert [Begin(r)][1..] == [];
    es, t := [Begin(r)], begun;
    if !r.ShutdownAll? && Proceeds(ids, s.stores, r) {
      var u := Target(ids, r).value;
      assert InFlight(s, u) == [] && InFlight(begun, u) == [r];
      es, t := [Begin(r), End(u, 0)], Step(ids, maxWorkers, begun, End(u, 0));
      assert es[1..] == [End(u, 0)] && [End(u, 0)][1..] == [];
      assert Reaches(ids, maxWorkers, begun, [End(u, 0)], t);
    }
    forall v: nat ensures InFlight(t, v) == [] {
      assert InFlight(s, v) == [];
    }
    ShutdownHalf(ids, maxWorkers, s.stores);
  }

  lemma ShutdownHalf(ids: Ids, maxWorkers: nat, s: Stores)
    ensures DatabaseHalf(ids, s, ShutdownAll) == s && Proceeds(ids, s, ShutdownAll)
  {
  }

  lemma {:induction false} ReachesConcat(ids: Ids, maxWorkers: nat, s: Routes, es: seq<Event>, t: Routes, fs: seq<Event>, v: Routes)
    requires Reaches(ids, maxWorkers, s, es, t) && Reaches(ids, maxWorkers, t, fs, v)
    ensures Reaches(ids, maxWorkers, s, es + fs, v)
    decreases |es|
  {
    if es == [] {
      assert es + fs == fs;
    } else {
      ReachesConcat(ids, maxWorkers, Step(ids, maxWorkers, s, es[0]), es[1..], t, fs, v);
      assert (es + fs)[0] == es[0] && (es + fs)[1..] == es[1..] + fs;
    }
  }

  /** Every serial sequence of requests is one of the runs. */
  lemma {:induction false} SerialIsARun(ids: Ids, maxWorkers: nat, s: Routes, rs: seq<Request>) returns (es: seq<Event>, t: Routes)
    requires NothingInFlight(s)
    ensures Reaches(ids, maxWorkers, s, es, t) && NothingInFlight(t) && t.stores == ServeAll(ids, maxWorkers, s.stores, rs)
    decreases |rs|
  {
    hide Reaches;
    hide Serve;
    hide NothingInFlight;
    if rs == [] {
      es, t := [], s;
      ReachesNothing(ids, maxWorkers, s);
    } else {
      var es0, s' := ServeIsARun(ids, maxWorkers, s, rs[0]);
      es, t := SerialIsARun(ids, maxWorkers, s', rs[1..]);
      ReachesConcat(ids, maxWorkers, s, es0, s', es, t);
      es := es0 + es;
    }
  }

  lemma ReachesNothing(ids: Ids, maxWorkers: nat, s: Routes)
    ensures Reaches(ids, maxWorkers, s, [], s)
  {
  }

  // ------------------------------------------------------------- every run, without hypotheses

  function Lookup<K>(m: map<K, int>, k: K): Option<int> {
    if k in m then Some(m[k]) else None
  }

  /** What the event makes of tenant u's row, which is `current` before it. */
  function RowBy(ids: Ids, s: Routes, e: Event, u: nat, current: Option<int>): Option<int> {
    if e.Begin? && Target(ids, e.request) == Some(u) && Proceeds(ids, s.stores, e.request) then
      match e.request
      case Create(_, n, _, _) => Some(CreateCount(n))
      case Update(_, n, _) => Some(n)
      case _ => None
    else current
  }

  /** What the event makes of the consumer under a key, whose size is `current` before it. */
  function SizeBy(ids: Ids, maxWorkers: nat, s: Routes, e: Event, key: string, current: Option<int>): Option<int>
    requires Enabled(s, e)
  {
    match e
    case Begin(r) => if r.ShutdownAll? then None else current
    case End(v, i) =>
      match InFlight(s, v)[i]
      case Create(u, n, _, brokerOk) =>
        if ids.text(u) == key && current.None? && brokerOk then Some(PoolSize(CreateCount(n), maxWorkers)) else current
      case Delete(id, _) => if id == key then None else current
      case Update(id, n, _) => if id == key && current.Some? then Some(PoolSize(n, maxWorkers)) else current
      case ShutdownAll => None
  }

  /** Tenant u's row as the database halves of the run leave it. */
  function LastRow(ids: Ids, maxWorkers: nat, s: Routes, es: seq<Event>, u: nat, current: Option<int>): Option<int>
    decreases |es|
  {
    if es == [] || !Enabled(s, es[0]) then current
    else LastRow(ids, maxWorkers, Step(ids, maxWorkers, s, es[0]), es[1..], u, RowBy(ids, s, es[0], u, current))
  }

  /** The size of the consumer under a key as the manager halves of the run leave it. */
  function LastSize(ids: Ids, maxWorkers: nat, s: Routes, es: seq<Event>, key: string, current: Option<int>): Option<int>
    decreases |es|
  {
    if es == [] || !Enabled(s, es[0]) then current
    else LastSize(ids, maxWorkers, Step(ids, maxWorkers, s, es[0]), es[1..], key,
                  SizeBy(ids, maxWorkers, s, es[0], key, current))
  }

  /** Rows have counts in 1..50, and consumers canonical keys. */
  ghost predicate Tidy(ids: Ids, s: Stores) {
    && (forall u :: u in s.rows ==> 1 <= s.rows[u] <= 50)
    && (forall key :: key in s.pools ==> ids.parse(key).Some? && key == ids.text(ids.parse(key).value))
  }

  lemma StepRow(ids: Ids, maxWorkers: nat, s: Routes, e: Event, u: nat)
    requires Enabled(s, e)
    ensures Lookup(Step(ids, maxWorkers, s, e).stores.rows, u) == RowBy(ids, s, e, u, Lookup(s.stores.rows, u))
  {
  }

  lemma StepSize(ids: Ids, maxWorkers: nat, s: Routes, e: Event, key: string)
    requires Enabled(s, e)
    ensures Lookup(Step(ids, maxWorkers, s, e).stores.pools, key) == SizeBy(ids, maxWorkers, s, e, key, Lookup(s.stores.pools, key))
  {
  }

  lemma StepTidy(ids: Ids, maxWorkers: nat, s: Routes, e: Event)
    requires IdsSound(ids) && Tidy(ids, s.stores) && Enabled(s, e)
    ensures Tidy(ids, Step(ids, maxWorkers, s, e).stores)
  {
    if e.End? {
      var r := InFlight(s, e.tenant)[e.place];
      if r.Create? {
        assert ids.parse(ids.text(r.uuid)) == Some(r.uuid);
      }
    }
  }

  lemma {:induction false} RunTidy(ids: Ids, maxWorkers: nat, s: Routes, es: seq<Event>, t: Routes)
    requires IdsSound(ids) && Tidy(ids, s.stores) && Reaches(ids, maxWorkers, s, es, t)
    ensures Tidy(ids, t.stores)
    decreases |es|
  {
    hide Tidy;
    hide Step;
    if es != [] {
      StepTidy(ids, maxWorkers, s, es[0]);
      RunTidy(ids, maxWorkers, Step(ids, maxWorkers, s, es[0]), es[1..], t);
    }
  }

  lemma {:induction false} RunLeaves(ids: Ids, maxWorkers: nat, s: Routes, es: seq<Event>, t: Routes, u: nat, key: string)
    requires Reaches(ids, maxWorkers, s, es, t)
    ensures Lookup(t.stores.rows, u) == LastRow(ids, maxWorkers, s, es, u, Lookup(s.stores.rows, u))
    ensures Lookup(t.stores.pools, key) == LastSize(ids, maxWorkers, s, es, key, Lookup(s.stores.pools, key))
    decreases |es|
  {
    hide Lookup;
    hide Step;
    hide RowBy;
    hide SizeBy;
    if es != [] {
      StepRow(ids, maxWorkers, s, es[0], u);
      StepSize(ids, maxWorkers, s, es[0], key);
      RunLeaves(ids, maxWorkers, Step(ids, maxWorkers, s, es[0]), es[1..], t, u, key);
    }
  }

  /** There is no consumer, or there is a row and the consumer has its size. */
  predicate Fits(maxWorkers: nat, row: Option<int>, size: Option<int>) {
    size.None? || (row.Some? && size == Some(PoolSize(row.value, maxWorkers)))
  }

  lemma AgreeIffFits(ids: Ids, maxWorkers: nat, s: Stores)
    requires IdsSound(ids) && Tidy(ids, s)
    ensures Agree(ids, maxWorkers, s) <==>
              forall u: nat :: Fits(maxWorkers, Lookup(s.rows, u), Lookup(s.pools, ids.text(u)))
  {
    forall u: nat | ids.text(u) in s.pools
      ensures Backed(ids, maxWorkers, s, ids.text(u)) <==> Fits(maxWorkers, Lookup(s.rows, u), Lookup(s.pools, ids.text(u)))
    {
      assert ids.parse(ids.text(u)) == Some(u);
    }
    if forall u: nat :: Fits(maxWorkers, Lookup(s.rows, u), Lookup(s.pools, ids.text(u))) {
      forall key | key in s.pools ensures Backed(ids, maxWorkers, s, key) {
        assert Fits(maxWorkers, Lookup(s.rows, ids.parse(key).value), Lookup(s.pools, ids.text(ids.parse(key).value)));
      }
    }
  }

  /** Over every run, whatever overlaps or overtakes and however ids are spelled: the stores agree
      at its end if and only if for each tenant the manager halves left no consumer, or one of
      the size of the row that the database halves left. */
  lemma RunAgreesIff(ids: Ids, maxWorkers: nat, s: Stores, es: seq<Event>, t: Routes)
    requires IdsSound(ids) && Agree(ids, maxWorkers, s) && Reaches(ids, maxWorkers, Routes(s, map[]), es, t)
    ensures Agree(ids, maxWorkers, t.stores) <==>
              forall u: nat ::
                Fits(maxWorkers, LastRow(ids, maxWorkers, Routes(s, map[]), es, u, Lookup(s.rows, u)),
                     LastSize(ids, maxWorkers, Routes(s, map[]), es, ids.text(u), Lookup(s.pools, ids.text(u))))
  {
    hide Reaches;
    hide LastRow;
    hide LastSize;
    hide Fits;
    hide Lookup;
    assert Tidy(ids, s) by {
      assert forall key :: key in s.pools ==> Backed(ids, maxWorkers, s, key);
    }
    RunTidy(ids, maxWorkers, Routes(s, map[]), es, t);
    AgreeIffFits(ids, maxWorkers, t.stores);
    forall u: nat
      ensures Lookup(t.stores.rows, u) == LastRow(ids, maxWorkers, Routes(s, map[]), es, u, Lookup(s.rows, u))
      ensures Lookup(t.stores.pools, ids.text(u))
              == LastSize(ids, maxWorkers, Routes(s, map[]), es, ids.text(u), Lookup(s.pools, ids.text(u)))
    {
      RunLeaves(ids, maxWorkers, Routes(s, map[]), es, t, u, ids.text(u));
    }
  }
}

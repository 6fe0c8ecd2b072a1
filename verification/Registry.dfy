/**
 The two stores the tenant routes keep in step: the rows of the tenants table and the
 worker counts of the registered consumers. Every request changes the database first and the
 manager second, without a common transaction.
 */
module Registry {
  import opened Wrappers

  /** Tenant ids: the database compares parsed UUIDs, the manager compares texts. */
  datatype Ids = Ids(parse: string -> Option<nat>, text: nat -> string)

  ghost predicate IdsSound(ids: Ids) {
    forall u: nat :: ids.parse(ids.text(u)) == Some(u)
  }

  /** rows: tenants.concurrency by id; pools: the advertised worker count by consumer key. */
  datatype Stores = Stores(rows: map<nat, int>, pools: map<string, int>)

  datatype Request =
    | Create(uuid: nat, workers: int, insertOk: bool, brokerOk: bool)
    | Delete(id: string, dbOk: bool)
    | Update(id: string, workers: int, dbOk: bool)
    | ShutdownAll

  /** What Manager and WorkerPool make of a worker count that is at least 1. */
  function PoolSize(workers: int, maxWorkers: nat): int {
    var n := if workers > maxWorkers then maxWorkers else workers;
    if n <= 0 then 1 else n
  }

  /** TenantService.CreateTenant replaces a count outside 1..50 by 3. */
  function CreateCount(workers: int): int {
    if 0 < workers <= 50 then workers else 3
  }

  // ---------------------------------------------- the halves of the requests, each atomic

  predicate CanInsert(s: Stores, uuid: nat, insertOk: bool) {
    insertOk && uuid !in s.rows
  }

  function InsertRow(s: Stores, uuid: nat, workers: int): Stores {
    s.(rows := s.rows[uuid := CreateCount(workers)])
  }

  function SpawnPool(s: Stores, key: string, workers: int, maxWorkers: nat, brokerOk: bool): Stores {
    if key in s.pools || !brokerOk then s else s.(pools := s.pools[key := PoolSize(workers, maxWorkers)])
  }

  predicate HasRow(ids: Ids, s: Stores, id: string) {
    ids.parse(id).Some? && ids.parse(id).value in s.rows
  }

  function DeleteRow(ids: Ids, s: Stores, id: string): Stores {
    if HasRow(ids, s, id) then s.(rows := s.rows - {ids.parse(id).value}) else s
  }

  function StopPool(s: Stores, key: string): Stores {
    s.(pools := s.pools - {key})
  }

  function UpdateRow(ids: Ids, s: Stores, id: string, workers: int): Stores {
    if HasRow(ids, s, id) then s.(rows := s.rows[ids.parse(id).value := workers]) else s
  }

  function ResizePool(s: Stores, key: string, workers: int, maxWorkers: nat): Stores {
    if key in s.pools then s.(pools := s.pools[key := PoolSize(workers, maxWorkers)]) else s
  }

  /** Whether the database half succeeds, so that the request goes on to the manager. */
  predicate Proceeds(ids: Ids, s: Stores, r: Request) {
    match r
    case Create(u, _, insertOk, _) => CanInsert(s, u, insertOk)
    case Delete(id, dbOk) => dbOk && HasRow(ids, s, id)
    case Update(id, n, dbOk) => dbOk && 0 < n <= 50 && HasRow(ids, s, id)
    case ShutdownAll => true
  }

  function DatabaseHalf(ids: Ids, s: Stores, r: Request): Stores {
    match r
    case Create(u, n, _, _) => InsertRow(s, u, n)
    case Delete(id, _) => DeleteRow(ids, s, id)
    case Update(id, n, _) => UpdateRow(ids, s, id, n)
    case ShutdownAll => s
  }

  function ManagerHalf(ids: Ids, maxWorkers: nat, s: Stores, r: Request): Stores {
    match r
    case Create(u, n, _, brokerOk) => SpawnPool(s, ids.text(u), CreateCount(n), maxWorkers, brokerOk)
    case Delete(id, _) => StopPool(s, id)
    case Update(id, n, _) => ResizePool(s, id, n, maxWorkers)
    case ShutdownAll => s.(pools := map[])
  }

  /** A request from start to end, with nothing in between its halves. */
  function Serve(ids: Ids, maxWorkers: nat, s: Stores, r: Request): Stores {
    if Proceeds(ids, s, r) then ManagerHalf(ids, maxWorkers, DatabaseHalf(ids, s, r), r) else s
  }

  function ServeAll(ids: Ids, maxWorkers: nat, s: Stores, rs: seq<Request>): Stores
    decreases |rs|
  {
    if rs == [] then s else ServeAll(ids, maxWorkers, Serve(ids, maxWorkers, s, rs[0]), rs[1..])
  }

  // ---------------------------------------------------------------------------- agreement

  /** The consumer under this key has a row, is keyed by the row's canonical text, and its
      pool has the size the row asks for. */
  predicate Backed(ids: Ids, maxWorkers: nat, s: Stores, key: string) {
    && HasRow(ids, s, key) && key == ids.text(ids.parse(key).value)
    && key in s.pools && s.pools[key] == PoolSize(s.rows[ids.parse(key).value], maxWorkers)
  }

  ghost predicate Agree(ids: Ids, maxWorkers: nat, s: Stores) {
    && (forall u :: u in s.rows ==> 1 <= s.rows[u] <= 50)
    && (forall key :: key in s.pools ==> Backed(ids, maxWorkers, s, key))
  }

  /** Agreement in words: counts within 1 and 50, and every consumer under its tenant's canonical
      id, with the size its row asks for, capped by the limit. */
  lemma AgreeInWords(ids: Ids, maxWorkers: nat, s: Stores)
    ensures Agree(ids, maxWorkers, s) <==>
              && (forall u :: u in s.rows ==> 1 <= s.rows[u] <= 50)
              && forall key :: key in s.pools ==>
                   && ids.parse(key).Some? && ids.parse(key).value in s.rows && key == ids.text(ids.parse(key).value)
                   && var asked := s.rows[ids.parse(key).value];
                      s.pools[key] == if asked > maxWorkers then Max(maxWorkers, 1) else if asked <= 0 then 1 else asked
  {
    if forall key :: key in s.pools ==> Backed(ids, maxWorkers, s, key) {
    } else {
      var key :| key in s.pools && !Backed(ids, maxWorkers, s, key);
    }
  }

  /** ShutdownAll stops every consumer and leaves the rows. */
  lemma ShutdownInWords(ids: Ids, maxWorkers: nat, s: Stores)
    ensures Serve(ids, maxWorkers, s, ShutdownAll) == Stores(s.rows, map[])
  {
  }

  /** The id is spelled the way the database prints it. */
  predicate Canonical(ids: Ids, id: string) {
    ids.parse(id).Some? ==> id == ids.text(ids.parse(id).value)
  }

  /** Whether serving r keeps the stores in agreement, as far as can be seen beforehand: a
      delete or update that reaches the row must also name its consumer. */
  predicate Safe(ids: Ids, maxWorkers: nat, s: Stores, r: Request) {
    match r
    case Delete(id, dbOk) =>
      dbOk && HasRow(ids, s, id) ==>
        Canonical(ids, id) || ids.text(ids.parse(id).value) !in s.pools
    case Update(id, n, dbOk) =>
      dbOk && 0 < n <= 50 && HasRow(ids, s, id) ==>
        Canonical(ids, id) || ids.text(ids.parse(id).value) !in s.pools
        || PoolSize(n, maxWorkers) == PoolSize(s.rows[ids.parse(id).value], maxWorkers)
    case _ => true
  }

  lemma CreateAgrees(ids: Ids, maxWorkers: nat, s: Stores, u: nat, n: int, insertOk: bool, brokerOk: bool)
    requires IdsSound(ids) && Agree(ids, maxWorkers, s)
    ensures Agree(ids, maxWorkers, Serve(ids, maxWorkers, s, Create(u, n, insertOk, brokerOk)))
  {
    var s' := Serve(ids, maxWorkers, s, Create(u, n, insertOk, brokerOk));
    assert ids.parse(ids.text(u)) == Some(u);
    forall key | key in s'.pools ensures Backed(ids, maxWorkers, s', key) {
      assert key in s.pools ==> Backed(ids, maxWorkers, s, key);
    }
  }

  lemma DeleteAgreesIff(ids: Ids, maxWorkers: nat, s: Stores, id: string, dbOk: bool)
    requires IdsSound(ids) && Agree(ids, maxWorkers, s)
    ensures Agree(ids, maxWorkers, Serve(ids, maxWorkers, s, Delete(id, dbOk))) <==> Safe(ids, maxWorkers, s, Delete(id, dbOk))
  {
    if dbOk && HasRow(ids, s, id) {
      var s', u := Serve(ids, maxWorkers, s, Delete(id, dbOk)), ids.parse(id).value;
      assert ids.parse(ids.text(u)) == Some(u);
      if Safe(ids, maxWorkers, s, Delete(id, dbOk)) {
        forall key | key in s'.pools ensures Backed(ids, maxWorkers, s', key) {
          assert Backed(ids, maxWorkers, s, key);
        }
      } else {
        assert ids.text(u) in s'.pools && !Backed(ids, maxWorkers, s', ids.text(u));
      }
    }
  }

  lemma UpdateAgreesIff(ids: Ids, maxWorkers: nat, s: Stores, id: string, n: int, dbOk: bool)
    requires IdsSound(ids) && Agree(ids, maxWorkers, s)
    ensures Agree(ids, maxWorkers, Serve(ids, maxWorkers, s, Update(id, n, dbOk))) <==> Safe(ids, maxWorkers, s, Update(id, n, dbOk))
  {
    if dbOk && 0 < n <= 50 && HasRow(ids, s, id) {
      var s', u := Serve(ids, maxWorkers, s, Update(id, n, dbOk)), ids.parse(id).value;
      assert ids.parse(ids.text(u)) == Some(u);
      if Safe(ids, maxWorkers, s, Update(id, n, dbOk)) {
        forall key | key in s'.pools ensures Backed(ids, maxWorkers, s', key) {
          assert Backed(ids, maxWorkers, s, key);
        }
      } else {
        assert Backed(ids, maxWorkers, s, ids.text(u));
        assert ids.text(u) in s'.pools && !Backed(ids, maxWorkers, s', ids.text(u));
      }
    }
  }

  /** Stores in agreement stay so under a request if and only if the request is safe. */
  lemma ServeAgreesIff(ids: Ids, maxWorkers: nat, s: Stores, r: Request)
    requires IdsSound(ids) && Agree(ids, maxWorkers, s)
    ensures Agree(ids, maxWorkers, Serve(ids, maxWorkers, s, r)) <==> Safe(ids, maxWorkers, s, r)
  {
    match r
    case Create(u, n, insertOk, brokerOk) => CreateAgrees(ids, maxWorkers, s, u, n, insertOk, brokerOk);
    case Delete(id, dbOk) => DeleteAgreesIff(ids, maxWorkers, s, id, dbOk);
    case Update(id, n, dbOk) => UpdateAgreesIff(ids, maxWorkers, s, id, n, dbOk);
    case ShutdownAll =>
  }

  predicate CanonicalRequest(ids: Ids, r: Request) {
    (r.Delete? || r.Update?) ==> Canonical(ids, r.id)
  }

  /** Over any serial sequence of requests with canonical ids, failures included, every
      registered consumer has a row, its pool has the row's size capped by the limit, and
      every row's count is between 1 and 50. */
  lemma {:induction false} SerialRequestsAgree(ids: Ids, maxWorkers: nat, s: Stores, rs: seq<Request>)
    requires IdsSound(ids) && Agree(ids, maxWorkers, s)
    requires forall i :: 0 <= i < |rs| ==> CanonicalRequest(ids, rs[i])
    ensures Agree(ids, maxWorkers, ServeAll(ids, maxWorkers, s, rs))
    decreases |rs|
  {
    if rs != [] {
      assert CanonicalRequest(ids, rs[0]);
      ServeAgreesIff(ids, maxWorkers, s, rs[0]);
      SerialRequestsAgree(ids, maxWorkers, Serve(ids, maxWorkers, s, rs[0]), rs[1..]);
    }
  }

  /** A delete between the two halves of a create leaves a consumer without a row, unless the
      consumer cannot be started. */
  lemma InterleavedCreateDelete(ids: Ids, maxWorkers: nat, s: Stores, u: nat, n: int, brokerOk: bool)
    requires IdsSound(ids) && Agree(ids, maxWorkers, s) && u !in s.rows
    ensures var key := ids.text(u);
            var inserted := InsertRow(s, u, n);
            var deleted := StopPool(DeleteRow(ids, inserted, key), key);
            var spawned := SpawnPool(deleted, key, CreateCount(n), maxWorkers, brokerOk);
            Agree(ids, maxWorkers, spawned) <==> !brokerOk
  {
    var key := ids.text(u);
    assert ids.parse(key) == Some(u);
    assert key !in s.pools by {
      assert key in s.pools ==> Backed(ids, maxWorkers, s, key);
    }
    var deleted := StopPool(DeleteRow(ids, InsertRow(s, u, n), key), key);
    assert deleted.rows == s.rows && deleted.pools == s.pools;
    if brokerOk {
      assert !Backed(ids, maxWorkers, SpawnPool(deleted, key, CreateCount(n), maxWorkers, true), key);
    }
  }

  /** An update between the two halves of a create changes the row only; the consumer then
      starts with the count of the create. */
  lemma InterleavedCreateUpdate(ids: Ids, maxWorkers: nat, s: Stores, u: nat, n: int, m: int, brokerOk: bool)
    requires IdsSound(ids) && Agree(ids, maxWorkers, s) && u !in s.rows && 0 < m <= 50
    ensures var key := ids.text(u);
            var inserted := InsertRow(s, u, n);
            var updated := ResizePool(UpdateRow(ids, inserted, key, m), key, m, maxWorkers);
            var spawned := SpawnPool(updated, key, CreateCount(n), maxWorkers, brokerOk);
            Agree(ids, maxWorkers, spawned) <==>
              !brokerOk || PoolSize(m, maxWorkers) == PoolSize(CreateCount(n), maxWorkers)
  {
    var key := ids.text(u);
    assert ids.parse(key) == Some(u);
    assert key !in s.pools by {
      assert key in s.pools ==> Backed(ids, maxWorkers, s, key);
    }
    var updated := ResizePool(UpdateRow(ids, InsertRow(s, u, n), key, m), key, m, maxWorkers);
    assert updated == Stores(s.rows[u := m], s.pools);
    var spawned := SpawnPool(updated, key, CreateCount(n), maxWorkers, brokerOk);
    forall k | k in s.pools ensures Backed(ids, maxWorkers, spawned, k) {
      assert Backed(ids, maxWorkers, s, k);
    }
    assert brokerOk ==> spawned.pools == s.pools[key := PoolSize(CreateCount(n), maxWorkers)];
    assert Backed(ids, maxWorkers, spawned, key) <==> brokerOk && PoolSize(m, maxWorkers) == PoolSize(CreateCount(n), maxWorkers);
  }

  /** Two updates whose halves cross leave the row with one count and the pool with the other. */
  lemma InterleavedUpdates(ids: Ids, maxWorkers: nat, s: Stores, u: nat, m: int, n: int)
    requires IdsSound(ids) && Agree(ids, maxWorkers, s) && u in s.rows
    requires 0 < m <= 50 && 0 < n <= 50
    ensures var key := ids.text(u);
            var rowsDone := UpdateRow(ids, UpdateRow(ids, s, key, m), key, n);
            var poolsDone := ResizePool(ResizePool(rowsDone, key, n, maxWorkers), key, m, maxWorkers);
            Agree(ids, maxWorkers, poolsDone) <==> key !in s.pools || PoolSize(m, maxWorkers) == PoolSize(n, maxWorkers)
  {
    var key := ids.text(u);
    assert ids.parse(key) == Some(u);
    var rowsDone := UpdateRow(ids, UpdateRow(ids, s, key, m), key, n);
    var poolsDone := ResizePool(ResizePool(rowsDone, key, n, maxWorkers), key, m, maxWorkers);
    assert poolsDone.rows == s.rows[u := n];
    assert poolsDone.pools == if key in s.pools then s.pools[key := PoolSize(m, maxWorkers)] else s.pools;
    forall k | k in s.pools && k != key ensures Backed(ids, maxWorkers, poolsDone, k) {
      assert Backed(ids, maxWorkers, s, k);
    }
    assert key in s.pools ==>
             (Backed(ids, maxWorkers, poolsDone, key) <==> PoolSize(m, maxWorkers) == PoolSize(n, maxWorkers));
  }

  /** An update and a delete may cross in any way: the tenant is gone from both stores. */
  lemma InterleavedUpdateDelete(ids: Ids, maxWorkers: nat, s: Stores, u: nat, n: int)
    requires IdsSound(ids) && Agree(ids, maxWorkers, s) && u in s.rows && 0 < n <= 50
    ensures var key := ids.text(u);
            var rowsDone := DeleteRow(ids, UpdateRow(ids, s, key, n), key);
            var gone := Stores(s.rows - {u}, s.pools - {key});
            && ResizePool(StopPool(rowsDone, key), key, n, maxWorkers) == gone
            && StopPool(ResizePool(rowsDone, key, n, maxWorkers), key) == gone
            && Agree(ids, maxWorkers, gone)
  {
    var key := ids.text(u);
    assert ids.parse(key) == Some(u);
    assert s.rows[u := n] - {u} == s.rows - {u};
    assert key in s.pools ==> s.pools[key := PoolSize(n, maxWorkers)] - {key} == s.pools - {key};
    forall k | k in s.pools - {key} ensures Backed(ids, maxWorkers, Stores(s.rows - {u}, s.pools - {key}), k) {
      assert Backed(ids, maxWorkers, s, k);
    }
  }

  /** A create whose halves both come between those of a delete leaves its row and no consumer. */
  lemma InterleavedDeleteCreate(ids: Ids, maxWorkers: nat, s: Stores, u: nat, n: int, brokerOk: bool)
    requires IdsSound(ids) && Agree(ids, maxWorkers, s) && u in s.rows
    ensures var key := ids.text(u);
            var inserted := InsertRow(DeleteRow(ids, s, key), u, n);
            Agree(ids, maxWorkers, StopPool(SpawnPool(inserted, key, CreateCount(n), maxWorkers, brokerOk), key))
  {
    var key := ids.text(u);
    assert ids.parse(key) == Some(u);
    var t := StopPool(SpawnPool(InsertRow(DeleteRow(ids, s, key), u, n), key, CreateCount(n), maxWorkers, brokerOk), key);
    assert t.pools == s.pools - {key};
    forall k | k in t.pools ensures Backed(ids, maxWorkers, t, k) {
      assert Backed(ids, maxWorkers, s, k);
    }
  }
}

/**
 One message's processing: the retry loop, the database rows it writes, and dead-lettering.
 */
module Retry {
  import opened WorkItems
  import opened Wrappers
  import B = Backoff

  datatype Status = StatusPending | StatusProcessing | StatusCompleted | StatusFailed

  datatype Key = Key(id: string, tenant: string)

  datatype Row = Row(payload: Payload, status: Status, retryCount: int)

  datatype DeadLetter = DeadLetter(messageID: string, tenantID: string, payload: Payload, retryCount: int)

  /** A row version that reached the database. */
  datatype Version = Version(key: Key, status: Status, retryCount: int)

  /** What the database and the simulated work do during one handleMessage call. Each
      statement succeeds or fails as a whole. */
  datatype Conditions = Conditions(upsertOk: bool, workOk: bool, completeOk: bool)

  function KeyOf(item: WorkItem): Key {
    Key(item.messageID, item.tenantID)
  }

  predicate Upserts(item: WorkItem, c: Conditions) {
    item.payload.isObject && c.upsertOk
  }

  predicate Succeeds(item: WorkItem, c: Conditions) {
    Upserts(item, c) && c.workOk && c.completeOk
  }

  function Results(item: WorkItem, env: nat -> Conditions): nat -> bool {
    (i: nat) => Succeeds(item, env(i))
  }

  lemma ExhaustedAfter(item: WorkItem, env: nat -> Conditions, maxRetry: int, n: nat)
    requires forall i: nat :: i < n ==> !Succeeds(item, env(i))
    ensures n > maxRetry ==> Exhausted(Results(item, env), maxRetry)
    ensures n <= maxRetry && Succeeds(item, env(n)) ==> !Exhausted(Results(item, env), maxRetry)
  {
    assert Results(item, env)(n) == Succeeds(item, env(n));
  }

  /** The retry count the loop's copy of the item carries during attempt number i. */
  function CountAt(item: WorkItem, i: nat): int {
    if i == 0 then item.retryCount else i
  }

  /** The attempts among the first n that write a 'processing' row. */
  function Writers(item: WorkItem, env: nat -> Conditions, n: nat): seq<nat> {
    if n == 0 then []
    else Writers(item, env, n - 1) + if Upserts(item, env(n - 1)) then [n - 1] else []
  }

  /** The versions those attempts write. */
  function Processings(item: WorkItem, env: nat -> Conditions, n: nat): seq<Version> {
    if n == 0 then []
    else Processings(item, env, n - 1) + if Upserts(item, env(n - 1)) then [Processed(item, n - 1)] else []
  }

  function Processed(item: WorkItem, attempt: nat): Version {
    Version(KeyOf(item), StatusProcessing, CountAt(item, attempt))
  }

  /** The table after a run of versions of the item's row: the last one counts. */
  function Written(m: map<Key, Row>, item: WorkItem, vs: seq<Version>): map<Key, Row> {
    if vs == [] then m
    else
      var last := vs[|vs| - 1];
      var payload := if KeyOf(item) in m then m[KeyOf(item)].payload else item.payload;
      m[KeyOf(item) := Row(payload, last.status, last.retryCount)]
  }

  lemma WrittenNone(m: map<Key, Row>, item: WorkItem)
    ensures Written(m, item, []) == m
  {
  }

  /** Versions written one after the other, by copies of the same item. */
  lemma WrittenConcat(m: map<Key, Row>, item: WorkItem, a: seq<Version>, count: int, b: seq<Version>)
    ensures Written(Written(m, item, a), item.(retryCount := count), b) == Written(m, item, a + b)
  {
    if b == [] {
      assert a + b == a;
    }
  }

  lemma WrittenElsewhere(m: map<Key, Row>, item: WorkItem, vs: seq<Version>)
    ensures forall k: Key :: k.id != item.messageID || k.tenant != item.tenantID ==>
              (k in Written(m, item, vs) <==> k in m) && (k in m ==> Written(m, item, vs)[k] == m[k])
  {
  }

  lemma WrittenLast(m: map<Key, Row>, item: WorkItem, vs: seq<Version>)
    requires vs != []
    ensures var key := Key(item.messageID, item.tenantID);
            key in Written(m, item, vs) && Written(m, item, vs)[key].status == vs[|vs| - 1].status
  {
  }

  lemma OutcomeInWords(item: WorkItem, maxRetry: int, env: nat -> Conditions)
    ensures OutcomeOf(item, maxRetry, Results(item, env)).Completed? <==>
              item.payload.isObject
              && exists i: nat :: i <= maxRetry && env(i).upsertOk && env(i).workOk && env(i).completeOk
    ensures OutcomeOf(item, maxRetry, Results(item, env)).DeadLettered? <==>
              Exhausted(Results(item, env), maxRetry) && item.retryCount >= maxRetry
  {
    var results := Results(item, env);
    if i: nat :| i <= maxRetry && env(i).upsertOk && env(i).workOk && env(i).completeOk {
      assert results(i) == Succeeds(item, env(i));
    }
    if !Exhausted(results, maxRetry) {
      var i: nat :| i <= maxRetry && results(i);
      assert results(i) == Succeeds(item, env(i));
    }
  }

  /** What the attempt numbered n adds to the versions before it. */
  lemma AttemptVersions(m: map<Key, Row>, item: WorkItem, env: nat -> Conditions, n: nat, now: map<Key, Row>, vs: seq<Version>)
    requires vs == Handled(item.(retryCount := CountAt(item, n)), env(n))
    requires now == Written(Written(m, item, Processings(item, env, n)), item.(retryCount := CountAt(item, n)), vs)
    ensures Processings(item, env, n) + vs == Processings(item, env, n + 1) + Tail(item, env(n), CountAt(item, n))
    ensures now == Written(m, item, Processings(item, env, n + 1) + Tail(item, env(n), CountAt(item, n)))
  {
    WrittenConcat(m, item, Processings(item, env, n), CountAt(item, n), vs);
  }

  function Tail(item: WorkItem, c: Conditions, count: int): seq<Version> {
    if Succeeds(item, c) then [Version(KeyOf(item), StatusCompleted, count)] else []
  }

  /** The versions one handleMessage call writes. */
  function Handled(item: WorkItem, c: Conditions): seq<Version> {
    (if Upserts(item, c) then [Version(KeyOf(item), StatusProcessing, item.retryCount)] else [])
      + Tail(item, c, item.retryCount)
  }

  class Store {
    var messages: map<Key, Row>
    var deadLetters: seq<DeadLetter>

    /** handleMessage: the upsert marks the message's own row as being processed, the final
        update as completed; every other row stays. */
    method HandleMessage(item: WorkItem, c: Conditions) returns (ok: bool)
      modifies this
      ensures ok <==> item.payload.isObject && c.upsertOk && c.workOk && c.completeOk
      ensures !(item.payload.isObject && c.upsertOk) ==> messages == old(messages)
      ensures item.payload.isObject && c.upsertOk ==>
                var key := Key(item.messageID, item.tenantID);
                && key in messages
                && messages[key].status == (if ok then StatusCompleted else StatusProcessing)
                && messages[key].retryCount == item.retryCount
                && messages[key].payload == (if key in old(messages) then old(messages)[key].payload else item.payload)
      ensures forall k: Key :: k.id != item.messageID || k.tenant != item.tenantID ==>
                (k in messages <==> k in old(messages)) && (k in messages ==> messages[k] == old(messages)[k])
      ensures ok == Succeeds(item, c)
      ensures deadLetters == old(deadLetters)
      ensures messages == Written(old(messages), item, Handled(item, c))
    {
      if !item.payload.isObject {
        return false;
      }
      if !c.upsertOk {
        return false;
      }
      var key := KeyOf(item);
      if key in messages {
        messages := messages[key := messages[key].(status := StatusProcessing, retryCount := item.retryCount)];
      } else {
        messages := messages[key := Row(item.payload, StatusProcessing, item.retryCount)];
      }
      if !c.workOk {
        return false;
      }
      if !c.completeOk {
        return false;
      }
      messages := messages[key := messages[key].(status := StatusCompleted)];
      return true;
    }

    /** processWithRetry. `last` is the loop's own copy of the item as it ends up, which the
        caller never sees; `vs` are the row versions that reached the table. */
    method ProcessWithRetry(item: WorkItem, maxRetry: int, env: nat -> Conditions, jitter: nat -> int)
      returns (ok: bool, attempts: nat, pauses: seq<int>, last: WorkItem, ghost vs: seq<Version>)
      modifies this
      ensures Attempted(item, maxRetry, env, jitter, ok, attempts, pauses)
      ensures PausedFor(jitter, if ok then attempts - 1 else if maxRetry < 0 then 0 else maxRetry, pauses)
      ensures last == item.(retryCount := if !ok && maxRetry >= 0 then maxRetry + 1
                                          else CountAt(item, if ok then attempts - 1 else 0))
      ensures vs == Processings(item, env, attempts)
                + (if ok then [Version(KeyOf(item), StatusCompleted, CountAt(item, attempts - 1))] else [])
      ensures messages == Written(old(messages), item, vs)
      ensures deadLetters == old(deadLetters)
    {
      hide Written;
      hide Handled;
      hide Exhausted;
      hide Results;
      hide Attempted;
      hide PausedFor;
      hide B.Pause;
      hide B.Pauses;
      last := item;
      pauses := [];
      attempts := 0;
      vs := [];
      WrittenNone(messages, item);
      B.PausesNext(0, jitter);
      while attempts <= maxRetry
        invariant maxRetry < 0 ==> attempts == 0
        invariant maxRetry >= 0 ==> attempts <= maxRetry
        invariant last == item.(retryCount := CountAt(item, attempts))
        invariant pauses == B.Pauses(attempts, jitter)
        invariant forall i: nat :: i < attempts ==> !Succeeds(item, env(i))
        invariant deadLetters == old(deadLetters)
        invariant vs == Processings(item, env, attempts)
        invariant messages == Written(old(messages), item, vs)
        decreases maxRetry - attempts
      {
        var attempt := attempts;
        ok := HandleMessage(last, env(attempt));
        AttemptVersions(old(messages), item, env, attempt, messages, Handled(last, env(attempt)));
        vs := vs + Handled(last, env(attempt));
        attempts := attempt + 1;
        if ok {
          WentThrough(item, maxRetry, env, jitter, attempt);
          return;
        }
        last := last.(retryCount := attempt + 1);
        if last.retryCount > maxRetry {
          GaveUp(item, maxRetry, env, jitter);
          return;
        }
        pauses := pauses + [B.Pause(attempt, jitter(attempt))];
        B.PausesNext(attempt, jitter);
      }
      GaveUp(item, maxRetry, env, jitter);
      ok := false;
    }

    /** moveToDeadLetter: the letter carries the item it is given; the mark needs a row. */
    method MoveToDeadLetter(item: WorkItem, insertOk: bool, markOk: bool) returns (ghost vs: seq<Version>)
      modifies this
      ensures deadLetters == old(deadLetters)
                + if insertOk then [DeadLetter(item.messageID, item.tenantID, item.payload, item.retryCount)] else []
      ensures var key := Key(item.messageID, item.tenantID);
              && (key in messages <==> key in old(messages))
              && (key in messages ==> messages[key] == if markOk then old(messages)[key].(status := StatusFailed) else old(messages)[key])
      ensures forall k: Key :: k.id != item.messageID || k.tenant != item.tenantID ==>
                (k in messages <==> k in old(messages)) && (k in messages ==> messages[k] == old(messages)[k])
      ensures vs == if markOk && KeyOf(item) in old(messages)
                    then [Version(KeyOf(item), StatusFailed, old(messages)[KeyOf(item)].retryCount)] else []
      ensures messages == Written(old(messages), item, vs)
    {
      vs := [];
      if insertOk {
        deadLetters := deadLetters + [LetterOf(item)];
      }
      var key := KeyOf(item);
      if markOk && key in messages {
        messages := messages[key := messages[key].(status := StatusFailed)];
        vs := [Version(key, StatusFailed, messages[key].retryCount)];
      }
    }

    /** processWork: completed if one of the attempts 0 to maxRetry goes through; otherwise the
        test for dead-lettering reads the caller's item. */
    method ProcessWork(item: WorkItem, maxRetry: int, env: nat -> Conditions, jitter: nat -> int,
                       insertOk: bool, markOk: bool)
      returns (outcome: Outcome, ghost attempts: nat, ghost vs: seq<Version>)
      modifies this
      ensures outcome == OutcomeOf(item, maxRetry, Results(item, env))
      ensures outcome.Completed? <==>
                item.payload.isObject
                && exists i: nat :: i <= maxRetry && env(i).upsertOk && env(i).workOk && env(i).completeOk
      ensures outcome.DeadLettered? <==> !outcome.Completed? && item.retryCount >= maxRetry
      ensures deadLetters == old(deadLetters)
                + if outcome.DeadLettered? && insertOk
                  then [DeadLetter(item.messageID, item.tenantID, item.payload, item.retryCount)] else []
      ensures outcome.Completed? ==>
                var key := Key(item.messageID, item.tenantID);
                key in messages && messages[key].status == StatusCompleted
      ensures outcome.DeadLettered? && markOk ==>
                var key := Key(item.messageID, item.tenantID);
                key in messages ==> messages[key].status == StatusFailed
      ensures forall k: Key :: k.id != item.messageID || k.tenant != item.tenantID ==>
                (k in messages <==> k in old(messages)) && (k in messages ==> messages[k] == old(messages)[k])
      ensures Trajectory(item, maxRetry, env, markOk, old(messages), outcome, attempts, vs)
      ensures messages == Written(old(messages), item, vs)
    {
      hide Written;
      hide Exhausted;
      var ok, pauses, last;
      ok, attempts, pauses, last, vs := ProcessWithRetry(item, maxRetry, env, jitter);
      WrittenElsewhere(old(messages), item, vs);
      OutcomeInWords(item, maxRetry, env);
      if ok {
        WrittenLast(old(messages), item, vs);
        return Completed, attempts, vs;
      }
      if item.retryCount < maxRetry {
        return Dropped, attempts, vs;
      }
      ghost var marks := MoveToDeadLetter(item, insertOk, markOk);
      MarksAfter(old(messages), item, vs, marks, markOk, item.retryCount);
      return DeadLettered, attempts, vs + marks;
    }

    /** processWork as its comment intends it, testing the count the loop arrived at: it
        dead-letters every exhausted item, with that count, and differs from the real one
        exactly on the exhausted items whose original count is below the limit. */
    method ProcessWorkAsIntended(item: WorkItem, maxRetry: nat, env: nat -> Conditions, jitter: nat -> int,
                                 insertOk: bool, markOk: bool)
      returns (outcome: Outcome, ghost attempts: nat, ghost vs: seq<Version>)
      modifies this
      ensures outcome == if Exhausted(Results(item, env), maxRetry) then DeadLettered else Completed
      ensures outcome != OutcomeOf(item, maxRetry, Results(item, env)) <==>
                Exhausted(Results(item, env), maxRetry) && item.retryCount < maxRetry
      ensures deadLetters == old(deadLetters) + if outcome.DeadLettered? && insertOk
                then [LetterOf(item.(retryCount := maxRetry + 1))] else []
      ensures Trajectory(item, maxRetry, env, markOk, old(messages), outcome, attempts, vs)
      ensures messages == Written(old(messages), item, vs)
    {
      hide Written;
      hide Exhausted;
      var ok, pauses, last;
      ok, attempts, pauses, last, vs := ProcessWithRetry(item, maxRetry, env, jitter);
      if ok {
        return Completed, attempts, vs;
      }
      if last.retryCount < maxRetry {
        return Dropped, attempts, vs;
      }
      ghost var marks := MoveToDeadLetter(last, insertOk, markOk);
      MarksAfter(old(messages), item, vs, marks, markOk, last.retryCount);
      return DeadLettered, attempts, vs + marks;
    }
  }

  function LetterOf(item: WorkItem): DeadLetter {
    DeadLetter(item.messageID, item.tenantID, item.payload, item.retryCount)
  }

  /** What processWithRetry does, apart from the database: it stops at the first success, makes
      at most maxRetry + 1 attempts, and pauses after every failure but the last. */
  ghost predicate Attempted(item: WorkItem, maxRetry: int, env: nat -> Conditions, jitter: nat -> int,
                            ok: bool, attempts: nat, pauses: seq<int>) {
    && (ok <==> !Exhausted(Results(item, env), maxRetry))
    && (ok ==> 1 <= attempts <= maxRetry + 1 && Succeeds(item, env(attempts - 1)))
    && (!ok ==> attempts == Max(maxRetry + 1, 0))
    && (forall i: nat :: i < attempts - 1 ==> !Succeeds(item, env(i)))
    && pauses == B.Pauses(if ok then attempts - 1 else Max(maxRetry, 0), jitter)
  }

  /** n pauses, each of 2^i seconds in nanoseconds and its own jitter of at most a fifth. */
  ghost predicate PausedFor(jitter: nat -> int, n: nat, pauses: seq<int>) {
    && |pauses| == n
    && forall i: nat :: i < n && i <= 32 && 0 <= 5 * jitter(i) <= B.Pow2(i) * 1_000_000_000 ==>
         pauses[i] == B.Pow2(i) * 1_000_000_000 + jitter(i)
  }

  lemma WentThrough(item: WorkItem, maxRetry: int, env: nat -> Conditions, jitter: nat -> int, n: nat)
    requires n <= maxRetry && Succeeds(item, env(n)) && forall i: nat :: i < n ==> !Succeeds(item, env(i))
    ensures Attempted(item, maxRetry, env, jitter, true, n + 1, B.Pauses(n, jitter))
    ensures PausedFor(jitter, n, B.Pauses(n, jitter))
  {
    hide B.Pauses;
    ExhaustedAfter(item, env, maxRetry, n);
    B.PausesAre(n, jitter);
  }

  lemma GaveUp(item: WorkItem, maxRetry: int, env: nat -> Conditions, jitter: nat -> int)
    requires forall i: nat :: i <= maxRetry ==> !Succeeds(item, env(i))
    ensures Attempted(item, maxRetry, env, jitter, false, Max(maxRetry + 1, 0), B.Pauses(Max(maxRetry, 0), jitter))
    ensures PausedFor(jitter, Max(maxRetry, 0), B.Pauses(Max(maxRetry, 0), jitter))
  {
    hide B.Pauses;
    ExhaustedAfter(item, env, maxRetry, Max(maxRetry + 1, 0));
    B.PausesAre(Max(maxRetry, 0), jitter);
  }

  /** An item that always fails is tried maxRetry + 1 times with maxRetry pauses between,
      together between 2^maxRetry - 1 seconds and 1.2 times that. */
  lemma AlwaysFailing(item: WorkItem, maxRetry: nat, env: nat -> Conditions, jitter: nat -> int,
                      ok: bool, attempts: nat, pauses: seq<int>)
    requires Attempted(item, maxRetry, env, jitter, ok, attempts, pauses)
    requires Exhausted(Results(item, env), maxRetry) && maxRetry <= 33
    requires forall i: nat :: i < maxRetry ==> B.IsJitter(B.Base(i), jitter(i))
    ensures attempts == maxRetry + 1 && |pauses| == maxRetry
    ensures (B.Pow2(maxRetry) - 1) * B.SECOND <= B.Sum(pauses)
    ensures 5 * B.Sum(pauses) <= 6 * (B.Pow2(maxRetry) - 1) * B.SECOND
  {
    B.TotalPause(maxRetry, jitter);
  }

  /** The mark that moveToDeadLetter adds to the versions of the attempts. */
  lemma MarksAfter(before: map<Key, Row>, item: WorkItem, vs: seq<Version>, marks: seq<Version>, markOk: bool, count: int)
    requires var now := Written(before, item, vs);
             marks == if markOk && KeyOf(item) in now
                      then [Version(KeyOf(item), StatusFailed, now[KeyOf(item)].retryCount)] else []
    ensures marks == if markOk && (vs != [] || KeyOf(item) in before)
                     then [Version(KeyOf(item), StatusFailed,
                                   if vs != [] then vs[|vs| - 1].retryCount else before[KeyOf(item)].retryCount)]
                     else []
    ensures Written(Written(before, item, vs), item.(retryCount := count), marks) == Written(before, item, vs + marks)
    ensures vs + [] == vs
  {
    WrittenConcat(before, item, vs, count, marks);
  }

  /** The versions one call of processWork writes: 'processing' for every attempt whose
      upsert went through, then 'completed', 'failed' or nothing more. */
  ghost predicate Trajectory(item: WorkItem, maxRetry: int, env: nat -> Conditions, markOk: bool, before: map<Key, Row>,
                             outcome: Outcome, attempts: nat, vs: seq<Version>) {
    var ps := Processings(item, env, attempts);
    && (forall i: nat :: i < attempts - 1 ==> !Succeeds(item, env(i)))
    && match outcome
       case Completed =>
         && 1 <= attempts <= maxRetry + 1
         && Succeeds(item, env(attempts - 1))
         && vs == ps + [Version(KeyOf(item), StatusCompleted, CountAt(item, attempts - 1))]
       case Dropped =>
         attempts == Max(maxRetry + 1, 0) && vs == ps
       case DeadLettered =>
         && attempts == Max(maxRetry + 1, 0)
         && if markOk && (ps != [] || KeyOf(item) in before)
            then vs == ps + [Version(KeyOf(item), StatusFailed,
                                     if ps != [] then ps[|ps| - 1].retryCount else before[KeyOf(item)].retryCount)]
            else vs == ps
  }

  /** The writing attempts are exactly those whose upsert goes through. */
  lemma {:induction false} WritersExact(item: WorkItem, env: nat -> Conditions, n: nat)
    ensures forall i: nat :: i in Writers(item, env, n) <==> i < n && Upserts(item, env(i))
  {
    if n > 0 {
      WritersExact(item, env, n - 1);
      assert forall i: nat :: i in Writers(item, env, n) <==> i in Writers(item, env, n - 1) || (i == n - 1 && Upserts(item, env(i)));
    }
  }

  /** They come in order. */
  lemma {:induction false} WritersIncrease(item: WorkItem, env: nat -> Conditions, n: nat)
    ensures var ws := Writers(item, env, n);
            && (forall i :: 0 <= i < |ws| ==> ws[i] < n)
            && (forall i, j :: 0 <= i < j < |ws| ==> ws[i] < ws[j])
  {
    if n > 0 {
      WritersIncrease(item, env, n - 1);
      assert forall i :: 0 <= i < |Writers(item, env, n - 1)| ==> Writers(item, env, n)[i] == Writers(item, env, n - 1)[i];
    }
  }

  lemma {:induction false} ProcessingsMatch(item: WorkItem, env: nat -> Conditions, n: nat)
    ensures var ps, ws := Processings(item, env, n), Writers(item, env, n);
            |ps| == |ws| && forall j :: 0 <= j < |ws| ==> ps[j] == Processed(item, ws[j])
  {
    if n > 0 {
      ProcessingsMatch(item, env, n - 1);
    }
  }

  /** Over one delivery a row only ever moves along processing, ..., processing and then
      possibly to completed or failed: completed exactly if the item's processing
      succeeded, failed only if it was dead-lettered. No other key is written. */
  lemma TrajectoryShape(item: WorkItem, maxRetry: int, env: nat -> Conditions, markOk: bool, before: map<Key, Row>,
                        outcome: Outcome, attempts: nat, vs: seq<Version>)
    requires Trajectory(item, maxRetry, env, markOk, before, outcome, attempts, vs)
    ensures forall j :: 0 <= j < |vs| ==> vs[j].key == Key(item.messageID, item.tenantID)
    ensures forall j :: 0 <= j < |vs| - 1 ==> vs[j].status.StatusProcessing?
    ensures forall j :: 0 <= j < |vs| && vs[j].status.StatusProcessing? ==>
              exists i: nat :: i < attempts && item.payload.isObject && env(i).upsertOk
                               && vs[j].retryCount == if i == 0 then item.retryCount else i
    ensures vs != [] && vs[|vs| - 1].status.StatusCompleted? <==> outcome.Completed?
    ensures vs != [] && vs[|vs| - 1].status.StatusFailed? ==> outcome.DeadLettered?
    ensures outcome.DeadLettered? && markOk && vs == [] ==> KeyOf(item) !in before
  {
    hide Succeeds;
    hide Processings;
    hide Writers;
    ProcessingsMatch(item, env, attempts);
    WritersExact(item, env, attempts);
    var ps, ws := Processings(item, env, attempts), Writers(item, env, attempts);
    assert forall j :: 0 <= j < |ps| ==> ps[j].status == StatusProcessing && ps[j].key == KeyOf(item);
    assert forall j :: 0 <= j < |vs| && j < |ps| ==> vs[j] == ps[j];
    forall j | 0 <= j < |vs| && vs[j].status.StatusProcessing?
      ensures exists i: nat :: i < attempts && item.payload.isObject && env(i).upsertOk
                               && vs[j].retryCount == if i == 0 then item.retryCount else i
    {
      assert vs[j] == ps[j] && ws[j] in ws;
    }
  }

  /** A row that is not yet completed is completed afterwards if and only if the item's
      processing succeeded. */
  lemma CompletedIffProcessed(item: WorkItem, maxRetry: int, env: nat -> Conditions, markOk: bool, before: map<Key, Row>,
                              outcome: Outcome, attempts: nat, vs: seq<Version>)
    requires Trajectory(item, maxRetry, env, markOk, before, outcome, attempts, vs)
    requires KeyOf(item) in before ==> !before[KeyOf(item)].status.StatusCompleted?
    ensures var after, key := Written(before, item, vs), Key(item.messageID, item.tenantID);
            key in after && after[key].status.StatusCompleted? <==> outcome.Completed?
    ensures forall k: Key :: k.id != item.messageID || k.tenant != item.tenantID ==>
              (k in before <==> k in Written(before, item, vs)) && (k in before ==> Written(before, item, vs)[k] == before[k])
  {
    TrajectoryShape(item, maxRetry, env, markOk, before, outcome, attempts, vs);
  }

  /** The counts never decrease and stay below the bound. */
  ghost predicate Climbing(vs: seq<Version>, bound: nat) {
    && (forall i, j :: 0 <= i < j < |vs| ==> vs[i].retryCount <= vs[j].retryCount)
    && (forall i :: 0 <= i < |vs| ==> 0 <= vs[i].retryCount < bound)
  }

  lemma ClimbingRepeat(ps: seq<Version>, v: Version, bound: nat)
    requires Climbing(ps, bound) && v.retryCount == if ps == [] then 0 else ps[|ps| - 1].retryCount
    requires bound > 0
    ensures Climbing(ps + [v], bound)
  {
  }

  lemma FreshProcessings(item: WorkItem, env: nat -> Conditions, n: nat)
    requires item.retryCount == 0
    ensures var ps, ws := Processings(item, env, n), Writers(item, env, n);
            && |ps| == |ws|
            && Climbing(ps, n)
            && (ws != [] ==> ps[|ps| - 1].retryCount == ws[|ws| - 1])
            && (ws != [] ==> forall i: nat :: i < n && Upserts(item, env(i)) ==> i <= ws[|ws| - 1])
  {
    WritersExact(item, env, n);
    WritersIncrease(item, env, n);
    ProcessingsMatch(item, env, n);
    hide Writers;
    hide Processings;
    var ws := Writers(item, env, n);
    forall i: nat | ws != [] && i in ws ensures i <= ws[|ws| - 1] {}
  }

  /** For an item that arrives with count 0, whose row has count 0 or does not exist, the
      persisted count never decreases, is the index of the last attempt whose upsert went
      through, and stays within the limit. */
  lemma FreshItemCounts(item: WorkItem, maxRetry: nat, env: nat -> Conditions, markOk: bool, before: map<Key, Row>,
                        outcome: Outcome, attempts: nat, vs: seq<Version>)
    requires Trajectory(item, maxRetry, env, markOk, before, outcome, attempts, vs)
    requires item.retryCount == 0
    requires KeyOf(item) in before ==> before[KeyOf(item)].retryCount == 0
    ensures Climbing(vs, maxRetry + 1)
    ensures var ws := Writers(item, env, attempts);
            vs != [] && ws != [] ==>
              && vs[|vs| - 1].retryCount == ws[|ws| - 1] < attempts
              && forall i: nat :: i < attempts && Upserts(item, env(i)) ==> i <= ws[|ws| - 1]
  {
    hide Climbing;
    hide Succeeds;
    FreshProcessings(item, env, attempts);
    FreshBound(Processings(item, env, attempts), attempts, maxRetry + 1);
    var ps := Processings(item, env, attempts);
    if outcome.Completed? {
      LastWriterSucceeds(item, env, attempts);
    }
    if vs != ps {
      ClimbingRepeat(ps, vs[|ps|], maxRetry + 1);
    }
  }

  lemma FreshBound(ps: seq<Version>, m: nat, n: nat)
    requires Climbing(ps, m) && m <= n
    ensures Climbing(ps, n)
  {
  }

  lemma LastWriterSucceeds(item: WorkItem, env: nat -> Conditions, n: nat)
    requires n >= 1 && Succeeds(item, env(n - 1))
    ensures Writers(item, env, n) != [] && Writers(item, env, n)[|Writers(item, env, n)| - 1] == n - 1
  {
  }

  /** For any original count, the counts the 'processing' rows carry never decrease if and
      only if the first attempt wrote none, or was the only one to, or carried a count no
      larger than the index of the next writing attempt. */
  lemma CountsOrderedIff(item: WorkItem, env: nat -> Conditions, n: nat)
    ensures var ps, ws := Processings(item, env, n), Writers(item, env, n);
            (forall i, j :: 0 <= i < j < |ps| ==> ps[i].retryCount <= ps[j].retryCount)
            <==> (|ws| <= 1 || ws[0] != 0 || item.retryCount <= ws[1])
  {
    WritersIncrease(item, env, n);
    ProcessingsMatch(item, env, n);
    var ps, ws := Processings(item, env, n), Writers(item, env, n);
    assert forall j :: 0 <= j < |ps| ==> ps[j].retryCount == CountAt(item, ws[j]);
    if |ws| > 1 {
      assert ps[0].retryCount == CountAt(item, ws[0]) && ps[1].retryCount == ws[1];
      assert forall j :: 1 <= j < |ws| ==> ws[0] < ws[j] && ws[1] <= ws[j];
    }
  }
}

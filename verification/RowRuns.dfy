/**
 The message rows while many workers are at work: every worker executes its statements one
 at a time, and the statements of all workers interleave. What Retry says of one
 uninterrupted call holds of every message's share of such a run.
 */
module RowRuns {
  import opened WorkItems
  import opened Wrappers
  import opened Retry

  /** Where a worker is in processWork. */
  datatype Phase =
    | Upserting                                  // about to write 'processing' for the current attempt
    | Working                                    // wrote it; the work and the final update are next
    | Marking                                    // gave up and is about to mark the row as failed
    | Finished(outcome: Outcome, attempts: nat)

  /** One call of processWork: its item, what its statements will meet, the table when it
      began, the versions it has written, and the stretch of the log it has lived through. */
  datatype Job = Job(item: WorkItem, env: nat -> Conditions, markOk: bool, before: map<Key, Row>,
                     written: seq<Version>, from: nat, upTo: nat, attempt: nat, phase: Phase)

  /** The table, every row version in the order it reached the table, and all calls so far. */
  datatype System = System(messages: map<Key, Row>, log: seq<Version>, jobs: seq<Job>)

  datatype Event =
    | Take(item: WorkItem, env: nat -> Conditions, markOk: bool) // a worker starts on an item
    | Act(job: nat)                                              // its next statement

  predicate Active(s: System, j: nat) {
    j < |s.jobs| && !s.jobs[j].phase.Finished?
  }

  predicate Enabled(s: System, e: Event) {
    e.Act? ==> Active(s, e.job)
  }

  /** If the message with this key is taken, nobody is at work on it. */
  ghost predicate Alone(s: System, e: Event, key: Key) {
    e.Take? && KeyOf(e.item) == key ==> forall j: nat :: Active(s, j) ==> KeyOf(s.jobs[j].item) != key
  }

  function GivenUp(maxRetry: int, job: Job): Job {
    job.(phase := if job.item.retryCount >= maxRetry then Marking else Finished(Dropped, job.attempt))
  }

  function Failed(maxRetry: int, job: Job): Job {
    var next := job.(attempt := job.attempt + 1, phase := Upserting);
    if next.attempt > maxRetry then GivenUp(maxRetry, next) else next
  }

  /** A version of the row of the job's message with the count the row has. */
  function Marked(m: map<Key, Row>, item: WorkItem, status: Status): seq<Version> {
    if KeyOf(item) in m then [Version(KeyOf(item), status, m[KeyOf(item)].retryCount)] else []
  }

  /** The versions, at most one, that the next step of a job writes. */
  function Writes(maxRetry: int, job: Job, m: map<Key, Row>): seq<Version> {
    var c := job.env(job.attempt);
    match job.phase
    case Upserting => if job.attempt <= maxRetry && Upserts(job.item, c) then [Processed(job.item, job.attempt)] else []
    case Working => if c.workOk && c.completeOk then Marked(m, job.item, StatusCompleted) else []
    case Marking => if job.markOk then Marked(m, job.item, StatusFailed) else []
    case Finished(_, _) => []
  }

  /** Where that step takes it. */
  function Moved(maxRetry: int, job: Job): Job {
    var c := job.env(job.attempt);
    match job.phase
    case Upserting =>
      if job.attempt > maxRetry then GivenUp(maxRetry, job)
      else if Upserts(job.item, c) then job.(phase := Working) else Failed(maxRetry, job)
    case Working =>
      if c.workOk && c.completeOk then job.(phase := Finished(Completed, job.attempt + 1)) else Failed(maxRetry, job)
    case Marking => job.(phase := Finished(DeadLettered, job.attempt))
    case Finished(_, _) => job
  }

  function Step(maxRetry: int, s: System, e: Event): System
    requires Enabled(s, e)
  {
    match e
    case Take(item, env, markOk) =>
      s.(jobs := s.jobs + [Job(item, env, markOk, s.messages, [], |s.log|, |s.log|, 0, Upserting)])
    case Act(j) =>
      var job := s.jobs[j];
      var vs := Writes(maxRetry, job, s.messages);
      System(Written(s.messages, job.item, vs), s.log + vs,
             s.jobs[j := Moved(maxRetry, job).(written := job.written + vs, upTo := |s.log| + |vs|)])
  }

  ghost predicate Reaches(maxRetry: int, s: System, es: seq<Event>, t: System)
    decreases |es|
  {
    if es == [] then s == t
    else Enabled(s, es[0]) && Reaches(maxRetry, Step(maxRetry, s, es[0]), es[1..], t)
  }

  /** In the run es from s no two workers are ever at work on the message with this key. */
  ghost predicate Solo(maxRetry: int, s: System, es: seq<Event>, key: Key)
    decreases |es|
  {
    es != [] && Enabled(s, es[0]) ==> Alone(s, es[0], key) && Solo(maxRetry, Step(maxRetry, s, es[0]), es[1..], key)
  }

  /** The versions of one row. */
  function Of(log: seq<Version>, key: Key): seq<Version> {
    if log == [] then []
    else Of(log[..|log| - 1], key) + if log[|log| - 1].key == key then [log[|log| - 1]] else []
  }

  // ---------------------------------------------------------------------- one job's share

  ghost predicate NoneSucceeded(job: Job, n: nat) {
    forall i: nat :: i < n ==> !Succeeds(job.item, job.env(i))
  }

  /** What a job has written, given where it is. */
  ghost predicate Progress(maxRetry: int, job: Job) {
    match job.phase
    case Upserting =>
      && job.attempt <= Max(maxRetry, 0) && NoneSucceeded(job, job.attempt)
      && job.written == Processings(job.item, job.env, job.attempt)
    case Working =>
      && job.attempt <= maxRetry && NoneSucceeded(job, job.attempt) && Upserts(job.item, job.env(job.attempt))
      && job.written == Processings(job.item, job.env, job.attempt + 1)
    case Marking =>
      && job.attempt == Max(maxRetry + 1, 0) && NoneSucceeded(job, job.attempt) && job.item.retryCount >= maxRetry
      && job.written == Processings(job.item, job.env, job.attempt)
    case Finished(outcome, attempts) =>
      && outcome == OutcomeOf(job.item, maxRetry, Results(job.item, job.env))
      && Trajectory(job.item, maxRetry, job.env, job.markOk, job.before, outcome, attempts, job.written)
  }

  function At(m: map<Key, Row>, key: Key): Option<Row> {
    if key in m then Some(m[key]) else None
  }

  /** The row of an active job's message is what that job alone has made of it. */
  ghost predicate OwnsRow(m: map<Key, Row>, job: Job) {
    At(m, KeyOf(job.item)) == At(Written(job.before, job.item, job.written), KeyOf(job.item))
  }

  /** What the job has written is what the log says of its message, for as long as it lived. */
  ghost predicate InLog(log: seq<Version>, job: Job) {
    && job.from <= job.upTo <= |log|
    && Of(log[job.from..job.upTo], KeyOf(job.item)) == job.written
    && (!job.phase.Finished? ==> Of(log[job.upTo..], KeyOf(job.item)) == [])
  }

  ghost predicate JobSound(maxRetry: int, s: System, j: nat)
    requires j < |s.jobs|
  {
    && Progress(maxRetry, s.jobs[j]) && InLog(s.log, s.jobs[j])
    && (Active(s, j) ==> OwnsRow(s.messages, s.jobs[j]))
  }

  predicate About(s: System, j: nat, key: Key) {
    j < |s.jobs| && KeyOf(s.jobs[j].item) == key
  }

  /** All jobs about one message are sound, and at most one of them is active. */
  ghost predicate Inv(maxRetry: int, s: System, key: Key) {
    && (forall j: nat :: About(s, j, key) ==> JobSound(maxRetry, s, j))
    && (forall i: nat, j: nat :: About(s, i, key) && About(s, j, key) && Active(s, i) && Active(s, j) ==> i == j)
  }

  lemma GivenUpProgress(maxRetry: int, job: Job)
    requires job.attempt == Max(maxRetry + 1, 0) && NoneSucceeded(job, job.attempt)
    requires job.written == Processings(job.item, job.env, job.attempt)
    ensures Progress(maxRetry, GivenUp(maxRetry, job))
  {
    ExhaustedAfter(job.item, job.env, maxRetry, job.attempt);
  }

  lemma FailedProgress(maxRetry: int, job: Job)
    requires job.attempt <= maxRetry && NoneSucceeded(job, job.attempt + 1)
    requires job.written == Processings(job.item, job.env, job.attempt + 1)
    ensures Progress(maxRetry, Failed(maxRetry, job))
  {
    hide NoneSucceeded;
    hide Processings;
    var next := job.(attempt := job.attempt + 1, phase := Upserting);
    assert NoneSucceeded(next, next.attempt) by {
      SameSucceeded(job, next, next.attempt);
    }
    if next.attempt > maxRetry {
      GivenUpProgress(maxRetry, next);
    }
  }

  lemma SameSucceeded(job: Job, next: Job, n: nat)
    requires NoneSucceeded(job, n) && next.item == job.item && next.env == job.env
    ensures NoneSucceeded(next, n)
  {
  }

  lemma UpsertingProgress(maxRetry: int, job: Job, m: map<Key, Row>)
    requires job.phase.Upserting? && Progress(maxRetry, job)
    ensures Progress(maxRetry, Moved(maxRetry, job).(written := job.written + Writes(maxRetry, job, m)))
  {
    hide OutcomeOf;
    hide Trajectory;
    assert job.written + [] == job.written;
    if job.attempt > maxRetry {
      GivenUpProgress(maxRetry, job);
    } else if !Upserts(job.item, job.env(job.attempt)) {
      FailedProgress(maxRetry, job);
    }
  }

  /** The row an active job finds is the last version it wrote, if it wrote any. */
  lemma OwnRow(m: map<Key, Row>, job: Job)
    requires OwnsRow(m, job)
    ensures KeyOf(job.item) in m <==> job.written != [] || KeyOf(job.item) in job.before
    ensures job.written != [] ==> m[KeyOf(job.item)].retryCount == job.written[|job.written| - 1].retryCount
    ensures job.written == [] && KeyOf(job.item) in job.before ==> m[KeyOf(job.item)] == job.before[KeyOf(job.item)]
  {
  }

  lemma WorkingProgress(maxRetry: int, job: Job, m: map<Key, Row>)
    requires job.phase.Working? && Progress(maxRetry, job) && OwnsRow(m, job)
    ensures Progress(maxRetry, Moved(maxRetry, job).(written := job.written + Writes(maxRetry, job, m)))
  {
    hide OwnsRow;
    hide Exhausted;
    OwnRow(m, job);
    assert job.written + [] == job.written;
    if Succeeds(job.item, job.env(job.attempt)) {
      ExhaustedAfter(job.item, job.env, maxRetry, job.attempt);
    } else {
      FailedProgress(maxRetry, job);
    }
  }

  lemma MarkingProgress(maxRetry: int, job: Job, m: map<Key, Row>)
    requires job.phase.Marking? && Progress(maxRetry, job) && OwnsRow(m, job)
    ensures Progress(maxRetry, Moved(maxRetry, job).(written := job.written + Writes(maxRetry, job, m)))
  {
    hide OwnsRow;
    hide Exhausted;
    hide Processings;
    OwnRow(m, job);
    assert job.written + [] == job.written;
    ExhaustedAfter(job.item, job.env, maxRetry, job.attempt);
  }

  lemma WritesOwnKey(maxRetry: int, job: Job, m: map<Key, Row>)
    ensures |Writes(maxRetry, job, m)| <= 1
    ensures forall i :: 0 <= i < |Writes(maxRetry, job, m)| ==> Writes(maxRetry, job, m)[i].key == KeyOf(job.item)
  {
  }

  lemma RowAfterWrites(m: map<Key, Row>, job: Job, vs: seq<Version>)
    requires OwnsRow(m, job)
    ensures OwnsRow(Written(m, job.item, vs), job.(written := job.written + vs))
  {
    WrittenConcat(job.before, job.item, job.written, job.item.retryCount, vs);
    assert vs == [] ==> job.written + vs == job.written;
  }

  lemma {:induction false} OfConcat(a: seq<Version>, b: seq<Version>, key: Key)
    ensures Of(a + b, key) == Of(a, key) + Of(b, key)
    decreases |b|
  {
    if b == [] {
      assert a + b == a;
    } else {
      var n := |b| - 1;
      assert (a + b)[..|a| + n] == a + b[..n];
      OfConcat(a, b[..n], key);
    }
  }

  lemma OfOwn(vs: seq<Version>, key: Key, own: bool)
    requires |vs| <= 1 && forall i :: 0 <= i < |vs| ==> (vs[i].key == key <==> own)
    ensures Of(vs, key) == if own then vs else []
  {
    if vs != [] {
      assert vs[..0] == [];
    }
  }

  lemma LogAfterOwn(log: seq<Version>, job: Job, vs: seq<Version>)
    requires InLog(log, job) && !job.phase.Finished? && |vs| <= 1
    requires forall i :: 0 <= i < |vs| ==> vs[i].key == KeyOf(job.item)
    ensures var upTo := |log + vs|;
            && Of((log + vs)[job.from..upTo], KeyOf(job.item)) == job.written + vs
            && Of((log + vs)[upTo..], KeyOf(job.item)) == []
  {
    hide Of;
    var key := KeyOf(job.item);
    assert (log + vs)[job.from..|log + vs|] == (log[job.from..job.upTo] + log[job.upTo..]) + vs;
    OfConcat(log[job.from..job.upTo], log[job.upTo..], key);
    OfConcat(log[job.from..job.upTo] + log[job.upTo..], vs, key);
    OfOwn(vs, key, true);
    OfOwn([], key, true);
    assert (log + vs)[|log + vs|..] == [];
  }

  lemma LogAfterOther(log: seq<Version>, job: Job, vs: seq<Version>)
    requires InLog(log, job) && |vs| <= 1
    requires !job.phase.Finished? ==> forall i :: 0 <= i < |vs| ==> vs[i].key != KeyOf(job.item)
    ensures InLog(log + vs, job)
  {
    hide Of;
    var key := KeyOf(job.item);
    assert (log + vs)[job.from..job.upTo] == log[job.from..job.upTo];
    if !job.phase.Finished? {
      assert (log + vs)[job.upTo..] == log[job.upTo..] + vs;
      OfConcat(log[job.upTo..], vs, key);
      OfOwn(vs, key, false);
    }
  }

  /** The acting job's own share after its step. */
  lemma ActOwn(maxRetry: int, s: System, j: nat)
    requires Active(s, j) && JobSound(maxRetry, s, j)
    ensures JobSound(maxRetry, Step(maxRetry, s, Act(j)), j)
  {
    hide Progress;
    hide OwnsRow;
    hide Of;
    hide Written;
    hide Writes;
    var job := s.jobs[j];
    var vs := Writes(maxRetry, job, s.messages);
    WritesOwnKey(maxRetry, job, s.messages);
    LogAfterOwn(s.log, job, vs);
    RowAfterWrites(s.messages, job, vs);
    OwnProgress(maxRetry, job, s.messages, |s.log| + |vs|);
    MovedKeeps(maxRetry, job);
    var job' := Moved(maxRetry, job).(written := job.written + vs, upTo := |s.log| + |vs|);
    SameOwnsRow(Written(s.messages, job.item, vs), job.(written := job.written + vs), job');
    assert Step(maxRetry, s, Act(j)).jobs[j] == job';
  }

  lemma MovedKeeps(maxRetry: int, job: Job)
    ensures var next := Moved(maxRetry, job);
            next.item == job.item && next.before == job.before && next.from == job.from
  {
  }

  lemma SameOwnsRow(m: map<Key, Row>, job: Job, next: Job)
    requires OwnsRow(m, job) && next.item == job.item && next.before == job.before && next.written == job.written
    ensures OwnsRow(m, next)
  {
  }

  lemma OwnProgress(maxRetry: int, job: Job, m: map<Key, Row>, upTo: nat)
    requires Progress(maxRetry, job) && OwnsRow(m, job) && !job.phase.Finished?
    ensures Progress(maxRetry, Moved(maxRetry, job).(written := job.written + Writes(maxRetry, job, m), upTo := upTo))
  {
    hide Processings;
    hide OutcomeOf;
    hide Trajectory;
    hide OwnsRow;
    match job.phase {
      case Upserting => UpsertingProgress(maxRetry, job, m);
      case Working => WorkingProgress(maxRetry, job, m);
      case Marking => MarkingProgress(maxRetry, job, m);
    }
    var next := Moved(maxRetry, job).(written := job.written + Writes(maxRetry, job, m));
    SameProgress(maxRetry, next, upTo);
  }

  lemma SameProgress(maxRetry: int, job: Job, upTo: nat)
    requires Progress(maxRetry, job)
    ensures Progress(maxRetry, job.(upTo := upTo))
  {
  }

  /** Every other job's share. */
  lemma ActOther(maxRetry: int, s: System, j: nat, i: nat)
    requires Active(s, j) && i < |s.jobs| && i != j && JobSound(maxRetry, s, i)
    requires Active(s, i) ==> KeyOf(s.jobs[j].item) != KeyOf(s.jobs[i].item)
    ensures JobSound(maxRetry, Step(maxRetry, s, Act(j)), i)
  {
    hide Progress;
    hide Of;
    hide Writes;
    var job, vs := s.jobs[j], Writes(maxRetry, s.jobs[j], s.messages);
    WritesOwnKey(maxRetry, job, s.messages);
    LogAfterOther(s.log, s.jobs[i], vs);
  }

  lemma TakeSound(maxRetry: int, s: System, e: Event, j: nat)
    requires e.Take? && j <= |s.jobs| && (j < |s.jobs| ==> JobSound(maxRetry, s, j))
    ensures JobSound(maxRetry, Step(maxRetry, s, e), j)
  {
  }

  lemma StepInv(maxRetry: int, s: System, e: Event, key: Key)
    requires Inv(maxRetry, s, key) && Enabled(s, e) && Alone(s, e, key)
    ensures Inv(maxRetry, Step(maxRetry, s, e), key)
  {
    hide JobSound;
    hide Writes;
    hide Written;
    var s' := Step(maxRetry, s, e);
    if e.Act? {
      MovedKeeps(maxRetry, s.jobs[e.job]);
    }
    forall j: nat | About(s', j, key) ensures JobSound(maxRetry, s', j) {
      assert j < |s.jobs| ==> About(s, j, key);
      if e.Take? {
        TakeSound(maxRetry, s, e, j);
      } else if j == e.job {
        ActOwn(maxRetry, s, j);
      } else {
        ActOther(maxRetry, s, e.job, j);
      }
    }
    forall i: nat, j: nat | About(s', i, key) && About(s', j, key) && Active(s', i) && Active(s', j) ensures i == j {
      assert i < |s.jobs| ==> About(s, i, key) && Active(s, i);
      assert j < |s.jobs| ==> About(s, j, key) && Active(s, j);
    }
  }

  lemma {:induction false} RunInv(maxRetry: int, s: System, es: seq<Event>, t: System, key: Key)
    requires Inv(maxRetry, s, key) && Reaches(maxRetry, s, es, t) && Solo(maxRetry, s, es, key)
    ensures Inv(maxRetry, t, key)
    decreases |es|
  {
    hide Inv;
    hide Step;
    hide Alone;
    if es != [] {
      StepInv(maxRetry, s, es[0], key);
      RunInv(maxRetry, Step(maxRetry, s, es[0]), es[1..], t, key);
    }
  }

  // ----------------------------------------------------------------------------- theorems

  /** In every interleaving in which no two workers are at work on it at once, the versions that
      reach a message's row while a worker is at work on it are those of one uninterrupted
      call, with the outcome of such a call. */
  lemma RowsAsIfAlone(maxRetry: int, m: map<Key, Row>, es: seq<Event>, t: System, j: nat)
    requires Reaches(maxRetry, System(m, [], []), es, t) && j < |t.jobs| && t.jobs[j].phase.Finished?
    requires Solo(maxRetry, System(m, [], []), es, KeyOf(t.jobs[j].item))
    ensures var job := t.jobs[j];
            && job.from <= job.upTo <= |t.log|
            && job.phase.outcome == OutcomeOf(job.item, maxRetry, Results(job.item, job.env))
            && Trajectory(job.item, maxRetry, job.env, job.markOk, job.before, job.phase.outcome, job.phase.attempts,
                          Of(t.log[job.from..job.upTo], KeyOf(job.item)))
  {
    hide Reaches;
    hide Solo;
    hide Trajectory;
    hide OutcomeOf;
    hide Of;
    RunInv(maxRetry, System(m, [], []), es, t, KeyOf(t.jobs[j].item));
    assert About(t, j, KeyOf(t.jobs[j].item));
  }

  /** So its row moves along 'processing' versions to at most one final one, and with a fresh
      item the counts it shows never decrease. */
  lemma RowHistory(maxRetry: nat, m: map<Key, Row>, es: seq<Event>, t: System, j: nat)
    requires Reaches(maxRetry, System(m, [], []), es, t) && j < |t.jobs| && t.jobs[j].phase.Finished?
    requires Solo(maxRetry, System(m, [], []), es, KeyOf(t.jobs[j].item))
    requires t.jobs[j].item.retryCount == 0
    requires KeyOf(t.jobs[j].item) in t.jobs[j].before ==> t.jobs[j].before[KeyOf(t.jobs[j].item)].retryCount == 0
    ensures var job := t.jobs[j];
            job.from <= job.upTo <= |t.log| &&
            var vs := Of(t.log[job.from..job.upTo], KeyOf(job.item));
            && (forall i :: 0 <= i < |vs| - 1 ==> vs[i].status.StatusProcessing?)
            && (vs != [] && vs[|vs| - 1].status.StatusCompleted? <==> !Exhausted(Results(job.item, job.env), maxRetry))
            && Climbing(vs, maxRetry + 1)
  {
    hide Reaches;
    hide Solo;
    hide Trajectory;
    hide Of;
    hide Climbing;
    hide Exhausted;
    RowsAsIfAlone(maxRetry, m, es, t, j);
    var job := t.jobs[j];
    var vs := Of(t.log[job.from..job.upTo], KeyOf(job.item));
    TrajectoryShape(job.item, maxRetry, job.env, job.markOk, job.before, job.phase.outcome, job.phase.attempts, vs);
    FreshItemCounts(job.item, maxRetry, job.env, job.markOk, job.before, job.phase.outcome, job.phase.attempts, vs);
  }

  /** A worker touches no row but the one of its item's own id and tenant. */
  lemma StepElsewhere(maxRetry: int, s: System, e: Event, k: Key)
    requires Enabled(s, e)
    requires e.Act? ==> s.jobs[e.job].item.messageID != k.id || s.jobs[e.job].item.tenantID != k.tenant
    ensures At(Step(maxRetry, s, e).messages, k) == At(s.messages, k)
    ensures Of(Step(maxRetry, s, e).log, k) == Of(s.log, k)
  {
    hide Of;
    hide Writes;
    hide Written;
    if e.Act? {
      var job := s.jobs[e.job];
      var vs := Writes(maxRetry, job, s.messages);
      WrittenElsewhere(s.messages, job.item, vs);
      WritesOwnKey(maxRetry, job, s.messages);
      OfConcat(s.log, vs, k);
      OfOwn(vs, k, false);
    }
  }

  /** In every run a row whose id and tenant no item of the run has is left alone. */
  lemma {:induction false} OtherRowsStay(maxRetry: int, s: System, es: seq<Event>, t: System, k: Key)
    requires Reaches(maxRetry, s, es, t)
    requires forall j: nat :: j < |t.jobs| ==> t.jobs[j].item.messageID != k.id || t.jobs[j].item.tenantID != k.tenant
    ensures At(t.messages, k) == At(s.messages, k) && Of(t.log, k) == Of(s.log, k)
    decreases |es|
  {
    hide Step;
    hide Of;
    if es != [] {
      RunKeepsItems(maxRetry, s, es, t);
      StepElsewhere(maxRetry, s, es[0], k);
      OtherRowsStay(maxRetry, Step(maxRetry, s, es[0]), es[1..], t, k);
    }
  }

  lemma StepKeepsItems(maxRetry: int, s: System, e: Event)
    requires Enabled(s, e)
    ensures |s.jobs| <= |Step(maxRetry, s, e).jobs|
    ensures forall j: nat :: j < |s.jobs| ==> Step(maxRetry, s, e).jobs[j].item == s.jobs[j].item
  {
    if e.Act? {
      MovedKeeps(maxRetry, s.jobs[e.job]);
    }
  }

  lemma {:induction false} RunKeepsItems(maxRetry: int, s: System, es: seq<Event>, t: System)
    requires Reaches(maxRetry, s, es, t)
    ensures |s.jobs| <= |t.jobs| && forall j: nat :: j < |s.jobs| ==> t.jobs[j].item == s.jobs[j].item
    decreases |es|
  {
    hide Step;
    if es != [] {
      StepKeepsItems(maxRetry, s, es[0]);
      RunKeepsItems(maxRetry, Step(maxRetry, s, es[0]), es[1..], t);
    }
  }

  /** How many steps a job can still make. */
  function Remaining(maxRetry: int, job: Job): nat {
    match job.phase
    case Finished(_, _) => 0
    case Marking => 1
    case Working => 2 * Max(maxRetry - job.attempt, 0) + 2
    case Upserting => 2 * Max(maxRetry - job.attempt, 0) + 3
  }

  /** A worker that is left to run comes to an end. */
  lemma {:induction false} CanFinish(maxRetry: int, s: System, j: nat) returns (es: seq<Event>, t: System)
    requires j < |s.jobs|
    ensures Reaches(maxRetry, s, es, t) && j < |t.jobs| && t.jobs[j].phase.Finished?
    ensures |es| <= Remaining(maxRetry, s.jobs[j]) && forall i :: 0 <= i < |es| ==> es[i] == Act(j)
    decreases Remaining(maxRetry, s.jobs[j])
  {
    hide Writes;
    hide Written;
    if s.jobs[j].phase.Finished? {
      es, t := [], s;
    } else {
      var s' := Step(maxRetry, s, Act(j));
      assert Remaining(maxRetry, s'.jobs[j]) < Remaining(maxRetry, s.jobs[j]);
      es, t := CanFinish(maxRetry, s', j);
      assert ([Act(j)] + es)[1..] == es;
      es := [Act(j)] + es;
    }
  }

  // ---------------------------------------------- several workers on one message: what is left

  /** The versions ps and one more of the given key and status. */
  predicate Followed(ps: seq<Version>, vs: seq<Version>, key: Key, status: Status) {
    |vs| == |ps| + 1 && vs[..|ps|] == ps && vs[|ps|].key == key && vs[|ps|].status == status
  }

  /** What a finished job has written, but for the count of its last version: that one is read
      from the row, where another worker on the same message may have left its own. */
  ghost predicate Shape(maxRetry: int, job: Job, outcome: Outcome, attempts: nat) {
    var ps := Processings(job.item, job.env, attempts);
    && outcome == OutcomeOf(job.item, maxRetry, Results(job.item, job.env))
    && match outcome
       case Completed =>
         && 1 <= attempts <= maxRetry + 1 && Succeeds(job.item, job.env(attempts - 1)) && NoneSucceeded(job, attempts - 1)
         && Followed(ps, job.written, KeyOf(job.item), StatusCompleted)
       case Dropped => attempts == Max(maxRetry + 1, 0) && job.written == ps
       case DeadLettered =>
         && attempts == Max(maxRetry + 1, 0)
         && (job.written == ps || (job.markOk && Followed(ps, job.written, KeyOf(job.item), StatusFailed)))
  }

  ghost predicate Course(maxRetry: int, job: Job) {
    if job.phase.Finished? then Shape(maxRetry, job, job.phase.outcome, job.phase.attempts) else Progress(maxRetry, job)
  }

  /** vs is a subsequence of the log. */
  predicate Within(vs: seq<Version>, log: seq<Version>)
    decreases |log|
  {
    vs == []
    || (log != [] && (Within(vs, log[..|log| - 1])
                      || (vs[|vs| - 1] == log[|log| - 1] && Within(vs[..|vs| - 1], log[..|log| - 1]))))
  }

  lemma {:induction false} WithinMore(vs: seq<Version>, log: seq<Version>, more: seq<Version>)
    requires Within(vs, log)
    ensures Within(vs, log + more)
    decreases |more|
  {
    if more == [] {
      assert log + more == log;
    } else {
      WithinMore(vs, log, more[..|more| - 1]);
      assert (log + more)[..|log + more| - 1] == log + more[..|more| - 1];
    }
  }

  lemma WithinBoth(vs: seq<Version>, log: seq<Version>, last: seq<Version>)
    requires Within(vs, log) && |last| <= 1
    ensures Within(vs + last, log + last)
  {
    if last == [] {
      assert vs + last == vs && log + last == log;
    } else {
      assert (vs + last)[..|vs|] == vs && (log + last)[..|log|] == log;
    }
  }

  /** What a job has written, in order, among the versions logged while it lived. */
  ghost predicate Logged(log: seq<Version>, job: Job) {
    job.from <= job.upTo <= |log| && Within(job.written, log[job.from..job.upTo])
  }

  /** What holds of every job in every run. */
  ghost predicate JobFair(maxRetry: int, s: System, j: nat)
    requires j < |s.jobs|
  {
    && Course(maxRetry, s.jobs[j]) && Logged(s.log, s.jobs[j])
    && (s.jobs[j].phase.Working? ==> KeyOf(s.jobs[j].item) in s.messages)
  }

  lemma ProgressIsCourse(maxRetry: int, job: Job)
    requires Progress(maxRetry, job) && (job.phase.Finished? ==> job.phase.outcome.Dropped?)
    ensures Course(maxRetry, job)
  {
  }

  lemma MarkingCourse(maxRetry: int, job: Job, m: map<Key, Row>)
    requires job.phase.Marking? && Progress(maxRetry, job)
    ensures Course(maxRetry, Moved(maxRetry, job).(written := job.written + Writes(maxRetry, job, m)))
  {
    hide Exhausted;
    hide Trajectory;
    hide Processings;
    assert job.written + [] == job.written;
    ExhaustedAfter(job.item, job.env, maxRetry, job.attempt);
  }

  lemma WorkingCourse(maxRetry: int, job: Job, m: map<Key, Row>)
    requires job.phase.Working? && Progress(maxRetry, job) && KeyOf(job.item) in m
    ensures Course(maxRetry, Moved(maxRetry, job).(written := job.written + Writes(maxRetry, job, m)))
  {
    hide Exhausted;
    hide Trajectory;
    hide Processings;
    assert job.written + [] == job.written;
    if Succeeds(job.item, job.env(job.attempt)) {
      ExhaustedAfter(job.item, job.env, maxRetry, job.attempt);
    } else {
      FailedProgress(maxRetry, job);
      ProgressIsCourse(maxRetry, Moved(maxRetry, job).(written := job.written + Writes(maxRetry, job, m)));
    }
  }

  lemma CourseStep(maxRetry: int, job: Job, m: map<Key, Row>)
    requires Course(maxRetry, job) && !job.phase.Finished? && (job.phase.Working? ==> KeyOf(job.item) in m)
    ensures Course(maxRetry, Moved(maxRetry, job).(written := job.written + Writes(maxRetry, job, m)))
  {
    hide Progress;
    hide Shape;
    if job.phase.Upserting? {
      UpsertingProgress(maxRetry, job, m);
      NotCompleted(maxRetry, job);
      ProgressIsCourse(maxRetry, Moved(maxRetry, job).(written := job.written + Writes(maxRetry, job, m)));
    } else if job.phase.Marking? {
      MarkingCourse(maxRetry, job, m);
    } else {
      WorkingCourse(maxRetry, job, m);
    }
  }

  lemma NotCompleted(maxRetry: int, job: Job)
    ensures job.phase.Upserting? && Moved(maxRetry, job).phase.Finished? ==> Moved(maxRetry, job).phase.outcome.Dropped?
  {
  }

  lemma SameCourse(maxRetry: int, job: Job, upTo: nat)
    requires Course(maxRetry, job)
    ensures Course(maxRetry, job.(upTo := upTo))
  {
  }

  lemma RowStays(maxRetry: int, s: System, e: Event, key: Key)
    requires Enabled(s, e) && key in s.messages
    ensures key in Step(maxRetry, s, e).messages
  {
  }

  lemma WorkingHasRow(maxRetry: int, job: Job, m: map<Key, Row>)
    requires !job.phase.Working? && Moved(maxRetry, job).phase.Working?
    ensures KeyOf(job.item) in Written(m, job.item, Writes(maxRetry, job, m))
  {
  }

  lemma ActFair(maxRetry: int, s: System, j: nat)
    requires Active(s, j) && JobFair(maxRetry, s, j)
    ensures JobFair(maxRetry, Step(maxRetry, s, Act(j)), j)
  {
    hide Course;
    hide Within;
    hide Writes;
    hide Written;
    var job, vs := s.jobs[j], Writes(maxRetry, s.jobs[j], s.messages);
    WritesOwnKey(maxRetry, job, s.messages);
    MovedKeeps(maxRetry, job);
    CourseStep(maxRetry, job, s.messages);
    SameCourse(maxRetry, Moved(maxRetry, job).(written := job.written + vs), |s.log| + |vs|);
    LoggedOwn(s.log, job, vs);
    if !job.phase.Working? && Moved(maxRetry, job).phase.Working? {
      WorkingHasRow(maxRetry, job, s.messages);
    }
    WorkingMoves(maxRetry, job);
    var job' := Moved(maxRetry, job).(written := job.written + vs, upTo := |s.log| + |vs|);
    assert Step(maxRetry, s, Act(j)).jobs[j] == job' && Step(maxRetry, s, Act(j)).log == s.log + vs;
  }

  lemma WorkingMoves(maxRetry: int, job: Job)
    ensures job.phase.Working? ==> !Moved(maxRetry, job).phase.Working?
  {
  }

  lemma LoggedOwn(log: seq<Version>, job: Job, vs: seq<Version>)
    requires Logged(log, job) && |vs| <= 1
    ensures Within(job.written + vs, (log + vs)[job.from..|log + vs|])
  {
    hide Within;
    assert log[job.from..] == log[job.from..job.upTo] + log[job.upTo..];
    WithinMore(job.written, log[job.from..job.upTo], log[job.upTo..]);
    WithinBoth(job.written, log[job.from..], vs);
    assert (log + vs)[job.from..|log + vs|] == log[job.from..] + vs;
  }

  lemma StepFair(maxRetry: int, s: System, e: Event, j: nat)
    requires Enabled(s, e) && j < |Step(maxRetry, s, e).jobs| && (j < |s.jobs| ==> JobFair(maxRetry, s, j))
    ensures JobFair(maxRetry, Step(maxRetry, s, e), j)
  {
    hide Within;
    hide Shape;
    hide Writes;
    if e.Act? && e.job == j {
      ActFair(maxRetry, s, j);
    } else if j < |s.jobs| {
      var s', job := Step(maxRetry, s, e), s.jobs[j];
      assert s'.jobs[j] == job && s'.log[job.from..job.upTo] == s.log[job.from..job.upTo];
      if job.phase.Working? {
        RowStays(maxRetry, s, e, KeyOf(job.item));
      }
    } else {
      WithinNothing(s.log[|s.log|..|s.log|]);
    }
  }

  lemma WithinNothing(log: seq<Version>)
    ensures Within([], log)
  {
  }

  lemma {:induction false} RunFair(maxRetry: int, s: System, es: seq<Event>, t: System)
    requires Reaches(maxRetry, s, es, t) && forall j: nat :: j < |s.jobs| ==> JobFair(maxRetry, s, j)
    ensures forall j: nat :: j < |t.jobs| ==> JobFair(maxRetry, t, j)
    decreases |es|
  {
    hide JobFair;
    hide Step;
    if es != [] {
      var s' := Step(maxRetry, s, es[0]);
      forall j: nat | j < |s'.jobs| ensures JobFair(maxRetry, s', j) {
        StepFair(maxRetry, s, es[0], j);
      }
      RunFair(maxRetry, s', es[1..], t);
    }
  }

  /** In every run at all, several workers on the same message included: a call has the outcome
      its own attempts determine, and has written, in order, the 'processing' versions of its
      own attempts and the final version of that outcome. Only the count of that final one
      may be another worker's. */
  lemma CallsInEveryRun(maxRetry: int, m: map<Key, Row>, es: seq<Event>, t: System, j: nat)
    requires Reaches(maxRetry, System(m, [], []), es, t) && j < |t.jobs| && t.jobs[j].phase.Finished?
    ensures var job := t.jobs[j];
            && Shape(maxRetry, job, job.phase.outcome, job.phase.attempts)
            && job.from <= job.upTo <= |t.log| && Within(job.written, t.log[job.from..job.upTo])
  {
    hide Reaches;
    hide Shape;
    hide Within;
    RunFair(maxRetry, System(m, [], []), es, t);
    assert JobFair(maxRetry, t, j);
  }

  /** In every run the log tells the table: a row shows its last version, and is as at the start if it has none. */
  ghost predicate Recorded(m: map<Key, Row>, s: System, key: Key) {
    var vs := Of(s.log, key);
    if vs == [] then At(s.messages, key) == At(m, key)
    else key in s.messages && s.messages[key].status == vs[|vs| - 1].status
         && s.messages[key].retryCount == vs[|vs| - 1].retryCount
  }

  lemma StepRecorded(maxRetry: int, m: map<Key, Row>, s: System, e: Event, key: Key)
    requires Recorded(m, s, key) && Enabled(s, e)
    ensures Recorded(m, Step(maxRetry, s, e), key)
  {
    hide Of;
    hide Writes;
    hide Moved;
    if e.Act? {
      var job := s.jobs[e.job];
      var vs := Writes(maxRetry, job, s.messages);
      WritesOwnKey(maxRetry, job, s.messages);
      OfConcat(s.log, vs, key);
      OfOwn(vs, key, KeyOf(job.item) == key);
    }
  }

  lemma {:induction false} LogTellsTable(maxRetry: int, m: map<Key, Row>, s: System, es: seq<Event>, t: System, key: Key)
    requires Recorded(m, s, key) && Reaches(maxRetry, s, es, t)
    ensures Recorded(m, t, key)
    decreases |es|
  {
    hide Recorded;
    hide Step;
    if es != [] {
      StepRecorded(maxRetry, m, s, es[0], key);
      LogTellsTable(maxRetry, m, Step(maxRetry, s, es[0]), es[1..], t, key);
    }
  }
}

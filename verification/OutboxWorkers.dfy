/**
  Any number of outbox workers over one outbox table, interleaved with the
  transactions that insert rows and with crashes.

  A row is named by its position in commit order, which is also its `created_at`
  order.  A worker's transaction is: lock the oldest row nobody has locked, publish
  it, delete it, commit.  A crash (or any exception) at any point rolls the
  transaction back: the row stays, its lock goes, but a published message remains
  in the log.
 */
module OutboxWorkers {
  import opened Common
  import opened Stuttering

  type Worker = nat
  type RowId = nat

  datatype Phase = Idle | Locked(row: RowId) | Published(row: RowId)

  /**
    `committed` counts the rows ever inserted; `log` names the rows in the order in
    which they were handled, which for users rows is the topic.
   */
  datatype State = State(
    committed: nat,
    table: set<RowId>,
    locks: map<RowId, Worker>,
    phases: map<Worker, Phase>,
    log: seq<RowId>)
  {
    function PhaseOf(w: Worker): Phase {
      if w in phases then phases[w] else Idle
    }

    /** Worker `w` is inside a transaction that has taken row `r`. */
    predicate Holds(w: Worker, r: RowId) {
      PhaseOf(w) == Locked(r) || PhaseOf(w) == Published(r)
    }
  }

  datatype Step =
    | Commit
    | Take(worker: Worker, row: RowId)
    | Publish(worker: Worker)
    | DeleteAndCommit(worker: Worker)
    | Crash(worker: Worker)

  const START := State(0, {}, map[], map[], [])

  /** `ORDER BY created_at LIMIT 1 FOR UPDATE SKIP LOCKED` returns row `r`. */
  predicate OldestUnlocked(s: State, r: RowId) {
    && r in s.table
    && r !in s.locks
    && forall q :: q in s.table && q < r ==> q in s.locks
  }

  predicate Enabled(s: State, step: Step) {
    match step
    case Commit => true
    case Take(w, r) => s.PhaseOf(w).Idle? && OldestUnlocked(s, r)
    case Publish(w) => s.PhaseOf(w).Locked?
    case DeleteAndCommit(w) => s.PhaseOf(w).Published?
    case Crash(_) => true
  }

  function Apply(s: State, step: Step): State
    requires Enabled(s, step)
  {
    match step
    case Commit => s.(committed := s.committed + 1, table := s.table + {s.committed})
    case Take(w, r) => s.(locks := s.locks[r := w], phases := s.phases[w := Locked(r)])
    case Publish(w) =>
      var r := s.PhaseOf(w).row;
      s.(log := s.log + [r], phases := s.phases[w := Published(r)])
    case DeleteAndCommit(w) =>
      var r := s.PhaseOf(w).row;
      s.(table := s.table - {r}, locks := s.locks - {r}, phases := s.phases[w := Idle])
    case Crash(w) =>
      s.(locks := map r | r in s.locks && s.locks[r] != w :: s.locks[r], phases := s.phases[w := Idle])
  }

  /** The state after a sequence of steps, or None when some step was not enabled. */
  function Execute(steps: seq<Step>): Option<State> {
    if steps == [] then Some(START)
    else
      match Execute(steps[..|steps| - 1])
      case None => None
      case Some(s) =>
        var step := steps[|steps| - 1];
        if Enabled(s, step) then Some(Apply(s, step)) else None
  }

  // ------------------------------------------------------------------------
  // Exclusion and conservation, for any number of workers
  // ------------------------------------------------------------------------

  ghost predicate Inv(s: State) {
    && (forall r :: r in s.table ==> r < s.committed)
    && s.locks.Keys <= s.table
    && (forall w, r :: s.Holds(w, r) <==> r in s.locks && s.locks[r] == w)
    && (forall w :: s.PhaseOf(w).Published? ==> s.PhaseOf(w).row in s.log)
    && (forall r :: 0 <= r < s.committed ==> r in s.table || r in s.log)
    && (forall r :: r in s.log ==> r < s.committed)
  }

  lemma StepKeepsInv(s: State, step: Step)
    requires Inv(s) && Enabled(s, step)
    ensures Inv(Apply(s, step))
  {
    var s' := Apply(s, step);
    forall w, r ensures s'.Holds(w, r) <==> r in s'.locks && s'.locks[r] == w {
      assert s.Holds(w, r) <==> r in s.locks && s.locks[r] == w;
      match step
      case Take(w0, r0) => assert s.Holds(w0, r) <==> r in s.locks && s.locks[r] == w0;
      case DeleteAndCommit(w0) => assert s.Holds(w0, s.PhaseOf(w0).row);
      case Publish(w0) => assert s.Holds(w0, s.PhaseOf(w0).row);
      case _ =>
    }
    if step.Publish? {
      assert s.Holds(step.worker, s.PhaseOf(step.worker).row);
      assert forall r :: r in s'.log ==> r in s.log || r == s.PhaseOf(step.worker).row;
    }
    assert forall w :: s.PhaseOf(w).Published? ==> s.PhaseOf(w).row in s'.log;
    forall w | s'.PhaseOf(w).Published? ensures s'.PhaseOf(w).row in s'.log {
      if w !in s.phases || s'.PhaseOf(w) != s.PhaseOf(w) {
        assert step.Publish? && s'.log[|s.log|] == s'.PhaseOf(w).row;
      }
    }
    forall r | 0 <= r < s'.committed ensures r in s'.table || r in s'.log {
      assert r < s.committed ==> r in s.table || r in s.log;
    }
  }

  lemma {:induction false} ReachableInv(steps: seq<Step>)
    requires Execute(steps).Some?
    ensures Inv(Execute(steps).value)
  {
    if steps == [] {
    } else {
      var before := steps[..|steps| - 1];
      ReachableInv(before);
      StepKeepsInv(Execute(before).value, steps[|steps| - 1]);
    }
  }

  /** FOR UPDATE SKIP LOCKED never gives one row to two workers. */
  lemma Exclusion(steps: seq<Step>, w1: Worker, w2: Worker, r: RowId)
    requires Execute(steps).Some?
    requires Execute(steps).value.Holds(w1, r) && Execute(steps).value.Holds(w2, r)
    ensures w1 == w2
    ensures r in Execute(steps).value.table
  {
    ReachableInv(steps);
    var s := Execute(steps).value;
    assert s.Holds(w1, r) && s.Holds(w2, r);
  }

  /** At-least-once: whatever crashed, a committed row is still in the table or in the log. */
  lemma Conservation(steps: seq<Step>, r: RowId)
    requires Execute(steps).Some? && r < Execute(steps).value.committed
    ensures r in Execute(steps).value.table || r in Execute(steps).value.log
  {
    ReachableInv(steps);
  }

  // ------------------------------------------------------------------------
  // How often a row is published
  // ------------------------------------------------------------------------

  /** Row `r` has been published by the transaction that is about to delete it, or deleted. */
  ghost predicate Delivered(s: State, r: RowId) {
    r < s.committed && (r !in s.table || (r in s.locks && s.PhaseOf(s.locks[r]).Published?))
  }

  /** The step is a crash between publishing row `r` and committing its deletion. */
  predicate Repeats(s: State, step: Step, r: RowId) {
    step.Crash? && s.PhaseOf(step.worker) == Published(r)
  }

  /** How often that has happened in a run. */
  function RepeatCount(steps: seq<Step>, r: RowId): nat {
    if steps == [] then 0
    else
      var before := steps[..|steps| - 1];
      var s := Execute(before);
      RepeatCount(before, r) + if s.Some? && Repeats(s.value, steps[|steps| - 1], r) then 1 else 0
  }

  lemma StepCounts(s: State, step: Step, r: RowId)
    requires Inv(s) && Enabled(s, step)
    ensures multiset(Apply(s, step).log)[r] + (if Delivered(s, r) then 1 else 0)
         == multiset(s.log)[r] + (if Delivered(Apply(s, step), r) then 1 else 0) + (if Repeats(s, step, r) then 1 else 0)
  {
    LockerHolds(s, r);
    match step
    case Commit =>
    case Take(w0, _) => assert !s.Holds(w0, r);
    case Publish(w0) => assert s.Holds(w0, s.PhaseOf(w0).row);
    case DeleteAndCommit(w0) => assert s.Holds(w0, s.PhaseOf(w0).row);
    case Crash(w0) =>
      if s.PhaseOf(w0).Published? { assert s.Holds(w0, s.PhaseOf(w0).row); }
  }

  /** In every run: once for good, and once more for each crash in between. */
  lemma {:induction false} PublicationCount(steps: seq<Step>, r: RowId)
    requires Execute(steps).Some?
    ensures multiset(Execute(steps).value.log)[r]
         == (if Delivered(Execute(steps).value, r) then 1 else 0) + RepeatCount(steps, r)
  {
    if steps == [] {
    } else {
      var before := steps[..|steps| - 1];
      PublicationCount(before, r);
      ReachableInv(before);
      StepCounts(Execute(before).value, steps[|steps| - 1], r);
    }
  }

  predicate CrashFree(steps: seq<Step>) {
    forall i :: 0 <= i < |steps| ==> !steps[i].Crash?
  }

  lemma {:induction false} NoRepeats(steps: seq<Step>, r: RowId)
    requires CrashFree(steps)
    ensures RepeatCount(steps, r) == 0
  {
    if steps == [] {
    } else {
      NoRepeats(steps[..|steps| - 1], r);
    }
  }

  ghost predicate OnceInv(s: State) {
    forall r: RowId :: multiset(s.log)[r] == if Delivered(s, r) then 1 else 0
  }

  lemma StepKeepsOnce(s: State, step: Step)
    requires Inv(s) && OnceInv(s) && Enabled(s, step) && !step.Crash?
    ensures OnceInv(Apply(s, step))
  {
    forall r: RowId ensures multiset(Apply(s, step).log)[r] == if Delivered(Apply(s, step), r) then 1 else 0 {
      StepCounts(s, step, r);
    }
  }

  lemma ExactlyOnce(steps: seq<Step>)
    requires Execute(steps).Some? && CrashFree(steps)
    ensures OnceInv(Execute(steps).value)
  {
    forall r: RowId
      ensures multiset(Execute(steps).value.log)[r] == if Delivered(Execute(steps).value, r) then 1 else 0
    {
      PublicationCount(steps, r);
      NoRepeats(steps, r);
    }
  }

  /** Without crashes an emptied table means every row was published exactly once. */
  lemma DrainedOnce(steps: seq<Step>, r: RowId)
    requires Execute(steps).Some? && CrashFree(steps)
    requires Execute(steps).value.table == {}
    ensures multiset(Execute(steps).value.log)[r] == if r < Execute(steps).value.committed then 1 else 0
  {
    ExactlyOnce(steps);
    ReachableInv(steps);
  }

  // ------------------------------------------------------------------------
  // One worker: the log is in commit order, with adjacent repeats only
  // ------------------------------------------------------------------------

  predicate OnlyWorker(steps: seq<Step>, w: Worker) {
    forall i :: 0 <= i < |steps| ==> steps[i].Commit? || steps[i].worker == w
  }

  /** `done` rows have been deleted; they are the oldest ones. */
  ghost predicate OneWorkerInv(s: State, w: Worker, done: nat) {
    && done <= s.committed
    && (forall r :: r in s.table <==> done <= r < s.committed)
    && Stutters(s.log)
    && (Reached(s.log) == done || Reached(s.log) == done + 1)
    && (s.PhaseOf(w).Locked? ==> s.PhaseOf(w).row == done)
    && (s.PhaseOf(w).Published? ==> s.PhaseOf(w).row == done && Reached(s.log) == done + 1)
    && (forall v :: v != w ==> s.PhaseOf(v).Idle?)
  }

  lemma LockerHolds(s: State, r: RowId)
    requires Inv(s)
    ensures r in s.locks ==> s.Holds(s.locks[r], r)
  {
  }

  lemma OneWorkerStep(s: State, step: Step, w: Worker, done: nat) returns (done': nat)
    requires Inv(s) && OneWorkerInv(s, w, done)
    requires Enabled(s, step) && (step.Commit? || step.worker == w)
    ensures OneWorkerInv(Apply(s, step), w, done')
  {
    var s' := Apply(s, step);
    done' := if step.DeleteAndCommit? then done + 1 else done;
    assert forall v :: v != w ==> s'.PhaseOf(v) == s.PhaseOf(v);
    match step
    case Commit =>
    case Take(_, _) => LockerHolds(s, done);
    case Publish(_) =>
    case DeleteAndCommit(_) => assert s.Holds(w, done);
    case Crash(_) =>
  }

  /**
    One worker, crashing and restarting at will: the topic is a stuttering copy of
    the commit history, never ahead of it, and complete once the table is empty.
   */
  lemma {:induction false} OneWorkerLog(steps: seq<Step>, w: Worker) returns (done: nat)
    requires Execute(steps).Some? && OnlyWorker(steps, w)
    ensures OneWorkerInv(Execute(steps).value, w, done)
    ensures Stutters(Execute(steps).value.log)
    ensures Reached(Execute(steps).value.log) <= Execute(steps).value.committed
    ensures Execute(steps).value.table == {} ==>
              Reached(Execute(steps).value.log) == Execute(steps).value.committed
  {
    if steps == [] {
      done := 0;
    } else {
      var before := steps[..|steps| - 1];
      var d := OneWorkerLog(before, w);
      ReachableInv(before);
      done := OneWorkerStep(Execute(before).value, steps[|steps| - 1], w, d);
    }
    ReachableInv(steps);
    var s := Execute(steps).value;
    if s.log != [] { assert s.log[|s.log| - 1] in s.log; }
    if done < s.committed { assert done in s.table; }
  }

  /**
    With two workers SKIP LOCKED lets the younger row overtake the older one: the
    table is drained without a crash, yet the topic is out of commit order.
   */
  lemma TwoWorkersReorder() returns (steps: seq<Step>)
    ensures CrashFree(steps)
    ensures Execute(steps).Some?
    ensures Execute(steps).value.table == {}
    ensures Execute(steps).value.log == [1, 0]
  {
    var s1 := State(1, {0}, map[], map[], []);
    steps := Extend([], Commit, START, s1);
    var s2 := State(2, {0, 1}, map[], map[], []);
    steps := Extend(steps, Commit, s1, s2);
    var s3 := s2.(locks := map[0 := 1], phases := map[1 := Locked(0)]);
    steps := Extend(steps, Take(1, 0), s2, s3);
    var s4 := s3.(locks := map[0 := 1, 1 := 2], phases := map[1 := Locked(0), 2 := Locked(1)]);
    steps := Extend(steps, Take(2, 1), s3, s4);
    var s5, s6;
    steps, s5 := Deliver(steps, s4, 2);
    steps, s6 := Deliver(steps, s5, 1);
  }

  /** A worker that has its row publishes and deletes it. */
  lemma Deliver(taken: seq<Step>, s: State, w: Worker) returns (steps: seq<Step>, s': State)
    requires Execute(taken) == Some(s) && CrashFree(taken)
    requires s.PhaseOf(w).Locked?
    ensures var r := s.PhaseOf(w).row;
            s' == State(s.committed, s.table - {r}, s.locks - {r}, s.phases[w := Idle], s.log + [r])
    ensures Execute(steps) == Some(s') && CrashFree(steps)
  {
    var published := Apply(s, Publish(w));
    steps := Extend(taken, Publish(w), s, published);
    s' := Apply(published, DeleteAndCommit(w));
    steps := Extend(steps, DeleteAndCommit(w), published, s');
    assert published.phases[w := Idle] == s.phases[w := Idle];
  }

  lemma Extend(steps: seq<Step>, step: Step, s: State, s': State) returns (longer: seq<Step>)
    requires Execute(steps) == Some(s) && CrashFree(steps)
    requires !step.Crash? && Enabled(s, step) && Apply(s, step) == s'
    ensures Execute(longer) == Some(s') && CrashFree(longer)
  {
    longer := steps + [step];
    ExecuteNext(steps, step);
    forall i | 0 <= i < |longer| ensures !longer[i].Crash? {
      if i < |steps| { assert longer[i] == steps[i]; }
    }
  }

  lemma ExecuteNext(steps: seq<Step>, step: Step)
    ensures Execute(steps + [step]) ==
            match Execute(steps)
            case None => None
            case Some(s) => if Enabled(s, step) then Some(Apply(s, step)) else None
  {
    assert (steps + [step])[..|steps + [step]| - 1] == steps;
  }
}

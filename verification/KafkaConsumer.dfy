/**
  The base Kafka consumer on one partition: start at the committed offset, try each
  message at most `processRetries` times, commit only after a success.

  What the outside world does (handler results, failing commits, the process being
  killed) is a script of fates, consumed one per attempt or commit.
 */
module KafkaConsumer {
  import opened Common
  import opened Stuttering

  /** `applied` says whether a handler, or a commit, that did not return had its effect anyway. */
  datatype Fate = Works | Raises(applied: bool) | Dies(applied: bool)

  /** One call of `process_message`. */
  datatype Attempt = Attempt(offset: nat, ok: bool, applied: bool)

  datatype Ending = Drained | StoppedOnce | RetriesExceeded | CommitFailed | Killed

  /** How often a message was tried. */
  function Tries(attempts: seq<Attempt>, offset: nat): nat {
    if attempts == [] then 0
    else Tries(attempts[..|attempts| - 1], offset) + if attempts[|attempts| - 1].offset == offset then 1 else 0
  }

  /** Next to each other: the same message again, or the next one after a success. */
  ghost predicate Follows(a: Attempt, b: Attempt) {
    b.offset == a.offset || (a.ok && b.offset == a.offset + 1)
  }

  /** What every run, however it ends, keeps true of all attempts ever made and the committed offset. */
  ghost predicate Progress(attempts: seq<Attempt>, committed: nat) {
    && (attempts == [] ==> committed == 0)
    && (attempts != [] ==>
          && attempts[0].offset == 0
          && var last := attempts[|attempts| - 1];
             committed == last.offset || (last.ok && committed == last.offset + 1))
    && (forall i :: 0 <= i < |attempts| ==> attempts[i].ok ==> attempts[i].applied)
    && (forall i :: 0 < i < |attempts| ==> Follows(attempts[i - 1], attempts[i]))
  }

  function AttemptOf(offset: nat, fate: Fate): Attempt {
    Attempt(offset, fate.Works?, fate.Works? || fate.applied)
  }

  /** The attempts are what the fates from `first` on make them. */
  ghost predicate MadeBy(tried: seq<Attempt>, offset: nat, fates: seq<Fate>, first: nat) {
    first + |tried| <= |fates| && forall i :: 0 <= i < |tried| ==> tried[i] == AttemptOf(offset, fates[first + i])
  }

  lemma OneMoreAttempt(tried: seq<Attempt>, offset: nat, fates: seq<Fate>, first: nat)
    requires MadeBy(tried, offset, fates, first) && first + |tried| < |fates|
    ensures MadeBy(tried + [AttemptOf(offset, fates[first + |tried|])], offset, fates, first)
  {
  }

  predicate AllWork(fates: seq<Fate>) {
    forall i :: 0 <= i < |fates| ==> fates[i].Works?
  }

  /** No message is tried more often than allowed. */
  ghost predicate Bounded(made: seq<Attempt>, retries: nat) {
    forall o: nat :: Tries(made, o) <= retries
  }

  /** Only this message was tried, and only a final success succeeded. */
  ghost predicate OnlyTried(tried: seq<Attempt>, offset: nat, success: bool) {
    && (forall i :: 0 <= i < |tried| ==> tried[i].offset == offset && (tried[i].ok ==> success))
    && (success ==> tried != [] && tried[|tried| - 1] == Attempt(offset, true, true))
  }

  /** The message at `offset` used up its attempts without a success. */
  ghost predicate GaveUp(made: seq<Attempt>, offset: nat, retries: nat) {
    && Tries(made, offset) == retries
    && forall i :: 0 <= i < |made| && made[i].offset == offset ==> !made[i].ok
  }

  /** The last attempt succeeded on the message just below `offset`. */
  predicate EndsWithSuccess(made: seq<Attempt>, offset: nat) {
    made != [] && made[|made| - 1].ok && made[|made| - 1].offset + 1 == offset
  }

  // ------------------------------------------------------------------------
  // What a script of fates leads to
  // ------------------------------------------------------------------------

  /** The first `k` fates from `first` on are exceptions of the handler. */
  ghost predicate RaisesBefore(fates: seq<Fate>, first: nat, k: nat) {
    first + k <= |fates| && forall j :: first <= j < first + k ==> fates[j].Raises?
  }

  /** The first success is attempt `k`, counted from 0. */
  ghost predicate WorksAt(fates: seq<Fate>, first: nat, k: nat) {
    RaisesBefore(fates, first, k) && first + k < |fates| && fates[first + k].Works?
  }

  /** The process is gone in attempt `k`: killed by a fate, or by the script's end. */
  ghost predicate DiesAt(fates: seq<Fate>, first: nat, k: nat) {
    RaisesBefore(fates, first, k) && (first + k == |fates| || fates[first + k].Dies?)
  }

  /** A message whose fates start at `first` succeeds within the allowed attempts and is committed. */
  ghost predicate RoundCommits(fates: seq<Fate>, retries: nat, first: nat, next: nat) {
    exists k: nat :: k < retries && CommitsAfter(fates, first, k) && next == first + k + 2
  }

  ghost predicate CommitsAfter(fates: seq<Fate>, first: nat, k: nat) {
    WorksAt(fates, first, k) && first + k + 1 < |fates| && fates[first + k + 1].Works?
  }

  /** Where the fates of each message start; every message but the last one was committed. */
  ghost predicate Rounds(fates: seq<Fate>, retries: nat, starts: seq<nat>) {
    && starts != [] && starts[0] == 0
    && forall m :: 0 <= m < |starts| - 1 ==> RoundCommits(fates, retries, starts[m], starts[m + 1])
  }

  /** How a run ends on the message whose fates start at `first`. */
  ghost predicate EndsAs(fates: seq<Fate>, retries: nat, first: nat, ending: Ending) {
    match ending
    case RetriesExceeded => RaisesBefore(fates, first, retries)
    case CommitFailed =>
      exists k: nat :: k < retries && WorksAt(fates, first, k) && CommitFate(fates, first + k + 1) == Some(Broken)
    case Killed =>
      exists k: nat :: k < retries &&
        (DiesAt(fates, first, k) || (WorksAt(fates, first, k) && CommitFate(fates, first + k + 1) == Some(Gone)))
    case StoppedOnce => exists k: nat :: k < retries && CommitsAfter(fates, first, k)
    case Drained => true
  }

  datatype CommitTrouble = Broken | Gone

  /** What is wrong with the commit at fate `i`, if anything. */
  function CommitFate(fates: seq<Fate>, i: nat): Option<CommitTrouble> {
    if i >= |fates| || fates[i].Dies? then Some(Gone) else if fates[i].Raises? then Some(Broken) else None
  }

  ghost predicate NoDies(fates: seq<Fate>) {
    forall i :: 0 <= i < |fates| ==> !fates[i].Dies?
  }

  function Needed(messages: nat, retries: nat): nat {
    if messages == 0 then 0 else Needed(messages - 1, retries) + retries + 1
  }

  lemma {:induction false} StartsAreEarly(fates: seq<Fate>, retries: nat, starts: seq<nat>, m: nat)
    requires Rounds(fates, retries, starts) && m < |starts|
    ensures starts[m] <= Needed(m, retries)
  {
    if m == 0 {
    } else {
      StartsAreEarly(fates, retries, starts, m - 1);
      assert RoundCommits(fates, retries, starts[m - 1], starts[m - 1 + 1]);
    }
  }

  lemma {:induction false} NeededGrows(m: nat, n: nat, retries: nat)
    requires m <= n
    ensures Needed(m, retries) <= Needed(n, retries)
  {
    if m == n {
    } else {
      NeededGrows(m, n - 1, retries);
    }
  }

  /** A long enough script without deaths never kills the process. */
  lemma NeverKilled(fates: seq<Fate>, retries: nat, starts: seq<nat>, messages: nat)
    requires Rounds(fates, retries, starts) && |starts| <= messages
    requires NoDies(fates) && Needed(messages, retries) <= |fates|
    ensures !EndsAs(fates, retries, starts[|starts| - 1], Killed)
  {
    var m := |starts| - 1;
    StartsAreEarly(fates, retries, starts, m);
    NeededGrows(m + 1, messages, retries);
  }

  /** The retry loop in terms of its fates: the first success within the limit, else all attempts, unless the process is gone. */
  ghost predicate TryOutcome(fates: seq<Fate>, first: nat, retries: nat, success: bool, killed: bool, next: nat) {
    && (forall k: nat :: k < retries && WorksAt(fates, first, k) ==> success && next == first + k + 1)
    && (RaisesBefore(fates, first, retries) ==> !success && !killed && next == first + retries)
    && (forall k: nat :: k < retries && DiesAt(fates, first, k) ==> killed)
    && (success ==> !killed && first < next <= first + retries && WorksAt(fates, first, next - first - 1))
    && (killed ==> exists k: nat :: k < retries && DiesAt(fates, first, k))
    && (!success && !killed ==> RaisesBefore(fates, first, retries))
  }

  /** Only one of the three can stop a row of exceptions. */
  lemma StopsOnce(fates: seq<Fate>, first: nat, k: nat, j: nat)
    requires WorksAt(fates, first, k) || DiesAt(fates, first, k)
    requires WorksAt(fates, first, j) || DiesAt(fates, first, j)
    ensures j == k
  {
  }

  lemma NotAllRaise(fates: seq<Fate>, first: nat, k: nat, n: nat)
    requires (WorksAt(fates, first, k) || DiesAt(fates, first, k)) && k < n
    ensures !RaisesBefore(fates, first, n)
  {
  }

  lemma SuccessAt(fates: seq<Fate>, first: nat, retries: nat, k: nat)
    requires k < retries && WorksAt(fates, first, k)
    ensures TryOutcome(fates, first, retries, true, false, first + k + 1)
  {
    NotAllRaise(fates, first, k, retries);
    forall j: nat | WorksAt(fates, first, j) || DiesAt(fates, first, j) ensures j == k { StopsOnce(fates, first, k, j); }
  }

  lemma KilledAt(fates: seq<Fate>, first: nat, retries: nat, k: nat, next: nat)
    requires k < retries && DiesAt(fates, first, k)
    ensures TryOutcome(fates, first, retries, false, true, next)
  {
    NotAllRaise(fates, first, k, retries);
    forall j: nat | WorksAt(fates, first, j) || DiesAt(fates, first, j) ensures j == k { StopsOnce(fates, first, k, j); }
  }

  lemma NoSuccess(fates: seq<Fate>, first: nat, retries: nat)
    requires RaisesBefore(fates, first, retries)
    ensures TryOutcome(fates, first, retries, false, false, first + retries)
  {
    forall j: nat | j < retries ensures !WorksAt(fates, first, j) && !DiesAt(fates, first, j) {
      assert fates[first + j].Raises?;
    }
  }

  predicate Succeeded(tried: seq<Attempt>) {
    tried != [] && tried[|tried| - 1].ok
  }

  class BaseKafkaConsumer {
    const processRetries: nat
    var consumer: Option<nat>          // position of the started client
    var committed: nat                 // kept by the broker
    ghost var attempts: seq<Attempt>   // every attempt of every run

    ghost predicate Valid() reads this {
      processRetries > 0 && Progress(attempts, committed)
    }

    /** `processRetries` must be positive. */
    constructor (retries: nat)
      requires retries > 0
      ensures Valid() && processRetries == retries && consumer == None && committed == 0 && attempts == []
    {
      processRetries := retries;
      consumer, committed, attempts := None, 0, [];
    }

    method Start()
      modifies this`consumer
      ensures consumer == Some(committed)
    {
      consumer := Some(committed);
    }

    method Stop()
      modifies this`consumer
      ensures consumer == None
    {
      consumer := None;
    }

    /** Every exit, including an exception, stops the client. */
    method Run(size: nat, once: bool, fates: seq<Fate>)
      returns (ending: Ending, ghost made: seq<Attempt>, ghost starts: seq<nat>)
      requires Valid() && (consumer == None || consumer == Some(committed)) && committed <= size
      modifies this
      ensures Valid() && consumer == None
      ensures old(committed) <= committed <= size
      ensures attempts == old(attempts) + made
      ensures Bounded(made, processRetries)
      ensures forall i :: 0 <= i < |made| ==> made[i].offset <= committed
      ensures ending.Drained? ==> committed == size
      ensures ending.StoppedOnce? ==> once && committed == old(committed) + 1
      ensures ending.RetriesExceeded? ==> committed < size && GaveUp(made, committed, processRetries)
      ensures (ending.Killed? || ending.CommitFailed?) && committed == size ==> EndsWithSuccess(made, size)
      ensures ending.CommitFailed? ==> EndsWithSuccess(made, committed) || EndsWithSuccess(made, committed + 1)
      ensures Rounds(fates, processRetries, starts)
      ensures !ending.Drained? ==> old(committed) + |starts| <= size
      ensures EndsAs(fates, processRetries, starts[|starts| - 1], ending)
      ensures committed == old(committed) + |starts| - 1 || committed == old(committed) + |starts|
      ensures ending.Drained? || ending.RetriesExceeded? ==> committed == old(committed) + |starts| - 1
      ensures once && ending.Drained? ==> old(committed) == size
      ensures NoDies(fates) && Needed(size - old(committed), processRetries) <= |fates| ==> !ending.Killed?
      ensures AllWork(fates) && 2 * (size - old(committed)) <= |fates| && !once ==> ending.Drained?
      ensures AllWork(fates) && 2 <= |fates| && once && old(committed) < size ==> ending.StoppedOnce?
    {
      if consumer.None? { Start(); }
      ending, made, starts := ReadMessages(size, once, fates);
      Stop();
      if NoDies(fates) && Needed(size - old(committed), processRetries) <= |fates| && !ending.Drained? {
        NeverKilled(fates, processRetries, starts, size - old(committed));
      }
    }

    method ReadMessages(size: nat, once: bool, fates: seq<Fate>)
      returns (ending: Ending, ghost made: seq<Attempt>, ghost starts: seq<nat>)
      requires Valid() && consumer == Some(committed) && committed <= size
      modifies this`consumer, this`committed, this`attempts
      ensures Valid()
      ensures old(committed) <= committed <= size
      ensures attempts == old(attempts) + made
      ensures Bounded(made, processRetries)
      ensures forall i :: 0 <= i < |made| ==> made[i].offset <= committed
      ensures ending.Drained? ==> committed == size
      ensures ending.StoppedOnce? ==> once && committed == old(committed) + 1
      ensures ending.RetriesExceeded? ==> committed < size && GaveUp(made, committed, processRetries)
      ensures (ending.Killed? || ending.CommitFailed?) && committed == size ==> EndsWithSuccess(made, size)
      ensures ending.CommitFailed? ==> EndsWithSuccess(made, committed) || EndsWithSuccess(made, committed + 1)
      ensures Rounds(fates, processRetries, starts)
      ensures !ending.Drained? ==> old(committed) + |starts| <= size
      ensures EndsAs(fates, processRetries, starts[|starts| - 1], ending)
      ensures committed == old(committed) + |starts| - 1 || committed == old(committed) + |starts|
      ensures ending.Drained? || ending.RetriesExceeded? ==> committed == old(committed) + |starts| - 1
      ensures once && ending.Drained? ==> old(committed) == size
      ensures AllWork(fates) && 2 * (size - old(committed)) <= |fates| && !once ==> ending.Drained?
      ensures AllWork(fates) && 2 <= |fates| && once && old(committed) < size ==> ending.StoppedOnce?
    {
      made, starts := [], [0];
      assert Bounded(made, processRetries);
      var next := 0;  // fates consumed
      while consumer.value < size
        invariant Valid() && consumer == Some(committed) && old(committed) <= committed <= size
        invariant next <= |fates|
        invariant attempts == old(attempts) + made
        invariant Bounded(made, processRetries)
        invariant forall i :: 0 <= i < |made| ==> made[i].offset < committed
        invariant once ==> committed == old(committed)
        invariant Rounds(fates, processRetries, starts) && starts[|starts| - 1] == next
        invariant committed == old(committed) + |starts| - 1
        invariant AllWork(fates) ==> next == 2 * (committed - old(committed))
        decreases size - consumer.value
      {
        var stop;
        ghost var tried, first, offset := [], next, committed;
        stop, next, tried := ReadMessage(once, fates, next);
        OneMoreMessage(made, tried, offset, processRetries);
        made := made + tried;
        if stop.Some? { return stop.value, made, starts; }
        NextRound(fates, processRetries, starts, next);
        starts := starts + [next];
      }
      return Drained, made, starts;
    }

    /** The loop body: the message at the committed offset, and the commit after it. */
    method ReadMessage(once: bool, fates: seq<Fate>, first: nat)
      returns (stop: Option<Ending>, next: nat, ghost tried: seq<Attempt>)
      requires Valid() && consumer == Some(committed) && first <= |fates|
      modifies this`consumer, this`committed, this`attempts
      ensures Valid() && first <= next <= |fates|
      ensures attempts == old(attempts) + tried && |tried| <= processRetries
      ensures forall i :: 0 <= i < |tried| ==> tried[i].offset == old(committed)
      ensures stop.None? ==> !once && RoundCommits(fates, processRetries, first, next)
      ensures stop.None? ==> committed == old(committed) + 1 && consumer == Some(committed)
      ensures stop.Some? ==> !stop.value.Drained? && EndsAs(fates, processRetries, first, stop.value)
      ensures stop.Some? ==> committed == old(committed) || (committed == old(committed) + 1 && Succeeded(tried))
      ensures stop == Some(StoppedOnce) ==> once && committed == old(committed) + 1
      ensures stop == Some(CommitFailed) ==>
                && Succeeded(tried) && next > first && fates[next - 1].Raises?
                && committed == old(committed) + if fates[next - 1].applied then 1 else 0
      ensures stop == Some(RetriesExceeded) ==>
                committed == old(committed) && |tried| == processRetries && forall i :: 0 <= i < |tried| ==> !tried[i].ok
      ensures AllWork(fates) && first + 2 <= |fates| ==>
                next == first + 2 && stop == if once then Some(StoppedOnce) else None
    {
      var offset := consumer.value;
      var success, killed;
      success, killed, next, tried := TryMessage(offset, fates, first);
      if killed { return Some(Killed), next, tried; }
      if !success { return Some(RetriesExceeded), next, tried; }
      ghost var k := |tried| - 1;
      assert WorksAt(fates, first, k) && next == first + k + 1;
      if next == |fates| { return Some(Killed), next, tried; }
      var fate := fates[next];
      next := next + 1;
      if fate.Works? || fate.applied { committed := offset + 1; }
      match fate
      case Raises(_) => return Some(CommitFailed), next, tried;
      case Dies(_) => return Some(Killed), next, tried;
      case Works =>
        assert CommitsAfter(fates, first, k);
        consumer := Some(offset + 1);
        if once { return Some(StoppedOnce), next, tried; }
        return None, next, tried;
    }

    /** The inner retry loop on the message at the committed offset. */
    method TryMessage(offset: nat, fates: seq<Fate>, first: nat)
      returns (success: bool, killed: bool, next: nat, ghost tried: seq<Attempt>)
      requires Valid() && consumer == Some(offset) && committed == offset && first <= |fates|
      modifies this`attempts
      ensures Valid() && attempts == old(attempts) + tried && first <= next <= |fates|
      ensures |tried| <= processRetries
      ensures OnlyTried(tried, offset, success) && (success ==> !killed)
      ensures !success && !killed ==> |tried| == processRetries
      ensures MadeBy(tried, offset, fates, first)
      ensures next == first + |tried|
      ensures TryOutcome(fates, first, processRetries, success, killed, next)
      ensures AllWork(fates) && first < |fates| ==> success && next == first + 1
    {
      tried, next, success := [], first, false;
      var tries := 0;
      while tries < processRetries && !success
        invariant first <= next <= |fates| && |tried| == tries <= processRetries
        invariant Valid() && committed == offset && attempts == old(attempts) + tried
        invariant OnlyTried(tried, offset, success)
        invariant next == first + tries
        invariant MadeBy(tried, offset, fates, first)
        invariant !success ==> RaisesBefore(fates, first, tries)
        invariant success ==> tries > 0 && TryOutcome(fates, first, processRetries, true, false, next)
        invariant AllWork(fates) && first < |fates| ==> next == first + tries && (success <==> tries == 1) && tries <= 1
        decreases processRetries - tries
      {
        if next == |fates| {
          KilledAt(fates, first, processRetries, tries, next);
          return success, true, next, tried;
        }
        var fate := fates[next];
        next := next + 1;
        ghost var a := AttemptOf(offset, fate);
        Record(a);
        OneMoreAttempt(tried, offset, fates, first);
        tried := tried + [a];
        tries := tries + 1;
        match fate
        case Works =>
          success := true;
          SuccessAt(fates, first, processRetries, tries - 1);
        case Raises(_) =>
        case Dies(_) =>
          KilledAt(fates, first, processRetries, tries - 1, next);
          return success, true, next, tried;
      }
      if !success { NoSuccess(fates, first, processRetries); }
      return success, false, next, tried;
    }

    ghost method Record(a: Attempt)
      requires Valid() && a.offset == committed && (a.ok ==> a.applied)
      modifies this`attempts
      ensures Valid() && attempts == old(attempts) + [a]
    {
      ProgressAfter(attempts, committed, a);
      attempts := attempts + [a];
    }

    /** Any sequence of runs, each over at least the messages of the run before. */
    method RunAgainAndAgain(sizes: seq<nat>, once: bool, scripts: seq<seq<Fate>>)
      requires Valid() && consumer == None && |sizes| == |scripts|
      requires forall i :: 0 <= i < |sizes| ==> committed <= sizes[i]
      requires forall i, j :: 0 <= i < j < |sizes| ==> sizes[i] <= sizes[j]
      modifies this
      ensures Valid() && consumer == None
      ensures old(committed) <= committed
      ensures |old(attempts)| <= |attempts| && attempts[..|old(attempts)|] == old(attempts)
    {
      for i := 0 to |sizes|
        invariant Valid() && consumer == None
        invariant old(committed) <= committed
        invariant forall j :: i <= j < |sizes| ==> committed <= sizes[j]
        invariant |old(attempts)| <= |attempts| && attempts[..|old(attempts)|] == old(attempts)
      {
        var _, _, _ := Run(sizes[i], once, scripts[i]);
      }
    }
  }

  lemma NextRound(fates: seq<Fate>, retries: nat, starts: seq<nat>, next: nat)
    requires Rounds(fates, retries, starts) && RoundCommits(fates, retries, starts[|starts| - 1], next)
    ensures Rounds(fates, retries, starts + [next])
  {
  }

  /** Any outcome of one more attempt at the committed offset. */
  lemma ProgressAfter(attempts: seq<Attempt>, committed: nat, a: Attempt)
    requires Progress(attempts, committed) && a.offset == committed && (a.ok ==> a.applied)
    ensures Progress(attempts + [a], committed)
    ensures a.ok ==> Progress(attempts + [a], committed + 1)
  {
  }

  lemma OneMoreMessage(made: seq<Attempt>, tried: seq<Attempt>, offset: nat, retries: nat)
    requires Bounded(made, retries) && |tried| <= retries
    requires forall i :: 0 <= i < |made| ==> made[i].offset < offset
    requires forall i :: 0 <= i < |tried| ==> tried[i].offset == offset
    ensures Bounded(made + tried, retries)
    ensures |tried| == retries && (forall i :: 0 <= i < |tried| ==> !tried[i].ok) ==> GaveUp(made + tried, offset, retries)
  {
    TriesOfBoth(made, tried, offset);
    forall o: nat ensures Tries(made + tried, o) <= retries {
      assert o != offset ==> Tries(made + tried, o) == Tries(made, o);
    }
  }

  lemma {:induction false} TriesOfBoth(made: seq<Attempt>, tried: seq<Attempt>, offset: nat)
    requires forall i :: 0 <= i < |made| ==> made[i].offset < offset
    requires forall i :: 0 <= i < |tried| ==> tried[i].offset == offset
    ensures Tries(made + tried, offset) == |tried|
    ensures forall o: nat :: o != offset ==> Tries(made + tried, o) == Tries(made, o)
  {
    if tried != [] {
      TriesOfBoth(made, tried[..|tried| - 1], offset);
      assert (made + tried)[..|made + tried| - 1] == made + tried[..|tried| - 1];
    } else {
      assert made + tried == made;
      NotTried(made, offset);
    }
  }

  lemma {:induction false} NotTried(made: seq<Attempt>, offset: nat)
    requires forall i :: 0 <= i < |made| ==> made[i].offset < offset
    ensures Tries(made, offset) == 0
  {
    if made == [] {
    } else {
      NotTried(made[..|made| - 1], offset);
    }
  }

  // ------------------------------------------------------------------------
  // What Progress means
  // ------------------------------------------------------------------------

  /** No message is tried before every earlier one has succeeded: first successes are in log order. */
  lemma {:induction false} EarlierSucceededFirst(attempts: seq<Attempt>, committed: nat, i: nat, earlier: nat)
    returns (j: nat)
    requires Progress(attempts, committed)
    requires i < |attempts| && earlier < attempts[i].offset
    ensures j < i && attempts[j] == Attempt(earlier, true, true)
    decreases i
  {
    assert i > 0;
    assert Follows(attempts[i - 1], attempts[i]);
    if attempts[i - 1].offset > earlier {
      j := EarlierSucceededFirst(attempts, committed, i - 1, earlier);
    } else {
      j := i - 1;
    }
  }

  /** A committed message was processed successfully at least once. */
  lemma CommittedSucceeded(attempts: seq<Attempt>, committed: nat, offset: nat) returns (j: nat)
    requires Progress(attempts, committed) && offset < committed
    ensures j < |attempts| && attempts[j] == Attempt(offset, true, true)
  {
    var last := |attempts| - 1;
    if attempts[last].offset == offset {
      j := last;
    } else {
      j := EarlierSucceededFirst(attempts, committed, last, offset);
    }
  }

  /** The messages whose effect took place, in order. */
  function Effects(attempts: seq<Attempt>): seq<nat> {
    if attempts == [] then []
    else
      var a := attempts[|attempts| - 1];
      Effects(attempts[..|attempts| - 1]) + if a.applied then [a.offset] else []
  }

  lemma OneMoreEffect(effects: seq<nat>, offset: nat)
    requires Stutters(effects) && (Reached(effects) == offset || Reached(effects) == offset + 1)
    ensures Stutters(effects + [offset]) && Reached(effects + [offset]) == offset + 1
  {
  }

  /**
    Effects reach the consumer's store in log order with adjacent repeats only, at
    most one message ahead of the committed offset and never behind it.
   */
  lemma {:induction false} EffectsStutter(attempts: seq<Attempt>, committed: nat)
    requires Progress(attempts, committed)
    ensures Stutters(Effects(attempts))
    ensures Reached(Effects(attempts)) == committed || Reached(Effects(attempts)) == committed + 1
  {
    if attempts == [] {
    } else {
      var n := |attempts| - 1;
      var a := attempts[n];
      var earlier := attempts[..n];
      if n > 0 { assert Follows(attempts[n - 1], a); }
      assert Progress(earlier, a.offset);
      EffectsStutter(earlier, a.offset);
      OneMoreEffect(Effects(earlier), a.offset);
    }
  }
}

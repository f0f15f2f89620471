/**
  The whole pipeline: mutations commit with their outbox rows, one worker moves the
  rows to the topic, a consumer applies the topic to its own users table.  Worker
  and consumer may crash and restart at every point.
 */
module Replication {
  import opened Common
  import opened Stuttering
  import opened Users
  import OutboxWorkers
  import KafkaConsumer
  import OutboxTasks

  /** The messages behind row names. */
  function Messages(history: seq<UserEvent>, rows: seq<nat>): (ms: seq<UserEvent>)
    requires forall i :: 0 <= i < |rows| ==> rows[i] < |history|
    ensures |ms| == |rows| && forall i :: 0 <= i < |rows| ==> ms[i] == history[rows[i]]
  {
    seq(|rows|, i requires 0 <= i < |rows| => history[rows[i]])
  }

  lemma AppliedTwice(replica: map<UserId, UserData>, e: UserEvent)
    ensures ApplyEvent(ApplyEvent(replica, e), e) == ApplyEvent(replica, e)
  {
  }

  /** Adjacent repeats do not change a replay: it is the history up to the last row reached. */
  lemma {:induction false} StutterReplays(history: seq<UserEvent>, rows: seq<nat>)
    requires Stutters(rows) && Reached(rows) <= |history|
    requires forall i :: 0 <= i < |rows| ==> rows[i] < |history|
    ensures Replay(Messages(history, rows)) == Replay(history[..Reached(rows)])
  {
    if rows == [] {
    } else {
      var n := |rows| - 1;
      var e := history[rows[n]];
      StutterReplays(history, rows[..n]);
      assert Messages(history, rows)[..n] == Messages(history, rows[..n]);
      assert history[..rows[n] + 1][..rows[n]] == history[..rows[n]];
      assert Replay(history[..rows[n] + 1]) == ApplyEvent(Replay(history[..rows[n]]), e);
      if n > 0 && rows[n - 1] == rows[n] {
        AppliedTwice(Replay(history[..rows[n]]), e);
      }
    }
  }

  /**
    One users-outbox worker that may crash and restart anywhere: replaying what it
    has published gives the password-free users table of some moment, and of now
    once the outbox is empty.
   */
  lemma TopicReplaysAMoment(ms: seq<Mutation>, steps: seq<OutboxWorkers.Step>, w: OutboxWorkers.Worker)
    returns (moment: nat)
    requires OutboxWorkers.Execute(steps).Some? && OutboxWorkers.OnlyWorker(steps, w)
    requires OutboxWorkers.Execute(steps).value.committed == |History(ms).events|
    ensures moment <= |ms|
    ensures var log := OutboxWorkers.Execute(steps).value.log;
            && (forall i :: 0 <= i < |log| ==> log[i] < |History(ms).events|)
            && Replay(Messages(History(ms).events, log)) == Public(History(ms[..moment]).users)
    ensures OutboxWorkers.Execute(steps).value.table == {} ==> moment == |ms|
  {
    var _ := OutboxWorkers.OneWorkerLog(steps, w);
    var log := OutboxWorkers.Execute(steps).value.log;
    StuttersAscend(log);
    StutterReplays(History(ms).events, log);
    moment := EveryPrefixIsAMoment(ms, Reached(log));
    EventsMirrorUsers(ms[..moment]);
  }

  /** The messages made from the rows of any publication log are the events behind that log. */
  lemma PublishedMessages(history: seq<UserEvent>, log: seq<nat>)
    requires forall i :: 0 <= i < |log| ==> log[i] < |history|
    ensures forall row :: row in OutboxTasks.RowsFrom(Messages(history, log)) ==> row.id.Some?
    ensures OutboxTasks.EventsOf(OutboxTasks.ToMessages(OutboxTasks.RowsFrom(Messages(history, log))))
         == Messages(history, log)
  {
    OutboxTasks.MessagesCarryEvents(Messages(history, log));
  }

  /**
    The users task on the outbox of a whole history, with enough rounds and a working
    broker: replaying what is read off the topic gives the current users table.
   */
  method PublishHistory(ms: seq<Mutation>, service: OutboxTasks.OutboxService,
                        rounds: seq<OutboxTasks.Round<OutboxTasks.UserRow>>)
    requires service.userRows == OutboxTasks.RowsFrom(History(ms).events) && service.userTopic == []
    requires OutboxTasks.Undisturbed(rounds) && |History(ms).events| <= |rounds|
    modifies service`userRows, service`userTopic
    ensures service.userRows == []
    ensures OutboxTasks.EventsOf(service.userTopic) == History(ms).events
    ensures Replay(OutboxTasks.EventsOf(service.userTopic)) == Public(History(ms).users)
  {
    OutboxTasks.MessagesCarryEvents(History(ms).events);
    EventsMirrorUsers(ms);
    var error, n, handled := service.ProcessingUsersOutboxTask(rounds);
    assert [] + OutboxTasks.ToMessages(handled) == OutboxTasks.ToMessages(handled);
  }

  /**
    End to end: the consumer's table, built from the attempts of any sequence of
    consumer runs over that topic, is the users table of some moment; it is the
    current one once the outbox is empty and the whole topic is committed.
   */
  lemma ReplicaFollowsUsers(ms: seq<Mutation>, steps: seq<OutboxWorkers.Step>, w: OutboxWorkers.Worker,
                            attempts: seq<KafkaConsumer.Attempt>, committed: nat)
    returns (moment: nat, rows: seq<nat>)
    requires OutboxWorkers.Execute(steps).Some? && OutboxWorkers.OnlyWorker(steps, w)
    requires OutboxWorkers.Execute(steps).value.committed == |History(ms).events|
    requires KafkaConsumer.Progress(attempts, committed)
    requires forall i :: 0 <= i < |attempts| ==> attempts[i].offset < |OutboxWorkers.Execute(steps).value.log|
    ensures moment <= |ms|
    ensures var log := OutboxWorkers.Execute(steps).value.log;
            var effects := KafkaConsumer.Effects(attempts);
            && |rows| == |effects|
            && (forall i :: 0 <= i < |rows| ==> effects[i] < |log| && rows[i] == log[effects[i]])
            && (forall i :: 0 <= i < |rows| ==> rows[i] < |History(ms).events|)
            && Replay(Messages(History(ms).events, rows)) == Public(History(ms[..moment]).users)
    ensures var s := OutboxWorkers.Execute(steps).value;
            s.table == {} && committed == |s.log| ==> moment == |ms|
  {
    var _ := OutboxWorkers.OneWorkerLog(steps, w);
    var log := OutboxWorkers.Execute(steps).value.log;
    var effects := KafkaConsumer.Effects(attempts);
    KafkaConsumer.EffectsStutter(attempts, committed);
    EffectsWithin(attempts, |log|);
    rows := StuttersCompose(log, effects);
    StuttersAscend(rows);
    StuttersAscend(log);
    ReachedPrefix(log, Reached(effects));
    if committed == |log| { assert log[..Reached(effects)] == log; }
    StutterReplays(History(ms).events, rows);
    moment := EveryPrefixIsAMoment(ms, Reached(rows));
    EventsMirrorUsers(ms[..moment]);
  }

  lemma {:induction false} EffectsWithin(attempts: seq<KafkaConsumer.Attempt>, size: nat)
    requires forall i :: 0 <= i < |attempts| ==> attempts[i].offset < size
    ensures Reached(KafkaConsumer.Effects(attempts)) <= size
  {
    if attempts == [] {
    } else {
      EffectsWithin(attempts[..|attempts| - 1], size);
    }
  }

  lemma ReachedPrefix(log: seq<nat>, k: nat)
    requires Stutters(log) && k <= |log|
    ensures Reached(log[..k]) <= Reached(log)
  {
    if k > 0 { StuttersAscend(log); }
  }

  // ------------------------------------------------------------------------
  // Any number of workers: one user at a time
  // ------------------------------------------------------------------------

  /** The last event about a user. */
  function LastAbout(events: seq<UserEvent>, id: UserId): (k: Option<nat>)
    ensures k.Some? ==> k.value < |events| && events[k.value].data.id == id
    ensures forall j :: 0 <= j < |events| && events[j].data.id == id ==> k.Some? && j <= k.value
  {
    if events == [] then None
    else
      var n := |events| - 1;
      if events[n].data.id == id then Some(n) else LastAbout(events[..n], id)
  }

  /** What a replay holds for a user comes from the last event about him. */
  lemma {:induction false} ReplayAt(events: seq<UserEvent>, id: UserId)
    ensures var k := LastAbout(events, id);
            && (id in Replay(events) <==> k.Some? && !events[k.value].action.Delete?)
            && (id in Replay(events) ==> Replay(events)[id] == events[k.value].data)
  {
    if events == [] {
    } else {
      ReplayAt(events[..|events| - 1], id);
    }
  }

  ghost predicate AgreeAt(a: map<UserId, UserData>, b: map<UserId, UserData>, id: UserId) {
    (id in a <==> id in b) && (id in a ==> a[id] == b[id])
  }

  lemma SameLastEvent(a: seq<UserEvent>, b: seq<UserEvent>, id: UserId)
    requires LastAbout(a, id).Some? <==> LastAbout(b, id).Some?
    requires LastAbout(a, id).Some? ==> a[LastAbout(a, id).value] == b[LastAbout(b, id).value]
    ensures AgreeAt(Replay(a), Replay(b), id)
  {
    ReplayAt(a, id);
    ReplayAt(b, id);
  }

  /** In whatever order and however often rows are published, each entry is the one after some prefix of the history. */
  lemma EntryIsOfAPrefix(history: seq<UserEvent>, rows: seq<nat>, id: UserId) returns (k: nat)
    requires forall i :: 0 <= i < |rows| ==> rows[i] < |history|
    ensures k <= |history|
    ensures AgreeAt(Replay(Messages(history, rows)), Replay(history[..k]), id)
  {
    var seen := Messages(history, rows);
    var last := LastAbout(seen, id);
    k := if last.Some? then rows[last.value] + 1 else 0;
    if last.Some? { assert history[..k][k - 1] == seen[last.value]; }
    SameLastEvent(seen, history[..k], id);
  }

  /** Rows of one user are published in commit order, with repeats; rows of different users may overtake. */
  ghost predicate InOrderPerUser(history: seq<UserEvent>, rows: seq<nat>) {
    forall i, j :: 0 <= i < j < |rows| && SameUser(history, rows[i], rows[j]) ==> rows[i] <= rows[j]
  }

  predicate SameUser(history: seq<UserEvent>, r1: nat, r2: nat) {
    r1 < |history| && r2 < |history| && history[r1].data.id == history[r2].data.id
  }

  /** Both delete the user, or both leave the same entry. */
  predicate SameOutcome(a: UserEvent, b: UserEvent) {
    (a.action.Delete? <==> b.action.Delete?) && (!a.action.Delete? ==> a.data == b.data)
  }

  /** The row published last about a user leaves what his youngest row leaves. */
  ghost predicate LastOnesAgree(history: seq<UserEvent>, rows: seq<nat>, id: UserId)
    requires forall i :: 0 <= i < |rows| ==> rows[i] < |history|
  {
    var published, youngest := LastAbout(Messages(history, rows), id), LastAbout(history, id);
    published.Some? && youngest.Some? ==> SameOutcome(history[rows[published.value]], history[youngest.value])
  }

  lemma PublishedIffAny(history: seq<UserEvent>, rows: seq<nat>, id: UserId)
    requires forall i :: 0 <= i < |rows| ==> rows[i] < |history|
    requires forall r :: 0 <= r < |history| ==> r in rows
    ensures LastAbout(Messages(history, rows), id).Some? <==> LastAbout(history, id).Some?
  {
    var youngest := LastAbout(history, id);
    if youngest.Some? {
      assert youngest.value in rows;
      var k :| 0 <= k < |rows| && rows[k] == youngest.value;
      assert Messages(history, rows)[k].data.id == id;
    }
  }

  lemma AgreeIffLastOnesDo(history: seq<UserEvent>, rows: seq<nat>, id: UserId)
    requires forall i :: 0 <= i < |rows| ==> rows[i] < |history|
    requires forall r :: 0 <= r < |history| ==> r in rows
    ensures AgreeAt(Replay(Messages(history, rows)), Replay(history), id) <==> LastOnesAgree(history, rows, id)
  {
    PublishedIffAny(history, rows, id);
    ReplayAt(Messages(history, rows), id);
    ReplayAt(history, id);
  }

  /** Once every row is published, the replica is right exactly when the last ones agree for every user. */
  lemma ConvergesIff(history: seq<UserEvent>, rows: seq<nat>)
    requires forall i :: 0 <= i < |rows| ==> rows[i] < |history|
    requires forall r :: 0 <= r < |history| ==> r in rows
    ensures Replay(Messages(history, rows)) == Replay(history) <==> forall id :: LastOnesAgree(history, rows, id)
  {
    forall id ensures AgreeAt(Replay(Messages(history, rows)), Replay(history), id) <==> LastOnesAgree(history, rows, id) {
      AgreeIffLastOnesDo(history, rows, id);
    }
    if forall id :: LastOnesAgree(history, rows, id) {
      forall id ensures AgreeAt(Replay(Messages(history, rows)), Replay(history), id) {
        assert LastOnesAgree(history, rows, id);
      }
      SameEverywhere(Replay(Messages(history, rows)), Replay(history));
    }
    if Replay(Messages(history, rows)) == Replay(history) {
      forall id ensures LastOnesAgree(history, rows, id) {
        assert AgreeAt(Replay(Messages(history, rows)), Replay(history), id);
      }
    }
  }

  lemma LastPublishedIsLast(history: seq<UserEvent>, rows: seq<nat>, id: UserId)
    requires forall i :: 0 <= i < |rows| ==> rows[i] < |history|
    requires InOrderPerUser(history, rows) && forall r :: 0 <= r < |history| ==> r in rows
    ensures var seen, last := LastAbout(Messages(history, rows), id), LastAbout(history, id);
            (seen.Some? <==> last.Some?) && (seen.Some? ==> rows[seen.value] == last.value)
  {
    var seen, last := LastAbout(Messages(history, rows), id), LastAbout(history, id);
    if last.Some? {
      assert last.value in rows;
      var k :| 0 <= k < |rows| && rows[k] == last.value;
      assert Messages(history, rows)[k].data.id == id;
      assert SameUser(history, rows[k], rows[seen.value]);
    }
  }

  /** In particular when each user's rows keep their order: the order across users does not matter. */
  lemma InOrderConverges(history: seq<UserEvent>, rows: seq<nat>)
    requires forall i :: 0 <= i < |rows| ==> rows[i] < |history|
    requires InOrderPerUser(history, rows) && forall r :: 0 <= r < |history| ==> r in rows
    ensures Replay(Messages(history, rows)) == Replay(history)
  {
    forall id ensures LastOnesAgree(history, rows, id) {
      LastPublishedIsLast(history, rows, id);
    }
    ConvergesIff(history, rows);
  }

  lemma SameEverywhere(a: map<UserId, UserData>, b: map<UserId, UserData>)
    requires forall id :: AgreeAt(a, b, id)
    ensures a == b
  {
    forall id ensures id in a <==> id in b { assert AgreeAt(a, b, id); }
    forall id | id in a ensures a[id] == b[id] { assert AgreeAt(a, b, id); }
  }

  lemma LogInRange(ms: seq<Mutation>, steps: seq<OutboxWorkers.Step>)
    requires OutboxWorkers.Execute(steps).Some?
    requires OutboxWorkers.Execute(steps).value.committed == |History(ms).events|
    ensures var log := OutboxWorkers.Execute(steps).value.log;
            forall i :: 0 <= i < |log| ==> log[i] < |History(ms).events|
  {
    OutboxWorkers.ReachableInv(steps);
    var log := OutboxWorkers.Execute(steps).value.log;
    forall i | 0 <= i < |log| ensures log[i] < |History(ms).events| { assert log[i] in log; }
  }

  /** Any number of crashing workers: every entry of the replica is that user's row at some moment. */
  lemma WorkersReplayMoments(ms: seq<Mutation>, steps: seq<OutboxWorkers.Step>, id: UserId) returns (moment: nat)
    requires OutboxWorkers.Execute(steps).Some?
    requires OutboxWorkers.Execute(steps).value.committed == |History(ms).events|
    ensures moment <= |ms|
    ensures var log := OutboxWorkers.Execute(steps).value.log;
            && (forall i :: 0 <= i < |log| ==> log[i] < |History(ms).events|)
            && AgreeAt(Replay(Messages(History(ms).events, log)), Public(History(ms[..moment]).users), id)
  {
    LogInRange(ms, steps);
    var k := EntryIsOfAPrefix(History(ms).events, OutboxWorkers.Execute(steps).value.log, id);
    moment := EveryPrefixIsAMoment(ms, k);
    EventsMirrorUsers(ms[..moment]);
  }

  lemma DrainedIsPublished(ms: seq<Mutation>, steps: seq<OutboxWorkers.Step>)
    requires OutboxWorkers.Execute(steps).Some?
    requires OutboxWorkers.Execute(steps).value.committed == |History(ms).events|
    requires OutboxWorkers.Execute(steps).value.table == {}
    ensures forall r :: 0 <= r < |History(ms).events| ==> r in OutboxWorkers.Execute(steps).value.log
  {
    forall r | 0 <= r < |History(ms).events| ensures r in OutboxWorkers.Execute(steps).value.log {
      OutboxWorkers.Conservation(steps, r);
    }
  }

  /** An emptied outbox leaves the current table exactly when, for every user, the row published last leaves what his youngest one leaves. */
  lemma WorkersConvergeIff(ms: seq<Mutation>, steps: seq<OutboxWorkers.Step>)
    requires OutboxWorkers.Execute(steps).Some?
    requires OutboxWorkers.Execute(steps).value.committed == |History(ms).events|
    requires OutboxWorkers.Execute(steps).value.table == {}
    ensures var log := OutboxWorkers.Execute(steps).value.log;
            && (forall i :: 0 <= i < |log| ==> log[i] < |History(ms).events|)
            && (Replay(Messages(History(ms).events, log)) == Public(History(ms).users)
                <==> forall id :: LastOnesAgree(History(ms).events, log, id))
  {
    LogInRange(ms, steps);
    DrainedIsPublished(ms, steps);
    ConvergesIff(History(ms).events, OutboxWorkers.Execute(steps).value.log);
    EventsMirrorUsers(ms);
  }

  /** So it does when the workers keep each user's rows in order. */
  lemma WorkersConverge(ms: seq<Mutation>, steps: seq<OutboxWorkers.Step>)
    requires OutboxWorkers.Execute(steps).Some?
    requires OutboxWorkers.Execute(steps).value.committed == |History(ms).events|
    requires OutboxWorkers.Execute(steps).value.table == {}
    requires InOrderPerUser(History(ms).events, OutboxWorkers.Execute(steps).value.log)
    ensures var log := OutboxWorkers.Execute(steps).value.log;
            && (forall i :: 0 <= i < |log| ==> log[i] < |History(ms).events|)
            && Replay(Messages(History(ms).events, log)) == Public(History(ms).users)
  {
    var log := OutboxWorkers.Execute(steps).value.log;
    LogInRange(ms, steps);
    DrainedIsPublished(ms, steps);
    forall id ensures LastOnesAgree(History(ms).events, log, id) {
      LastPublishedIsLast(History(ms).events, log, id);
    }
    WorkersConvergeIff(ms, steps);
  }

  /** With two workers the guarantee is gone: a drained topic can leave the replica on an old value. */
  lemma TwoWorkersCanDiverge() returns (ms: seq<Mutation>, steps: seq<OutboxWorkers.Step>)
    ensures OutboxWorkers.CrashFree(steps) && OutboxWorkers.Execute(steps).Some?
    ensures OutboxWorkers.Execute(steps).value.table == {}
    ensures |History(ms).events| == 2 && OutboxWorkers.Execute(steps).value.log == [1, 0]
    ensures Replay(Messages(History(ms).events, [1, 0])) != Public(History(ms).users)
  {
    steps := OutboxWorkers.TwoWorkersReorder();
    var born := UserCreate(Profile("Ann", "Lee", 1990, None, None), "secret");
    var moved := UserPatch(Unset, Unset, Unset, Unset, SetTo(Some("NYC")));
    var m1, m2 := AddUser(born, 7, 0), UpdateUser(7, moved);
    ms := [m1, m2];
    var u1 := User(7, born.profile, "secret", 0);
    var u2 := Patched(u1, moved);
    var e1, e2 := UserEvent(Create, PrepareOutboxData(u1)), UserEvent(Update, PrepareOutboxData(u2));
    assert ms[..1] == [m1] && [m1][..0] == [];
    assert History([]) == Db(map[], []);
    assert History([m1]) == Db(map[7 := u1], [e1]);
    assert History(ms) == Db(map[7 := u2], [e1, e2]);
    var seen := Messages(History(ms).events, [1, 0]);
    assert seen == [e2, e1];
    assert seen[..1] == [e2] && [e2][..0] == [];
    assert Replay([e2]) == map[7 := e2.data];
    assert Replay(seen) == ApplyEvent(Replay([e2]), e1);
    assert Replay(seen)[7] == PrepareOutboxData(u1);
    assert Public(map[7 := u2])[7] == PrepareOutboxData(u2);
  }
}

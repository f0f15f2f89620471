/**
  Which database engine a session gets: every engine is asked for its role, engines
  that fail to answer are marked dead, and a session picks any live engine of its kind.
 */
module EngineFailover {
  import opened Common

  type Engine = nat

  /** What `is_master` gives for one engine; `Failed` stands for an exception. */
  datatype Probe = Master | Replica | Failed

  datatype DatabaseError = NoAliveEngines

  predicate Distinct(engines: seq<Engine>) {
    forall i, j :: 0 <= i < j < |engines| ==> engines[i] != engines[j]
  }

  /** The engines whose answer is one of the wanted, in their order. */
  function Those(engines: seq<Engine>, answers: seq<Probe>, wanted: set<Probe>): seq<Engine>
    requires |engines| == |answers|
  {
    if engines == [] then []
    else
      var n := |engines| - 1;
      Those(engines[..n], answers[..n], wanted) + if answers[n] in wanted then [engines[n]] else []
  }

  lemma ThoseOfNext(engines: seq<Engine>, answers: seq<Probe>, wanted: set<Probe>, i: nat)
    requires |engines| == |answers| && i < |engines|
    ensures Those(engines[..i + 1], answers[..i + 1], wanted) ==
            Those(engines[..i], answers[..i], wanted) + if answers[i] in wanted then [engines[i]] else []
  {
    assert engines[..i + 1][..i] == engines[..i] && answers[..i + 1][..i] == answers[..i];
  }

  ghost predicate SplitSoFar(engines: seq<Engine>, answers: seq<Probe>, i: nat, read: seq<Engine>, readWrite: seq<Engine>)
    requires i <= |engines| == |answers|
  {
    && read == Those(engines[..i], answers[..i], {Replica})
    && readWrite == Those(engines[..i], answers[..i], {Master, Failed})
  }

  lemma SplitOfNext(engines: seq<Engine>, answers: seq<Probe>, i: nat, read: seq<Engine>, readWrite: seq<Engine>)
    requires i < |engines| == |answers| && SplitSoFar(engines, answers, i, read, readWrite)
    ensures answers[i] == Replica ==> SplitSoFar(engines, answers, i + 1, read + [engines[i]], readWrite)
    ensures answers[i] != Replica ==> SplitSoFar(engines, answers, i + 1, read, readWrite + [engines[i]])
  {
    ThoseOfNext(engines, answers, {Replica}, i);
    ThoseOfNext(engines, answers, {Master, Failed}, i);
    assert answers[i].Master? || answers[i].Replica? || answers[i].Failed?;
  }

  function FailedOnes(engines: seq<Engine>, answers: seq<Probe>): set<Engine>
    requires |engines| == |answers|
  {
    set e | e in Those(engines, answers, {Failed})
  }

  lemma LivesOfNext(engines: seq<Engine>, answers: seq<Probe>, i: nat, lives: map<Engine, bool>)
    requires i < |engines| == |answers| && Distinct(engines) && LivesAsAnswered(engines[..i], answers[..i], lives)
    ensures LivesAsAnswered(engines[..i + 1], answers[..i + 1], lives[engines[i] := answers[i] != Failed])
    ensures FailedOnes(engines[..i + 1], answers[..i + 1]) ==
            FailedOnes(engines[..i], answers[..i]) + if answers[i] == Failed then {engines[i]} else {}
  {
    ThoseOfNext(engines, answers, {Failed}, i);
    forall k | 0 <= k < i ensures engines[k] in lives && lives[engines[k]] == (answers[k] != Failed) {
      assert engines[..i][k] == engines[k] && answers[..i][k] == answers[k];
    }
  }

  /** `_get_alive_engines` on one list. */
  function Alive(engines: seq<Engine>, lives: map<Engine, bool>): seq<Engine> {
    if engines == [] then []
    else
      var n := |engines| - 1;
      var live := if engines[n] in lives then lives[engines[n]] else true;
      Alive(engines[..n], lives) + if live then [engines[n]] else []
  }

  ghost predicate LivesAsAnswered(engines: seq<Engine>, answers: seq<Probe>, lives: map<Engine, bool>)
    requires |engines| == |answers|
  {
    forall i :: 0 <= i < |engines| ==> engines[i] in lives && lives[engines[i]] == (answers[i] != Failed)
  }

  lemma {:induction false} InThose(engines: seq<Engine>, answers: seq<Probe>, wanted: set<Probe>, e: Engine)
    requires |engines| == |answers|
    ensures e in Those(engines, answers, wanted) <==>
            exists i :: 0 <= i < |engines| && engines[i] == e && answers[i] in wanted
  {
    if engines == [] {
    } else {
      var n := |engines| - 1;
      InThose(engines[..n], answers[..n], wanted, e);
      assert forall i :: 0 <= i < n ==> engines[..n][i] == engines[i] && answers[..n][i] == answers[i];
      assert engines[n] == engines[n];
      if i :| 0 <= i < n && engines[..n][i] == e && answers[..n][i] in wanted {
        assert engines[i] == e && answers[i] in wanted;
      }
    }
  }

  lemma CountOfNext(engines: seq<Engine>, answers: seq<Probe>, wanted: set<Probe>)
    requires |engines| == |answers| > 0
    ensures var n := |engines| - 1;
            && multiset(engines) == multiset(engines[..n]) + multiset{engines[n]}
            && multiset(Those(engines, answers, wanted)) ==
               multiset(Those(engines[..n], answers[..n], wanted)) +
               if answers[n] in wanted then multiset{engines[n]} else multiset{}
  {
    assert engines == engines[..|engines| - 1] + [engines[|engines| - 1]];
  }

  /** Every engine is in exactly one of two complementary lists. */
  lemma {:induction false} ThosePartition(engines: seq<Engine>, answers: seq<Probe>, wanted: set<Probe>, rest: set<Probe>)
    requires |engines| == |answers|
    requires wanted !! rest && wanted + rest == {Master, Replica, Failed}
    ensures multiset(Those(engines, answers, wanted)) + multiset(Those(engines, answers, rest)) == multiset(engines)
  {
    if engines == [] {
    } else {
      var n := |engines| - 1;
      ThosePartition(engines[..n], answers[..n], wanted, rest);
      CountOfNext(engines, answers, wanted);
      CountOfNext(engines, answers, rest);
      assert answers[n].Master? || answers[n].Replica? || answers[n].Failed?;
      assert answers[n] in wanted + rest;
    }
  }

  lemma AliveAppend(engines: seq<Engine>, e: Engine, lives: map<Engine, bool>)
    requires e in lives
    ensures Alive(engines + [e], lives) == Alive(engines, lives) + if lives[e] then [e] else []
  {
  }

  /** A failed engine is in a list, but is never among its live ones. */
  lemma {:induction false} AliveAreThoseWhoAnswered(engines: seq<Engine>, answers: seq<Probe>, wanted: set<Probe>,
                                                    lives: map<Engine, bool>)
    requires |engines| == |answers| && LivesAsAnswered(engines, answers, lives)
    ensures Alive(Those(engines, answers, wanted), lives) == Those(engines, answers, wanted - {Failed})
  {
    if engines == [] {
    } else {
      var n := |engines| - 1;
      var before := Those(engines[..n], answers[..n], wanted);
      AliveAreThoseWhoAnswered(engines[..n], answers[..n], wanted, lives);
      if answers[n] in wanted {
        AliveAppend(before, engines[n], lives);
      } else {
        assert Those(engines, answers, wanted) == before;
      }
    }
  }

  lemma {:induction false} NobodyIffNone(engines: seq<Engine>, answers: seq<Probe>, p: Probe)
    requires |engines| == |answers|
    ensures Those(engines, answers, {p}) == [] <==> p !in answers
  {
    if engines == [] {
    } else {
      var n := |engines| - 1;
      NobodyIffNone(engines[..n], answers[..n], p);
      assert answers == answers[..n] + [answers[n]];
    }
  }

  /** What can be chosen from right after the engines have answered. */
  lemma PoolsAsAnswered(engines: seq<Engine>, answers: seq<Probe>, lives: map<Engine, bool>)
    requires |engines| == |answers| && LivesAsAnswered(engines, answers, lives)
    ensures var read, readWrite := Those(engines, answers, {Replica}), Those(engines, answers, {Master, Failed});
            && multiset(read) + multiset(readWrite) == multiset(engines)
            && Alive(read, lives) == Those(engines, answers, {Replica})
            && Alive(readWrite, lives) == Those(engines, answers, {Master})
  {
    ThosePartition(engines, answers, {Replica}, {Master, Failed});
    AliveAreThoseWhoAnswered(engines, answers, {Replica}, lives);
    AliveAreThoseWhoAnswered(engines, answers, {Master, Failed}, lives);
    assert {Master, Failed} - {Failed} == {Master} && {Replica} - {Failed} == {Replica};
  }

  class SQLAlchemyAsyncDbBaseClient {
    const allEngines: seq<Engine>
    var enginesLivesMap: map<Engine, bool>
    var readEngines: seq<Engine>
    var readWriteEngines: seq<Engine>
    var needCheckDeadConnections: set<Engine>

    constructor (master: Engine, replicas: seq<Engine>)
      ensures allEngines == [master] + replicas
      ensures readEngines == replicas && readWriteEngines == [master] && needCheckDeadConnections == {}
      ensures enginesLivesMap == map e | e in [master] + replicas :: true
    {
      allEngines := [master] + replicas;
      readEngines, readWriteEngines := replicas, [master];
      enginesLivesMap := map e | e in [master] + replicas :: true;
      needCheckDeadConnections := {};
    }

    /** A failed probe counts as true, so a dead engine always lands in the read-write list. */
    method RefreshReadWriteConsistency(answers: seq<Probe>)
      requires Distinct(allEngines) && |answers| == |allEngines|
      modifies this
      ensures |allEngines| <= 1 ==> readEngines == old(readEngines) && readWriteEngines == old(readWriteEngines)
                                    && enginesLivesMap == old(enginesLivesMap)
                                    && needCheckDeadConnections == old(needCheckDeadConnections)
      ensures |allEngines| > 1 ==>
                && readEngines == Those(allEngines, answers, {Replica})
                && readWriteEngines == Those(allEngines, answers, {Master, Failed})
                && LivesAsAnswered(allEngines, answers, enginesLivesMap)
                && needCheckDeadConnections == old(needCheckDeadConnections) + FailedOnes(allEngines, answers)
    {
      if |allEngines| <= 1 { return; }  // no replica urls
      var read: seq<Engine>, readWrite: seq<Engine> := [], [];
      for i := 0 to |answers|
        invariant SplitSoFar(allEngines, answers, i, read, readWrite)
        invariant LivesAsAnswered(allEngines[..i], answers[..i], enginesLivesMap)
        invariant needCheckDeadConnections == old(needCheckDeadConnections) + FailedOnes(allEngines[..i], answers[..i])
      {
        var e := allEngines[i];
        SplitOfNext(allEngines, answers, i, read, readWrite);
        LivesOfNext(allEngines, answers, i, enginesLivesMap);
        if answers[i] == Failed {
          enginesLivesMap := enginesLivesMap[e := false];
          needCheckDeadConnections := needCheckDeadConnections + {e};
        } else {
          enginesLivesMap := enginesLivesMap[e := true];
        }
        if answers[i] == Replica {
          read := read + [e];
        } else {
          readWrite := readWrite + [e];
        }
      }
      assert allEngines[..|answers|] == allEngines && answers[..|answers|] == answers;
      readEngines, readWriteEngines := read, readWrite;
    }

    function Pool(readOnly: bool): seq<Engine>
      reads this
    {
      var masters := Alive(readWriteEngines, enginesLivesMap);
      var replicas := Alive(readEngines, enginesLivesMap);
      if readOnly && replicas != [] then replicas else masters
    }

    /** Nothing bad is known of the engine. */
    predicate Lives(e: Engine)
      reads this
    {
      e in enginesLivesMap ==> enginesLivesMap[e]
    }

    /** The choice among the pool is random: any member may come. */
    method ChooseEngine(readOnly: bool) returns (r: Result<Engine, DatabaseError>)
      ensures r.Ok? ==> r.value in Pool(readOnly)
      ensures r.Err? <==> Pool(readOnly) == []
      ensures var liveReplica := exists e :: e in readEngines && Lives(e);
              && (readOnly && liveReplica ==> r.Ok? && r.value in readEngines)
              && (!readOnly || !liveReplica ==>
                    (r.Ok? <==> exists e :: e in readWriteEngines && Lives(e)) && (r.Ok? ==> r.value in readWriteEngines))
              && (r.Ok? ==> Lives(r.value))
    {
      var pool := Pool(readOnly);
      AnyAlive(readEngines, enginesLivesMap);
      AnyAlive(readWriteEngines, enginesLivesMap);
      if pool == [] { return Err(NoAliveEngines); }
      var i :| 0 <= i < |pool|;
      return Ok(pool[i]);
    }

    /**
      A session taken right after a refresh writes only to an engine that answered
      that it is the master, and reads from a replica that answered if there is one.
     */
    method ChooseAfterRefresh(answers: seq<Probe>, readOnly: bool) returns (r: Result<Engine, DatabaseError>)
      requires Distinct(allEngines) && |answers| == |allEngines| > 1
      modifies this
      ensures multiset(readEngines) + multiset(readWriteEngines) == multiset(allEngines)
      ensures var wanted := if readOnly && Replica in answers then Replica else Master;
              && (r.Ok? ==> exists i :: 0 <= i < |answers| && allEngines[i] == r.value && answers[i] == wanted)
              && (r.Err? <==> wanted !in answers)
    {
      RefreshReadWriteConsistency(answers);
      PoolsAsAnswered(allEngines, answers, enginesLivesMap);
      NobodyIffNone(allEngines, answers, Replica);
      NobodyIffNone(allEngines, answers, Master);
      r := ChooseEngine(readOnly);
      if r.Ok? {
        InThose(allEngines, answers, {if readOnly && Replica in answers then Replica else Master}, r.value);
      }
    }

    /** One engine of `check_dead_connection_task`: it answers again, whatever its role. */
    method CheckDeadConnection(e: Engine, answers: bool)
      requires e in needCheckDeadConnections
      modifies this`enginesLivesMap, this`needCheckDeadConnections
      ensures enginesLivesMap == if answers then old(enginesLivesMap)[e := true] else old(enginesLivesMap)
      ensures needCheckDeadConnections == old(needCheckDeadConnections) - if answers then {e} else {}
    {
      if answers {
        needCheckDeadConnections := needCheckDeadConnections - {e};
        enginesLivesMap := enginesLivesMap[e := true];
      }
    }

    /**
      One pass of the loop over the engines to check, in the order of a set.  A
      success removes from the set under iteration, which makes the next step of the
      loop raise: a pass revives one engine at most, and reviving one ends the loop.
     */
    method CheckDeadConnections(answering: set<Engine>) returns (raised: bool, ghost revived: Option<Engine>)
      modifies this`enginesLivesMap, this`needCheckDeadConnections
      ensures raised <==> old(needCheckDeadConnections) * answering != {}
      ensures revived.Some? <==> raised
      ensures raised ==>
                && revived.value in old(needCheckDeadConnections) * answering
                && enginesLivesMap == old(enginesLivesMap)[revived.value := true]
                && needCheckDeadConnections == old(needCheckDeadConnections) - {revived.value}
      ensures !raised ==>
                && enginesLivesMap == old(enginesLivesMap)
                && needCheckDeadConnections == old(needCheckDeadConnections)
    {
      var todo := needCheckDeadConnections;
      while todo != {}
        invariant todo <= needCheckDeadConnections
        invariant enginesLivesMap == old(enginesLivesMap)
        invariant needCheckDeadConnections == old(needCheckDeadConnections)
        invariant forall e :: e in old(needCheckDeadConnections) && e !in todo ==> e !in answering
        decreases |todo|
      {
        var e :| e in todo;
        CheckDeadConnection(e, e in answering);
        if e in answering {
          assert e in old(needCheckDeadConnections) * answering;
          return true, Some(e);
        }
        todo := todo - {e};
        assert needCheckDeadConnections == old(needCheckDeadConnections);
      }
      return false, None;
    }
  }

  lemma {:induction false} InAlive(engines: seq<Engine>, lives: map<Engine, bool>, e: Engine)
    ensures e in Alive(engines, lives) <==> e in engines && (e in lives ==> lives[e])
  {
    if engines == [] {
    } else {
      InAlive(engines[..|engines| - 1], lives, e);
      assert engines == engines[..|engines| - 1] + [engines[|engines| - 1]];
    }
  }

  lemma AnyAlive(engines: seq<Engine>, lives: map<Engine, bool>)
    ensures forall e :: e in Alive(engines, lives) <==> e in engines && (e in lives ==> lives[e])
    ensures Alive(engines, lives) == [] <==> forall e :: e in engines ==> e in lives && !lives[e]
  {
    forall e ensures e in Alive(engines, lives) <==> e in engines && (e in lives ==> lives[e]) {
      InAlive(engines, lives, e);
    }
    if Alive(engines, lives) != [] { assert Alive(engines, lives)[0] in Alive(engines, lives); }
  }

  /**
    The choice is only that good until the next revival: an engine that failed its
    probe becomes writable once it answers again, also when it is a replica.
   */
  lemma RevivedEngineIsWritable(engines: seq<Engine>, answers: seq<Probe>, lives: map<Engine, bool>, revived: Engine,
                                e: Engine)
    requires |engines| == |answers| && Distinct(engines) && LivesAsAnswered(engines, answers, lives)
    ensures e in Alive(Those(engines, answers, {Master, Failed}), lives[revived := true]) <==>
            exists i :: 0 <= i < |engines| && engines[i] == e && (answers[i] == Master || (answers[i] == Failed && e == revived))
  {
    InAlive(Those(engines, answers, {Master, Failed}), lives[revived := true], e);
    InThose(engines, answers, {Master, Failed}, e);
  }
}

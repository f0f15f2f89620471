/**
  Transactions of the unit of work: the outermost `transaction()` opens a session
  and hands it to all repositories, inner ones are savepoints of that session.
 */
module UnitsOfWork {
  import opened Common

  type Session = nat
  type Row = nat

  const REPOSITORIES := 5

  /**
    What a caller does inside `async with uow.transaction()`.  A nested block whose
    exception the caller catches lets the enclosing block go on.
   */
  datatype Statement =
    | Write(repo: nat, row: Row)
    | Raise
    | Nested(block: Block, caught: bool)

  /** `commitFails`: the COMMIT or RELEASE at the end raises. */
  datatype Block = Block(body: seq<Statement>, commitFails: bool)

  predicate WellFormed(b: Block) {
    forall i :: 0 <= i < |b.body| ==> StatementWellFormed(b.body[i])
  }

  predicate StatementWellFormed(s: Statement) {
    match s
    case Write(repo, _) => repo < REPOSITORIES
    case Raise => true
    case Nested(block, _) => WellFormed(block)
  }

  /** The block ends without an exception leaving it. */
  predicate EndsNormally(b: Block) {
    !b.commitFails && forall i :: 0 <= i < |b.body| ==> Completes(b.body[i])
  }

  predicate Completes(s: Statement) {
    match s
    case Write(_, _) => true
    case Raise => false
    case Nested(b, caught) => caught || EndsNormally(b)
  }

  /** The rows a block leaves behind, in execution order, when it ends normally. */
  function Kept(b: Block): seq<Row> {
    if EndsNormally(b) then KeptOf(b, |b.body|) else []
  }

  /** The rows left by the first `n` statements, when they all complete. */
  function KeptOf(b: Block, n: nat): seq<Row>
    requires n <= |b.body|
    decreases b, 0, n
  {
    if n == 0 then []
    else
      var s := b.body[n - 1];
      KeptOf(b, n - 1) + LeftBy(s)
  }

  /** The rows one statement leaves. */
  function LeftBy(s: Statement): seq<Row>
    decreases s, 0, 0
  {
    match s
    case Write(_, row) => [row]
    case Raise => []
    case Nested(inner, _) => if EndsNormally(inner) then KeptOf(inner, |inner.body|) else []
  }

  // ------------------------------------------------------------------------
  // Which exceptions leave a block, in terms of the tree
  // ------------------------------------------------------------------------

  /** Statement positions from the outermost block inwards. */
  type Path = seq<nat>

  /** Through uncaught nested blocks, the path leads to a `Raise` or to a block whose commit fails. */
  predicate ExceptionAt(b: Block, path: Path)
    decreases b
  {
    if path == [] then b.commitFails
    else path[0] < |b.body| && ExceptionFrom(b.body[path[0]], path[1..])
  }

  predicate ExceptionFrom(s: Statement, path: Path)
    decreases s
  {
    match s
    case Write(_, _) => false
    case Raise => path == []
    case Nested(inner, caught) => !caught && ExceptionAt(inner, path)
  }

  /** A block ends normally exactly when no path leads to an exception that leaves it. */
  lemma {:induction false} EndsNormallyIff(b: Block)
    ensures EndsNormally(b) ==> forall path :: !ExceptionAt(b, path)
    ensures !EndsNormally(b) ==> exists path :: ExceptionAt(b, path)
    decreases b
  {
    if b.commitFails {
      var here: Path := [];
      assert ExceptionAt(b, here);
    } else {
      forall i | 0 <= i < |b.body|
        ensures Completes(b.body[i]) ==> forall path :: !ExceptionFrom(b.body[i], path)
        ensures !Completes(b.body[i]) ==> exists path :: ExceptionFrom(b.body[i], path)
      {
        CompletesIff(b.body[i]);
      }
      if !EndsNormally(b) {
        var i :| 0 <= i < |b.body| && !Completes(b.body[i]);
        var path :| ExceptionFrom(b.body[i], path);
        ThroughStatement(b, i, path);
      }
    }
  }

  lemma {:induction false} CompletesIff(s: Statement)
    ensures Completes(s) ==> forall path :: !ExceptionFrom(s, path)
    ensures !Completes(s) ==> exists path :: ExceptionFrom(s, path)
    decreases s
  {
    match s
    case Write(_, _) =>
    case Raise =>
      var here: Path := [];
      assert ExceptionFrom(s, here);
    case Nested(inner, caught) =>
      EndsNormallyIff(inner);
      if path :| ExceptionAt(inner, path) { assert caught || ExceptionFrom(s, path); }
  }

  lemma ThroughStatement(b: Block, i: nat, path: Path)
    requires i < |b.body| && ExceptionFrom(b.body[i], path)
    ensures exists whole :: ExceptionAt(b, whole)
  {
    var whole: Path := [i] + path;
    assert whole[1..] == path;
    assert ExceptionAt(b, whole);
  }

  predicate OnlyWrites(b: Block) {
    forall i :: 0 <= i < |b.body| ==> b.body[i].Write?
  }

  /** The rows of a body of writes, in order. */
  function RowsOf(b: Block): (rows: seq<Row>)
    requires OnlyWrites(b)
  {
    seq(|b.body|, i requires 0 <= i < |b.body| => b.body[i].row)
  }

  lemma {:induction false} WritesAreKept(b: Block, n: nat)
    requires n <= |b.body| && OnlyWrites(b)
    ensures KeptOf(b, n) == RowsOf(b)[..n]
  {
    if n == 0 {
    } else {
      WritesAreKept(b, n - 1);
    }
  }

  lemma KeptNext(before: seq<Row>, b: Block, i: nat)
    requires i < |b.body|
    ensures before + KeptOf(b, i) + LeftBy(b.body[i]) == before + KeptOf(b, i + 1)
  {
  }

  class UnitOfWork {
    var session: Option<Session>
    const repoSessions: array<Option<Session>>
    var openedCount: nat       // sessions opened so far
    var committed: seq<Row>    // the database
    var pending: seq<Row>      // written in the open session, not yet committed

    ghost predicate Valid() reads this, repoSessions {
      && repoSessions.Length == REPOSITORIES
      && (forall i :: 0 <= i < repoSessions.Length ==> repoSessions[i] == session)
      && (session.None? ==> pending == [])
    }

    constructor ()
      ensures Valid() && fresh(repoSessions) && session == None && committed == []
    {
      session, openedCount, committed, pending := None, 0, [], [];
      repoSessions := new Option<Session>[REPOSITORIES](_ => None);
    }

    method FillReposSession(s: Option<Session>)
      requires repoSessions.Length == REPOSITORIES
      modifies this`session, repoSessions
      ensures session == s && forall i :: 0 <= i < repoSessions.Length ==> repoSessions[i] == s
    {
      session := s;
      for i := 0 to repoSessions.Length
        invariant session == s
        invariant forall j :: 0 <= j < i ==> repoSessions[j] == s
      {
        repoSessions[i] := s;
      }
    }

    /** A repository without a session commits its statement at once. */
    method Insert(repo: nat, row: Row)
      requires repo < repoSessions.Length
      modifies this`committed, this`pending
      ensures repoSessions[repo].Some? ==> pending == old(pending) + [row] && committed == old(committed)
      ensures repoSessions[repo].None? ==> committed == old(committed) + [row] && pending == old(pending)
    {
      if repoSessions[repo].Some? {
        pending := pending + [row];
      } else {
        committed := committed + [row];
      }
    }

    /** `ok` is false when an exception leaves the block. */
    method Transaction(block: Block) returns (ok: bool)
      requires Valid() && WellFormed(block)
      modifies this, repoSessions
      ensures Valid() && session == old(session)
      ensures ok <==> EndsNormally(block)
      ensures ok <==> !exists path :: ExceptionAt(block, path)
      ensures block.commitFails || Raise in block.body ==> !ok
      ensures !ok ==> committed == old(committed) && pending == old(pending)
      ensures OnlyWrites(block) && !block.commitFails ==>
                ok && committed + pending == old(committed) + old(pending) + RowsOf(block)
      ensures old(session).None? ==> committed == old(committed) + Kept(block) && pending == []
      ensures old(session).Some? ==> committed == old(committed) && pending == old(pending) + Kept(block)
      decreases block, 2
    {
      EndsNormallyIff(block);
      if OnlyWrites(block) { WritesAreKept(block, |block.body|); }
      if session.None? {
        openedCount := openedCount + 1;
        FillReposSession(Some(openedCount));
        ok := RunBody(block);
        if ok && block.commitFails { ok := false; }
        if ok {
          committed := committed + pending;
        }
        pending := [];           // after COMMIT nothing is left, after ROLLBACK nothing is kept
        FillReposSession(None);  // finally
      } else {
        var savepoint := pending;
        ok := RunBody(block);
        if ok && block.commitFails { ok := false; }
        if !ok {
          pending := savepoint;
        }
      }
    }

    method RunBody(block: Block) returns (ok: bool)
      requires Valid() && session.Some? && WellFormed(block)
      modifies this, repoSessions
      ensures Valid() && session == old(session) && committed == old(committed)
      ensures ok <==> forall i :: 0 <= i < |block.body| ==> Completes(block.body[i])
      ensures ok <==> !exists i, path :: 0 <= i < |block.body| && ExceptionFrom(block.body[i], path)
      ensures ok ==> pending == old(pending) + KeptOf(block, |block.body|)
      decreases block, 1
    {
      for i := 0 to |block.body|
        invariant Valid() && session == old(session) && committed == old(committed)
        invariant forall j :: 0 <= j < i ==> Completes(block.body[j])
        invariant forall j, path :: 0 <= j < i ==> !ExceptionFrom(block.body[j], path)
        invariant pending == old(pending) + KeptOf(block, i)
      {
        var done := RunStatement(block.body[i]);
        if !done { return false; }
        assert pending == old(pending) + KeptOf(block, i + 1) by {
          KeptNext(old(pending), block, i);
        }
      }
      return true;
    }

    method RunStatement(s: Statement) returns (ok: bool)
      requires Valid() && session.Some? && StatementWellFormed(s)
      modifies this, repoSessions
      ensures Valid() && session == old(session) && committed == old(committed)
      ensures ok <==> Completes(s)
      ensures ok <==> !exists path :: ExceptionFrom(s, path)
      ensures match s
              case Write(_, row) => ok && pending == old(pending) + [row]
              case Raise => !ok && pending == old(pending)
              case Nested(inner, caught) =>
                && (!ok ==> !caught && exists path :: ExceptionAt(inner, path))
                && (pending != old(pending) ==> forall path :: !ExceptionAt(inner, path))
      ensures ok ==> pending == old(pending) + LeftBy(s)
      decreases s, 0
    {
      CompletesIff(s);
      match s
      case Write(repo, row) =>
        Insert(repo, row);
        return true;
      case Raise => return false;
      case Nested(inner, caught) =>
        var done := Transaction(inner);
        return done || caught;
    }
  }

  // ------------------------------------------------------------------------
  // Which writes survive, in terms of the tree
  // ------------------------------------------------------------------------

  /** The path names a write of `row`. */
  predicate WritesAt(b: Block, path: Path, row: Row)
    decreases path
  {
    && path != []
    && path[0] < |b.body|
    && match b.body[path[0]]
       case Write(_, r) => |path| == 1 && r == row
       case Raise => false
       case Nested(inner, _) => WritesAt(inner, path[1..], row)
  }

  /** The block and every block around the write ended normally. */
  predicate AllEnclosingEnd(b: Block, path: Path)
    decreases path
  {
    && EndsNormally(b)
    && (path != [] && path[0] < |b.body| && b.body[path[0]].Nested? ==>
          AllEnclosingEnd(b.body[path[0]].block, path[1..]))
  }

  predicate SurvivingWrite(b: Block, path: Path, row: Row) {
    WritesAt(b, path, row) && AllEnclosingEnd(b, path)
  }

  /** The database keeps a write exactly when its block and all enclosing blocks ended normally. */
  lemma SurvivesIff(b: Block, row: Row)
    ensures row in Kept(b) <==> exists path :: SurvivingWrite(b, path, row)
  {
    if row in Kept(b) {
      var _ := SurvivorHasPath(b, row);
    }
    forall path | SurvivingWrite(b, path, row) ensures row in Kept(b) {
      PathSurvives(b, path, row);
    }
  }

  lemma KeptByEither(b: Block, n: nat, row: Row)
    requires 0 < n <= |b.body|
    ensures row in KeptOf(b, n) <==> row in KeptOf(b, n - 1) || row in LeftBy(b.body[n - 1])
  {
  }

  lemma {:induction false} KeptFromOne(b: Block, n: nat, row: Row) returns (i: nat)
    requires n <= |b.body| && row in KeptOf(b, n)
    ensures i < n && row in LeftBy(b.body[i])
    decreases n
  {
    KeptByEither(b, n, row);
    if row in KeptOf(b, n - 1) {
      i := KeptFromOne(b, n - 1, row);
    } else {
      i := n - 1;
    }
  }

  lemma {:induction false} SurvivorHasPath(b: Block, row: Row) returns (path: Path)
    requires row in Kept(b)
    ensures SurvivingWrite(b, path, row)
  {
    var i := KeptFromOne(b, |b.body|, row);
    var inner := [];
    if b.body[i].Nested? { inner := SurvivorHasPath(b.body[i].block, row); }
    path := [i] + inner;
    PathThrough(b, i, inner, row);
  }

  /** One step into the tree, or the write itself. */
  lemma PathThrough(b: Block, i: nat, inner: Path, row: Row)
    requires EndsNormally(b) && i < |b.body|
    ensures SurvivingWrite(b, [i] + inner, row) <==>
            match b.body[i]
            case Write(_, r) => inner == [] && r == row
            case Raise => false
            case Nested(block, _) => SurvivingWrite(block, inner, row)
  {
  }

  lemma {:induction false} PathSurvives(b: Block, path: Path, row: Row)
    requires SurvivingWrite(b, path, row)
    ensures row in Kept(b)
    decreases path
  {
    var i, inner := path[0], path[1..];
    assert path == [i] + inner;
    PathThrough(b, i, inner, row);
    if b.body[i].Nested? { PathSurvives(b.body[i].block, inner, row); }
    KeptByEither(b, i + 1, row);
    KeptGrows(b, i + 1, |b.body|, row);
  }

  lemma {:induction false} KeptGrows(b: Block, m: nat, n: nat, row: Row)
    requires m <= n <= |b.body| && row in KeptOf(b, m)
    ensures row in KeptOf(b, n)
    decreases n
  {
    if m == n {
    } else {
      KeptGrows(b, m, n - 1, row);
    }
  }
}

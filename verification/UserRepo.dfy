/**
  The users repository: every change of the `users` table also inserts a row,
  without the password, into `users_outbox`.
 */
module Users {
  import opened Common

  type UserId = nat

  datatype Profile = Profile(
    firstName: string,
    secondName: string,
    birthdate: int,
    biography: Option<string>,
    city: Option<string>)

  datatype User = User(id: UserId, profile: Profile, password: string, createdAt: int)

  /** What leaves the service: the columns of `UserOutboxDataSchema`. */
  datatype UserData = UserData(id: UserId, profile: Profile)

  datatype Action = Create | Update | Delete

  datatype UserEvent = UserEvent(action: Action, data: UserData)

  datatype UserCreate = UserCreate(profile: Profile, password: string)

  /** One field of an update schema: not mentioned, or set to a value that may be null. */
  datatype SetField<T> = Unset | SetTo(value: Option<T>)

  datatype UserPatch = UserPatch(
    firstName: SetField<string>,
    secondName: SetField<string>,
    birthdate: SetField<int>,
    biography: SetField<string>,
    city: SetField<string>)

  datatype RepoError = DuplicateId | NothingToUpdate | NotNullViolated | NotFound | NoTransaction

  function PrepareOutboxData(user: User): UserData {
    UserData(user.id, user.profile)
  }

  /** The users table as the rest of the world may see it. */
  function Public(users: map<UserId, User>): map<UserId, UserData> {
    map id | id in users :: PrepareOutboxData(users[id])
  }

  predicate WellKeyed(users: map<UserId, User>) {
    forall id :: id in users ==> users[id].id == id
  }

  predicate IsEmptyPatch(p: UserPatch) {
    p.firstName.Unset? && p.secondName.Unset? && p.birthdate.Unset? && p.biography.Unset? && p.city.Unset?
  }

  predicate ViolatesNotNull(p: UserPatch) {
    p.firstName == SetTo(None) || p.secondName == SetTo(None) || p.birthdate == SetTo(None)
  }

  function Required<T>(current: T, field: SetField<T>): T
    requires field != SetTo(None)
  {
    if field.Unset? then current else field.value.value
  }

  function Nullable<T>(current: Option<T>, field: SetField<T>): Option<T> {
    if field.Unset? then current else field.value
  }

  /** A field that is set takes the new value, any other keeps its old one. */
  predicate FieldBecomes<T(==)>(field: SetField<T>, before: Option<T>, after: Option<T>) {
    match field
    case Unset => after == before
    case SetTo(value) => after == value
  }

  function Patched(user: User, p: UserPatch): User
    requires !ViolatesNotNull(p)
  {
    user.(profile := Profile(
      Required(user.profile.firstName, p.firstName),
      Required(user.profile.secondName, p.secondName),
      Required(user.profile.birthdate, p.birthdate),
      Nullable(user.profile.biography, p.biography),
      Nullable(user.profile.city, p.city)))
  }

  /** The documented consumer: upsert on create and update, delete on delete. */
  function ApplyEvent(replica: map<UserId, UserData>, event: UserEvent): map<UserId, UserData> {
    if event.action.Delete? then replica - {event.data.id} else replica[event.data.id := event.data]
  }

  function Replay(events: seq<UserEvent>): map<UserId, UserData> {
    if events == [] then map[]
    else ApplyEvent(Replay(events[..|events| - 1]), events[|events| - 1])
  }

  class UserRepo {
    var users: map<UserId, User>
    var outbox: seq<UserEvent>  // rows in insertion order
    var inSession: bool         // the unit of work has given this repository a session

    ghost predicate Valid() reads this {
      WellKeyed(users)
    }

    constructor ()
      ensures Valid() && users == map[] && outbox == [] && !inSession
    {
      users, outbox, inSession := map[], [], false;
    }

    method SaveOutbox(action: Action, data: UserData) returns (r: Result<(), RepoError>)
      modifies this`outbox
      ensures inSession ==> r == Ok(()) && outbox == old(outbox) + [UserEvent(action, data)]
      ensures !inSession ==> r == Err(NoTransaction) && outbox == old(outbox)
    {
      if !inSession { return Err(NoTransaction); }
      outbox := outbox + [UserEvent(action, data)];
      return Ok(());
    }

    /** `newId` and `now` are the values of the column defaults gen_random_uuid() and NOW(). */
    method Add(data: UserCreate, newId: UserId, now: int) returns (r: Result<User, RepoError>)
      requires Valid()
      modifies this`users, this`outbox
      ensures Valid()
      ensures newId in old(users) ==> r == Err(DuplicateId) && users == old(users) && outbox == old(outbox)
      ensures newId !in old(users) ==> users == old(users)[newId := User(newId, data.profile, data.password, now)]
      ensures newId !in old(users) && inSession ==>
                && r == Ok(users[newId])
                && Public(users) == ApplyEvent(old(Public(users)), UserEvent(Create, UserData(newId, data.profile)))
                && outbox == old(outbox) + [UserEvent(Create, UserData(newId, data.profile))]
      ensures newId !in old(users) && !inSession ==> r == Err(NoTransaction) && outbox == old(outbox)
    {
      if newId in users { return Err(DuplicateId); }
      var dto := User(newId, data.profile, data.password, now);
      users := users[newId := dto];
      var saved := SaveOutbox(Create, PrepareOutboxData(dto));
      if saved.Err? { return Err(saved.error); }
      return Ok(dto);
    }

    method Update(id: UserId, patch: UserPatch) returns (r: Result<User, RepoError>)
      requires Valid()
      modifies this`users, this`outbox
      ensures Valid()
      ensures var e := UpdateError(old(users), id, patch);
              && (e.Some? ==> r == Err(e.value) && users == old(users) && outbox == old(outbox))
              && (e.None? ==> users == old(users)[id := Patched(old(users)[id], patch)])
              && (e.None? && inSession ==>
                    && r == Ok(users[id])
                    && Public(users) == ApplyEvent(old(Public(users)), UserEvent(Action.Update, Public(users)[id]))
                    && outbox == old(outbox) + [UserEvent(Action.Update, Public(users)[id])])
              && (e.None? && !inSession ==> r == Err(NoTransaction) && outbox == old(outbox))
      ensures r == Err(NothingToUpdate) <==>
                patch == UserPatch(Unset, Unset, Unset, Unset, Unset)
      ensures r == Err(NotFound) <==> patch != UserPatch(Unset, Unset, Unset, Unset, Unset) && id !in old(users)
      ensures r == Err(NotNullViolated) <==>
                && id in old(users)
                && (patch.firstName == SetTo(None) || patch.secondName == SetTo(None) || patch.birthdate == SetTo(None))
      ensures r.Ok? || r == Err(NoTransaction) ==>
                && id in old(users) && id in users
                && var before, after := old(users)[id].profile, users[id].profile;
                   && FieldBecomes(patch.firstName, Some(before.firstName), Some(after.firstName))
                   && FieldBecomes(patch.secondName, Some(before.secondName), Some(after.secondName))
                   && FieldBecomes(patch.birthdate, Some(before.birthdate), Some(after.birthdate))
                   && FieldBecomes(patch.biography, before.biography, after.biography)
                   && FieldBecomes(patch.city, before.city, after.city)
                   && users[id] == old(users)[id].(profile := after)
    {
      if IsEmptyPatch(patch) { return Err(NothingToUpdate); }
      if id !in users { return Err(NotFound); }
      if ViolatesNotNull(patch) { return Err(NotNullViolated); }
      var dto := Patched(users[id], patch);
      users := users[id := dto];
      var saved := SaveOutbox(Action.Update, PrepareOutboxData(dto));
      if saved.Err? { return Err(saved.error); }
      return Ok(dto);
    }

    method Remove(id: UserId) returns (r: Result<User, RepoError>)
      requires Valid()
      modifies this`users, this`outbox
      ensures Valid()
      ensures id !in old(users) ==> r == Err(NotFound) && users == old(users) && outbox == old(outbox)
      ensures id in old(users) ==> users == old(users) - {id}
      ensures id in old(users) && inSession ==>
                && r == Ok(old(users)[id])
                && Public(users) == ApplyEvent(old(Public(users)), UserEvent(Delete, old(Public(users))[id]))
                && outbox == old(outbox) + [UserEvent(Delete, old(Public(users))[id])]
      ensures id in old(users) && !inSession ==> r == Err(NoTransaction) && outbox == old(outbox)
    {
      if id !in users { return Err(NotFound); }
      var dto := users[id];
      users := users - {id};
      var saved := SaveOutbox(Delete, PrepareOutboxData(dto));
      if saved.Err? { return Err(saved.error); }
      return Ok(dto);
    }

    /** One mutation, in a transaction of its own or outside of any. */
    method Run(m: Mutation) returns (r: Result<User, RepoError>)
      requires Valid()
      modifies this`users, this`outbox
      ensures Valid()
      ensures inSession ==> Db(users, outbox) == Transact(old(Db(users, outbox)), m)
      ensures !inSession ==> Db(users, outbox) == Autocommit(old(Db(users, outbox)), m) && r.Err?
      ensures r.Ok? <==> outbox != old(outbox)
    {
      match m
      case AddUser(data, newId, now) => r := Add(data, newId, now);
      case UpdateUser(id, patch) => r := Update(id, patch);
      case RemoveUser(id) => r := Remove(id);
    }
  }

  /** Why an UPDATE changes nothing, if it does. */
  function UpdateError(users: map<UserId, User>, id: UserId, patch: UserPatch): Option<RepoError> {
    if IsEmptyPatch(patch) then Some(NothingToUpdate)
    else if id !in users then Some(NotFound)
    else if ViolatesNotNull(patch) then Some(NotNullViolated)
    else None
  }

  // ------------------------------------------------------------------------
  // Histories of committed mutations
  // ------------------------------------------------------------------------

  datatype Mutation =
    | AddUser(data: UserCreate, newId: UserId, now: int)
    | UpdateUser(id: UserId, patch: UserPatch)
    | RemoveUser(id: UserId)

  /** `events` is every outbox row ever committed, whether or not it is still in the table. */
  datatype Db = Db(users: map<UserId, User>, events: seq<UserEvent>)

  /** A mutation in its own transaction; a failed one is rolled back. */
  function Transact(db: Db, m: Mutation): Db {
    match m
    case AddUser(data, newId, now) =>
      if newId in db.users then db
      else Db(db.users[newId := User(newId, data.profile, data.password, now)],
              db.events + [UserEvent(Create, UserData(newId, data.profile))])
    case UpdateUser(id, patch) =>
      if UpdateError(db.users, id, patch).Some? then db
      else
        var dto := Patched(db.users[id], patch);
        Db(db.users[id := dto], db.events + [UserEvent(Update, PrepareOutboxData(dto))])
    case RemoveUser(id) =>
      if id !in db.users then db
      else Db(db.users - {id}, db.events + [UserEvent(Delete, PrepareOutboxData(db.users[id]))])
  }

  function History(ms: seq<Mutation>): Db {
    if ms == [] then Db(map[], []) else Transact(History(ms[..|ms| - 1]), ms[|ms| - 1])
  }

  lemma TransactMirrors(db: Db, m: Mutation)
    requires WellKeyed(db.users) && Public(db.users) == Replay(db.events)
    ensures var db' := Transact(db, m);
            && WellKeyed(db'.users)
            && Public(db'.users) == Replay(db'.events)
            && (db'.events == db.events || (|db'.events| == |db.events| + 1 && db'.events[..|db.events|] == db.events))
  {
    var db' := Transact(db, m);
    if db' != db {
      assert db'.events[..|db'.events| - 1] == db.events;
      assert Public(db'.users) == ApplyEvent(Public(db.users), db'.events[|db'.events| - 1]);
    }
  }

  /** The events committed so far, replayed, always give the password-free users table. */
  lemma {:induction false} EventsMirrorUsers(ms: seq<Mutation>)
    ensures WellKeyed(History(ms).users)
    ensures Public(History(ms).users) == Replay(History(ms).events)
  {
    if ms == [] {
    } else {
      EventsMirrorUsers(ms[..|ms| - 1]);
      TransactMirrors(History(ms[..|ms| - 1]), ms[|ms| - 1]);
    }
  }

  /** Every prefix of the event history is the history of some earlier moment. */
  lemma {:induction false} EveryPrefixIsAMoment(ms: seq<Mutation>, k: nat) returns (moment: nat)
    requires k <= |History(ms).events|
    ensures moment <= |ms|
    ensures History(ms[..moment]).events == History(ms).events[..k]
    ensures k == |History(ms).events| ==> moment == |ms|
  {
    if k == |History(ms).events| {
      moment := |ms|;
      assert ms[..moment] == ms;
    } else {
      var before := ms[..|ms| - 1];
      EventsMirrorUsers(before);
      TransactMirrors(History(before), ms[|ms| - 1]);
      moment := EveryPrefixIsAMoment(before, k);
      assert before[..moment] == ms[..moment];
    }
  }

  /** The same mutation with another password. */
  predicate SameUpToPassword(m1: Mutation, m2: Mutation) {
    if m1.AddUser? && m2.AddUser?
    then m1.data.profile == m2.data.profile && m1.newId == m2.newId && m1.now == m2.now
    else m1 == m2
  }

  /** Two databases that differ in passwords only. */
  ghost predicate AlikeUpToPasswords(a: Db, b: Db) {
    && a.events == b.events && a.users.Keys == b.users.Keys
    && forall id :: id in a.users ==> PrepareOutboxData(a.users[id]) == PrepareOutboxData(b.users[id])
  }

  lemma TransactAlike(a: Db, b: Db, m1: Mutation, m2: Mutation)
    requires AlikeUpToPasswords(a, b) && SameUpToPassword(m1, m2)
    ensures AlikeUpToPasswords(Transact(a, m1), Transact(b, m2))
  {
  }

  /** No outbox row depends on a password. */
  lemma {:induction false} PasswordsDoNotLeave(ms1: seq<Mutation>, ms2: seq<Mutation>)
    requires |ms1| == |ms2| && forall i :: 0 <= i < |ms1| ==> SameUpToPassword(ms1[i], ms2[i])
    ensures History(ms1).events == History(ms2).events
    ensures AlikeUpToPasswords(History(ms1), History(ms2))
  {
    if ms1 == [] {
    } else {
      PasswordsDoNotLeave(ms1[..|ms1| - 1], ms2[..|ms2| - 1]);
      TransactAlike(History(ms1[..|ms1| - 1]), History(ms2[..|ms2| - 1]), ms1[|ms1| - 1], ms2[|ms2| - 1]);
    }
  }

  /** Outside a transaction the statement is committed before the outbox refuses. */
  function Autocommit(db: Db, m: Mutation): Db {
    Db(Transact(db, m).users, db.events)
  }

  /** The mutation fails, or rewrites a row to what it was. */
  predicate ChangesNothing(users: map<UserId, User>, m: Mutation) {
    match m
    case AddUser(_, newId, _) => newId in users
    case UpdateUser(id, patch) =>
      UpdateError(users, id, patch).Some? || Patched(users[id], patch).profile == users[id].profile
    case RemoveUser(id) => id !in users
  }

  /** Such a mutation leaves the table different from the replay exactly when it changes something. */
  lemma AutocommitMirrorsIff(db: Db, m: Mutation)
    requires WellKeyed(db.users) && Public(db.users) == Replay(db.events)
    ensures Public(Autocommit(db, m).users) == Replay(Autocommit(db, m).events) <==> ChangesNothing(db.users, m)
  {
    var before, after := Public(db.users), Public(Autocommit(db, m).users);
    match m
    case AddUser(_, newId, _) => assert newId in after;
    case UpdateUser(id, patch) =>
      if UpdateError(db.users, id, patch).None? {
        assert before[id].profile == db.users[id].profile;
        assert after[id].profile == Patched(db.users[id], patch).profile;
      }
    case RemoveUser(id) => assert id !in after && (id in db.users <==> id in before);
  }

  /** For an added user, always. */
  lemma AutocommittedAddIsLost(db: Db, data: UserCreate, newId: UserId, now: int)
    requires Public(db.users) == Replay(db.events) && newId !in db.users
    ensures Public(db.users[newId := User(newId, data.profile, data.password, now)]) != Replay(db.events)
  {
    assert newId in Public(db.users[newId := User(newId, data.profile, data.password, now)]);
    assert newId !in Public(db.users);
  }
}

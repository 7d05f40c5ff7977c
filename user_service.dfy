/** The service layer: user queries over the data context, lookup by id that
    fails with `UserNotFound`, and one audit-log entry per create, update and
    delete. */
module Services {
  import opened Wrappers
  import opened Models
  import opened Strings
  import opened Linq
  import opened Data

  /** The exceptions a service call can throw. */
  datatype ServiceException =
    | UserNotFound(id: int, message: string)   // `UserNotFoundException`
    | StoreFailure(error: StoreError)           // an exception from the data context

  /** The text of the `UserNotFoundException` for id `id`. */
  function NotFoundMessage(id: int): string
  {
    "User with ID " + IntToString(id) + " not found."
  }

  /** The message names the requested id: different ids give different messages. */
  lemma NotFoundMessageNamesId(a: int, b: int)
    ensures NotFoundMessage(a) == NotFoundMessage(b) ==> a == b
  {
    var prefix, suffix := "User with ID ", " not found.";
    var ma, mb := NotFoundMessage(a), NotFoundMessage(b);
    assert ma[|prefix|..|ma| - |suffix|] == IntToString(a);
    assert mb[|prefix|..|mb| - |suffix|] == IntToString(b);
    IntToStringInjective(a, b);
  }

  /** The message for a missing user 1. */
  lemma NotFoundMessageForOne()
    ensures NotFoundMessage(1) == "User with ID 1 not found."
  {
    assert IntToString(1) == "1";
  }

  /** The `Details` text of the audit entry for a create, update or delete. */
  function AuditDetails(id: int, pastTense: string): string
  {
    "User with " + IntToString(id) + " has been " + pastTense
  }

  /** The predicate `FilterByActive` filters with. */
  function HasActiveFlag(isActive: bool): User -> bool
  {
    (u: User) => u.isActive == isActive
  }

  /** The predicate `GetById` looks for. */
  function HasKey(id: int): User -> bool
  {
    (u: User) => u.id == id
  }

  class UserService {
    /** `_dataAccess`: the data context the service works on. */
    const dataAccess: DataContext

    constructor(dataAccess: DataContext)
      ensures this.dataAccess == dataAccess
    {
      this.dataAccess := dataAccess;
    }

    /** `FilterByActive`: exactly the users whose active flag is `isActive`, in
        the order of the table. */
    function FilterByActive(isActive: bool): (r: seq<User>)
      reads dataAccess
      ensures forall u :: u in r <==> u in dataAccess.users && u.isActive == isActive
      ensures IsSubsequence(r, dataAccess.users)
    {
      var users := dataAccess.GetAll();
      WhereIsSubsequence(users, HasActiveFlag(isActive));
      Where(users, HasActiveFlag(isActive))
    }

    /** `GetAll`: the whole table. */
    function GetAll(): (r: seq<User>)
      reads dataAccess
      ensures dataAccess.Valid() ==> UniqueKeys(r)
    {
      dataAccess.GetAll()
    }

    /** `GetById`: the first user with key `id`, or `UserNotFound` carrying the
        id and the message "User with ID {id} not found." when there is none. */
    function GetById(id: int): (r: Result<User, ServiceException>)
      reads dataAccess
      ensures r.Failure? <==> id !in Keys(dataAccess.users)
      ensures r.Failure? ==> r.error == UserNotFound(id, NotFoundMessage(id))
      ensures r.Success? ==> r.value in dataAccess.users && r.value.id == id
      ensures r.Success? ==> exists i :: 0 <= i < |dataAccess.users| && dataAccess.users[i] == r.value
                                         && forall j :: 0 <= j < i ==> dataAccess.users[j].id != id
    {
      var users := dataAccess.GetAll();
      match FirstOrDefault(users, HasKey(id))
      case None =>
        Failure(UserNotFound(id, NotFoundMessage(id)))
      case Some(user) => Success(user)
    }

    /** `Create`: store the user, then append one "Created" entry for the key it
        was stored under. A refused store write throws before anything is logged. */
    method Create(user: User, generatedKey: int, now: DateTime) returns (result: Result<User, ServiceException>)
      requires dataAccess.Valid()
      requires generatedKey != 0 && generatedKey !in Keys(dataAccess.users)
      modifies dataAccess
      ensures dataAccess.Valid()
      ensures result.Failure? <==> user.id != 0 && user.id in Keys(old(dataAccess.users))
      ensures result.Failure? ==> result.error == StoreFailure(DuplicateKey(user.id))
      ensures result.Failure? ==> unchanged(dataAccess)
      ensures result.Success? ==>
        && result.value == user.(id := if user.id == 0 then generatedKey else user.id)
        && dataAccess.users == old(dataAccess.users) + [result.value]
        && dataAccess.logs == old(dataAccess.logs)
             + [Log(old(dataAccess.nextLogId), result.value.id, "Created", now, AuditDetails(result.value.id, "created"))]
    {
      var stored := dataAccess.Create(user, generatedKey);
      if stored.Failure? {
        return Failure(StoreFailure(stored.error));
      }
      var created := stored.value;
      CreateLog(created.id, "Created", AuditDetails(created.id, "created"), now);
      return Success(created);
    }

    /** `Update`: save the user over the row with its key, then append one
        "Updated" entry. An unknown key throws before anything is logged. */
    method Update(user: User, now: DateTime) returns (outcome: Outcome<ServiceException>)
      requires dataAccess.Valid()
      modifies dataAccess
      ensures dataAccess.Valid()
      ensures outcome.Pass? <==> user.id in Keys(old(dataAccess.users))
      ensures outcome.Fail? ==> outcome.error == StoreFailure(MissingKey(user.id))
      ensures outcome.Fail? ==> unchanged(dataAccess)
      ensures outcome.Pass? ==>
        && dataAccess.users == ReplaceByKey(old(dataAccess.users), user)
        && dataAccess.logs == old(dataAccess.logs)
             + [Log(old(dataAccess.nextLogId), user.id, "Updated", now, AuditDetails(user.id, "updated"))]
    {
      var saved := dataAccess.Update(user);
      if saved.Fail? {
        return Fail(StoreFailure(saved.error));
      }
      CreateLog(user.id, "Updated", AuditDetails(user.id, "updated"), now);
      return Pass;
    }

    /** `Delete`: look the user up (throwing `UserNotFound` when absent, with
        nothing changed and nothing logged), remove it, then append one
        "Deleted" entry. */
    method Delete(id: int, now: DateTime) returns (outcome: Outcome<ServiceException>)
      requires dataAccess.Valid()
      modifies dataAccess
      ensures dataAccess.Valid()
      ensures outcome.Pass? <==> id in Keys(old(dataAccess.users))
      ensures outcome.Fail? ==> outcome.error == UserNotFound(id, NotFoundMessage(id))
      ensures outcome.Fail? ==> unchanged(dataAccess)
      ensures outcome.Pass? ==>
        && dataAccess.users == RemoveByKey(old(dataAccess.users), id)
        && dataAccess.logs == old(dataAccess.logs)
             + [Log(old(dataAccess.nextLogId), id, "Deleted", now, AuditDetails(id, "deleted"))]
    {
      var found := GetById(id);
      if found.Failure? {
        return Fail(found.error);
      }
      var removed := dataAccess.Delete(found.value);
      assert removed.Pass?;
      CreateLog(id, "Deleted", AuditDetails(id, "deleted"), now);
      return Pass;
    }

    /** `CreateLog`: append one entry carrying exactly `userId`, `action` and
        `details`, numbered by the context and stamped with the clock. */
    method CreateLog(userId: int, action: string, details: string, now: DateTime)
      requires dataAccess.Valid()
      modifies dataAccess
      ensures dataAccess.Valid()
      ensures dataAccess.users == old(dataAccess.users)
      ensures dataAccess.nextLogId == old(dataAccess.nextLogId) + 1
      ensures dataAccess.logs == old(dataAccess.logs) + [Log(old(dataAccess.nextLogId), userId, action, now, details)]
    {
      var log := Log(0, userId, action, now, details);
      var _ := dataAccess.CreateLog(log, now);
    }

    /** `GetLogsForUser`: the entries about `userId`, oldest first. */
    function GetLogsForUser(userId: int): (r: seq<Log>)
      reads dataAccess
      ensures forall l :: l in r <==> l in dataAccess.logs && l.userId == userId
      ensures dataAccess.Valid() ==> IdsIncreasing(r)
    {
      dataAccess.GetLogsForUser(userId)
    }

    /** `GetAllLogs`: every entry, oldest first. */
    function GetAllLogs(): (r: seq<Log>)
      reads dataAccess
      requires dataAccess.Valid()
      ensures forall i :: 0 <= i < |r| ==> r[i].id == i + 1
    {
      dataAccess.GetAllLogs()
    }
  }

  /** The active and the inactive users split the table: no user is in both,
      and together they hold every row exactly once. */
  lemma FilterByActivePartition(service: UserService)
    ensures multiset(service.FilterByActive(true)) + multiset(service.FilterByActive(false))
            == multiset(service.GetAll())
    ensures |service.FilterByActive(true)| + |service.FilterByActive(false)| == |service.GetAll()|
    ensures forall u :: !(u in service.FilterByActive(true) && u in service.FilterByActive(false))
  {
    WhereComplement(service.dataAccess.users, HasActiveFlag(true), HasActiveFlag(false));
  }

  /** Two active users around an inactive one: each filter returns exactly the
      users with its flag, in table order. */
  lemma MixedUsersScenario(service: UserService, a1: User, i: User, a2: User)
    requires a1.isActive && a2.isActive && !i.isActive
    requires service.dataAccess.users == [a1, i, a2]
    ensures service.FilterByActive(true) == [a1, a2]
    ensures service.FilterByActive(false) == [i]
  {
    var active, inactive := HasActiveFlag(true), HasActiveFlag(false);
    assert [a1, i, a2][1..] == [i, a2] && [i, a2][1..] == [a2];
    assert Where([a2], active) == [a2] + Where([], active);
    assert Where([a2], inactive) == Where([], inactive);
    assert Where([i, a2], active) == [a2];
    assert Where([i, a2], inactive) == [i];
  }

  /** When every user is inactive, asking for the active ones gives nothing. */
  lemma NoActiveUsers(service: UserService)
    requires forall u :: u in service.dataAccess.users ==> !u.isActive
    ensures service.FilterByActive(true) == []
  {
  }
}

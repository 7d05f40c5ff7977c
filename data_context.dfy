/** The data layer: the user table the entity framework keeps in memory and the
    append-only audit log beside it, with its id counter. */
module Data {
  import opened Wrappers
  import opened Models
  import opened Linq

  /** Why the store refuses to save a change (the entity framework throws). */
  datatype StoreError =
    | DuplicateKey(key: int)   // an added entity carries a key the table already holds
    | MissingKey(key: int)     // an updated or removed entity has no row in the table

  /** The keys present in a user table. */
  function Keys(users: seq<User>): set<int>
  {
    set u | u in users :: u.id
  }

  /** No two rows share a key. */
  predicate UniqueKeys(users: seq<User>)
  {
    forall i, j :: 0 <= i < j < |users| ==> users[i].id != users[j].id
  }

  /** The log ids are 1, 2, 3, ... in the order the entries were appended. */
  predicate NumberedFromOne(logs: seq<Log>)
  {
    forall i :: 0 <= i < |logs| ==> logs[i].id == i + 1
  }

  /** Every entry has a larger id than the entries before it. */
  predicate IdsIncreasing(logs: seq<Log>)
  {
    forall i, j :: 0 <= i < j < |logs| ==> logs[i].id < logs[j].id
  }

  /** The eleven users the store is seeded with; birth dates are given in years
      before the moment `now` the store is created. */
  function Seed(now: DateTime): seq<User>
  {
    [ User(1, "Peter", "Loew", "ploew@example.com", true, AddYears(now, -20)),
      User(2, "Benjamin Franklin", "Gates", "bfgates@example.com", true, AddYears(now, -55)),
      User(3, "Castor", "Troy", "ctroy@example.com", false, AddYears(now, -18)),
      User(4, "Memphis", "Raines", "mraines@example.com", true, AddYears(now, -20)),
      User(5, "Stanley", "Goodspeed", "sgodspeed@example.com", true, AddYears(now, -70)),
      User(6, "H.I.", "McDunnough", "himcdunnough@example.com", true, AddYears(now, -130)),
      User(7, "Cameron", "Poe", "cpoe@example.com", false, AddYears(now, -25)),
      User(8, "Edward", "Malus", "emalus@example.com", false, AddYears(now, -80)),
      User(9, "Damon", "Macready", "dmacready@example.com", false, AddYears(now, -100)),
      User(10, "Johnny", "Blaze", "jblaze@example.com", true, AddYears(now, -36)),
      User(11, "Robin", "Feld", "rfeld@example.com", true, AddYears(now, -22)) ]
  }

  /** The seed holds users 1 to 11 in key order; users 3, 7, 8 and 9 are
      inactive and the other seven are active. */
  lemma SeedPopulation(now: DateTime)
    ensures |Seed(now)| == 11
    ensures forall i :: 0 <= i < 11 ==> Seed(now)[i].id == i + 1
    ensures forall i :: 0 <= i < 11 ==> (!Seed(now)[i].isActive <==> Seed(now)[i].id in {3, 7, 8, 9})
    ensures UniqueKeys(Seed(now)) && 0 !in Keys(Seed(now))
  {
  }

  /** The table after the entity framework saves `entity` as modified: the row
      with its key is replaced, every other row stays as it was. */
  function ReplaceByKey(users: seq<User>, entity: User): (r: seq<User>)
    ensures |r| == |users|
    ensures forall i :: 0 <= i < |users| && users[i].id == entity.id ==> r[i] == entity
    ensures forall i :: 0 <= i < |users| && users[i].id != entity.id ==> r[i] == users[i]
    ensures entity.id in Keys(users) ==> Keys(r) == Keys(users)
    ensures UniqueKeys(users) ==> UniqueKeys(r)
  {
    var r := Select(users, (u: User) => if u.id == entity.id then entity else u);
    assert entity.id in Keys(users) ==> Keys(r) == Keys(users) by {
      if entity.id in Keys(users) {
        forall k | k in Keys(users) ensures k in Keys(r) {
          var i :| 0 <= i < |users| && users[i].id == k;
          assert r[i] in r;
        }
        forall k | k in Keys(r) ensures k in Keys(users) {
          var i :| 0 <= i < |r| && r[i].id == k;
          assert users[i] in users;
        }
      }
    }
    r
  }

  /** Filtering a table whose keys are unique leaves them unique. */
  lemma {:induction false} FilterKeepsKeysUnique(users: seq<User>, p: User -> bool)
    requires UniqueKeys(users)
    ensures UniqueKeys(Where(users, p))
  {
    if users != [] {
      var rest := users[1..];
      assert UniqueKeys(rest);
      FilterKeepsKeysUnique(rest, p);
      var tail := Where(rest, p);
      if p(users[0]) {
        var r := [users[0]] + tail;
        forall j | 1 <= j < |r| ensures r[0].id != r[j].id {
          assert r[j] in rest;
        }
        assert UniqueKeys(r);
      }
    }
  }

  /** Filtering a log whose ids increase leaves them increasing: a filtered log
      is still in the order the entries were appended. */
  lemma {:induction false} FilterKeepsLogOrder(logs: seq<Log>, p: Log -> bool)
    requires IdsIncreasing(logs)
    ensures IdsIncreasing(Where(logs, p))
  {
    if logs != [] {
      var rest := logs[1..];
      assert IdsIncreasing(rest);
      FilterKeepsLogOrder(rest, p);
      var tail := Where(rest, p);
      if p(logs[0]) {
        var r := [logs[0]] + tail;
        forall j | 1 <= j < |r| ensures r[0].id < r[j].id {
          assert r[j] in rest;
        }
        assert IdsIncreasing(r);
      }
    }
  }

  /** The table after the entity framework removes the row with key `key`. */
  function RemoveByKey(users: seq<User>, key: int): (r: seq<User>)
    ensures Keys(r) == Keys(users) - {key}
    ensures forall u :: u in r <==> u in users && u.id != key
    ensures IsSubsequence(r, users)
    ensures UniqueKeys(users) ==> UniqueKeys(r)
  {
    var p := (u: User) => u.id != key;
    WhereIsSubsequence(users, p);
    if UniqueKeys(users) then FilterKeepsKeysUnique(users, p); Where(users, p)
    else Where(users, p)
  }

  /** The predicate `GetLogsForUser` filters with. */
  function IsAbout(userId: int): Log -> bool
  {
    (l: Log) => l.userId == userId
  }

  /** The context object: user table, log list and the next log id. */
  class DataContext {
    /** The user table, in the order the store enumerates it. */
    var users: seq<User>
    /** `_logs`: the audit log, oldest entry first. */
    var logs: seq<Log>
    /** `_nextLogId`: the id the next appended log entry receives. */
    var nextLogId: int

    predicate Valid()
      reads this
    {
      && UniqueKeys(users)
      && 0 !in Keys(users)
      && NumberedFromOne(logs)
      && nextLogId == |logs| + 1
    }

    /** A fresh context: the seeded users, no log entries, the counter at 1. */
    constructor(now: DateTime)
      ensures Valid()
      ensures users == Seed(now) && logs == [] && nextLogId == 1
    {
      users := Seed(now);
      logs := [];
      nextLogId := 1;
      SeedPopulation(now);
    }

    /** `GetAll<User>`: the live rows; in a valid context their keys are
        unique and assigned. Every service query reads the table through it. */
    function GetAll(): (r: seq<User>)
      reads this
      ensures Valid() ==> UniqueKeys(r) && 0 !in Keys(r)
    {
      users
    }

    /** `Create`: add `entity` and save. An entity without a key (id 0) gets the
        key the store generates; one whose key is taken is refused. */
    method Create(entity: User, generatedKey: int) returns (result: Result<User, StoreError>)
      requires Valid()
      requires generatedKey != 0 && generatedKey !in Keys(users)
      modifies this
      ensures Valid()
      ensures logs == old(logs) && nextLogId == old(nextLogId)
      ensures result.Failure? <==> entity.id != 0 && entity.id in Keys(old(users))
      ensures result.Failure? ==> result.error == DuplicateKey(entity.id) && unchanged(this)
      ensures result.Success? ==>
        && result.value == entity.(id := if entity.id == 0 then generatedKey else entity.id)
        && users == old(users) + [result.value]
    {
      if entity.id != 0 && entity.id in Keys(users) {
        return Failure(DuplicateKey(entity.id));
      }
      var created := if entity.id == 0 then entity.(id := generatedKey) else entity;
      assert created.id !in Keys(users);
      forall i | 0 <= i < |users| ensures users[i].id != created.id {
        assert users[i] in users;
      }
      users := users + [created];
      assert Keys(users) == Keys(old(users)) + {created.id};
      return Success(created);
    }

    /** `Update`: save `entity` as the new content of the row with its key. */
    method Update(entity: User) returns (outcome: Outcome<StoreError>)
      requires Valid()
      modifies this
      ensures Valid()
      ensures logs == old(logs) && nextLogId == old(nextLogId)
      ensures outcome.Pass? <==> entity.id in Keys(old(users))
      ensures outcome.Pass? ==> users == ReplaceByKey(old(users), entity)
      ensures outcome.Fail? ==> outcome.error == MissingKey(entity.id) && unchanged(this)
    {
      if entity.id !in Keys(users) {
        return Fail(MissingKey(entity.id));
      }
      users := ReplaceByKey(users, entity);
      return Pass;
    }

    /** `Delete`: remove the row with the key of `entity` and save. */
    method Delete(entity: User) returns (outcome: Outcome<StoreError>)
      requires Valid()
      modifies this
      ensures Valid()
      ensures logs == old(logs) && nextLogId == old(nextLogId)
      ensures outcome.Pass? <==> entity.id in Keys(old(users))
      ensures outcome.Pass? ==> users == RemoveByKey(old(users), entity.id)
      ensures outcome.Fail? ==> outcome.error == MissingKey(entity.id) && unchanged(this)
    {
      if entity.id !in Keys(users) {
        return Fail(MissingKey(entity.id));
      }
      users := RemoveByKey(users, entity.id);
      return Pass;
    }

    /** `CreateLog`: stamp `log` with the next id and the clock, append it, and
        advance the counter. The timestamp the caller set is overwritten. */
    method CreateLog(log: Log, utcNow: DateTime) returns (stamped: Log)
      requires Valid()
      modifies this
      ensures Valid()
      ensures stamped == log.(id := old(nextLogId), timestamp := utcNow)
      ensures logs == old(logs) + [stamped]
      ensures nextLogId == old(nextLogId) + 1
      ensures users == old(users)
    {
      stamped := log.(id := nextLogId);
      nextLogId := nextLogId + 1;
      stamped := stamped.(timestamp := utcNow);
      logs := logs + [stamped];
    }

    /** `GetLogsForUser`: exactly the entries about `userId`, in the order they
        were appended; empty when there are none. */
    function GetLogsForUser(userId: int): (r: seq<Log>)
      reads this
      ensures forall l :: l in r <==> l in logs && l.userId == userId
      ensures IsSubsequence(r, logs)
      ensures Valid() ==> IdsIncreasing(r)
    {
      WhereIsSubsequence(logs, IsAbout(userId));
      if Valid() then FilterKeepsLogOrder(logs, IsAbout(userId)); Where(logs, IsAbout(userId))
      else Where(logs, IsAbout(userId))
    }

    /** `GetAllLogs`: the whole log, oldest first, its ids 1 to `nextLogId - 1`. */
    function GetAllLogs(): (r: seq<Log>)
      reads this
      requires Valid()
      ensures |r| == nextLogId - 1
      ensures forall i :: 0 <= i < |r| ==> r[i].id == i + 1
      ensures IdsIncreasing(r)
    {
      logs
    }
  }
}

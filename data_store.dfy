/** The in-memory side of the JSON-backed record store (Services/JsonDataService.cs):
    a list of users and a list of readings, loaded once, updated in place and
    queried.

    Reading and writing the files is not modelled; what a load finds on disk is
    given as a `FileState`. */
module DataStore {
  import opened Basics
  import opened Text
  import opened Readings

  /** A stored user; the other fields of User are not part of this model. */
  datatype User = User(id: Guid, username: string)

  /** What loading a file finds: no file, a read or parse that threw, a document
      that deserialises to null, or a list of items. */
  datatype FileState<T> = Missing | Unreadable | HoldsNull | Holds(items: seq<T>)

  /** LoadFromFile: the parsed list, or an empty list in every other case. */
  function LoadFromFile<T>(file: FileState<T>): (items: seq<T>)
    ensures file.Holds? ==> items == file.items
    ensures !file.Holds? ==> items == []
  {
    match file
    case Missing => []
    case Unreadable => []
    case HoldsNull => []
    case Holds(items) => items
  }

  // ---- users ----

  predicate UniqueIds(users: seq<User>)
  {
    forall i, j :: 0 <= i < j < |users| ==> users[i].id != users[j].id
  }

  /** `List.Remove(x)`: drops the first element equal to `x`, if any. */
  function RemoveFirst(users: seq<User>, x: User): (r: seq<User>)
    ensures x in users ==> |r| == |users| - 1
    ensures x !in users ==> r == users
  {
    if |users| == 0 then []
    else if users[0] == x then users[1..]
    else [users[0]] + RemoveFirst(users[1..], x)
  }

  /** Removing the element at i, when no earlier element equals it, cuts out
      position i and keeps everything else in order. */
  lemma {:induction false} RemoveFirstAt(users: seq<User>, i: nat)
    requires i < |users|
    requires forall j :: 0 <= j < i ==> users[j] != users[i]
    ensures RemoveFirst(users, users[i]) == users[..i] + users[i + 1..]
  {
    if i > 0 {
      var tail := users[1..];
      assert forall j :: 0 <= j < i - 1 ==> tail[j] != tail[i - 1] by {
        forall j | 0 <= j < i - 1 ensures tail[j] != tail[i - 1] {
          assert tail[j] == users[j + 1];
        }
      }
      RemoveFirstAt(tail, i - 1);
      assert users[..i] == [users[0]] + tail[..i - 1];
      assert users[i + 1..] == tail[i..];
    }
  }

  /** What SaveUser leaves in the list: the first user with the same Id taken out,
      the new user appended at the end. */
  function Upsert(users: seq<User>, user: User): (r: seq<User>)
    ensures |r| > 0 && r[|r| - 1] == user
  {
    match FirstIndex(users, (u: User) => u.id == user.id)
    case None => users + [user]
    case Some(i) => users[..i] + users[i + 1..] + [user]
  }

  /** SaveUser replaces an existing entry with the same Id, keeping the count, and
      otherwise adds one; the users before the last are the old ones, in order,
      without the replaced entry. */
  lemma UpsertShape(users: seq<User>, user: User)
    ensures var r := Upsert(users, user);
      && ((exists k :: 0 <= k < |users| && users[k].id == user.id) ==> |r| == |users|)
      && ((forall k :: 0 <= k < |users| ==> users[k].id != user.id) ==> r == users + [user])
      && (forall k :: 0 <= k < |users| && users[k].id != user.id ==> users[k] in r)
  {
    var r := Upsert(users, user);
    match FirstIndex(users, (u: User) => u.id == user.id)
    case None =>
    case Some(i) =>
      forall k | 0 <= k < |users| && users[k].id != user.id ensures users[k] in r {
        if k < i {
          assert r[k] == users[k];
        } else {
          assert r[k - 1] == users[k];
        }
      }
  }

  /** With unique Ids, the users kept by SaveUser are exactly the old users with
      a different Id, in their old order. */
  lemma {:induction false} UpsertKeepsOthersInOrder(users: seq<User>, user: User)
    requires UniqueIds(users)
    ensures Upsert(users, user) == WithoutId(users, user.id) + [user]
  {
    var found := FirstIndex(users, (u: User) => u.id == user.id);
    if found.None? {
      assert forall k :: 0 <= k < |users| ==> users[k].id != user.id;
      WithoutAbsentId(users, user.id);
    } else {
      var i := found.value;
      assert Upsert(users, user) == users[..i] + users[i + 1..] + [user];
      assert forall k :: 0 <= k < |users| && k != i ==> users[k].id != user.id;
      WithoutIdAt(users, i, user.id);
    }
  }

  /** When only position i carries the Id, dropping that Id cuts out position i. */
  lemma {:induction false} WithoutIdAt(users: seq<User>, i: nat, id: Guid)
    requires i < |users| && users[i].id == id
    requires forall k :: 0 <= k < |users| && k != i ==> users[k].id != id
    ensures WithoutId(users, id) == users[..i] + users[i + 1..]
  {
    var tail := users[1..];
    assert forall k :: 0 <= k < |tail| ==> tail[k] == users[k + 1];
    if i == 0 {
      WithoutAbsentId(tail, id);
    } else {
      WithoutIdAt(tail, i - 1, id);
      assert users[..i] == [users[0]] + tail[..i - 1];
      assert users[i + 1..] == tail[i..];
    }
  }

  /** The users whose Id is not `id`, in order. */
  function WithoutId(users: seq<User>, id: Guid): (r: seq<User>)
  {
    if |users| == 0 then []
    else (if users[0].id == id then [] else [users[0]]) + WithoutId(users[1..], id)
  }

  lemma {:induction false} WithoutAbsentId(users: seq<User>, id: Guid)
    requires forall k :: 0 <= k < |users| ==> users[k].id != id
    ensures WithoutId(users, id) == users
  {
    if |users| > 0 {
      WithoutAbsentId(users[1..], id);
    }
  }

  /** SaveUser keeps Ids unique. */
  lemma UpsertKeepsIdsUnique(users: seq<User>, user: User)
    requires UniqueIds(users)
    ensures UniqueIds(Upsert(users, user))
  {
    var r := Upsert(users, user);
    match FirstIndex(users, (u: User) => u.id == user.id)
    case None =>
    case Some(i) =>
      var rest := users[..i] + users[i + 1..];
      assert forall k :: 0 <= k < |rest| ==> rest[k] == users[if k < i then k else k + 1];
      forall a, b | 0 <= a < b < |r| ensures r[a].id != r[b].id {
        if b == |r| - 1 {
          assert r[a] == users[if a < i then a else a + 1];
        } else {
          assert r[a] == users[if a < i then a else a + 1];
          assert r[b] == users[if b < i then b else b + 1];
        }
      }
  }

  /** The first user whose name equals `username` ignoring case. */
  function FindByUsername(users: seq<User>, username: string): (found: Option<User>)
  {
    match FirstIndex(users, (u: User) => EqualsIgnoreCase(u.username, username))
    case None => None
    case Some(i) => Some(users[i])
  }

  // ---- readings ----

  /** Newest first: timestamps never increase along the list. */
  predicate NewestFirst(readings: seq<Reading>)
  {
    forall i, j :: 0 <= i < j < |readings| ==> readings[i].timestamp >= readings[j].timestamp
  }

  /** The readings of one user, in stored order (`Where(r => r.UserId == userId)`). */
  function ReadingsOf(readings: seq<Reading>, userId: Guid): (mine: seq<Reading>)
    ensures forall x :: multiset(mine)[x] == if x.userId == userId then multiset(readings)[x] else 0
  {
    if |readings| == 0 then []
    else
      assert readings == [readings[0]] + readings[1..];
      (if readings[0].userId == userId then [readings[0]] else []) + ReadingsOf(readings[1..], userId)
  }

  /** The readings with the given timestamp, in order. */
  function AtTime(readings: seq<Reading>, t: int): seq<Reading>
  {
    if |readings| == 0 then []
    else (if readings[0].timestamp == t then [readings[0]] else []) + AtTime(readings[1..], t)
  }

  /** Inserts a reading before the first one that is not strictly newer. */
  function InsertNewestFirst(x: Reading, sorted: seq<Reading>): (r: seq<Reading>)
    ensures multiset(r) == multiset(sorted) + multiset{x}
  {
    if |sorted| == 0 || x.timestamp >= sorted[0].timestamp then [x] + sorted
    else
      assert sorted == [sorted[0]] + sorted[1..];
      [sorted[0]] + InsertNewestFirst(x, sorted[1..])
  }

  /** Inserting into a newest-first list keeps it newest first. */
  lemma {:induction false} InsertKeepsOrder(x: Reading, sorted: seq<Reading>)
    requires NewestFirst(sorted)
    ensures NewestFirst(InsertNewestFirst(x, sorted))
  {
    if |sorted| == 0 || x.timestamp >= sorted[0].timestamp {
      var r := [x] + sorted;
      forall i, j | 0 <= i < j < |r| ensures r[i].timestamp >= r[j].timestamp {
        if i == 0 {
          assert r[j] == sorted[j - 1];
        } else {
          assert r[i] == sorted[i - 1] && r[j] == sorted[j - 1];
        }
      }
    } else {
      var tail := sorted[1..];
      assert NewestFirst(tail) by {
        forall i, j | 0 <= i < j < |tail| ensures tail[i].timestamp >= tail[j].timestamp {
          assert tail[i] == sorted[i + 1] && tail[j] == sorted[j + 1];
        }
      }
      InsertKeepsOrder(x, tail);
      var rest := InsertNewestFirst(x, tail);
      var r := [sorted[0]] + rest;
      forall i, j | 0 <= i < j < |r| ensures r[i].timestamp >= r[j].timestamp {
        if i == 0 {
          var y := rest[j - 1];
          assert y in multiset(rest);
          assert y == x || y in multiset(tail);
          if y != x {
            var k :| 0 <= k < |tail| && tail[k] == y;
            assert y == sorted[k + 1];
          }
        } else {
          assert r[i] == rest[i - 1] && r[j] == rest[j - 1];
        }
      }
    }
  }

  /** `OrderByDescending(r => r.Timestamp)`, a stable sort, as an insertion sort
      that puts each reading before the equally old ones that follow it. */
  function SortNewestFirst(readings: seq<Reading>): (sorted: seq<Reading>)
    ensures multiset(sorted) == multiset(readings)
    ensures NewestFirst(sorted)
  {
    if |readings| == 0 then []
    else
      assert readings == [readings[0]] + readings[1..];
      InsertKeepsOrder(readings[0], SortNewestFirst(readings[1..]));
      InsertNewestFirst(readings[0], SortNewestFirst(readings[1..]))
  }

  /** Inserting passes only readings that are strictly newer, so among the
      readings of any one timestamp the inserted one comes first. */
  lemma {:induction false} InsertKeepsTies(x: Reading, sorted: seq<Reading>, t: int)
    ensures AtTime(InsertNewestFirst(x, sorted), t)
      == (if x.timestamp == t then [x] else []) + AtTime(sorted, t)
  {
    if |sorted| == 0 || x.timestamp >= sorted[0].timestamp {
      assert ([x] + sorted)[1..] == sorted;
    } else {
      var rest := InsertNewestFirst(x, sorted[1..]);
      InsertKeepsTies(x, sorted[1..], t);
      assert ([sorted[0]] + rest)[1..] == rest;
    }
  }

  /** The sort is stable: the readings of any one timestamp keep their order. */
  lemma {:induction false} SortKeepsTies(readings: seq<Reading>, t: int)
    ensures AtTime(SortNewestFirst(readings), t) == AtTime(readings, t)
  {
    if |readings| > 0 {
      SortKeepsTies(readings[1..], t);
      InsertKeepsTies(readings[0], SortNewestFirst(readings[1..]), t);
    }
  }

  lemma SortIsStable(readings: seq<Reading>)
    ensures forall t :: AtTime(SortNewestFirst(readings), t) == AtTime(readings, t)
  {
    forall t ensures AtTime(SortNewestFirst(readings), t) == AtTime(readings, t) {
      SortKeepsTies(readings, t);
    }
  }

  class JsonDataService {
    var users: seq<User>
    var readings: seq<Reading>

    /** The constructor loads both lists. */
    constructor (usersFile: FileState<User>, readingsFile: FileState<Reading>)
      ensures users == LoadFromFile(usersFile) && readings == LoadFromFile(readingsFile)
    {
      users := LoadFromFile(usersFile);
      readings := LoadFromFile(readingsFile);
    }

    /** GetUser: the first user whose name matches ignoring case, or null. */
    function GetUser(username: string): (found: Option<User>)
      reads this
      ensures found.None? <==> forall i :: 0 <= i < |users| ==> !EqualsIgnoreCase(users[i].username, username)
      ensures found.Some? ==> exists i :: (0 <= i < |users| && users[i] == found.value
        && EqualsIgnoreCase(users[i].username, username)
        && forall j :: 0 <= j < i ==> !EqualsIgnoreCase(users[j].username, username))
    {
      FindByUsername(users, username)
    }

    /** SaveUser: removes the first stored user with the same Id, if any, and
        appends the given one. */
    method SaveUser(user: User)
      modifies this
      ensures users == Upsert(old(users), user)
      ensures readings == old(readings)
    {
      var existing := FirstIndex(users, (u: User) => u.id == user.id);
      if existing.Some? {
        RemoveFirstAt(users, existing.value);
        users := RemoveFirst(users, users[existing.value]);
      }
      users := users + [user];
    }

    /** GetAllUsers: a new list holding the same users in the same order; the
        store keeps its own list, so changing the copy changes nothing here. */
    method GetAllUsers() returns (copy: array<User>)
      ensures fresh(copy) && copy[..] == users
    {
      copy := new User[|users|](i requires 0 <= i < |users| reads this => users[i]);
    }

    /** SaveReading: appends the reading; earlier readings stay as they were. */
    method SaveReading(reading: Reading)
      modifies this
      ensures readings == old(readings) + [reading]
      ensures users == old(users)
    {
      readings := readings + [reading];
    }

    /** GetUserReadings: exactly this user's readings, newest first, readings of
        equal timestamp in stored order. */
    function GetUserReadings(userId: Guid): (result: seq<Reading>)
      reads this
      ensures forall x :: multiset(result)[x] == if x.userId == userId then multiset(readings)[x] else 0
      ensures NewestFirst(result)
      ensures forall t :: AtTime(result, t) == AtTime(ReadingsOf(readings, userId), t)
    {
      var mine := ReadingsOf(readings, userId);
      SortIsStable(mine);
      SortNewestFirst(mine)
    }
  }
}

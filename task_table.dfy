/** The task table as the handlers see it: a sequence of rows, the lookup by
    the pair (id, owner) that guards every single-task handler, and the
    projection of the table onto one owner, which states isolation between
    users. */
module TaskTable {
  import opened Common
  import opened Validation

  /** Identifier of a task row. */
  type TaskId = nat

  /** One row of the task table. */
  datatype Task = Task(id: TaskId, userId: UserId, title: string,
                       description: Option<string>, status: Status, createdAt: nat)

  /** The store's primary key: no two rows share an id. */
  ghost predicate UniqueIds(rows: seq<Task>)
  {
    forall i, j :: 0 <= i < j < |rows| ==> rows[i].id != rows[j].id
  }

  /** The row is the one `where: { id, userId }` asks for. */
  predicate Selects(t: Task, userId: UserId, id: TaskId)
  {
    t.id == id && t.userId == userId
  }

  /** `findFirst({ where: { id, userId } })`: the position of the first row
      with that id and that owner, or None when no row has both. */
  function FindOwned(rows: seq<Task>, userId: UserId, id: TaskId): (r: Option<nat>)
    ensures r.Some? ==> r.value < |rows| && Selects(rows[r.value], userId, id)
    ensures r.Some? ==> forall k :: 0 <= k < r.value ==> !Selects(rows[k], userId, id)
    ensures r.None? <==> forall k :: 0 <= k < |rows| ==> !Selects(rows[k], userId, id)
    decreases |rows|
  {
    if rows == [] then None
    else if Selects(rows[0], userId, id) then Some(0)
    else
      match FindOwned(rows[1..], userId, id)
      case None => None
      case Some(k) => Some(k + 1)
  }

  /** The rows owned by `userId`, in table order: all of the table that a
      request authenticated as `userId` can reach. */
  function OwnedBy(rows: seq<Task>, userId: UserId): (r: seq<Task>)
    ensures forall t :: t in r <==> t in rows && t.userId == userId
    ensures |r| <= |rows|
    decreases |rows|
  {
    if rows == [] then []
    else if rows[0].userId == userId then [rows[0]] + OwnedBy(rows[1..], userId)
    else OwnedBy(rows[1..], userId)
  }

  /** The table without the row at position `i` (`delete({ where: { id } })`). */
  function RemoveAt(rows: seq<Task>, i: nat): (r: seq<Task>)
    requires i < |rows|
    ensures |r| == |rows| - 1
    ensures forall k :: 0 <= k < i ==> r[k] == rows[k]
    ensures forall k :: i <= k < |r| ==> r[k] == rows[k + 1]
  {
    rows[..i] + rows[i + 1..]
  }

  /** Owner projection distributes over concatenation. */
  lemma {:induction false} OwnedByAppend(a: seq<Task>, b: seq<Task>, userId: UserId)
    ensures OwnedBy(a + b, userId) == OwnedBy(a, userId) + OwnedBy(b, userId)
    decreases |a|
  {
    if a == [] {
      assert a + b == b;
    } else {
      assert (a + b)[1..] == a[1..] + b;
      OwnedByAppend(a[1..], b, userId);
    }
  }

  /** Rewriting one row of owner `u` in place, keeping its owner, leaves
      every other user's view of the table exactly as it was. */
  lemma {:induction false} ReplaceKeepsOthers(rows: seq<Task>, i: nat, t: Task, other: UserId)
    requires i < |rows| && t.userId == rows[i].userId && other != t.userId
    ensures OwnedBy(rows[i := t], other) == OwnedBy(rows, other)
    decreases |rows|
  {
    if i > 0 {
      assert rows[i := t][1..] == rows[1..][i - 1 := t];
      ReplaceKeepsOthers(rows[1..], i - 1, t, other);
    }
  }

  /** Removing a row of owner `u` leaves every other user's view unchanged. */
  lemma RemoveKeepsOthers(rows: seq<Task>, i: nat, other: UserId)
    requires i < |rows| && rows[i].userId != other
    ensures OwnedBy(RemoveAt(rows, i), other) == OwnedBy(rows, other)
  {
    assert rows == rows[..i] + ([rows[i]] + rows[i + 1..]);
    OwnedByAppend(rows[..i], [rows[i]] + rows[i + 1..], other);
    OwnedByAppend([rows[i]], rows[i + 1..], other);
    OwnedByAppend(rows[..i], rows[i + 1..], other);
  }

  /** Appending a row of owner `u` leaves every other user's view unchanged. */
  lemma AppendKeepsOthers(rows: seq<Task>, t: Task, other: UserId)
    requires t.userId != other
    ensures OwnedBy(rows + [t], other) == OwnedBy(rows, other)
  {
    OwnedByAppend(rows, [t], other);
  }

  /** The lookup answers the same on the whole table as on the caller's own
      rows: other users' rows can never be selected. */
  lemma {:induction false} FindOwnedSeesOnlyOwner(rows: seq<Task>, userId: UserId, id: TaskId)
    ensures FindOwned(rows, userId, id).None? <==> FindOwned(OwnedBy(rows, userId), userId, id).None?
    ensures FindOwned(rows, userId, id).Some? ==>
      rows[FindOwned(rows, userId, id).value]
        == OwnedBy(rows, userId)[FindOwned(OwnedBy(rows, userId), userId, id).value]
    decreases |rows|
  {
    if rows != [] {
      FindOwnedSeesOnlyOwner(rows[1..], userId, id);
    }
  }

  /** With unique ids, no row carries the id of a removed row. */
  lemma RemovedIdIsGone(rows: seq<Task>, i: nat, userId: UserId)
    requires UniqueIds(rows) && i < |rows|
    ensures FindOwned(RemoveAt(rows, i), userId, rows[i].id).None?
    ensures UniqueIds(RemoveAt(rows, i))
  {
    var r := RemoveAt(rows, i);
    forall k | 0 <= k < |r|
      ensures r[k].id != rows[i].id
    {
      if k < i { assert r[k] == rows[k]; } else { assert r[k] == rows[k + 1]; }
    }
  }
}

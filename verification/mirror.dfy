/**
 * How the dashboard widgets mirror a table through its realtime channel: an
 * INSERT event puts the new row in front of the local list (the "recent"
 * widgets then keep only the first five rows), a DELETE event removes every
 * row carrying the deleted id, and any other event leaves the list alone.
 * Rows are generic; `key` reads a row's `id`.
 */
module Mirror {
  import opened Base
  import opened Lists

  /** The event types a `postgres_changes` subscription delivers. */
  datatype Change<T> = Inserted(row: T) | Deleted(id: string) | Updated

  /** The number of rows the recent-items widgets keep. */
  const RecentCap: nat := 5

  /** `rows.filter(r => r.id !== id)` */
  function WithoutId<T(!new)>(rows: seq<T>, id: string, key: T -> string): (r: seq<T>)
    ensures forall x :: x in r <==> x in rows && key(x) != id
    ensures |r| <= |rows|
    ensures (forall i :: 0 <= i < |rows| ==> key(rows[i]) != id) ==> r == rows
  {
    FilterMembers(rows, x => key(x) != id);
    FilterLength(rows, x => key(x) != id);
    Filter(rows, x => key(x) != id)
  }

  /** `rows.slice(0, cap)` */
  function Take<T>(rows: seq<T>, cap: nat): (r: seq<T>)
    ensures |r| == if |rows| <= cap then |rows| else cap
    ensures r == rows[..|r|]
  {
    if |rows| <= cap then rows else rows[..cap]
  }

  /** One event applied to the local list; `cap` is the widget's length cap,
      `None` for the uncapped file list. */
  function Apply<T(!new)>(rows: seq<T>, ch: Change<T>, key: T -> string, cap: Option<nat>): (r: seq<T>)
  {
    match ch
    case Inserted(row) => if cap.Some? then Take([row] + rows, cap.value) else [row] + rows
    case Deleted(id) => WithoutId(rows, id, key)
    case Updated => rows
  }

  /** A run of events applied in order. */
  function Replay<T(!new)>(rows: seq<T>, chs: seq<Change<T>>, key: T -> string, cap: Option<nat>): seq<T>
    decreases |chs|
  {
    if chs == [] then rows else Replay(Apply(rows, chs[0], key, cap), chs[1..], key, cap)
  }

  /** An insert puts the new row first and keeps the old rows, in order, behind
      it: all of them without a cap, as many as fit under a cap. */
  lemma InsertSpec<T(!new)>(rows: seq<T>, row: T, key: T -> string, cap: Option<nat>)
    requires cap.None? || cap.value > 0
    ensures var r := Apply(rows, Inserted(row), key, cap);
      && r != [] && r[0] == row
      && (cap.None? ==> r[1..] == rows && |r| == |rows| + 1)
      && (cap.Some? ==> |r| == if |rows| + 1 <= cap.value then |rows| + 1 else cap.value)
      && r[1..] == rows[..|r| - 1]
  {
    var r := Apply(rows, Inserted(row), key, cap);
    assert r[1..] == ([row] + rows)[1..|r|];
  }

  /** A delete keeps exactly the rows with another id, in their order, and an
      unknown id changes nothing. */
  lemma DeleteSpec<T(!new)>(rows: seq<T>, id: string, key: T -> string, cap: Option<nat>, a: seq<T>, b: seq<T>)
    requires rows == a + b
    ensures var r := Apply(rows, Deleted(id), key, cap);
      && (forall x :: x in r <==> x in rows && key(x) != id)
      && r == WithoutId(a, id, key) + WithoutId(b, id, key)
      && ((forall i :: 0 <= i < |rows| ==> key(rows[i]) != id) ==> r == rows)
  {
    FilterAppend(a, b, x => key(x) != id);
  }

  /** Deleting the same id twice is deleting it once. */
  lemma DeleteIdempotent<T(!new)>(rows: seq<T>, id: string, key: T -> string)
    ensures WithoutId(WithoutId(rows, id, key), id, key) == WithoutId(rows, id, key)
  {
    FilterIdempotent(rows, x => key(x) != id);
  }

  /** Under a cap, no event lengthens a list past the cap once it is within it. */
  lemma ApplyBounded<T(!new)>(rows: seq<T>, ch: Change<T>, key: T -> string, cap: nat)
    requires |rows| <= cap
    ensures |Apply(rows, ch, key, Some(cap))| <= cap
  {
  }

  /** A capped list stays within its cap through any run of events. */
  lemma {:induction false} ReplayBounded<T(!new)>(rows: seq<T>, chs: seq<Change<T>>, key: T -> string, cap: nat)
    requires |rows| <= cap
    ensures |Replay(rows, chs, key, Some(cap))| <= cap
    decreases |chs|
  {
    if chs != [] {
      ApplyBounded(rows, chs[0], key, cap);
      ReplayBounded(Apply(rows, chs[0], key, Some(cap)), chs[1..], key, cap);
    }
  }

  /** A row whose id was deleted is gone for good unless a later insert
      brings a row with that id back. */
  lemma {:induction false} DeletedStaysDeleted<T(!new)>(rows: seq<T>, id: string, chs: seq<Change<T>>,
                                                  key: T -> string, cap: Option<nat>)
    requires forall i :: 0 <= i < |chs| ==> chs[i].Inserted? ==> key(chs[i].row) != id
    ensures forall x :: x in Replay(WithoutId(rows, id, key), chs, key, cap) ==> key(x) != id
    decreases |chs|
  {
    if chs != [] {
      var next := Apply(WithoutId(rows, id, key), chs[0], key, cap);
      assert forall x :: x in next ==> key(x) != id by {
        match chs[0]
        case Inserted(row) =>
          assert forall x :: x in next ==> x in [row] + WithoutId(rows, id, key);
        case Deleted(d) =>
        case Updated =>
      }
      assert WithoutId(next, id, key) == next;
      DeletedStaysDeleted(next, id, chs[1..], key, cap);
    }
  }
}

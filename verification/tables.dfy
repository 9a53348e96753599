/**
  Id-keyed tables: the storage shape shared by the five tables of the game
  database. A table is a map from row id to row plus the next id to hand out;
  ids are allocated in increasing order starting at 1 and never reused, as for
  an SQLite `INTEGER PRIMARY KEY` column in a table without deletions.

  Queries scan ids in ascending order, which fixes the row a `fetchone` sees
  and the order of an `ORDER BY id` listing.
 */
module Tables {

  datatype Option<+T> = None | Some(value: T)

  datatype TableData<T> = TableData(rows: map<int, T>, next: int)

  /** Every stored id lies below the next id to be allocated, and ids start at 1. */
  type Table<T> = t: TableData<T> | 1 <= t.next && forall id :: id in t.rows ==> 1 <= id < t.next
    witness TableData(map[], 1)

  function Empty<T>(): (t: Table<T>)
    ensures t.rows == map[]
  {
    TableData(map[], 1)
  }

  /** Appends a row under a fresh id, larger than every id already stored. */
  function Insert<T>(t: Table<T>, row: T): (r: (Table<T>, int))
    ensures r.1 !in t.rows
    ensures forall id :: id in t.rows ==> id < r.1
    ensures r.0.rows == t.rows[r.1 := row]
  {
    (TableData(t.rows[t.next := row], t.next + 1), t.next)
  }

  /** Overwrites an existing row; the set of ids does not change. */
  function Update<T>(t: Table<T>, id: int, row: T): (r: Table<T>)
    requires id in t.rows
    ensures r.rows.Keys == t.rows.Keys
    ensures r.rows == t.rows[id := row]
  {
    TableData(t.rows[id := row], t.next)
  }

  /** The row with the smallest id at or above `from` that satisfies `p`. */
  function FindFrom<T>(t: Table<T>, p: T -> bool, from: int): (r: Option<int>)
    requires 0 <= from
    ensures r.Some? ==> r.value in t.rows && from <= r.value && p(t.rows[r.value])
    ensures r.Some? ==> forall id :: id in t.rows && from <= id < r.value ==> !p(t.rows[id])
    ensures r.None? ==> forall id :: id in t.rows && from <= id ==> !p(t.rows[id])
    decreases t.next - from
  {
    if t.next <= from then None
    else if from in t.rows && p(t.rows[from]) then Some(from)
    else FindFrom(t, p, from + 1)
  }

  /** The matching row with the smallest id: what `fetchone` returns for a `WHERE` query. */
  function FindFirst<T>(t: Table<T>, p: T -> bool): (r: Option<int>)
    ensures r.Some? ==> r.value in t.rows && p(t.rows[r.value])
    ensures r.Some? ==> forall id :: id in t.rows && id < r.value ==> !p(t.rows[id])
    ensures r.None? ==> forall id :: id in t.rows ==> !p(t.rows[id])
  {
    FindFrom(t, p, 0)
  }

  /** The row with the largest id below `upto` that satisfies `p`. */
  function FindBelow<T>(t: Table<T>, p: T -> bool, upto: int): (r: Option<int>)
    requires upto <= t.next
    ensures r.Some? ==> r.value in t.rows && r.value < upto && p(t.rows[r.value])
    ensures r.Some? ==> forall id :: id in t.rows && r.value < id < upto ==> !p(t.rows[id])
    ensures r.None? ==> forall id :: id in t.rows && id < upto ==> !p(t.rows[id])
    decreases upto
  {
    if upto <= 0 then None
    else if upto - 1 in t.rows && p(t.rows[upto - 1]) then Some(upto - 1)
    else FindBelow(t, p, upto - 1)
  }

  /** The matching row with the largest id: what `ORDER BY id DESC LIMIT 1` returns. */
  function FindLast<T>(t: Table<T>, p: T -> bool): (r: Option<int>)
    ensures r.Some? ==> r.value in t.rows && p(t.rows[r.value])
    ensures r.Some? ==> forall id :: id in t.rows && r.value < id ==> !p(t.rows[id])
    ensures r.None? ==> forall id :: id in t.rows ==> !p(t.rows[id])
  {
    FindBelow(t, p, t.next)
  }

  predicate StrictlyIncreasing(ids: seq<int>)
  {
    forall i, j :: 0 <= i < j < |ids| ==> ids[i] < ids[j]
  }

  /** The ids at or above `from` of all rows satisfying `p`, in ascending order. */
  function SelectFrom<T>(t: Table<T>, p: T -> bool, from: int): (ids: seq<int>)
    requires 0 <= from
    ensures StrictlyIncreasing(ids)
    ensures forall i :: 0 <= i < |ids| ==> ids[i] in t.rows && from <= ids[i] && p(t.rows[ids[i]])
    ensures forall id :: id in t.rows && from <= id && p(t.rows[id]) ==> id in ids
    decreases t.next - from
  {
    if t.next <= from then []
    else
      var rest := SelectFrom(t, p, from + 1);
      if from in t.rows && p(t.rows[from]) then [from] + rest else rest
  }

  /** All matching ids in ascending order: a `WHERE … ORDER BY id ASC` listing. */
  function Select<T>(t: Table<T>, p: T -> bool): (ids: seq<int>)
    ensures StrictlyIncreasing(ids)
    ensures forall i :: 0 <= i < |ids| ==> ids[i] in t.rows && p(t.rows[ids[i]])
    ensures forall id :: id in t.rows && p(t.rows[id]) ==> id in ids
  {
    SelectFrom(t, p, 0)
  }
}

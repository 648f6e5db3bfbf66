/**
 * A relational table as the handlers see it: rows in storage order, each with an
 * integer primary key that is larger than every key before it. The queries the source
 * issues become functions on the row sequence; INSERT, UPDATE and DELETE are methods
 * of the `Table` class.
 */
module Store {
  import opened Wrappers
  import Seqs

  datatype Row<T> = Row(id: nat, data: T)

  predicate IdsIncreasing<T>(rows: seq<Row<T>>) {
    forall i, j :: 0 <= i < j < |rows| ==> rows[i].id < rows[j].id
  }

  predicate HasId<T>(rows: seq<Row<T>>, id: nat) {
    exists i :: 0 <= i < |rows| && rows[i].id == id
  }

  /** Row `i` has the largest id of the table. */
  predicate IsLatest<T>(rows: seq<Row<T>>, i: int) {
    0 <= i < |rows| && forall j :: 0 <= j < |rows| ==> rows[j].id <= rows[i].id
  }

  /** `SELECT * FROM t ORDER BY id DESC LIMIT 1`: the row with the largest id, if any. */
  function Latest<T>(rows: seq<Row<T>>): (r: Option<Row<T>>)
    ensures r.None? <==> rows == []
    ensures r.Some? ==> r.value in rows
    ensures r.Some? ==> forall i :: 0 <= i < |rows| ==> rows[i].id <= r.value.id
  {
    if rows == [] then None
    else
      var rest := Latest(rows[1..]);
      if rest.Some? && rest.value.id >= rows[0].id then rest else Some(rows[0])
  }

  /** `SELECT * FROM t LIMIT 1` without ORDER BY: the first row in storage order. */
  function First<T>(rows: seq<Row<T>>): (r: Option<Row<T>>)
    ensures r.None? <==> rows == []
    ensures r.Some? ==> r.value == rows[0]
  {
    if rows == [] then None else Some(rows[0])
  }

  /** Because keys only grow, the newest row is the last one stored. */
  lemma {:induction false} LatestIsLast<T>(rows: seq<Row<T>>)
    requires IdsIncreasing(rows)
    requires rows != []
    ensures Latest(rows) == Some(rows[|rows| - 1])
  {
    if |rows| > 1 {
      LatestIsLast(rows[1..]);
      assert rows[1..][|rows| - 2] == rows[|rows| - 1];
    }
  }

  /** `SELECT * FROM t WHERE id = ?` followed by `.first()`. */
  function FindById<T>(rows: seq<Row<T>>, id: nat): (r: Option<Row<T>>)
    ensures r.None? <==> !HasId(rows, id)
    ensures r.Some? ==> r.value in rows && r.value.id == id
  {
    if rows == [] then None
    else if rows[0].id == id then Some(rows[0])
    else
      var r := FindById(rows[1..], id);
      assert HasId(rows[1..], id) ==> HasId(rows, id);
      assert HasId(rows, id) ==> HasId(rows[1..], id);
      r
  }

  /** `UPDATE t SET ... WHERE id = ?`: every row with that key takes the new data; nothing else changes. */
  function UpdateById<T>(rows: seq<Row<T>>, id: nat, data: T): (r: seq<Row<T>>)
    ensures |r| == |rows|
    ensures forall i :: 0 <= i < |rows| ==> r[i].id == rows[i].id
    ensures forall i :: 0 <= i < |rows| ==> r[i].data == if rows[i].id == id then data else rows[i].data
  {
    seq(|rows|, i requires 0 <= i < |rows| => if rows[i].id == id then Row(id, data) else rows[i])
  }

  /** `DELETE FROM t WHERE id = ?`. */
  function DeleteById<T>(rows: seq<Row<T>>, id: nat): seq<Row<T>> {
    Seqs.Filter(rows, (r: Row<T>) => r.id != id)
  }

  /** Deleting removes the row with that key, keeps every other row, and keeps their order. */
  lemma DeleteByIdSpec<T>(rows: seq<Row<T>>, id: nat)
    ensures !HasId(DeleteById(rows, id), id)
    ensures forall i :: 0 <= i < |rows| && rows[i].id != id ==> rows[i] in DeleteById(rows, id)
    ensures forall r :: r in DeleteById(rows, id) ==> r in rows
    ensures !HasId(rows, id) ==> DeleteById(rows, id) == rows
  {
    var d := DeleteById(rows, id);
    assert forall i :: 0 <= i < |d| ==> d[i].id != id;
    if !HasId(rows, id) {
      Seqs.FilterAll(rows, (r: Row<T>) => r.id != id);
    }
  }

  /** Deleting keeps keys increasing. */
  lemma {:induction false} DeleteKeepsIdsIncreasing<T>(rows: seq<Row<T>>, id: nat)
    requires IdsIncreasing(rows)
    ensures IdsIncreasing(DeleteById(rows, id))
  {
    if rows != [] {
      DeleteKeepsIdsIncreasing(rows[1..], id);
      var rest := DeleteById(rows[1..], id);
      forall k | 0 <= k < |rest| ensures rows[0].id < rest[k].id {
        assert rest[k] in rows[1..];
      }
    }
  }

  class Table<T> {
    var rows: seq<Row<T>>
    /** The key the next INSERT receives. */
    var nextId: nat

    ghost predicate Valid()
      reads this
    {
      && IdsIncreasing(rows)
      && (forall i :: 0 <= i < |rows| ==> rows[i].id < nextId)
    }

    constructor ()
      ensures Valid() && rows == []
    {
      rows := [];
      nextId := 1;
    }

    /** `INSERT INTO t (...) VALUES (...)`: appends one row under a fresh, larger key. */
    method Insert(data: T) returns (id: nat)
      requires Valid()
      modifies this
      ensures Valid()
      ensures id == old(nextId) && !HasId(old(rows), id)
      ensures rows == old(rows) + [Row(id, data)]
    {
      id := nextId;
      rows := rows + [Row(id, data)];
      nextId := nextId + 1;
    }

    method Update(id: nat, data: T)
      requires Valid()
      modifies this
      ensures Valid() && nextId == old(nextId)
      ensures rows == UpdateById(old(rows), id, data)
    {
      rows := UpdateById(rows, id, data);
    }

    method Delete(id: nat)
      requires Valid()
      modifies this
      ensures Valid() && nextId == old(nextId)
      ensures rows == DeleteById(old(rows), id)
    {
      DeleteKeepsIdsIncreasing(rows, id);
      DeleteByIdSpec(rows, id);
      rows := DeleteById(rows, id);
    }
  }
}

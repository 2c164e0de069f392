/**
 * A database table: rows keyed by their auto-increment primary key.  `next` is
 * the id the next insert receives; ids start at 1, as the database's
 * auto-increment columns do.
 */
module Tables {
  import opened Outcomes

  datatype Table<T> = Table(rows: map<nat, T>, next: nat) {

    /** Every stored id was handed out before `next`, and none is 0. */
    ghost predicate Valid() {
      0 < next && forall id :: id in rows ==> 0 < id < next
    }

    /** Inserts `v` under a fresh id; returns the table and the id used. */
    function Insert(v: T): (r: (Table<T>, nat))
      requires Valid()
      ensures r.0.Valid() && r.1 !in rows && r.1 > 0
      ensures r.1 == next && r.0.next == next + 1
      ensures r.0.rows == rows[r.1 := v]
    {
      (Table(rows[next := v], next + 1), next)
    }

    /** A batch insert: `vs[i]` receives id `next + i`, in order. */
    function InsertAll(vs: seq<T>): (r: Table<T>)
      requires Valid()
      ensures r.Valid() && r.next == next + |vs|
      ensures forall id :: id in r.rows <==> id in rows || next <= id < next + |vs|
      ensures forall id :: id in rows ==> r.rows[id] == rows[id]
      ensures forall i :: 0 <= i < |vs| ==> r.rows[next + i] == vs[i]
      decreases |vs|
    {
      if vs == [] then this
      else InsertAll(vs[..|vs| - 1]).Insert(vs[|vs| - 1]).0
    }

    /** Overwrites the row `id` (a `Save` or an `Updates` on one row). */
    function Put(id: nat, v: T): (r: Table<T>)
      requires Valid() && id in rows
      ensures r.Valid() && r.next == next && r.rows == rows[id := v]
    {
      Table(rows[id := v], next)
    }

    /** Deletes the rows `ids`; ids are never handed out again. */
    function Delete(ids: set<nat>): (r: Table<T>)
      requires Valid()
      ensures r.Valid() && r.next == next && r.rows == rows - ids
    {
      Table(rows - ids, next)
    }
  }

  function EmptyTable<T>(): (t: Table<T>)
    ensures t.Valid() && t.rows == map[]
  {
    Table(map[], 1)
  }

  /** The `First(&row, "... = ?")` lookup: some row satisfying `p`, or None. */
  method FindWhere<T>(rows: map<nat, T>, p: T -> bool) returns (r: Option<nat>)
    ensures r.Some? ==> r.value in rows && p(rows[r.value])
    ensures r.None? ==> forall id :: id in rows ==> !p(rows[id])
  {
    if exists id :: id in rows && p(rows[id]) {
      var id :| id in rows && p(rows[id]);
      r := Some(id);
    } else {
      r := None;
    }
  }

  /** Ids of all rows satisfying `p`. */
  function IdsWhere<T>(rows: map<nat, T>, p: T -> bool): (ids: set<nat>)
    ensures forall id :: id in ids <==> id in rows && p(rows[id])
  {
    set id | id in rows && p(rows[id])
  }

  /**
   * The `Find(&rows)` query: the ids of all rows satisfying `p`, each once, in
   * an order the model leaves open (the query states no ORDER BY).
   */
  method FindAll<T>(rows: map<nat, T>, p: T -> bool) returns (ids: seq<nat>)
    ensures forall id :: id in ids <==> id in rows && p(rows[id])
    ensures forall i, j :: 0 <= i < j < |ids| ==> ids[i] != ids[j]
  {
    ids := [];
    var pending := IdsWhere(rows, p);
    while pending != {}
      invariant forall id :: id in ids || id in pending <==> id in rows && p(rows[id])
      invariant forall id :: id in ids ==> id !in pending
      invariant forall i, j :: 0 <= i < j < |ids| ==> ids[i] != ids[j]
      decreases |pending|
    {
      var id :| id in pending;
      ids := ids + [id];
      pending := pending - {id};
    }
  }
}

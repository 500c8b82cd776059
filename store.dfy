/**
 * The relational store the CRUD layer writes into: five tables of rows, each
 * row carrying the integer id the store assigned on insert.
 *
 * A table is a sequence of rows in ascending id order (SQLite's rowid order);
 * an insert takes the next id after the largest one, as SQLite does for an
 * `INTEGER PRIMARY KEY` column.
 */
module Store {
  import opened Wrappers
  import opened Values

  datatype Row<T> = Row(id: nat, data: T)

  type Rows<T> = seq<Row<T>>

  /** Ids are positive and strictly ascending, so each id names at most one row. */
  predicate ValidRows<T>(rows: Rows<T>) {
    (forall i :: 0 <= i < |rows| ==> rows[i].id >= 1)
    && forall i, j :: 0 <= i < j < |rows| ==> rows[i].id < rows[j].id
  }

  function Ids<T>(rows: Rows<T>): (ids: seq<nat>)
    ensures |ids| == |rows| && forall i :: 0 <= i < |rows| ==> ids[i] == rows[i].id
  {
    seq(|rows|, i requires 0 <= i < |rows| => rows[i].id)
  }

  /** The id the next insert receives: one past the largest id. */
  function NextId<T>(rows: Rows<T>): (id: nat)
    requires ValidRows(rows)
    ensures id >= 1
    ensures forall i :: 0 <= i < |rows| ==> rows[i].id < id
  {
    if rows == [] then 1 else rows[|rows| - 1].id + 1
  }

  /** `INSERT`: the new row goes last, with a fresh id. */
  function Insert<T>(rows: Rows<T>, data: T): (r: Rows<T>)
    requires ValidRows(rows)
    ensures ValidRows(r)
    ensures |r| == |rows| + 1 && r[..|rows|] == rows && r[|rows|] == Row(NextId(rows), data)
  {
    rows + [Row(NextId(rows), data)]
  }

  /** `SELECT ... WHERE id = ?` */
  function Find<T>(rows: Rows<T>, id: int): (r: Option<T>)
    ensures r.Some? <==> exists i :: 0 <= i < |rows| && rows[i].id == id
    ensures r.Some? ==> Row(id as nat, r.value) in rows
  {
    if rows == [] then None
    else if rows[0].id == id then Some(rows[0].data)
    else Find(rows[1..], id)
  }

  /** `UPDATE ... WHERE id = ?`: the row with that id gets `data`; no other row changes. */
  function Update<T>(rows: Rows<T>, id: int, data: T): (r: Rows<T>)
    ensures |r| == |rows| && Ids(r) == Ids(rows)
    ensures forall i :: 0 <= i < |rows| ==> r[i] == if rows[i].id == id then Row(rows[i].id, data) else rows[i]
  {
    seq(|rows|, i requires 0 <= i < |rows| => if rows[i].id == id then Row(rows[i].id, data) else rows[i])
  }

  /** `DELETE ... WHERE id = ?`: every other row stays, in order. */
  function Delete<T>(rows: Rows<T>, id: int): (r: Rows<T>)
    ensures |r| <= |rows|
    ensures forall i :: 0 <= i < |r| ==> r[i].id != id
  {
    if rows == [] then []
    else if rows[0].id == id then Delete(rows[1..], id)
    else [rows[0]] + Delete(rows[1..], id)
  }

  /** What `Delete` keeps is exactly the rows with another id. */
  lemma {:induction false} DeleteKeepsOthers<T>(rows: Rows<T>, id: int)
    ensures forall x :: x in Delete(rows, id) <==> x in rows && x.id != id
  {
    if rows != [] {
      DeleteKeepsOthers(rows[1..], id);
      assert forall x :: x in rows <==> x == rows[0] || x in rows[1..];
    }
  }

  /** Deleting keeps every id bound that held before. */
  lemma {:induction false} DeleteIdsAbove<T>(rows: Rows<T>, id: int, lo: int)
    requires forall i :: 0 <= i < |rows| ==> rows[i].id > lo
    ensures forall i :: 0 <= i < |Delete(rows, id)| ==> Delete(rows, id)[i].id > lo
  {
    if rows != [] {
      DeleteIdsAbove(rows[1..], id, lo);
    }
  }

  lemma {:induction false} DeleteKeepsValid<T>(rows: Rows<T>, id: int)
    requires ValidRows(rows)
    ensures ValidRows(Delete(rows, id))
  {
    if rows != [] {
      var rest := rows[1..];
      assert ValidRows(rest);
      DeleteKeepsValid(rest, id);
      DeleteIdsAbove(rest, id, rows[0].id);
      DeleteIdsAbove(rest, id, 0);
      if rows[0].id != id {
        var d := Delete(rows, id);
        var e := Delete(rest, id);
        assert d == [rows[0]] + e;
        forall i, j | 0 <= i < j < |d| ensures d[i].id < d[j].id {
          if i > 0 { assert d[i] == e[i - 1] && d[j] == e[j - 1]; }
          else { assert d[j] == e[j - 1]; }
        }
      }
    }
  }

  lemma DeletedIdGone<T>(rows: Rows<T>, id: int)
    ensures Find(Delete(rows, id), id).None?
  {
  }

  /** Deleting an id no row carries changes nothing. */
  lemma {:induction false} DeleteAbsent<T>(rows: Rows<T>, id: int)
    requires Find(rows, id).None?
    ensures Delete(rows, id) == rows
  {
    if rows != [] {
      DeleteAbsent(rows[1..], id);
    }
  }

  /** With unique ids, deleting a present id removes exactly one row. */
  lemma {:induction false} DeletePresent<T>(rows: Rows<T>, id: int)
    requires ValidRows(rows) && Find(rows, id).Some?
    ensures |Delete(rows, id)| == |rows| - 1
  {
    assert ValidRows(rows[1..]);
    if rows[0].id == id {
      forall i | 0 <= i < |rows[1..]| ensures rows[1..][i].id != id {
        assert rows[1..][i] == rows[i + 1];
      }
      DeleteAbsent(rows[1..], id);
    } else {
      DeletePresent(rows[1..], id);
    }
  }

  lemma {:induction false} DeleteAppend<T>(rows: Rows<T>, more: Rows<T>, id: int)
    ensures Delete(rows + more, id) == Delete(rows, id) + Delete(more, id)
  {
    if rows == [] {
      assert rows + more == more;
    } else {
      assert (rows + more)[1..] == rows[1..] + more;
      DeleteAppend(rows[1..], more, id);
      if rows[0].id != id {
        assert Delete(rows, id) == [rows[0]] + Delete(rows[1..], id);
      }
    }
  }

  /** Deleting the row an insert just added gives back the table as it was. */
  lemma DeleteInserted<T>(rows: Rows<T>, data: T)
    requires ValidRows(rows)
    ensures Delete(Insert(rows, data), NextId(rows)) == rows
  {
    var x := Row(NextId(rows), data);
    DeleteAppend(rows, [x], NextId(rows));
    assert Find(rows, NextId(rows)).None?;
    DeleteAbsent(rows, NextId(rows));
    assert Delete([x], NextId(rows)) == [];
  }

  /** The ids of the rows whose data satisfies `p`, in table order. */
  function IdsWhere<T>(rows: Rows<T>, p: T -> bool): (ids: seq<nat>)
    ensures |ids| <= |rows|
    ensures forall i :: 0 <= i < |rows| && p(rows[i].data) ==> rows[i].id in ids
  {
    if rows == [] then []
    else if p(rows[0].data) then [rows[0].id] + IdsWhere(rows[1..], p)
    else IdsWhere(rows[1..], p)
  }

  /** Some row of the table has id `id` and data satisfying `p`. */
  predicate HasRowWhere<T>(rows: Rows<T>, id: int, p: T -> bool) {
    exists i :: 0 <= i < |rows| && rows[i].id == id && p(rows[i].data)
  }

  /** Every selected id belongs to a row whose data satisfies `p`: `i` is that row's position. */
  lemma {:induction false} IdsWhereSound<T>(rows: Rows<T>, p: T -> bool, k: nat) returns (i: nat)
    requires k < |IdsWhere(rows, p)|
    ensures i < |rows| && rows[i].id == IdsWhere(rows, p)[k] && p(rows[i].data)
  {
    var tail := rows[1..];
    var ids, rest := IdsWhere(rows, p), IdsWhere(tail, p);
    assert ids == if p(rows[0].data) then [rows[0].id] + rest else rest;
    if p(rows[0].data) && k == 0 {
      i := 0;
    } else {
      var j := if p(rows[0].data) then k - 1 else k;
      assert ids[k] == rest[j];
      var i' := IdsWhereSound(tail, p, j);
      assert tail[i'] == rows[i' + 1];
      i := i' + 1;
    }
  }

  /** Every selected id is above any bound that all the row ids are above. */
  lemma {:induction false} IdsWhereAbove<T>(rows: Rows<T>, p: T -> bool, lo: int)
    requires forall i :: 0 <= i < |rows| ==> rows[i].id > lo
    ensures forall k :: 0 <= k < |IdsWhere(rows, p)| ==> IdsWhere(rows, p)[k] > lo
  {
    if rows != [] {
      IdsWhereAbove(rows[1..], p, lo);
    }
  }

  /** Over a table with ascending ids the selected ids ascend too. */
  lemma {:induction false} IdsWhereAscending<T>(rows: Rows<T>, p: T -> bool, a: nat, b: nat)
    requires ValidRows(rows) && a < b < |IdsWhere(rows, p)|
    ensures IdsWhere(rows, p)[a] < IdsWhere(rows, p)[b]
  {
    var tail := rows[1..];
    assert ValidRows(tail);
    var ids, rest := IdsWhere(rows, p), IdsWhere(tail, p);
    if p(rows[0].data) {
      assert ids == [rows[0].id] + rest;
      assert ids[b] == rest[b - 1];
      if a == 0 {
        IdsWhereAbove(tail, p, rows[0].id);
      } else {
        assert ids[a] == rest[a - 1];
        IdsWhereAscending(tail, p, a - 1, b - 1);
      }
    } else {
      assert ids == rest;
      IdsWhereAscending(tail, p, a, b);
    }
  }

  /** With ascending ids, the row found for an id is the row at that id's position. */
  lemma FindAt<T>(rows: Rows<T>, i: nat)
    requires ValidRows(rows) && i < |rows|
    ensures Find(rows, rows[i].id) == Some(rows[i].data)
  {
    if i > 0 {
      assert ValidRows(rows[1..]);
      FindAt(rows[1..], i - 1);
    }
  }

  /** After an update the id reads back the new data; other ids read as before. */
  lemma FindUpdate<T>(rows: Rows<T>, id: int, data: T, other: int)
    ensures Find(Update(rows, id, data), other)
      == if other == id && Find(rows, id).Some? then Some(data) else Find(rows, other)
  {
    if rows != [] {
      var u := Update(rows, id, data);
      assert u[1..] == Update(rows[1..], id, data);
      FindUpdate(rows[1..], id, data, other);
    }
  }

  lemma UpdateKeepsValid<T>(rows: Rows<T>, id: int, data: T)
    requires ValidRows(rows)
    ensures ValidRows(Update(rows, id, data))
  {
  }

  /** After an insert the new id reads back the inserted data; older ids are unchanged. */
  lemma {:induction false} FindInsert<T>(rows: Rows<T>, data: T, other: int)
    requires ValidRows(rows)
    ensures Find(Insert(rows, data), other)
      == if other == NextId(rows) then Some(data) else Find(rows, other)
    decreases |rows|
  {
    var r := Insert(rows, data);
    if rows == [] {
    } else if rows[0].id == other {
    } else if |rows| == 1 {
      assert r[1..] == [Row(NextId(rows), data)];
      assert rows[1..] == [];
    } else {
      assert r[1..] == Insert(rows[1..], data);
      FindInsert(rows[1..], data, other);
    }
  }

  // ---------------------------------------------------------------------
  // The five tables

  /** A category row: `limit_amount` may be NULL; `type` is 0 (variable) or 1 (fixed). */
  datatype Category = Category(name: string, limitAmount: Option<real>, kind: int, currency: string)

  datatype Wallet = Wallet(name: string, amount: real, currency: string)

  datatype Expense = Expense(
    name: string, categoryId: Option<int>, cost: real, date: string,
    description: Option<string>, walletId: Option<int>)

  datatype Goal = Goal(
    name: string, amountToReach: real, amountReached: real, categoryId: Option<int>,
    currency: string, completed: bool, startDate: Option<string>, endDate: Option<string>)

  /** A profile row, column name to value; a column it lacks holds NULL. */
  type Profile = map<string, Value>

  /**
   * The whole store: the rows of every table, the columns the profile table
   * has, the DEFAULT each of them was declared with (a column missing from
   * `profileDefaults` has none, so an INSERT leaves it NULL) and the tables
   * that exist.
   */
  datatype Snapshot = Snapshot(
    categories: Rows<Category>,
    wallets: Rows<Wallet>,
    expenses: Rows<Expense>,
    goals: Rows<Goal>,
    profiles: Rows<Profile>,
    profileColumns: set<string>,
    profileDefaults: Profile,
    tables: set<string>)

  /** `category.name` is UNIQUE. */
  predicate UniqueNames(rows: Rows<Category>) {
    forall i, j :: 0 <= i < j < |rows| ==> rows[i].data.name != rows[j].data.name
  }

  predicate ValidSnapshot(s: Snapshot) {
    ValidRows(s.categories) && ValidRows(s.wallets) && ValidRows(s.expenses)
    && ValidRows(s.goals) && ValidRows(s.profiles) && UniqueNames(s.categories)
  }

  /** The store as a mutable object, one field per table. */
  class Database {
    var categories: Rows<Category>
    var wallets: Rows<Wallet>
    var expenses: Rows<Expense>
    var goals: Rows<Goal>
    var profiles: Rows<Profile>
    var profileColumns: set<string>
    var profileDefaults: Profile
    var tables: set<string>

    function Snap(): Snapshot
      reads this
    {
      Snapshot(categories, wallets, expenses, goals, profiles, profileColumns, profileDefaults, tables)
    }

    ghost predicate Valid()
      reads this
    {
      ValidSnapshot(Snap())
    }

    constructor (s: Snapshot)
      ensures Snap() == s
    {
      categories, wallets, expenses, goals, profiles := s.categories, s.wallets, s.expenses, s.goals, s.profiles;
      profileColumns, profileDefaults, tables := s.profileColumns, s.profileDefaults, s.tables;
    }
  }
}

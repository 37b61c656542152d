/** The part of PHP's mysqli interface whose state matters: a result set is read through a
    cursor that only moves forward. */
module Mysqli {
  import opened Relational

  class ResultSet<T> {
    const rows: seq<T>
    var next: nat

    ghost predicate Valid()
      reads this
    {
      next <= |rows|
    }

    constructor (rows: seq<T>)
      ensures Valid() && this.rows == rows && next == 0
    {
      this.rows := rows;
      next := 0;
    }

    /** `mysqli_fetch_array`: the next row, or null once the rows are used up. */
    method Fetch() returns (row: Option<T>)
      requires Valid()
      modifies this
      ensures Valid()
      ensures old(next) < |rows| ==> row == Some(rows[old(next)]) && next == old(next) + 1
      ensures old(next) == |rows| ==> row == None && next == old(next)
    {
      if next < |rows| {
        row := Some(rows[next]);
        next := next + 1;
      } else {
        row := None;
      }
    }
  }

  /** The loop with which every reading script copies a query's rows into `$arr`. */
  method FetchAll<T>(result: ResultSet<T>) returns (arr: seq<T>)
    requires result.Valid() && result.next == 0
    modifies result
    ensures arr == result.rows
  {
    arr := [];
    var rowCnt := |result.rows|;
    for i := 0 to rowCnt
      invariant result.Valid() && result.next == i
      invariant arr == result.rows[..i]
    {
      var row := result.Fetch();
      arr := arr + [row.value];
    }
  }

  /** An associative row; a column it lacks reads as null. */
  type Assoc = map<string, int>

  function Field(row: Option<Assoc>, column: string): Option<int> {
    if row.Some? && column in row.value then Some(row.value[column]) else None
  }

  /** The rows that n fetches return when `from` rows are already used up. */
  function Taken<T>(rows: seq<T>, from: nat, n: nat): seq<T>
    requires from <= |rows|
  {
    if n <= |rows| - from then rows[from..from + n] else rows[from..]
  }

  /** Some row has the value in the column. */
  predicate Mentions(rows: seq<Assoc>, column: string, x: int) {
    exists row :: row in rows && Field(Some(row), column) == Some(x)
  }

  /** One more fetch mentions one more value, if the row has the column. */
  lemma NextMention(rows: seq<Assoc>, from: nat, n: nat, column: string, x: int)
    requires from <= |rows|
    ensures Mentions(Taken(rows, from, n + 1), column, x) <==>
            Mentions(Taken(rows, from, n), column, x) ||
            (from + n < |rows| && Field(Some(rows[from + n]), column) == Some(x))
  {
    if from + n < |rows| {
      assert Taken(rows, from, n + 1) == Taken(rows, from, n) + [rows[from + n]];
    } else {
      assert Taken(rows, from, n + 1) == Taken(rows, from, n);
    }
  }

  // ----- loops that delete by a fetched column -----

  /** A row set with one column. */
  function Column<T>(rows: seq<T>, column: string, key: T -> int): seq<Assoc> {
    Map(rows, (x: T) => map[column := key(x)])
  }

  lemma ColumnMentions<T(!new)>(rows: seq<T>, column: string, key: T -> int, x: int)
    ensures Mentions(Column(rows, column, key), column, x) <==> HasKey(rows, key, x)
  {
    var found := Column(rows, column, key);
    if Mentions(found, column, x) {
      var row :| row in found && Field(Some(row), column) == Some(x);
      var i :| 0 <= i < |rows| && found[i] == row;
      assert rows[i] in rows;
    }
    if HasKey(rows, key, x) {
      var r :| r in rows && key(r) == x;
      var i :| 0 <= i < |rows| && rows[i] == r;
      assert found[i] in found && Field(Some(found[i]), column) == Some(x);
    }
  }

  function Unmentioned<T>(rows: seq<Assoc>, column: string, key: T -> int): T -> bool {
    x => !Mentions(rows, column, key(x))
  }

  /** The table without the rows whose key the fetched rows mention. */
  function WithoutMentioned<T(!new)>(table: seq<T>, key: T -> int, rows: seq<Assoc>, column: string): (r: seq<T>)
    ensures forall x :: x in r <==> x in table && !Mentions(rows, column, key(x))
  {
    Filter(table, Unmentioned(rows, column, key))
  }

  /** One more fetch deletes the rows with one more key, if the row has the column. */
  lemma MentionedNext<T(!new)>(table: seq<T>, key: T -> int, rows: seq<Assoc>, column: string, from: nat, n: nat)
    requires from <= |rows|
    ensures var next := if from + n < |rows| then Field(Some(rows[from + n]), column) else None;
            var kept := WithoutMentioned(table, key, Taken(rows, from, n), column);
            WithoutMentioned(table, key, Taken(rows, from, n + 1), column) ==
            if next.Some? then Delete(kept, key, next.value) else kept
  {
    var next := if from + n < |rows| then Field(Some(rows[from + n]), column) else None;
    var before := Unmentioned(Taken(rows, from, n), column, key);
    var after := Unmentioned(Taken(rows, from, n + 1), column, key);
    forall x ensures after(x) <==> before(x) && next != Some(key(x)) {
      NextMention(rows, from, n, column, key(x));
    }
    if next.Some? {
      var other := Not(Having(key, next.value));
      FilterFilter(table, before, other);
      FilterAgree(table, And(before, other), after);
    } else {
      FilterAgree(table, before, after);
    }
  }

  /** Rows without the column delete nothing. */
  lemma NothingMentioned<T(!new)>(table: seq<T>, key: T -> int, rows: seq<Assoc>, column: string)
    requires forall row :: row in rows ==> column !in row
    ensures WithoutMentioned(table, key, rows, column) == table
  {
    FilterAll(table, Unmentioned(rows, column, key));
  }

  /** Fetching from a result set of another column. */
  lemma OtherColumn<T, U(!new)>(source: seq<T>, id: T -> int, other: string, from: nat, n: nat,
                                table: seq<U>, key: U -> int, column: string)
    requires column != other && from <= |source|
    ensures WithoutMentioned(table, key, Taken(Column(source, other, id), from, n), column) == table
  {
    var rows, taken := Column(source, other, id), Taken(Column(source, other, id), from, n);
    forall row | row in taken ensures column !in row {
      var i :| 0 <= i < |taken| && taken[i] == row;
      assert row == rows[from + i];
    }
    NothingMentioned(table, key, taken, column);
  }
}

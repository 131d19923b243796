/** Rows as the migration compares them: projected, sorted by their JSON text, and hashed. */
module MigrationRows {
  datatype Cell = Null | Text(s: string)

  type Row = map<string, Cell>

  function Get(row: Row, column: string): Cell {
    if column in row then row[column] else Null
  }

  function Project(row: Row, columns: seq<string>): seq<Cell> {
    seq(|columns|, i requires 0 <= i < |columns| => Get(row, columns[i]))
  }

  function Projected(rows: seq<Row>, columns: seq<string>): seq<seq<Cell>> {
    seq(|rows|, i requires 0 <= i < |rows| => Project(rows[i], columns))
  }

  ghost predicate Injective<A(!new), B>(f: A -> B) {
    forall x, y :: f(x) == f(y) ==> x == y
  }

  /** Strings by code point. */
  predicate Leq(a: string, b: string) {
    a == "" || (b != "" && (a[0] < b[0] || (a[0] == b[0] && Leq(a[1..], b[1..]))))
  }

  lemma {:induction false} LeqIsOrder(a: string, b: string, c: string)
    ensures Leq(a, b) || Leq(b, a)
    ensures Leq(a, b) && Leq(b, a) ==> a == b
    ensures Leq(a, b) && Leq(b, c) ==> Leq(a, c)
  {
    if a != "" && b != "" && a[0] == b[0] {
      LeqIsOrder(a[1..], b[1..], if c == "" then "" else c[1..]);
      assert a == [a[0]] + a[1..] && b == [b[0]] + b[1..];
    }
  }

  type Json = seq<Cell> -> string

  function InsertRow(row: seq<Cell>, rows: seq<seq<Cell>>, json: Json): seq<seq<Cell>> {
    if rows == [] || Leq(json(row), json(rows[0])) then [row] + rows else [rows[0]] + InsertRow(row, rows[1..], json)
  }

  /** normalized.sort(key=json.dumps). */
  function Sorted(rows: seq<seq<Cell>>, json: Json): seq<seq<Cell>> {
    if rows == [] then [] else InsertRow(rows[0], Sorted(rows[1..], json), json)
  }

  function Canonical(rows: seq<Row>, columns: seq<string>, json: Json): seq<seq<Cell>> {
    Sorted(Projected(rows, columns), json)
  }

  predicate InOrder(rows: seq<seq<Cell>>, json: Json) {
    forall i, j | 0 <= i < j < |rows| :: Leq(json(rows[i]), json(rows[j]))
  }

  lemma {:induction false} InsertRowPermutes(row: seq<Cell>, rows: seq<seq<Cell>>, json: Json)
    ensures multiset(InsertRow(row, rows, json)) == multiset{row} + multiset(rows)
  {
    if rows != [] && !Leq(json(row), json(rows[0])) {
      InsertRowPermutes(row, rows[1..], json);
      assert rows == [rows[0]] + rows[1..];
    }
  }

  lemma {:induction false} InsertRowSorts(row: seq<Cell>, rows: seq<seq<Cell>>, json: Json)
    requires InOrder(rows, json)
    ensures InOrder(InsertRow(row, rows, json), json)
  {
    if rows == [] {
    } else if Leq(json(row), json(rows[0])) {
      forall j | 0 <= j < |rows| ensures Leq(json(row), json(rows[j])) {
        LeqIsOrder(json(row), json(rows[0]), json(rows[j]));
      }
    } else {
      var rest := InsertRow(row, rows[1..], json);
      InsertRowSorts(row, rows[1..], json);
      InsertRowPermutes(row, rows[1..], json);
      forall j | 0 <= j < |rest| ensures Leq(json(rows[0]), json(rest[j])) {
        assert rest[j] in multiset(rest);
        assert rest[j] == row || rest[j] in rows[1..];
        LeqIsOrder(json(row), json(rows[0]), "");
      }
    }
  }

  lemma {:induction false} SortedIsSorted(rows: seq<seq<Cell>>, json: Json)
    ensures InOrder(Sorted(rows, json), json) && multiset(Sorted(rows, json)) == multiset(rows)
  {
    if rows != [] {
      SortedIsSorted(rows[1..], json);
      InsertRowSorts(rows[0], Sorted(rows[1..], json), json);
      InsertRowPermutes(rows[0], Sorted(rows[1..], json), json);
      assert rows == [rows[0]] + rows[1..];
    }
  }

  lemma FirstIsLeast(a: seq<seq<Cell>>, b: seq<seq<Cell>>, json: Json)
    requires InOrder(a, json) && InOrder(b, json) && multiset(a) == multiset(b) && a != [] && b != []
    ensures Leq(json(a[0]), json(b[0]))
  {
    assert b[0] in multiset(a);
    var i :| 0 <= i < |a| && a[i] == b[0];
    LeqIsOrder(json(a[0]), json(a[0]), "");
  }

  lemma FirstsAreEqual(a: seq<seq<Cell>>, b: seq<seq<Cell>>, json: Json)
    requires Injective(json) && InOrder(a, json) && InOrder(b, json) && multiset(a) == multiset(b) && a != [] && b != []
    ensures a[0] == b[0]
  {
    FirstIsLeast(a, b, json);
    FirstIsLeast(b, a, json);
    LeqIsOrder(json(a[0]), json(b[0]), "");
  }

  lemma TailsAgree<T>(a: seq<T>, b: seq<T>)
    requires a != [] && b != [] && a[0] == b[0] && multiset(a) == multiset(b)
    ensures multiset(a[1..]) == multiset(b[1..])
  {
    assert a == [a[0]] + a[1..] && b == [b[0]] + b[1..];
    assert multiset(a[1..]) == multiset(a) - multiset{a[0]};
  }

  /** Sorted by an injective key, a multiset has one arrangement. */
  lemma {:induction false} ArrangementIsUnique(a: seq<seq<Cell>>, b: seq<seq<Cell>>, json: Json)
    requires Injective(json) && InOrder(a, json) && InOrder(b, json) && multiset(a) == multiset(b)
    ensures a == b
    decreases |a|
  {
    hide Leq, Injective;
    assert |multiset(a)| == |a| && |multiset(b)| == |b|;
    if a != [] {
      FirstsAreEqual(a, b, json);
      TailsAgree(a, b);
      ArrangementIsUnique(a[1..], b[1..], json);
      assert a == [a[0]] + a[1..] && b == [b[0]] + b[1..];
    }
  }

  /** The canonical forms of two row lists agree exactly when their projections agree as multisets. */
  lemma CanonicalIffSameRows(a: seq<Row>, b: seq<Row>, columns: seq<string>, json: Json)
    requires Injective(json)
    ensures Canonical(a, columns, json) == Canonical(b, columns, json)
       <==> multiset(Projected(a, columns)) == multiset(Projected(b, columns))
  {
    SortedIsSorted(Projected(a, columns), json);
    SortedIsSorted(Projected(b, columns), json);
    if multiset(Projected(a, columns)) == multiset(Projected(b, columns)) {
      ArrangementIsUnique(Canonical(a, columns, json), Canonical(b, columns, json), json);
    }
  }
}

/**
 * The three table operations the state code relies on: setting an index
 * made of named columns, selecting the rows whose index equals a key, and
 * sorting the rows by their index (fips/states.py:26, fips/states.py:170-172).
 */
module Frames {
  import opened Rows
  import opened Ordering

  /**
   * A table: its rows, and the columns that form its index. An empty index
   * stands for the default positional index 0, 1, 2, ...
   */
  datatype Frame = Frame(index: seq<Column>, rows: seq<StateRow>)

  /** The names in `names` that are not column names. */
  function MissingNames(names: seq<string>): (missing: seq<string>)
    ensures forall n :: n in missing <==> n in names && n !in ColumnNames
  {
    if names == [] then []
    else (if names[0] in ColumnNames then [] else [names[0]]) + MissingNames(names[1..])
  }

  /** The columns that `names` designate, one for one. */
  function ColumnsNamed(names: seq<string>): (cols: seq<Column>)
    requires forall n :: n in names ==> n in ColumnNames
    ensures |cols| == |names|
    ensures forall i :: 0 <= i < |names| ==> NameOf(cols[i]) == names[i]
  {
    seq(|names|, i requires 0 <= i < |names| => ColumnNamed(names[i]).value)
  }

  /**
   * Indexes rows that carry the default index by the named columns. Names
   * the table does not have are refused first, all of them reported; an
   * empty list of names is refused too, since an index needs a column.
   */
  function SetIndex(rows: seq<StateRow>, names: seq<string>): (r: Result<Frame, Error>)
    ensures r.Ok? <==> names != [] && forall n :: n in names ==> n in ColumnNames
    ensures r.Ok? ==> r.value.rows == rows && |r.value.index| == |names|
    ensures r.Ok? ==> forall i :: 0 <= i < |names| ==> NameOf(r.value.index[i]) == names[i]
    ensures r.Err? && r.error.UnknownColumns? ==>
      r.error.missing != [] && forall n :: n in r.error.missing <==> n in names && n !in ColumnNames
    ensures r.Err? && !r.error.UnknownColumns? ==> names == [] && r.error == NoIndexLevels
  {
    var missing := MissingNames(names);
    if missing != [] then
      assert missing[0] in missing;
      Err(UnknownColumns(missing))
    else if names == [] then Err(NoIndexLevels)
    else Ok(Frame(ColumnsNamed(names), rows))
  }

  /** The rows whose values in `cols` equal `key`, in their original order. */
  function Select(rows: seq<StateRow>, cols: seq<Column>, key: seq<Value>): (hits: seq<StateRow>)
    ensures |hits| <= |rows|
    ensures forall r :: r in hits <==> r in rows && Key(r, cols) == key
  {
    if rows == [] then []
    else (if Key(rows[0], cols) == key then [rows[0]] else []) + Select(rows[1..], cols, key)
  }

  /**
   * Label-based selection on an indexed table: the rows whose index is `key`.
   * A label that no row of the index holds is an error, not an empty result.
   */
  function Loc(f: Frame, key: seq<Value>): (r: Result<seq<StateRow>, Error>)
    ensures r.Err? <==> forall x :: x in f.rows ==> Key(x, f.index) != key
    ensures r.Err? ==> r.error == MissingLabel(key) && Select(f.rows, f.index, key) == []
    ensures r.Ok? ==> r.value != [] && |r.value| <= |f.rows|
    ensures r.Ok? ==> forall x :: x in r.value <==> x in f.rows && Key(x, f.index) == key
    ensures r.Ok? ==> r.value == Select(f.rows, f.index, key)
  {
    var hits := Select(f.rows, f.index, key);
    if hits == [] then Err(MissingLabel(key))
    else
      assert hits[0] in hits;
      Ok(hits)
  }

  lemma {:induction false} SelectConcat(a: seq<StateRow>, b: seq<StateRow>, cols: seq<Column>, key: seq<Value>)
    ensures Select(a + b, cols, key) == Select(a, cols, key) + Select(b, cols, key)
  {
    if a != [] {
      assert (a + b)[0] == a[0] && (a + b)[1..] == a[1..] + b;
      SelectConcat(a[1..], b, cols, key);
    } else {
      assert a + b == b;
    }
  }

  /** Row `i` is the one and only row whose values in `cols` equal `key`. */
  ghost predicate OnlyHit(rows: seq<StateRow>, cols: seq<Column>, key: seq<Value>, i: int)
  {
    && 0 <= i < |rows|
    && Key(rows[i], cols) == key
    && forall j :: 0 <= j < |rows| && Key(rows[j], cols) == key ==> j == i
  }

  lemma {:induction false} SelectNone(rows: seq<StateRow>, cols: seq<Column>, key: seq<Value>)
    requires forall j :: 0 <= j < |rows| ==> Key(rows[j], cols) != key
    ensures Select(rows, cols, key) == []
  {
    if rows != [] {
      SelectNone(rows[1..], cols, key);
    }
  }

  /** Selection yields exactly one row precisely when one row position matches. */
  lemma {:induction false} SelectOne(rows: seq<StateRow>, cols: seq<Column>, key: seq<Value>)
    ensures |Select(rows, cols, key)| == 1 <==> exists i :: OnlyHit(rows, cols, key, i)
    ensures forall i :: OnlyHit(rows, cols, key, i) ==> Select(rows, cols, key) == [rows[i]]
  {
    if rows != [] {
      var tail := rows[1..];
      SelectOne(tail, cols, key);
      if Key(rows[0], cols) == key {
        if |Select(rows, cols, key)| == 1 {
          assert Select(tail, cols, key) == [];
          forall j | 0 < j < |rows| ensures Key(rows[j], cols) != key {
            assert rows[j] == tail[j - 1];
            assert rows[j] in tail;
          }
          assert OnlyHit(rows, cols, key, 0);
        }
        forall i | OnlyHit(rows, cols, key, i) ensures Select(rows, cols, key) == [rows[i]] {
          assert i == 0;
          forall k | 0 <= k < |tail| ensures Key(tail[k], cols) != key {
            assert tail[k] == rows[k + 1];
          }
          SelectNone(tail, cols, key);
        }
      } else {
        forall i | OnlyHit(rows, cols, key, i) ensures OnlyHit(tail, cols, key, i - 1) {
          forall j | 0 <= j < |tail| && Key(tail[j], cols) == key ensures j == i - 1 {
            assert rows[j + 1] == tail[j];
          }
        }
        forall i | OnlyHit(tail, cols, key, i) ensures OnlyHit(rows, cols, key, i + 1) {
          forall j | 0 < j < |rows| && Key(rows[j], cols) == key ensures j == i + 1 {
            assert rows[j] == tail[j - 1];
          }
        }
        if |Select(rows, cols, key)| == 1 {
          var i :| OnlyHit(tail, cols, key, i);
          assert OnlyHit(rows, cols, key, i + 1);
        }
      }
    }
  }

  /** In a column without repeats, each row's value selects that row alone. */
  lemma SelectDistinct(rows: seq<StateRow>, c: Column, i: int)
    requires DistinctOn(rows, c)
    requires 0 <= i < |rows|
    ensures Select(rows, [c], [Cell(rows[i], c)]) == [rows[i]]
  {
    var key := [Cell(rows[i], c)];
    forall j | 0 <= j < |rows| && Key(rows[j], [c]) == key ensures j == i {
      assert Key(rows[j], [c])[0] == Cell(rows[j], c);
    }
    assert OnlyHit(rows, [c], key, i);
    SelectOne(rows, [c], key);
  }

  // Sorting by index. Insertion sort keeps rows with equal keys in their
  // original order, so an empty index leaves the rows as they are.

  ghost predicate SortedBy(rows: seq<StateRow>, cols: seq<Column>)
  {
    forall i, j :: 0 <= i < j < |rows| ==> KeyLe(Key(rows[i], cols), Key(rows[j], cols))
  }

  function InsertRow(x: StateRow, rows: seq<StateRow>, cols: seq<Column>): (r: seq<StateRow>)
    ensures multiset(r) == multiset(rows) + multiset{x}
  {
    if rows == [] then [x]
    else if KeyLe(Key(x, cols), Key(rows[0], cols)) then [x] + rows
    else
      assert rows == [rows[0]] + rows[1..];
      [rows[0]] + InsertRow(x, rows[1..], cols)
  }

  lemma {:induction false} InsertRowSorted(x: StateRow, rows: seq<StateRow>, cols: seq<Column>)
    requires SortedBy(rows, cols)
    ensures SortedBy(InsertRow(x, rows, cols), cols)
  {
    var r := InsertRow(x, rows, cols);
    if rows == [] {
    } else if KeyLe(Key(x, cols), Key(rows[0], cols)) {
      forall i, j | 0 <= i < j < |r| ensures KeyLe(Key(r[i], cols), Key(r[j], cols)) {
        if i == 0 && j > 1 {
          KeyLeTransitive(Key(x, cols), Key(rows[0], cols), Key(rows[j - 1], cols));
        }
      }
    } else {
      var tail := rows[1..];
      InsertRowSorted(x, tail, cols);
      KeyLeTotal(Key(x, cols), Key(rows[0], cols));
      forall i, j | 0 <= i < j < |r| ensures KeyLe(Key(r[i], cols), Key(r[j], cols)) {
        if i == 0 {
          var y := r[j];
          assert y in multiset(InsertRow(x, tail, cols));
          if y != x {
            assert y in tail;
            var k :| 0 <= k < |tail| && tail[k] == y;
            assert rows[k + 1] == y;
          }
        }
      }
    }
  }

  function SortRows(rows: seq<StateRow>, cols: seq<Column>): (r: seq<StateRow>)
    ensures multiset(r) == multiset(rows)
  {
    if rows == [] then []
    else
      assert rows == [rows[0]] + rows[1..];
      InsertRow(rows[0], SortRows(rows[1..], cols), cols)
  }

  lemma {:induction false} SortRowsSorted(rows: seq<StateRow>, cols: seq<Column>)
    ensures SortedBy(SortRows(rows, cols), cols)
  {
    if rows != [] {
      SortRowsSorted(rows[1..], cols);
      InsertRowSorted(rows[0], SortRows(rows[1..], cols), cols);
    }
  }

  lemma {:induction false} SortRowsWithoutIndex(rows: seq<StateRow>)
    ensures SortRows(rows, []) == rows
  {
    if rows != [] {
      SortRowsWithoutIndex(rows[1..]);
      assert Key(rows[0], []) == [];
    }
  }

  /**
   * Sorts a table by its index: the rows come out ordered by their index
   * key and are a permutation of the rows that went in; a table with the
   * default index keeps its order.
   */
  function SortIndex(f: Frame): (g: Frame)
    ensures g.index == f.index
    ensures SortedBy(g.rows, g.index)
    ensures multiset(g.rows) == multiset(f.rows)
    ensures f.index == [] ==> g.rows == f.rows
  {
    SortRowsSorted(f.rows, f.index);
    if f.index == [] then SortRowsWithoutIndex(f.rows); Frame(f.index, SortRows(f.rows, f.index))
    else Frame(f.index, SortRows(f.rows, f.index))
  }

  /**
   * How often a row occurs in a selection: as often as in the table when its
   * key is the one looked up, otherwise never.
   */
  lemma {:induction false} SelectCounts(rows: seq<StateRow>, cols: seq<Column>, key: seq<Value>, x: StateRow)
    ensures multiset(Select(rows, cols, key))[x] == if Key(x, cols) == key then multiset(rows)[x] else 0
  {
    if rows != [] {
      var h0 := if Key(rows[0], cols) == key then [rows[0]] else [];
      SelectCounts(rows[1..], cols, key, x);
      assert rows == [rows[0]] + rows[1..];
      assert multiset(Select(rows, cols, key)) == multiset(h0) + multiset(Select(rows[1..], cols, key));
    }
  }

  /**
   * A selection depends on which rows a table holds and how often, not on
   * their order: reordering the rows (as sorting by the index does) reorders
   * the selection and nothing more.
   */
  lemma SelectPermutation(a: seq<StateRow>, b: seq<StateRow>, cols: seq<Column>, key: seq<Value>)
    requires multiset(a) == multiset(b)
    ensures multiset(Select(a, cols, key)) == multiset(Select(b, cols, key))
  {
    forall x ensures multiset(Select(a, cols, key))[x] == multiset(Select(b, cols, key))[x] {
      SelectCounts(a, cols, key, x);
      SelectCounts(b, cols, key, x);
    }
  }
}

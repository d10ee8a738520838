/**
 * The two entry points of the state data: `States(...)`, the whole table
 * with optional extra rows and an optional index (fips/states.py:77-172), and
 * `State(**criteria)`, the one row that keyword criteria designate, with its
 * columns readable by name (fips/states.py:5-44).
 */
module FipsStates {
  import opened Rows
  import opened Frames
  import opened StateTable

  /**
   * What the `States` constructor promises of its result `r` over the table
   * `rows` when asked for the index columns `useIndex`: without an index the
   * rows come back as they are; with one, every name must be a column, the
   * index is those columns in the order named, and the rows are the same
   * rows sorted by their index keys. Unknown names fail, listing exactly the
   * names the table lacks.
   */
  ghost predicate IndexedAs(r: Result<Frame, Error>, rows: seq<StateRow>, useIndex: seq<string>)
  {
    (useIndex == [] ==> r == Ok(Frame([], rows)))
    && (r.Ok? <==> forall n :: n in useIndex ==> n in ColumnNames)
    && (r.Ok? ==>
          |r.value.index| == |useIndex|
          && (forall i :: 0 <= i < |useIndex| ==> NameOf(r.value.index[i]) == useIndex[i])
          && multiset(r.value.rows) == multiset(rows)
          && SortedBy(r.value.rows, r.value.index))
    && (r.Err? ==>
          r.error.UnknownColumns? && r.error.missing != []
          && forall n :: n in r.error.missing <==> n in useIndex && n !in ColumnNames)
  }

  /**
   * The tail of the `States` constructor: when index columns are named they
   * become the index, and the table is then sorted by its index.
   */
  function IndexAndSort(rows: seq<StateRow>, useIndex: seq<string>): (r: Result<Frame, Error>)
    ensures IndexedAs(r, rows, useIndex)
  {
    if useIndex == [] then Ok(SortIndex(Frame([], rows)))
    else
      match SetIndex(rows, useIndex)
      case Ok(f) => Ok(SortIndex(f))
      case Err(e) => Err(e)
  }

  /**
   * `States(with_territories, with_canada, with_mexico, use_index)`.
   * `useIndex` lists the names of the index columns: a single name `n` is
   * `[n]`, and the values the source treats as "no index" (None, the empty
   * string, the empty list) are `[]`. Without an index the rows keep their
   * order; with one they are sorted by it.
   */
  function States(withTerritories: bool, withCanada: bool, withMexico: bool, useIndex: seq<string>): (r: Result<Frame, Error>)
    ensures IndexedAs(r, StateRows(withTerritories, withCanada, withMexico), useIndex)
  {
    IndexAndSort(StateRows(withTerritories, withCanada, withMexico), useIndex)
  }

  /** A resolved state: the single row its criteria designate. */
  datatype State = State(row: StateRow)

  function CriteriaNames(criteria: Criteria): (names: seq<string>)
    ensures |names| == |criteria|
    ensures forall k :: 0 <= k < |criteria| ==> names[k] == criteria[k].0
  {
    seq(|criteria|, k requires 0 <= k < |criteria| => criteria[k].0)
  }

  function CriteriaValues(criteria: Criteria): (values: seq<Value>)
    ensures |values| == |criteria|
    ensures forall k :: 0 <= k < |criteria| ==> values[k] == criteria[k].1
  {
    seq(|criteria|, k requires 0 <= k < |criteria| => criteria[k].1)
  }

  /** Every criterion names a column and `row` holds the value it asks for. */
  ghost predicate Matches(row: StateRow, criteria: Criteria)
  {
    forall k :: 0 <= k < |criteria| ==>
      ColumnNamed(criteria[k].0).Some? && Cell(row, ColumnNamed(criteria[k].0).value) == criteria[k].1
  }

  /** Row `i` of `rows` is the only row that matches `criteria`. */
  ghost predicate OnlyMatch(rows: seq<StateRow>, criteria: Criteria, i: int)
  {
    0 <= i < |rows| && Matches(rows[i], criteria)
    && forall j :: 0 <= j < |rows| && Matches(rows[j], criteria) ==> j == i
  }

  /** With every criterion naming a column, matching is equality of index keys. */
  lemma MatchesIsKeyEquality(criteria: Criteria, row: StateRow)
    requires forall n :: n in CriteriaNames(criteria) ==> n in ColumnNames
    ensures Matches(row, criteria) <==>
      Key(row, ColumnsNamed(CriteriaNames(criteria))) == CriteriaValues(criteria)
  {
    var cols := ColumnsNamed(CriteriaNames(criteria));
    forall k | 0 <= k < |criteria| ensures ColumnNamed(criteria[k].0) == Some(cols[k]) {
      assert criteria[k].0 == CriteriaNames(criteria)[k];
      NamesRoundTrip(cols[k]);
    }
    if Matches(row, criteria) {
      assert Key(row, cols) == CriteriaValues(criteria);
    }
  }

  /**
   * `State(**criteria)`: the full table (every flag set) is indexed by the
   * criteria's column names and the row with their values is looked up.
   * Exactly one row must match; no match, a name the table lacks and more
   * than one match all fail with the same "not a valid unique key" error,
   * naming the criteria. Criteria naming no column at all fail in the
   * indexing step with an error of their own, which is not caught.
   */
  function Resolve(criteria: Criteria): (r: Result<State, Error>)
    ensures criteria == [] ==> r == Err(NoIndexLevels)
    ensures criteria != [] ==> r.Err? ==> r.error == InvalidUniqueKey(criteria)
    ensures (exists k :: 0 <= k < |criteria| && criteria[k].0 !in ColumnNames) ==> r.Err?
    ensures r.Ok? <==> criteria != [] && exists i :: OnlyMatch(FullTable(), criteria, i)
    ensures r.Ok? ==> r.value.row in FullTable() && Matches(r.value.row, criteria)
  {
    var table := FullTable();
    var names := CriteriaNames(criteria);
    match SetIndex(table, names)
    case Err(e) =>
      assert criteria != [] ==> names != [];
      if e == NoIndexLevels then Err(NoIndexLevels)
      else
        assert exists k :: 0 <= k < |criteria| && criteria[k].0 !in ColumnNames by {
          var n :| n in names && n !in ColumnNames;
          var k :| 0 <= k < |names| && names[k] == n;
        }
        Err(InvalidUniqueKey(criteria))
    case Ok(f) =>
      var key := CriteriaValues(criteria);
      SelectOne(table, f.index, key);
      assert forall j :: 0 <= j < |table| ==>
        (Matches(table[j], criteria) <==> Key(table[j], f.index) == key) by {
        forall j | 0 <= j < |table| ensures Matches(table[j], criteria) <==> Key(table[j], f.index) == key {
          MatchesIsKeyEquality(criteria, table[j]);
        }
      }
      assert forall i :: OnlyHit(table, f.index, key, i) <==> OnlyMatch(table, criteria, i);
      match Loc(f, key)
      case Err(_) => Err(InvalidUniqueKey(criteria))
      case Ok(hits) =>
        if |hits| == 1 then
          assert hits[0] in hits;
          Ok(State(hits[0]))
        else
          Err(InvalidUniqueKey(criteria))
  }

  /**
   * Reading a column of a resolved state by name. Every column reads the
   * value in the state's row; any other name fails.
   */
  function GetAttr(s: State, name: string): (v: Result<Value, Error>)
    ensures v.Ok? <==> name in ColumnNames
    ensures v.Ok? ==> exists c :: NameOf(c) == name && v.value == Cell(s.row, c)
    ensures v.Err? ==> v.error == UnknownAttribute(name)
  {
    match ColumnNamed(name)
    case Some(c) => Ok(Cell(s.row, c))
    case None => Err(UnknownAttribute(name))
  }

  /** `str(state)`: the value of its STATE column. */
  function Str(s: State): (text: string)
    ensures GetAttr(s, "STATE") == Ok(Text(text))
  {
    s.row.state
  }

  /** `repr(state)`: `State(ST=<its ST column>)`. */
  function Repr(s: State): (text: string)
    ensures GetAttr(s, "ST").Ok? && GetAttr(s, "ST").value.Text?
    ensures text == "State(ST=" + GetAttr(s, "ST").value.text + ")"
  {
    "State(ST=" + s.row.st + ")"
  }

  /** The code between `State(ST=` and the closing parenthesis of a representation. */
  function ReprCode(text: string): (code: Option<string>)
    ensures code.Some? ==> text == "State(ST=" + code.value + ")"
  {
    if |text| >= 10 && text[..9] == "State(ST=" && text[|text| - 1] == ')' then
      assert text == text[..9] + text[9..|text| - 1] + [text[|text| - 1]];
      Some(text[9..|text| - 1])
    else None
  }

  /**
   * `state.to_dict()`: each column name mapped to the value of that column
   * in the state's row, as a plain value rather than a one-element list.
   */
  function ToDict(s: State): (d: map<string, Value>)
    ensures d.Keys == set n | n in ColumnNames
    ensures forall n :: n in d ==> GetAttr(s, n) == Ok(d[n])
  {
    map n | n in ColumnNames :: Cell(s.row, ColumnNamed(n).value)
  }
}

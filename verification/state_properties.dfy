/**
 * What the table and the resolver promise together: where each flagged block
 * sits, that every key column resolves every row of the full table back to
 * that row, that an index lookup on a key column finds exactly one row, and
 * the concrete California record the test suite reads through each route
 * (tests/tests.py:8-65).
 */
module StateProperties {
  import opened Rows
  import opened Frames
  import opened StateTable
  import opened StateTableKeys
  import opened FipsStates

  /**
   * The flags only ever append: the unflagged table is the base rows and
   * the front of every flagged one, and every row of a flagged table is a
   * row of the full table.
   */
  lemma {:induction false} BlocksAppend(withTerritories: bool, withCanada: bool, withMexico: bool)
    ensures StateRows(false, false, false) <= StateRows(withTerritories, withCanada, withMexico)
    ensures StateRows(false, false, false) == BaseRows
    ensures forall r :: r in StateRows(withTerritories, withCanada, withMexico) ==> r in FullTable()
  {
    var rows := StateRows(withTerritories, withCanada, withMexico);
    var t := if withTerritories then TerritoryRows else [];
    var k := if withCanada then CanadaRows else [];
    var m := if withMexico then MexicoRows else [];
    assert StateRows(false, false, false) == BaseRows + [] + [] + [];
    assert rows == BaseRows + (t + k + m);
    forall r | r in rows ensures r in FullTable() {
      assert r in BaseRows || r in t || r in k || r in m;
      assert FullTable() == BaseRows + (TerritoryRows + CanadaRows + MexicoRows);
    }
  }

  /** Each flag puts its block right after the blocks before it. */
  lemma {:induction false} BlockPositions(withTerritories: bool, withCanada: bool, withMexico: bool)
    ensures var rows := StateRows(withTerritories, withCanada, withMexico);
      var t := if withTerritories then 2 else 0;
      var k := if withCanada then 10 else 0;
      && rows[..51] == BaseRows
      && (withTerritories ==> rows[51..53] == TerritoryRows)
      && (withCanada ==> rows[51 + t..61 + t] == CanadaRows)
      && (withMexico ==> rows[51 + t + k..] == MexicoRows)
  {
    var rows := StateRows(withTerritories, withCanada, withMexico);
    var t := if withTerritories then TerritoryRows else [];
    var k := if withCanada then CanadaRows else [];
    var m := if withMexico then MexicoRows else [];
    assert rows == BaseRows + t + k + m;
    assert rows[..51] == BaseRows;
    assert rows[51..51 + |t|] == t;
    assert rows[51 + |t|..51 + |t| + |k|] == k;
    assert rows[51 + |t| + |k|..] == m;
  }

  /** Two columns with the same name are the same column. */
  lemma NameOfInjective(a: Column, b: Column)
    requires NameOf(a) == NameOf(b)
    ensures a == b
  {
    NamesRoundTrip(a);
    NamesRoundTrip(b);
  }

  /**
   * A single criterion on column `c` matches a row exactly when the row holds
   * the criterion's value in that column.
   */
  lemma SingleCriterion(row: StateRow, c: Column, v: Value)
    ensures Matches(row, [(NameOf(c), v)]) <==> Cell(row, c) == v
  {
    NamesRoundTrip(c);
    var criteria := [(NameOf(c), v)];
    assert criteria[0] == (NameOf(c), v);
  }

  /**
   * Every row of the full table is found again by its own `ST`, `STATE` or
   * `FIPS` value: `State(ST=...)`, `State(STATE=...)` and `State(FIPS=...)`
   * never fail for a value the table holds, and they all designate the same
   * row (as the loop over every `ST` at fips/states.py:180-182 relies on).
   */
  lemma {:induction false} EveryKeyResolves(i: int, c: Column)
    requires 0 <= i < |FullTable()|
    requires IsKeyColumn(c)
    ensures Resolve([(NameOf(c), Cell(FullTable()[i], c))]) == Ok(State(FullTable()[i]))
  {
    var table := FullTable();
    var v := Cell(table[i], c);
    var criteria := [(NameOf(c), v)];
    KeyColumnsUnique(true, true, true, c);
    forall j | 0 <= j < |table| ensures Matches(table[j], criteria) <==> j == i {
      SingleCriterion(table[j], c, v);
      if j < i {
        assert Cell(table[j], c) != Cell(table[i], c);
      } else if i < j {
        assert Cell(table[i], c) != Cell(table[j], c);
      }
    }
    assert OnlyMatch(table, criteria, i);
    var r := Resolve(criteria);
    var j :| 0 <= j < |table| && table[j] == r.value.row;
    assert Matches(table[j], criteria);
  }

  /** The code a representation carries is the state's `ST` value. */
  lemma ReprRoundTrip(s: State)
    ensures ReprCode(Repr(s)) == Some(s.row.st)
  {
    var text := Repr(s);
    assert text[..9] == "State(ST=";
    assert text[9..|text| - 1] == s.row.st;
  }

  /** `str` and `repr` name the state, and each names it well enough to find it again. */
  lemma {:induction false} StrAndReprResolve(s: State)
    requires s.row in FullTable()
    ensures Resolve([("STATE", Text(Str(s)))]) == Ok(s)
    ensures Resolve([("ST", Text(ReprCode(Repr(s)).value))]) == Ok(s)
  {
    var i :| 0 <= i < |FullTable()| && FullTable()[i] == s.row;
    ReprRoundTrip(s);
    EveryKeyResolves(i, STATE);
    EveryKeyResolves(i, ST);
  }

  /** A sequence holding one row once and nothing else is that row alone. */
  lemma SingleRow(s: seq<StateRow>, x: StateRow)
    requires multiset(s) == multiset{x}
    ensures s == [x]
  {
    assert |s| == |multiset(s)| == 1;
    assert s[0] in multiset(s);
  }

  /**
   * Indexing a table by a column whose values are distinct and looking up
   * the value of row `i` finds row `i` and nothing else: the sort that
   * follows `set_index` moves the row but does not duplicate or lose it.
   */
  lemma {:induction false} IndexedLookupDistinct(rows: seq<StateRow>, c: Column, i: int)
    requires DistinctOn(rows, c)
    requires 0 <= i < |rows|
    ensures IndexAndSort(rows, [NameOf(c)]).Ok?
    ensures var f := IndexAndSort(rows, [NameOf(c)]).value;
      f.index == [c] && Loc(f, [Cell(rows[i], c)]) == Ok([rows[i]])
  {
    var f := IndexAndSort(rows, [NameOf(c)]).value;
    var key := [Cell(rows[i], c)];
    NameOfInjective(f.index[0], c);
    assert f.index == [c];
    SelectDistinct(rows, c, i);
    SelectPermutation(f.rows, rows, [c], key);
    var hits := Select(f.rows, f.index, key);
    assert multiset(hits) == multiset{rows[i]};
    SingleRow(hits, rows[i]);
    assert Loc(f, key) == Ok(hits);
  }

  /**
   * `States(..., use_index=<key column>).loc[<value>]` for the value of row
   * `i` finds row `i` and nothing else, whichever flags are set.
   */
  lemma IndexedLookup(withTerritories: bool, withCanada: bool, withMexico: bool, c: Column, i: int)
    requires IsKeyColumn(c)
    requires 0 <= i < |StateRows(withTerritories, withCanada, withMexico)|
    ensures States(withTerritories, withCanada, withMexico, [NameOf(c)]).Ok?
    ensures var f := States(withTerritories, withCanada, withMexico, [NameOf(c)]).value;
      var row := StateRows(withTerritories, withCanada, withMexico)[i];
      f.index == [c] && Loc(f, [Cell(row, c)]) == Ok([row])
  {
    var rows := StateRows(withTerritories, withCanada, withMexico);
    KeyColumnsUnique(withTerritories, withCanada, withMexico, c);
    IndexedLookupDistinct(rows, c, i);
    assert States(withTerritories, withCanada, withMexico, [NameOf(c)]) == IndexAndSort(rows, [NameOf(c)]);
  }

  const California := StateRow("California", "CA", "06", -8.0, 1, "WECC", "WECC")

  /** California is the fifth row of the table, flagged blocks or not (fips/states.py:102). */
  lemma CaliforniaIsFifth()
    ensures FullTable()[4] == California
    ensures StateRows(false, false, false)[4] == California
  {
    assert FullTable()[4] == AlabamaToIdaho[4];
    assert StateRows(false, false, false)[4] == AlabamaToIdaho[4];
  }

  /**
   * The record the test suite checks through the index: looking up
   * "California", "CA" or "06" in the table indexed by STATE, ST or FIPS
   * gives the California row.
   */
  lemma CaliforniaByIndex(c: Column)
    requires IsKeyColumn(c)
    ensures Loc(States(false, false, false, [NameOf(c)]).value, [Cell(California, c)]) == Ok([California])
  {
    CaliforniaIsFifth();
    IndexedLookup(false, false, false, c, 4);
  }

  /**
   * The record the test suite checks through `State`: `State(STATE="California")`,
   * `State(ST="CA")` and `State(FIPS="06")` each resolve to the California row.
   */
  lemma CaliforniaResolves(c: Column)
    requires IsKeyColumn(c)
    ensures Resolve([(NameOf(c), Cell(California, c))]) == Ok(State(California))
  {
    CaliforniaIsFifth();
    EveryKeyResolves(4, c);
  }

  /**
   * The columns of the resolved California state: the three codes, offset
   * -8.0, summer time observed, and WECC as both system and reliability
   * organization.
   */
  lemma CaliforniaAttributes()
    ensures GetAttr(State(California), "STATE") == Ok(Text("California"))
    ensures GetAttr(State(California), "ST") == Ok(Text("CA"))
    ensures GetAttr(State(California), "FIPS") == Ok(Text("06"))
    ensures GetAttr(State(California), "TZOFFSET") == Ok(Number(-8.0))
    ensures GetAttr(State(California), "DST") == Ok(Number(1.0))
    ensures GetAttr(State(California), "SYSTEM") == Ok(Text("WECC"))
    ensures GetAttr(State(California), "RO") == Ok(Text("WECC"))
  {
  }

  /**
   * Criteria that more than one row meets fail: `State(DST=1)` matches both
   * Alabama and Alaska.
   */
  lemma AmbiguousKeyFails()
    ensures Resolve([("DST", Number(1.0))]) == Err(InvalidUniqueKey([("DST", Number(1.0))]))
  {
    var table := FullTable();
    var criteria := [("DST", Number(1.0))];
    assert table[0] == AlabamaToIdaho[0] && table[1] == AlabamaToIdaho[1];
    SingleCriterion(table[0], DST, Number(1.0));
    SingleCriterion(table[1], DST, Number(1.0));
    assert !exists i :: OnlyMatch(table, criteria, i);
  }
}

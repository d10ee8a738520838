/**
 * Rows of the state reference table and the values stored in their cells.
 *
 * The table has seven columns, STATE, ST, FIPS, TZOFFSET, DST, SYSTEM and RO,
 * declared at fips/states.py:96. A row is a record with one field per column;
 * a cell is looked up by column, and a column by its name, so that criteria
 * and index specifications given as column names can be resolved or refused.
 */
module Rows {

  /** The result of an operation that can fail, carrying the error otherwise. */
  datatype Result<+T, +E> = Ok(value: T) | Err(error: E)

  datatype Option<+T> = None | Some(value: T)

  /** The seven columns of the state table, in declaration order. */
  datatype Column = STATE | ST | FIPS | TZOFFSET | DST | SYSTEM | RO

  /**
   * One row: the state name, its two-letter abbreviation, its two-character
   * FIPS code (kept as text so that leading zeros survive), its offset from
   * UTC in hours, whether summer time is observed (1) or not (0), the
   * interconnection serving its main population centre, and its reliability
   * organisations joined by "|".
   */
  datatype StateRow = StateRow(
    state: string,
    st: string,
    fips: string,
    tzoffset: real,
    dst: int,
    system: string,
    ro: string)

  /**
   * A cell value as a caller sees it: text, or a number. Integer and float
   * cells compare by numeric value (1 == 1.0), so both are numbers here.
   */
  datatype Value = Text(text: string) | Number(number: real)

  /** The column names, in declaration order. */
  const ColumnNames: seq<string> := ["STATE", "ST", "FIPS", "TZOFFSET", "DST", "SYSTEM", "RO"]

  function NameOf(c: Column): (name: string)
    ensures name in ColumnNames
  {
    match c
    case STATE => "STATE"
    case ST => "ST"
    case FIPS => "FIPS"
    case TZOFFSET => "TZOFFSET"
    case DST => "DST"
    case SYSTEM => "SYSTEM"
    case RO => "RO"
  }

  /** The column a name designates, if any; names are case-sensitive. */
  function ColumnNamed(name: string): (c: Option<Column>)
    ensures c.Some? <==> name in ColumnNames
    ensures c.Some? ==> NameOf(c.value) == name
  {
    if name == "STATE" then Some(STATE)
    else if name == "ST" then Some(ST)
    else if name == "FIPS" then Some(FIPS)
    else if name == "TZOFFSET" then Some(TZOFFSET)
    else if name == "DST" then Some(DST)
    else if name == "SYSTEM" then Some(SYSTEM)
    else if name == "RO" then Some(RO)
    else None
  }

  lemma NamesRoundTrip(c: Column)
    ensures ColumnNamed(NameOf(c)) == Some(c)
  {
  }

  /** The value in column `c` of `row`. */
  function Cell(row: StateRow, c: Column): Value
  {
    match c
    case STATE => Text(row.state)
    case ST => Text(row.st)
    case FIPS => Text(row.fips)
    case TZOFFSET => Number(row.tzoffset)
    case DST => Number(row.dst as real)
    case SYSTEM => Text(row.system)
    case RO => Text(row.ro)
  }

  /** The tuple of a row's values in the given columns: its index key. */
  function Key(row: StateRow, cols: seq<Column>): (k: seq<Value>)
    ensures |k| == |cols|
    ensures forall i :: 0 <= i < |cols| ==> k[i] == Cell(row, cols[i])
  {
    seq(|cols|, i requires 0 <= i < |cols| => Cell(row, cols[i]))
  }

  /**
   * Search criteria as keyword arguments: column names, each paired with the
   * value that column must hold.
   */
  type Criteria = seq<(string, Value)>

  /** The failures of the state table and of single-record resolution. */
  datatype Error =
      /** Index columns named that the table does not have. */
    | UnknownColumns(missing: seq<string>)
      /** An index of no columns at all was asked for. */
    | NoIndexLevels
      /** Label selection found no row whose index holds the labels looked up. */
    | MissingLabel(key: seq<Value>)
      /** The criteria do not designate exactly one row ("not a valid unique key"). */
    | InvalidUniqueKey(criteria: Criteria)
      /** A resolved record was asked for a column it does not have. */
    | UnknownAttribute(name: string)

  /** Whether no two rows hold the same value in column `c`. */
  ghost predicate DistinctOn(rows: seq<StateRow>, c: Column)
  {
    forall i, j :: 0 <= i < j < |rows| ==> Cell(rows[i], c) != Cell(rows[j], c)
  }

  /** No value of column `c` in `a` also occurs in column `c` of `b`. */
  ghost predicate DisjointOn(a: seq<StateRow>, b: seq<StateRow>, c: Column)
  {
    forall i, j :: 0 <= i < |a| && 0 <= j < |b| ==> Cell(a[i], c) != Cell(b[j], c)
  }

  lemma DistinctOnConcat(a: seq<StateRow>, b: seq<StateRow>, c: Column)
    requires DistinctOn(a, c) && DistinctOn(b, c) && DisjointOn(a, b, c)
    ensures DistinctOn(a + b, c)
  {
    var s := a + b;
    forall i, j | 0 <= i < j < |s| ensures Cell(s[i], c) != Cell(s[j], c) {
      if j < |a| {
      } else if i < |a| {
        assert Cell(a[i], c) != Cell(b[j - |a|], c);
      } else {
        assert Cell(b[i - |a|], c) != Cell(b[j - |a|], c);
      }
    }
  }

  lemma DistinctOnSplit(a: seq<StateRow>, b: seq<StateRow>, c: Column)
    requires DistinctOn(a + b, c)
    ensures DistinctOn(a, c) && DistinctOn(b, c) && DisjointOn(a, b, c)
  {
    var s := a + b;
    forall i, j | 0 <= i < j < |a| ensures Cell(a[i], c) != Cell(a[j], c) {
      assert s[i] == a[i] && s[j] == a[j];
    }
    forall i, j | 0 <= i < |a| && 0 <= j < |b| ensures Cell(a[i], c) != Cell(b[j], c) {
      assert s[i] == a[i] && s[|a| + j] == b[j];
    }
    forall i, j | 0 <= i < j < |b| ensures Cell(b[i], c) != Cell(b[j], c) {
      assert s[|a| + i] == b[i] && s[|a| + j] == b[j];
    }
  }

  lemma DisjointOnConcatLeft(a: seq<StateRow>, b: seq<StateRow>, x: seq<StateRow>, c: Column)
    requires DisjointOn(a, x, c) && DisjointOn(b, x, c)
    ensures DisjointOn(a + b, x, c)
  {
    var s := a + b;
    forall i, j | 0 <= i < |s| && 0 <= j < |x| ensures Cell(s[i], c) != Cell(x[j], c) {
      if i >= |a| {
        assert s[i] == b[i - |a|];
      }
    }
  }

  lemma DisjointOnSplitRight(x: seq<StateRow>, a: seq<StateRow>, b: seq<StateRow>, c: Column)
    requires DisjointOn(x, a + b, c)
    ensures DisjointOn(x, a, c) && DisjointOn(x, b, c)
  {
    var s := a + b;
    forall i, j | 0 <= i < |x| && 0 <= j < |a| ensures Cell(x[i], c) != Cell(a[j], c) {
      assert s[j] == a[j];
    }
    forall i, j | 0 <= i < |x| && 0 <= j < |b| ensures Cell(x[i], c) != Cell(b[j], c) {
      assert s[|a| + j] == b[j];
    }
  }

  lemma DisjointOnSplitLeft(a: seq<StateRow>, b: seq<StateRow>, x: seq<StateRow>, c: Column)
    requires DisjointOn(a + b, x, c)
    ensures DisjointOn(a, x, c) && DisjointOn(b, x, c)
  {
    var s := a + b;
    forall i, j | 0 <= i < |a| && 0 <= j < |x| ensures Cell(a[i], c) != Cell(x[j], c) {
      assert s[i] == a[i];
    }
    forall i, j | 0 <= i < |b| && 0 <= j < |x| ensures Cell(b[i], c) != Cell(x[j], c) {
      assert s[|a| + i] == b[i];
    }
  }
}

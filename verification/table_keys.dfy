/**
 * The key columns ST, STATE and FIPS are each pairwise distinct in every
 * table the `States` constructor can build (fips/states.py:97-168), so that
 * each of their values designates one row.
 *
 * The proof compares every value with every other one column at a time:
 * within each run of rows (the four runs of base rows, numbered 1 to 4, and
 * the extension rows, numbered 5) and across each pair of runs. The runs are
 * then put back together, and any table the flags select is taken apart
 * from the full one.
 */
module StateTableKeys {
  import opened Rows
  import opened StateTable

  /** The columns whose values the table keeps unique. */
  predicate IsKeyColumn(c: Column)
  {
    c == ST || c == STATE || c == FIPS
  }

  // Column ST, run by run.
  lemma StWithin1() ensures forall i, j :: 0 <= i < j < |AlabamaToIdaho| ==> AlabamaToIdaho[i].st != AlabamaToIdaho[j].st {}
  lemma StWithin2() ensures forall i, j :: 0 <= i < j < |IllinoisToMissouri| ==> IllinoisToMissouri[i].st != IllinoisToMissouri[j].st {}
  lemma StWithin3() ensures forall i, j :: 0 <= i < j < |MontanaToPennsylvania| ==> MontanaToPennsylvania[i].st != MontanaToPennsylvania[j].st {}
  lemma StWithin4() ensures forall i, j :: 0 <= i < j < |RhodeIslandToWyoming| ==> RhodeIslandToWyoming[i].st != RhodeIslandToWyoming[j].st {}
  lemma StWithin5() ensures forall i, j :: 0 <= i < j < |ExtensionRows| ==> ExtensionRows[i].st != ExtensionRows[j].st {}
  lemma StAcross12()
    ensures forall i, j :: 0 <= i < |AlabamaToIdaho| && 0 <= j < |IllinoisToMissouri| ==> AlabamaToIdaho[i].st != IllinoisToMissouri[j].st
  {}
  lemma StAcross13()
    ensures forall i, j :: 0 <= i < |AlabamaToIdaho| && 0 <= j < |MontanaToPennsylvania| ==> AlabamaToIdaho[i].st != MontanaToPennsylvania[j].st
  {}
  lemma StAcross14()
    ensures forall i, j :: 0 <= i < |AlabamaToIdaho| && 0 <= j < |RhodeIslandToWyoming| ==> AlabamaToIdaho[i].st != RhodeIslandToWyoming[j].st
  {}
  lemma StAcross15()
    ensures forall i, j :: 0 <= i < |AlabamaToIdaho| && 0 <= j < |ExtensionRows| ==> AlabamaToIdaho[i].st != ExtensionRows[j].st
  {}
  lemma StAcross23()
    ensures forall i, j :: 0 <= i < |IllinoisToMissouri| && 0 <= j < |MontanaToPennsylvania| ==> IllinoisToMissouri[i].st != MontanaToPennsylvania[j].st
  {}
  lemma StAcross24()
    ensures forall i, j :: 0 <= i < |IllinoisToMissouri| && 0 <= j < |RhodeIslandToWyoming| ==> IllinoisToMissouri[i].st != RhodeIslandToWyoming[j].st
  {}
  lemma StAcross25()
    ensures forall i, j :: 0 <= i < |IllinoisToMissouri| && 0 <= j < |ExtensionRows| ==> IllinoisToMissouri[i].st != ExtensionRows[j].st
  {}
  lemma StAcross34()
    ensures forall i, j :: 0 <= i < |MontanaToPennsylvania| && 0 <= j < |RhodeIslandToWyoming| ==> MontanaToPennsylvania[i].st != RhodeIslandToWyoming[j].st
  {}
  lemma StAcross35()
    ensures forall i, j :: 0 <= i < |MontanaToPennsylvania| && 0 <= j < |ExtensionRows| ==> MontanaToPennsylvania[i].st != ExtensionRows[j].st
  {}
  lemma StAcross45()
    ensures forall i, j :: 0 <= i < |RhodeIslandToWyoming| && 0 <= j < |ExtensionRows| ==> RhodeIslandToWyoming[i].st != ExtensionRows[j].st
  {}

  // Column STATE, run by run.
  lemma StateWithin1() ensures forall i, j :: 0 <= i < j < |AlabamaToIdaho| ==> AlabamaToIdaho[i].state != AlabamaToIdaho[j].state {}
  lemma StateWithin2() ensures forall i, j :: 0 <= i < j < |IllinoisToMissouri| ==> IllinoisToMissouri[i].state != IllinoisToMissouri[j].state {}
  lemma StateWithin3() ensures forall i, j :: 0 <= i < j < |MontanaToPennsylvania| ==> MontanaToPennsylvania[i].state != MontanaToPennsylvania[j].state {}
  lemma StateWithin4() ensures forall i, j :: 0 <= i < j < |RhodeIslandToWyoming| ==> RhodeIslandToWyoming[i].state != RhodeIslandToWyoming[j].state {}
  lemma StateWithin5() ensures forall i, j :: 0 <= i < j < |ExtensionRows| ==> ExtensionRows[i].state != ExtensionRows[j].state {}
  lemma StateAcross12()
    ensures forall i, j :: 0 <= i < |AlabamaToIdaho| && 0 <= j < |IllinoisToMissouri| ==> AlabamaToIdaho[i].state != IllinoisToMissouri[j].state
  {}
  lemma StateAcross13()
    ensures forall i, j :: 0 <= i < |AlabamaToIdaho| && 0 <= j < |MontanaToPennsylvania| ==> AlabamaToIdaho[i].state != MontanaToPennsylvania[j].state
  {}
  lemma StateAcross14()
    ensures forall i, j :: 0 <= i < |AlabamaToIdaho| && 0 <= j < |RhodeIslandToWyoming| ==> AlabamaToIdaho[i].state != RhodeIslandToWyoming[j].state
  {}
  lemma StateAcross15()
    ensures forall i, j :: 0 <= i < |AlabamaToIdaho| && 0 <= j < |ExtensionRows| ==> AlabamaToIdaho[i].state != ExtensionRows[j].state
  {}
  lemma StateAcross23()
    ensures forall i, j :: 0 <= i < |IllinoisToMissouri| && 0 <= j < |MontanaToPennsylvania| ==> IllinoisToMissouri[i].state != MontanaToPennsylvania[j].state
  {}
  lemma StateAcross24()
    ensures forall i, j :: 0 <= i < |IllinoisToMissouri| && 0 <= j < |RhodeIslandToWyoming| ==> IllinoisToMissouri[i].state != RhodeIslandToWyoming[j].state
  {}
  lemma StateAcross25()
    ensures forall i, j :: 0 <= i < |IllinoisToMissouri| && 0 <= j < |ExtensionRows| ==> IllinoisToMissouri[i].state != ExtensionRows[j].state
  {}
  lemma StateAcross34()
    ensures forall i, j :: 0 <= i < |MontanaToPennsylvania| && 0 <= j < |RhodeIslandToWyoming| ==> MontanaToPennsylvania[i].state != RhodeIslandToWyoming[j].state
  {}
  lemma StateAcross35()
    ensures forall i, j :: 0 <= i < |MontanaToPennsylvania| && 0 <= j < |ExtensionRows| ==> MontanaToPennsylvania[i].state != ExtensionRows[j].state
  {}
  lemma StateAcross45()
    ensures forall i, j :: 0 <= i < |RhodeIslandToWyoming| && 0 <= j < |ExtensionRows| ==> RhodeIslandToWyoming[i].state != ExtensionRows[j].state
  {}

  // Column FIPS, run by run.
  lemma FipsWithin1() ensures forall i, j :: 0 <= i < j < |AlabamaToIdaho| ==> AlabamaToIdaho[i].fips != AlabamaToIdaho[j].fips {}
  lemma FipsWithin2() ensures forall i, j :: 0 <= i < j < |IllinoisToMissouri| ==> IllinoisToMissouri[i].fips != IllinoisToMissouri[j].fips {}
  lemma FipsWithin3() ensures forall i, j :: 0 <= i < j < |MontanaToPennsylvania| ==> MontanaToPennsylvania[i].fips != MontanaToPennsylvania[j].fips {}
  lemma FipsWithin4() ensures forall i, j :: 0 <= i < j < |RhodeIslandToWyoming| ==> RhodeIslandToWyoming[i].fips != RhodeIslandToWyoming[j].fips {}
  lemma FipsWithin5() ensures forall i, j :: 0 <= i < j < |ExtensionRows| ==> ExtensionRows[i].fips != ExtensionRows[j].fips {}
  lemma FipsAcross12()
    ensures forall i, j :: 0 <= i < |AlabamaToIdaho| && 0 <= j < |IllinoisToMissouri| ==> AlabamaToIdaho[i].fips != IllinoisToMissouri[j].fips
  {}
  lemma FipsAcross13()
    ensures forall i, j :: 0 <= i < |AlabamaToIdaho| && 0 <= j < |MontanaToPennsylvania| ==> AlabamaToIdaho[i].fips != MontanaToPennsylvania[j].fips
  {}
  lemma FipsAcross14()
    ensures forall i, j :: 0 <= i < |AlabamaToIdaho| && 0 <= j < |RhodeIslandToWyoming| ==> AlabamaToIdaho[i].fips != RhodeIslandToWyoming[j].fips
  {}
  lemma FipsAcross15()
    ensures forall i, j :: 0 <= i < |AlabamaToIdaho| && 0 <= j < |ExtensionRows| ==> AlabamaToIdaho[i].fips != ExtensionRows[j].fips
  {}
  lemma FipsAcross23()
    ensures forall i, j :: 0 <= i < |IllinoisToMissouri| && 0 <= j < |MontanaToPennsylvania| ==> IllinoisToMissouri[i].fips != MontanaToPennsylvania[j].fips
  {}
  lemma FipsAcross24()
    ensures forall i, j :: 0 <= i < |IllinoisToMissouri| && 0 <= j < |RhodeIslandToWyoming| ==> IllinoisToMissouri[i].fips != RhodeIslandToWyoming[j].fips
  {}
  lemma FipsAcross25()
    ensures forall i, j :: 0 <= i < |IllinoisToMissouri| && 0 <= j < |ExtensionRows| ==> IllinoisToMissouri[i].fips != ExtensionRows[j].fips
  {}
  lemma FipsAcross34()
    ensures forall i, j :: 0 <= i < |MontanaToPennsylvania| && 0 <= j < |RhodeIslandToWyoming| ==> MontanaToPennsylvania[i].fips != RhodeIslandToWyoming[j].fips
  {}
  lemma FipsAcross35()
    ensures forall i, j :: 0 <= i < |MontanaToPennsylvania| && 0 <= j < |ExtensionRows| ==> MontanaToPennsylvania[i].fips != ExtensionRows[j].fips
  {}
  lemma FipsAcross45()
    ensures forall i, j :: 0 <= i < |RhodeIslandToWyoming| && 0 <= j < |ExtensionRows| ==> RhodeIslandToWyoming[i].fips != ExtensionRows[j].fips
  {}

  lemma StsDistinct(rows: seq<StateRow>)
    requires forall i, j :: 0 <= i < j < |rows| ==> rows[i].st != rows[j].st
    ensures DistinctOn(rows, ST)
  {
  }

  lemma StsDisjoint(a: seq<StateRow>, b: seq<StateRow>)
    requires forall i, j :: 0 <= i < |a| && 0 <= j < |b| ==> a[i].st != b[j].st
    ensures DisjointOn(a, b, ST)
  {
  }

  lemma StatesDistinct(rows: seq<StateRow>)
    requires forall i, j :: 0 <= i < j < |rows| ==> rows[i].state != rows[j].state
    ensures DistinctOn(rows, STATE)
  {
  }

  lemma StatesDisjoint(a: seq<StateRow>, b: seq<StateRow>)
    requires forall i, j :: 0 <= i < |a| && 0 <= j < |b| ==> a[i].state != b[j].state
    ensures DisjointOn(a, b, STATE)
  {
  }

  lemma FipssDistinct(rows: seq<StateRow>)
    requires forall i, j :: 0 <= i < j < |rows| ==> rows[i].fips != rows[j].fips
    ensures DistinctOn(rows, FIPS)
  {
  }

  lemma FipssDisjoint(a: seq<StateRow>, b: seq<StateRow>)
    requires forall i, j :: 0 <= i < |a| && 0 <= j < |b| ==> a[i].fips != b[j].fips
    ensures DisjointOn(a, b, FIPS)
  {
  }

  /** Five runs, each without repeats and no two sharing a value, make the base rows and the extension rows. */
  lemma RunsCombine(r1: seq<StateRow>, r2: seq<StateRow>, r3: seq<StateRow>, r4: seq<StateRow>, r5: seq<StateRow>, c: Column)
    requires DistinctOn(r1, c) && DistinctOn(r2, c) && DistinctOn(r3, c) && DistinctOn(r4, c) && DistinctOn(r5, c)
    requires DisjointOn(r1, r2, c) && DisjointOn(r1, r3, c) && DisjointOn(r1, r4, c) && DisjointOn(r1, r5, c)
    requires DisjointOn(r2, r3, c) && DisjointOn(r2, r4, c) && DisjointOn(r2, r5, c)
    requires DisjointOn(r3, r4, c) && DisjointOn(r3, r5, c) && DisjointOn(r4, r5, c)
    ensures DistinctOn(r1 + r2 + r3 + r4, c) && DistinctOn(r5, c) && DisjointOn(r1 + r2 + r3 + r4, r5, c)
  {
    DistinctOnConcat(r1, r2, c);
    DisjointOnConcatLeft(r1, r2, r3, c);
    DistinctOnConcat(r1 + r2, r3, c);
    DisjointOnConcatLeft(r1, r2, r4, c);
    DisjointOnConcatLeft(r1 + r2, r3, r4, c);
    DistinctOnConcat(r1 + r2 + r3, r4, c);
    DisjointOnConcatLeft(r1, r2, r5, c);
    DisjointOnConcatLeft(r1 + r2, r3, r5, c);
    DisjointOnConcatLeft(r1 + r2 + r3, r4, r5, c);
  }

  lemma StUnique()
    ensures DistinctOn(BaseRows, ST) && DistinctOn(ExtensionRows, ST) && DisjointOn(BaseRows, ExtensionRows, ST)
  {
    StWithin1(); StsDistinct(AlabamaToIdaho);
    StWithin2(); StsDistinct(IllinoisToMissouri);
    StWithin3(); StsDistinct(MontanaToPennsylvania);
    StWithin4(); StsDistinct(RhodeIslandToWyoming);
    StWithin5(); StsDistinct(ExtensionRows);
    StAcross12(); StsDisjoint(AlabamaToIdaho, IllinoisToMissouri);
    StAcross13(); StsDisjoint(AlabamaToIdaho, MontanaToPennsylvania);
    StAcross14(); StsDisjoint(AlabamaToIdaho, RhodeIslandToWyoming);
    StAcross15(); StsDisjoint(AlabamaToIdaho, ExtensionRows);
    StAcross23(); StsDisjoint(IllinoisToMissouri, MontanaToPennsylvania);
    StAcross24(); StsDisjoint(IllinoisToMissouri, RhodeIslandToWyoming);
    StAcross25(); StsDisjoint(IllinoisToMissouri, ExtensionRows);
    StAcross34(); StsDisjoint(MontanaToPennsylvania, RhodeIslandToWyoming);
    StAcross35(); StsDisjoint(MontanaToPennsylvania, ExtensionRows);
    StAcross45(); StsDisjoint(RhodeIslandToWyoming, ExtensionRows);
    RunsCombine(AlabamaToIdaho, IllinoisToMissouri, MontanaToPennsylvania, RhodeIslandToWyoming, ExtensionRows, ST);
  }

  lemma StateUnique()
    ensures DistinctOn(BaseRows, STATE) && DistinctOn(ExtensionRows, STATE) && DisjointOn(BaseRows, ExtensionRows, STATE)
  {
    StateWithin1(); StatesDistinct(AlabamaToIdaho);
    StateWithin2(); StatesDistinct(IllinoisToMissouri);
    StateWithin3(); StatesDistinct(MontanaToPennsylvania);
    StateWithin4(); StatesDistinct(RhodeIslandToWyoming);
    StateWithin5(); StatesDistinct(ExtensionRows);
    StateAcross12(); StatesDisjoint(AlabamaToIdaho, IllinoisToMissouri);
    StateAcross13(); StatesDisjoint(AlabamaToIdaho, MontanaToPennsylvania);
    StateAcross14(); StatesDisjoint(AlabamaToIdaho, RhodeIslandToWyoming);
    StateAcross15(); StatesDisjoint(AlabamaToIdaho, ExtensionRows);
    StateAcross23(); StatesDisjoint(IllinoisToMissouri, MontanaToPennsylvania);
    StateAcross24(); StatesDisjoint(IllinoisToMissouri, RhodeIslandToWyoming);
    StateAcross25(); StatesDisjoint(IllinoisToMissouri, ExtensionRows);
    StateAcross34(); StatesDisjoint(MontanaToPennsylvania, RhodeIslandToWyoming);
    StateAcross35(); StatesDisjoint(MontanaToPennsylvania, ExtensionRows);
    StateAcross45(); StatesDisjoint(RhodeIslandToWyoming, ExtensionRows);
    RunsCombine(AlabamaToIdaho, IllinoisToMissouri, MontanaToPennsylvania, RhodeIslandToWyoming, ExtensionRows, STATE);
  }

  lemma FipsUnique()
    ensures DistinctOn(BaseRows, FIPS) && DistinctOn(ExtensionRows, FIPS) && DisjointOn(BaseRows, ExtensionRows, FIPS)
  {
    FipsWithin1(); FipssDistinct(AlabamaToIdaho);
    FipsWithin2(); FipssDistinct(IllinoisToMissouri);
    FipsWithin3(); FipssDistinct(MontanaToPennsylvania);
    FipsWithin4(); FipssDistinct(RhodeIslandToWyoming);
    FipsWithin5(); FipssDistinct(ExtensionRows);
    FipsAcross12(); FipssDisjoint(AlabamaToIdaho, IllinoisToMissouri);
    FipsAcross13(); FipssDisjoint(AlabamaToIdaho, MontanaToPennsylvania);
    FipsAcross14(); FipssDisjoint(AlabamaToIdaho, RhodeIslandToWyoming);
    FipsAcross15(); FipssDisjoint(AlabamaToIdaho, ExtensionRows);
    FipsAcross23(); FipssDisjoint(IllinoisToMissouri, MontanaToPennsylvania);
    FipsAcross24(); FipssDisjoint(IllinoisToMissouri, RhodeIslandToWyoming);
    FipsAcross25(); FipssDisjoint(IllinoisToMissouri, ExtensionRows);
    FipsAcross34(); FipssDisjoint(MontanaToPennsylvania, RhodeIslandToWyoming);
    FipsAcross35(); FipssDisjoint(MontanaToPennsylvania, ExtensionRows);
    FipsAcross45(); FipssDisjoint(RhodeIslandToWyoming, ExtensionRows);
    RunsCombine(AlabamaToIdaho, IllinoisToMissouri, MontanaToPennsylvania, RhodeIslandToWyoming, ExtensionRows, FIPS);
  }

  /** No extension row reuses a code or a name of the base rows. */
  lemma ExtensionCodesAreFresh(c: Column)
    requires IsKeyColumn(c)
    ensures DistinctOn(BaseRows, c) && DistinctOn(ExtensionRows, c)
    ensures DisjointOn(BaseRows, ExtensionRows, c)
  {
    if c == ST {
      StUnique();
    } else if c == STATE {
      StateUnique();
    } else {
      FipsUnique();
    }
  }

  /** ST, STATE and FIPS are each pairwise distinct whichever blocks the flags add. */
  lemma KeyColumnsUnique(withTerritories: bool, withCanada: bool, withMexico: bool, c: Column)
    requires IsKeyColumn(c)
    ensures DistinctOn(StateRows(withTerritories, withCanada, withMexico), c)
  {
    ExtensionCodesAreFresh(c);
    var base := BaseRows;
    DistinctOnSplit(TerritoryRows + CanadaRows, MexicoRows, c);
    DistinctOnSplit(TerritoryRows, CanadaRows, c);
    DisjointOnSplitRight(base, TerritoryRows + CanadaRows, MexicoRows, c);
    DisjointOnSplitRight(base, TerritoryRows, CanadaRows, c);
    DisjointOnSplitLeft(TerritoryRows, CanadaRows, MexicoRows, c);
    var t := if withTerritories then TerritoryRows else [];
    var k := if withCanada then CanadaRows else [];
    var m := if withMexico then MexicoRows else [];
    DistinctOnConcat(base, t, c);
    DisjointOnConcatLeft(base, t, k, c);
    DistinctOnConcat(base + t, k, c);
    DisjointOnConcatLeft(base, t, m, c);
    DisjointOnConcatLeft(base + t, k, m, c);
    DistinctOnConcat(base + t + k, m, c);
    assert StateRows(withTerritories, withCanada, withMexico) == base + t + k + m;
  }
}

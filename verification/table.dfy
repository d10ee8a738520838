/**
 * The state reference table built by the `States` constructor
 * (fips/states.py:95-168): the fifty states and the District of Columbia,
 * then, each behind its own flag, the two US territories, the ten Canadian
 * provinces and one row for Mexico, in that order.
 */
module StateTable {
  import opened Rows

  // The fifty-one base rows (fips/states.py:98-148), in the source's order.
  // They are written as four runs so that the proofs about their key columns
  // work on small pieces; BaseRows is the runs put back together.

  const AlabamaToIdaho: seq<StateRow> := [
      StateRow("Alabama", "AL", "01", -6.0, 1, "EAST", "SERC"),
      StateRow("Alaska", "AK", "02", -9.0, 1, "AK", "NERC"),
      StateRow("Arizona", "AZ", "04", -7.0, 0, "WECC", "WECC"),
      StateRow("Arkansas", "AR", "05", -6.0, 1, "EAST", "SERC"),
      StateRow("California", "CA", "06", -8.0, 1, "WECC", "WECC"),
      StateRow("Colorado", "CO", "08", -7.0, 1, "WECC", "WECC"),
      StateRow("Connecticut", "CT", "09", -5.0, 1, "EAST", "NPCC"),
      StateRow("Delaware", "DE", "10", -5.0, 1, "EAST", "RF"),
      StateRow("District of Columbia", "DC", "11", -5.0, 1, "EAST", "RF"),
      StateRow("Florida", "FL", "12", -5.0, 1, "EAST", "SERC"),
      StateRow("Georgia", "GA", "13", -5.0, 1, "EAST", "SERC"),
      StateRow("Hawaii", "HI", "15", -9.0, 0, "HI", "NERC"),
      StateRow("Idaho", "ID", "16", -7.0, 1, "WECC", "WECC")
    ]

  const IllinoisToMissouri: seq<StateRow> := [
      StateRow("Illinois", "IL", "17", -6.0, 1, "EAST", "SERC|RF|MRO"),
      StateRow("Indiana", "IN", "18", -5.0, 1, "EAST", "RF"),
      StateRow("Iowa", "IA", "19", -6.0, 1, "EAST", "MRO"),
      StateRow("Kansas", "KS", "20", -6.0, 1, "EAST", "MRO"),
      StateRow("Kentucky", "KY", "21", -6.0, 1, "EAST", "SERC"),
      StateRow("Louisiana", "LA", "22", -6.0, 1, "EAST", "SERC"),
      StateRow("Maine", "ME", "23", -5.0, 1, "EAST", "NPCC"),
      StateRow("Maryland", "MD", "24", -5.0, 1, "EAST", "RF"),
      StateRow("Massachusetts", "MA", "25", -5.0, 1, "EAST", "NPCC"),
      StateRow("Michigan", "MI", "26", -5.0, 1, "EAST", "RF|MRO"),
      StateRow("Minnesota", "MN", "27", -6.0, 1, "EAST", "MRO"),
      StateRow("Mississippi", "MS", "28", -6.0, 1, "EAST", "SERC"),
      StateRow("Missouri", "MO", "29", -6.0, 1, "EAST", "SERC|MRO")
    ]

  const MontanaToPennsylvania: seq<StateRow> := [
      StateRow("Montana", "MT", "30", -7.0, 1, "WECC", "WECC|MRO"),
      StateRow("Nebraska", "NE", "31", -6.0, 1, "EAST", "MRO"),
      StateRow("Nevada", "NV", "32", -7.0, 1, "WECC", "WECC"),
      StateRow("New Hampshire", "NH", "33", -5.0, 1, "EAST", "NPCC"),
      StateRow("New Jersey", "NJ", "34", -5.0, 1, "EAST", "RF"),
      StateRow("New Mexico", "NM", "35", -7.0, 1, "WECC", "WECC|MRO"),
      StateRow("New York", "NY", "36", -5.0, 1, "EAST", "NPCC"),
      StateRow("North Carolina", "NC", "37", -5.0, 1, "EAST", "SERC"),
      StateRow("North Dakota", "ND", "38", -6.0, 1, "EAST", "MRO"),
      StateRow("Ohio", "OH", "39", -5.0, 1, "EAST", "RF"),
      StateRow("Oklahoma", "OK", "40", -6.0, 1, "EAST", "MRO|SERC"),
      StateRow("Oregon", "OR", "41", -8.0, 1, "WECC", "WECC"),
      StateRow("Pennsylvania", "PA", "42", -5.0, 1, "EAST", "RF")
    ]

  const RhodeIslandToWyoming: seq<StateRow> := [
      StateRow("Rhode Island", "RI", "44", -5.0, 1, "EAST", "NPCC"),
      StateRow("South Carolina", "SC", "45", -5.0, 1, "EAST", "SERC"),
      StateRow("South Dakota", "SD", "46", -6.0, 1, "EAST", "MRO|WECC"),
      StateRow("Tennessee", "TN", "47", -6.0, 1, "EAST", "SERC"),
      StateRow("Texas", "TX", "48", -6.0, 1, "ERCOT", "TRE|MRO|WECC"),
      StateRow("Utah", "UT", "49", -7.0, 1, "WECC", "WECC"),
      StateRow("Vermont", "VT", "50", -5.0, 1, "EAST", "NPCC"),
      StateRow("Virginia", "VA", "51", -5.0, 1, "EAST", "SERC|RF"),
      StateRow("Washington", "WA", "53", -8.0, 1, "WECC", "WECC"),
      StateRow("West Virginia", "WV", "54", -5.0, 1, "EAST", "RF"),
      StateRow("Wisconsin", "WI", "55", -6.0, 1, "EAST", "MRO|RF"),
      StateRow("Wyoming", "WY", "56", -7.0, 1, "WECC", "WECC")
    ]

  const BaseRows: seq<StateRow> :=
    AlabamaToIdaho + IllinoisToMissouri + MontanaToPennsylvania + RhodeIslandToWyoming

  /**
   * Puerto Rico and the Virgin Islands (fips/states.py:150-151). Their offset
   * is written as the integer -4 in a column of floats, so it reads as -4.0.
   */
  const TerritoryRows: seq<StateRow> := [
      StateRow("Puerto Rico", "PR", "72", -4.0, 0, "PR", "PR"),
      StateRow("Virgin Islands", "VI", "78", -4.0, 0, "VI", "VI")
    ]

  /** The Canadian provinces, with codes C0 to C9 (fips/states.py:154-163). */
  const CanadaRows: seq<StateRow> := [
      StateRow("Alberta", "AB", "C0", -7.0, 1, "WECC", "WECC"),
      StateRow("British Columbia", "BC", "C1", -8.0, 1, "WECC", "WECC"),
      StateRow("Manitoba", "MB", "C2", -6.0, 1, "EAST", "MRO"),
      StateRow("New Brunswick", "NB", "C3", -4.0, 1, "EAST", "NPCC"),
      StateRow("Newfoundland", "NL", "C4", -3.5, 1, "EAST", "NPCC"),
      StateRow("Nova Scotia", "NS", "C5", -4.0, 1, "EAST", "NPCC"),
      StateRow("Ontario", "ON", "C6", -5.0, 1, "EAST", "NPCC"),
      StateRow("Prince Edward Island", "PE", "C7", -4.0, 1, "EAST", "NPCC"),
      StateRow("Quebec", "QC", "C8", -5.0, 1, "QUEBEC", "NPCC"),
      StateRow("Saskatchewan", "SK", "C9", -6.0, 1, "EAST", "MRO")
    ]

  /** Baja California, listed as "Mexico" with code M0 (fips/states.py:166). */
  const MexicoRows: seq<StateRow> := [
      StateRow("Mexico", "MX", "M0", -8.0, 1, "WECC", "WECC|MFEC")
    ]

  /** Every row a flag can add, in the order the flags add them. */
  const ExtensionRows: seq<StateRow> := TerritoryRows + CanadaRows + MexicoRows

  /**
   * The rows of `States(with_territories, with_canada, with_mexico)` before
   * any index is set: the base rows, then each flagged block.
   */
  function StateRows(withTerritories: bool, withCanada: bool, withMexico: bool): (rows: seq<StateRow>)
    ensures |rows| == 51 + (if withTerritories then 2 else 0) + (if withCanada then 10 else 0)
                         + (if withMexico then 1 else 0)
  {
    BaseRows
    + (if withTerritories then TerritoryRows else [])
    + (if withCanada then CanadaRows else [])
    + (if withMexico then MexicoRows else [])
  }

  /** The table with every flag set: the one single-record resolution searches. */
  function FullTable(): (rows: seq<StateRow>)
    ensures |rows| == 64
    ensures rows == BaseRows + ExtensionRows
  {
    StateRows(true, true, true)
  }
}

/**
 * The parts of GFALLIngester that are not database work: the optional ion
 * selection applied to the reader's levels and lines before they are
 * ingested, and the rule that classifies a line's wavelength as measured in
 * vacuum or in air.
 */
module Ingest {
  import opened Common
  import opened Tables
  import opened Levels
  import opened Lines
  import opened GfallLines

  datatype Medium = Vacuum | Air

  /** MEDIUM_VACUUM up to GFALL_AIR_THRESHOLD nm inclusive, MEDIUM_AIR above it. */
  function MediumOf(nm: real): (m: Medium)
    ensures m == Vacuum <==> nm <= AirThreshold
    ensures m == Air <==> nm > AirThreshold
  {
    if nm <= AirThreshold then Vacuum else Air
  }

  /** The selection step: no ion list keeps the table; otherwise the inner join with the list. */
  function SelectIons<T(!new)>(table: seq<T>, ions: Option<seq<IonKey>>, ionOf: T -> IonKey): seq<T>
  {
    if ions.None? then table else JoinIons(table, ions.value, ionOf)
  }

  /** ingest_levels' selection of the reader's levels. */
  function IngestLevels(levels: seq<Level>, ions: Option<seq<IonKey>>): seq<Level>
  {
    SelectIons(levels, ions, LevelIon)
  }

  /** ingest_lines' selection of the reader's lines. */
  function IngestLines(lines: seq<Line>, ions: Option<seq<IonKey>>): seq<Line>
  {
    SelectIons(lines, ions, LineIon)
  }

  // ---- lemmas ----

  /** The number of copies of `y` in `n` copies of `x`. */
  lemma {:induction false} RepeatCount<T(!new)>(x: T, n: nat, y: T)
    ensures multiset(Repeat(x, n))[y] == if y == x then n else 0
  {
    if n > 0 {
      RepeatCount(x, n - 1, y);
      assert Repeat(x, n) == [x] + Repeat(x, n - 1);
    }
  }

  /**
   * With a duplicate-free ion list the inner join keeps every row of a
   * listed ion as often as the table has it, and drops the others.
   */
  lemma {:induction false} JoinIonsCount<T(!new)>(table: seq<T>, ions: seq<IonKey>, ionOf: T -> IonKey, x: T)
    requires NoDuplicates(ions)
    ensures multiset(JoinIons(table, ions, ionOf))[x] == if ionOf(x) in ions then multiset(table)[x] else 0
  {
    if table != [] {
      var rest := table[1..];
      JoinIonsCount(rest, ions, ionOf, x);
      var n0 := Occurrences(ions, ionOf(table[0]));
      OccurrencesOfDistinct(ions, ionOf(table[0]));
      RepeatCount(table[0], n0, x);
      assert JoinIons(table, ions, ionOf) == Repeat(table[0], n0) + JoinIons(rest, ions, ionOf);
      assert table == [table[0]] + rest;
    }
  }

  /**
   * Without an ion list every row is ingested; with a duplicate-free list,
   * a row is ingested exactly as often as it occurs in the table if its ion
   * is listed, and never otherwise.
   */
  lemma SelectIonsSpec<T(!new)>(table: seq<T>, ions: Option<seq<IonKey>>, ionOf: T -> IonKey)
    ensures ions.None? ==> SelectIons(table, ions, ionOf) == table
    ensures ions.Some? && NoDuplicates(ions.value) ==>
      forall x :: multiset(SelectIons(table, ions, ionOf))[x] == if ionOf(x) in ions.value then multiset(table)[x] else 0
  {
    if ions.Some? && NoDuplicates(ions.value) {
      forall x ensures multiset(SelectIons(table, ions, ionOf))[x] == if ionOf(x) in ions.value then multiset(table)[x] else 0 {
        JoinIonsCount(table, ions.value, ionOf, x);
      }
    }
  }

  /**
   * GFALL and the ingester classify wavelengths the same way: GFALL applies
   * the air-to-vacuum conversion exactly to the lines the ingester marks as
   * measured in air.
   */
  lemma MediumAgrees(nm: real, units: Units)
    ensures VacuumWavelength(nm, units)
      == if MediumOf(nm) == Air then units.airToVacuum(units.nmToAngstrom(nm)) else units.nmToAngstrom(nm)
  {
  }
}

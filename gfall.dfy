/**
 * The GFALL parser object: it owns a GFALLReader over the gfall file (with
 * the default level identifier), takes the selected ions and NIST's
 * ionization energies and ground levels as given, and on construction builds
 * `_levels_all` and `levels`. Building them writes the g column into the
 * reader's cached levels table.
 */
module Gfall {
  import opened Common
  import opened Tables
  import opened Normalize
  import opened Levels
  import opened Lines
  import opened Reader
  import opened GfallLevels
  import opened GfallLines

  class GfallParser {
    /** `self.ions`, as parse_selected_species returns them. */
    const ions: seq<IonKey>
    const reader: GfallReader
    /** `self.ionization_energies`: NIST's ionization table. */
    const ionizationEnergies: seq<IonizationRow>
    /** `self.ground_levels`: NIST's ground levels. */
    const groundLevels: seq<GroundLevel>
    const units: Units

    var levelsAll: seq<LevelsAllRow>
    var levels: seq<FinalLevel>

    /** The reader's levels table: extract_levels with the default identifier. */
    function ReaderLevels(): seq<Level>
    {
      reader.LevelTable(DefaultIdentifier)
    }

    /** What _get_all_levels_data returns for this file, these ions and this ground table. */
    function AllLevels(): seq<LevelsAllRow>
    {
      LevelsAll(groundLevels, WithWeights(ReaderLevels()), ions, units.wavenumberToEv)
    }

    /** The levels table _create_levels_lines builds from `_levels_all`. */
    function LevelsFrom(all: seq<LevelsAllRow>): seq<FinalLevel>
    {
      var culled := Culled(all, ionizationEnergies);
      FinalLevels(culled, Map(ElementNumbers(culled), Artificial))
    }

    /** The reader's lines table. */
    function ReaderLines(): seq<Line>
    {
      ExtractLines(reader.Parsed(), ReaderLevels(), DefaultIdentifier, reader.pow10)
    }

    /**
     * The reader is valid, stores the default identifier, uses this object's
     * 10**x and caches its levels with the g column; `_levels_all` and
     * `levels` are what _create_levels_lines built.
     */
    ghost predicate Valid()
      reads this, reader
    {
      && reader.Valid()
      && reader.identifier == Some(DefaultIdentifier) && reader.pow10 == units.pow10
      && reader.levels == Some(WithWeights(ReaderLevels()))
      && levelsAll == AllLevels()
      && levels == LevelsFrom(levelsAll)
    }

    /** `GFALL(fname, ions)`: a fresh reader, then _create_levels_lines. */
    constructor(fileLines: seq<RawLine>, ions: seq<IonKey>, ionizationEnergies: seq<IonizationRow>,
                groundLevels: seq<GroundLevel>, units: Units)
      ensures Valid()
      ensures fresh(reader)
      ensures reader.fileLines == fileLines
      ensures this.ions == ions && this.ionizationEnergies == ionizationEnergies
      ensures this.groundLevels == groundLevels && this.units == units
      ensures reader.levels == Some(WithWeights(ReaderLevels())) && reader.lines.None?
    {
      this.ions := ions;
      this.ionizationEnergies := ionizationEnergies;
      this.groundLevels := groundLevels;
      this.units := units;
      reader := new GfallReader(fileLines, None, units.pow10);
      new;
      CreateLevelsLines();
    }

    /**
     * _get_all_levels_data: adds g = int(2j + 1) to the reader's cached levels
     * in place, then builds `_levels_all` from the ground levels and the
     * selected ions' levels.
     */
    method GetAllLevelsData() returns (all: seq<LevelsAllRow>)
      requires reader.Valid() && reader.identifier == Some(DefaultIdentifier)
      modifies reader
      ensures reader.Valid()
      ensures all == AllLevels()
      ensures reader.levels == Some(WithWeights(ReaderLevels()))
      ensures reader.gfallRaw == Some(reader.Raw()) && reader.gfall == Some(reader.Parsed())
      ensures reader.lines == old(reader.lines)
    {
      hide ExtractLevels, ParseGfall, ExtractLines, WithWeights;
      var weighted := reader.AddWeights();
      all := LevelsAll(groundLevels, weighted.value, ions, units.wavenumberToEv);
    }

    /**
     * _create_levels_lines: culls `_levels_all` at the ionization energies,
     * numbers the survivors, appends the artificial levels and sorts.
     */
    method CreateLevelsLines()
      requires reader.Valid() && reader.identifier == Some(DefaultIdentifier) && reader.pow10 == units.pow10
      modifies this, reader
      ensures Valid()
      ensures reader.levels == Some(WithWeights(ReaderLevels()))
      ensures reader.lines == old(reader.lines)
    {
      hide ExtractLevels, ParseGfall, ExtractLines, LevelsAll, Culled, FinalLevels, WithWeights, ElementNumbers;
      var all := GetAllLevelsData();
      var culled := Culled(all, ionizationEnergies);
      var artificial := CreateArtificialFullyIonized(culled);
      ghost var zs := ElementNumbers(culled);
      assert artificial == Map(zs, Artificial) by {
        assert |artificial| == |zs|;
        assert forall i :: 0 <= i < |zs| ==> artificial[i] == Map(zs, Artificial)[i];
      }
      levelsAll := all;
      levels := FinalLevels(culled, artificial);
    }

    /**
     * _get_all_lines_data: reads the reader's lines (caching them) and remaps
     * their level indices through `_levels_all`.
     */
    method GetAllLinesData() returns (r: Result<seq<FinalLine>>)
      requires Valid()
      modifies reader
      ensures Valid()
      ensures r == LinesData(ReaderLines(), ions, levelsAll, units)
      ensures reader.lines == Some(ReaderLines())
      ensures reader.levels == old(reader.levels)
    {
      hide ExtractLevels, ParseGfall, ExtractLines, LevelsAll, Culled, FinalLevels, WithWeights, ElementNumbers;
      var lines := reader.GetLines();
      r := GfallLines.GetAllLinesData(lines.value, ions, levelsAll, units);
    }
  }

  /**
   * Every line of the GFALL object's reader finds both of its levels in the
   * reader's levels table (with the g column or without it): the lookup
   * never yields NaN on the file's own lines.
   */
  lemma ReaderLinesResolved(p: GfallParser)
    requires p.Valid()
    ensures forall line :: line in p.ReaderLines() ==>
      line.levelIndexLower.Some? && line.levelIndexUpper.Some?
  {
    ExtractLinesResolved(p.reader.Parsed(), DefaultIdentifier, p.reader.pow10);
  }
}

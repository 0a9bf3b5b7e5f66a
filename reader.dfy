/**
 * GFALLReader: the object that reads one gfall file and caches each stage
 * (gfall_raw, gfall, levels, lines) in a field the first time it is asked
 * for. The file's contents are a constructor argument; reading it is left to
 * read_fwf. The methods only relate the caches to the stage functions and
 * never need those functions' definitions, so each one hides them.
 */
module Reader {
  import opened Common
  import opened Normalize
  import opened Levels
  import opened Lines

  /** GFALLReader.default_unique_level_identifier. */
  const DefaultIdentifier: seq<Attr> := [Energy, J]

  class GfallReader {
    /** The records and blank lines of the file, as read_fwf returns them. */
    const fileLines: seq<RawLine>
    /** `self.unique_level_identifier`; None when the attribute was never set. */
    const identifier: Option<seq<Attr>>
    /** 10**x, the one floating-point transform the reader applies. */
    const pow10: real -> real

    var gfallRaw: Option<seq<RawRow>>
    var gfall: Option<seq<NormRow>>
    var levels: Option<seq<Level>>
    var lines: Option<seq<Line>>

    function Raw(): seq<RawRow>
    {
      DropBlank(fileLines)
    }

    function Parsed(): seq<NormRow>
    {
      ParseGfall(Raw())
    }

    /** The levels table for the stored identifier. */
    function LevelTable(id: seq<Attr>): seq<Level>
    {
      ExtractLevels(Parsed(), id)
    }

    /**
     * Each cache is empty or holds what its stage computes from the file; the
     * cached levels may already carry the g column GFALL adds. A later stage
     * is only cached once the stages it reads are.
     */
    ghost predicate Valid()
      reads this
    {
      && (gfallRaw.Some? ==> gfallRaw.value == Raw())
      && (gfall.Some? ==> gfall.value == Parsed() && gfallRaw.Some?)
      && (levels.Some? ==>
            identifier.Some? && gfall.Some?
            && (levels.value == LevelTable(identifier.value) || levels.value == WithWeights(LevelTable(identifier.value))))
      && (lines.Some? ==>
            identifier.Some? && levels.Some?
            && lines.value == ExtractLines(Parsed(), LevelTable(identifier.value), identifier.value, pow10))
    }

    /**
     * `GFALLReader(fname, unique_level_identifier)`: every cache starts empty;
     * only the default branch stores an identifier, so one passed by the
     * caller is never stored.
     */
    constructor(fileLines: seq<RawLine>, identifier: Option<seq<Attr>>, pow10: real -> real)
      ensures Valid()
      ensures this.fileLines == fileLines && this.pow10 == pow10
      ensures this.identifier == if identifier.None? then Some(DefaultIdentifier) else None
      ensures gfallRaw.None? && gfall.None? && levels.None? && lines.None?
    {
      this.fileLines := fileLines;
      this.pow10 := pow10;
      this.identifier := if identifier.None? then Some(DefaultIdentifier) else None;
      gfallRaw := None;
      gfall := None;
      levels := None;
      lines := None;
    }

    /** read_gfall_raw: the records of the file, blank lines dropped; no cache is touched. */
    method ReadGfallRaw() returns (r: seq<RawRow>)
      ensures r == Raw()
      ensures forall x :: x in r <==> Record(x) in fileLines
    {
      r := DropBlank(fileLines);
    }

    /** The gfall_raw property. */
    method GetGfallRaw() returns (r: seq<RawRow>)
      requires Valid()
      modifies this
      ensures Valid()
      ensures r == Raw()
      ensures gfallRaw == Some(Raw())
      ensures gfall == old(gfall) && levels == old(levels) && lines == old(lines)
    {
      hide ExtractLevels, ParseGfall, ExtractLines, WithWeights;
      if gfallRaw.None? {
        var raw := ReadGfallRaw();
        gfallRaw := Some(raw);
      }
      r := gfallRaw.value;
    }

    /** parse_gfall(gfall_raw): the argument when given, else the cached raw table. */
    method ParseGfallFrom(raw: Option<seq<RawRow>>) returns (r: seq<NormRow>)
      requires Valid()
      modifies this
      ensures Valid()
      ensures r == ParseGfall(if raw.Some? then raw.value else Raw())
      ensures gfallRaw == if raw.None? then Some(Raw()) else old(gfallRaw)
      ensures gfall == old(gfall) && levels == old(levels) && lines == old(lines)
    {
      hide ExtractLevels, ParseGfall, ExtractLines, WithWeights;
      var source: seq<RawRow>;
      if raw.Some? {
        source := raw.value;
      } else {
        source := GetGfallRaw();
      }
      r := ParseGfall(source);
    }

    /** The gfall property. */
    method GetGfall() returns (r: seq<NormRow>)
      requires Valid()
      modifies this
      ensures Valid()
      ensures r == Parsed()
      ensures gfallRaw == Some(Raw()) && gfall == Some(Parsed())
      ensures levels == old(levels) && lines == old(lines)
    {
      hide ExtractLevels, ParseGfall, ExtractLines, WithWeights;
      if gfall.None? {
        var parsed := ParseGfallFrom(None);
        gfall := Some(parsed);
      }
      r := gfall.value;
    }

    /**
     * extract_levels(gfall): the levels of the given table, or of the cached
     * one; an AttributeError when no identifier was stored.
     */
    method ExtractLevelsFrom(table: Option<seq<NormRow>>) returns (r: Result<seq<Level>>)
      requires Valid()
      modifies this
      ensures Valid()
      ensures r == if identifier.None? then Err(MissingIdentifier)
                   else Ok(ExtractLevels(if table.Some? then table.value else Parsed(), identifier.value))
      ensures table.None? ==> gfallRaw == Some(Raw()) && gfall == Some(Parsed())
      ensures table.Some? ==> gfallRaw == old(gfallRaw) && gfall == old(gfall)
      ensures levels == old(levels) && lines == old(lines)
    {
      hide ExtractLevels, ParseGfall, ExtractLines, WithWeights;
      var source: seq<NormRow>;
      if table.Some? {
        source := table.value;
      } else {
        source := GetGfall();
      }
      if identifier.None? {
        return Err(MissingIdentifier);
      }
      r := Ok(ExtractLevels(source, identifier.value));
    }

    /** The levels property: the cached table, else extract_levels() cached on success. */
    method GetLevels() returns (r: Result<seq<Level>>)
      requires Valid()
      modifies this
      ensures Valid()
      ensures old(levels).Some? ==> r == Ok(old(levels).value) && unchanged(this)
      ensures old(levels).None? ==>
        && r == (if identifier.None? then Err(MissingIdentifier) else Ok(LevelTable(identifier.value)))
        && gfallRaw == Some(Raw()) && gfall == Some(Parsed())
        && levels == (if r.Ok? then Some(r.value) else None)
        && lines == old(lines)
      ensures r.Ok? ==>
        identifier.Some? && (r.value == LevelTable(identifier.value) || r.value == WithWeights(LevelTable(identifier.value)))
    {
      hide ExtractLevels, ParseGfall, ExtractLines, WithWeights;
      if levels.Some? {
        return Ok(levels.value);
      }
      r := ExtractLevelsFrom(None);
      if r.Ok? {
        levels := Some(r.value);
      }
    }

    /**
     * extract_lines(gfall, levels): the lines of the given (or cached) table,
     * joined against `self.levels` whatever `levels` argument is passed; an
     * AttributeError when no identifier was stored.
     */
    method ExtractLinesFrom(table: Option<seq<NormRow>>, levelTable: Option<seq<Level>>) returns (r: Result<seq<Line>>)
      requires Valid()
      modifies this
      ensures Valid()
      ensures r == if identifier.None? then Err(MissingIdentifier)
                   else Ok(ExtractLines(if table.Some? then table.value else Parsed(),
                                        LevelTable(identifier.value), identifier.value, pow10))
      ensures identifier.Some? ==> gfallRaw == Some(Raw()) && gfall == Some(Parsed()) && levels.Some?
      ensures identifier.None? && (table.None? || levelTable.None?) ==> gfallRaw == Some(Raw()) && gfall == Some(Parsed())
      ensures identifier.None? && table.Some? && levelTable.Some? ==> gfallRaw == old(gfallRaw) && gfall == old(gfall)
      ensures identifier.Some? ==> levels == if old(levels).Some? then old(levels) else Some(LevelTable(identifier.value))
      ensures identifier.None? ==> levels == old(levels)
      ensures lines == old(lines)
    {
      hide ExtractLevels, ParseGfall, ExtractLines, WithWeights;
      var source: seq<NormRow>;
      if table.Some? {
        source := table.value;
      } else {
        source := GetGfall();
      }
      if levelTable.None? {
        var own := GetLevels();
        if own.Err? {
          return Err(own.error);
        }
      }
      if identifier.None? {
        return Err(MissingIdentifier);
      }
      var joined := GetLevels();
      assert joined.Ok?;
      var id := identifier.value;
      if joined.value == WithWeights(LevelTable(id)) {
        ExtractLinesWeights(source, LevelTable(id), id, pow10);
      }
      r := Ok(ExtractLines(source, joined.value, id, pow10));
    }

    /** The lines property: the cached table, else extract_lines() cached on success. */
    method GetLines() returns (r: Result<seq<Line>>)
      requires Valid()
      modifies this
      ensures Valid()
      ensures old(lines).Some? ==> r == Ok(old(lines).value) && unchanged(this)
      ensures old(lines).None? ==>
        && r == (if identifier.None? then Err(MissingIdentifier)
                 else Ok(ExtractLines(Parsed(), LevelTable(identifier.value), identifier.value, pow10)))
        && gfallRaw == Some(Raw()) && gfall == Some(Parsed())
        && lines == (if r.Ok? then Some(r.value) else None)
      ensures identifier.Some? ==> levels == if old(levels).Some? then old(levels) else Some(LevelTable(identifier.value))
      ensures identifier.None? ==> levels == old(levels)
    {
      hide ExtractLevels, ParseGfall, ExtractLines, WithWeights;
      if lines.Some? {
        return Ok(lines.value);
      }
      r := ExtractLinesFrom(None, None);
      ghost var extracted := levels;
      if r.Ok? {
        lines := Some(r.value);
      }
      assert levels == extracted;
    }

    /**
     * `gf.levels['g'] = 2 * gf.levels['j'] + 1` as GFALL runs it: reads the
     * levels property and adds the g column to the cached table in place.
     */
    method AddWeights() returns (r: Result<seq<Level>>)
      requires Valid()
      modifies this
      ensures Valid()
      ensures r == if identifier.None? then Err(MissingIdentifier) else Ok(WithWeights(LevelTable(identifier.value)))
      ensures r.Ok? ==> levels == Some(r.value)
      ensures gfallRaw == Some(Raw()) && gfall == Some(Parsed())
      ensures lines == old(lines)
    {
      hide ExtractLevels, ParseGfall, ExtractLines, WithWeights;
      var current := GetLevels();
      if current.Err? {
        return current;
      }
      WithWeightsIdempotent(LevelTable(identifier.value));
      levels := Some(WithWeights(current.value));
      r := Ok(levels.value);
    }
  }
}

/**
 * The line side of GFALL (_get_all_lines_data): for every selected ion in
 * turn, its lines from GFALLReader.lines get the level_id of their lower and
 * upper level by position in the ion's slice of `_levels_all`; the lines of
 * all ions are then numbered line_id 1..n, get loggf, and their wavelengths
 * are converted from nm to angstrom and, for air wavelengths, to vacuum.
 */
module GfallLines {
  import opened Common
  import opened Tables
  import opened Lines
  import opened Levels
  import opened Normalize
  import opened GfallLevels

  /** GFALL_AIR_THRESHOLD: wavelengths up to 200 nm are vacuum, longer ones air. */
  const AirThreshold: real := 200.0

  /** One row of GFALL.lines. */
  datatype FinalLine = FinalLine(
    lineId: nat,
    lowerLevelId: int,
    upperLevelId: int,
    wavelength: real,
    gf: real,
    loggf: real)

  /** A line of the reader with the level_ids found for it. */
  datatype Resolved = Resolved(line: Line, lowerLevelId: int, upperLevelId: int)

  function LineIon(l: Line): IonKey
  {
    IonKey(l.atomicNumber, l.ionCharge)
  }

  /** `gf.lines.loc[ion]`: the ion's lines, in table order. */
  function IonLines(lines: seq<Line>, ion: IonKey): seq<Line>
  {
    Members(lines, LineIon, ion)
  }

  /** `_levels_all.set_index(['atomic_number', 'ion_number']).loc[ion]`: the ion's rows, in table order. */
  function IonSlice(levelsAll: seq<LevelsAllRow>, ion: IonKey): seq<LevelsAllRow>
  {
    Members(levelsAll, AllRowIon, ion)
  }

  /**
   * The body of the inner loop for one line: both level indices are turned
   * into integers (lower first; NaN raises), then the upper and the lower
   * position are looked up in the slice (a position past its end raises).
   */
  function ResolveLine(line: Line, slice: seq<LevelsAllRow>, ion: IonKey): (r: Result<Resolved>)
    ensures r.Ok? <==>
      && line.levelIndexLower.Some? && line.levelIndexUpper.Some?
      && line.levelIndexLower.value < |slice| && line.levelIndexUpper.value < |slice|
    ensures r.Ok? ==>
      r.value == Resolved(line, slice[line.levelIndexLower.value].levelId, slice[line.levelIndexUpper.value].levelId)
  {
    if line.levelIndexLower.None? || line.levelIndexUpper.None? then Err(LevelIndexMissing(ion))
    else
      var lower, upper := line.levelIndexLower.value, line.levelIndexUpper.value;
      if upper >= |slice| then Err(LevelPositionNotFound(ion, upper))
      else if lower >= |slice| then Err(LevelPositionNotFound(ion, lower))
      else Ok(Resolved(line, slice[lower].levelId, slice[upper].levelId))
  }

  /** The inner loop over the ion's lines: stops at the first line that raises. */
  function ResolveLines(rows: seq<Line>, slice: seq<LevelsAllRow>, ion: IonKey): Result<seq<Resolved>>
  {
    if rows == [] then Ok([])
    else
      var prev :- ResolveLines(rows[..|rows| - 1], slice, ion);
      var last :- ResolveLine(rows[|rows| - 1], slice, ion);
      Ok(prev + [last])
  }

  /** The body of the outer loop for one ion. */
  function ResolveIon(lines: seq<Line>, levelsAll: seq<LevelsAllRow>, ion: IonKey): Result<seq<Resolved>>
  {
    var rows := IonLines(lines, ion);
    if rows == [] then Err(IonNotFound(ion))
    else
      var slice := IonSlice(levelsAll, ion);
      if slice == [] then Err(IonNotFound(ion))
      else ResolveLines(rows, slice, ion)
  }

  /** The outer loop over the selected ions: stops at the first ion that raises. */
  function ResolveIons(lines: seq<Line>, ions: seq<IonKey>, levelsAll: seq<LevelsAllRow>): Result<seq<Resolved>>
  {
    if ions == [] then Ok([])
    else
      var prev :- ResolveIons(lines, ions[..|ions| - 1], levelsAll);
      var cur :- ResolveIon(lines, levelsAll, ions[|ions| - 1]);
      Ok(prev + cur)
  }

  /** The wavelength column: nm to angstrom, then air to vacuum on the air rows. */
  function VacuumWavelength(nm: real, units: Units): real
  {
    var angstrom := units.nmToAngstrom(nm);
    if nm <= AirThreshold then angstrom else units.airToVacuum(angstrom)
  }

  function FinishLine(x: Resolved, id: nat, units: Units): FinalLine
  {
    FinalLine(id, x.lowerLevelId, x.upperLevelId, VacuumWavelength(x.line.wavelength, units), x.line.gf, units.log10(x.line.gf))
  }

  /** The concatenated lines numbered from 1, with their derived columns. */
  function Finish(rs: seq<Resolved>, units: Units): (r: seq<FinalLine>)
    ensures |r| == |rs|
    ensures forall i :: 0 <= i < |rs| ==> r[i] == FinishLine(rs[i], i + 1, units)
  {
    seq(|rs|, i requires 0 <= i < |rs| => FinishLine(rs[i], i + 1, units))
  }

  /** _get_all_lines_data; `pd.concat` of no tables raises. */
  function LinesData(lines: seq<Line>, ions: seq<IonKey>, levelsAll: seq<LevelsAllRow>, units: Units): Result<seq<FinalLine>>
  {
    var rs :- ResolveIons(lines, ions, levelsAll);
    if ions == [] then Err(NothingToConcatenate) else Ok(Finish(rs, units))
  }

  /** _get_all_lines_data's two loops. */
  method GetAllLinesData(lines: seq<Line>, ions: seq<IonKey>, levelsAll: seq<LevelsAllRow>, units: Units)
    returns (r: Result<seq<FinalLine>>)
    ensures r == LinesData(lines, ions, levelsAll, units)
  {
    var all: seq<Resolved> := [];
    var k := 0;
    while k < |ions|
      invariant 0 <= k <= |ions|
      invariant ResolveIons(lines, ions[..k], levelsAll) == Ok(all)
    {
      var ion := ions[k];
      assert ions[..k + 1][..k] == ions[..k];
      var rows := IonLines(lines, ion);
      if rows == [] {
        IonsErrorSticks(lines, ions, levelsAll, k + 1);
        return Err(IonNotFound(ion));
      }
      var slice := IonSlice(levelsAll, ion);
      if slice == [] {
        IonsErrorSticks(lines, ions, levelsAll, k + 1);
        return Err(IonNotFound(ion));
      }
      var found: seq<Resolved> := [];
      var m := 0;
      while m < |rows|
        invariant 0 <= m <= |rows|
        invariant ResolveLines(rows[..m], slice, ion) == Ok(found)
      {
        var line := rows[m];
        assert rows[..m + 1][..m] == rows[..m];
        if line.levelIndexLower.None? || line.levelIndexUpper.None? {
          LinesErrorSticks(rows, slice, ion, m + 1);
          IonsErrorSticks(lines, ions, levelsAll, k + 1);
          return Err(LevelIndexMissing(ion));
        }
        var lower := line.levelIndexLower.value;
        var upper := line.levelIndexUpper.value;
        if upper >= |slice| {
          LinesErrorSticks(rows, slice, ion, m + 1);
          IonsErrorSticks(lines, ions, levelsAll, k + 1);
          return Err(LevelPositionNotFound(ion, upper));
        }
        if lower >= |slice| {
          LinesErrorSticks(rows, slice, ion, m + 1);
          IonsErrorSticks(lines, ions, levelsAll, k + 1);
          return Err(LevelPositionNotFound(ion, lower));
        }
        found := found + [Resolved(line, slice[lower].levelId, slice[upper].levelId)];
        m := m + 1;
      }
      assert rows[..m] == rows;
      all := all + found;
      k := k + 1;
    }
    assert ions[..k] == ions;
    if ions == [] {
      return Err(NothingToConcatenate);
    }
    r := Ok(Finish(all, units));
  }

  // ---- lemmas ----

  /** Once a line of the ion raises, the ion's loop raises the same error. */
  lemma {:induction false} LinesErrorSticks(rows: seq<Line>, slice: seq<LevelsAllRow>, ion: IonKey, m: int)
    requires 0 <= m <= |rows|
    requires ResolveLines(rows[..m], slice, ion).Err?
    ensures ResolveLines(rows, slice, ion) == ResolveLines(rows[..m], slice, ion)
    decreases |rows|
  {
    if m < |rows| {
      var p := rows[..|rows| - 1];
      assert p[..m] == rows[..m];
      LinesErrorSticks(p, slice, ion, m);
    } else {
      assert rows[..m] == rows;
    }
  }

  /** Once an ion raises, the whole loop raises the same error. */
  lemma {:induction false} IonsErrorSticks(lines: seq<Line>, ions: seq<IonKey>, levelsAll: seq<LevelsAllRow>, k: int)
    requires 0 <= k <= |ions|
    requires ResolveIons(lines, ions[..k], levelsAll).Err?
    ensures ResolveIons(lines, ions, levelsAll) == ResolveIons(lines, ions[..k], levelsAll)
    decreases |ions|
  {
    if k < |ions| {
      var p := ions[..|ions| - 1];
      assert p[..k] == ions[..k];
      IonsErrorSticks(lines, p, levelsAll, k);
    } else {
      assert ions[..k] == ions;
    }
  }

  /**
   * The inner loop succeeds exactly when every line of the ion has both
   * level indices and both lie inside the slice; then it resolves every line,
   * in order, to the level_ids at those positions.
   */
  lemma {:induction false} ResolveLinesSpec(rows: seq<Line>, slice: seq<LevelsAllRow>, ion: IonKey)
    ensures ResolveLines(rows, slice, ion).Ok? <==> forall i :: 0 <= i < |rows| ==> ResolveLine(rows[i], slice, ion).Ok?
    ensures ResolveLines(rows, slice, ion).Ok? ==>
      && |ResolveLines(rows, slice, ion).value| == |rows|
      && forall i :: 0 <= i < |rows| ==> ResolveLines(rows, slice, ion).value[i] == ResolveLine(rows[i], slice, ion).value
  {
    if rows != [] {
      var n := |rows| - 1;
      var p := rows[..n];
      ResolveLinesSpec(p, slice, ion);
      assert forall i :: 0 <= i < n ==> p[i] == rows[i];
      if ResolveLines(rows, slice, ion).Ok? {
        var rs := ResolveLines(rows, slice, ion).value;
        var prev := ResolveLines(p, slice, ion).value;
        assert rs == prev + [ResolveLine(rows[n], slice, ion).value];
        assert forall i :: 0 <= i < n ==> rs[i] == prev[i];
      }
    }
  }

  /** The lines of the selected ions, ion by ion, each ion's in table order. */
  function SelectedLines(lines: seq<Line>, ions: seq<IonKey>): seq<Line>
  {
    if ions == [] then [] else SelectedLines(lines, ions[..|ions| - 1]) + IonLines(lines, ions[|ions| - 1])
  }

  function LineOfResolved(x: Resolved): Line
  {
    x.line
  }

  /** Every selected ion has lines and rows in `_levels_all`, and each of its lines resolves. */
  predicate Resolvable(lines: seq<Line>, ions: seq<IonKey>, levelsAll: seq<LevelsAllRow>)
  {
    forall ion :: ion in ions ==> IonResolvable(lines, levelsAll, ion)
  }

  /** The ion has lines and rows in `_levels_all`, and each of its lines resolves. */
  predicate IonResolvable(lines: seq<Line>, levelsAll: seq<LevelsAllRow>, ion: IonKey)
  {
    && IonLines(lines, ion) != [] && IonSlice(levelsAll, ion) != []
    && forall l :: l in IonLines(lines, ion) ==> ResolveLine(l, IonSlice(levelsAll, ion), ion).Ok?
  }

  /** The ion's loop succeeds exactly when every line of the ion resolves. */
  lemma ResolveLinesOk(rows: seq<Line>, slice: seq<LevelsAllRow>, ion: IonKey)
    ensures ResolveLines(rows, slice, ion).Ok? <==> forall l :: l in rows ==> ResolveLine(l, slice, ion).Ok?
  {
    ResolveLinesSpec(rows, slice, ion);
    assert forall l :: l in rows <==> exists i :: 0 <= i < |rows| && rows[i] == l;
  }

  /** A successful ion loop keeps the ion's lines in order and resolves each of them. */
  lemma ResolveLinesKeeps(lines: seq<Line>, slice: seq<LevelsAllRow>, ion: IonKey)
    requires ResolveLines(IonLines(lines, ion), slice, ion).Ok?
    ensures Map(ResolveLines(IonLines(lines, ion), slice, ion).value, LineOfResolved) == IonLines(lines, ion)
    ensures forall x :: x in ResolveLines(IonLines(lines, ion), slice, ion).value ==>
      LineIon(x.line) == ion && ResolveLine(x.line, slice, ion) == Ok(x)
  {
    var rows := IonLines(lines, ion);
    var cur := ResolveLines(rows, slice, ion).value;
    ResolveLinesSpec(rows, slice, ion);
    forall x | x in cur ensures LineIon(x.line) == ion && ResolveLine(x.line, slice, ion) == Ok(x) {
      var i :| 0 <= i < |cur| && cur[i] == x;
      assert rows[i] in rows;
    }
  }

  /** The loops succeed exactly when every selected ion resolves. */
  lemma {:induction false} ResolveIonsOk(lines: seq<Line>, ions: seq<IonKey>, levelsAll: seq<LevelsAllRow>)
    ensures ResolveIons(lines, ions, levelsAll).Ok? <==> Resolvable(lines, ions, levelsAll)
  {
    if ions != [] {
      var n := |ions| - 1;
      var p := ions[..n];
      var ion := ions[n];
      ResolveIonsOk(lines, p, levelsAll);
      ResolvableSnoc(lines, ions, levelsAll);
      ResolveIonOk(lines, levelsAll, ion);
    }
  }

  lemma ResolveIonOk(lines: seq<Line>, levelsAll: seq<LevelsAllRow>, ion: IonKey)
    ensures ResolveIon(lines, levelsAll, ion).Ok? <==> IonResolvable(lines, levelsAll, ion)
  {
    ResolveLinesOk(IonLines(lines, ion), IonSlice(levelsAll, ion), ion);
  }

  lemma ResolvableSnoc(lines: seq<Line>, ions: seq<IonKey>, levelsAll: seq<LevelsAllRow>)
    requires ions != []
    ensures Resolvable(lines, ions, levelsAll) <==>
      Resolvable(lines, ions[..|ions| - 1], levelsAll) && IonResolvable(lines, levelsAll, ions[|ions| - 1])
  {
    assert forall x :: x in ions <==> x in ions[..|ions| - 1] || x == ions[|ions| - 1];
  }

  /**
   * A successful run keeps every line of every selected ion, in order,
   * including lines whose levels the cull removed, and each line's level_ids
   * are those at its level_index positions in its ion's slice of `_levels_all`.
   */
  lemma {:induction false} ResolveIonsLines(lines: seq<Line>, ions: seq<IonKey>, levelsAll: seq<LevelsAllRow>)
    requires ResolveIons(lines, ions, levelsAll).Ok?
    ensures Map(ResolveIons(lines, ions, levelsAll).value, LineOfResolved) == SelectedLines(lines, ions)
    ensures forall x :: x in ResolveIons(lines, ions, levelsAll).value ==>
      ResolveLine(x.line, IonSlice(levelsAll, LineIon(x.line)), LineIon(x.line)) == Ok(x)
  {
    if ions != [] {
      var n := |ions| - 1;
      var p := ions[..n];
      var ion := ions[n];
      ResolveIonsLines(lines, p, levelsAll);
      var prev := ResolveIons(lines, p, levelsAll).value;
      var cur := ResolveLines(IonLines(lines, ion), IonSlice(levelsAll, ion), ion).value;
      assert ResolveIons(lines, ions, levelsAll).value == prev + cur;
      MapAppend(prev, cur, LineOfResolved);
      ResolveLinesKeeps(lines, IonSlice(levelsAll, ion), ion);
    }
  }

  /**
   * _get_all_lines_data: it fails exactly when no ion is selected or some
   * selected ion does not resolve; otherwise it returns one row per line of
   * the selected ions, numbered 1..n in order, with the line's gf, log10(gf)
   * and vacuum wavelength in angstrom.
   */
  lemma LinesDataSpec(lines: seq<Line>, ions: seq<IonKey>, levelsAll: seq<LevelsAllRow>, units: Units)
    ensures LinesData(lines, ions, levelsAll, units).Ok? <==> ions != [] && Resolvable(lines, ions, levelsAll)
    ensures LinesData(lines, ions, levelsAll, units).Ok? ==>
      var out := LinesData(lines, ions, levelsAll, units).value;
      var selected := SelectedLines(lines, ions);
      && |out| == |selected|
      && forall i :: 0 <= i < |out| ==>
           && out[i].lineId == i + 1
           && out[i].gf == selected[i].gf && out[i].loggf == units.log10(selected[i].gf)
           && out[i].wavelength == VacuumWavelength(selected[i].wavelength, units)
           && selected[i].levelIndexLower.Some? && selected[i].levelIndexUpper.Some?
           && var slice := IonSlice(levelsAll, LineIon(selected[i]));
              && selected[i].levelIndexLower.value < |slice| && selected[i].levelIndexUpper.value < |slice|
              && out[i].lowerLevelId == slice[selected[i].levelIndexLower.value].levelId
              && out[i].upperLevelId == slice[selected[i].levelIndexUpper.value].levelId
  {
    ResolveIonsOk(lines, ions, levelsAll);
    if LinesData(lines, ions, levelsAll, units).Ok? {
      var rs := ResolveIons(lines, ions, levelsAll).value;
      ResolveIonsLines(lines, ions, levelsAll);
      forall i | 0 <= i < |rs|
        ensures rs[i].line == SelectedLines(lines, ions)[i]
        ensures ResolveLine(rs[i].line, IonSlice(levelsAll, LineIon(rs[i].line)), LineIon(rs[i].line)) == Ok(rs[i])
      {
        assert Map(rs, LineOfResolved)[i] == rs[i].line;
        assert rs[i] in rs;
      }
    }
  }

  /**
   * What the positional lookup finds: when the ion's slice of `_levels_all`
   * lists the ion's gfall levels in table order, with their g and their
   * energy in eV, each level_id a line receives is that of the row holding
   * the gfall level whose level_index the line carries (IonLevelPositions:
   * the k-th level of an ion has level_index k).
   */
  lemma ResolvedLevels(gfall: seq<NormRow>, attrs: seq<Attr>, toEv: real -> real,
                       lines: seq<Line>, ions: seq<IonKey>, levelsAll: seq<LevelsAllRow>, x: Resolved)
    requires ResolveIons(lines, ions, levelsAll).Ok? && x in ResolveIons(lines, ions, levelsAll).value
    requires Map(IonSlice(levelsAll, LineIon(x.line)), ContentOf)
          == Map(Members(ExtractLevels(gfall, attrs), LevelIon, LineIon(x.line)), l => LevelContent(l, toEv))
    ensures x.line.levelIndexLower.Some? && x.line.levelIndexUpper.Some?
    ensures var slice := IonSlice(levelsAll, LineIon(x.line));
      var ionLevels := Members(ExtractLevels(gfall, attrs), LevelIon, LineIon(x.line));
      var lower, upper := x.line.levelIndexLower.value, x.line.levelIndexUpper.value;
      && lower < |slice| && slice[lower].levelId == x.lowerLevelId
      && ionLevels[lower].levelIndex == lower && slice[lower].content == LevelContent(ionLevels[lower], toEv)
      && upper < |slice| && slice[upper].levelId == x.upperLevelId
      && ionLevels[upper].levelIndex == upper && slice[upper].content == LevelContent(ionLevels[upper], toEv)
  {
    var ion := LineIon(x.line);
    var slice := IonSlice(levelsAll, ion);
    var ionLevels := Members(ExtractLevels(gfall, attrs), LevelIon, ion);
    ResolveIonsLines(lines, ions, levelsAll);
    assert ResolveLine(x.line, slice, ion) == Ok(x);
    IonLevelPositions(gfall, attrs, ion);
    PositionHolds(slice, ionLevels, toEv, x.line.levelIndexLower.value);
    PositionHolds(slice, ionLevels, toEv, x.line.levelIndexUpper.value);
  }

  /** Row k of an aligned slice holds the k-th level of the ion. */
  lemma PositionHolds(slice: seq<LevelsAllRow>, ionLevels: seq<Level>, toEv: real -> real, k: int)
    requires Map(slice, ContentOf) == Map(ionLevels, l => LevelContent(l, toEv))
    requires 0 <= k < |slice|
    ensures k < |ionLevels| && slice[k].content == LevelContent(ionLevels[k], toEv)
  {
    assert Map(slice, ContentOf)[k] == ContentOf(slice[k]);
  }
}

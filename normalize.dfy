/**
 * GFALLReader.parse_gfall: each gfall record lists its two levels in file
 * order; parsing orders them into a lower and an upper level by the absolute
 * value of their energies, cleans the labels, drops the rows whose labels are
 * the "AVERAGE ENERGIES" / "CONTINUUM" sentinels, turns negative (predicted)
 * energies into a flag plus their absolute value, and splits the element code
 * into atomic number and ion charge.
 */
module Normalize {
  import opened Common
  import opened Labels
  import opened Tables

  /**
   * The columns that come in a `_first` / `_second` pair: energy (cm^-1,
   * negative when predicted), j, label, nlte_level_no, hyper_shift,
   * hyperfine_f, hyperfine_note and lande_g.
   */
  datatype Side = Side(
    energy: real,
    j: real,
    text: string,
    nlteLevelNo: int,
    hyperShift: int,
    hyperfineF: int,
    hyperfineNote: string,
    landeG: int)

  /**
   * One record of gfall_raw. The element code is held in hundredths
   * (26.01 is 2601): the two digits after the point are the ion charge.
   */
  datatype RawRow = RawRow(
    wavelength: real,
    loggf: real,
    elementCode: nat,
    first: Side,
    second: Side)

  /** A line of gfall_raw as read_fwf returns it: a record or a blank line. */
  datatype RawLine = Blank | Record(row: RawRow)

  /** One row of the parsed gfall table. */
  datatype NormRow = NormRow(
    wavelength: real,
    loggf: real,
    atomicNumber: nat,
    ionCharge: nat,
    lower: Side,
    upper: Side,
    lowerPredicted: bool,
    upperPredicted: bool)

  function Abs(x: real): (r: real)
    ensures r >= 0.0 && (r == x || r == -x)
  {
    if x < 0.0 then -x else x
  }

  /** read_gfall_raw's `gfall[~gfall.isnull().all(axis=1)]`: blank lines are dropped. */
  function DropBlank(lines: seq<RawLine>): (rows: seq<RawRow>)
    ensures |rows| <= |lines|
    ensures forall r :: r in rows <==> Record(r) in lines
  {
    if lines == [] then []
    else
      assert forall x :: x in lines <==> x == lines[0] || x in lines[1..];
      (if lines[0].Record? then [lines[0].row] else []) + DropBlank(lines[1..])
  }

  /**
   * `order_lower_upper`: the first level is the lower one when its |energy| is
   * strictly smaller; on a tie the second level is taken as the lower one.
   */
  function Orient(first: Side, second: Side): (r: (Side, Side))
    ensures r == (first, second) || r == (second, first)
    ensures Abs(r.0.energy) <= Abs(r.1.energy)
    ensures Abs(first.energy) == Abs(second.energy) ==> r == (second, first)
  {
    if Abs(first.energy) < Abs(second.energy) then (first, second) else (second, first)
  }

  function CleanSide(s: Side): Side
  {
    s.(text := CleanLabel(s.text))
  }

  /**
   * The ignored-label mask: a row is dropped exactly when one of its two
   * cleaned labels is a sentinel, whichever of them is the lower level.
   */
  predicate Kept(row: RawRow): (b: bool)
    ensures b <==> !IsIgnoredLabel(CleanLabel(row.first.text)) && !IsIgnoredLabel(CleanLabel(row.second.text))
  {
    var (lo, hi) := Orient(row.first, row.second);
    !IsIgnoredLabel(CleanLabel(lo.text)) && !IsIgnoredLabel(CleanLabel(hi.text))
  }

  /**
   * The element code 100 * Z + c (in hundredths) split as `astype(int)` and
   * `((code - Z) * 100).round()` split it.
   */
  function SplitElementCode(code: nat): (r: (nat, nat))
    ensures code == 100 * r.0 + r.1 && r.1 < 100
    ensures ((code as real) / 100.0 - r.0 as real) * 100.0 == r.1 as real
  {
    (code / 100, code % 100)
  }

  /** A level as it appears in the parsed table: cleaned label, absolute energy. */
  function Settle(s: Side): (t: Side)
  {
    CleanSide(s).(energy := Abs(s.energy))
  }

  /**
   * A parsed row: its levels are the record's two levels with cleaned labels
   * and absolute energies, the lower one no higher in energy than the upper
   * one (on a tie the record's second level is the lower one), each flagged
   * predicted exactly when its energy was negative; its ion is the record's
   * element code.
   */
  function NormalizeRow(row: RawRow): (n: NormRow)
    ensures || (n.lower == Settle(row.first) && n.upper == Settle(row.second)
                && n.lowerPredicted == (row.first.energy < 0.0) && n.upperPredicted == (row.second.energy < 0.0))
            || (n.lower == Settle(row.second) && n.upper == Settle(row.first)
                && n.lowerPredicted == (row.second.energy < 0.0) && n.upperPredicted == (row.first.energy < 0.0))
    ensures Abs(row.first.energy) == Abs(row.second.energy) ==>
      n.lower == Settle(row.second) && n.upper == Settle(row.first)
      && n.lowerPredicted == (row.second.energy < 0.0) && n.upperPredicted == (row.first.energy < 0.0)
    ensures 0.0 <= n.lower.energy <= n.upper.energy
    ensures 100 * n.atomicNumber + n.ionCharge == row.elementCode && n.ionCharge < 100
    ensures n.wavelength == row.wavelength && n.loggf == row.loggf
  {
    var (lo, hi) := Orient(row.first, row.second);
    var (z, c) := SplitElementCode(row.elementCode);
    NormRow(row.wavelength, row.loggf, z, c, Settle(lo), Settle(hi),
            lo.energy < 0.0, hi.energy < 0.0)
  }

  /** parse_gfall on a whole table: the kept records, normalised, in file order. */
  function ParseGfall(rows: seq<RawRow>): seq<NormRow>
  {
    Map(Filter(rows, Kept), NormalizeRow)
  }

  // ---- lemmas ----

  /** Dropping blank lines works line by line: it distributes over concatenation. */
  lemma {:induction false} DropBlankAppend(a: seq<RawLine>, b: seq<RawLine>)
    ensures DropBlank(a + b) == DropBlank(a) + DropBlank(b)
    decreases |a|
  {
    if a != [] {
      assert (a + b)[0] == a[0];
      assert (a + b)[1..] == a[1..] + b;
      DropBlankAppend(a[1..], b);
    } else {
      assert a + b == b;
    }
  }

  /** A single record line keeps its row; a single blank line yields nothing. */
  lemma DropBlankSingle(r: RawRow)
    ensures DropBlank([Record(r)]) == [r]
    ensures DropBlank([Blank]) == []
  {
  }

  /** Parsing works row by row: it distributes over concatenation of tables. */
  lemma ParseGfallAppend(a: seq<RawRow>, b: seq<RawRow>)
    ensures ParseGfall(a + b) == ParseGfall(a) + ParseGfall(b)
  {
    FilterAppend(a, b, Kept);
    MapAppend(Filter(a, Kept), Filter(b, Kept), NormalizeRow);
  }

  /** The parsed table is exactly the normalised kept records, nothing else. */
  lemma ParseGfallMembers(rows: seq<RawRow>)
    ensures |ParseGfall(rows)| <= |rows|
    ensures forall n :: n in ParseGfall(rows) <==> exists r :: r in rows && Kept(r) && n == NormalizeRow(r)
  {
    MapFilterMembers(rows, Kept, NormalizeRow);
  }

  /** Every parsed row has clean, non-sentinel labels. */
  lemma {:induction false} ParseGfallLabels(rows: seq<RawRow>)
    ensures forall n :: n in ParseGfall(rows) ==>
      n.lower.text == CleanLabel(n.lower.text) && n.upper.text == CleanLabel(n.upper.text)
      && !IsIgnoredLabel(n.lower.text) && !IsIgnoredLabel(n.upper.text)
  {
    ParseGfallMembers(rows);
    forall n | n in ParseGfall(rows)
      ensures n.lower.text == CleanLabel(n.lower.text) && n.upper.text == CleanLabel(n.upper.text)
      ensures !IsIgnoredLabel(n.lower.text) && !IsIgnoredLabel(n.upper.text)
    {
      var r :| r in rows && Kept(r) && n == NormalizeRow(r);
      var (lo, hi) := Orient(r.first, r.second);
      CleanLabelIdempotent(lo.text);
      CleanLabelIdempotent(hi.text);
    }
  }
}

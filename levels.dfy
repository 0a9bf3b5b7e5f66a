/**
 * GFALLReader.extract_levels: every parsed row contributes its lower and its
 * upper level; levels sharing (atomic_number, ion_charge) and the chosen
 * unique-level identifier are merged (the first one kept), the rest are sorted
 * by (atomic_number, ion_charge, energy, j, label), flagged "theor" or "meas",
 * and numbered 0, 1, 2, ... within each ion.
 */
module Levels {
  import opened Common
  import opened Tables
  import opened Normalize

  /** A column that may be part of the unique-level identifier. */
  datatype Attr = Energy | J | Label

  /** The `method` column: "theor" for a predicted level, "meas" for a measured one. */
  datatype Method = Theor | Meas

  /** One row of the concatenated lower and upper level table. */
  datatype LevelRow = LevelRow(
    atomicNumber: nat,
    ionCharge: nat,
    energy: real,
    j: real,
    text: string,
    theoretical: bool)

  /**
   * One row of the levels table, indexed by (atomic_number, ion_charge,
   * level_index). `g` is the statistical-weight column that GFALL adds to the
   * cached table afterwards; extract_levels leaves it absent.
   */
  datatype Level = Level(
    atomicNumber: nat,
    ionCharge: nat,
    levelIndex: nat,
    energy: real,
    j: real,
    text: string,
    kind: Method,
    g: Option<int>)

  function AttrValue(a: Attr, energy: real, j: real, text: string): Component
  {
    match a
    case Energy => Num(energy)
    case J => Num(j)
    case Label => Text(text)
  }

  /** `['atomic_number', 'ion_charge'] + unique_level_identifier` for one level. */
  function IdentKey(atomicNumber: nat, ionCharge: nat, energy: real, j: real, text: string, attrs: seq<Attr>): (k: SortKey)
    ensures |k| == 2 + |attrs|
    ensures k[0] == Num(atomicNumber as real) && k[1] == Num(ionCharge as real)
  {
    [Num(atomicNumber as real), Num(ionCharge as real)] + Map(attrs, a => AttrValue(a, energy, j, text))
  }

  function RowKey(r: LevelRow, attrs: seq<Attr>): SortKey
  {
    IdentKey(r.atomicNumber, r.ionCharge, r.energy, r.j, r.text, attrs)
  }

  function LevelKey(l: Level, attrs: seq<Attr>): SortKey
  {
    IdentKey(l.atomicNumber, l.ionCharge, l.energy, l.j, l.text, attrs)
  }

  /** The sort_values columns. */
  function OrderKey(r: LevelRow): SortKey
  {
    [Num(r.atomicNumber as real), Num(r.ionCharge as real), Num(r.energy), Num(r.j), Text(r.text)]
  }

  function RowIon(r: LevelRow): IonKey
  {
    IonKey(r.atomicNumber, r.ionCharge)
  }

  function LevelIon(l: Level): IonKey
  {
    IonKey(l.atomicNumber, l.ionCharge)
  }

  function LowerRow(n: NormRow): LevelRow
  {
    LevelRow(n.atomicNumber, n.ionCharge, n.lower.energy, n.lower.j, n.lower.text, n.lowerPredicted)
  }

  function UpperRow(n: NormRow): LevelRow
  {
    LevelRow(n.atomicNumber, n.ionCharge, n.upper.energy, n.upper.j, n.upper.text, n.upperPredicted)
  }

  /** `pd.concat([e_lower_levels[selected_columns], e_upper_levels[selected_columns]])`. */
  function LevelRows(gfall: seq<NormRow>): (rows: seq<LevelRow>)
    ensures |rows| == 2 * |gfall|
    ensures forall i :: 0 <= i < |gfall| ==> rows[i] == LowerRow(gfall[i]) && rows[|gfall| + i] == UpperRow(gfall[i])
  {
    Map(gfall, LowerRow) + Map(gfall, UpperRow)
  }

  /** The de-duplicated levels in sorted order, before numbering. */
  function SortedRows(gfall: seq<NormRow>, attrs: seq<Attr>): seq<LevelRow>
  {
    SortBy(DropDuplicatesFirst(LevelRows(gfall), r => RowKey(r, attrs)), OrderKey)
  }

  function MakeLevel(r: LevelRow, index: nat): (l: Level)
    ensures l.kind == Theor <==> r.theoretical
  {
    Level(r.atomicNumber, r.ionCharge, index, r.energy, r.j, r.text, if r.theoretical then Theor else Meas, None)
  }

  /** Numbers the rows within each ion in their order: the groupby / np.arange transform. */
  function Number(s: seq<LevelRow>): (levels: seq<Level>)
    ensures |levels| == |s|
    ensures forall i :: 0 <= i < |s| ==> levels[i] == MakeLevel(s[i], Rank(s, RowIon, i))
  {
    seq(|s|, i requires 0 <= i < |s| => MakeLevel(s[i], Rank(s, RowIon, i)))
  }

  /** extract_levels on a parsed gfall table with identifier `attrs`. */
  function ExtractLevels(gfall: seq<NormRow>, attrs: seq<Attr>): seq<Level>
  {
    Number(SortedRows(gfall, attrs))
  }

  // ---- lemmas ----

  lemma SortedRowsSpec(gfall: seq<NormRow>, attrs: seq<Attr>)
    ensures DistinctKeys(SortedRows(gfall, attrs), r => RowKey(r, attrs))
    ensures forall i :: 0 <= i < |gfall| ==>
      HasKey(SortedRows(gfall, attrs), RowKey(LowerRow(gfall[i]), attrs), r => RowKey(r, attrs))
      && HasKey(SortedRows(gfall, attrs), RowKey(UpperRow(gfall[i]), attrs), r => RowKey(r, attrs))
    ensures SortedBy(SortedRows(gfall, attrs), OrderKey)
    ensures forall r :: r in SortedRows(gfall, attrs) ==> r in LevelRows(gfall)
  {
    SortedRowsKeys(gfall, attrs);
    DedupSortOrigin(LevelRows(gfall), r => RowKey(r, attrs), OrderKey);
  }

  /**
   * drop_duplicates keeps the first row of each key: every surviving row is the
   * earliest lower/upper projection with its identifier key.
   */
  lemma SortedRowsFirst(gfall: seq<NormRow>, attrs: seq<Attr>)
    ensures forall r :: r in SortedRows(gfall, attrs) ==>
      exists i :: 0 <= i < |LevelRows(gfall)| && LevelRows(gfall)[i] == r
                  && FirstOccurrence(LevelRows(gfall), i, x => RowKey(x, attrs))
  {
    DedupSortFirst(LevelRows(gfall), r => RowKey(r, attrs), OrderKey);
  }

  /** The keys half of SortedRowsSpec. */
  lemma SortedRowsKeys(gfall: seq<NormRow>, attrs: seq<Attr>)
    ensures DistinctKeys(SortedRows(gfall, attrs), r => RowKey(r, attrs))
    ensures forall i :: 0 <= i < |gfall| ==>
      HasKey(SortedRows(gfall, attrs), RowKey(LowerRow(gfall[i]), attrs), r => RowKey(r, attrs))
      && HasKey(SortedRows(gfall, attrs), RowKey(UpperRow(gfall[i]), attrs), r => RowKey(r, attrs))
  {
    var rows := LevelRows(gfall);
    DedupSortKeys(rows, r => RowKey(r, attrs), OrderKey);
    forall i | 0 <= i < |gfall|
      ensures HasKey(SortedRows(gfall, attrs), RowKey(LowerRow(gfall[i]), attrs), r => RowKey(r, attrs))
      ensures HasKey(SortedRows(gfall, attrs), RowKey(UpperRow(gfall[i]), attrs), r => RowKey(r, attrs))
    {
      assert rows[i] == LowerRow(gfall[i]) && rows[|gfall| + i] == UpperRow(gfall[i]);
    }
  }

  /**
   * No two levels share (atomic_number, ion_charge) + identifier, so the
   * identifier can index the table.
   */
  lemma ExtractLevelsDistinct(gfall: seq<NormRow>, attrs: seq<Attr>)
    ensures DistinctKeys(ExtractLevels(gfall, attrs), l => LevelKey(l, attrs))
  {
    var s := SortedRows(gfall, attrs);
    var levels := ExtractLevels(gfall, attrs);
    SortedRowsKeys(gfall, attrs);
    forall i, j | 0 <= i < j < |levels| ensures LevelKey(levels[i], attrs) != LevelKey(levels[j], attrs) {
      assert LevelKey(levels[i], attrs) == RowKey(s[i], attrs);
      assert LevelKey(levels[j], attrs) == RowKey(s[j], attrs);
    }
  }

  /** Both levels of every parsed row are in the table. */
  lemma ExtractLevelsComplete(gfall: seq<NormRow>, attrs: seq<Attr>)
    ensures forall i :: 0 <= i < |gfall| ==>
      HasKey(ExtractLevels(gfall, attrs), RowKey(LowerRow(gfall[i]), attrs), l => LevelKey(l, attrs))
      && HasKey(ExtractLevels(gfall, attrs), RowKey(UpperRow(gfall[i]), attrs), l => LevelKey(l, attrs))
  {
    var s := SortedRows(gfall, attrs);
    var levels := ExtractLevels(gfall, attrs);
    SortedRowsKeys(gfall, attrs);
    forall i | 0 <= i < |gfall|
      ensures HasKey(levels, RowKey(LowerRow(gfall[i]), attrs), l => LevelKey(l, attrs))
      ensures HasKey(levels, RowKey(UpperRow(gfall[i]), attrs), l => LevelKey(l, attrs))
    {
      NumberHasKey(s, attrs, RowKey(LowerRow(gfall[i]), attrs));
      NumberHasKey(s, attrs, RowKey(UpperRow(gfall[i]), attrs));
    }
  }

  /** Numbering keeps every identifier key of the rows. */
  lemma NumberHasKey(s: seq<LevelRow>, attrs: seq<Attr>, k: SortKey)
    requires HasKey(s, k, r => RowKey(r, attrs))
    ensures HasKey(Number(s), k, l => LevelKey(l, attrs))
  {
    var a :| 0 <= a < |s| && RowKey(s[a], attrs) == k;
    assert LevelKey(Number(s)[a], attrs) == RowKey(s[a], attrs);
  }

  /** `l` is the level row `r`, whatever its index. */
  predicate Describes(l: Level, r: LevelRow)
  {
    l.atomicNumber == r.atomicNumber && l.ionCharge == r.ionCharge && l.energy == r.energy
    && l.j == r.j && l.text == r.text && (l.kind == Theor <==> r.theoretical)
  }

  /**
   * Every level is the lower or upper level of some parsed row, with "theor"
   * exactly when that level's energy was predicted.
   */
  lemma ExtractLevelsOrigin(gfall: seq<NormRow>, attrs: seq<Attr>)
    ensures forall l :: l in ExtractLevels(gfall, attrs) ==>
      exists n :: n in gfall && (Describes(l, LowerRow(n)) || Describes(l, UpperRow(n)))
  {
    var s := SortedRows(gfall, attrs);
    var levels := ExtractLevels(gfall, attrs);
    SortedRowsSpec(gfall, attrs);
    forall l | l in levels
      ensures exists n :: n in gfall && (Describes(l, LowerRow(n)) || Describes(l, UpperRow(n)))
    {
      var i :| 0 <= i < |levels| && levels[i] == l;
      assert s[i] in s;
      assert Describes(l, s[i]);
      RowOrigin(gfall, s[i]);
    }
  }

  /**
   * Of several rows sharing a level's key, the level describes the first: the
   * earliest lower projection, else the earliest upper one.
   */
  lemma ExtractLevelsFirst(gfall: seq<NormRow>, attrs: seq<Attr>)
    ensures forall l :: l in ExtractLevels(gfall, attrs) ==>
      exists i :: 0 <= i < |LevelRows(gfall)| && Describes(l, LevelRows(gfall)[i])
                  && FirstOccurrence(LevelRows(gfall), i, x => RowKey(x, attrs))
  {
    var s := SortedRows(gfall, attrs);
    var levels := ExtractLevels(gfall, attrs);
    SortedRowsFirst(gfall, attrs);
    forall l | l in levels
      ensures exists i :: 0 <= i < |LevelRows(gfall)| && Describes(l, LevelRows(gfall)[i])
                          && FirstOccurrence(LevelRows(gfall), i, x => RowKey(x, attrs))
    {
      var k :| 0 <= k < |levels| && levels[k] == l;
      assert s[k] in s;
      assert Describes(l, s[k]);
    }
  }

  lemma RowOrigin(gfall: seq<NormRow>, r: LevelRow)
    requires r in LevelRows(gfall)
    ensures exists n :: n in gfall && (r == LowerRow(n) || r == UpperRow(n))
  {
    var rows := LevelRows(gfall);
    var m :| 0 <= m < |rows| && rows[m] == r;
    if m < |gfall| {
      assert gfall[m] in gfall && rows[m] == LowerRow(gfall[m]);
    } else {
      assert rows[m] == UpperRow(gfall[m - |gfall|]);
      assert gfall[m - |gfall|] in gfall;
    }
  }

  /** The table is ordered by (atomic_number, ion_charge, energy, j, label). */
  lemma ExtractLevelsSorted(gfall: seq<NormRow>, attrs: seq<Attr>)
    ensures var levels := ExtractLevels(gfall, attrs);
      forall i, j :: 0 <= i < j < |levels| ==>
        KeyLe([Num(levels[i].atomicNumber as real), Num(levels[i].ionCharge as real), Num(levels[i].energy), Num(levels[i].j), Text(levels[i].text)],
              [Num(levels[j].atomicNumber as real), Num(levels[j].ionCharge as real), Num(levels[j].energy), Num(levels[j].j), Text(levels[j].text)])
  {
    SortedRowsSpec(gfall, attrs);
  }

  /**
   * level_index numbers each ion's levels 0, 1, ..., n-1 in table order: every
   * index is below the ion's level count, later levels of an ion have larger
   * indices, and every index below the count is used.
   */
  lemma ExtractLevelsIndex(gfall: seq<NormRow>, attrs: seq<Attr>)
    ensures var levels := ExtractLevels(gfall, attrs);
      && (forall i :: 0 <= i < |levels| ==> levels[i].levelIndex < GroupCount(levels, LevelIon, LevelIon(levels[i])))
      && (forall i, j :: 0 <= i < j < |levels| && LevelIon(levels[i]) == LevelIon(levels[j]) ==>
            levels[i].levelIndex < levels[j].levelIndex)
  {
    var s := SortedRows(gfall, attrs);
    var levels := ExtractLevels(gfall, attrs);
    RankDense(s, RowIon);
    GroupCountOfIon(s, levels);
    forall i | 0 <= i < |levels|
      ensures levels[i].levelIndex < GroupCount(levels, LevelIon, LevelIon(levels[i]))
    {
      assert LevelIon(levels[i]) == RowIon(s[i]);
    }
  }

  /** Numbering does not change how many levels each ion has. */
  lemma {:induction false} GroupCountOfIon(s: seq<LevelRow>, levels: seq<Level>)
    requires |levels| == |s|
    requires forall i :: 0 <= i < |s| ==> LevelIon(levels[i]) == RowIon(s[i])
    ensures forall g :: GroupCount(levels, LevelIon, g) == GroupCount(s, RowIon, g)
  {
    if s != [] {
      var n := |s| - 1;
      GroupCountOfIon(s[..n], levels[..n]);
    }
  }

  /** Every index below an ion's level count belongs to one of its levels. */
  lemma ExtractLevelsIndexReached(gfall: seq<NormRow>, attrs: seq<Attr>, ion: IonKey, k: nat)
    requires k < GroupCount(ExtractLevels(gfall, attrs), LevelIon, ion)
    ensures var levels := ExtractLevels(gfall, attrs);
      exists i :: 0 <= i < |levels| && LevelIon(levels[i]) == ion && levels[i].levelIndex == k
  {
    var s := SortedRows(gfall, attrs);
    var levels := ExtractLevels(gfall, attrs);
    GroupCountOfIon(s, levels);
    RankReached(s, RowIon, ion, k);
    var i :| 0 <= i < |s| && RowIon(s[i]) == ion && Rank(s, RowIon, i) == k;
    assert LevelIon(levels[i]) == ion && levels[i].levelIndex == k;
  }

  function IndexOf(l: Level): int
  {
    l.levelIndex
  }

  /**
   * The level_index of a level is its position among the levels of its ion:
   * the k-th level of an ion in the table has level_index k.
   */
  lemma IonLevelPositions(gfall: seq<NormRow>, attrs: seq<Attr>, ion: IonKey)
    ensures var ionLevels := Members(ExtractLevels(gfall, attrs), LevelIon, ion);
      forall k :: 0 <= k < |ionLevels| ==> ionLevels[k].levelIndex == k
  {
    var s := SortedRows(gfall, attrs);
    var levels := ExtractLevels(gfall, attrs);
    forall i | 0 <= i < |levels| && LevelIon(levels[i]) == ion
      ensures IndexOf(levels[i]) == GroupCount(levels[..i], LevelIon, ion)
    {
      assert forall m :: 0 <= m < i ==> LevelIon(levels[..i][m]) == RowIon(s[..i][m]);
      GroupCountOfIon(s[..i], levels[..i]);
    }
    MembersRanked(levels, LevelIon, ion, IndexOf);
  }

  // ---- the statistical weight column ----

  /** `int(x)`: truncation toward zero. */
  function Trunc(x: real): (n: int)
    ensures x >= 0.0 ==> n as real <= x < n as real + 1.0
    ensures x < 0.0 ==> n as real - 1.0 < x <= n as real
  {
    if x >= 0.0 then x.Floor else -((-x).Floor)
  }

  /** `(2 * j + 1).map(np.int)`. */
  function Weight(j: real): int
  {
    Trunc(2.0 * j + 1.0)
  }

  /** `gf.levels['g'] = ...`: every level gains its statistical weight. */
  function WithWeights(levels: seq<Level>): (r: seq<Level>)
    ensures |r| == |levels|
    ensures forall i :: 0 <= i < |levels| ==> r[i] == levels[i].(g := Some(Weight(levels[i].j)))
  {
    Map(levels, (l: Level) => l.(g := Some(Weight(l.j))))
  }

  /** Adding the weights twice is adding them once. */
  lemma WithWeightsIdempotent(levels: seq<Level>)
    ensures WithWeights(WithWeights(levels)) == WithWeights(levels)
  {
  }

  /** Adding the weights changes neither a level's key nor its index. */
  lemma WithWeightsKeys(levels: seq<Level>, attrs: seq<Attr>)
    ensures forall i :: 0 <= i < |levels| ==>
      LevelKey(WithWeights(levels)[i], attrs) == LevelKey(levels[i], attrs)
      && WithWeights(levels)[i].levelIndex == levels[i].levelIndex
  {
  }
}

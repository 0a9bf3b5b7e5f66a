/**
 * The level side of GFALL: _get_all_levels_data (the selected gfall levels in
 * eV after the NIST ground levels, numbered level_id 1..n, exact duplicates
 * dropped keeping the last), the ionization-energy cull and the level_number
 * assignment of _create_levels_lines, and the artificial fully ionized levels
 * of _create_artificial_fully_ionized.
 */
module GfallLevels {
  import opened Common
  import opened Tables
  import opened Levels

  /** One row of NIST's ionization table: the energy needed to ionize (atomic_number, ion_number). */
  datatype IonizationRow = IonizationRow(atomicNumber: int, ionNumber: int, energy: real)

  /** One row of NIST's ground-level table, after the rename of ion_charge to ion_number. */
  datatype GroundLevel = GroundLevel(atomicNumber: int, ionNumber: int, g: int, energy: real)

  /** The compared columns of a `_levels_all` row. */
  datatype Content = Content(atomicNumber: int, ionNumber: int, g: int, energy: real)

  /** One row of `_levels_all`. */
  datatype LevelsAllRow = LevelsAllRow(levelId: int, content: Content)

  /** One row of GFALL.levels. */
  datatype FinalLevel = FinalLevel(
    atomicNumber: int,
    energy: real,
    g: int,
    ionNumber: int,
    levelId: int,
    levelNumber: int,
    metastable: bool)

  function GroundContent(gl: GroundLevel): Content
  {
    Content(gl.atomicNumber, gl.ionNumber, gl.g, gl.energy)
  }

  /** A selected gfall level with its g, its energy in eV, and ion_charge renamed ion_number. */
  function LevelContent(l: Level, toEv: real -> real): Content
  {
    Content(l.atomicNumber, l.ionCharge, Weight(l.j), toEv(l.energy))
  }

  function ContentOf(r: LevelsAllRow): Content
  {
    r.content
  }

  /** `range(1, len(levels) + 1)` as the level_id column. */
  function NumberFromOne(cs: seq<Content>): (rows: seq<LevelsAllRow>)
    ensures |rows| == |cs|
    ensures forall i :: 0 <= i < |cs| ==> rows[i] == LevelsAllRow(i + 1, cs[i])
  {
    seq(|cs|, i requires 0 <= i < |cs| => LevelsAllRow(i + 1, cs[i]))
  }

  /** `pd.concat([self.ground_levels, levels])` before numbering. */
  function Combined(ground: seq<GroundLevel>, levels: seq<Level>, ions: seq<IonKey>, toEv: real -> real): seq<Content>
  {
    Map(ground, GroundContent) + Map(JoinIons(levels, ions, LevelIon), l => LevelContent(l, toEv))
  }

  /** _get_all_levels_data. */
  function LevelsAll(ground: seq<GroundLevel>, levels: seq<Level>, ions: seq<IonKey>, toEv: real -> real): seq<LevelsAllRow>
  {
    DropDuplicatesLast(NumberFromOne(Combined(ground, levels, ions, toEv)), ContentOf)
  }

  // ---- culling ----

  /** `ionization_energies['ion_number'] -= 1`. */
  function Shift(ies: seq<IonizationRow>): (r: seq<IonizationRow>)
    ensures |r| == |ies|
    ensures forall i :: 0 <= i < |ies| ==> r[i] == ies[i].(ionNumber := ies[i].ionNumber - 1)
  {
    Map(ies, (ie: IonizationRow) => ie.(ionNumber := ie.ionNumber - 1))
  }

  /** A merged pair that passes `energy < ionization_energy`. */
  predicate Below(r: LevelsAllRow, ie: IonizationRow)
  {
    ie.atomicNumber == r.content.atomicNumber && ie.ionNumber == r.content.ionNumber && r.content.energy < ie.energy
  }

  /** The number of merged copies of `r` that pass the mask. */
  function Matches(r: LevelsAllRow, ies: seq<IonizationRow>): (n: nat)
    ensures n <= |ies|
  {
    if ies == [] then 0 else (if Below(r, ies[0]) then 1 else 0) + Matches(r, ies[1..])
  }

  /** Some ionization row of `r`'s ion lies above its energy. */
  predicate Survives(r: LevelsAllRow, ies: seq<IonizationRow>)
  {
    exists ie :: ie in ies && Below(r, ie)
  }

  function SurvivesIn(ies: seq<IonizationRow>): LevelsAllRow -> bool
  {
    r => Survives(r, ies)
  }

  /**
   * The left merge on (atomic_number, ion_number) followed by the mask: a row
   * appears once for every matching ionization row it lies below; a row with
   * no match has a NaN ionization energy and fails the mask.
   */
  function Cull(rows: seq<LevelsAllRow>, ies: seq<IonizationRow>): seq<LevelsAllRow>
  {
    if rows == [] then []
    else Repeat(rows[0], Matches(rows[0], ies)) + Cull(rows[1..], ies)
  }

  function CullOrder(r: LevelsAllRow): SortKey
  {
    [Num(r.content.atomicNumber as real), Num(r.content.ionNumber as real), Num(r.content.energy), Num(r.content.g as real)]
  }

  function AllRowIon(r: LevelsAllRow): IonKey
  {
    IonKey(r.content.atomicNumber, r.content.ionNumber)
  }

  /** level_number within each ion, metastable False. */
  function NumberLevels(s: seq<LevelsAllRow>): (levels: seq<FinalLevel>)
    ensures |levels| == |s|
    ensures forall i :: 0 <= i < |s| ==>
      levels[i] == FinalLevel(s[i].content.atomicNumber, s[i].content.energy, s[i].content.g,
                              s[i].content.ionNumber, s[i].levelId, Rank(s, AllRowIon, i), false)
  {
    seq(|s|, i requires 0 <= i < |s| =>
      FinalLevel(s[i].content.atomicNumber, s[i].content.energy, s[i].content.g,
                 s[i].content.ionNumber, s[i].levelId, Rank(s, AllRowIon, i), false))
  }

  /** The culled levels of _create_levels_lines, sorted and numbered. */
  function Culled(levelsAll: seq<LevelsAllRow>, ies: seq<IonizationRow>): seq<FinalLevel>
  {
    NumberLevels(SortBy(Cull(levelsAll, Shift(ies)), CullOrder))
  }

  // ---- artificial levels ----

  function AtomicNumberKey(z: int): SortKey
  {
    [Num(z as real)]
  }

  /** The keys of `levels.groupby("atomic_number")`, in ascending order. */
  function ElementNumbers(levels: seq<FinalLevel>): seq<int>
  {
    SortBy(DropDuplicatesFirst(Map(levels, AtomicNumberOf), Same), AtomicNumberKey)
  }

  function AtomicNumberOf(l: FinalLevel): int
  {
    l.atomicNumber
  }

  function Same(z: int): int
  {
    z
  }

  function Artificial(z: int): FinalLevel
  {
    FinalLevel(z, 0.0, 1, z, -1, 0, true)
  }

  function FinalOrder(l: FinalLevel): SortKey
  {
    [Num(l.atomicNumber as real), Num(l.ionNumber as real), Num(l.levelNumber as real)]
  }

  /** `levels.append(artificial).sort_values(["atomic_number", "ion_number", "level_number"])`. */
  function FinalLevels(culled: seq<FinalLevel>, artificial: seq<FinalLevel>): seq<FinalLevel>
  {
    SortBy(culled + artificial, FinalOrder)
  }

  /** _create_artificial_fully_ionized: one level per element present, in ascending atomic number. */
  method CreateArtificialFullyIonized(levels: seq<FinalLevel>) returns (r: seq<FinalLevel>)
    ensures |r| == |ElementNumbers(levels)|
    ensures forall i :: 0 <= i < |r| ==> r[i] == Artificial(ElementNumbers(levels)[i])
  {
    var groups := ElementNumbers(levels);
    r := [];
    var k := 0;
    while k < |groups|
      invariant 0 <= k <= |groups|
      invariant |r| == k
      invariant forall i :: 0 <= i < k ==> r[i] == Artificial(groups[i])
    {
      r := r + [Artificial(groups[k])];
      k := k + 1;
    }
  }

  // ---- lemmas ----

  /**
   * What `_levels_all` holds: each row carries the level_id of its position
   * in the concatenation, ids increase down the table, no two rows have the
   * same columns, every concatenated row's columns are present, and each kept
   * row is the last one with its columns.
   */
  lemma LevelsAllSpec(ground: seq<GroundLevel>, levels: seq<Level>, ions: seq<IonKey>, toEv: real -> real)
    ensures var cs := Combined(ground, levels, ions, toEv);
      var all := LevelsAll(ground, levels, ions, toEv);
      && (forall r :: r in all ==>
            && 1 <= r.levelId <= |cs| && cs[r.levelId - 1] == r.content
            && forall j :: r.levelId <= j < |cs| ==> cs[j] != r.content)
      && (forall i, j :: 0 <= i < j < |all| ==> all[i].content != all[j].content)
      && (forall c :: c in cs ==> exists r :: r in all && r.content == c)
  {
    var cs := Combined(ground, levels, ions, toEv);
    assert LevelsAll(ground, levels, ions, toEv) == DropDuplicatesLast(NumberFromOne(cs), ContentOf);
    KeptRowsOrigin(cs);
    KeptRowsDistinct(cs);
    KeptRowsCover(cs);
  }

  /** Each kept row is the last row of its content, under its own level_id. */
  lemma KeptRowsOrigin(cs: seq<Content>)
    ensures forall r :: r in DropDuplicatesLast(NumberFromOne(cs), ContentOf) ==>
      && 1 <= r.levelId <= |cs| && cs[r.levelId - 1] == r.content
      && forall j :: r.levelId <= j < |cs| ==> cs[j] != r.content
  {
    var numbered := NumberFromOne(cs);
    DropDuplicatesLastOrigin(numbered, ContentOf);
    forall r | r in DropDuplicatesLast(numbered, ContentOf)
      ensures 1 <= r.levelId <= |cs| && cs[r.levelId - 1] == r.content
      ensures forall j :: r.levelId <= j < |cs| ==> cs[j] != r.content
    {
      var i :| 0 <= i < |numbered| && numbered[i] == r && LastOccurrence(numbered, i, ContentOf);
      forall j | r.levelId <= j < |cs| ensures cs[j] != r.content {
        assert ContentOf(numbered[j]) != ContentOf(numbered[i]);
      }
    }
  }

  lemma KeptRowsDistinct(cs: seq<Content>)
    ensures var all := DropDuplicatesLast(NumberFromOne(cs), ContentOf);
      forall i, j :: 0 <= i < j < |all| ==> all[i].content != all[j].content
  {
    DropDuplicatesLastDistinct(NumberFromOne(cs), ContentOf);
  }

  /** Every content has a kept row. */
  lemma KeptRowsCover(cs: seq<Content>)
    ensures forall c :: c in cs ==> exists r :: r in DropDuplicatesLast(NumberFromOne(cs), ContentOf) && r.content == c
  {
    var numbered := NumberFromOne(cs);
    var all := DropDuplicatesLast(numbered, ContentOf);
    DropDuplicatesLastComplete(numbered, ContentOf);
    forall c | c in cs ensures exists r :: r in all && r.content == c {
      var i :| 0 <= i < |cs| && cs[i] == c;
      assert HasKey(all, ContentOf(numbered[i]), ContentOf);
      var m :| 0 <= m < |all| && ContentOf(all[m]) == ContentOf(numbered[i]);
      assert all[m] in all;
    }
  }

  /** level_ids increase down `_levels_all`: keep='last' drops rows but does not reorder them. */
  lemma {:induction false} LevelsAllIdsIncrease(cs: seq<Content>)
    ensures var all := DropDuplicatesLast(NumberFromOne(cs), ContentOf);
      forall i, j :: 0 <= i < j < |all| ==> all[i].levelId < all[j].levelId
  {
    DropDuplicatesLastOrdered(NumberFromOne(cs), ContentOf, 0);
  }

  lemma {:induction false} DropDuplicatesLastAbove(s: seq<LevelsAllRow>, key: LevelsAllRow -> Content, base: int)
    requires forall i :: 0 <= i < |s| ==> s[i].levelId == base + i + 1
    ensures forall i :: 0 <= i < |DropDuplicatesLast(s, key)| ==> DropDuplicatesLast(s, key)[i].levelId > base
    decreases |s|
  {
    if s != [] {
      DropDuplicatesLastAbove(s[1..], key, base + 1);
    }
  }

  lemma {:induction false} DropDuplicatesLastOrdered(s: seq<LevelsAllRow>, key: LevelsAllRow -> Content, base: int)
    requires forall i :: 0 <= i < |s| ==> s[i].levelId == base + i + 1
    ensures forall i, j :: 0 <= i < j < |DropDuplicatesLast(s, key)| ==>
      DropDuplicatesLast(s, key)[i].levelId < DropDuplicatesLast(s, key)[j].levelId
    decreases |s|
  {
    if s != [] {
      var rest := DropDuplicatesLast(s[1..], key);
      assert forall i :: 0 <= i < |s[1..]| ==> s[1..][i].levelId == (base + 1) + i + 1 by {
        forall i | 0 <= i < |s[1..]| ensures s[1..][i].levelId == (base + 1) + i + 1 {
          assert s[1..][i] == s[i + 1];
        }
      }
      DropDuplicatesLastOrdered(s[1..], key, base + 1);
      DropDuplicatesLastAbove(s[1..], key, base + 1);
      if LastOccurrence(s, 0, key) {
        assert DropDuplicatesLast(s, key) == [s[0]] + rest;
        IdsIncreasingCons(s[0], rest);
      } else {
        assert DropDuplicatesLast(s, key) == [] + rest;
        assert [] + rest == rest;
      }
    }
  }

  lemma IdsIncreasingCons(x: LevelsAllRow, rest: seq<LevelsAllRow>)
    requires forall k :: 0 <= k < |rest| ==> rest[k].levelId > x.levelId
    requires forall i, j :: 0 <= i < j < |rest| ==> rest[i].levelId < rest[j].levelId
    ensures forall i, j :: 0 <= i < j < |[x] + rest| ==> ([x] + rest)[i].levelId < ([x] + rest)[j].levelId
  {
    var r := [x] + rest;
    forall i, j | 0 <= i < j < |r| ensures r[i].levelId < r[j].levelId {
      assert r[j] == rest[j - 1];
      if i > 0 {
        assert r[i] == rest[i - 1];
      }
    }
  }

  /** A merged copy of `r` exists and passes the mask exactly when `r` survives. */
  lemma {:induction false} MatchesPositive(r: LevelsAllRow, ies: seq<IonizationRow>)
    ensures Matches(r, ies) > 0 <==> Survives(r, ies)
  {
    if ies != [] {
      MatchesPositive(r, ies[1..]);
      assert forall ie :: ie in ies <==> ie == ies[0] || ie in ies[1..];
    }
  }

  /**
   * A row survives the merge and mask iff some shifted ionization row of its
   * (atomic_number, ion_number) lies above its energy; a row with no match
   * is dropped.
   */
  lemma {:induction false} CullMembers(rows: seq<LevelsAllRow>, ies: seq<IonizationRow>)
    ensures forall r :: r in Cull(rows, ies) <==> r in rows && Survives(r, ies)
  {
    if rows != [] {
      CullMembers(rows[1..], ies);
      MatchesPositive(rows[0], ies);
      assert forall r :: r in rows <==> r == rows[0] || r in rows[1..];
    }
  }

  /** With one ionization row per ion, no row is merged twice. */
  lemma {:induction false} MatchesAtMostOne(r: LevelsAllRow, ies: seq<IonizationRow>)
    requires forall i, j :: 0 <= i < j < |ies| ==>
      (ies[i].atomicNumber, ies[i].ionNumber) != (ies[j].atomicNumber, ies[j].ionNumber)
    ensures Matches(r, ies) <= 1
  {
    if ies != [] {
      MatchesAtMostOne(r, ies[1..]);
      if Below(r, ies[0]) {
        forall ie | ie in ies[1..] ensures !Below(r, ie) {
          var j :| 0 <= j < |ies[1..]| && ies[1..][j] == ie;
          assert ies[j + 1] == ie;
        }
        MatchesPositive(r, ies[1..]);
      }
    }
  }

  /** With one ionization row per ion, the merge and mask keep each surviving row once, in order. */
  lemma {:induction false} CullDistinct(rows: seq<LevelsAllRow>, ies: seq<IonizationRow>)
    requires forall i, j :: 0 <= i < j < |ies| ==>
      (ies[i].atomicNumber, ies[i].ionNumber) != (ies[j].atomicNumber, ies[j].ionNumber)
    ensures Cull(rows, ies) == Filter(rows, SurvivesIn(ies))
  {
    if rows != [] {
      CullDistinct(rows[1..], ies);
      MatchesAtMostOne(rows[0], ies);
      MatchesPositive(rows[0], ies);
      assert SurvivesIn(ies)(rows[0]) == Survives(rows[0], ies);
      if Survives(rows[0], ies) {
        assert Repeat(rows[0], 1) == [rows[0]];
      }
    }
  }

  /** Some NIST row gives the ion above `r`'s an ionization energy higher than `r`'s energy. */
  predicate BelowIonization(r: LevelsAllRow, ies: seq<IonizationRow>)
  {
    exists ie :: ie in ies && ie.atomicNumber == r.content.atomicNumber
      && ie.ionNumber == r.content.ionNumber + 1 && r.content.energy < ie.energy
  }

  /** Shifting ion_number down by one pairs each ion with the energy that ionizes it. */
  lemma ShiftSurvives(r: LevelsAllRow, ies: seq<IonizationRow>)
    ensures Survives(r, Shift(ies)) <==> BelowIonization(r, ies)
  {
    var shifted := Shift(ies);
    if Survives(r, shifted) {
      var ie :| ie in shifted && Below(r, ie);
      var k :| 0 <= k < |shifted| && shifted[k] == ie;
      assert ies[k] in ies;
    }
    if BelowIonization(r, ies) {
      var ie :| ie in ies && ie.atomicNumber == r.content.atomicNumber
        && ie.ionNumber == r.content.ionNumber + 1 && r.content.energy < ie.energy;
      var k :| 0 <= k < |ies| && ies[k] == ie;
      assert shifted[k] in shifted;
    }
  }

  /** `l` is the row `r` of `_levels_all` carried into the levels table. */
  predicate Represents(l: FinalLevel, r: LevelsAllRow)
  {
    l.levelId == r.levelId && Content(l.atomicNumber, l.ionNumber, l.g, l.energy) == r.content
  }

  /** The sorted survivors of the cull. */
  function Survivors(levelsAll: seq<LevelsAllRow>, ies: seq<IonizationRow>): seq<LevelsAllRow>
  {
    SortBy(Cull(levelsAll, Shift(ies)), CullOrder)
  }

  /**
   * The cull keeps exactly the levels that lie strictly below the ionization
   * energy of their ion: every culled level is such a row of `_levels_all`,
   * and every such row is in the culled table; none is metastable.
   */
  lemma CulledMembers(levelsAll: seq<LevelsAllRow>, ies: seq<IonizationRow>)
    ensures forall l :: l in Culled(levelsAll, ies) ==>
      !l.metastable && exists r :: r in levelsAll && Represents(l, r) && BelowIonization(r, ies)
    ensures forall r :: r in levelsAll && BelowIonization(r, ies) ==>
      exists l :: l in Culled(levelsAll, ies) && Represents(l, r)
  {
    hide SortBy, Cull;
    var shifted := Shift(ies);
    var kept := Cull(levelsAll, shifted);
    var sorted := Survivors(levelsAll, ies);
    var culled := Culled(levelsAll, ies);
    CullMembers(levelsAll, shifted);
    forall l | l in culled
      ensures !l.metastable && exists r :: r in levelsAll && Represents(l, r) && BelowIonization(r, ies)
    {
      var i :| 0 <= i < |culled| && culled[i] == l;
      var r := sorted[i];
      assert r in multiset(kept);
      ShiftSurvives(r, ies);
    }
    forall r | r in levelsAll && BelowIonization(r, ies)
      ensures exists l :: l in culled && Represents(l, r)
    {
      ShiftSurvives(r, ies);
      assert r in multiset(sorted);
      var i :| 0 <= i < |sorted| && sorted[i] == r;
      assert Represents(culled[i], r);
    }
  }

  /**
   * Within each ion the culled levels are numbered 0, 1, 2, ... in table
   * order, and that order is by energy, ties by g.
   */
  lemma CulledNumbering(levelsAll: seq<LevelsAllRow>, ies: seq<IonizationRow>)
    ensures var culled := Culled(levelsAll, ies);
      forall i, j ::
        0 <= i < j < |culled| && culled[i].atomicNumber == culled[j].atomicNumber && culled[i].ionNumber == culled[j].ionNumber
        ==>
        && culled[i].levelNumber < culled[j].levelNumber
        && KeyLe([Num(culled[i].energy), Num(culled[i].g as real)], [Num(culled[j].energy), Num(culled[j].g as real)])
  {
    var sorted := Survivors(levelsAll, ies);
    var culled := Culled(levelsAll, ies);
    SortBySorted(Cull(levelsAll, Shift(ies)), CullOrder);
    RankDense(sorted, AllRowIon);
    forall i, j | 0 <= i < j < |culled| && culled[i].atomicNumber == culled[j].atomicNumber
        && culled[i].ionNumber == culled[j].ionNumber
      ensures culled[i].levelNumber < culled[j].levelNumber
      ensures KeyLe([Num(culled[i].energy), Num(culled[i].g as real)], [Num(culled[j].energy), Num(culled[j].g as real)])
    {
      assert AllRowIon(sorted[i]) == AllRowIon(sorted[j]);
      SameIonOrder(sorted[i], sorted[j]);
    }
  }

  /** Every level_number of an ion below its count of culled levels is used. */
  lemma CulledNumbersDense(levelsAll: seq<LevelsAllRow>, ies: seq<IonizationRow>, i: int, k: nat)
    requires 0 <= i < |Culled(levelsAll, ies)|
    requires k <= Culled(levelsAll, ies)[i].levelNumber
    ensures exists j ::
      && 0 <= j <= i && Culled(levelsAll, ies)[j].levelNumber == k
      && Culled(levelsAll, ies)[j].atomicNumber == Culled(levelsAll, ies)[i].atomicNumber
      && Culled(levelsAll, ies)[j].ionNumber == Culled(levelsAll, ies)[i].ionNumber
  {
    hide SortBy, Cull;
    var sorted := Survivors(levelsAll, ies);
    var culled := Culled(levelsAll, ies);
    var prefix := sorted[..i];
    if k < culled[i].levelNumber {
      RankReached(prefix, AllRowIon, AllRowIon(sorted[i]), k);
      var j :| 0 <= j < |prefix| && AllRowIon(prefix[j]) == AllRowIon(sorted[i]) && Rank(prefix, AllRowIon, j) == k;
      assert prefix[..j] == sorted[..j];
      assert culled[j].levelNumber == k;
    }
  }

  /** Two rows of one ion compare by (energy, g). */
  lemma SameIonOrder(a: LevelsAllRow, b: LevelsAllRow)
    requires AllRowIon(a) == AllRowIon(b)
    requires KeyLe(CullOrder(a), CullOrder(b))
    ensures KeyLe([Num(a.content.energy), Num(a.content.g as real)], [Num(b.content.energy), Num(b.content.g as real)])
  {
    var ka, kb := CullOrder(a), CullOrder(b);
    assert ka[0] == kb[0] && ka[1..][0] == kb[1..][0];
    assert KeyLt(kb, ka) == KeyLt(kb[1..], ka[1..]);
    assert KeyLt(kb[1..], ka[1..]) == KeyLt(kb[1..][1..], ka[1..][1..]);
    assert ka[1..][1..] == [Num(a.content.energy), Num(a.content.g as real)];
    assert kb[1..][1..] == [Num(b.content.energy), Num(b.content.g as real)];
  }

  /** The atomic numbers of the artificial levels: those of the levels, each once, ascending. */
  lemma ElementNumbersSpec(levels: seq<FinalLevel>)
    ensures forall z :: z in ElementNumbers(levels) <==> exists l :: l in levels && l.atomicNumber == z
    ensures forall i, j :: 0 <= i < j < |ElementNumbers(levels)| ==> ElementNumbers(levels)[i] < ElementNumbers(levels)[j]
  {
    var numbers := Map(levels, AtomicNumberOf);
    var zs := ElementNumbers(levels);
    DedupSortSpec(numbers, Same, AtomicNumberKey);
    forall z | exists l :: l in levels && l.atomicNumber == z
      ensures z in zs
    {
      var l :| l in levels && l.atomicNumber == z;
      var i :| 0 <= i < |levels| && levels[i] == l;
      assert numbers[i] == z;
      assert HasKey(zs, Same(numbers[i]), Same);
    }
    forall z | z in zs
      ensures exists l :: l in levels && l.atomicNumber == z
    {
      var i :| 0 <= i < |numbers| && numbers[i] == z;
      assert levels[i] in levels;
    }
    forall i, j | 0 <= i < j < |zs| ensures zs[i] < zs[j] {
      NumKeyLe(zs[i], zs[j]);
    }
  }

  lemma NumKeyLe(a: int, b: int)
    requires KeyLe(AtomicNumberKey(a), AtomicNumberKey(b))
    ensures a <= b
  {
    assert b < a ==> ComponentLt(Num(b as real), Num(a as real));
  }

  /** The artificial levels are one per element of `culled`, and nothing else. */
  lemma ArtificialMembers(culled: seq<FinalLevel>)
    ensures forall l :: l in Map(ElementNumbers(culled), Artificial) ==> l == Artificial(l.atomicNumber)
    ensures forall z :: (exists l :: l in culled && l.atomicNumber == z) <==> Artificial(z) in Map(ElementNumbers(culled), Artificial)
  {
    var zs := ElementNumbers(culled);
    var artificial := Map(zs, Artificial);
    ElementNumbersSpec(culled);
    forall z ensures z in zs <==> Artificial(z) in artificial {
      if z in zs {
        var k :| 0 <= k < |zs| && zs[k] == z;
        assert artificial[k] == Artificial(z);
      }
      if Artificial(z) in artificial {
        var k :| 0 <= k < |artificial| && artificial[k] == Artificial(z);
      }
    }
    forall l | l in artificial ensures l == Artificial(l.atomicNumber) {
      var k :| 0 <= k < |artificial| && artificial[k] == l;
    }
  }

  /**
   * The levels table: the culled levels and one artificial level per element,
   * sorted by (atomic_number, ion_number, level_number); its metastable
   * levels are exactly the artificial ones.
   */
  lemma FinalLevelsSpec(culled: seq<FinalLevel>)
    requires forall l :: l in culled ==> !l.metastable
    ensures var final := FinalLevels(culled, Map(ElementNumbers(culled), Artificial));
      && multiset(final) == multiset(culled) + multiset(Map(ElementNumbers(culled), Artificial))
      && (forall i, j :: 0 <= i < j < |final| ==> KeyLe(FinalOrder(final[i]), FinalOrder(final[j])))
      && (forall l :: l in final && l.metastable ==> l == Artificial(l.atomicNumber))
      && (forall z :: (exists l :: l in culled && l.atomicNumber == z) <==> Artificial(z) in final)
  {
    var artificial := Map(ElementNumbers(culled), Artificial);
    var final := FinalLevels(culled, artificial);
    SortBySorted(culled + artificial, FinalOrder);
    ArtificialMembers(culled);
    forall l ensures l in final <==> l in culled || l in artificial {
      assert l in final <==> l in multiset(culled + artificial);
    }
    forall z ensures Artificial(z) in final <==> Artificial(z) in artificial {
      assert !(Artificial(z) in culled);
    }
  }

  /** Distinct atomic numbers give each artificial level once. */
  lemma {:induction false} ArtificialCount(zs: seq<int>, z: int)
    requires forall i, j :: 0 <= i < j < |zs| ==> zs[i] < zs[j]
    ensures multiset(Map(zs, Artificial))[Artificial(z)] == if z in zs then 1 else 0
  {
    if zs != [] {
      ArtificialCount(zs[1..], z);
      assert Map(zs, Artificial) == [Artificial(zs[0])] + Map(zs[1..], Artificial);
      assert zs[0] !in zs[1..] by {
        forall k | 0 <= k < |zs[1..]| ensures zs[1..][k] != zs[0] {
          assert zs[1..][k] == zs[k + 1];
        }
      }
      assert forall y :: y in zs <==> y == zs[0] || y in zs[1..];
    }
  }

  /**
   * The levels table holds exactly one artificial level for each element
   * that has a culled level, and none for any other element.
   */
  lemma ArtificialOnce(culled: seq<FinalLevel>, z: int)
    requires forall l :: l in culled ==> !l.metastable
    ensures multiset(FinalLevels(culled, Map(ElementNumbers(culled), Artificial)))[Artificial(z)]
      == if exists l :: l in culled && l.atomicNumber == z then 1 else 0
  {
    var artificial := Map(ElementNumbers(culled), Artificial);
    ElementNumbersSpec(culled);
    ArtificialCount(ElementNumbers(culled), z);
    assert Artificial(z) !in culled;
    assert multiset(FinalLevels(culled, artificial)) == multiset(culled) + multiset(artificial);
  }

  /**
   * In the sorted levels table an element's artificial level comes after
   * every level of that element with a smaller ion_number.
   */
  lemma ArtificialAfter(culled: seq<FinalLevel>, i: int, j: int)
    requires var final := FinalLevels(culled, Map(ElementNumbers(culled), Artificial));
      && 0 <= i < |final| && 0 <= j < |final|
      && final[i] == Artificial(final[i].atomicNumber)
      && final[j].atomicNumber == final[i].atomicNumber && final[j].ionNumber < final[i].ionNumber
    ensures j < i
  {
    var final := FinalLevels(culled, Map(ElementNumbers(culled), Artificial));
    SortBySorted(culled + Map(ElementNumbers(culled), Artificial), FinalOrder);
    IonOrderLt(final[j], final[i]);
    SortedLtBefore(final, FinalOrder, i, j);
  }

  /** Within an element, a smaller ion_number sorts first. */
  lemma IonOrderLt(x: FinalLevel, y: FinalLevel)
    requires x.atomicNumber == y.atomicNumber && x.ionNumber < y.ionNumber
    ensures KeyLt(FinalOrder(x), FinalOrder(y))
  {
    var a, b := FinalOrder(x), FinalOrder(y);
    assert a[0] == b[0] && ComponentLt(a[1..][0], b[1..][0]);
  }
}

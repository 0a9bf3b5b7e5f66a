/**
 * GFALLReader.extract_lines: one line per parsed row, carrying its ion, the
 * identifier values of its lower and upper level, its wavelength and
 * gf = 10**loggf, and the level_index of each of its two levels looked up in
 * the levels table by (atomic_number, ion_charge) + identifier. A level that
 * is not in the table leaves NaN, modelled as None.
 */
module Lines {
  import opened Common
  import opened Tables
  import opened Normalize
  import opened Levels

  datatype Line = Line(
    atomicNumber: nat,
    ionCharge: nat,
    levelIndexLower: Option<nat>,
    levelIndexUpper: Option<nat>,
    lowerIdent: seq<Component>,
    upperIdent: seq<Component>,
    wavelength: real,
    gf: real)

  /** The identifier columns `<attr>_lower` / `<attr>_upper` of one level. */
  function Ident(s: Side, attrs: seq<Attr>): (v: seq<Component>)
    ensures |v| == |attrs|
  {
    Map(attrs, a => AttrValue(a, s.energy, s.j, s.text))
  }

  /**
   * `lines_idx['level_index_*'] = levels_unique_idxed['level_index']`: the
   * index of the level with this key, None (NaN) when no level has it.
   */
  function LookupIndex(levels: seq<Level>, key: SortKey, attrs: seq<Attr>): (r: Option<nat>)
    ensures r.None? <==> !HasKey(levels, key, l => LevelKey(l, attrs))
    ensures r.Some? ==> exists i :: 0 <= i < |levels| && LevelKey(levels[i], attrs) == key && levels[i].levelIndex == r.value
  {
    if levels == [] then None
    else if LevelKey(levels[0], attrs) == key then Some(levels[0].levelIndex)
    else
      var r := LookupIndex(levels[1..], key, attrs);
      assert forall i :: 0 < i < |levels| ==> levels[i] == levels[1..][i - 1];
      assert HasKey(levels, key, l => LevelKey(l, attrs)) ==> HasKey(levels[1..], key, l => LevelKey(l, attrs)) by {
        if HasKey(levels, key, l => LevelKey(l, attrs)) {
          var i :| 0 <= i < |levels| && LevelKey(levels[i], attrs) == key;
          assert levels[1..][i - 1] == levels[i];
        }
      }
      r
  }

  function LineOf(n: NormRow, levels: seq<Level>, attrs: seq<Attr>, pow10: real -> real): Line
  {
    Line(n.atomicNumber, n.ionCharge,
         LookupIndex(levels, RowKey(LowerRow(n), attrs), attrs),
         LookupIndex(levels, RowKey(UpperRow(n), attrs), attrs),
         Ident(n.lower, attrs), Ident(n.upper, attrs),
         n.wavelength, pow10(n.loggf))
  }

  /** extract_lines against a given levels table: one line per row, in row order. */
  function ExtractLines(gfall: seq<NormRow>, levels: seq<Level>, attrs: seq<Attr>, pow10: real -> real): (lines: seq<Line>)
    ensures |lines| == |gfall|
    ensures forall i :: 0 <= i < |gfall| ==> lines[i] == LineOf(gfall[i], levels, attrs, pow10)
  {
    Map(gfall, n => LineOf(n, levels, attrs, pow10))
  }

  // ---- lemmas ----

  /** With distinct keys the looked-up index is the one of the only level that has the key. */
  lemma LookupIndexUnique(levels: seq<Level>, key: SortKey, attrs: seq<Attr>, i: int)
    requires DistinctKeys(levels, l => LevelKey(l, attrs))
    requires 0 <= i < |levels| && LevelKey(levels[i], attrs) == key
    ensures LookupIndex(levels, key, attrs) == Some(levels[i].levelIndex)
  {
    assert HasKey(levels, key, l => LevelKey(l, attrs));
    var r := LookupIndex(levels, key, attrs);
    var k :| 0 <= k < |levels| && LevelKey(levels[k], attrs) == key && levels[k].levelIndex == r.value;
    assert k == i by {
      assert !(k < i) && !(i < k);
    }
  }

  /** The key a line looks a level up by: its ion followed by the level's identifier values. */
  function LineKey(atomicNumber: nat, ionCharge: nat, ident: seq<Component>): SortKey
  {
    [Num(atomicNumber as real), Num(ionCharge as real)] + ident
  }

  /** `found` is the level_index of a level of `ion` whose key is `key`. */
  predicate Names(levels: seq<Level>, found: Option<nat>, ion: IonKey, key: SortKey, attrs: seq<Attr>)
  {
    found.Some? &&
    exists i :: 0 <= i < |levels| && levels[i].levelIndex == found.value
      && LevelIon(levels[i]) == ion && LevelKey(levels[i], attrs) == key
  }

  /**
   * Against the levels extracted from the same table with the same identifier,
   * every line finds both of its levels: neither level_index is NaN, and each
   * names a level of the line's ion with the line's identifier values.
   */
  lemma ExtractLinesResolved(gfall: seq<NormRow>, attrs: seq<Attr>, pow10: real -> real)
    ensures var levels := ExtractLevels(gfall, attrs);
      forall line :: line in ExtractLines(gfall, levels, attrs, pow10) ==>
        var ion := IonKey(line.atomicNumber, line.ionCharge);
        && Names(levels, line.levelIndexLower, ion, LineKey(line.atomicNumber, line.ionCharge, line.lowerIdent), attrs)
        && Names(levels, line.levelIndexUpper, ion, LineKey(line.atomicNumber, line.ionCharge, line.upperIdent), attrs)
  {
    var levels := ExtractLevels(gfall, attrs);
    var lines := ExtractLines(gfall, levels, attrs, pow10);
    ExtractLevelsComplete(gfall, attrs);
    forall line | line in lines
      ensures var ion := IonKey(line.atomicNumber, line.ionCharge);
        && Names(levels, line.levelIndexLower, ion, LineKey(line.atomicNumber, line.ionCharge, line.lowerIdent), attrs)
        && Names(levels, line.levelIndexUpper, ion, LineKey(line.atomicNumber, line.ionCharge, line.upperIdent), attrs)
    {
      var k :| 0 <= k < |gfall| && lines[k] == line;
      var n := gfall[k];
      LookupNames(levels, n.atomicNumber, n.ionCharge, n.lower, attrs);
      LookupNames(levels, n.atomicNumber, n.ionCharge, n.upper, attrs);
      assert RowKey(LowerRow(n), attrs) == IdentKey(n.atomicNumber, n.ionCharge, n.lower.energy, n.lower.j, n.lower.text, attrs);
      assert RowKey(UpperRow(n), attrs) == IdentKey(n.atomicNumber, n.ionCharge, n.upper.energy, n.upper.j, n.upper.text, attrs);
    }
  }

  /** A level present under a side's key is found, and it belongs to the side's ion. */
  lemma LookupNames(levels: seq<Level>, atomicNumber: nat, ionCharge: nat, s: Side, attrs: seq<Attr>)
    requires HasKey(levels, IdentKey(atomicNumber, ionCharge, s.energy, s.j, s.text, attrs), l => LevelKey(l, attrs))
    ensures Names(levels, LookupIndex(levels, IdentKey(atomicNumber, ionCharge, s.energy, s.j, s.text, attrs), attrs),
                  IonKey(atomicNumber, ionCharge), LineKey(atomicNumber, ionCharge, Ident(s, attrs)), attrs)
  {
    var key := IdentKey(atomicNumber, ionCharge, s.energy, s.j, s.text, attrs);
    LineKeyOfSide(atomicNumber, ionCharge, s, attrs);
    var r := LookupIndex(levels, key, attrs);
    var i :| 0 <= i < |levels| && LevelKey(levels[i], attrs) == key && levels[i].levelIndex == r.value;
    IonOfKey(levels[i], attrs, atomicNumber, ionCharge, key);
  }

  lemma LineKeyOfSide(atomicNumber: nat, ionCharge: nat, s: Side, attrs: seq<Attr>)
    ensures IdentKey(atomicNumber, ionCharge, s.energy, s.j, s.text, attrs) == LineKey(atomicNumber, ionCharge, Ident(s, attrs))
  {
  }

  /** A level's key starts with its ion. */
  lemma IonOfKey(l: Level, attrs: seq<Attr>, atomicNumber: nat, ionCharge: nat, key: SortKey)
    requires LevelKey(l, attrs) == key
    requires |key| >= 2 && key[0] == Num(atomicNumber as real) && key[1] == Num(ionCharge as real)
    ensures LevelIon(l) == IonKey(atomicNumber, ionCharge)
  {
    assert LevelKey(l, attrs)[0] == Num(l.atomicNumber as real);
    assert LevelKey(l, attrs)[1] == Num(l.ionCharge as real);
  }

  /** The lookup reads only keys and indices, so adding the g column does not change any line. */
  lemma {:induction false} LookupIndexWeights(levels: seq<Level>, key: SortKey, attrs: seq<Attr>)
    ensures LookupIndex(WithWeights(levels), key, attrs) == LookupIndex(levels, key, attrs)
  {
    if levels != [] {
      assert WithWeights(levels)[1..] == WithWeights(levels[1..]);
      LookupIndexWeights(levels[1..], key, attrs);
    }
  }

  lemma ExtractLinesWeights(gfall: seq<NormRow>, levels: seq<Level>, attrs: seq<Attr>, pow10: real -> real)
    ensures ExtractLines(gfall, WithWeights(levels), attrs, pow10) == ExtractLines(gfall, levels, attrs, pow10)
  {
    forall n | n in gfall
      ensures LineOf(n, WithWeights(levels), attrs, pow10) == LineOf(n, levels, attrs, pow10)
    {
      LookupIndexWeights(levels, RowKey(LowerRow(n), attrs), attrs);
      LookupIndexWeights(levels, RowKey(UpperRow(n), attrs), attrs);
    }
  }
}

/**
 * The Fortran FORMAT descriptor of a gfall record and its decoding in
 * GFALLReader.read_gfall_raw: one pass removes every number to leave the
 * type letters, another removes the letters and the decimal counts to leave
 * the widths; both results are split at the commas.
 */
module Descriptor {
  import opened Common

  /** numpy.float64, numpy.int64 or str: the dtype each column is read with. */
  datatype ColumnType = Float64 | Int64 | Text

  /** The letters of the descriptor: Fw.d, Iw, Aw and nX (n blank columns). */
  datatype Code = F | I | A | X

  /** One comma-separated entry, such as F11.4, I2, A10 or 1X. */
  datatype Entry = Entry(code: Code, width: nat, decimals: Option<nat>)

  /** A decoded column: its name, its width in characters and its dtype. */
  datatype Column = Column(name: string, width: nat, columnType: ColumnType)

  predicate IsDigit(c: char)
  {
    '0' <= c <= '9'
  }

  predicate AllDigits(s: string)
  {
    forall i :: 0 <= i < |s| ==> IsDigit(s[i])
  }

  function DigitValue(c: char): nat
    requires IsDigit(c)
  {
    (c as int - '0' as int) as nat
  }

  // ---- the source's string passes ----

  /** Drops the leading run of digits. */
  function SkipDigits(s: string): (r: string)
    ensures |r| <= |s|
    ensures r == [] || !IsDigit(r[0])
  {
    if s != [] && IsDigit(s[0]) then SkipDigits(s[1..]) else s
  }

  /** Drops one match of `\d+(\.\d+)?` at the start of `s`. */
  function SkipNumber(s: string): (r: string)
    requires s != [] && IsDigit(s[0])
    ensures |r| < |s|
  {
    var t := SkipDigits(s);
    if |t| >= 2 && t[0] == '.' && IsDigit(t[1]) then SkipDigits(t[1..]) else t
  }

  /** `re.sub(r'\d+(\.\d+)?', '', s)`. */
  function RemoveNumbers(s: string): string
    decreases |s|
  {
    if s == [] then []
    else if IsDigit(s[0]) then RemoveNumbers(SkipNumber(s))
    else [s[0]] + RemoveNumbers(s[1..])
  }

  /** `re.sub(r'[FIXA]', '', s)`. */
  function RemoveTypeLetters(s: string): string
  {
    if s == [] then []
    else (if s[0] in "FIXA" then [] else [s[0]]) + RemoveTypeLetters(s[1..])
  }

  /** `re.sub(r'\.\d+', '', s)`. */
  function RemoveDecimals(s: string): string
    decreases |s|
  {
    if s == [] then []
    else if |s| >= 2 && s[0] == '.' && IsDigit(s[1]) then RemoveDecimals(SkipDigits(s[1..]))
    else [s[0]] + RemoveDecimals(s[1..])
  }

  /** `s.split(',')`: always at least one item; the empty string gives one empty item. */
  function SplitCommas(s: string): (items: seq<string>)
    ensures |items| > 0
  {
    if s == [] then [[]]
    else
      var rest := SplitCommas(s[1..]);
      if s[0] == ',' then [[]] + rest else [[s[0]] + rest[0]] + rest[1..]
  }

  /** `type_dict[item]`: a KeyError for anything but a single F, I, X or A. */
  function TypeOf(item: string): Result<ColumnType>
  {
    if item == "F" then Ok(Float64)
    else if item == "I" then Ok(Int64)
    else if item == "X" || item == "A" then Ok(Text)
    else Err(UnknownFieldType(item))
  }

  /** Value of a string of decimal digits, most significant first. */
  function DigitsValue(s: string): nat
    requires AllDigits(s)
  {
    if s == [] then 0 else 10 * DigitsValue(s[..|s| - 1]) + DigitValue(s[|s| - 1])
  }

  /** `int(item)` on what the width pass leaves: a ValueError unless it is a digit string. */
  function ParseInt(item: string): Result<nat>
  {
    if item != [] && AllDigits(item) then Ok(DigitsValue(item)) else Err(NotAnInteger(item))
  }

  function TypesOf(items: seq<string>): Result<seq<ColumnType>>
  {
    if items == [] then Ok([])
    else
      var t :- TypeOf(items[0]);
      var ts :- TypesOf(items[1..]);
      Ok([t] + ts)
  }

  function IntsOf(items: seq<string>): Result<seq<nat>>
  {
    if items == [] then Ok([])
    else
      var w :- ParseInt(items[0]);
      var ws :- IntsOf(items[1..]);
      Ok([w] + ws)
  }

  /** `field_types` of read_gfall_raw. */
  function FieldTypes(format: string): Result<seq<ColumnType>>
  {
    TypesOf(SplitCommas(RemoveNumbers(format)))
  }

  /** `field_widths` of read_gfall_raw. */
  function FieldWidths(format: string): Result<seq<nat>>
  {
    IntsOf(SplitCommas(RemoveDecimals(RemoveTypeLetters(format))))
  }

  /** The names paired with widths and types, as `zip` pairs them (up to the shortest list). */
  function Layout(format: string, names: seq<string>): Result<seq<Column>>
  {
    var types :- FieldTypes(format);
    var widths :- FieldWidths(format);
    var n := Min(|names|, Min(|types|, |widths|));
    Ok(seq(n, k requires 0 <= k < n => Column(names[k], widths[k], types[k])))
  }

  function Min(a: nat, b: nat): nat
  {
    if a <= b then a else b
  }

  // ---- writing entries back as text ----

  function Digits(n: nat): (s: string)
    ensures s != [] && AllDigits(s)
    decreases n
  {
    if n < 10 then [('0' as int + n) as char]
    else Digits(n / 10) + [('0' as int + n % 10) as char]
  }

  function Letter(c: Code): char
  {
    match c
    case F => 'F'
    case I => 'I'
    case A => 'A'
    case X => 'X'
  }

  function TypeOfCode(c: Code): ColumnType
  {
    match c
    case F => Float64
    case I => Int64
    case A => Text
    case X => Text
  }

  /** Only F entries carry a decimal count. */
  predicate WellFormed(e: Entry)
  {
    e.decimals.Some? ==> e.code == F
  }

  function Render(e: Entry): string
  {
    if e.code == X then Digits(e.width) + "X"
    else [Letter(e.code)] + Digits(e.width) + (if e.decimals.Some? then "." + Digits(e.decimals.value) else "")
  }

  /** The descriptor text of a non-empty list of entries. */
  function Format(es: seq<Entry>): string
    requires |es| > 0
  {
    if |es| == 1 then Render(es[0]) else Render(es[0]) + "," + Format(es[1..])
  }

  // ---- lemmas ----

  lemma {:induction false} DigitsRoundTrip(n: nat)
    ensures DigitsValue(Digits(n)) == n
    decreases n
  {
    if n >= 10 {
      DigitsRoundTrip(n / 10);
      var s := Digits(n);
      assert s[..|s| - 1] == Digits(n / 10);
    }
  }

  lemma {:induction false} SkipDigitsAppend(d: string, t: string)
    requires AllDigits(d)
    requires t == [] || !IsDigit(t[0])
    ensures SkipDigits(d + t) == t
  {
    if d != [] {
      assert (d + t)[1..] == d[1..] + t;
      SkipDigitsAppend(d[1..], t);
    } else {
      assert d + t == t;
    }
  }

  lemma {:induction false} RemoveTypeLettersAppend(a: string, b: string)
    ensures RemoveTypeLetters(a + b) == RemoveTypeLetters(a) + RemoveTypeLetters(b)
  {
    if a != [] {
      assert (a + b)[1..] == a[1..] + b;
      RemoveTypeLettersAppend(a[1..], b);
    } else {
      assert a + b == b;
    }
  }

  lemma {:induction false} RemoveTypeLettersDigits(d: string)
    requires AllDigits(d)
    ensures RemoveTypeLetters(d) == d
  {
    if d != [] {
      RemoveTypeLettersDigits(d[1..]);
      assert d == [d[0]] + d[1..];
    }
  }

  lemma {:induction false} RemoveDecimalsDigits(d: string, t: string)
    requires AllDigits(d)
    ensures RemoveDecimals(d + t) == d + RemoveDecimals(t)
  {
    if d != [] {
      var s := d + t;
      assert s[0] == d[0] && s[0] != '.';
      assert RemoveDecimals(s) == [s[0]] + RemoveDecimals(s[1..]);
      assert s[1..] == d[1..] + t;
      RemoveDecimalsDigits(d[1..], t);
      assert [d[0]] + (d[1..] + RemoveDecimals(t)) == d + RemoveDecimals(t);
    } else {
      assert d + t == t;
    }
  }

  lemma {:induction false} SplitCommasAppend(a: string, b: string)
    requires ',' !in a
    ensures SplitCommas(a + "," + b) == [a] + SplitCommas(b)
  {
    if a == [] {
      assert a + "," + b == [','] + b;
      assert ([','] + b)[1..] == b;
    } else {
      assert (a + "," + b)[1..] == a[1..] + "," + b;
      SplitCommasAppend(a[1..], b);
      assert a == [a[0]] + a[1..];
    }
  }

  lemma {:induction false} SplitCommasSingle(a: string)
    requires ',' !in a
    ensures SplitCommas(a) == [a]
  {
    if a != [] {
      SplitCommasSingle(a[1..]);
      assert a == [a[0]] + a[1..];
    }
  }

  /** Removing the numbers from an entry, and from whatever follows its comma. */
  lemma {:induction false} RemoveNumbersEntry(e: Entry, t: string)
    requires WellFormed(e)
    requires t == [] || t[0] == ','
    ensures RemoveNumbers(Render(e) + t) == [Letter(e.code)] + RemoveNumbers(t)
  {
    var w := Digits(e.width);
    if e.code == X {
      RemoveNumbersSkipEntry(w, t);
    } else {
      var dec := if e.decimals.Some? then "." + Digits(e.decimals.value) else "";
      assert Render(e) == [Letter(e.code)] + w + dec;
      RemoveNumbersTypedEntry(Letter(e.code), w, dec, t);
    }
  }

  lemma {:induction false} RemoveNumbersSkipEntry(w: string, t: string)
    requires w != [] && AllDigits(w)
    requires t == [] || t[0] == ','
    ensures RemoveNumbers(w + "X" + t) == "X" + RemoveNumbers(t)
  {
    var u := "X" + t;
    assert w + "X" + t == w + [] + u;
    RemoveNumbersNumber(w, [], u);
    assert u[0] == 'X' && !IsDigit(u[0]);
    assert RemoveNumbers(u) == [u[0]] + RemoveNumbers(u[1..]);
    assert u[1..] == t;
  }

  lemma {:induction false} RemoveNumbersTypedEntry(c: char, w: string, dec: string, t: string)
    requires !IsDigit(c)
    requires w != [] && AllDigits(w)
    requires dec == [] || (|dec| >= 2 && dec[0] == '.' && AllDigits(dec[1..]))
    requires t == [] || t[0] == ','
    ensures RemoveNumbers([c] + w + dec + t) == [c] + RemoveNumbers(t)
  {
    var rest := w + dec + t;
    assert [c] + w + dec + t == [c] + rest;
    assert ([c] + rest)[1..] == rest;
    assert RemoveNumbers([c] + rest) == [c] + RemoveNumbers(rest);
    RemoveNumbersNumber(w, dec, t);
  }

  /** A number `w` or `w.d` at the front, followed by a non-digit, is removed whole. */
  lemma {:induction false} RemoveNumbersNumber(w: string, dec: string, t: string)
    requires w != [] && AllDigits(w)
    requires dec == [] || (|dec| >= 2 && dec[0] == '.' && AllDigits(dec[1..]))
    requires t == [] || (!IsDigit(t[0]) && t[0] != '.')
    ensures RemoveNumbers(w + dec + t) == RemoveNumbers(t)
  {
    var s := w + dec + t;
    assert s[0] == w[0];
    if dec == [] {
      assert s == w + t;
      SkipNumberWhole(w, t);
    } else {
      var d := dec[1..];
      assert dec == "." + d;
      assert s == w + ("." + (d + t));
      SkipNumberFraction(w, d, t);
    }
  }

  lemma {:induction false} SkipNumberWhole(w: string, t: string)
    requires w != [] && AllDigits(w)
    requires t == [] || (!IsDigit(t[0]) && t[0] != '.')
    ensures SkipNumber(w + t) == t
  {
    SkipDigitsAppend(w, t);
  }

  lemma {:induction false} SkipNumberFraction(w: string, d: string, t: string)
    requires w != [] && AllDigits(w)
    requires d != [] && AllDigits(d)
    requires t == [] || !IsDigit(t[0])
    ensures SkipNumber(w + ("." + (d + t))) == t
  {
    var u := "." + (d + t);
    SkipDigitsAppend(w, u);
    assert u[1..] == d + t;
    assert IsDigit(u[1]);
    SkipDigitsAppend(d, t);
  }

  /** Removing the letters and decimal counts from an entry leaves its width. */
  lemma {:induction false} RemoveDecimalsEntry(e: Entry, t: string)
    requires WellFormed(e)
    requires t == [] || t[0] == ','
    ensures RemoveDecimals(RemoveTypeLetters(Render(e) + t)) == Digits(e.width) + RemoveDecimals(RemoveTypeLetters(t))
  {
    var w := Digits(e.width);
    if e.code == X {
      assert Render(e) == w + "X";
      WidthOfSkipEntry(w, t);
    } else {
      var dec := if e.decimals.Some? then "." + Digits(e.decimals.value) else "";
      assert Render(e) == [Letter(e.code)] + w + dec;
      WidthOfTypedEntryDec(Letter(e.code), w, dec, t);
    }
  }

  lemma {:induction false} WidthOfTypedEntryDec(c: char, w: string, dec: string, t: string)
    requires c in "FIXA"
    requires AllDigits(w)
    requires dec == [] || (|dec| >= 2 && dec[0] == '.' && AllDigits(dec[1..]))
    requires t == [] || t[0] == ','
    ensures RemoveDecimals(RemoveTypeLetters([c] + w + dec + t)) == w + RemoveDecimals(RemoveTypeLetters(t))
  {
    if dec == [] {
      assert [c] + w + dec + t == [c] + (w + t);
      WidthOfTypedEntry(c, w, t);
    } else {
      var d := dec[1..];
      assert dec == "." + d;
      assert [c] + w + dec + t == [c] + (w + ("." + d + t));
      WidthOfTypedEntry(c, w, "." + d + t);
      RemoveDecimalsFraction(d, t);
    }
  }

  lemma {:induction false} WidthOfSkipEntry(w: string, t: string)
    requires AllDigits(w)
    requires t == [] || t[0] == ','
    ensures RemoveDecimals(RemoveTypeLetters(w + "X" + t)) == w + RemoveDecimals(RemoveTypeLetters(t))
  {
    var u := RemoveTypeLetters(t);
    assert w + "X" + t == w + ("X" + t);
    RemoveTypeLettersDigits(w);
    RemoveTypeLettersAppend(w, "X" + t);
    assert RemoveTypeLetters("X" + t) == u by {
      assert ("X" + t)[1..] == t;
    }
    RemoveDecimalsDigits(w, u);
  }

  lemma {:induction false} WidthOfTypedEntry(c: char, w: string, t: string)
    requires c in "FIXA"
    requires AllDigits(w)
    ensures RemoveDecimals(RemoveTypeLetters([c] + (w + t))) == w + RemoveDecimals(RemoveTypeLetters(t))
  {
    assert RemoveTypeLetters([c] + (w + t)) == RemoveTypeLetters(w + t) by {
      assert ([c] + (w + t))[1..] == w + t;
    }
    RemoveTypeLettersDigits(w);
    RemoveTypeLettersAppend(w, t);
    RemoveDecimalsDigits(w, RemoveTypeLetters(t));
  }

  lemma {:induction false} RemoveDecimalsFraction(d: string, t: string)
    requires d != [] && AllDigits(d)
    requires t == [] || t[0] == ','
    ensures RemoveDecimals(RemoveTypeLetters("." + d + t)) == RemoveDecimals(RemoveTypeLetters(t))
  {
    var u := RemoveTypeLetters(t);
    RemoveTypeLettersComma(t);
    assert "." + d + t == "." + (d + t);
    assert RemoveTypeLetters("." + (d + t)) == "." + RemoveTypeLetters(d + t) by {
      assert ("." + (d + t))[1..] == d + t;
    }
    RemoveTypeLettersAppend(d, t);
    RemoveTypeLettersDigits(d);
    var v := "." + (d + u);
    assert v[1..] == d + u;
    assert IsDigit(v[1]);
    SkipDigitsAppend(d, u);
  }

  lemma {:induction false} RemoveTypeLettersComma(t: string)
    requires t == [] || t[0] == ','
    ensures RemoveTypeLetters(t) == [] || RemoveTypeLetters(t)[0] == ','
  {
  }

  lemma {:induction false} TypeOfLetter(c: Code)
    ensures TypeOf([Letter(c)]) == Ok(TypeOfCode(c))
  {
    match c
    case F => assert [Letter(c)] == "F";
    case I => assert [Letter(c)] == "I";
    case A => assert [Letter(c)] == "A";
    case X => assert [Letter(c)] == "X";
  }

  /** The dtypes the entries declare, in order. */
  function Types(es: seq<Entry>): (r: seq<ColumnType>)
    ensures |r| == |es|
    ensures forall k :: 0 <= k < |es| ==> r[k] == TypeOfCode(es[k].code)
  {
    if es == [] then [] else [TypeOfCode(es[0].code)] + Types(es[1..])
  }

  /** The widths the entries declare, in order. */
  function Widths(es: seq<Entry>): (r: seq<nat>)
    ensures |r| == |es|
    ensures forall k :: 0 <= k < |es| ==> r[k] == es[k].width
  {
    if es == [] then [] else [es[0].width] + Widths(es[1..])
  }

  function LetterItems(es: seq<Entry>): seq<string>
  {
    if es == [] then [] else [[Letter(es[0].code)]] + LetterItems(es[1..])
  }

  function WidthItems(es: seq<Entry>): seq<string>
  {
    if es == [] then [] else [Digits(es[0].width)] + WidthItems(es[1..])
  }

  /** The type pass on one entry followed by more text. */
  lemma {:induction false} TypeStep(e: Entry, rest: string)
    requires WellFormed(e)
    ensures RemoveNumbers(Render(e) + "," + rest) == [Letter(e.code)] + "," + RemoveNumbers(rest)
  {
    var c := "," + rest;
    assert Render(e) + "," + rest == Render(e) + c;
    RemoveNumbersEntry(e, c);
    RemoveNumbersComma(rest);
    assert [Letter(e.code)] + ("," + RemoveNumbers(rest)) == [Letter(e.code)] + "," + RemoveNumbers(rest);
  }

  lemma {:induction false} RemoveNumbersComma(rest: string)
    ensures RemoveNumbers("," + rest) == "," + RemoveNumbers(rest)
  {
    var c := "," + rest;
    assert c[0] == ',' && !IsDigit(c[0]);
    assert c[1..] == rest;
  }

  /** The type pass leaves exactly one letter per entry between the commas. */
  lemma {:induction false} TypeItemsOfFormat(es: seq<Entry>)
    requires |es| > 0
    requires forall k :: 0 <= k < |es| ==> WellFormed(es[k])
    ensures SplitCommas(RemoveNumbers(Format(es))) == LetterItems(es)
  {
    var L := [Letter(es[0].code)];
    if |es| == 1 {
      RemoveNumbersEntry(es[0], []);
      assert Render(es[0]) + [] == Render(es[0]);
      SplitCommasSingle(L);
      assert LetterItems(es) == [L] + LetterItems([]);
    } else {
      var rest := Format(es[1..]);
      TypeStep(es[0], rest);
      SplitCommasAppend(L, RemoveNumbers(rest));
      TypeItemsOfFormat(es[1..]);
    }
  }

  lemma {:induction false} TypesOfLetters(es: seq<Entry>)
    ensures TypesOf(LetterItems(es)) == Ok(Types(es))
  {
    if es != [] {
      TypeOfLetter(es[0].code);
      TypesOfLetters(es[1..]);
      assert LetterItems(es)[1..] == LetterItems(es[1..]);
    }
  }

  /** Decoding the types of a rendered descriptor gives each entry's dtype, in order. */
  lemma FieldTypesOfFormat(es: seq<Entry>)
    requires |es| > 0
    requires forall k :: 0 <= k < |es| ==> WellFormed(es[k])
    ensures FieldTypes(Format(es)) == Ok(Types(es))
  {
    TypeItemsOfFormat(es);
    TypesOfLetters(es);
  }

  /** The width pass leaves exactly one digit string per entry between the commas. */
  lemma {:induction false} WidthItemsOfFormat(es: seq<Entry>)
    requires |es| > 0
    requires forall k :: 0 <= k < |es| ==> WellFormed(es[k])
    ensures SplitCommas(RemoveDecimals(RemoveTypeLetters(Format(es)))) == WidthItems(es)
  {
    var w := Digits(es[0].width);
    assert ',' !in w by { assert forall c :: c in w ==> IsDigit(c); }
    if |es| == 1 {
      RemoveDecimalsEntry(es[0], []);
      assert Render(es[0]) + [] == Render(es[0]);
      assert RemoveDecimals(RemoveTypeLetters([])) == [];
      assert w + [] == w;
      SplitCommasSingle(w);
      assert WidthItems(es) == [w] + WidthItems([]);
    } else {
      var rest := Format(es[1..]);
      assert Format(es) == Render(es[0]) + "," + rest;
      WidthStep(es[0], rest);
      SplitCommasAppend(w, RemoveDecimals(RemoveTypeLetters(rest)));
      WidthItemsOfFormat(es[1..]);
    }
  }

  lemma {:induction false} WidthStep(e: Entry, rest: string)
    requires WellFormed(e)
    ensures RemoveDecimals(RemoveTypeLetters(Render(e) + "," + rest))
         == Digits(e.width) + "," + RemoveDecimals(RemoveTypeLetters(rest))
  {
    assert Render(e) + "," + rest == Render(e) + ("," + rest);
    RemoveDecimalsEntry(e, "," + rest);
    RemoveTypeLettersAppend(",", rest);
    assert RemoveTypeLetters(",") == ",";
    assert RemoveDecimals("," + RemoveTypeLetters(rest)) == "," + RemoveDecimals(RemoveTypeLetters(rest));
  }

  lemma {:induction false} IntsOfDigits(es: seq<Entry>)
    ensures IntsOf(WidthItems(es)) == Ok(Widths(es))
  {
    if es != [] {
      DigitsRoundTrip(es[0].width);
      IntsOfDigits(es[1..]);
      assert WidthItems(es)[1..] == WidthItems(es[1..]);
    }
  }

  /** Decoding the widths of a rendered descriptor gives each entry's width, in order. */
  lemma FieldWidthsOfFormat(es: seq<Entry>)
    requires |es| > 0
    requires forall k :: 0 <= k < |es| ==> WellFormed(es[k])
    ensures FieldWidths(Format(es)) == Ok(Widths(es))
  {
    WidthItemsOfFormat(es);
    IntsOfDigits(es);
  }

  /** Splitting the whole descriptor and splitting its pieces agree. */
  lemma {:induction false} FormatAppend(a: seq<Entry>, b: seq<Entry>)
    requires |a| > 0 && |b| > 0
    ensures Format(a + b) == Format(a) + "," + Format(b)
  {
    var ab := a + b;
    assert ab[0] == a[0];
    if |a| == 1 {
      assert ab[1..] == b;
      assert Format(ab) == Render(a[0]) + "," + Format(b);
    } else {
      assert ab[1..] == a[1..] + b;
      FormatAppend(a[1..], b);
      assert Format(ab) == Render(a[0]) + "," + Format(a[1..] + b);
      assert Format(a) == Render(a[0]) + "," + Format(a[1..]);
    }
  }

  // ---- the gfall record ----

  /** GFALLReader.gfall_columns: the 34 column names, in file order. */
  const GfallColumns: seq<string> := [
    "wavelength", "loggf", "element_code", "e_first", "j_first",
    "blank1", "label_first", "e_second", "j_second", "blank2",
    "label_second", "log_gamma_rad", "log_gamma_stark",
    "log_gamma_vderwaals", "ref", "nlte_level_no_first",
    "nlte_level_no_second", "isotope", "log_f_hyperfine",
    "isotope2", "log_iso_abundance", "hyper_shift_first",
    "hyper_shift_second", "blank3", "hyperfine_f_first",
    "hyperfine_note_first", "blank4", "hyperfine_f_second",
    "hyperfine_note_second", "line_strength_class", "line_code",
    "lande_g_first", "lande_g_second", "isotopic_shift"]

  /**
   * GFALLReader.gfall_fortran_format: the seven groups below joined by
   * commas, each written one entry at a time.
   */
  const GfallFortranFormat: string :=
    Group1Text + "," + Group2Text + "," + Group3Text + "," + Group4Text + "," +
    Group5Text + "," + Group6Text + "," + Group7Text

  const Group1Text: string := "F11.4" + "," + ("F7.3" + "," + ("F6.2" + "," + ("F12.3" + "," + "F5.2")))
  const Group2Text: string := "1X" + "," + ("A10" + "," + ("F12.3" + "," + ("F5.2" + "," + "1X")))
  const Group3Text: string := "A10" + "," + ("F6.2" + "," + ("F6.2" + "," + ("F6.2" + "," + "A4")))
  const Group4Text: string := "I2" + "," + ("I2" + "," + ("I3" + "," + ("F6.3" + "," + "I3")))
  const Group5Text: string := "F6.3" + "," + ("I5" + "," + ("I5" + "," + ("1X" + "," + "I1")))
  const Group6Text: string := "A1" + "," + ("1X" + "," + ("I1" + "," + ("A1" + "," + "I1")))
  const Group7Text: string := "A3" + "," + ("I5" + "," + ("I5" + "," + "I6"))

  function Fw(w: nat, d: nat): Entry { Entry(F, w, Some(d)) }
  function Iw(w: nat): Entry { Entry(I, w, None) }
  function Aw(w: nat): Entry { Entry(A, w, None) }
  function Skip(w: nat): Entry { Entry(X, w, None) }

  const Group1: seq<Entry> := [Fw(11, 4), Fw(7, 3), Fw(6, 2), Fw(12, 3), Fw(5, 2)]
  const Group2: seq<Entry> := [Skip(1), Aw(10), Fw(12, 3), Fw(5, 2), Skip(1)]
  const Group3: seq<Entry> := [Aw(10), Fw(6, 2), Fw(6, 2), Fw(6, 2), Aw(4)]
  const Group4: seq<Entry> := [Iw(2), Iw(2), Iw(3), Fw(6, 3), Iw(3)]
  const Group5: seq<Entry> := [Fw(6, 3), Iw(5), Iw(5), Skip(1), Iw(1)]
  const Group6: seq<Entry> := [Aw(1), Skip(1), Iw(1), Aw(1), Iw(1)]
  const Group7: seq<Entry> := [Aw(3), Iw(5), Iw(5), Iw(6)]

  /** The descriptor's 34 entries, in order. */
  const GfallFields: seq<Entry> := Group1 + Group2 + Group3 + Group4 + Group5 + Group6 + Group7

  function Sum(xs: seq<nat>): nat
  {
    if xs == [] then 0 else xs[0] + Sum(xs[1..])
  }

  lemma {:induction false} SumAppend(a: seq<nat>, b: seq<nat>)
    ensures Sum(a + b) == Sum(a) + Sum(b)
  {
    if a != [] {
      assert (a + b)[0] == a[0];
      assert (a + b)[1..] == a[1..] + b;
      SumAppend(a[1..], b);
    } else {
      assert a + b == b;
    }
  }

  lemma {:induction false} WidthsAppend(a: seq<Entry>, b: seq<Entry>)
    ensures Widths(a + b) == Widths(a) + Widths(b)
  {
    if a != [] {
      assert (a + b)[1..] == a[1..] + b;
      WidthsAppend(a[1..], b);
    } else {
      assert a + b == b;
    }
  }

  /** Format unfolded on four entries, nested the way it recurses. */
  lemma Format4(a: Entry, b: Entry, c: Entry, d: Entry)
    ensures Format([a, b, c, d]) == Render(a) + "," + (Render(b) + "," + (Render(c) + "," + Render(d)))
  {
    assert [c, d][1..] == [d];
    assert Format([c, d]) == Render(c) + "," + Render(d);
    assert [b, c, d][1..] == [c, d];
    assert Format([b, c, d]) == Render(b) + "," + Format([c, d]);
    assert [a, b, c, d][1..] == [b, c, d];
    assert Format([a, b, c, d]) == Render(a) + "," + Format([b, c, d]);
  }

  /** Format unfolded on five entries, nested the way it recurses. */
  lemma Format5(a: Entry, b: Entry, c: Entry, d: Entry, e: Entry)
    ensures Format([a, b, c, d, e]) == Render(a) + "," + (Render(b) + "," + (Render(c) + "," + (Render(d) + "," + Render(e))))
  {
    Format4(b, c, d, e);
    assert [a, b, c, d, e][1..] == [b, c, d, e];
  }

  lemma Group1Format()
    ensures Format(Group1) == Group1Text
  {
    Format5(Fw(11, 4), Fw(7, 3), Fw(6, 2), Fw(12, 3), Fw(5, 2));
    assert Render(Fw(11, 4)) == "F11.4";
    assert Render(Fw(7, 3)) == "F7.3";
    assert Render(Fw(6, 2)) == "F6.2";
    assert Render(Fw(12, 3)) == "F12.3";
    assert Render(Fw(5, 2)) == "F5.2";
  }

  lemma Group2Format()
    ensures Format(Group2) == Group2Text
  {
    Format5(Skip(1), Aw(10), Fw(12, 3), Fw(5, 2), Skip(1));
    assert Render(Skip(1)) == "1X";
    assert Render(Aw(10)) == "A10";
    assert Render(Fw(12, 3)) == "F12.3";
    assert Render(Fw(5, 2)) == "F5.2";
  }

  lemma Group3Format()
    ensures Format(Group3) == Group3Text
  {
    Format5(Aw(10), Fw(6, 2), Fw(6, 2), Fw(6, 2), Aw(4));
    assert Render(Aw(10)) == "A10";
    assert Render(Fw(6, 2)) == "F6.2";
    assert Render(Aw(4)) == "A4";
  }

  lemma Group4Format()
    ensures Format(Group4) == Group4Text
  {
    Format5(Iw(2), Iw(2), Iw(3), Fw(6, 3), Iw(3));
    assert Render(Iw(2)) == "I2";
    assert Render(Iw(3)) == "I3";
    assert Render(Fw(6, 3)) == "F6.3";
  }

  lemma Group5Format()
    ensures Format(Group5) == Group5Text
  {
    Format5(Fw(6, 3), Iw(5), Iw(5), Skip(1), Iw(1));
    assert Render(Fw(6, 3)) == "F6.3";
    assert Render(Iw(5)) == "I5";
    assert Render(Skip(1)) == "1X";
    assert Render(Iw(1)) == "I1";
  }

  lemma Group6Format()
    ensures Format(Group6) == Group6Text
  {
    Format5(Aw(1), Skip(1), Iw(1), Aw(1), Iw(1));
    assert Render(Aw(1)) == "A1";
    assert Render(Skip(1)) == "1X";
    assert Render(Iw(1)) == "I1";
  }

  lemma Group7Format()
    ensures Format(Group7) == Group7Text
  {
    Format4(Aw(3), Iw(5), Iw(5), Iw(6));
    assert Render(Aw(3)) == "A3";
    assert Render(Iw(5)) == "I5";
    assert Render(Iw(6)) == "I6";
  }

  /** The descriptor text is exactly the rendering of the 34 entries. */
  lemma GfallFormatOfFields()
    ensures GfallFortranFormat == Format(GfallFields)
  {
    Group1Format(); Group2Format(); Group3Format(); Group4Format();
    Group5Format(); Group6Format(); Group7Format();
    FormatAppend(Group1, Group2);
    FormatAppend(Group1 + Group2, Group3);
    FormatAppend(Group1 + Group2 + Group3, Group4);
    FormatAppend(Group1 + Group2 + Group3 + Group4, Group5);
    FormatAppend(Group1 + Group2 + Group3 + Group4 + Group5, Group6);
    FormatAppend(Group1 + Group2 + Group3 + Group4 + Group5 + Group6, Group7);
  }

  lemma GfallFieldsWellFormed()
    ensures |GfallFields| == 34
    ensures forall k :: 0 <= k < |GfallFields| ==> WellFormed(GfallFields[k])
  {
    forall k | 0 <= k < |GfallFields|
      ensures WellFormed(GfallFields[k])
    {
      assert GfallFields[k] in GfallFields;
    }
  }

  lemma SumOfFour(a: nat, b: nat, c: nat, d: nat)
    ensures Sum([a, b, c, d]) == a + b + c + d
  {
    assert [d][1..] == [];
    assert Sum([d]) == d;
    assert [c, d][1..] == [d];
    assert Sum([c, d]) == c + d;
    assert [b, c, d][1..] == [c, d];
    assert Sum([b, c, d]) == b + c + d;
    assert [a, b, c, d][1..] == [b, c, d];
  }

  lemma SumOfFive(a: nat, b: nat, c: nat, d: nat, e: nat)
    ensures Sum([a, b, c, d, e]) == a + b + c + d + e
  {
    SumOfFour(b, c, d, e);
    assert [a, b, c, d, e][1..] == [b, c, d, e];
  }

  lemma WidthSumFour(es: seq<Entry>)
    requires |es| == 4
    ensures Sum(Widths(es)) == es[0].width + es[1].width + es[2].width + es[3].width
  {
    assert Widths(es) == [es[0].width, es[1].width, es[2].width, es[3].width];
    SumOfFour(es[0].width, es[1].width, es[2].width, es[3].width);
  }

  lemma WidthSumFive(es: seq<Entry>)
    requires |es| == 5
    ensures Sum(Widths(es)) == es[0].width + es[1].width + es[2].width + es[3].width + es[4].width
  {
    assert Widths(es) == [es[0].width, es[1].width, es[2].width, es[3].width, es[4].width];
    SumOfFive(es[0].width, es[1].width, es[2].width, es[3].width, es[4].width);
  }

  lemma GroupWidthSums()
    ensures Sum(Widths(Group1)) == 41 && Sum(Widths(Group2)) == 29
    ensures Sum(Widths(Group3)) == 32 && Sum(Widths(Group4)) == 16
    ensures Sum(Widths(Group5)) == 18 && Sum(Widths(Group6)) == 5
    ensures Sum(Widths(Group7)) == 19
  {
    WidthSumFive(Group1);
    WidthSumFive(Group2);
    WidthSumFive(Group3);
    WidthSumFive(Group4);
    WidthSumFive(Group5);
    WidthSumFive(Group6);
    WidthSumFour(Group7);
  }

  lemma {:induction false} SumOfWidthsAppend(a: seq<Entry>, b: seq<Entry>)
    ensures Sum(Widths(a + b)) == Sum(Widths(a)) + Sum(Widths(b))
  {
    WidthsAppend(a, b);
    SumAppend(Widths(a), Widths(b));
  }

  lemma GfallWidthSum()
    ensures Sum(Widths(GfallFields)) == 160
  {
    GroupWidthSums();
    SumOfWidthsAppend(Group1, Group2);
    SumOfWidthsAppend(Group1 + Group2, Group3);
    SumOfWidthsAppend(Group1 + Group2 + Group3, Group4);
    SumOfWidthsAppend(Group1 + Group2 + Group3 + Group4, Group5);
    SumOfWidthsAppend(Group1 + Group2 + Group3 + Group4 + Group5, Group6);
    SumOfWidthsAppend(Group1 + Group2 + Group3 + Group4 + Group5 + Group6, Group7);
  }

  /**
   * read_gfall_raw's layout of a gfall record: the descriptor decodes to 34
   * columns, one per name, each with the width and dtype of its entry, and
   * the widths cover the 160 characters of a record.
   */
  lemma GfallLayout()
    ensures FieldTypes(GfallFortranFormat) == Ok(Types(GfallFields))
    ensures FieldWidths(GfallFortranFormat) == Ok(Widths(GfallFields))
    ensures var r := Layout(GfallFortranFormat, GfallColumns);
      r.Ok? && |r.value| == 34 &&
      forall k :: 0 <= k < 34 ==>
        r.value[k] == Column(GfallColumns[k], GfallFields[k].width, TypeOfCode(GfallFields[k].code))
    ensures Sum(Widths(GfallFields)) == 160
  {
    GfallFieldsWellFormed();
    GfallFormatOfFields();
    FieldTypesOfFormat(GfallFields);
    FieldWidthsOfFormat(GfallFields);
    GfallWidthSum();
  }
}

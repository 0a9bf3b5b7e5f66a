/**
 * Label cleaning in parse_gfall: `str.strip()` followed by
 * `str.replace('\s+', ' ')`, and the sentinel labels whose rows are dropped.
 * The reference the cleaning is proved against is Python's
 * `' '.join(label.split())`: the label's words, joined by single spaces.
 */
module Labels {

  /**
   * The characters `str.isspace()` accepts, which are also those `str.strip()`,
   * `str.split()` and `\s` on str treat as whitespace: tab to carriage return,
   * the four information separators, space, NEL, no-break space, and the
   * Unicode space and line/paragraph separators.
   */
  predicate IsSpace(c: char)
  {
    || '\t' <= c <= '\r'
    || '\U{001C}' <= c <= ' '
    || c == '\U{0085}' || c == '\U{00A0}' || c == '\U{1680}'
    || '\U{2000}' <= c <= '\U{200A}'
    || c == '\U{2028}' || c == '\U{2029}' || c == '\U{202F}' || c == '\U{205F}' || c == '\U{3000}'
  }

  predicate NoSpace(s: string)
  {
    forall i :: 0 <= i < |s| ==> !IsSpace(s[i])
  }

  function TrimStart(s: string): (r: string)
    ensures |r| <= |s| && r == s[|s| - |r|..]
    ensures r == [] || !IsSpace(r[0])
  {
    if s != [] && IsSpace(s[0]) then TrimStart(s[1..]) else s
  }

  function TrimEnd(s: string): (r: string)
    ensures |r| <= |s| && r == s[..|r|]
    ensures r == [] || !IsSpace(r[|r| - 1])
  {
    if s != [] && IsSpace(s[|s| - 1]) then TrimEnd(s[..|s| - 1]) else s
  }

  /** `str.strip()`. */
  function Strip(s: string): string
  {
    TrimEnd(TrimStart(s))
  }

  /** `re.sub('\s+', ' ', s)`: every maximal run of whitespace becomes one space. */
  function CollapseSpaces(s: string): string
    decreases |s|
  {
    if s == [] then []
    else if IsSpace(s[0]) then [' '] + CollapseSpaces(TrimStart(s))
    else [s[0]] + CollapseSpaces(s[1..])
  }

  /** The cleaning parse_gfall applies to label_lower and label_upper. */
  function CleanLabel(s: string): string
  {
    CollapseSpaces(Strip(s))
  }

  // ---- the reference: words and their single-space join ----

  /** The longest prefix without whitespace. */
  function Word(s: string): (w: string)
    ensures |w| <= |s| && w == s[..|w|] && NoSpace(w)
    ensures |w| < |s| ==> IsSpace(s[|w|])
  {
    if s == [] || IsSpace(s[0]) then [] else [s[0]] + Word(s[1..])
  }

  /** `str.split()` with no argument. */
  function Words(s: string): seq<string>
    decreases |s|
  {
    if s == [] then []
    else if IsSpace(s[0]) then Words(s[1..])
    else
      var w := Word(s);
      [w] + Words(s[|w|..])
  }

  /** `' '.join(ws)`. */
  function JoinWords(ws: seq<string>): string
  {
    if ws == [] then []
    else if |ws| == 1 then ws[0]
    else ws[0] + " " + JoinWords(ws[1..])
  }

  predicate ProperWords(ws: seq<string>)
  {
    forall i :: 0 <= i < |ws| ==> ws[i] != [] && NoSpace(ws[i])
  }

  /** The sentinel labels of parse_gfall; a row is dropped when either cleaned label is one of them. */
  predicate IsIgnoredLabel(text: string)
  {
    text == "AVERAGE" || text == "ENERGIES" || text == "CONTINUUM"
  }

  // ---- lemmas ----

  lemma {:induction false} WordsTrimStart(s: string)
    ensures Words(TrimStart(s)) == Words(s)
  {
    if s != [] && IsSpace(s[0]) {
      WordsTrimStart(s[1..]);
    }
  }

  lemma {:induction false} WordAppendSpace(x: string, c: char)
    requires IsSpace(c)
    ensures Word(x + [c]) == Word(x)
  {
    if x != [] && !IsSpace(x[0]) {
      assert (x + [c])[1..] == x[1..] + [c];
      WordAppendSpace(x[1..], c);
    }
  }

  lemma {:induction false} WordsAppendSpace(x: string, c: char)
    requires IsSpace(c)
    ensures Words(x + [c]) == Words(x)
    decreases |x|
  {
    if x == [] {
      assert Words([c]) == Words([]);
    } else if IsSpace(x[0]) {
      assert (x + [c])[1..] == x[1..] + [c];
      WordsAppendSpace(x[1..], c);
    } else {
      var w := Word(x);
      WordAppendSpace(x, c);
      assert (x + [c])[|w|..] == x[|w|..] + [c];
      WordsAppendSpace(x[|w|..], c);
    }
  }

  lemma {:induction false} WordsTrimEnd(s: string)
    ensures Words(TrimEnd(s)) == Words(s)
    decreases |s|
  {
    if s != [] && IsSpace(s[|s| - 1]) {
      var n := |s| - 1;
      WordsTrimEnd(s[..n]);
      assert s == s[..n] + [s[n]];
      WordsAppendSpace(s[..n], s[n]);
    }
  }

  lemma {:induction false} CollapseNoSpacePrefix(w: string, r: string)
    requires NoSpace(w)
    ensures CollapseSpaces(w + r) == w + CollapseSpaces(r)
  {
    if w != [] {
      assert (w + r)[0] == w[0];
      assert (w + r)[1..] == w[1..] + r;
      CollapseNoSpacePrefix(w[1..], r);
    } else {
      assert w + r == r;
    }
  }

  /** On a string with no leading or trailing whitespace, collapsing the runs joins the words. */
  lemma {:induction false} CollapseIsJoin(t: string)
    requires t == [] || (!IsSpace(t[0]) && !IsSpace(t[|t| - 1]))
    ensures CollapseSpaces(t) == JoinWords(Words(t))
    decreases |t|
  {
    hide IsSpace;
    if t != [] {
      var w := Word(t);
      var rest := t[|w|..];
      assert t == w + rest;
      CollapseNoSpacePrefix(w, rest);
      WordsFirst(t);
      if rest == [] {
        assert CollapseSpaces(t) == w;
      } else {
        var u := TrimStart(rest);
        RestOfWord(t, w, rest);
        CollapseIsJoin(u);
        WordsTrimStart(rest);
        WordsNonEmpty(u);
        JoinCons(w, Words(u));
      }
    }
  }

  /** A string that starts with a word splits into that word and the words of the rest. */
  lemma WordsFirst(t: string)
    requires t != [] && !IsSpace(t[0])
    ensures Words(t) == [Word(t)] + Words(t[|Word(t)|..])
  {
  }

  /**
   * What follows the first word of a string without trailing whitespace is
   * empty or starts a run of whitespace that ends before the string does.
   */
  lemma RestOfWord(t: string, w: string, rest: string)
    requires t != [] && !IsSpace(t[|t| - 1])
    requires w == Word(t) && rest == t[|w|..] && rest != []
    ensures CollapseSpaces(rest) == " " + CollapseSpaces(TrimStart(rest))
    ensures TrimStart(rest) != [] && !IsSpace(TrimStart(rest)[0])
    ensures !IsSpace(TrimStart(rest)[|TrimStart(rest)| - 1])
  {
    var u := TrimStart(rest);
    assert IsSpace(rest[0]);
    assert rest[|rest| - 1] == t[|t| - 1];
    if u == [] {
      TrimStartAllSpace(rest);
    }
    assert u[|u| - 1] == rest[|rest| - 1];
  }

  lemma WordsNonEmpty(u: string)
    requires u != [] && !IsSpace(u[0])
    ensures Words(u) != []
  {
    WordsFirst(u);
  }

  lemma JoinCons(w: string, ws: seq<string>)
    requires ws != []
    ensures JoinWords([w] + ws) == w + " " + JoinWords(ws)
  {
    assert ([w] + ws)[1..] == ws;
  }

  lemma {:induction false} TrimStartAllSpace(s: string)
    requires s != [] && TrimStart(s) == []
    ensures IsSpace(s[|s| - 1])
  {
    if |s| > 1 {
      TrimStartAllSpace(s[1..]);
    }
  }

  /** parse_gfall's cleaning equals `' '.join(label.split())`. */
  lemma CleanLabelIsJoinOfWords(s: string)
    ensures CleanLabel(s) == JoinWords(Words(s))
  {
    var t := Strip(s);
    var u := TrimStart(s);
    WordsTrimStart(s);
    WordsTrimEnd(u);
    if t != [] {
      assert t[0] == u[0];
    }
    CollapseIsJoin(t);
  }

  lemma {:induction false} WordsAreProper(s: string)
    ensures ProperWords(Words(s))
    decreases |s|
  {
    if s != [] {
      if IsSpace(s[0]) {
        WordsAreProper(s[1..]);
      } else {
        WordsAreProper(s[|Word(s)|..]);
      }
    }
  }

  lemma {:induction false} WordOfNoSpace(w: string, r: string)
    requires NoSpace(w)
    requires r == [] || IsSpace(r[0])
    ensures Word(w + r) == w
  {
    if w != [] {
      assert (w + r)[1..] == w[1..] + r;
      WordOfNoSpace(w[1..], r);
    } else {
      assert w + r == r;
    }
  }

  /** Splitting a single-space join gives the words back. */
  lemma {:induction false} WordsOfJoin(ws: seq<string>)
    requires ProperWords(ws)
    ensures Words(JoinWords(ws)) == ws
  {
    if |ws| == 1 {
      WordOfNoSpace(ws[0], []);
      assert ws[0] + [] == ws[0];
      assert ws[0][|ws[0]|..] == [];
    } else if |ws| > 1 {
      var tail := " " + JoinWords(ws[1..]);
      var t := ws[0] + tail;
      WordOfNoSpace(ws[0], tail);
      assert JoinWords(ws) == t;
      assert t[0] == ws[0][0] && !IsSpace(t[0]);
      assert t[|ws[0]|..] == tail;
      assert Words(t) == [ws[0]] + Words(tail);
      assert Words(tail) == Words(JoinWords(ws[1..])) by { assert tail[1..] == JoinWords(ws[1..]); }
      WordsOfJoin(ws[1..]);
      assert ws == [ws[0]] + ws[1..];
    }
  }

  /** Cleaning a label twice changes nothing more than cleaning it once. */
  lemma CleanLabelIdempotent(s: string)
    ensures CleanLabel(CleanLabel(s)) == CleanLabel(s)
  {
    CleanLabelIsJoinOfWords(s);
    CleanLabelIsJoinOfWords(CleanLabel(s));
    WordsAreProper(s);
    WordsOfJoin(Words(s));
  }
}

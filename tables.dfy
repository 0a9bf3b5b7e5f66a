/**
 * The pandas table operations the pipeline is built from, as functions over
 * sequences of records: `drop_duplicates` (first or last occurrence kept),
 * multi-column `sort_values`, `groupby(...).transform(np.arange)` (the rank of
 * a row inside its group), a boolean-mask selection and an inner `join` on
 * the ion key. Each is stated once here, with the lemmas that say what it
 * computes, and reused by the stages that call it.
 */
module Tables {
  import opened Common

  // ---------------------------------------------------------------------------
  // Sort keys: a row's sort columns, compared column by column as pandas does
  // ---------------------------------------------------------------------------

  /** One sort column's value: numbers compare numerically, strings by code point. */
  datatype Component = Num(n: real) | Text(t: string)

  type SortKey = seq<Component>

  /** Python's `<` on str: lexicographic by code point, a proper prefix first. */
  predicate TextLt(a: string, b: string)
    decreases |a|
  {
    if a == [] then b != []
    else if b == [] then false
    else if a[0] != b[0] then a[0] < b[0]
    else TextLt(a[1..], b[1..])
  }

  predicate ComponentLt(x: Component, y: Component)
  {
    match (x, y)
    case (Num(a), Num(b)) => a < b
    case (Text(a), Text(b)) => TextLt(a, b)
    case (Num(_), Text(_)) => true
    case (Text(_), Num(_)) => false
  }

  /** Lexicographic order on sort keys: the first column that differs decides. */
  predicate KeyLt(a: SortKey, b: SortKey)
    decreases |a|
  {
    if a == [] then b != []
    else if b == [] then false
    else if a[0] != b[0] then ComponentLt(a[0], b[0])
    else KeyLt(a[1..], b[1..])
  }

  predicate KeyLe(a: SortKey, b: SortKey)
  {
    !KeyLt(b, a)
  }

  lemma {:induction false} TextLtStrict(a: string, b: string, c: string)
    ensures !TextLt(a, a)
    ensures TextLt(a, b) && TextLt(b, c) ==> TextLt(a, c)
    ensures a != b ==> TextLt(a, b) || TextLt(b, a)
    decreases |a|
  {
    if a != [] && b != [] && c != [] {
      TextLtStrict(a[1..], b[1..], c[1..]);
      if a[0] == b[0] && a[1..] != b[1..] {
        assert a[1..] != b[1..];
      } else if a[0] == b[0] {
        assert a == [a[0]] + a[1..] && b == [b[0]] + b[1..];
      }
    } else if a != [] && b != [] {
      TextLtStrict(a[1..], b[1..], b[1..]);
      if a[0] == b[0] && a[1..] == b[1..] {
        assert a == [a[0]] + a[1..] && b == [b[0]] + b[1..];
      }
    } else if a != [] {
      TextLtStrict(a[1..], a[1..], a[1..]);
    }
  }

  lemma ComponentLtStrict(x: Component, y: Component, z: Component)
    ensures !ComponentLt(x, x)
    ensures ComponentLt(x, y) && ComponentLt(y, z) ==> ComponentLt(x, z)
    ensures x != y ==> ComponentLt(x, y) || ComponentLt(y, x)
  {
    if x.Text? && y.Text? && z.Text? {
      TextLtStrict(x.t, y.t, z.t);
    } else if x.Text? && y.Text? {
      TextLtStrict(x.t, y.t, y.t);
    } else if x.Text? {
      TextLtStrict(x.t, x.t, x.t);
    }
  }

  /** KeyLt is a strict total order, so KeyLe is a total preorder. */
  lemma {:induction false} KeyLtStrict(a: SortKey, b: SortKey, c: SortKey)
    ensures !KeyLt(a, a)
    ensures KeyLt(a, b) && KeyLt(b, c) ==> KeyLt(a, c)
    ensures a != b ==> KeyLt(a, b) || KeyLt(b, a)
    decreases |a|
  {
    if a != [] && b != [] && c != [] {
      KeyLtStrict(a[1..], b[1..], c[1..]);
      ComponentLtStrict(a[0], b[0], c[0]);
      if a[0] == b[0] && a[1..] == b[1..] {
        assert a == [a[0]] + a[1..] && b == [b[0]] + b[1..];
      }
    } else if a != [] && b != [] {
      KeyLtStrict(a[1..], b[1..], b[1..]);
      ComponentLtStrict(a[0], b[0], b[0]);
      if a[0] == b[0] && a[1..] == b[1..] {
        assert a == [a[0]] + a[1..] && b == [b[0]] + b[1..];
      }
    } else if a != [] {
      KeyLtStrict(a[1..], a[1..], a[1..]);
      ComponentLtStrict(a[0], a[0], a[0]);
    }
  }

  lemma KeyLeTotal(a: SortKey, b: SortKey, c: SortKey)
    ensures KeyLe(a, a)
    ensures KeyLe(a, b) || KeyLe(b, a)
    ensures KeyLe(a, b) && KeyLe(b, c) ==> KeyLe(a, c)
  {
    KeyLtStrict(a, b, a);
    KeyLtStrict(b, a, b);
    KeyLtStrict(a, b, c);
    KeyLtStrict(b, a, c);
    KeyLtStrict(c, a, b);
    KeyLtStrict(b, c, a);
    KeyLtStrict(a, c, b);
    KeyLtStrict(c, b, a);
  }

  // ---------------------------------------------------------------------------
  // sort_values: a stable sort by the key of each row
  // ---------------------------------------------------------------------------

  ghost predicate SortedBy<T>(s: seq<T>, key: T -> SortKey)
  {
    forall i, j :: 0 <= i < j < |s| ==> KeyLe(key(s[i]), key(s[j]))
  }

  /** In a sorted sequence a row with a strictly smaller key comes first. */
  lemma SortedLtBefore<T>(s: seq<T>, key: T -> SortKey, i: int, j: int)
    requires SortedBy(s, key)
    requires 0 <= i < |s| && 0 <= j < |s| && KeyLt(key(s[j]), key(s[i]))
    ensures j < i
  {
    KeyLtStrict(key(s[j]), key(s[j]), key(s[j]));
  }

  /** Inserts `x` after every row whose key is not greater, so that equal keys keep their order. */
  function Insert<T>(x: T, s: seq<T>, key: T -> SortKey): (r: seq<T>)
    ensures multiset(r) == multiset(s) + multiset{x}
    ensures |r| == |s| + 1
  {
    if s == [] then [x]
    else if KeyLt(key(x), key(s[0])) then [x] + s
    else
      assert s == [s[0]] + s[1..];
      [s[0]] + Insert(x, s[1..], key)
  }

  lemma {:induction false} InsertSorted<T>(x: T, s: seq<T>, key: T -> SortKey)
    requires SortedBy(s, key)
    ensures SortedBy(Insert(x, s, key), key)
  {
    if s != [] && !KeyLt(key(x), key(s[0])) {
      InsertSorted(x, s[1..], key);
      InsertSortedAfter(x, s, key);
    } else if s != [] {
      InsertSortedBefore(x, s, key);
    }
  }

  /** `x` goes in front of a sorted `s` whose first key is greater. */
  lemma {:induction false} InsertSortedBefore<T>(x: T, s: seq<T>, key: T -> SortKey)
    requires SortedBy(s, key)
    requires s != [] && KeyLt(key(x), key(s[0]))
    ensures SortedBy(Insert(x, s, key), key)
  {
    var le := (a: T, b: T) => KeyLe(key(a), key(b));
    forall j | 0 <= j < |s| ensures le(x, s[j]) {
      LtHeadLeAll(x, s, key, j);
    }
    ConsOrdered(x, s, le);
    assert Insert(x, s, key) == [x] + s;
  }

  /** A first element no greater than any of an ordered rest keeps it ordered. */
  lemma ConsOrdered<T>(x: T, s: seq<T>, le: (T, T) -> bool)
    requires forall j :: 0 <= j < |s| ==> le(x, s[j])
    requires forall i, j :: 0 <= i < j < |s| ==> le(s[i], s[j])
    ensures forall i, j :: 0 <= i < j < |[x] + s| ==> le(([x] + s)[i], ([x] + s)[j])
  {
    var r := [x] + s;
    forall i, j | 0 <= i < j < |r| ensures le(r[i], r[j]) {
      assert r[j] == s[j - 1];
      if i > 0 {
        assert r[i] == s[i - 1];
      }
    }
  }

  lemma {:induction false} LtHeadLeAll<T>(x: T, s: seq<T>, key: T -> SortKey, j: nat)
    requires SortedBy(s, key)
    requires j < |s| && KeyLt(key(x), key(s[0]))
    ensures KeyLe(key(x), key(s[j]))
  {
    if j > 0 {
      assert KeyLe(key(s[0]), key(s[j]));
    }
    KeyLtStrict(key(s[j]), key(x), key(s[0]));
  }

  /** `x` goes after the first row of `s`, into a sorted rest. */
  lemma {:induction false} InsertSortedAfter<T>(x: T, s: seq<T>, key: T -> SortKey)
    requires SortedBy(s, key)
    requires s != [] && !KeyLt(key(x), key(s[0]))
    requires SortedBy(Insert(x, s[1..], key), key)
    ensures SortedBy(Insert(x, s, key), key)
  {
    var r := Insert(x, s, key);
    var t := Insert(x, s[1..], key);
    assert r == [s[0]] + t;
    forall j | 0 < j < |r| ensures KeyLe(key(r[0]), key(r[j])) {
      assert r[j] == t[j - 1];
      InsertMemberAfterHead(x, s, key, t[j - 1]);
    }
    forall i, j | 0 <= i < j < |r| ensures KeyLe(key(r[i]), key(r[j])) {
      if i > 0 {
        assert r[i] == t[i - 1] && r[j] == t[j - 1];
      }
    }
  }

  /** Every row of `Insert(x, s[1..])` has a key no smaller than the first row of `s`. */
  lemma {:induction false} InsertMemberAfterHead<T>(x: T, s: seq<T>, key: T -> SortKey, y: T)
    requires SortedBy(s, key)
    requires s != [] && !KeyLt(key(x), key(s[0]))
    requires y in Insert(x, s[1..], key)
    ensures KeyLe(key(s[0]), key(y))
  {
    var t := Insert(x, s[1..], key);
    assert y in multiset(t);
    assert y in multiset(s[1..]) + multiset{x};
    if y == x {
      KeyLeTotal(key(s[0]), key(x), key(x));
    } else {
      assert y in s[1..];
      var k :| 0 <= k < |s[1..]| && s[1..][k] == y;
      assert s[k + 1] == y;
    }
  }

  /** `sort_values(by=...)`: pandas sorts on several columns with a stable lexsort. */
  function SortBy<T>(s: seq<T>, key: T -> SortKey): (r: seq<T>)
    ensures multiset(r) == multiset(s)
    ensures |r| == |s|
  {
    if s == [] then []
    else
      assert s == s[..|s| - 1] + [s[|s| - 1]];
      Insert(s[|s| - 1], SortBy(s[..|s| - 1], key), key)
  }

  lemma {:induction false} SortBySorted<T>(s: seq<T>, key: T -> SortKey)
    ensures SortedBy(SortBy(s, key), key)
  {
    if s != [] {
      SortBySorted(s[..|s| - 1], key);
      InsertSorted(s[|s| - 1], SortBy(s[..|s| - 1], key), key);
    }
  }

  /** Two sequences sorted by a key that no two rows share are equal when they hold the same rows. */
  lemma {:induction false} SortedUnique<T>(a: seq<T>, b: seq<T>, key: T -> SortKey)
    requires SortedBy(a, key) && SortedBy(b, key)
    requires multiset(a) == multiset(b)
    requires forall i, j :: 0 <= i < j < |a| ==> key(a[i]) != key(a[j])
    ensures a == b
  {
    if a != [] {
      assert |b| == |a| by { assert |multiset(a)| == |multiset(b)|; }
      SameHead(a, b, key);
      TailMultiset(a, b);
      SortedUnique(a[1..], b[1..], key);
      assert a == [a[0]] + a[1..] && b == [b[0]] + b[1..];
    }
  }

  lemma SameHead<T>(a: seq<T>, b: seq<T>, key: T -> SortKey)
    requires |a| == |b| > 0
    requires SortedBy(a, key) && SortedBy(b, key)
    requires multiset(a) == multiset(b)
    requires forall i, j :: 0 <= i < j < |a| ==> key(a[i]) != key(a[j])
    ensures a[0] == b[0]
  {
    assert a[0] in multiset(b);
    assert b[0] in multiset(a);
    var i :| 0 <= i < |b| && b[i] == a[0];
    var j :| 0 <= j < |a| && a[j] == b[0];
    if a[0] != b[0] {
      assert KeyLe(key(b[0]), key(b[i]));
      assert KeyLe(key(a[0]), key(a[j]));
      KeyLtStrict(key(a[0]), key(b[0]), key(b[0]));
      assert false;
    }
  }

  lemma TailMultiset<T>(a: seq<T>, b: seq<T>)
    requires |a| == |b| > 0 && a[0] == b[0]
    requires multiset(a) == multiset(b)
    ensures multiset(a[1..]) == multiset(b[1..])
  {
    assert a == [a[0]] + a[1..];
    assert b == [b[0]] + b[1..];
    assert multiset(a) == multiset{a[0]} + multiset(a[1..]);
    assert multiset(b) == multiset{a[0]} + multiset(b[1..]);
    assert multiset(a[1..]) == multiset(a) - multiset{a[0]};
    assert multiset(b[1..]) == multiset(b) - multiset{a[0]};
  }

  // ---------------------------------------------------------------------------
  // drop_duplicates: keep='first' and keep='last'
  // ---------------------------------------------------------------------------

  predicate FirstOccurrence<T, K(==)>(s: seq<T>, i: int, key: T -> K)
    requires 0 <= i < |s|
  {
    forall j :: 0 <= j < i ==> key(s[j]) != key(s[i])
  }

  predicate LastOccurrence<T, K(==)>(s: seq<T>, i: int, key: T -> K)
    requires 0 <= i < |s|
  {
    forall j :: i < j < |s| ==> key(s[j]) != key(s[i])
  }

  predicate DistinctKeys<T, K(==)>(s: seq<T>, key: T -> K)
  {
    forall i, j :: 0 <= i < j < |s| ==> key(s[i]) != key(s[j])
  }

  predicate HasKey<T, K(==)>(s: seq<T>, k: K, key: T -> K)
  {
    exists i :: 0 <= i < |s| && key(s[i]) == k
  }

  /** `drop_duplicates(subset, keep='first')`: a row survives iff no earlier row has its key. */
  function DropDuplicatesFirst<T, K(==)>(s: seq<T>, key: T -> K): (r: seq<T>)
    ensures |r| <= |s|
  {
    if s == [] then []
    else
      var n := |s| - 1;
      DropDuplicatesFirst(s[..n], key) + (if FirstOccurrence(s, n, key) then [s[n]] else [])
  }

  /**
   * What keep='first' computes: rows with pairwise distinct keys, one for every
   * key of the input, each of them the first input row with that key.
   */
  lemma {:induction false} DropDuplicatesFirstSpec<T, K>(s: seq<T>, key: T -> K)
    ensures DistinctKeys(DropDuplicatesFirst(s, key), key)
    ensures forall i :: 0 <= i < |s| ==> HasKey(DropDuplicatesFirst(s, key), key(s[i]), key)
    ensures forall x :: x in DropDuplicatesFirst(s, key) ==>
              exists i :: 0 <= i < |s| && s[i] == x && FirstOccurrence(s, i, key)
  {
    if s != [] {
      var n := |s| - 1;
      var p := s[..n];
      DropDuplicatesFirstSpec(p, key);
      var rp := DropDuplicatesFirst(p, key);
      var r := DropDuplicatesFirst(s, key);
      assert forall i :: 0 <= i < n ==> p[i] == s[i];
      if FirstOccurrence(s, n, key) {
        assert r == rp + [s[n]];
        forall i, j | 0 <= i < j < |r| ensures key(r[i]) != key(r[j]) {
          if j == |rp| {
            assert r[i] == rp[i];
            assert rp[i] in rp;
            var m :| 0 <= m < |p| && p[m] == rp[i] && FirstOccurrence(p, m, key);
            assert s[m] == r[i];
          } else {
            assert r[i] == rp[i] && r[j] == rp[j];
          }
        }
        forall i | 0 <= i < |s| ensures HasKey(r, key(s[i]), key) {
          if i < n {
            assert HasKey(rp, key(p[i]), key);
            var m :| 0 <= m < |rp| && key(rp[m]) == key(p[i]);
            assert r[m] == rp[m];
          } else {
            assert r[|rp|] == s[n];
          }
        }
        forall x | x in r ensures exists i :: 0 <= i < |s| && s[i] == x && FirstOccurrence(s, i, key) {
          if x in rp {
            var m :| 0 <= m < |p| && p[m] == x && FirstOccurrence(p, m, key);
            assert s[m] == x && FirstOccurrence(s, m, key);
          } else {
            assert x == s[n];
          }
        }
      } else {
        assert r == rp;
        forall i | 0 <= i < |s| ensures HasKey(r, key(s[i]), key) {
          if i < n {
            assert HasKey(rp, key(p[i]), key);
          } else {
            var j :| 0 <= j < n && key(s[j]) == key(s[n]);
            assert HasKey(rp, key(p[j]), key);
          }
        }
        forall x | x in r ensures exists i :: 0 <= i < |s| && s[i] == x && FirstOccurrence(s, i, key) {
          var m :| 0 <= m < |p| && p[m] == x && FirstOccurrence(p, m, key);
          assert s[m] == x && FirstOccurrence(s, m, key);
        }
      }
    }
  }

  lemma {:induction false} DistinctKeysCount<T, K>(a: seq<T>, key: T -> K, x: T)
    requires DistinctKeys(a, key)
    ensures multiset(a)[x] <= 1
  {
    if a != [] {
      var n := |a| - 1;
      assert a == a[..n] + [a[n]];
      assert DistinctKeys(a[..n], key) by {
        forall i, j | 0 <= i < j < n ensures key(a[..n][i]) != key(a[..n][j]) {
          assert a[..n][i] == a[i] && a[..n][j] == a[j];
        }
      }
      DistinctKeysCount(a[..n], key, x);
      if a[n] == x {
        forall i | 0 <= i < n ensures a[..n][i] != x {
          assert key(a[i]) != key(a[n]);
        }
        assert x !in a[..n];
      }
    }
  }

  /** Reordering rows keeps their keys distinct: what sort_values does to a deduplicated table. */
  lemma DistinctKeysPermutation<T, K>(a: seq<T>, b: seq<T>, key: T -> K)
    requires DistinctKeys(a, key)
    requires multiset(a) == multiset(b)
    ensures DistinctKeys(b, key)
  {
    forall i, j | 0 <= i < j < |b| ensures key(b[i]) != key(b[j]) {
      if b[i] == b[j] {
        CountOfRepeated(b, i, j);
        DistinctKeysCount(a, key, b[i]);
      } else {
        assert b[i] in multiset(a) && b[j] in multiset(a);
        var p :| 0 <= p < |a| && a[p] == b[i];
        var q :| 0 <= q < |a| && a[q] == b[j];
        assert p < q || q < p;
      }
    }
  }

  lemma CountOfRepeated<T>(b: seq<T>, i: int, j: int)
    requires 0 <= i < j < |b| && b[i] == b[j]
    ensures multiset(b)[b[i]] >= 2
  {
    assert b == b[..j] + [b[j]] + b[j + 1..];
    assert b[..j][i] == b[i];
    assert multiset(b) == multiset(b[..j]) + multiset{b[j]} + multiset(b[j + 1..]);
  }

  lemma HasKeyPermutation<T, K>(a: seq<T>, b: seq<T>, k: K, key: T -> K)
    requires HasKey(a, k, key)
    requires multiset(a) == multiset(b)
    ensures HasKey(b, k, key)
  {
    var m :| 0 <= m < |a| && key(a[m]) == k;
    assert a[m] in multiset(b);
    var n :| 0 <= n < |b| && b[n] == a[m];
  }

  /**
   * `drop_duplicates(subset, keep='first')` then `sort_values`: distinct keys,
   * every input key present, sorted, and nothing that was not an input row.
   */
  lemma DedupSortSpec<T, K>(s: seq<T>, key: T -> K, order: T -> SortKey)
    ensures DistinctKeys(SortBy(DropDuplicatesFirst(s, key), order), key)
    ensures forall i :: 0 <= i < |s| ==> HasKey(SortBy(DropDuplicatesFirst(s, key), order), key(s[i]), key)
    ensures SortedBy(SortBy(DropDuplicatesFirst(s, key), order), order)
    ensures forall x :: x in SortBy(DropDuplicatesFirst(s, key), order) ==> x in s
  {
    DedupSortKeys(s, key, order);
    DedupSortOrigin(s, key, order);
  }

  lemma DedupSortKeys<T, K>(s: seq<T>, key: T -> K, order: T -> SortKey)
    ensures DistinctKeys(SortBy(DropDuplicatesFirst(s, key), order), key)
    ensures forall i :: 0 <= i < |s| ==> HasKey(SortBy(DropDuplicatesFirst(s, key), order), key(s[i]), key)
  {
    var unique := DropDuplicatesFirst(s, key);
    var sorted := SortBy(unique, order);
    DropDuplicatesFirstSpec(s, key);
    DistinctKeysPermutation(unique, sorted, key);
    forall i | 0 <= i < |s| ensures HasKey(sorted, key(s[i]), key) {
      HasKeyPermutation(unique, sorted, key(s[i]), key);
    }
  }

  lemma DedupSortOrigin<T, K>(s: seq<T>, key: T -> K, order: T -> SortKey)
    ensures SortedBy(SortBy(DropDuplicatesFirst(s, key), order), order)
    ensures forall x :: x in SortBy(DropDuplicatesFirst(s, key), order) ==> x in s
  {
    var unique := DropDuplicatesFirst(s, key);
    SortBySorted(unique, order);
    DedupSortSubset(s, key, order);
  }

  lemma DedupSortSubset<T, K>(s: seq<T>, key: T -> K, order: T -> SortKey)
    ensures forall x :: x in SortBy(DropDuplicatesFirst(s, key), order) ==> x in s
  {
    var unique := DropDuplicatesFirst(s, key);
    var sorted := SortBy(unique, order);
    DropDuplicatesFirstSubset(s, key);
    forall x | x in sorted ensures x in s {
      SortByMember(unique, order, x);
    }
  }

  /** After de-duplication and sorting, every row is still the first of its key in the input. */
  lemma DedupSortFirst<T, K>(s: seq<T>, key: T -> K, order: T -> SortKey)
    ensures forall x :: x in SortBy(DropDuplicatesFirst(s, key), order) ==>
              exists i :: 0 <= i < |s| && s[i] == x && FirstOccurrence(s, i, key)
  {
    var unique := DropDuplicatesFirst(s, key);
    DropDuplicatesFirstSpec(s, key);
    forall x | x in SortBy(unique, order)
      ensures exists i :: 0 <= i < |s| && s[i] == x && FirstOccurrence(s, i, key)
    {
      SortByMember(unique, order, x);
    }
  }

  lemma SortByMember<T>(s: seq<T>, order: T -> SortKey, x: T)
    requires x in SortBy(s, order)
    ensures x in s
  {
    assert x in multiset(SortBy(s, order));
  }

  lemma {:induction false} DropDuplicatesFirstSubset<T, K>(s: seq<T>, key: T -> K)
    ensures forall x :: x in DropDuplicatesFirst(s, key) ==> x in s
  {
    if s != [] {
      var n := |s| - 1;
      DropDuplicatesFirstSubset(s[..n], key);
      assert forall x :: x in s[..n] ==> x in s;
    }
  }

  /** `drop_duplicates(keep='last')`: a row survives iff no later row has its key. */
  function DropDuplicatesLast<T, K(==)>(s: seq<T>, key: T -> K): (r: seq<T>)
    ensures |r| <= |s|
  {
    if s == [] then []
    else (if LastOccurrence(s, 0, key) then [s[0]] else []) + DropDuplicatesLast(s[1..], key)
  }

  /**
   * What keep='last' computes: rows with pairwise distinct keys, one for every
   * key of the input, each of them the last input row with that key.
   */
  lemma DropDuplicatesLastSpec<T, K>(s: seq<T>, key: T -> K)
    ensures DistinctKeys(DropDuplicatesLast(s, key), key)
    ensures forall i :: 0 <= i < |s| ==> HasKey(DropDuplicatesLast(s, key), key(s[i]), key)
    ensures forall x :: x in DropDuplicatesLast(s, key) ==>
              exists i :: 0 <= i < |s| && s[i] == x && LastOccurrence(s, i, key)
  {
    DropDuplicatesLastOrigin(s, key);
    DropDuplicatesLastDistinct(s, key);
    DropDuplicatesLastComplete(s, key);
  }

  lemma {:induction false} DropDuplicatesLastOrigin<T, K>(s: seq<T>, key: T -> K)
    ensures forall x :: x in DropDuplicatesLast(s, key) ==>
              exists i :: 0 <= i < |s| && s[i] == x && LastOccurrence(s, i, key)
  {
    if s != [] {
      var q := s[1..];
      DropDuplicatesLastOrigin(q, key);
      var rq := DropDuplicatesLast(q, key);
      var r := DropDuplicatesLast(s, key);
      forall x | x in r ensures exists i :: 0 <= i < |s| && s[i] == x && LastOccurrence(s, i, key) {
        if x in rq {
          var m :| 0 <= m < |q| && q[m] == x && LastOccurrence(q, m, key);
          assert s[m + 1] == x;
          assert forall j :: m + 1 < j < |s| ==> s[j] == q[j - 1];
          assert LastOccurrence(s, m + 1, key);
        } else {
          assert x == s[0] && LastOccurrence(s, 0, key);
        }
      }
    }
  }

  lemma {:induction false} DropDuplicatesLastDistinct<T, K>(s: seq<T>, key: T -> K)
    ensures DistinctKeys(DropDuplicatesLast(s, key), key)
  {
    if s != [] {
      var q := s[1..];
      DropDuplicatesLastDistinct(q, key);
      DropDuplicatesLastOrigin(q, key);
      var rq := DropDuplicatesLast(q, key);
      var r := DropDuplicatesLast(s, key);
      if LastOccurrence(s, 0, key) {
        assert r == [s[0]] + rq;
        forall i, j | 0 <= i < j < |r| ensures key(r[i]) != key(r[j]) {
          if i == 0 {
            assert r[j] == rq[j - 1];
            assert rq[j - 1] in rq;
            var m :| 0 <= m < |q| && q[m] == rq[j - 1] && LastOccurrence(q, m, key);
            assert s[m + 1] == r[j];
          } else {
            assert r[i] == rq[i - 1] && r[j] == rq[j - 1];
          }
        }
      }
    }
  }

  lemma {:induction false} DropDuplicatesLastComplete<T, K>(s: seq<T>, key: T -> K)
    ensures forall i :: 0 <= i < |s| ==> HasKey(DropDuplicatesLast(s, key), key(s[i]), key)
  {
    if s != [] {
      var q := s[1..];
      DropDuplicatesLastComplete(q, key);
      var rq := DropDuplicatesLast(q, key);
      var r := DropDuplicatesLast(s, key);
      forall i | 0 <= i < |s| ensures HasKey(r, key(s[i]), key) {
        if i > 0 {
          assert q[i - 1] == s[i];
          assert HasKey(rq, key(q[i - 1]), key);
          var m :| 0 <= m < |rq| && key(rq[m]) == key(q[i - 1]);
          if LastOccurrence(s, 0, key) {
            assert r[m + 1] == rq[m];
          } else {
            assert r[m] == rq[m];
          }
        } else if LastOccurrence(s, 0, key) {
          assert r[0] == s[0];
        } else {
          var j :| 0 < j < |s| && key(s[j]) == key(s[0]);
          assert q[j - 1] == s[j];
          assert HasKey(rq, key(q[j - 1]), key);
          var m :| 0 <= m < |rq| && key(rq[m]) == key(q[j - 1]);
          assert r[m] == rq[m];
        }
      }
    }
  }

  // ---------------------------------------------------------------------------
  // groupby(...).transform(np.arange): the rank of a row within its group
  // ---------------------------------------------------------------------------

  /** Number of rows of `s` whose group is `g`. */
  function GroupCount<T, K(==)>(s: seq<T>, group: T -> K, g: K): (n: nat)
    ensures n <= |s|
  {
    if s == [] then 0
    else GroupCount(s[..|s| - 1], group, g) + (if group(s[|s| - 1]) == g then 1 else 0)
  }

  /** np.arange(len(x)) within the group of row i: the number of earlier rows of that group. */
  function Rank<T, K(==)>(s: seq<T>, group: T -> K, i: int): nat
    requires 0 <= i < |s|
  {
    GroupCount(s[..i], group, group(s[i]))
  }

  lemma {:induction false} GroupCountSplit<T, K>(s: seq<T>, group: T -> K, g: K, i: int)
    requires 0 <= i <= |s|
    ensures GroupCount(s, group, g) == GroupCount(s[..i], group, g) + GroupCount(s[i..], group, g)
    decreases |s|
  {
    if i < |s| {
      var n := |s| - 1;
      GroupCountSplit(s[..n], group, g, i);
      assert s[..n][..i] == s[..i];
      assert s[i..][..|s[i..]| - 1] == s[..n][i..];
    } else {
      assert s[..i] == s;
    }
  }

  lemma {:induction false} GroupCountPositive<T, K>(s: seq<T>, group: T -> K, k: int)
    requires 0 <= k < |s|
    ensures GroupCount(s, group, group(s[k])) > 0
    decreases |s|
  {
    if k < |s| - 1 {
      GroupCountPositive(s[..|s| - 1], group, k);
    }
  }

  /**
   * The ranks of a group run through 0..n-1 in row order: each is below the
   * group's size and later rows rank higher (RankReached: every value below
   * the size is some row's rank).
   */
  lemma {:induction false} RankDense<T, K>(s: seq<T>, group: T -> K)
    ensures forall i :: 0 <= i < |s| ==> Rank(s, group, i) < GroupCount(s, group, group(s[i]))
    ensures forall i, j :: 0 <= i < j < |s| && group(s[i]) == group(s[j]) ==>
              Rank(s, group, i) < Rank(s, group, j)
  {
    forall i | 0 <= i < |s| ensures Rank(s, group, i) < GroupCount(s, group, group(s[i])) {
      GroupCountSplit(s, group, group(s[i]), i);
      GroupCountPositive(s[i..], group, 0);
    }
    forall i, j | 0 <= i < j < |s| && group(s[i]) == group(s[j])
      ensures Rank(s, group, i) < Rank(s, group, j)
    {
      var p := s[..j];
      GroupCountSplit(p, group, group(s[j]), i);
      assert p[..i] == s[..i];
      assert p[i..][0] == s[i];
      GroupCountPositive(p[i..], group, 0);
    }
  }

  /** `df.set_index(group).loc[g]`: the rows of group `g`, in their order. */
  function Members<T(!new), K(==)>(s: seq<T>, group: T -> K, g: K): (r: seq<T>)
    ensures |r| == GroupCount(s, group, g)
    ensures forall x :: x in r <==> x in s && group(x) == g
  {
    if s == [] then []
    else
      var n := |s| - 1;
      assert forall x :: x in s <==> x in s[..n] || x == s[n];
      Members(s[..n], group, g) + (if group(s[n]) == g then [s[n]] else [])
  }

  /** `.loc[g]` is the rows of group `g` in table order: a filter on the group. */
  lemma {:induction false} MembersIsFilter<T(!new), K>(s: seq<T>, group: T -> K, g: K)
    ensures Members(s, group, g) == Filter(s, x => group(x) == g)
    decreases |s|
  {
    if s != [] {
      var n := |s| - 1;
      MembersIsFilter(s[..n], group, g);
      assert s == s[..n] + [s[n]];
      FilterAppend(s[..n], [s[n]], x => group(x) == g);
      assert [s[n]][1..] == [];
    }
  }

  /** When every row of group `g` records its rank, the k-th row of the group records k. */
  lemma {:induction false} MembersRanked<T(!new), K>(s: seq<T>, group: T -> K, g: K, pos: T -> int)
    requires forall i :: 0 <= i < |s| && group(s[i]) == g ==> pos(s[i]) == GroupCount(s[..i], group, g)
    ensures forall k :: 0 <= k < |Members(s, group, g)| ==> pos(Members(s, group, g)[k]) == k
  {
    if s != [] {
      var n := |s| - 1;
      assert forall i :: 0 <= i < n ==> s[..n][..i] == s[..i];
      MembersRanked(s[..n], group, g, pos);
    }
  }

  /** Every value below a group's size is the rank of one of its rows. */
  lemma {:induction false} RankReached<T, K>(s: seq<T>, group: T -> K, g: K, k: nat)
    requires k < GroupCount(s, group, g)
    ensures exists i :: 0 <= i < |s| && group(s[i]) == g && Rank(s, group, i) == k
    decreases |s|
  {
    var n := |s| - 1;
    var p := s[..n];
    if k < GroupCount(p, group, g) {
      RankReached(p, group, g, k);
      var i :| 0 <= i < |p| && group(p[i]) == g && Rank(p, group, i) == k;
      assert p[..i] == s[..i];
    } else {
      assert group(s[n]) == g && Rank(s, group, n) == k;
    }
  }

  // ---------------------------------------------------------------------------
  // Row selection
  // ---------------------------------------------------------------------------

  /** `df[mask]`: the rows that satisfy `keep`, in their order. */
  function Filter<T(!new)>(s: seq<T>, keep: T -> bool): (r: seq<T>)
    ensures |r| <= |s|
    ensures forall x :: x in r <==> x in s && keep(x)
  {
    if s == [] then []
    else
      assert forall x :: x in s <==> x == s[0] || x in s[1..];
      (if keep(s[0]) then [s[0]] else []) + Filter(s[1..], keep)
  }

  lemma {:induction false} FilterAppend<T(!new)>(a: seq<T>, b: seq<T>, keep: T -> bool)
    ensures Filter(a + b, keep) == Filter(a, keep) + Filter(b, keep)
  {
    if a != [] {
      var ab := a + b;
      assert ab[0] == a[0];
      assert ab[1..] == a[1..] + b;
      FilterAppend(a[1..], b, keep);
      FilterCons(ab, keep);
      FilterCons(a, keep);
      AppendAssoc(if keep(a[0]) then [a[0]] else [], Filter(a[1..], keep), Filter(b, keep));
    } else {
      assert a + b == b;
    }
  }

  lemma FilterCons<T(!new)>(s: seq<T>, keep: T -> bool)
    requires s != []
    ensures Filter(s, keep) == (if keep(s[0]) then [s[0]] else []) + Filter(s[1..], keep)
  {
  }

  lemma AppendAssoc<T>(x: seq<T>, y: seq<T>, z: seq<T>)
    ensures x + (y + z) == (x + y) + z
  {
  }

  /** A column computed row by row: `f` applied to every row, in order. */
  function Map<T, U>(s: seq<T>, f: T -> U): (r: seq<U>)
    ensures |r| == |s|
    ensures forall i :: 0 <= i < |s| ==> r[i] == f(s[i])
  {
    if s == [] then [] else [f(s[0])] + Map(s[1..], f)
  }

  lemma {:induction false} MapAppend<T, U>(a: seq<T>, b: seq<T>, f: T -> U)
    ensures Map(a + b, f) == Map(a, f) + Map(b, f)
  {
    if a != [] {
      assert (a + b)[1..] == a[1..] + b;
      MapAppend(a[1..], b, f);
      assert Map(a + b, f) == [f(a[0])] + Map(a[1..] + b, f);
    } else {
      assert a + b == b;
    }
  }

  /** The rows of `df[mask].apply(f)` are the images of the selected rows and nothing else. */
  lemma MapFilterMembers<T(!new), U>(s: seq<T>, keep: T -> bool, f: T -> U)
    ensures |Map(Filter(s, keep), f)| <= |s|
    ensures forall y :: y in Map(Filter(s, keep), f) <==> exists x :: x in s && keep(x) && y == f(x)
  {
    var kept := Filter(s, keep);
    var r := Map(kept, f);
    forall y | y in r
      ensures exists x :: x in s && keep(x) && y == f(x)
    {
      var i :| 0 <= i < |kept| && r[i] == y;
      assert kept[i] in kept;
    }
    forall x | x in s && keep(x)
      ensures f(x) in r
    {
      assert x in kept;
      var i :| 0 <= i < |kept| && kept[i] == x;
      assert r[i] == f(x);
    }
  }

  function Repeat<T(!new)>(x: T, n: nat): (r: seq<T>)
    ensures |r| == n
    ensures forall y :: y in r <==> n > 0 && y == x
  {
    if n == 0 then [] else [x] + Repeat(x, n - 1)
  }

  /**
   * `join(ions, how="inner", on=["atomic_number", "ion_charge"])`: every row
   * appears once per matching entry of the ion list, in the table's order.
   */
  function JoinIons<T(!new)>(s: seq<T>, ions: seq<IonKey>, ionOf: T -> IonKey): (r: seq<T>)
    ensures forall x :: x in r <==> x in s && ionOf(x) in ions
  {
    if s == [] then []
    else
      assert forall x :: x in s <==> x == s[0] || x in s[1..];
      Repeat(s[0], Occurrences(ions, ionOf(s[0]))) + JoinIons(s[1..], ions, ionOf)
  }

  /** With a duplicate-free ion list, the inner join is the order-preserving selection. */
  lemma {:induction false} JoinIonsDistinct<T(!new)>(s: seq<T>, ions: seq<IonKey>, ionOf: T -> IonKey)
    requires NoDuplicates(ions)
    ensures JoinIons(s, ions, ionOf) == Filter(s, x => ionOf(x) in ions)
  {
    if s != [] {
      OccurrencesOfDistinct(ions, ionOf(s[0]));
      JoinIonsDistinct(s[1..], ions, ionOf);
      if ionOf(s[0]) in ions {
        assert Repeat(s[0], 1) == [s[0]];
      }
    }
  }
}

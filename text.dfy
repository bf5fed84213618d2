/** The parts of Python's `str` the bookkeeping relies on: ordering, `strip`, `lower`, `split`,
    `in`, `startswith`/`endswith`, `replace`, `str(int)` and `int(str)`. */
module Text {
  import opened Wrappers

  // ---------------------------------------------------------------------------
  // Python string order: code-point lexicographic, a proper prefix is smaller
  // ---------------------------------------------------------------------------

  predicate LexLess(a: string, b: string)
    decreases |a|
  {
    if |a| == 0 then |b| > 0
    else if |b| == 0 then false
    else if a[0] != b[0] then a[0] < b[0]
    else LexLess(a[1..], b[1..])
  }

  lemma {:induction false} LexIrreflexive(a: string)
    ensures !LexLess(a, a)
  {
    if |a| > 0 {
      LexIrreflexive(a[1..]);
    }
  }

  lemma {:induction false} LexTransitive(a: string, b: string, c: string)
    requires LexLess(a, b) && LexLess(b, c)
    ensures LexLess(a, c)
  {
    if |a| > 0 && |b| > 0 && |c| > 0 && a[0] == b[0] && b[0] == c[0] {
      LexTransitive(a[1..], b[1..], c[1..]);
    }
  }

  lemma {:induction false} LexTotal(a: string, b: string)
    requires a != b
    ensures LexLess(a, b) || LexLess(b, a)
  {
    if |a| > 0 && |b| > 0 && a[0] == b[0] {
      assert a == [a[0]] + a[1..] && b == [b[0]] + b[1..];
      LexTotal(a[1..], b[1..]);
    }
  }

  /** LexLess is a strict total order on strings. */
  lemma LexStrictTotalOrder()
    ensures forall a :: !LexLess(a, a)
    ensures forall a, b :: a != b ==> LexLess(a, b) || LexLess(b, a)
    ensures forall a, b, c :: LexLess(a, b) && LexLess(b, c) ==> LexLess(a, c)
  {
    forall a {
      LexIrreflexive(a);
    }
    forall a, b | a != b {
      LexTotal(a, b);
    }
    forall a, b, c | LexLess(a, b) && LexLess(b, c) {
      LexTransitive(a, b, c);
    }
  }

  /** A shared prefix does not change the order. */
  lemma {:induction false} LexCommonPrefix(p: string, x: string, y: string)
    ensures LexLess(p + x, p + y) == LexLess(x, y)
  {
    if |p| == 0 {
      assert p + x == x && p + y == y;
    } else {
      assert (p + x)[1..] == p[1..] + x;
      assert (p + y)[1..] == p[1..] + y;
      LexCommonPrefix(p[1..], x, y);
    }
  }

  /** Two strings whose first blocks have equal width and differ are ordered by those blocks. */
  lemma {:induction false} LexFirstBlock(x1: string, x2: string, y1: string, y2: string)
    requires |x1| == |y1| && x1 != y1
    ensures LexLess(x1 + x2, y1 + y2) == LexLess(x1, y1)
  {
    assert (x1 + x2)[0] == x1[0] && (y1 + y2)[0] == y1[0];
    if x1[0] == y1[0] {
      assert x1 == [x1[0]] + x1[1..] && y1 == [y1[0]] + y1[1..];
      assert (x1 + x2)[1..] == x1[1..] + x2;
      assert (y1 + y2)[1..] == y1[1..] + y2;
      LexFirstBlock(x1[1..], x2, y1[1..], y2);
    }
  }

  /** Strings built from a first block of one width compare by that block, then by the rest. */
  lemma LexBlocks(x1: string, r1: string, x2: string, r2: string)
    requires |x1| == |x2|
    ensures LexLess(x1 + r1, x2 + r2) <==> LexLess(x1, x2) || (x1 == x2 && LexLess(r1, r2))
  {
    if x1 == x2 {
      LexCommonPrefix(x1, r1, r2);
      LexIrreflexive(x1);
    } else {
      LexFirstBlock(x1, r1, x2, r2);
    }
  }

  // ---------------------------------------------------------------------------
  // sorted() of a set of names
  // ---------------------------------------------------------------------------

  /** No text occurs twice. */
  predicate Distinct(names: seq<string>) {
    forall i, j :: 0 <= i < j < |names| ==> names[i] != names[j]
  }

  /** Texts that occur once each are as many as the set they form. */
  lemma {:induction false} DistinctCardinality(names: seq<string>)
    requires Distinct(names)
    ensures |set x | x in names| == |names|
  {
    if names != [] {
      var tail := names[1..];
      DistinctCardinality(tail);
      assert (set x | x in names) == {names[0]} + (set x | x in tail);
      assert names[0] !in tail;
    }
  }

  predicate StrictlySorted(s: seq<string>) {
    forall i, j :: 0 <= i < j < |s| ==> LexLess(s[i], s[j])
  }

  /** A non-empty set of texts has a least element. */
  lemma LeastExists(names: set<string>)
    requires names != {}
    ensures exists m :: m in names && forall x :: x in names ==> !LexLess(x, m)
  {
    var m := Least(names);
  }

  lemma {:induction false} Least(names: set<string>) returns (m: string)
    requires names != {}
    ensures m in names && forall x :: x in names ==> !LexLess(x, m)
    decreases |names|
  {
    var y :| y in names;
    var rest := names - {y};
    LexIrreflexive(y);
    if rest == {} {
      forall x | x in names
        ensures x == y
      {
        assert x !in rest;
      }
      return y;
    }
    var k := Least(rest);
    if LexLess(y, k) {
      forall x | x in names
        ensures !LexLess(x, y)
      {
        if x != y {
          assert x in rest;
          if LexLess(x, y) {
            LexTransitive(x, y, k);
          }
        }
      }
      return y;
    }
    forall x | x in names
      ensures !LexLess(x, k)
    {
      if x != y {
        assert x in rest;
      }
    }
    return k;
  }

  /** Two strictly ascending lists with the same members are the same list: `sorted` has only
      one possible result. */
  lemma {:induction false} SortedUnique(a: seq<string>, b: seq<string>)
    requires StrictlySorted(a) && StrictlySorted(b)
    requires forall x :: x in a <==> x in b
    ensures a == b
  {
    assert a != [] ==> a[0] in b;
    assert b != [] ==> b[0] in a;
    if a != [] && b != [] {
      if a[0] != b[0] {
        var i :| 0 <= i < |a| && a[i] == b[0];
        var j :| 0 <= j < |b| && b[j] == a[0];
        assert LexLess(a[0], a[i]) && LexLess(b[0], b[j]);
        LexTransitive(a[0], b[0], a[0]);
        LexIrreflexive(a[0]);
      }
      assert a == [a[0]] + a[1..];
      assert b == [b[0]] + b[1..];
      forall x
        ensures x in a[1..] <==> x in b[1..]
      {
        LexIrreflexive(x);
        if x in a[1..] {
          var i :| 0 <= i < |a[1..]| && a[1..][i] == x;
          assert LexLess(a[0], a[i + 1]);
          assert x in b && x != b[0];
          assert x in [b[0]] + b[1..];
        }
        if x in b[1..] {
          var j :| 0 <= j < |b[1..]| && b[1..][j] == x;
          assert LexLess(b[0], b[j + 1]);
          assert x in a && x != a[0];
          assert x in [a[0]] + a[1..];
        }
      }
      SortedUnique(a[1..], b[1..]);
    }
  }

  /** `sorted(names)`: the names in ascending Python string order. */
  function SortedSet(names: set<string>): (r: seq<string>)
    ensures StrictlySorted(r)
    ensures forall x :: x in r <==> x in names
    ensures |r| == |names|
    decreases |names|
  {
    if names == {} then []
    else
      LeastExists(names);
      LeastUnique(names);
      var m :| m in names && forall x :: x in names ==> !LexLess(x, m);
      LeastBelow(names, m);
      var rest := SortedSet(names - {m});
      SortedCons(m, rest);
      [m] + rest
  }

  /** A text below every member of a sorted list can go in front of it. */
  lemma SortedCons(m: string, rest: seq<string>)
    requires StrictlySorted(rest) && forall x :: x in rest ==> LexLess(m, x)
    ensures StrictlySorted([m] + rest)
    ensures forall x :: x in [m] + rest <==> x == m || x in rest
  {
    var r := [m] + rest;
    forall i, j | 0 <= i < j < |r|
      ensures LexLess(r[i], r[j])
    {
      assert r[j] == rest[j - 1];
      if i > 0 {
        assert r[i] == rest[i - 1];
      }
    }
  }

  /** A set has at most one least element. */
  lemma LeastUnique(names: set<string>)
    ensures forall a, b ::
      (a in names && (forall x :: x in names ==> !LexLess(x, a))
       && b in names && (forall x :: x in names ==> !LexLess(x, b))) ==> a == b
  {
    forall a, b | a in names && (forall x :: x in names ==> !LexLess(x, a))
                  && b in names && (forall x :: x in names ==> !LexLess(x, b))
      ensures a == b
    {
      if a != b {
        LexTotal(a, b);
      }
    }
  }

  /** The least element is below every other element. */
  lemma LeastBelow(names: set<string>, m: string)
    requires m in names && forall x :: x in names ==> !LexLess(x, m)
    ensures forall x :: x in names && x != m ==> LexLess(m, x)
  {
    forall x | x in names && x != m
      ensures LexLess(m, x)
    {
      LexTotal(m, x);
    }
  }

  // ---------------------------------------------------------------------------
  // Fixed-width and free-width decimal text
  // ---------------------------------------------------------------------------

  predicate IsDigit(c: char) {
    '0' <= c <= '9'
  }

  predicate AllDigits(s: string) {
    forall i :: 0 <= i < |s| ==> IsDigit(s[i])
  }

  function DigitChar(d: nat): (c: char)
    requires d < 10
    ensures IsDigit(c)
  {
    (d + '0' as int) as char
  }

  function DigitValue(c: char): (d: nat)
    requires IsDigit(c)
    ensures d < 10 && DigitChar(d) == c
  {
    c as int - '0' as int
  }

  function Pow10(k: nat): (p: nat)
    ensures p >= 1
  {
    if k == 0 then 1 else 10 * Pow10(k - 1)
  }

  /** The last `width` decimal digits of `n`, zero-padded on the left (strftime's `%02d`, `%04d`). */
  function PadDecimal(n: nat, width: nat): (s: string)
    ensures |s| == width && AllDigits(s)
  {
    if width == 0 then [] else PadDecimal(n / 10, width - 1) + [DigitChar(n % 10)]
  }

  /** Zero-padded numbers of one width sort as text exactly as they sort as numbers. */
  lemma {:induction false} PadDecimalOrder(n: nat, m: nat, width: nat)
    requires n < Pow10(width) && m < Pow10(width)
    ensures LexLess(PadDecimal(n, width), PadDecimal(m, width)) <==> n < m
    decreases width
  {
    if width == 0 {
      assert n == 0 && m == 0;
      LexIrreflexive([]);
    } else {
      var qn, qm := n / 10, m / 10;
      var dn, dm := [DigitChar(n % 10)], [DigitChar(m % 10)];
      assert qn < Pow10(width - 1) && qm < Pow10(width - 1);
      PadDecimalOrder(qn, qm, width - 1);
      PadDecimalOrder(qm, qn, width - 1);
      if qn != qm {
        LexIrreflexive(PadDecimal(qn, width - 1));
        LexFirstBlock(PadDecimal(qn, width - 1), dn, PadDecimal(qm, width - 1), dm);
        assert (n < m) == (qn < qm);
      } else {
        LexCommonPrefix(PadDecimal(qn, width - 1), dn, dm);
        assert (n < m) == (n % 10 < m % 10);
      }
    }
  }

  /** `str(n)` for a non-negative integer. */
  function NatToString(n: nat): (s: string)
    ensures |s| > 0 && AllDigits(s)
  {
    if n < 10 then [DigitChar(n)] else NatToString(n / 10) + [DigitChar(n % 10)]
  }

  /** `str(n)`. */
  function IntToString(n: int): string {
    if n < 0 then "-" + NatToString(-n) else NatToString(n)
  }

  /** The value of a non-empty run of decimal digits. */
  function DigitsValue(s: string): nat
    requires AllDigits(s)
  {
    if s == [] then 0 else DigitsValue(s[..|s| - 1]) * 10 + DigitValue(s[|s| - 1])
  }

  /** `int(s)` on text that is already stripped: an optional sign and one or more ASCII digits;
      anything else raises ValueError (None here). */
  function ParseInt(s: string): (r: Option<int>)
    ensures r.Some? ==> |s| > 0
  {
    if |s| > 0 && (s[0] == '-' || s[0] == '+') then
      var body := s[1..];
      if |body| > 0 && AllDigits(body) then
        var v: int := DigitsValue(body);
        Some(if s[0] == '-' then -v else v)
      else None
    else if |s| > 0 && AllDigits(s) then Some(DigitsValue(s))
    else None
  }

  lemma {:induction false} DigitsValueOfNatToString(n: nat)
    ensures DigitsValue(NatToString(n)) == n
  {
    if n >= 10 {
      var s := NatToString(n);
      assert s[..|s| - 1] == NatToString(n / 10);
      DigitsValueOfNatToString(n / 10);
    }
  }

  /** `int(str(n)) == n`. */
  lemma {:induction false} ParseIntOfIntToString(n: int)
    ensures ParseInt(IntToString(n)) == Some(n)
  {
    var s := IntToString(n);
    if n < 0 {
      var body := NatToString(-n);
      assert s == "-" + body && s[0] == '-' && s[1..] == body;
      DigitsValueOfNatToString(-n);
    } else {
      assert s == NatToString(n);
      assert IsDigit(s[0]);
      DigitsValueOfNatToString(n);
    }
  }

  // ---------------------------------------------------------------------------
  // strip, lower
  // ---------------------------------------------------------------------------

  /** `c.isspace()` for ASCII characters. */
  predicate IsSpace(c: char) {
    c == ' ' || 9 <= c as int <= 13 || 28 <= c as int <= 31
  }

  function StripLeft(s: string): (r: string)
    ensures |r| <= |s| && r == s[|s| - |r|..]
    ensures |r| > 0 ==> !IsSpace(r[0])
    ensures forall i :: 0 <= i < |s| - |r| ==> IsSpace(s[i])
  {
    if |s| > 0 && IsSpace(s[0]) then StripLeft(s[1..]) else s
  }

  function StripRight(s: string): (r: string)
    ensures |r| <= |s| && r == s[..|r|]
    ensures |r| > 0 ==> !IsSpace(r[|r| - 1])
    ensures forall i :: |r| <= i < |s| ==> IsSpace(s[i])
  {
    if |s| > 0 && IsSpace(s[|s| - 1]) then StripRight(s[..|s| - 1]) else s
  }

  /** `s.strip()`: no surrounding white space is left, and nothing else is removed. */
  function Strip(s: string): (r: string)
    ensures |r| > 0 ==> !IsSpace(r[0]) && !IsSpace(r[|r| - 1])
    ensures r == [] <==> forall i :: 0 <= i < |s| ==> IsSpace(s[i])
  {
    StripRight(StripLeft(s))
  }

  function LowerChar(c: char): char {
    if 'A' <= c <= 'Z' then (c as int + 32) as char else c
  }

  /** `s.lower()` on ASCII letters. */
  function Lower(s: string): (r: string)
    ensures |r| == |s| && forall i :: 0 <= i < |s| ==> r[i] == LowerChar(s[i])
  {
    seq(|s|, i requires 0 <= i < |s| => LowerChar(s[i]))
  }

  lemma LowerIdempotent(s: string)
    ensures Lower(Lower(s)) == Lower(s)
  {
  }

  // ---------------------------------------------------------------------------
  // find, split
  // ---------------------------------------------------------------------------

  /** `s.find(c)`: the first position of `c`. */
  function IndexOf(s: string, c: char): (r: Option<nat>)
    ensures r.Some? ==> r.value < |s| && s[r.value] == c && c !in s[..r.value]
    ensures r.None? <==> c !in s
  {
    if |s| == 0 then None
    else if s[0] == c then Some(0)
    else match IndexOf(s[1..], c)
      case None => None
      case Some(i) => assert s[..i + 1] == [s[0]] + s[1..][..i]; Some(i + 1)
  }

  /** The first `c` in `a + [c] + b`, when `a` holds none, is the one after `a`. */
  lemma {:induction false} IndexOfAfter(a: string, c: char, b: string)
    requires c !in a
    ensures IndexOf(a + [c] + b, c) == Some(|a|)
    decreases |a|
  {
    var s := a + [c] + b;
    if a != [] {
      assert s[1..] == a[1..] + [c] + b;
      IndexOfAfter(a[1..], c, b);
    }
  }

  /** `s.rstrip(c)`: the text without its trailing `c`s. */
  function RStripChar(s: string, c: char): (r: string)
    ensures |r| <= |s| && s[..|r|] == r
    ensures r == [] || r[|r| - 1] != c
    ensures forall i :: |r| <= i < |s| ==> s[i] == c
  {
    if |s| > 0 && s[|s| - 1] == c then RStripChar(s[..|s| - 1], c) else s
  }

  /** `s.split(sep)`: the pieces between the separators, at least one. */
  function Split(s: string, sep: char): (parts: seq<string>)
    ensures |parts| >= 1
    ensures forall i :: 0 <= i < |parts| ==> sep !in parts[i]
    ensures |parts| == 1 <==> sep !in s
    decreases |s|
  {
    match IndexOf(s, sep)
    case None => [s]
    case Some(i) => [s[..i]] + Split(s[i + 1..], sep)
  }

  /** `sep.join(parts)`. */
  function Join(parts: seq<string>, sep: char): string
    requires |parts| >= 1
  {
    if |parts| == 1 then parts[0] else parts[0] + [sep] + Join(parts[1..], sep)
  }

  lemma JoinCons(a: string, rest: seq<string>, sep: char)
    requires |rest| >= 1
    ensures Join([a] + rest, sep) == a + [sep] + Join(rest, sep)
  {
    assert ([a] + rest)[1..] == rest;
  }

  /** Splitting loses nothing: joining the pieces gives the text back. */
  lemma {:induction false} JoinSplit(s: string, sep: char)
    ensures Join(Split(s, sep), sep) == s
    decreases |s|
  {
    var idx := IndexOf(s, sep);
    if idx.Some? {
      var i := idx.value;
      var head, tail := s[..i], s[i + 1..];
      assert s == head + [sep] + tail;
      var rest := Split(tail, sep);
      assert Split(s, sep) == [head] + rest;
      JoinCons(head, rest, sep);
      JoinSplit(tail, sep);
    }
  }

  /** Joining pieces that hold no separator and splitting again gives the pieces back. */
  lemma {:induction false} SplitJoin(parts: seq<string>, sep: char)
    requires |parts| >= 1
    requires forall i :: 0 <= i < |parts| ==> sep !in parts[i]
    ensures Split(Join(parts, sep), sep) == parts
    decreases |parts|
  {
    if |parts| > 1 {
      var head, tail := parts[0], parts[1..];
      var rest := Join(tail, sep);
      var s := head + [sep] + rest;
      assert Join(parts, sep) == s;
      IndexOfAfter(head, sep, rest);
      assert s[..|head|] == head;
      assert s[|head| + 1..] == rest;
      assert Split(s, sep) == [head] + Split(rest, sep);
      forall i | 0 <= i < |tail|
        ensures sep !in tail[i]
      {
        assert tail[i] == parts[i + 1];
      }
      SplitJoin(tail, sep);
      assert parts == [head] + tail;
    }
  }

  /** `s.split(sep, 1)` when it gives two pieces: the text before and after the first `sep`. */
  function SplitOnce(s: string, sep: char): (r: Option<(string, string)>)
    ensures r.None? <==> sep !in s
    ensures r.Some? ==> sep !in r.value.0 && s == r.value.0 + [sep] + r.value.1
  {
    match IndexOf(s, sep)
    case None => None
    case Some(i) => assert s == s[..i] + [sep] + s[i + 1..]; Some((s[..i], s[i + 1..]))
  }

  // ---------------------------------------------------------------------------
  // startswith, endswith, in, replace
  // ---------------------------------------------------------------------------

  predicate StartsWith(s: string, p: string) {
    |p| <= |s| && s[..|p|] == p
  }

  predicate EndsWith(s: string, p: string) {
    |p| <= |s| && s[|s| - |p|..] == p
  }

  /** `sub in s`. */
  predicate Contains(s: string, sub: string)
    decreases |s|
  {
    StartsWith(s, sub) || (|s| > 0 && Contains(s[1..], sub))
  }

  lemma {:induction false} ContainsAt(s: string, sub: string, i: nat)
    requires i + |sub| <= |s| && s[i..i + |sub|] == sub
    ensures Contains(s, sub)
    decreases i
  {
    if i > 0 {
      assert s[1..][i - 1..i - 1 + |sub|] == s[i..i + |sub|];
      ContainsAt(s[1..], sub, i - 1);
    }
  }

  /** `s.replace(pat, rep)`: every non-overlapping occurrence of `pat`, left to right. */
  function ReplaceAll(s: string, pat: string, rep: string): string
    requires |pat| > 0
    decreases |s|
  {
    if |s| < |pat| then s
    else if StartsWith(s, pat) then rep + ReplaceAll(s[|pat|..], pat, rep)
    else [s[0]] + ReplaceAll(s[1..], pat, rep)
  }

  /** A text in which `pat` does not occur is left as it is. */
  lemma {:induction false} ReplaceAllAbsent(s: string, pat: string, rep: string)
    requires |pat| > 0 && !Contains(s, pat)
    ensures ReplaceAll(s, pat, rep) == s
    decreases |s|
  {
    if |s| >= |pat| {
      assert !StartsWith(s, pat);
      ReplaceAllAbsent(s[1..], pat, rep);
    }
  }

  /** When `pat` occurs only at the end of the text, only that occurrence is replaced. */
  lemma {:induction false} ReplaceAllAtEnd(s: string, pat: string, rep: string)
    requires |pat| > 0 && !Contains(s + pat[..|pat| - 1], pat)
    ensures ReplaceAll(s + pat, pat, rep) == s + rep
    decreases |s|
  {
    if |s| == 0 {
      assert s + pat == pat;
      assert (s + pat)[|pat|..] == [];
    } else {
      var t := s + pat;
      assert t[..|pat|] == (s + pat[..|pat| - 1])[..|pat|];
      assert !StartsWith(s + pat[..|pat| - 1], pat);
      assert !StartsWith(t, pat);
      assert t[1..] == s[1..] + pat;
      assert (s + pat[..|pat| - 1])[1..] == s[1..] + pat[..|pat| - 1];
      ReplaceAllAtEnd(s[1..], pat, rep);
      assert [s[0]] + (s[1..] + rep) == s + rep;
    }
  }
}

/** Text helpers shared by the front end (JavaScript string methods) and the back end (Python
    `str` methods). Strings are sequences of Unicode scalar values; lower-casing folds ASCII
    and Latin-1 capitals, upper-casing ASCII only. */
module Strings {
  import opened Wrappers

  /* ---------- Character classes ---------- */

  /** An ASCII decimal digit: `\d` in JavaScript patterns, `isdigit` restricted to ASCII. */
  predicate IsDigit(c: char) { '0' <= c <= '9' }

  /** A word character, `\w` in JavaScript patterns. */
  predicate IsWordChar(c: char) { 'a' <= c <= 'z' || 'A' <= c <= 'Z' || IsDigit(c) || c == '_' }

  /** The white space of JavaScript: `\s` in a pattern and what `trim` removes. */
  predicate IsJsSpace(c: char) {
    c == ' ' || c == '\t' || c == '\n' || c == '\r' || c == '\U{B}' || c == '\U{C}'
    || c == '\U{A0}' || c == '\U{1680}' || ('\U{2000}' <= c <= '\U{200A}')
    || c == '\U{2028}' || c == '\U{2029}' || c == '\U{202F}' || c == '\U{205F}'
    || c == '\U{3000}' || c == '\U{FEFF}'
  }

  /** The white space of Python: what `str.strip()` removes. */
  predicate IsPySpace(c: char) {
    ('\t' <= c <= '\r') || ('\U{1C}' <= c <= ' ') || c == '\U{85}' || c == '\U{A0}'
    || c == '\U{1680}' || ('\U{2000}' <= c <= '\U{200A}') || c == '\U{2028}' || c == '\U{2029}'
    || c == '\U{202F}' || c == '\U{205F}' || c == '\U{3000}'
  }

  /** Lower-cases the ASCII capitals and the Latin-1 capitals U+00C0 to U+00DE other than the
      sign U+00D7, each 32 code points below its small letter, as both JavaScript and Python do. */
  function LowerChar(c: char): char {
    if 'A' <= c <= 'Z' || ('\U{C0}' <= c <= '\U{DE}' && c != '\U{D7}') then (c as int + 32) as char else c
  }

  function UpperChar(c: char): char { if 'a' <= c <= 'z' then (c as int - 32) as char else c }

  /** `toLowerCase()` / `lower()` on ASCII and Latin-1 letters; other characters are kept. */
  function Lower(s: string): (r: string)
    ensures |r| == |s| && forall i :: 0 <= i < |s| ==> r[i] == LowerChar(s[i])
  {
    seq(|s|, i requires 0 <= i < |s| => LowerChar(s[i]))
  }

  /** `toUpperCase()` on ASCII letters; other characters are kept. */
  function Upper(s: string): (r: string)
    ensures |r| == |s| && forall i :: 0 <= i < |s| ==> r[i] == UpperChar(s[i])
  {
    seq(|s|, i requires 0 <= i < |s| => UpperChar(s[i]))
  }

  /* ---------- Trimming ---------- */

  /** The number of white-space characters `s` starts with. */
  function LeadingSpaces(s: string, isSpace: char -> bool): (n: nat)
    ensures n <= |s| && (n == |s| || !isSpace(s[n]))
    ensures forall i :: 0 <= i < n ==> isSpace(s[i])
  {
    if |s| > 0 && isSpace(s[0]) then 1 + LeadingSpaces(s[1..], isSpace) else 0
  }

  /** The number of white-space characters `s` ends with. */
  function TrailingSpaces(s: string, isSpace: char -> bool): (n: nat)
    ensures n <= |s| && (n == |s| || !isSpace(s[|s| - 1 - n]))
    ensures forall i :: |s| - n <= i < |s| ==> isSpace(s[i])
  {
    if |s| > 0 && isSpace(s[|s| - 1]) then 1 + TrailingSpaces(s[..|s| - 1], isSpace) else 0
  }

  function TrimStart(s: string, isSpace: char -> bool): (r: string)
    ensures r == [] || !isSpace(r[0])
  {
    s[LeadingSpaces(s, isSpace)..]
  }

  function TrimEnd(s: string, isSpace: char -> bool): (r: string)
    ensures r == [] || !isSpace(r[|r| - 1])
  {
    s[..|s| - TrailingSpaces(s, isSpace)]
  }

  /** Removes the white space (in the sense of `isSpace`) at both ends. */
  function Strip(s: string, isSpace: char -> bool): string {
    TrimEnd(TrimStart(s, isSpace), isSpace)
  }

  /** JavaScript's `String.prototype.trim`. */
  function Trim(s: string): string { Strip(s, IsJsSpace) }

  /** Python's `str.strip()` with no argument. */
  function PyStrip(s: string): string { Strip(s, IsPySpace) }

  lemma TrimStartNoop(s: string, isSpace: char -> bool)
    requires s == [] || !isSpace(s[0])
    ensures TrimStart(s, isSpace) == s
  {
  }

  lemma TrimEndNoop(s: string, isSpace: char -> bool)
    requires s == [] || !isSpace(s[|s| - 1])
    ensures TrimEnd(s, isSpace) == s
  {
  }

  /** A string that neither starts nor ends with white space is its own trimmed form. */
  lemma StripNoop(s: string, isSpace: char -> bool)
    requires s == [] || (!isSpace(s[0]) && !isSpace(s[|s| - 1]))
    ensures Strip(s, isSpace) == s
  {
    TrimStartNoop(s, isSpace);
    TrimEndNoop(s, isSpace);
  }

  /** What `Strip` keeps neither starts nor ends with white space. */
  lemma StripShape(s: string, isSpace: char -> bool)
    ensures var r := Strip(s, isSpace); r == [] || (!isSpace(r[0]) && !isSpace(r[|r| - 1]))
  {
    var t := TrimStart(s, isSpace);
    var r := TrimEnd(t, isSpace);
    if r != [] {
      assert r[0] == t[0];
    }
  }

  /** Stripping twice is stripping once. */
  lemma StripIdempotent(s: string, isSpace: char -> bool)
    ensures Strip(Strip(s, isSpace), isSpace) == Strip(s, isSpace)
  {
    StripShape(s, isSpace);
    StripNoop(Strip(s, isSpace), isSpace);
  }

  /** A stripped text with one space added on either side strips back to itself. */
  lemma StripPadded(a: string, isSpace: char -> bool)
    requires Strip(a, isSpace) == a && isSpace(' ')
    ensures Strip(a + " ", isSpace) == a && Strip(" " + a, isSpace) == a
  {
    StripShape(a, isSpace);
    var r := a + " ";
    var l := " " + a;
    assert r[..|a|] == a && l[1..] == a;
    if a != [] {
      assert r[0] == a[0] && l[|l| - 1] == a[|a| - 1];
    }
  }

  /** A string strips to nothing exactly when all of it is white space. */
  lemma StripEmptyIff(s: string, isSpace: char -> bool)
    ensures Strip(s, isSpace) == [] <==> forall i :: 0 <= i < |s| ==> isSpace(s[i])
  {
    var t := TrimStart(s, isSpace);
    if t != [] {
      assert !isSpace(s[|s| - |t|]);
    }
  }

  /* ---------- Searching ---------- */

  predicate StartsWith(s: string, p: string) { |p| <= |s| && s[..|p|] == p }

  /** `s.includes(sub)` in JavaScript, `sub in s` in Python. */
  predicate Contains(s: string, sub: string)
    decreases |s|
  {
    StartsWith(s, sub) || (|s| > 0 && Contains(s[1..], sub))
  }

  /** `sub` occurs in `s` at index `i`. */
  predicate OccursAt(s: string, sub: string, i: int) {
    0 <= i <= |s| - |sub| && s[i..i + |sub|] == sub
  }

  /** `Contains` is the existence of an occurrence. */
  lemma {:induction false} ContainsIff(s: string, sub: string)
    ensures Contains(s, sub) <==> exists i :: OccursAt(s, sub, i)
    decreases |s|
  {
    if Contains(s, sub) {
      if StartsWith(s, sub) {
        assert OccursAt(s, sub, 0);
      } else {
        ContainsIff(s[1..], sub);
        var i :| OccursAt(s[1..], sub, i);
        TailSlice(s, i, |sub|);
        assert OccursAt(s, sub, i + 1);
      }
    } else {
      forall i | 0 <= i <= |s| - |sub|
        ensures !OccursAt(s, sub, i)
      {
        if i > 0 {
          ContainsIff(s[1..], sub);
          TailSlice(s, i - 1, |sub|);
          assert !OccursAt(s[1..], sub, i - 1);
        }
      }
    }
  }

  /** A text that lacks one of the characters of `sub` does not contain `sub`. */
  lemma {:induction false} MissingCharNotContained(s: string, sub: string, c: char)
    requires c in sub && c !in s
    ensures !Contains(s, sub)
    decreases |s|
  {
    if |s| > 0 {
      MissingCharNotContained(s[1..], sub, c);
    }
  }

  /** A slice of the tail is a slice of the whole, one further on. */
  lemma TailSlice(s: string, i: nat, n: nat)
    requires |s| > 0 && i + n <= |s| - 1
    ensures s[1..][i..i + n] == s[i + 1..i + 1 + n]
  {
  }

  /** `s.indexOf(c)`: the first index of `c`, or -1. */
  function IndexOf(s: string, c: char): (r: int)
    ensures -1 <= r < |s|
    ensures r == -1 <==> c !in s
    ensures r >= 0 ==> s[r] == c && c !in s[..r]
  {
    if |s| == 0 then -1
    else if s[0] == c then 0
    else
      var k := IndexOf(s[1..], c);
      if k == -1 then -1
      else
        assert s[..k + 1] == [s[0]] + s[1..][..k];
        k + 1
  }

  /** The first occurrence of `c` determines `IndexOf`. */
  lemma IndexOfIs(s: string, c: char, k: nat)
    requires k < |s| && s[k] == c && c !in s[..k]
    ensures IndexOf(s, c) == k
  {
  }

  /** A text cut at the first `sep` has one way to be cut there. */
  lemma SplitOnAbsent(a1: string, t1: string, a2: string, t2: string, sep: char)
    requires sep !in a1 && sep !in a2 && a1 + [sep] + t1 == a2 + [sep] + t2
    ensures a1 == a2 && t1 == t2
  {
    var u := a1 + [sep] + t1;
    assert u[..|a1|] == a1 && u[|a1|] == sep;
    IndexOfIs(u, sep, |a1|);
    var v := a2 + [sep] + t2;
    assert v[..|a2|] == a2 && v[|a2|] == sep;
    IndexOfIs(v, sep, |a2|);
    assert t1 == u[|a1| + 1..] && t2 == v[|a2| + 1..];
  }

  /** Python's `s.split(sep, 1)` on a string that holds `sep`: the text before and after its
      first occurrence. */
  function SplitFirst(s: string, sep: char): (r: (string, string))
    requires sep in s
    ensures s == r.0 + [sep] + r.1 && sep !in r.0
  {
    var k := IndexOf(s, sep);
    assert s == s[..k] + [sep] + s[k + 1..];
    (s[..k], s[k + 1..])
  }

  /** `s.split(sep)` with a one-character separator (JavaScript and Python agree on it). */
  function Split(s: string, sep: char): (parts: seq<string>)
    ensures |parts| >= 1
    ensures forall i :: 0 <= i < |parts| ==> sep !in parts[i]
    decreases |s|
  {
    var k := IndexOf(s, sep);
    if k < 0 then [s] else [s[..k]] + Split(s[k + 1..], sep)
  }

  /** A string with one separator splits into the two sides. */
  lemma SplitOnce(x: string, sep: char, y: string)
    requires sep !in x && sep !in y
    ensures Split(x + [sep] + y, sep) == [x, y]
  {
    var s := x + [sep] + y;
    assert s[..|x|] == x && s[|x|] == sep;
    IndexOfIs(s, sep, |x|);
    assert s[|x| + 1..] == y;
  }

  /** A string without the separator is its own single part. */
  lemma SplitNone(s: string, sep: char)
    requires sep !in s
    ensures Split(s, sep) == [s]
  {
  }

  /** `parts.join(sep)`. */
  function Join(parts: seq<string>, sep: string): string {
    if |parts| == 0 then "" else if |parts| == 1 then parts[0] else parts[0] + sep + Join(parts[1..], sep)
  }

  lemma {:induction false} JoinSnoc(parts: seq<string>, x: string, sep: string)
    requires |parts| > 0
    ensures Join(parts + [x], sep) == Join(parts, sep) + sep + x
    decreases |parts|
  {
    if |parts| > 1 {
      assert (parts + [x])[1..] == parts[1..] + [x];
      JoinSnoc(parts[1..], x, sep);
    }
  }

  /** A string is what precedes index `k`, the character there, and what follows. */
  lemma SplitAround(s: string, k: nat)
    requires k < |s|
    ensures s == s[..k] + [s[k]] + s[k + 1..]
  {
    assert s[k..] == [s[k]] + s[k + 1..];
    assert s == s[..k] + s[k..];
  }

  lemma JoinCons(x: string, rest: seq<string>, sep: string)
    requires |rest| > 0
    ensures Join([x] + rest, sep) == x + sep + Join(rest, sep)
  {
    assert ([x] + rest)[1..] == rest;
  }

  /** Splitting and joining again with the same separator gives back the string. */
  lemma {:induction false} JoinSplit(s: string, sep: char)
    ensures Join(Split(s, sep), [sep]) == s
    decreases |s|
  {
    var k := IndexOf(s, sep);
    if k >= 0 {
      var a, b := s[..k], s[k + 1..];
      var rest := Split(b, sep);
      assert Split(s, sep) == [a] + rest;
      JoinCons(a, rest, [sep]);
      JoinSplit(b, sep);
      SplitAround(s, k);
    }
  }

  /** Splitting at a first separator gives the text before it, then the parts of the rest. */
  lemma SplitCons(x: string, sep: char, y: string)
    requires sep !in x
    ensures Split(x + [sep] + y, sep) == [x] + Split(y, sep)
  {
    var s := x + [sep] + y;
    assert s[..|x|] == x && s[|x|] == sep;
    IndexOfIs(s, sep, |x|);
    assert s[|x| + 1..] == y;
  }

  /** Joining parts free of the separator and splitting again gives back the parts. */
  lemma {:induction false} SplitJoin(parts: seq<string>, sep: char)
    requires |parts| > 0 && forall i :: 0 <= i < |parts| ==> sep !in parts[i]
    ensures Split(Join(parts, [sep]), sep) == parts
    decreases |parts|
  {
    if |parts| == 1 {
      SplitNone(parts[0], sep);
    } else {
      JoinCons(parts[0], parts[1..], [sep]);
      assert parts == [parts[0]] + parts[1..];
      SplitJoin(parts[1..], sep);
      SplitCons(parts[0], sep, Join(parts[1..], [sep]));
    }
  }

  /* ---------- Rewriting ---------- */

  /** Every occurrence of `a` replaced by `b` (`replace(/a/g, b)`, Python `replace(a, b)`). */
  function ReplaceChar(s: string, a: char, b: char): (r: string)
    ensures |r| == |s| && forall i :: 0 <= i < |s| ==> r[i] == (if s[i] == a then b else s[i])
  {
    seq(|s|, i requires 0 <= i < |s| => if s[i] == a then b else s[i])
  }

  /** The characters of `s` that do not satisfy `drop`, in order. */
  function RemoveWhere(s: string, drop: char -> bool): (r: string)
    ensures |r| <= |s|
    ensures forall i :: 0 <= i < |r| ==> !drop(r[i])
  {
    if |s| == 0 then [] else (if drop(s[0]) then [] else [s[0]]) + RemoveWhere(s[1..], drop)
  }

  lemma {:induction false} RemoveWhereConcat(a: string, b: string, drop: char -> bool)
    ensures RemoveWhere(a + b, drop) == RemoveWhere(a, drop) + RemoveWhere(b, drop)
    decreases |a|
  {
    if |a| > 0 {
      var c := if drop(a[0]) then [] else [a[0]];
      assert (a + b)[0] == a[0] && (a + b)[1..] == a[1..] + b;
      assert RemoveWhere(a + b, drop) == c + RemoveWhere(a[1..] + b, drop);
      RemoveWhereConcat(a[1..], b, drop);
      assert RemoveWhere(a, drop) == c + RemoveWhere(a[1..], drop);
    } else {
      assert a + b == b;
    }
  }

  lemma {:induction false} RemoveWhereNoop(s: string, drop: char -> bool)
    requires forall i :: 0 <= i < |s| ==> !drop(s[i])
    ensures RemoveWhere(s, drop) == s
    decreases |s|
  {
    if |s| > 0 {
      RemoveWhereNoop(s[1..], drop);
    }
  }

  /** Python's `s.replace(pat, "")`: occurrences removed left to right, without overlap. */
  function RemoveAll(s: string, pat: string): string
    requires |pat| > 0
    decreases |s|
  {
    if |s| == 0 then []
    else if StartsWith(s, pat) then RemoveAll(s[|pat|..], pat)
    else [s[0]] + RemoveAll(s[1..], pat)
  }

  /* ---------- Numbers ---------- */

  predicate AllDigits(s: string) { forall i :: 0 <= i < |s| ==> IsDigit(s[i]) }

  function DigitChar(d: nat): (c: char)
    requires d < 10
    ensures IsDigit(c)
  {
    ('0' as int + d) as char
  }

  /** The value of a run of decimal digits. */
  function DigitsValue(s: string): nat
    requires AllDigits(s)
  {
    if |s| == 0 then 0 else DigitsValue(s[..|s| - 1]) * 10 + (s[|s| - 1] as int - '0' as int)
  }

  /** Decimal text of a natural number, as Python's f-strings and JavaScript templates print it. */
  function NatToString(n: nat): (r: string)
    ensures |r| >= 1 && AllDigits(r)
  {
    if n < 10 then [DigitChar(n)] else NatToString(n / 10) + [DigitChar(n % 10)]
  }

  function IntToString(i: int): string {
    if i < 0 then "-" + NatToString(-i) else NatToString(i)
  }

  /** Printing then reading back digits gives the number. */
  lemma {:induction false} DigitsValueOfNatToString(n: nat)
    ensures DigitsValue(NatToString(n)) == n
  {
    if n >= 10 {
      var s := NatToString(n);
      assert s[..|s| - 1] == NatToString(n / 10);
      DigitsValueOfNatToString(n / 10);
    }
  }

  /** The length of the run of digits that `s` starts with. */
  function DigitPrefixLen(s: string): (n: nat)
    ensures n <= |s| && AllDigits(s[..n]) && (n == |s| || !IsDigit(s[n]))
  {
    if |s| > 0 && IsDigit(s[0]) then
      var k := DigitPrefixLen(s[1..]);
      assert s[..k + 1] == [s[0]] + s[1..][..k];
      k + 1
    else 0
  }

  /** JavaScript's `parseInt(s, 10)`: leading white space, an optional sign, then the longest run
      of digits; `None` stands for `NaN` (no digit at all). */
  function ParseInt(s: string): Option<int> {
    var t := TrimStart(s, IsJsSpace);
    var signed := |t| > 0 && (t[0] == '-' || t[0] == '+');
    var neg := signed && t[0] == '-';
    var rest := if signed then t[1..] else t;
    var n := DigitPrefixLen(rest);
    if n == 0 then None
    else if neg then Some(-(DigitsValue(rest[..n]) as int))
    else Some(DigitsValue(rest[..n]) as int)
  }

  /** `parseInt` reads back what a number prints as. */
  lemma ParseIntOfIntToString(i: int)
    ensures ParseInt(IntToString(i)) == Some(i)
  {
    var n := if i < 0 then -i else i;
    DigitsValueOfNatToString(n);
    if i < 0 {
      assert IntToString(i)[1..] == NatToString(n);
      ParseIntOfNegated(IntToString(i));
    } else {
      ParseIntOfDigits(NatToString(n));
    }
  }

  /** `parseInt` reads a run of digits as its value. */
  lemma ParseIntOfDigits(d: string)
    requires |d| > 0 && AllDigits(d)
    ensures ParseInt(d) == Some(DigitsValue(d) as int)
  {
    assert IsDigit(d[0]);
    TrimStartNoop(d, IsJsSpace);
    DigitPrefixLenAll(d);
    assert d[..|d|] == d;
  }

  /** `parseInt` reads a minus sign and a run of digits as the value negated. */
  lemma ParseIntOfNegated(s: string)
    requires |s| > 1 && s[0] == '-' && AllDigits(s[1..])
    ensures ParseInt(s) == Some(-(DigitsValue(s[1..]) as int))
  {
    TrimStartNoop(s, IsJsSpace);
    DigitPrefixLenAll(s[1..]);
    assert s[1..][..|s| - 1] == s[1..];
  }

  /** A run of digits is its own digit prefix. */
  lemma {:induction false} DigitPrefixLenAll(s: string)
    requires AllDigits(s)
    ensures DigitPrefixLen(s) == |s|
    decreases |s|
  {
    if |s| > 0 {
      DigitPrefixLenAll(s[1..]);
    }
  }

  /* ---------- Ordering ---------- */

  /** Code-point lexicographic order, as Python compares strings. */
  predicate LexLe(a: string, b: string)
    decreases |a|
  {
    |a| == 0 || (|b| > 0 && (a[0] < b[0] || (a[0] == b[0] && LexLe(a[1..], b[1..]))))
  }

  lemma {:induction false} LexLeRefl(a: string)
    ensures LexLe(a, a)
    decreases |a|
  {
    if |a| > 0 {
      LexLeRefl(a[1..]);
    }
  }

  lemma {:induction false} LexLeTotal(a: string, b: string)
    ensures LexLe(a, b) || LexLe(b, a)
    decreases |a|
  {
    if |a| > 0 && |b| > 0 && a[0] == b[0] {
      LexLeTotal(a[1..], b[1..]);
    }
  }

  lemma {:induction false} LexLeTrans(a: string, b: string, c: string)
    requires LexLe(a, b) && LexLe(b, c)
    ensures LexLe(a, c)
    decreases |a|
  {
    if |a| > 0 && a[0] == b[0] && b[0] == c[0] {
      LexLeTrans(a[1..], b[1..], c[1..]);
    }
  }

  lemma {:induction false} LexLeAntisym(a: string, b: string)
    requires LexLe(a, b) && LexLe(b, a)
    ensures a == b
    decreases |a|
  {
    if |a| > 0 {
      LexLeAntisym(a[1..], b[1..]);
      assert a == [a[0]] + a[1..] && b == [b[0]] + b[1..];
    }
  }
}

/** The detail page's cell formatter (`formatCell`): blank cells read "NA", percentages and
    text are shown trimmed, and numbers `-?digits([.,]digits)?` get their integer digits grouped
    by three with a space. */
module CellFormat {
  import opened Wrappers
  import opened Strings

  /* ---------- The pattern ^(-?\d+)([.,]\d+)?$ ---------- */

  /** What the first group `(-?\d+)` can match. */
  predicate IntPart(m: string) {
    |m| >= 1 && (if m[0] == '-' then |m| >= 2 && AllDigits(m[1..]) else AllDigits(m))
  }

  /** What the optional second group `([.,]\d+)?` can match (`""` when it does not take part). */
  predicate DecPart(m: string) {
    m == "" || (|m| >= 2 && (m[0] == '.' || m[0] == ',') && AllDigits(m[1..]))
  }

  /** `t` matches the whole pattern, split at `k` between the two groups. */
  predicate MatchesAt(t: string, k: int) {
    0 <= k <= |t| && IntPart(t[..k]) && DecPart(t[k..])
  }

  /** The two groups of the match of `t`, or `None` when `t` does not match. */
  function MatchNumber(t: string): (r: Option<(string, string)>)
    ensures r.Some? ==> t == r.value.0 + r.value.1 && IntPart(r.value.0) && DecPart(r.value.1)
    ensures r.Some? ==> MatchesAt(t, |r.value.0|)
  {
    var sgn := if |t| > 0 && t[0] == '-' then 1 else 0;
    var body := t[sgn..];
    var n := DigitPrefixLen(body);
    var k := sgn + n;
    MatchSlices(t, sgn, k);
    if n == 0 then None
    else if n == |body| then
      Some((t[..k], t[k..]))
    else if (body[n] == '.' || body[n] == ',') && n + 1 < |body| && AllDigits(body[n + 1..]) then
      Some((t[..k], t[k..]))
    else None
  }

  /** How the pieces of `t` the matcher looks at line up. */
  lemma MatchSlices(t: string, sgn: nat, k: nat)
    requires sgn <= k <= |t|
    ensures t[..k][sgn..] == t[sgn..][..k - sgn]
    ensures k < |t| ==> t[k..][0] == t[sgn..][k - sgn] && t[k..][1..] == t[sgn..][k - sgn + 1..]
    ensures t == t[..k] + t[k..]
  {
  }

  /** The pattern matches in at most one way, and `MatchNumber` finds it. */
  lemma MatchNumberComplete(t: string, k: int)
    requires MatchesAt(t, k)
    ensures MatchNumber(t) == Some((t[..k], t[k..]))
  {
    var sgn := if |t| > 0 && t[0] == '-' then 1 else 0;
    var body := t[sgn..];
    var m := k - sgn;
    assert t[..k][0] == t[0];
    assert 0 <= m && body[..m] == t[..k][sgn..];
    if m < |body| {
      assert body[m] == t[k..][0];
      assert forall i :: m + 1 <= i < |body| ==> body[i] == t[k..][1..][i - m - 1];
    }
    forall i | 0 <= i < m ensures IsDigit(body[i]) {
      assert body[i] == body[..m][i];
    }
    DigitPrefixLenIs(body, m);
    if m < |body| {
      assert t[k..] == body[m..];
      assert body[m + 1..] == t[k..][1..];
    }
  }

  /** A digit run followed by a non-digit (or the end) is the digit prefix. */
  lemma {:induction false} DigitPrefixLenIs(s: string, m: nat)
    requires m <= |s| && (forall i :: 0 <= i < m ==> IsDigit(s[i])) && (m == |s| || !IsDigit(s[m]))
    ensures DigitPrefixLen(s) == m
    decreases m
  {
    if m > 0 {
      DigitPrefixLenIs(s[1..], m - 1);
    }
  }

  /* ---------- Grouping thousands: replace(/\B(?=(\d{3})+(?!\d))/g, " ") ---------- */

  /** The digits of `d` from index `k` on, with a space inserted before each digit that is not
      the first and is followed (itself included) by a multiple of three digits: the positions
      where the pattern `\B(?=(\d{3})+(?!\d))` matches inside a run of digits. */
  function SpacedFrom(d: string, k: nat): string
    requires k <= |d|
    decreases |d| - k
  {
    if k == |d| then ""
    else (if k > 0 && (|d| - k) % 3 == 0 then " " else "") + [d[k]] + SpacedFrom(d, k + 1)
  }

  /** An independent, right-to-left description of the same grouping: the last three digits
      form a group, and what precedes them is grouped the same way. */
  function Grouped(d: string): (r: string)
    ensures |d| > 0 ==> |r| > 0 && r[0] == d[0] && r[|r| - 1] == d[|d| - 1]
    decreases |d|
  {
    if |d| <= 3 then d else Grouped(d[..|d| - 3]) + " " + d[|d| - 3..]
  }

  /** No space goes in before the first digit or among the last two. */
  lemma {:induction false} SpacedFromShort(d: string, k: nat)
    requires k <= |d| && (|d| - k <= 2 || (k == 0 && |d| <= 3))
    ensures SpacedFrom(d, k) == d[k..]
    decreases |d| - k
  {
    if k < |d| {
      SpacedFromShort(d, k + 1);
      assert d[k..] == [d[k]] + d[k + 1..];
    }
  }

  lemma {:induction false} SpacedFromAppend3(a: string, b: string, k: nat)
    requires |a| >= 1 && |b| == 3 && k <= |a|
    ensures SpacedFrom(a + b, k) == SpacedFrom(a, k) + " " + b
    decreases |a| - k
  {
    var d := a + b;
    if k == |a| {
      SpacedFromShort(d, k + 1);
      assert |d| - k == 3;
      assert d[k..] == b;
      assert d[k..] == [d[k]] + d[k + 1..];
    } else {
      SpacedFromAppend3(a, b, k + 1);
      var j := |a| - k;
      assert |d| - k == j + 3;
      assert (j + 3) % 3 == j % 3;
      assert d[k] == a[k];
    }
  }

  /** The position-wise reading of the pattern and the right-to-left grouping agree. */
  lemma {:induction false} SpacedIsGrouped(d: string)
    ensures SpacedFrom(d, 0) == Grouped(d)
    decreases |d|
  {
    if |d| <= 3 {
      SpacedFromShort(d, 0);
    } else {
      var a := d[..|d| - 3];
      var b := d[|d| - 3..];
      assert d == a + b;
      SpacedFromAppend3(a, b, 0);
      SpacedIsGrouped(a);
    }
  }

  predicate IsSpaceChar(c: char) { c == ' ' }

  /** Grouping only inserts spaces: taking them out gives back the digits. */
  lemma {:induction false} GroupedRemoveSpaces(d: string)
    requires AllDigits(d)
    ensures RemoveWhere(Grouped(d), IsSpaceChar) == d
    decreases |d|
  {
    if |d| <= 3 {
      RemoveWhereNoop(d, IsSpaceChar);
    } else {
      var a, b := d[..|d| - 3], d[|d| - 3..];
      AllDigitsSlices(d, |d| - 3);
      GroupedRemoveSpaces(a);
      RemoveWhere3(Grouped(a), " ", b, IsSpaceChar);
      RemoveWhereNoop(b, IsSpaceChar);
      SpaceRemoved();
      calc {
        RemoveWhere(Grouped(d), IsSpaceChar);
        RemoveWhere(Grouped(a) + " " + b, IsSpaceChar);
        a + "" + b;
        { CutJoin(d, |d| - 3); }
        d;
      }
    }
  }

  /** Both sides of a cut through digits are digits. */
  lemma AllDigitsSlices(d: string, k: nat)
    requires AllDigits(d) && k <= |d|
    ensures AllDigits(d[..k]) && AllDigits(d[k..])
  {
    assert forall i :: 0 <= i < k ==> d[..k][i] == d[i];
    assert forall i :: 0 <= i < |d| - k ==> d[k..][i] == d[k + i];
  }

  lemma CutJoin(d: string, k: nat)
    requires k <= |d|
    ensures d[..k] + "" + d[k..] == d
  {
    assert d[..k] + d[k..] == d;
  }

  lemma SpaceRemoved()
    ensures RemoveWhere(" ", IsSpaceChar) == ""
  {
    assert " "[1..] == "";
  }

  /** Removing characters from three pieces, piece by piece. */
  lemma RemoveWhere3(x: string, y: string, z: string, drop: char -> bool)
    ensures RemoveWhere(x + y + z, drop) == RemoveWhere(x, drop) + RemoveWhere(y, drop) + RemoveWhere(z, drop)
  {
    RemoveWhereConcat(x + y, z, drop);
    RemoveWhereConcat(x, y, drop);
  }

  /** The grouped digits only hold digits and spaces. */
  lemma {:induction false} GroupedChars(d: string)
    requires AllDigits(d)
    ensures forall i :: 0 <= i < |Grouped(d)| ==> IsDigit(Grouped(d)[i]) || Grouped(d)[i] == ' '
    decreases |d|
  {
    if |d| > 3 {
      GroupedChars(d[..|d| - 3]);
    }
  }

  /** Digit groups as a grouped number has them: a leading group of one to three digits, then
      groups of exactly three. */
  predicate GroupShape(parts: seq<string>) {
    |parts| > 0 && 1 <= |parts[0]| <= 3
    && (forall i :: 1 <= i < |parts| ==> |parts[i]| == 3)
    && (forall i :: 0 <= i < |parts| ==> AllDigits(parts[i]))
  }

  /** The groups of the grouped digits, split at the spaces, have the shape of a grouped
      number. */
  lemma {:induction false} GroupedGroups(d: string)
    requires AllDigits(d) && |d| > 0
    ensures GroupShape(Split(Grouped(d), ' '))
    decreases |d|
  {
    if |d| <= 3 {
      NoSpaceInNumber(d);
      assert Split(d, ' ') == [d];
    } else {
      var a, b := d[..|d| - 3], d[|d| - 3..];
      AllDigitsSlices(d, |d| - 3);
      var g := Grouped(a);
      assert Grouped(d) == g + [' '] + b;
      GroupedGroups(a);
      NoSpaceInNumber(b);
      SplitSnoc(g, b, ' ');
      GroupShapeSnoc(Split(g, ' '), b);
    }
  }

  /** One more group of three digits keeps the shape. */
  lemma GroupShapeSnoc(parts: seq<string>, b: string)
    requires GroupShape(parts) && |b| == 3 && AllDigits(b)
    ensures GroupShape(parts + [b])
  {
    var r := parts + [b];
    assert r[0] == parts[0];
    forall i | 0 <= i < |r| ensures AllDigits(r[i]) && (i >= 1 ==> |r[i]| == 3) {
      if i < |parts| {
        assert r[i] == parts[i];
      }
    }
  }

  /** Splitting `a + [sep] + b` where `b` has no separator splits `a` and adds `b`. */
  lemma {:induction false} SplitSnoc(a: string, b: string, sep: char)
    requires sep !in b
    ensures Split(a + [sep] + b, sep) == Split(a, sep) + [b]
    decreases |a|
  {
    var s := a + [sep] + b;
    var k := IndexOf(a, sep);
    SnocSlices(a, sep, b, if k < 0 then |a| else k);
    if k < 0 {
      assert a[..|a|] == a;
      SplitAt(s, sep, |a|);
      assert Split(b, sep) == [b] && Split(a, sep) == [a];
    } else {
      SplitAt(s, sep, k);
      SplitSnoc(a[k + 1..], b, sep);
      assert Split(a, sep) == [a[..k]] + Split(a[k + 1..], sep);
      ConsSnoc(a[..k], Split(a[k + 1..], sep), b);
    }
  }

  lemma ConsSnoc<T>(x: T, m: seq<T>, y: T)
    ensures [x] + (m + [y]) == ([x] + m) + [y]
  {
  }

  /** The pieces of `a + [sep] + b` on either side of index `k` of `a`, or of the separator. */
  lemma SnocSlices(a: string, sep: char, b: string, k: nat)
    requires k <= |a|
    ensures var s := a + [sep] + b;
      s[..k] == a[..k] && s[k] == (if k < |a| then a[k] else sep)
      && (k < |a| ==> s[k + 1..] == a[k + 1..] + [sep] + b)
      && (k == |a| ==> s[k + 1..] == b)
  {
  }

  /** Splitting at the first separator. */
  lemma SplitAt(s: string, sep: char, k: nat)
    requires k < |s| && s[k] == sep && sep !in s[..k]
    ensures Split(s, sep) == [s[..k]] + Split(s[k + 1..], sep)
  {
    IndexOfIs(s, sep, k);
  }

  /** The first group of the match with its digits grouped (`m[1].replace(...)`). */
  function GroupIntPart(m: string): string
    requires IntPart(m)
  {
    if m[0] == '-' then "-" + Grouped(m[1..]) else Grouped(m)
  }

  /* ---------- formatCell ---------- */

  /** `formatCell(raw)`: `None` and the empty string stand for a missing value. */
  function FormatCell(raw: Option<string>): string {
    if raw.None? || raw.value == "" then "NA"
    else
      var s := Trim(raw.value);
      if s == "" then "NA" else FormatText(s)
  }

  /** The rest of `formatCell`, on the trimmed text `s`: a percentage is kept, a number gets its
      integer digits grouped, any other text is kept. */
  function FormatText(s: string): string {
    if '%' in s then s
    else
      match MatchNumber(RemoveWhere(s, IsJsSpace))
      case None => s
      case Some((m1, m2)) => GroupIntPart(m1) + m2
  }

  /** A missing, empty or all-white-space cell reads "NA". */
  lemma FormatCellBlank(raw: Option<string>)
    requires raw.None? || (forall i :: 0 <= i < |raw.value| ==> IsJsSpace(raw.value[i]))
    ensures FormatCell(raw) == "NA"
  {
    if raw.Some? {
      StripEmptyIff(raw.value, IsJsSpace);
    }
  }

  /** A cell that holds any non-white-space character is never shown as "NA" unless it says so. */
  lemma FormatCellNotBlank(x: string)
    requires exists i :: 0 <= i < |x| && !IsJsSpace(x[i])
    ensures FormatCell(Some(x)) != "" && (FormatCell(Some(x)) == "NA" ==> Trim(x) == "NA")
  {
    StripEmptyIff(x, IsJsSpace);
    FormatTextNotBlank(Trim(x));
  }

  lemma FormatTextNotBlank(s: string)
    requires s != ""
    ensures FormatText(s) != "" && (FormatText(s) == "NA" ==> s == "NA")
  {
    if '%' !in s {
      match MatchNumber(RemoveWhere(s, IsJsSpace))
      case None =>
      case Some((m1, m2)) =>
        GroupIntPartChars(m1);
        var g := GroupIntPart(m1);
        assert (g + m2)[0] == g[0] == m1[0];
    }
  }

  /** A cell holding "%" is shown trimmed and otherwise untouched. */
  lemma FormatCellPercent(x: string)
    requires Trim(x) != "" && '%' in Trim(x)
    ensures FormatCell(Some(x)) == Trim(x)
  {
  }

  /** A cell whose text, white space removed, does not match the number pattern is shown
      trimmed. */
  lemma FormatCellText(x: string)
    requires Trim(x) != "" && '%' !in Trim(x)
    requires forall k :: !MatchesAt(RemoveWhere(Trim(x), IsJsSpace), k)
    ensures FormatCell(Some(x)) == Trim(x)
  {
  }

  /** A number is shown with its sign and decimal part as they are and its integer digits
      grouped; taking the spaces out of the result gives the cell's text without its white
      space. */
  lemma FormatCellNumber(x: string, k: int)
    requires Trim(x) != "" && '%' !in Trim(x)
    requires MatchesAt(RemoveWhere(Trim(x), IsJsSpace), k)
    ensures var ns := RemoveWhere(Trim(x), IsJsSpace);
      FormatCell(Some(x)) == GroupIntPart(ns[..k]) + ns[k..]
    ensures RemoveWhere(FormatCell(Some(x)), IsSpaceChar) == RemoveWhere(Trim(x), IsJsSpace)
  {
    var ns := RemoveWhere(Trim(x), IsJsSpace);
    MatchNumberComplete(ns, k);
    var m1, m2 := ns[..k], ns[k..];
    FormatCellTrims(x);
    assert FormatCell(Some(x)) == GroupIntPart(m1) + m2;
    GroupedIntPartRemoveSpaces(m1);
    NoSpaceInNumber(m2);
    RemoveWhereConcat(GroupIntPart(m1), m2, IsSpaceChar);
    RemoveWhereNoop(m2, IsSpaceChar);
    CutJoin(ns, k);
  }

  lemma GroupedIntPartRemoveSpaces(m: string)
    requires IntPart(m)
    ensures RemoveWhere(GroupIntPart(m), IsSpaceChar) == m
  {
    if m[0] == '-' {
      GroupedRemoveSpaces(m[1..]);
      RemoveWhereConcat("-", Grouped(m[1..]), IsSpaceChar);
      assert m == "-" + m[1..];
    } else {
      GroupedRemoveSpaces(m);
    }
  }

  lemma NoSpaceInNumber(m: string)
    requires DecPart(m) || IntPart(m)
    ensures forall i :: 0 <= i < |m| ==> !IsJsSpace(m[i]) && !IsSpaceChar(m[i]) && m[i] != '%'
  {
    forall i | 0 <= i < |m|
      ensures !IsJsSpace(m[i]) && !IsSpaceChar(m[i]) && m[i] != '%'
    {
      if i > 0 {
        assert m[i] == m[1..][i - 1];
      }
    }
  }

  /** Formatting a formatted cell changes nothing. */
  lemma FormatCellIdempotent(raw: Option<string>)
    ensures FormatCell(Some(FormatCell(raw))) == FormatCell(raw)
  {
    if raw.None? || raw.value == "" || Trim(raw.value) == "" {
      NAFixed();
    } else {
      var s := Trim(raw.value);
      StripIdempotent(raw.value, IsJsSpace);
      FormatTextFixed(s);
    }
  }

  /** "NA" formats to itself. */
  lemma NAFixed()
    ensures FormatCell(Some("NA")) == "NA"
  {
    NATrimmed();
    NANotNumber();
    assert FormatText("NA") == "NA";
  }

  lemma NATrimmed()
    ensures Trim("NA") == "NA" && RemoveWhere("NA", IsJsSpace) == "NA"
  {
    StripNoop("NA", IsJsSpace);
    RemoveWhereNoop("NA", IsJsSpace);
  }

  lemma NANotNumber()
    ensures MatchNumber("NA") == None
  {
    assert DigitPrefixLen("NA") == 0;
  }

  /** The formatted form of trimmed, non-blank text formats to itself. */
  lemma FormatTextFixed(s: string)
    requires s != "" && Trim(s) == s
    ensures FormatCell(Some(FormatText(s))) == FormatText(s)
  {
    if '%' !in s {
      match MatchNumber(RemoveWhere(s, IsJsSpace))
      case None =>
      case Some((m1, m2)) =>
        FormattedNumberFixed(m1, m2);
    }
  }

  /** The grouped integer part is made of digits, spaces and a leading sign; it starts like
      the integer part and ends with a digit. */
  lemma GroupIntPartChars(m: string)
    requires IntPart(m)
    ensures var g := GroupIntPart(m);
      |g| > 0 && g[0] == m[0] && IsDigit(g[|g| - 1])
      && forall i :: 0 <= i < |g| ==> IsDigit(g[i]) || g[i] == ' ' || g[i] == '-'
  {
    var g := GroupIntPart(m);
    var digits := if m[0] == '-' then m[1..] else m;
    GroupedChars(digits);
    forall i | 0 <= i < |g| ensures IsDigit(g[i]) || g[i] == ' ' || g[i] == '-' {
      if m[0] == '-' && i > 0 {
        assert g[i] == Grouped(digits)[i - 1];
      }
    }
  }

  /** The decimal part ends with a digit. */
  lemma DecPartLast(m: string)
    requires DecPart(m) && |m| > 0
    ensures IsDigit(m[|m| - 1])
  {
    assert m[|m| - 1] == m[1..][|m| - 2];
  }

  /** A formatted number is already trimmed and holds no "%". */
  lemma FormattedNumberTrimmed(m1: string, m2: string)
    requires IntPart(m1) && DecPart(m2)
    ensures var r := GroupIntPart(m1) + m2; Trim(r) == r && '%' !in r
  {
    var g := GroupIntPart(m1);
    var r := g + m2;
    GroupIntPartChars(m1);
    NoSpaceInNumber(m2);
    var last := if |m2| > 0 then m2[|m2| - 1] else g[|g| - 1];
    if |m2| > 0 {
      DecPartLast(m2);
    }
    EndsOfConcat(g, m2);
    NumberCharNotSpace(g[0]);
    NumberCharNotSpace(last);
    StripNoop(r, IsJsSpace);
    assert '%' !in g && '%' !in m2;
    NoCharInConcat(g, m2, '%');
  }

  /** The first and last characters of a concatenation with a non-empty first part. */
  lemma EndsOfConcat(a: string, b: string)
    requires |a| > 0
    ensures (a + b)[0] == a[0]
    ensures (a + b)[|a + b| - 1] == if |b| > 0 then b[|b| - 1] else a[|a| - 1]
  {
  }

  lemma NoCharInConcat(a: string, b: string, c: char)
    requires c !in a && c !in b
    ensures c !in a + b
  {
  }

  /** Digits and the minus sign are not white space. */
  lemma NumberCharNotSpace(c: char)
    requires IsDigit(c) || c == '-'
    ensures !IsJsSpace(c)
  {
  }

  /** Removing the white space of a formatted number gives the match back. */
  lemma FormattedNumberUnspaced(m1: string, m2: string)
    requires IntPart(m1) && DecPart(m2)
    ensures RemoveWhere(GroupIntPart(m1) + m2, IsJsSpace) == m1 + m2
  {
    var g := GroupIntPart(m1);
    GroupIntPartChars(m1);
    NoSpaceInNumber(m2);
    GroupedIntPartRemoveSpaces(m1);
    SpaceRemovalAgrees(g);
    RemoveWhereConcat(g, m2, IsJsSpace);
    RemoveWhereNoop(m2, IsJsSpace);
  }

  /** A formatted number formats to itself. */
  lemma FormattedNumberFixed(m1: string, m2: string)
    requires IntPart(m1) && DecPart(m2)
    ensures var r := GroupIntPart(m1) + m2; FormatCell(Some(r)) == r
  {
    var r := GroupIntPart(m1) + m2;
    FormattedNumberTrimmed(m1, m2);
    FormattedNumberUnspaced(m1, m2);
    var t := m1 + m2;
    assert t[..|m1|] == m1 && t[|m1|..] == m2;
    MatchNumberComplete(t, |m1|);
    GroupIntPartChars(m1);
    FormatCellOfNumber(r, m1, m2);
  }

  /** `formatCell` on trimmed text without "%" whose white-space-free form matches the number
      pattern with groups `m1` and `m2`. */
  lemma FormatCellOfNumber(r: string, m1: string, m2: string)
    requires r != "" && Trim(r) == r && '%' !in r
    requires MatchNumber(RemoveWhere(r, IsJsSpace)) == Some((m1, m2))
    ensures FormatCell(Some(r)) == GroupIntPart(m1) + m2
  {
    FormatCellTrims(r);
  }

  /** `formatCell` on a cell that is not blank is `FormatText` of its trimmed text. */
  lemma FormatCellTrims(x: string)
    requires Trim(x) != ""
    ensures FormatCell(Some(x)) == FormatText(Trim(x))
  {
  }

  /** On text made of digits, signs and spaces, removing white space is removing spaces. */
  lemma {:induction false} SpaceRemovalAgrees(g: string)
    requires forall i :: 0 <= i < |g| ==> IsDigit(g[i]) || g[i] == ' ' || g[i] == '-'
    ensures RemoveWhere(g, IsJsSpace) == RemoveWhere(g, IsSpaceChar)
    decreases |g|
  {
    if |g| > 0 {
      SpaceRemovalAgrees(g[1..]);
    }
  }

  lemma Grouped1234()
    ensures Grouped("1234") == "1 234"
  {
    assert "1234"[..1] == "1" && "1234"[1..] == "234";
  }

  /** Worked example: seven digits are grouped "1 234 567". */
  lemma GroupedExamples()
    ensures Grouped("1234567") == "1 234 567"
  {
    Grouped1234();
    assert "1234567"[..4] == "1234" && "1234567"[4..] == "567";
  }

  /** A whole number is shown with its digits grouped. */
  lemma FormatCellDigits(d: string)
    requires |d| > 0 && AllDigits(d)
    ensures FormatCell(Some(d)) == Grouped(d)
  {
    NoSpaceInNumber(d);
    StripNoop(d, IsJsSpace);
    RemoveWhereNoop(d, IsJsSpace);
    assert d[..|d|] == d && d[|d|..] == "";
    assert MatchesAt(d, |d|);
    MatchNumberComplete(d, |d|);
    FormatCellOfNumber(d, d, "");
    assert GroupIntPart(d) + "" == Grouped(d);
  }

  lemma AllDigits1234567()
    ensures AllDigits("1234567")
  {
  }

  /** Worked example: the digits of a whole number are grouped by three. */
  lemma FormatCellExampleInteger()
    ensures FormatCell(Some("1234567")) == "1 234 567"
  {
    AllDigits1234567();
    FormatCellDigits("1234567");
    GroupedExamples();
  }

  /** Worked example: text is shown as it is. */
  lemma FormatCellExampleText()
    ensures FormatCell(Some("abc")) == "abc"
  {
    AbcTrimmed();
    AbcNotNumber();
    FormatCellTrims("abc");
  }

  lemma AbcTrimmed()
    ensures Trim("abc") == "abc" && RemoveWhere("abc", IsJsSpace) == "abc"
  {
    StripNoop("abc", IsJsSpace);
    RemoveWhereNoop("abc", IsJsSpace);
  }

  lemma AbcNotNumber()
    ensures MatchNumber("abc") == None
  {
    assert DigitPrefixLen("abc") == 0;
  }

  /** Worked example: a percentage is shown as it is, space included. */
  lemma FormatCellExamplePercent()
    ensures FormatCell(Some("12 %")) == "12 %"
  {
    StripNoop("12 %", IsJsSpace);
    assert "12 %"[3] == '%';
  }
}

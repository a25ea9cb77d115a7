/** The breadcrumb trail shown above the pages: one crumb per segment of the current path,
    after a fixed link home. */
module Breadcrumb {
  import opened Wrappers
  import opened Strings
  import opened Collections

  /** `pathname.split("/").filter(x => x)`: the non-empty parts of the path. */
  function Segments(path: string): seq<string> {
    Filter(Split(path, '/'), (x: string) => x != "")
  }

  /** Segments are non-empty and free of "/". */
  lemma SegmentsClean(path: string)
    ensures Clean(Segments(path))
  {
    var parts := Split(path, '/');
    var r := Segments(path);
    forall i | 0 <= i < |r| ensures r[i] != "" && '/' !in r[i] {
      assert r[i] in r;
      var j :| 0 <= j < |parts| && parts[j] == r[i];
    }
  }

  /** `routeTo`: the link of crumb `i`, "/" followed by the first `i + 1` segments. */
  function RouteTo(segs: seq<string>, i: nat): string
    requires i < |segs|
  {
    "/" + Join(segs[..i + 1], "/")
  }

  /** Path segments: non-empty and free of "/". */
  predicate Clean(segs: seq<string>) { forall i :: 0 <= i < |segs| ==> segs[i] != "" && '/' !in segs[i] }

  /** Following the link of crumb `i` leads to the page whose segments are the first `i + 1`
      segments of the current one. */
  lemma RouteToSegments(segs: seq<string>, i: nat)
    requires i < |segs| && Clean(segs)
    ensures Segments(RouteTo(segs, i)) == segs[..i + 1]
  {
    var p := segs[..i + 1];
    SplitJoin(p, '/');
    SplitCons("", '/', Join(p, "/"));
    assert RouteTo(segs, i) == "" + ['/'] + Join(p, "/");
    var parts := [""] + p;
    assert parts[1..] == p;
    FilterAll(p, (x: string) => x != "");
  }

  /** Each crumb's link extends the previous one by a "/" and the next segment. */
  lemma RouteToExtends(segs: seq<string>, i: nat)
    requires i + 1 < |segs|
    ensures RouteTo(segs, i + 1) == RouteTo(segs, i) + "/" + segs[i + 1]
    ensures StartsWith(RouteTo(segs, i + 1), RouteTo(segs, i))
  {
    assert segs[..i + 2] == segs[..i + 1] + [segs[i + 1]];
    JoinSnoc(segs[..i + 1], segs[i + 1], "/");
    var r := RouteTo(segs, i);
    assert (r + "/" + segs[i + 1])[..|r|] == r;
  }

  /** The last route is the current path in normal form: it has the same segments; a path
      in normal form ("/" and its segments joined by "/") is its own last route. */
  lemma LastRouteIsPath(path: string)
    requires |Segments(path)| > 0
    ensures Segments(RouteTo(Segments(path), |Segments(path)| - 1)) == Segments(path)
    ensures RouteTo(Segments(path), |Segments(path)| - 1) == "/" + Join(Segments(path), "/")
  {
    var segs := Segments(path);
    SegmentsClean(path);
    RouteToSegments(segs, |segs| - 1);
    assert segs[..|segs|] == segs;
  }

  /* ---------- Labels ---------- */

  /** `replace(/\b\w/g, c => c.toUpperCase())`: every word character that starts a word is
      upper-cased. */
  function WordInitialsUpper(s: string): (r: string)
    ensures |r| == |s|
  {
    seq(|s|, i requires 0 <= i < |s| =>
      if IsWordChar(s[i]) && (i == 0 || !IsWordChar(s[i - 1])) then UpperChar(s[i]) else s[i])
  }

  /** The label of a segment: its first character upper-cased, then the rest with "-" turned
      into " " and each word-initial character upper-cased. */
  function Label(name: string): (r: string)
    ensures |r| == |name|
  {
    if name == "" then "" else [UpperChar(name[0])] + WordInitialsUpper(ReplaceChar(name[1..], '-', ' '))
  }

  /** The rest of the segment is treated as a text of its own, so its first character (a
      word character) is upper-cased too, as in "tableaux", labelled "TAbleaux". */
  lemma SecondLetterUpper(name: string)
    requires |name| >= 2 && IsWordChar(name[1])
    ensures Label(name)[0] == UpperChar(name[0]) && Label(name)[1] == UpperChar(name[1])
  {
    var rest := ReplaceChar(name[1..], '-', ' ');
    assert rest[0] == name[1];
    assert Label(name)[1] == WordInitialsUpper(rest)[0];
  }

  /** Inside a word (after the second character, following a word character other than
      "-"), a character is kept as it is unless it is a "-". */
  lemma InsideWordKept(name: string, k: nat)
    requires 2 <= k < |name| && IsWordChar(name[k - 1]) && name[k] != '-'
    ensures Label(name)[k] == name[k]
  {
    var rest := ReplaceChar(name[1..], '-', ' ');
    assert rest[k - 2] == name[k - 1];
    assert rest[k - 1] == name[k];
    assert Label(name)[k] == WordInitialsUpper(rest)[k - 1];
  }

  lemma LabelTableaux()
    ensures Label("tableaux") == "TAbleaux"
  {
    var n := "tableaux";
    SecondLetterUpper(n);
    forall k | 2 <= k < 8 ensures Label(n)[k] == n[k] {
      InsideWordKept(n, k);
    }
    assert Label(n) == "TAbleaux";
  }

  /** A "-" after the first character becomes a space, and the word character after it
      starts a new word. */
  lemma HyphenStartsWord(name: string, k: nat)
    requires 1 <= k && k + 1 < |name| && name[k] == '-' && IsWordChar(name[k + 1])
    ensures Label(name)[k] == ' ' && Label(name)[k + 1] == UpperChar(name[k + 1])
  {
    var rest := ReplaceChar(name[1..], '-', ' ');
    assert rest[k - 1] == ' ' && rest[k] == name[k + 1];
    var w := WordInitialsUpper(rest);
    assert Label(name) == [UpperChar(name[0])] + w;
    assert w[k - 1] == ' ' && w[k] == UpperChar(name[k + 1]);
  }

  /** A segment of digits (an id) is labelled as it is. */
  lemma DigitsUnchanged(name: string)
    requires AllDigits(name)
    ensures Label(name) == name
  {
    if name != "" {
      var rest := ReplaceChar(name[1..], '-', ' ');
      assert rest == name[1..];
      assert Label(name) == [name[0]] + WordInitialsUpper(rest);
      assert WordInitialsUpper(rest) == rest;
    }
  }

  /* ---------- The trail ---------- */

  /** A crumb: its text, and the address it links to (`None` for the current page). */
  datatype Crumb = Crumb(text: string, link: Option<string>)

  const HOME := Crumb("Accueil", Some("/"))

  /** The crumbs after the home link. */
  function SegmentCrumbs(segs: seq<string>): (r: seq<Crumb>)
    ensures |r| == |segs|
  {
    seq(|segs|, i requires 0 <= i < |segs| =>
      Crumb(Label(segs[i]), if i == |segs| - 1 then None else Some(RouteTo(segs, i))))
  }

  /** The rendered trail: nothing on a path without segments, else the home link followed by
      one crumb per segment. */
  function Trail(path: string): Option<seq<Crumb>> {
    var segs := Segments(path);
    if |segs| == 0 then None else Some([HOME] + SegmentCrumbs(segs))
  }

  /** The trail has one crumb per segment after the home link; every crumb links except the
      last, and the link of crumb `i` leads to the first `i + 1` segments. */
  lemma TrailShape(path: string)
    ensures Trail(path).None? <==> Segments(path) == []
    ensures Trail(path).Some? ==>
              var t := Trail(path).value;
              var segs := Segments(path);
              var c := t[1..];
              |t| == |segs| + 1 && t[0] == HOME &&
              (forall i :: 0 <= i < |segs| ==> c[i].text == Label(segs[i])) &&
              (forall i :: 0 <= i < |segs| ==> (c[i].link.None? <==> i == |segs| - 1)) &&
              (forall i :: 0 <= i < |segs| - 1 ==> c[i].link.Some? && Segments(c[i].link.value) == segs[..i + 1])
  {
    var segs := Segments(path);
    if |segs| > 0 {
      SegmentsClean(path);
      var c := Trail(path).value[1..];
      assert c == SegmentCrumbs(segs);
      forall i | 0 <= i < |segs| - 1
        ensures c[i].link.Some? && Segments(c[i].link.value) == segs[..i + 1]
      {
        RouteToSegments(segs, i);
      }
    }
  }
}

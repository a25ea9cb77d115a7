/** The statistical-table payload exchanged between the back end's structure views and the
    front end's table pages (`/api/tableaux/{id}/structure/` and `/filtrer-structure/`). */
module Payload {
  import opened Wrappers
  import opened Strings
  import opened Collections

  /** Cell values: principal column label -> sub-column label -> display text. */
  type Valeurs = map<string, map<string, string>>

  /** The text of cell (`a`, `b`), if any. */
  function Lookup(vals: Valeurs, a: string, b: string): Option<string> {
    if a in vals && b in vals[a] then Some(vals[a][b]) else None
  }

  /** One column of the flattened column axis. */
  datatype ColumnItem = ColumnItem(principal: string, sous: string)

  /** `colonnes_groupées`: each principal column with its sub-column labels, in key order. */
  type Groups = seq<(string, seq<string>)>

  datatype SousIndicateur = SousIndicateur(nom: string, valeurs: Valeurs)

  /** A table row. The back end emits either `valeurs` or `sous_indicateurs`; `niveau` and
      `is_section` only occur in the current ("nouveau") format. */
  datatype Row = Row(
    indicateur: string,
    niveau: Option<int>,
    valeurs: Option<Valeurs>,
    sousIndicateurs: Option<seq<SousIndicateur>>,
    isSection: bool)

  /** The structure the back end returns. */
  datatype Structure = Structure(colonnesGroupees: Groups, data: seq<Row>, hasSousIndicateurs: bool)

  /** What the detail page receives. `colonnesOrder` is `[]` when the field is absent; the
      optional `format` and `statuts` fields are not produced by the structure views. */
  datatype TablePayload = TablePayload(
    colonnesGroupees: Groups,
    colonnesOrder: seq<ColumnItem>,
    data: seq<Row>,
    hasSousIndicateurs: bool,
    format: Option<string>,
    statuts: Option<seq<string>>)

  /** The payload the detail page sees when a back-end structure arrives. */
  function FromStructure(s: Structure): TablePayload {
    TablePayload(s.colonnesGroupees, [], s.data, s.hasSousIndicateurs, None, None)
  }

  /* ---------- Key order of a parsed JSON object ---------- */

  /** A canonical array index: the decimal text of a number below 2^32 - 1, without leading
      zeros. JavaScript lists such property keys first, in ascending numeric order. */
  predicate IsArrayIndex(k: string) {
    |k| >= 1 && AllDigits(k) && (|k| == 1 || k[0] != '0') && DigitsValue(k) < 0xFFFF_FFFF
  }

  predicate IsIndexEntry(e: (string, seq<string>)) { IsArrayIndex(e.0) }

  predicate IsNamedEntry(e: (string, seq<string>)) { !IsArrayIndex(e.0) }

  function IndexValue(e: (string, seq<string>)): int {
    if AllDigits(e.0) then DigitsValue(e.0) else 0
  }

  /** `Object.entries(o)` of an object parsed from JSON whose members appear in the order `g`:
      array-index keys first in ascending numeric order, then the other keys in their order. */
  function ObjectEntries(g: Groups): Groups {
    SortBy(Filter(g, IsIndexEntry), IndexValue) + Filter(g, IsNamedEntry)
  }

  function Keys(g: Groups): (r: seq<string>)
    ensures |r| == |g| && forall i :: 0 <= i < |g| ==> r[i] == g[i].0
  {
    seq(|g|, i requires 0 <= i < |g| => g[i].0)
  }

  /** `Object.entries` lists every member once: it only reorders them. */
  lemma ObjectEntriesPermutes(g: Groups)
    ensures multiset(ObjectEntries(g)) == multiset(g)
  {
    FilterPartition(g, IsIndexEntry, IsNamedEntry);
  }

  /** Array-index keys come first, in ascending numeric order. */
  lemma ObjectEntriesIndexFirst(g: Groups)
    ensures var r := ObjectEntries(g);
      (forall i, j :: 0 <= i < j < |r| && IsArrayIndex(r[j].0) ==> IsArrayIndex(r[i].0))
      && (forall i, j :: 0 <= i < j < |r| && IsArrayIndex(r[j].0) ==> DigitsValue(r[i].0) <= DigitsValue(r[j].0))
  {
    var a := SortBy(Filter(g, IsIndexEntry), IndexValue);
    var b := Filter(g, IsNamedEntry);
    var r := a + b;
    SortedIndexEntries(g, a);
    AfterNamed(a, b);
    forall i, j | 0 <= i < j < |r| && IsArrayIndex(r[j].0)
      ensures IsArrayIndex(r[i].0) && DigitsValue(r[i].0) <= DigitsValue(r[j].0)
    {
      assert j < |a|;
      assert r[i] == a[i] && r[j] == a[j];
      assert IndexValue(a[i]) <= IndexValue(a[j]);
    }
  }

  /** Members from a list of named members come after all of `a`. */
  lemma AfterNamed(a: Groups, b: Groups)
    requires forall e :: e in b ==> !IsArrayIndex(e.0)
    ensures forall k :: |a| <= k < |a + b| ==> !IsArrayIndex((a + b)[k].0)
  {
    forall k | |a| <= k < |a + b| ensures !IsArrayIndex((a + b)[k].0) {
      assert (a + b)[k] == b[k - |a|];
    }
  }

  /** The sorted array-index members are array-index members. */
  lemma SortedIndexEntries(g: Groups, a: Groups)
    requires a == SortBy(Filter(g, IsIndexEntry), IndexValue)
    ensures forall i :: 0 <= i < |a| ==> IsArrayIndex(a[i].0)
  {
    forall i | 0 <= i < |a| ensures IsArrayIndex(a[i].0) {
      assert a[i] in multiset(a);
      assert a[i] in Filter(g, IsIndexEntry);
    }
  }

  /** An object without array-index keys keeps the order in which its members were sent. */
  lemma ObjectEntriesNamed(g: Groups)
    requires forall i :: 0 <= i < |g| ==> !IsArrayIndex(g[i].0)
    ensures ObjectEntries(g) == g
  {
    FilterNone(g, IsIndexEntry);
    FilterAll(g, IsNamedEntry);
  }

  /* ---------- The key order depends on the keys alone ---------- */

  /** Two member lists with the same keys, position by position. */
  predicate SameKeys(a: Groups, b: Groups) {
    |a| == |b| && forall i :: 0 <= i < |a| ==> a[i].0 == b[i].0
  }

  lemma SameKeysConcat(a: Groups, b: Groups, c: Groups, d: Groups)
    requires SameKeys(a, c) && SameKeys(b, d)
    ensures SameKeys(a + b, c + d)
  {
    forall i | 0 <= i < |a + b| ensures (a + b)[i].0 == (c + d)[i].0 {
      if i >= |a| {
        assert (a + b)[i] == b[i - |a|] && (c + d)[i] == d[i - |a|];
      }
    }
  }

  lemma {:induction false} FilterSameKeys(a: Groups, b: Groups, index: bool)
    requires SameKeys(a, b)
    ensures index ==> SameKeys(Filter(a, IsIndexEntry), Filter(b, IsIndexEntry))
    ensures !index ==> SameKeys(Filter(a, IsNamedEntry), Filter(b, IsNamedEntry))
    decreases |a|
  {
    if |a| > 0 {
      assert SameKeys(a[1..], b[1..]) by {
        forall i | 0 <= i < |a| - 1 ensures a[1..][i].0 == b[1..][i].0 {
          assert a[1..][i] == a[i + 1] && b[1..][i] == b[i + 1];
        }
      }
      FilterSameKeys(a[1..], b[1..], index);
      assert a[0].0 == b[0].0;
      if index {
        SameKeysConcat(if IsIndexEntry(a[0]) then [a[0]] else [], Filter(a[1..], IsIndexEntry),
                       if IsIndexEntry(b[0]) then [b[0]] else [], Filter(b[1..], IsIndexEntry));
      } else {
        SameKeysConcat(if IsNamedEntry(a[0]) then [a[0]] else [], Filter(a[1..], IsNamedEntry),
                       if IsNamedEntry(b[0]) then [b[0]] else [], Filter(b[1..], IsNamedEntry));
      }
    }
  }

  lemma {:induction false} InsertBySameKeys(x: (string, seq<string>), s: Groups, y: (string, seq<string>), t: Groups)
    requires SortedBy(s, IndexValue) && SortedBy(t, IndexValue) && SameKeys(s, t) && x.0 == y.0
    ensures SameKeys(InsertBy(x, s, IndexValue), InsertBy(y, t, IndexValue))
    decreases |s|
  {
    if |s| > 0 && IndexValue(x) >= IndexValue(s[0]) {
      assert s[0].0 == t[0].0;
      SortedByTail(s, IndexValue);
      SortedByTail(t, IndexValue);
      assert SameKeys(s[1..], t[1..]) by {
        forall i | 0 <= i < |s| - 1 ensures s[1..][i].0 == t[1..][i].0 {
          assert s[1..][i] == s[i + 1] && t[1..][i] == t[i + 1];
        }
      }
      InsertBySameKeys(x, s[1..], y, t[1..]);
      SameKeysConcat([s[0]], InsertBy(x, s[1..], IndexValue), [t[0]], InsertBy(y, t[1..], IndexValue));
    } else if |s| > 0 {
      assert s[0].0 == t[0].0;
      SameKeysConcat([x], s, [y], t);
    }
  }

  lemma {:induction false} SortBySameKeys(a: Groups, b: Groups)
    requires SameKeys(a, b)
    ensures SameKeys(SortBy(a, IndexValue), SortBy(b, IndexValue))
    decreases |a|
  {
    if |a| > 0 {
      var n := |a| - 1;
      assert SameKeys(a[..n], b[..n]) by {
        forall i | 0 <= i < n ensures a[..n][i].0 == b[..n][i].0 {
          assert a[..n][i] == a[i] && b[..n][i] == b[i];
        }
      }
      SortBySameKeys(a[..n], b[..n]);
      InsertBySameKeys(a[n], SortBy(a[..n], IndexValue), b[n], SortBy(b[..n], IndexValue));
    }
  }

  /** The key order `Object.entries` gives depends on the keys alone, not on the members'
      values. */
  lemma ObjectEntriesKeys(g: Groups, h: Groups)
    requires SameKeys(g, h)
    ensures Keys(ObjectEntries(g)) == Keys(ObjectEntries(h))
  {
    FilterSameKeys(g, h, true);
    FilterSameKeys(g, h, false);
    SortBySameKeys(Filter(g, IsIndexEntry), Filter(h, IsIndexEntry));
    SameKeysConcat(SortBy(Filter(g, IsIndexEntry), IndexValue), Filter(g, IsNamedEntry),
                   SortBy(Filter(h, IsIndexEntry), IndexValue), Filter(h, IsNamedEntry));
  }

  /** A year label is an array index. */
  lemma YearIsIndex()
    ensures IsArrayIndex("2013")
  {
    assert "2013"[..3] == "201" && "201"[..2] == "20" && "20"[..1] == "2" && "2"[..0] == "";
    assert DigitsValue("2013") == 2013;
  }

  /** Worked example: a year column moves ahead of a named one. */
  lemma ObjectEntriesExample()
    ensures ObjectEntries([("Total", []), ("2013", [])]) == [("2013", []), ("Total", [])]
  {
    var g: Groups := [("Total", []), ("2013", [])];
    YearIsIndex();
    assert !IsArrayIndex("Total") by { assert !IsDigit('T'); }
    assert g[1..] == [("2013", [])] && g[1..][1..] == [];
    var a := Filter(g, IsIndexEntry);
    var b := Filter(g, IsNamedEntry);
    assert a == [("2013", [])];
    assert b == [("Total", [])];
    var sa := SortBy(a, IndexValue);
    assert sa == [("2013", [])] by {
      assert a[..0] == [] && a[0] == ("2013", []);
    }
  }
}

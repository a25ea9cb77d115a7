/** The back end's listing and search views: `ListeSourcesAPIView`, `RechercheGlobaleAPIView`
    and `TableauAnalyseAPIView`. Each database query is replaced by the list of records it
    returns, in the order it returns them. */
module SearchViews {
  import opened Wrappers
  import opened Strings
  import opened Collections
  import opened StructureView

  datatype Categorie = Categorie(id: int, nom: string)

  datatype Theme = Theme(id: int, nom: string, categorie: int)

  /** A `Tableau`; its `source` column may be NULL. */
  datatype Tableau = Tableau(id: int, titre: string, theme: int, source: Option<string>)

  /* ---------- ListeSourcesAPIView ---------- */

  /** The non-NULL values of a column. */
  function Present(xs: seq<Option<string>>): (r: seq<string>)
    ensures forall x :: x in r <==> Some(x) in xs
  {
    if |xs| == 0 then []
    else Present(xs[..|xs| - 1]) + (if xs[|xs| - 1].Some? then [xs[|xs| - 1].value] else [])
  }

  /** `exclude(source="").values_list('source').distinct()` then `sorted`, as written: the
      distinct values still hold NULL when some table has no source, and Python cannot order
      `None` against a string, so the request fails (`None` here) as soon as both occur. */
  function ListeSourcesAsWritten(sources: seq<Option<string>>): (r: Option<seq<Option<string>>>)
  {
    var d := Dedup(Filter(sources, (s: Option<string>) => s != Some("")));
    if None in d && |d| > 1 then None
    else if None in d then Some([None])
    else Some(Wrap(SortStrings(Present(d))))
  }

  function Wrap(xs: seq<string>): (r: seq<Option<string>>)
    ensures |r| == |xs| && forall i :: 0 <= i < |xs| ==> r[i] == Some(xs[i])
  {
    seq(|xs|, i requires 0 <= i < |xs| => Some(xs[i]))
  }

  /** The request fails exactly when a table without a source and a table with a non-empty
      source both exist. */
  lemma ListeSourcesAsWrittenFails(sources: seq<Option<string>>)
    ensures ListeSourcesAsWritten(sources).None?
      <==> None in sources && exists x :: Some(x) in sources && x != ""
  {
    var d := Dedup(Filter(sources, (s: Option<string>) => s != Some("")));
    if None in sources && exists x :: Some(x) in sources && x != "" {
      var x :| Some(x) in sources && x != "";
      assert None in d && Some(x) in d;
    }
    if None in d && |d| > 1 {
      assert |d| >= 2;
      var y := if d[0] == None then d[1] else d[0];
      assert y in d && y != None by {
        assert NoDup(d);
        if d[0] == None {
          assert d[1] != d[0];
        }
      }
    }
  }

  /** Worked example: one table without a source makes the whole list fail. */
  lemma ListeSourcesNullExample()
    ensures ListeSourcesAsWritten([Some("ONS"), None]) == None
    ensures ListeSources([Some("ONS"), None]) == ["ONS"]
  {
    ListeSourcesAsWrittenFails([Some("ONS"), None]);
    assert Some("ONS") in [Some("ONS"), None];
    var c := Present([Some("ONS"), None]);
    assert [Some("ONS"), None][..1] == [Some("ONS")] && [Some("ONS")][..0] == [];
    assert c == ["ONS"];
    assert Filter(c, (s: string) => s != "") == ["ONS"] by {
      assert c[1..] == [];
    }
    assert Dedup(["ONS"]) == ["ONS"] by {
      assert ["ONS"][..0] == [];
    }
  }

  /** `sorted(...)` over the distinct non-empty, non-NULL sources: what the view evidently
      means to list. */
  function ListeSources(sources: seq<Option<string>>): (r: seq<string>)
    ensures SortedStrings(r) && NoDup(r)
    ensures forall x :: x in r <==> Some(x) in sources && x != ""
  {
    var d := Dedup(Filter(Present(sources), (s: string) => s != ""));
    var r := SortStrings(d);
    assert forall x :: x in r <==> x in multiset(d);
    NoDupOfPermutation(d, r);
    r
  }

  /** Without NULL sources the view as written and the intended one agree. */
  lemma ListeSourcesAgree(sources: seq<Option<string>>)
    requires None !in sources
    ensures ListeSourcesAsWritten(sources) == Some(Wrap(ListeSources(sources)))
  {
    var d := Dedup(Filter(sources, (s: Option<string>) => s != Some("")));
    var a := Present(d);
    var b := Dedup(Filter(Present(sources), (s: string) => s != ""));
    assert None !in d;
    assert forall x :: x in a <==> x in b;
    PresentNoDup(d);
    assert multiset(a) == multiset(b) by {
      NoDupMultiset(a, b);
    }
    SortedStringsUnique(SortStrings(a), SortStrings(b));
  }

  /** The non-NULL values of distinct values are distinct. */
  lemma {:induction false} PresentNoDup(xs: seq<Option<string>>)
    requires NoDup(xs)
    ensures NoDup(Present(xs))
  {
    if |xs| > 0 {
      var n := |xs| - 1;
      var init := xs[..n];
      assert NoDup(init) by {
        forall i, j | 0 <= i < j < n ensures init[i] != init[j] {
          assert init[i] == xs[i] && init[j] == xs[j];
        }
      }
      PresentNoDup(init);
      var p := Present(init);
      if xs[n].Some? {
        assert xs[n] !in init;
        SnocNoDup(p, xs[n].value);
      } else {
        assert Present(xs) == p + [];
      }
    }
  }

  /** Two duplicate-free lists with the same elements have the same multiset. */
  lemma NoDupMultiset<T>(a: seq<T>, b: seq<T>)
    requires NoDup(a) && NoDup(b) && forall x :: x in a <==> x in b
    ensures multiset(a) == multiset(b)
  {
    forall x ensures multiset(a)[x] == multiset(b)[x] {
      NoDupCount(a, x);
      NoDupCount(b, x);
      if x in a {
        assert x in multiset(a) && x in multiset(b);
      } else {
        assert x !in multiset(a) && x !in multiset(b);
      }
    }
  }

  /* ---------- RechercheGlobaleAPIView ---------- */

  /** One search hit. `source` is only sent for tables, where it may be NULL. */
  datatype Resultat = Resultat(kind: string, id: int, nom: string, source: Option<string>)

  /** `icontains` with the case folding of `Lower`. */
  predicate IContains(s: string, q: string) { Contains(Lower(s), Lower(q)) }

  predicate CategorieMatches(c: Categorie, q: string) { IContains(c.nom, q) }

  predicate ThemeMatches(t: Theme, q: string) { IContains(t.nom, q) }

  /** `Q(titre__icontains=q) | Q(source__icontains=q)`: a NULL source matches nothing. */
  predicate TableauMatches(t: Tableau, q: string) {
    IContains(t.titre, q) || (t.source.Some? && IContains(t.source.value, q))
  }

  function CategorieHit(c: Categorie): Resultat { Resultat("Categorie", c.id, c.nom, None) }

  function ThemeHit(t: Theme): Resultat { Resultat("Theme", t.id, t.nom, None) }

  function TableauHit(t: Tableau): Resultat { Resultat("Tableau", t.id, t.titre, t.source) }

  function CategorieHits(cs: seq<Categorie>): seq<Resultat> {
    if |cs| == 0 then [] else CategorieHits(cs[..|cs| - 1]) + [CategorieHit(cs[|cs| - 1])]
  }

  function ThemeHits(ts: seq<Theme>): seq<Resultat> {
    if |ts| == 0 then [] else ThemeHits(ts[..|ts| - 1]) + [ThemeHit(ts[|ts| - 1])]
  }

  function TableauHits(ts: seq<Tableau>): seq<Resultat> {
    if |ts| == 0 then [] else TableauHits(ts[..|ts| - 1]) + [TableauHit(ts[|ts| - 1])]
  }

  /** The three querysets of a stripped, non-empty query. */
  function CategorieQuery(cats: seq<Categorie>, q: string): seq<Categorie> {
    Filter(cats, (c: Categorie) => CategorieMatches(c, q))
  }

  function ThemeQuery(themes: seq<Theme>, q: string): seq<Theme> {
    Filter(themes, (t: Theme) => ThemeMatches(t, q))
  }

  function TableauQuery(tabs: seq<Tableau>, q: string): seq<Tableau> {
    Filter(tabs, (t: Tableau) => TableauMatches(t, q))
  }

  /** The response of the search view. */
  function SearchResults(q: string, cats: seq<Categorie>, themes: seq<Theme>, tabs: seq<Tableau>): seq<Resultat> {
    var query := PyStrip(q);
    if query == "" then []
    else (CategorieHits(CategorieQuery(cats, query)) + ThemeHits(ThemeQuery(themes, query))
      + TableauHits(TableauQuery(tabs, query)))
  }

  /** `RechercheGlobaleAPIView.get`: categories, then themes, then tables. */
  method RechercheGlobale(q: string, cats: seq<Categorie>, themes: seq<Theme>, tabs: seq<Tableau>)
    returns (results: seq<Resultat>)
    ensures results == SearchResults(q, cats, themes, tabs)
  {
    var query := PyStrip(q);
    if query == "" {
      return [];
    }
    ghost var a := CategorieHits(CategorieQuery(cats, query));
    ghost var b := ThemeHits(ThemeQuery(themes, query));
    ghost var c := TableauHits(TableauQuery(tabs, query));
    results := AppendCategories([], CategorieQuery(cats, query));
    assert results == a;
    results := AppendThemes(results, ThemeQuery(themes, query));
    results := AppendTableaux(results, TableauQuery(tabs, query));
    assert results == a + b + c;
  }

  /** The loop over the matching categories. */
  method AppendCategories(results: seq<Resultat>, cs: seq<Categorie>) returns (r: seq<Resultat>)
    ensures r == results + CategorieHits(cs)
  {
    r := results;
    for i := 0 to |cs|
      invariant r == results + CategorieHits(cs[..i])
    {
      assert cs[..i + 1][..i] == cs[..i];
      r := r + [CategorieHit(cs[i])];
    }
    assert cs[..|cs|] == cs;
  }

  /** The loop over the matching themes. */
  method AppendThemes(results: seq<Resultat>, ts: seq<Theme>) returns (r: seq<Resultat>)
    ensures r == results + ThemeHits(ts)
  {
    r := results;
    for i := 0 to |ts|
      invariant r == results + ThemeHits(ts[..i])
    {
      assert ts[..i + 1][..i] == ts[..i];
      r := r + [ThemeHit(ts[i])];
    }
    assert ts[..|ts|] == ts;
  }

  /** The loop over the matching tables. */
  method AppendTableaux(results: seq<Resultat>, ts: seq<Tableau>) returns (r: seq<Resultat>)
    ensures r == results + TableauHits(ts)
  {
    r := results;
    for i := 0 to |ts|
      invariant r == results + TableauHits(ts[..i])
    {
      assert ts[..i + 1][..i] == ts[..i];
      r := r + [TableauHit(ts[i])];
    }
    assert ts[..|ts|] == ts;
  }

  /** A blank query finds nothing. */
  lemma SearchBlank(q: string, cats: seq<Categorie>, themes: seq<Theme>, tabs: seq<Tableau>)
    requires forall i :: 0 <= i < |q| ==> IsPySpace(q[i])
    ensures SearchResults(q, cats, themes, tabs) == []
  {
    StripEmptyIff(q, IsPySpace);
  }

  lemma {:induction false} CategorieHitsMembers(cs: seq<Categorie>, r: Resultat)
    ensures r in CategorieHits(cs) <==> exists c :: c in cs && r == CategorieHit(c)
  {
    if |cs| > 0 {
      var n := |cs| - 1;
      CategorieHitsMembers(cs[..n], r);
      assert cs == cs[..n] + [cs[n]];
    }
  }

  lemma {:induction false} ThemeHitsMembers(ts: seq<Theme>, r: Resultat)
    ensures r in ThemeHits(ts) <==> exists t :: t in ts && r == ThemeHit(t)
  {
    if |ts| > 0 {
      var n := |ts| - 1;
      ThemeHitsMembers(ts[..n], r);
      assert ts == ts[..n] + [ts[n]];
    }
  }

  lemma {:induction false} TableauHitsMembers(ts: seq<Tableau>, r: Resultat)
    ensures r in TableauHits(ts) <==> exists t :: t in ts && r == TableauHit(t)
  {
    if |ts| > 0 {
      var n := |ts| - 1;
      TableauHitsMembers(ts[..n], r);
      assert ts == ts[..n] + [ts[n]];
    }
  }

  /** A hit is a matching category, theme or table of a non-blank query, and every match is
      a hit. */
  lemma SearchMembers(q: string, cats: seq<Categorie>, themes: seq<Theme>, tabs: seq<Tableau>, r: Resultat)
    requires PyStrip(q) != ""
    ensures var query := PyStrip(q);
      r in SearchResults(q, cats, themes, tabs)
      <==> ((exists c :: c in cats && CategorieMatches(c, query) && r == CategorieHit(c))
        || (exists t :: t in themes && ThemeMatches(t, query) && r == ThemeHit(t))
        || (exists t :: t in tabs && TableauMatches(t, query) && r == TableauHit(t)))
  {
    var query := PyStrip(q);
    CategorieHitsMembers(CategorieQuery(cats, query), r);
    ThemeHitsMembers(ThemeQuery(themes, query), r);
    TableauHitsMembers(TableauQuery(tabs, query), r);
  }

  /** The rank of a hit's kind in the response. */
  function KindRank(kind: string): nat {
    if kind == "Categorie" then 0 else if kind == "Theme" then 1 else 2
  }

  lemma {:induction false} CategorieHitsShape(cs: seq<Categorie>)
    ensures var h := CategorieHits(cs); |h| == |cs| && forall i :: 0 <= i < |h| ==> h[i].kind == "Categorie"
  {
    if |cs| > 0 {
      CategorieHitsShape(cs[..|cs| - 1]);
    }
  }

  lemma {:induction false} ThemeHitsShape(ts: seq<Theme>)
    ensures var h := ThemeHits(ts); |h| == |ts| && forall i :: 0 <= i < |h| ==> h[i].kind == "Theme"
  {
    if |ts| > 0 {
      ThemeHitsShape(ts[..|ts| - 1]);
    }
  }

  lemma {:induction false} TableauHitsShape(ts: seq<Tableau>)
    ensures var h := TableauHits(ts); |h| == |ts| && forall i :: 0 <= i < |h| ==> h[i].kind == "Tableau"
  {
    if |ts| > 0 {
      TableauHitsShape(ts[..|ts| - 1]);
    }
  }

  /** Categories come first, then themes, then tables, and there is one hit per match. */
  lemma SearchOrder(q: string, cats: seq<Categorie>, themes: seq<Theme>, tabs: seq<Tableau>)
    requires PyStrip(q) != ""
    ensures var r := SearchResults(q, cats, themes, tabs); var query := PyStrip(q);
      |r| == |CategorieQuery(cats, query)| + |ThemeQuery(themes, query)| + |TableauQuery(tabs, query)|
      && forall i, j :: 0 <= i < j < |r| ==> KindRank(r[i].kind) <= KindRank(r[j].kind)
  {
    var query := PyStrip(q);
    var a := CategorieHits(CategorieQuery(cats, query));
    var b := ThemeHits(ThemeQuery(themes, query));
    var c := TableauHits(TableauQuery(tabs, query));
    CategorieHitsShape(CategorieQuery(cats, query));
    ThemeHitsShape(ThemeQuery(themes, query));
    TableauHitsShape(TableauQuery(tabs, query));
    KindBlocks(a, b, c);
  }

  /** Three blocks of hits, one kind each, are in rank order. */
  lemma KindBlocks(a: seq<Resultat>, b: seq<Resultat>, c: seq<Resultat>)
    requires forall i :: 0 <= i < |a| ==> a[i].kind == "Categorie"
    requires forall i :: 0 <= i < |b| ==> b[i].kind == "Theme"
    requires forall i :: 0 <= i < |c| ==> c[i].kind == "Tableau"
    ensures var r := a + b + c; forall i, j :: 0 <= i < j < |r| ==> KindRank(r[i].kind) <= KindRank(r[j].kind)
  {
    var r := a + b + c;
    forall i | 0 <= i < |r|
      ensures KindRank(r[i].kind) == if i < |a| then 0 else if i < |a| + |b| then 1 else 2
    {
      if i < |a| {
        assert r[i] == a[i];
      } else if i < |a| + |b| {
        assert r[i] == b[i - |a|];
      } else {
        assert r[i] == c[i - |a| - |b|];
      }
    }
  }

  /* ---------- TableauAnalyseAPIView ---------- */

  /** `c.isdigit() or c.startswith("20") or c.startswith("19")`, with ASCII digits. */
  predicate YearLike(c: string) {
    (|c| > 0 && AllDigits(c)) || StartsWith(c, "20") || StartsWith(c, "19")
  }

  const GROUP_COLUMNS: seq<string> := ["Féminin", "Masculin", "Total"]

  /** The type rule, by priority. */
  function TableauType(lignes: seq<string>, colonnes: seq<string>): (t: string)
    ensures t in {"annees", "groupes", "carte", "generique"}
  {
    if forall c :: c in colonnes ==> YearLike(c) then "annees"
    else if exists g :: g in GROUP_COLUMNS && g in colonnes then "groupes"
    else if exists l :: l in lignes && Contains(Lower(l), "wilaya") then "carte"
    else "generique"
  }

  /** A type is chosen only when all higher-priority rules fail. */
  lemma TableauTypeIff(lignes: seq<string>, colonnes: seq<string>)
    ensures var t := TableauType(lignes, colonnes);
      (t == "annees" <==> forall c :: c in colonnes ==> YearLike(c))
      && (t == "groupes" <==> ((exists c :: c in colonnes && !YearLike(c))
        && ("Féminin" in colonnes || "Masculin" in colonnes || "Total" in colonnes)))
      && (t == "carte" <==> ((exists c :: c in colonnes && !YearLike(c))
        && !("Féminin" in colonnes || "Masculin" in colonnes || "Total" in colonnes)
        && (exists l :: l in lignes && Contains(Lower(l), "wilaya"))))
  {
    var t := TableauType(lignes, colonnes);
    assert "Féminin" in GROUP_COLUMNS && "Masculin" in GROUP_COLUMNS && "Total" in GROUP_COLUMNS;
    if exists g :: g in GROUP_COLUMNS && g in colonnes {
      var g :| g in GROUP_COLUMNS && g in colonnes;
      assert g == "Féminin" || g == "Masculin" || g == "Total";
    }
  }

  /** A table without columns is a time series: the rule holds vacuously. */
  lemma NoColumnsIsAnnees(lignes: seq<string>)
    ensures TableauType(lignes, []) == "annees"
  {
  }

  /** Year columns win over wilaya lines. */
  lemma YearsBeatWilayas()
    ensures TableauType(["Wilaya du Trarza"], ["2013", "2023"]) == "annees"
  {
    assert YearLike("2013") by {
      assert "2013"[..2] == "20";
    }
    assert YearLike("2023") by {
      assert "2023"[..2] == "20";
    }
  }

  /** One line of the analysis response. */
  datatype Point = Point(categorieLigne: string, categorieColonne: string, valeur: Option<string>)

  datatype Analyse = Analyse(titre: string, donnees: seq<Point>, kind: string)

  /** `x if x` over `Option<string>`: present and non-empty. */
  predicate Truthy(x: Option<string>) { x.Some? && x.value != "" }

  /** `[d.ligne for d in donnees if d.ligne]`. */
  function TruthyLignes(ds: seq<Donnee>): (r: seq<string>)
    ensures forall x :: x in r <==> x != "" && exists d :: d in ds && d.ligne == Some(x)
  {
    if |ds| == 0 then []
    else
      var d := ds[|ds| - 1];
      assert ds == ds[..|ds| - 1] + [d];
      TruthyLignes(ds[..|ds| - 1]) + (if Truthy(d.ligne) then [d.ligne.value] else [])
  }

  /** `[d.colonne for d in donnees if d.colonne]`. */
  function TruthyColonnes(ds: seq<Donnee>): (r: seq<string>)
    ensures forall x :: x in r <==> x != "" && exists d :: d in ds && d.colonne == Some(x)
  {
    if |ds| == 0 then []
    else
      var d := ds[|ds| - 1];
      assert ds == ds[..|ds| - 1] + [d];
      TruthyColonnes(ds[..|ds| - 1]) + (if Truthy(d.colonne) then [d.colonne.value] else [])
  }

  function PointOf(d: Donnee): Point {
    Point(if Truthy(d.ligne) then d.ligne.value else "", if Truthy(d.colonne) then d.colonne.value else "", d.valeur)
  }

  function Points(ds: seq<Donnee>): (r: seq<Point>)
    ensures |r| == |ds| && forall i :: 0 <= i < |ds| ==> r[i] == PointOf(ds[i])
  {
    if |ds| == 0 then []
    else
      var p := Points(ds[..|ds| - 1]);
      assert forall i :: 0 <= i < |ds| - 1 ==> ds[..|ds| - 1][i] == ds[i];
      p + [PointOf(ds[|ds| - 1])]
  }

  /** `TableauAnalyseAPIView.get`: a missing table is a 404; otherwise the title, one point per
      record in order, and the type of the table. */
  method TableauAnalyse(table: Option<(string, seq<Donnee>)>) returns (r: Result<Analyse, string>)
    ensures table.None? <==> r.Failure?
    ensures table.None? ==> r.error == "Tableau non trouvé"
    ensures table.Some? ==> (r.value.titre == table.value.0
      && r.value.kind == TableauType(TruthyLignes(table.value.1), TruthyColonnes(table.value.1))
      && |r.value.donnees| == |table.value.1|
      && forall i :: 0 <= i < |table.value.1| ==> r.value.donnees[i] == PointOf(table.value.1[i]))
  {
    if table.None? {
      return Failure("Tableau non trouvé");
    }
    var (titre, ds) := table.value;
    var kind := TableauType(TruthyLignes(ds), TruthyColonnes(ds));
    var results := [];
    for i := 0 to |ds|
      invariant results == Points(ds[..i])
    {
      assert ds[..i + 1][..i] == ds[..i];
      results := results + [PointOf(ds[i])];
    }
    assert ds[..|ds|] == ds;
    r := Success(Analyse(titre, results, kind));
  }
}

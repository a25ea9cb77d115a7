/** The page listing the themes of one category (`/categories/{id}`): the card decoration
    chosen from the theme's name, the category filter, the id order, the text filter and the
    pick-to-navigate search box. */
module Themes {
  import opened Wrappers
  import opened Strings
  import opened Collections
  import opened Listing

  /** A theme as `/api/themes/` lists it. */
  datatype Theme = Theme(id: int, nomTheme: string, categorie: int)

  function ThemeId(t: Theme): int { t.id }

  function ThemeName(t: Theme): string { t.nomTheme }

  /* ---------- Card decoration ---------- */

  datatype Icon = UserFriends | Heartbeat | BookOpen | IdCard | ChartBar

  /** The icon and the one-line description of a theme card. */
  datatype Meta = Meta(icon: Icon, desc: string)

  const DEMOGRAPHIE := Meta(UserFriends, "Population et structure.")
  const SANTE := Meta(Heartbeat, "Couverture, personnel, équipements.")
  const EDUCATION := Meta(BookOpen, "Scolarisation, réussite, infrastructures.")
  const ETAT_CIVIL := Meta(IdCard, "Naissances, mariages, décès.")
  const AUTRE := Meta(ChartBar, "Indicateurs clés du thème.")

  /** `metaByTheme`: tested on the lower-cased name, first match wins. */
  function MetaByTheme(name: string): Meta {
    var n := Lower(name);
    if Contains(n, "démograph") || Contains(n, "demograph") then DEMOGRAPHIE
    else if Contains(n, "sant") then SANTE
    else if Contains(n, "éduc") || Contains(n, "educ") then EDUCATION
    else if Contains(n, "etat civil") || Contains(n, "état civil") then ETAT_CIVIL
    else AUTRE
  }

  /** The decoration rules of a theme card, in the order they are tried. */
  const THEME_RULES: seq<Rule<Meta>> := [
    Rule(["démograph", "demograph"], DEMOGRAPHIE),
    Rule(["sant"], SANTE),
    Rule(["éduc", "educ"], EDUCATION),
    Rule(["etat civil", "état civil"], ETAT_CIVIL)
  ]

  /** The if-chain is the rule table read top to bottom: the first rule with a pattern in
      the lower-cased name decides, and a name no rule matches gets the generic card. */
  lemma MetaByThemeRules(name: string)
    ensures MetaByTheme(name) == FirstRule(THEME_RULES, Lower(name), AUTRE)
  {
    var n := Lower(name);
    var r := THEME_RULES;
    assert r[0].patterns == ["démograph", "demograph"] && r[1].patterns == ["sant"];
    assert r[2].patterns == ["éduc", "educ"] && r[3].patterns == ["etat civil", "état civil"];
    var f0 := Contains(n, "démograph") || Contains(n, "demograph");
    var f1 := Contains(n, "sant");
    var f2 := Contains(n, "éduc") || Contains(n, "educ");
    var f3 := Contains(n, "etat civil") || Contains(n, "état civil");
    FiresTwo(r[0], n);
    FiresOne(r[1], n);
    FiresTwo(r[2], n);
    FiresTwo(r[3], n);
    if f0 {
      FirstRuleDecides(r, n, AUTRE, 0);
    } else if f1 {
      FirstRuleDecides(r, n, AUTRE, 1);
    } else if f2 {
      FirstRuleDecides(r, n, AUTRE, 2);
    } else if f3 {
      FirstRuleDecides(r, n, AUTRE, 3);
    } else {
      FirstRuleFallback(r, n, AUTRE);
    }
  }

  /** A name that mentions health gets the health card even when it also mentions education
      or civil status; only a demography pattern outranks it. */
  lemma SanteOutranksEducation(name: string)
    requires Contains(Lower(name), "sant")
    requires !Contains(Lower(name), "démograph") && !Contains(Lower(name), "demograph")
    ensures MetaByTheme(name) == SANTE
  {
  }

  /** Worked example: a capital accented initial is lower-cased before the patterns are
      tried, so "Éducation" gets the education card. */
  lemma AccentedEducationExample(name: string)
    requires name == "Éducation"
    ensures MetaByTheme(name) == EDUCATION
  {
    assert Lower(name) == "éducation";
    EducationFacts(Lower(name));
  }

  /** "éducation" holds the education pattern and none of the earlier ones. */
  lemma EducationFacts(s: string)
    requires s == "éducation"
    ensures StartsWith(s, "éduc")
    ensures !Contains(s, "démograph") && !Contains(s, "demograph")
    ensures !Contains(s, "sant")
  {
    MissingCharNotContained(s, "démograph", 'm');
    MissingCharNotContained(s, "demograph", 'm');
    MissingCharNotContained(s, "sant", 's');
  }

  /** Worked example: "État civil" gets the civil-status card. */
  lemma AccentedEtatCivilExample(name: string)
    requires name == "État civil"
    ensures MetaByTheme(name) == ETAT_CIVIL
  {
    assert Lower(name) == "état civil";
    EtatCivilFacts(Lower(name));
    EtatCivilNotEarlier(Lower(name));
    EtatCivilCard(name);
  }

  /** "état civil" holds the civil-status pattern and not the education ones. */
  lemma EtatCivilFacts(s: string)
    requires s == "état civil"
    ensures Contains(s, "état civil")
    ensures !Contains(s, "éduc") && !Contains(s, "educ")
  {
    MissingCharNotContained(s, "éduc", 'd');
    MissingCharNotContained(s, "educ", 'd');
    assert s[..|s|] == s;
  }

  /** "état civil" holds neither the demography nor the health pattern. */
  lemma EtatCivilNotEarlier(s: string)
    requires s == "état civil"
    ensures !Contains(s, "démograph") && !Contains(s, "demograph")
    ensures !Contains(s, "sant")
  {
    MissingCharNotContained(s, "démograph", 'm');
    MissingCharNotContained(s, "demograph", 'm');
    MissingCharNotContained(s, "sant", 's');
  }

  /** A name that holds "état civil" and none of the earlier patterns gets the civil-status card. */
  lemma EtatCivilCard(name: string)
    requires Contains(Lower(name), "état civil")
    requires !Contains(Lower(name), "démograph") && !Contains(Lower(name), "demograph")
    requires !Contains(Lower(name), "sant") && !Contains(Lower(name), "éduc") && !Contains(Lower(name), "educ")
    ensures MetaByTheme(name) == ETAT_CIVIL
  {
  }

  /* ---------- The themes of a category ---------- */

  predicate InCategory(id: string, t: Theme) { ParseInt(id) == Some(t.categorie) }

  /** The themes the page holds: none without a route id (nothing is requested), else those
      whose category is `parseInt(id)`, in the order received. */
  function Loaded(all: seq<Theme>, id: Option<string>): (r: seq<Theme>)
    ensures |r| <= |all|
  {
    if id.None? || id.value == "" then [] else Filter(all, (t: Theme) => InCategory(id.value, t))
  }

  /** Without an id nothing is loaded; with one, a theme is held iff it is listed and its
      category is the number the id starts with. */
  lemma LoadedHolds(all: seq<Theme>, id: Option<string>, t: Theme)
    ensures (id.None? || id == Some("")) ==> Loaded(all, id) == []
    ensures id.Some? && id.value != "" ==>
              (t in Loaded(all, id) <==> t in all && ParseInt(id.value) == Some(t.categorie))
  {
  }

  /** A category number read back from its own decimal text selects that category. */
  lemma LoadedCategory(all: seq<Theme>, n: nat, t: Theme)
    ensures t in Loaded(all, Some(NatToString(n))) <==> t in all && t.categorie == n
  {
    ParseIntOfIntToString(n);
  }

  /** `themesById`: the held themes in ascending id order. */
  function ThemesById(themes: seq<Theme>): (r: seq<Theme>)
    ensures SortedBy(r, ThemeId) && multiset(r) == multiset(themes)
  {
    SortBy(themes, ThemeId)
  }

  /* ---------- Search box ---------- */

  /** `filtered`: the id-ordered themes, narrowed by the query on their names. */
  function Filtered(byId: seq<Theme>, query: string): seq<Theme> {
    TextFiltered(byId, ThemeName, query)
  }

  /** A theme is shown iff it is held and, for a non-blank query, its lower-cased name
      contains the trimmed, lower-cased query; the shown themes keep the id order. */
  lemma FilteredShows(byId: seq<Theme>, query: string, t: Theme)
    requires SortedBy(byId, ThemeId)
    ensures t in Filtered(byId, query) <==>
            t in byId && (Lower(Trim(query)) == "" || Contains(Lower(t.nomTheme), Lower(Trim(query))))
    ensures SortedBy(Filtered(byId, query), ThemeId)
  {
    TextFilteredKeeps(byId, ThemeName, query, ThemeId, t);
  }

  /** `handlePick(value)`: the query becomes `value`; the page navigates to the first theme, in
      id order, whose name equals `value` up to case, and stays put when there is none. */
  function HandlePick(byId: seq<Theme>, value: string): (r: (string, Option<string>)) {
    var m := Pick(byId, ThemeName, value);
    (value, if m.Some? then Some("/themes/" + IntToString(m.value.id)) else None)
  }

  lemma HandlePickNavigates(byId: seq<Theme>, value: string)
    ensures HandlePick(byId, value).0 == value
    ensures HandlePick(byId, value).1.Some? <==>
              exists i :: 0 <= i < |byId| && Lower(byId[i].nomTheme) == Lower(value)
    ensures HandlePick(byId, value).1.Some? ==>
              exists i :: 0 <= i < |byId| && Lower(byId[i].nomTheme) == Lower(value) &&
                (forall j :: 0 <= j < i ==> Lower(byId[j].nomTheme) != Lower(value)) &&
                HandlePick(byId, value).1 == Some("/themes/" + IntToString(byId[i].id))
  {
    PickFirst(byId, ThemeName, value);
  }
}

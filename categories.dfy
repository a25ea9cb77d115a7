/** The home list of statistical categories (`/categories`): the card decoration chosen from
    the category's name and the listed order. */
module Categories {
  import opened Strings
  import opened Collections
  import opened Listing
  import Themes

  /** A category as `/api/categories/` lists it. */
  datatype Categorie = Categorie(id: int, nomCat: string)

  function CategorieId(c: Categorie): int { c.id }

  function CategorieName(c: Categorie): string { c.nomCat }

  /* ---------- Card decoration ---------- */

  datatype Icon = Users | HandHoldingHeart | Leaf | ChartLine | FolderOpen

  /** The icon and the one-line description of a category card. */
  datatype Meta = Meta(icon: Icon, desc: string)

  const DEMOGRAPHIE := Meta(Users, "Statistiques de population, structure, dynamiques.")
  const PAUVRETE := Meta(HandHoldingHeart, "Conditions de vie, vulnérabilités, bien-être.")
  const ENVIRONNEMENT := Meta(Leaf, "Environnement, territoires, gouvernance.")
  const ECONOMIE := Meta(ChartLine, "Activité, prix, emploi et revenus.")
  const AUTRE := Meta(FolderOpen, "Tableaux et indicateurs thématiques.")

  /** `metaByCategory`: tested on the lower-cased name, first match wins. */
  function MetaByCategory(nom: string): Meta {
    var n := Lower(nom);
    if Contains(n, "démograph") then DEMOGRAPHIE
    else if Contains(n, "pauvret") then PAUVRETE
    else if Contains(n, "environnement") then ENVIRONNEMENT
    else if Contains(n, "économ") || Contains(n, "econom") then ECONOMIE
    else AUTRE
  }

  /** The decoration rules of a category card, in the order they are tried. */
  const CATEGORY_RULES: seq<Rule<Meta>> := [
    Rule(["démograph"], DEMOGRAPHIE),
    Rule(["pauvret"], PAUVRETE),
    Rule(["environnement"], ENVIRONNEMENT),
    Rule(["économ", "econom"], ECONOMIE)
  ]

  /** The if-chain is the rule table read top to bottom. */
  lemma MetaByCategoryRules(nom: string)
    ensures MetaByCategory(nom) == FirstRule(CATEGORY_RULES, Lower(nom), AUTRE)
  {
    var n := Lower(nom);
    var r := CATEGORY_RULES;
    assert r[0].patterns == ["démograph"] && r[1].patterns == ["pauvret"];
    assert r[2].patterns == ["environnement"] && r[3].patterns == ["économ", "econom"];
    FiresOne(r[0], n);
    FiresOne(r[1], n);
    FiresOne(r[2], n);
    FiresTwo(r[3], n);
    if Contains(n, "démograph") {
      FirstRuleDecides(r, n, AUTRE, 0);
    } else if Contains(n, "pauvret") {
      FirstRuleDecides(r, n, AUTRE, 1);
    } else if Contains(n, "environnement") {
      FirstRuleDecides(r, n, AUTRE, 2);
    } else if Contains(n, "économ") || Contains(n, "econom") {
      FirstRuleDecides(r, n, AUTRE, 3);
    } else {
      FirstRuleFallback(r, n, AUTRE);
    }
  }

  /** Unlike the theme cards, the unaccented spelling does not select the demography card:
      a name whose lower-cased form holds "demograph" but no category pattern gets the
      demography card as a theme and the generic card as a category. */
  lemma UnaccentedDemography(name: string)
    requires Contains(Lower(name), "demograph") && !Contains(Lower(name), "démograph")
    requires !Contains(Lower(name), "pauvret") && !Contains(Lower(name), "environnement")
    requires !Contains(Lower(name), "économ") && !Contains(Lower(name), "econom")
    ensures Themes.MetaByTheme(name) == Themes.DEMOGRAPHIE
    ensures MetaByCategory(name) == AUTRE
  {
  }

  /** Worked example: "Économie" is lower-cased to "économie" and gets the economy card. */
  lemma AccentedCapitalExample(name: string)
    requires name == "Économie"
    ensures MetaByCategory(name) == ECONOMIE
  {
    assert Lower(name) == "économie";
    EconomieFacts(Lower(name));
  }

  /** "économie" holds the economy pattern and none of the earlier ones. */
  lemma EconomieFacts(s: string)
    requires s == "économie"
    ensures StartsWith(s, "économ")
    ensures !Contains(s, "démograph") && !Contains(s, "pauvret")
    ensures !Contains(s, "environnement")
  {
    MissingCharNotContained(s, "démograph", 'g');
    MissingCharNotContained(s, "pauvret", 'p');
    MissingCharNotContained(s, "environnement", 'v');
  }

  /* ---------- Listed order ---------- */

  /** `filtered`: the categories whose name matches the query (all of them for a blank
      query), in ascending id order. The sort acts on a fresh array, so the fetched list is
      left as it was. */
  function Filtered(categories: seq<Categorie>, query: string): (r: seq<Categorie>)
    ensures SortedBy(r, CategorieId)
  {
    SortBy(TextFiltered(categories, CategorieName, query), CategorieId)
  }

  /** The listed categories are the matching ones, each as often as fetched. */
  lemma FilteredLists(categories: seq<Categorie>, query: string, c: Categorie)
    ensures multiset(Filtered(categories, query)) == multiset(TextFiltered(categories, CategorieName, query))
    ensures c in Filtered(categories, query) <==>
            c in categories && (Lower(Trim(query)) == "" || Contains(Lower(c.nomCat), Lower(Trim(query))))
  {
    TextFilteredKeeps(categories, CategorieName, query, CategorieId, c);
    assert c in Filtered(categories, query) <==> c in multiset(Filtered(categories, query));
  }

  /** The page never changes its query, so it always lists every fetched category in
      ascending id order. */
  lemma AlwaysAll(categories: seq<Categorie>)
    ensures Filtered(categories, "") == SortBy(categories, CategorieId)
  {
    TextFilteredBlank(categories, CategorieName, "");
  }
}

/** The global search page (`/recherche`): the page's state as the input and the search
    answer change it, which results are listed, and where each one links. */
module RecherchePage {
  import opened Wrappers
  import opened Strings
  import opened SearchViews

  /** How many results are listed before "Voir tous" is clicked. */
  const FIRST := 5

  /** `resultatsAffiches`: every result once "Voir tous" was clicked, else the first five
      (`slice(0, 5)`, all of them when there are fewer). */
  function Displayed(resultats: seq<Resultat>, afficherTout: bool): (r: seq<Resultat>)
    ensures afficherTout ==> r == resultats
    ensures !afficherTout ==> |r| == if |resultats| < FIRST then |resultats| else FIRST
    ensures r == resultats[..|r|]
  {
    if afficherTout then resultats
    else if |resultats| < FIRST then resultats
    else resultats[..FIRST]
  }

  /** The "Voir tous les résultats" entry: shown while the list is cut and there are more than
      five results. */
  predicate ShowVoirTous(resultats: seq<Resultat>, afficherTout: bool) {
    !afficherTout && |resultats| > FIRST
  }

  /** No result is ever out of reach: either every result is listed, or exactly five are and
      "Voir tous" is offered. */
  lemma NothingHidden(resultats: seq<Resultat>, afficherTout: bool)
    ensures !ShowVoirTous(resultats, afficherTout) <==> Displayed(resultats, afficherTout) == resultats
    ensures ShowVoirTous(resultats, afficherTout) ==> |Displayed(resultats, afficherTout)| == FIRST
  {
  }

  /** The results dropdown: shown for a query of two characters or more with results. */
  predicate ShowDropdown(query: string, resultats: seq<Resultat>) {
    |query| > 1 && |resultats| > 0
  }

  /** "Aucun résultat trouvé.": shown for a query of two characters or more, once typing has
      settled, with no result. */
  predicate ShowNoResult(query: string, isTyping: bool, resultats: seq<Resultat>) {
    |query| > 1 && !isTyping && |resultats| == 0
  }

  /** The dropdown and the empty message never show together, and a query shorter than two
      characters shows neither. */
  lemma DropdownOrMessage(query: string, isTyping: bool, resultats: seq<Resultat>)
    ensures !(ShowDropdown(query, resultats) && ShowNoResult(query, isTyping, resultats))
    ensures |query| <= 1 ==> !ShowDropdown(query, resultats) && !ShowNoResult(query, isTyping, resultats)
    ensures |query| > 1 && !isTyping ==> ShowDropdown(query, resultats) || ShowNoResult(query, isTyping, resultats)
  {
  }

  /** Where a listed result links to: the page of its table, category or theme, else "#". */
  function LinkTarget(r: Resultat): (t: string)
    ensures r.kind !in {"Tableau", "Categorie", "Theme"} <==> t == "#"
  {
    if r.kind == "Tableau" then "/tableaux/" + IntToString(r.id)
    else if r.kind == "Categorie" then "/categories/" + IntToString(r.id)
    else if r.kind == "Theme" then "/themes/" + IntToString(r.id)
    else "#"
  }

  /** The hits the search endpoint builds link to their own pages. */
  lemma HitsLink(c: Categorie, t: Theme, tab: SearchViews.Tableau)
    ensures LinkTarget(CategorieHit(c)) == "/categories/" + IntToString(c.id)
    ensures LinkTarget(ThemeHit(t)) == "/themes/" + IntToString(t.id)
    ensures LinkTarget(TableauHit(tab)) == "/tableaux/" + IntToString(tab.id)
  {
  }

  /** The state of the page. */
  class Page {
    var query: string
    var resultats: seq<Resultat>
    var afficherTout: bool
    var isTyping: bool

    /** An empty query, no result, the list cut, not typing. */
    constructor()
      ensures query == "" && resultats == [] && !afficherTout && !isTyping
    {
      query := "";
      resultats := [];
      afficherTout := false;
      isTyping := false;
    }

    /** What is listed in the current state. */
    function Shown(): seq<Resultat>
      reads this
    {
      Displayed(resultats, afficherTout)
    }

    /** The input's `onChange`: the query becomes the typed text and typing starts. */
    method OnChange(value: string)
      modifies this
      ensures query == value && isTyping
      ensures resultats == old(resultats) && afficherTout == old(afficherTout)
    {
      query := value;
      isTyping := true;
    }

    /** The debounce timer fires (300 ms after the last change of the query): a query of two
        characters or more is sent to the search endpoint (the returned term), a shorter one
        clears the results; either way typing has settled. */
    method DebounceFire() returns (request: Option<string>)
      modifies this
      ensures !isTyping && query == old(query) && afficherTout == old(afficherTout)
      ensures |query| > 1 ==> request == Some(query) && resultats == old(resultats)
      ensures |query| <= 1 ==> request == None && resultats == []
    {
      if |query| > 1 {
        request := Some(query);
      } else {
        request := None;
        resultats := [];
      }
      isTyping := false;
    }

    /** The search answer arrives: it replaces the results and the list is cut again. */
    method ResultsArrive(data: seq<Resultat>)
      modifies this
      ensures resultats == data && !afficherTout
      ensures query == old(query) && isTyping == old(isTyping)
    {
      resultats := data;
      afficherTout := false;
    }

    /** A click on "Voir tous": every result is listed. */
    method ShowAll()
      modifies this
      ensures afficherTout && Shown() == resultats
      ensures query == old(query) && resultats == old(resultats) && isTyping == old(isTyping)
    {
      afficherTout := true;
    }
  }

  /** Fresh answers are listed from the top, at most five at a time, with "Voir tous" offered
      iff some were left out. */
  lemma FreshAnswerListing(data: seq<Resultat>)
    ensures |Displayed(data, false)| <= FIRST
    ensures Displayed(data, false) == data[..|Displayed(data, false)|]
    ensures ShowVoirTous(data, false) <==> |Displayed(data, false)| < |data|
  {
  }
}

/** The page listing the tables of one theme (`/themes/{id}`): short titles, the
    theme filter, the id order, the text filter, the pick-to-navigate search box and the
    per-table download menu. */
module Tableaux {
  import opened Wrappers
  import opened Strings
  import opened Collections
  import opened Listing

  /** A table as `/api/tableaux/` lists it. */
  datatype Tableau = Tableau(id: int, titre: string, theme: int)

  function TableauId(t: Tableau): int { t.id }

  /* ---------- Short title ---------- */

  /** `extraireTitre`: the text between the first ":" and the first ";" when that ";" comes
      later, else the text after the first ":", trimmed; a title without ":" is kept whole. */
  function ExtraireTitre(titre: string): string {
    var debut := IndexOf(titre, ':');
    var fin := IndexOf(titre, ';');
    if debut != -1 && fin != -1 && fin > debut then Trim(titre[debut + 1..fin])
    else if debut != -1 then Trim(titre[debut + 1..])
    else titre
  }

  /** With the first ":" at `i` and the first ";" at a later `j`, the short title is what
      lies between them, trimmed. */
  lemma ExtraireTitreBetween(titre: string, i: nat, j: nat)
    requires i < j < |titre| && titre[i] == ':' && titre[j] == ';'
    requires ':' !in titre[..i] && ';' !in titre[..j]
    ensures ExtraireTitre(titre) == Trim(titre[i + 1..j])
  {
    IndexOfIs(titre, ':', i);
    IndexOfIs(titre, ';', j);
  }

  /** With the first ":" at `i` and no ";" after it (none at all, or the first one before
      the ":"), the short title is everything after the ":", trimmed, later ";" included. */
  lemma ExtraireTitreAfter(titre: string, i: nat)
    requires i < |titre| && titre[i] == ':' && ':' !in titre[..i]
    requires ';' in titre[..i] || ';' !in titre[i + 1..]
    ensures ExtraireTitre(titre) == Trim(titre[i + 1..])
  {
    IndexOfIs(titre, ':', i);
    if ';' !in titre[..i] {
      assert ';' !in titre by {
        assert titre == titre[..i] + [':'] + titre[i + 1..];
      }
    } else {
      var k := IndexOf(titre[..i], ';');
      assert titre[..i][..k] == titre[..k];
      IndexOfIs(titre, ';', k);
    }
  }

  /** A title without ":" is its own short title. */
  lemma ExtraireTitreWhole(titre: string)
    requires ':' !in titre
    ensures ExtraireTitre(titre) == titre
  {
  }

  /* ---------- The tables of a theme ---------- */

  /** `parseInt(id || "0", 10)`: a missing or empty route parameter reads as theme 0; `None`
      stands for `NaN`. */
  function ThemeParam(id: Option<string>): Option<int> {
    ParseInt(if id.None? || id.value == "" then "0" else id.value)
  }

  predicate OfThemeParam(id: Option<string>, t: Tableau) { ThemeParam(id) == Some(t.theme) }

  /** The tables kept from the full list: those of the route's theme, in the order received. */
  function OfTheme(all: seq<Tableau>, id: Option<string>): (r: seq<Tableau>)
    ensures forall t :: t in r <==> t in all && ThemeParam(id) == Some(t.theme)
  {
    Filter(all, (t: Tableau) => OfThemeParam(id, t))
  }

  /** Without an id, or with an empty one, the page lists the tables of theme 0. */
  lemma NoIdIsThemeZero(all: seq<Tableau>, id: Option<string>, t: Tableau)
    requires id.None? || id == Some("")
    ensures t in OfTheme(all, id) <==> t in all && t.theme == 0
  {
    ParseIntOfDigits("0");
  }

  /** An id that is a theme number keeps the tables of that theme. */
  lemma NumericIdIsTheme(all: seq<Tableau>, n: nat, t: Tableau)
    ensures t in OfTheme(all, Some(NatToString(n))) <==> t in all && t.theme == n
  {
    ParseIntOfIntToString(n);
  }

  /** An id that does not start with a number (`NaN`) keeps no table at all. */
  lemma NaNIdKeepsNothing(all: seq<Tableau>, id: string)
    requires id != "" && ParseInt(id).None?
    ensures OfTheme(all, Some(id)) == []
  {
    FilterNone(all, (t: Tableau) => OfThemeParam(Some(id), t));
  }

  /** `tableauxById`: the same tables in ascending id order. */
  function TableauxById(ts: seq<Tableau>): (r: seq<Tableau>)
    ensures SortedBy(r, TableauId) && multiset(r) == multiset(ts)
  {
    SortBy(ts, TableauId)
  }

  /* ---------- Search box ---------- */

  /** The name a table is searched and suggested by: its short title. */
  function ShortTitle(t: Tableau): string { ExtraireTitre(t.titre) }

  /** `filtered`: the id-ordered tables, narrowed by the query on their short titles. */
  function Filtered(byId: seq<Tableau>, query: string): seq<Tableau> {
    TextFiltered(byId, ShortTitle, query)
  }

  /** A table is shown iff it is in the list and, for a non-blank query, its lower-cased short
      title contains the trimmed, lower-cased query; the shown tables keep the id order. */
  lemma FilteredShows(byId: seq<Tableau>, query: string, t: Tableau)
    requires SortedBy(byId, TableauId)
    ensures t in Filtered(byId, query) <==>
            t in byId && (Lower(Trim(query)) == "" || Contains(Lower(ExtraireTitre(t.titre)), Lower(Trim(query))))
    ensures SortedBy(Filtered(byId, query), TableauId)
  {
    TextFilteredKeeps(byId, ShortTitle, query, TableauId, t);
  }

  /** `handlePick(val)`: the query becomes `val`; the page navigates to the first table, in id
      order, whose short title equals `val` up to case, and stays put when there is none. */
  function HandlePick(byId: seq<Tableau>, val: string): (r: (string, Option<string>)) {
    var m := Pick(byId, ShortTitle, val);
    (val, if m.Some? then Some("/tableaux/" + IntToString(m.value.id)) else None)
  }

  /** The pick always sets the query; it navigates iff some short title equals the value up to
      case, and then to the first such table in id order. */
  lemma HandlePickNavigates(byId: seq<Tableau>, val: string)
    ensures HandlePick(byId, val).0 == val
    ensures HandlePick(byId, val).1.Some? <==>
              exists i :: 0 <= i < |byId| && Lower(ExtraireTitre(byId[i].titre)) == Lower(val)
    ensures HandlePick(byId, val).1.Some? ==>
              exists i :: 0 <= i < |byId| && Lower(ExtraireTitre(byId[i].titre)) == Lower(val) &&
                (forall j :: 0 <= j < i ==> Lower(ExtraireTitre(byId[j].titre)) != Lower(val)) &&
                HandlePick(byId, val).1 == Some("/tableaux/" + IntToString(byId[i].id))
  {
    PickFirst(byId, ShortTitle, val);
  }

  /* ---------- Download menu ---------- */

  datatype Format = Pdf | Xlsx

  function FormatName(f: Format): string {
    match f
    case Pdf => "pdf"
    case Xlsx => "xlsx"
  }

  /** The export address of table `id` in format `f`:
      `/api/tableaux/{id}/export?format={f}`. */
  function DownloadUrl(id: int, f: Format): string {
    "/api/tableaux/" + ExportPath(id, f)
  }

  function ExportPath(id: int, f: Format): string {
    IntToString(id) + "/" + ExportQuery(f)
  }

  function ExportQuery(f: Format): string {
    "export?format=" + FormatName(f)
  }

  /** `handleDownload`: the export address opened, and the menu state afterwards (closed). */
  function HandleDownload(tbl: Tableau, f: Format): (r: (string, Option<int>))
    ensures r.1 == None
    ensures r.0 == "/api/tableaux/" + IntToString(tbl.id) + "/export?format=" + FormatName(f)
    ensures StartsWith(r.0, "/api/tableaux/" + IntToString(tbl.id) + "/")
  {
    var u := DownloadUrl(tbl.id, f);
    assert u == "/api/tableaux/" + IntToString(tbl.id) + "/export?format=" + FormatName(f);
    assert u[..|"/api/tableaux/" + IntToString(tbl.id) + "/"|] == "/api/tableaux/" + IntToString(tbl.id) + "/";
    (u, None)
  }

  lemma NoSlashInNumber(i: int)
    ensures '/' !in IntToString(i)
  {
    var n := if i < 0 then -i else i;
    assert AllDigits(NatToString(n));
    if i < 0 {
      assert IntToString(i) == "-" + NatToString(n);
      assert forall j :: 0 <= j < |IntToString(i)| ==> IntToString(i)[j] == '-' || IsDigit(IntToString(i)[j]) by {
        forall j | 0 <= j < |IntToString(i)| ensures IntToString(i)[j] == '-' || IsDigit(IntToString(i)[j]) {
          if j > 0 { assert IntToString(i)[j] == NatToString(n)[j - 1]; }
        }
      }
    }
  }

  /** Different tables or formats never share an export address. */
  lemma DownloadUrlInjective(id1: int, f1: Format, id2: int, f2: Format)
    requires DownloadUrl(id1, f1) == DownloadUrl(id2, f2)
    ensures id1 == id2 && f1 == f2
  {
    var p := "/api/tableaux/";
    assert ExportPath(id1, f1) == (p + ExportPath(id1, f1))[|p|..];
    assert ExportPath(id2, f2) == (p + ExportPath(id2, f2))[|p|..];
    NoSlashInNumber(id1);
    NoSlashInNumber(id2);
    SplitOnAbsent(IntToString(id1), ExportQuery(f1), IntToString(id2), ExportQuery(f2), '/');
    ParseIntOfIntToString(id1);
    ParseIntOfIntToString(id2);
    var q := "export?format=";
    assert FormatName(f1) == (q + FormatName(f1))[|q|..];
    assert FormatName(f2) == (q + FormatName(f2))[|q|..];
  }

  /** The table whose format menu is open, if any. */
  type MenuState = Option<int>

  /** The download button of table `id`: opens its menu, or closes it when already open. */
  function ToggleMenu(cur: MenuState, id: int): (r: MenuState)
    ensures r == Some(id) <==> cur != Some(id)
    ensures r.Some? ==> r == Some(id)
  {
    if cur == Some(id) then None else Some(id)
  }

  /** Leaving the card of table `id` closes its menu and leaves another table's menu open. */
  function LeaveCard(cur: MenuState, id: int): (r: MenuState)
    ensures r != Some(id)
    ensures cur != Some(id) ==> r == cur
  {
    if cur == Some(id) then None else cur
  }

  /** Two clicks on the same download button restore the menu state of a page whose open
      menu, if any, is that table's. */
  lemma ToggleMenuTwice(cur: MenuState, id: int)
    requires cur.None? || cur == Some(id)
    ensures ToggleMenu(ToggleMenu(cur, id), id) == cur
  {
  }
}

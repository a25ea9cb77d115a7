/** The fixed header: its navigation links, which of them is highlighted, the update links
    shown to editors, and logging out. */
module Header {
  import opened Wrappers
  import opened Strings
  import opened Auth

  /** `canUpdate`: the user read from the store is a department head, a superuser or staff. */
  predicate CanUpdate(entries: map<string, string>, parse: string -> Parsed) {
    var u := UserOrNull(entries, parse);
    u.Truthy? && (u.isChef || u.isSuperuser || u.isStaff)
  }

  /** Everyone the update pages let in sees the update links. */
  lemma AdminCanUpdate(entries: map<string, string>, parse: string -> Parsed)
    ensures IsAdminOrChef(entries, parse) ==> CanUpdate(entries, parse)
  {
  }

  /** A staff member who is neither head nor superuser is shown the "Mise à jour" link, but
      the page it leads to redirects to "/accueil". */
  lemma StaffOnlyRedirected<T>(entries: map<string, string>, parse: string -> Parsed, page: T)
    requires UserOrNull(entries, parse).Truthy?
    requires UserOrNull(entries, parse).isStaff
    requires !UserOrNull(entries, parse).isChef && !UserOrNull(entries, parse).isSuperuser
    ensures CanUpdate(entries, parse)
    ensures ProtectedRoute(entries, parse, page) == Redirect("/accueil")
  {
  }

  /* ---------- Navigation links ---------- */

  /** `isActive(path)` on the current `pathname`: the home link is active on "/accueil" and on
      "/"; any other link is active on every pathname that starts with its path, with no
      regard to segment boundaries. */
  predicate IsActive(pathname: string, path: string) {
    if path == "/accueil" then pathname == "/accueil" || pathname == "/"
    else StartsWith(pathname, path)
  }

  /** The home link is active on exactly two pathnames; "/accueil/..." is not one of them. */
  lemma HomeActive(pathname: string)
    ensures IsActive(pathname, "/accueil") <==> pathname in {"/accueil", "/"}
  {
  }

  /** A link other than home is active on its path followed by anything at all, and only
      there. */
  lemma PrefixActive(pathname: string, path: string, rest: string)
    requires path != "/accueil"
    ensures IsActive(path + rest, path)
    ensures IsActive(pathname, path) ==> pathname == path + pathname[|path|..]
  {
    assert (path + rest)[..|path|] == path;
    if IsActive(pathname, path) {
      assert pathname == pathname[..|path|] + pathname[|path|..];
    }
  }

  const BASE_BTN := "relative inline-flex items-center justify-center rounded-full px-4 py-2 text-lg font-medium " +
    "text-gray-800/90 hover:text-green-800 transition " +
    "hover:bg-green-600/10 hover:shadow active:scale-[0.97]"
  const UNDERLINE := "after:absolute after:left-1/2 after:-translate-x-1/2 after:-bottom-1 after:h-[2px] after:w-0 " +
    "after:bg-green-700 after:transition-all after:duration-300 hover:after:w-10"
  const ACTIVE_BTN := "text-green-800 bg-green-600/10 after:w-10"

  /** The class list of a link, `[baseBtn, underline, isActive(path) ? activeBtn : ""]`. */
  function LinkClasses(pathname: string, path: string): (r: seq<string>)
    ensures |r| == 3 && r[0] == BASE_BTN && r[1] == UNDERLINE
  {
    [BASE_BTN, UNDERLINE, if IsActive(pathname, path) then ACTIVE_BTN else ""]
  }

  /** `linkCls(path)`: the class list joined by spaces. */
  function LinkCls(pathname: string, path: string): string {
    Join(LinkClasses(pathname, path), " ")
  }

  /** The last class of a link is non-empty iff the link is active, and it is then the
      highlight class. */
  lemma LinkClassesActive(pathname: string, path: string)
    ensures LinkClasses(pathname, path)[2] != "" <==> IsActive(pathname, path)
    ensures IsActive(pathname, path) ==> LinkClasses(pathname, path)[2] == ACTIVE_BTN
  {
    assert |ACTIVE_BTN| > 0;
  }

  /** A navigation link: its text and its target. */
  datatype NavLink = NavLink(text: string, to: string)

  const ALWAYS: seq<NavLink> := [
    NavLink("Accueil", "/accueil"),
    NavLink("Statistiques", "/categories"),
    NavLink("Sources", "/sources"),
    NavLink("Recherche", "/recherche")
  ]

  const EDITOR_LINKS: seq<NavLink> := [
    NavLink("Mise à jour", "/chef-departement"),
    NavLink("Gestion", "http://127.0.0.1:8000/admin/")
  ]

  /** The navigation bar: the four public links, then the two update links when `canUpdate`. */
  function NavLinks(entries: map<string, string>, parse: string -> Parsed): seq<NavLink> {
    ALWAYS + (if CanUpdate(entries, parse) then EDITOR_LINKS else [])
  }

  /** The public links are always there, first; the update links are there iff `canUpdate`. */
  lemma NavLinksShown(entries: map<string, string>, parse: string -> Parsed)
    ensures NavLinks(entries, parse)[..4] == ALWAYS
    ensures |NavLinks(entries, parse)| == 6 <==> CanUpdate(entries, parse)
    ensures CanUpdate(entries, parse) ==> NavLinks(entries, parse)[4..] == EDITOR_LINKS
    ensures !CanUpdate(entries, parse) ==> |NavLinks(entries, parse)| == 4
  {
    assert |ALWAYS| == 4 && |EDITOR_LINKS| == 2;
  }

  /** The logout button shows iff the header reads a (truthy) user. */
  predicate ShowsLogout(entries: map<string, string>, parse: string -> Parsed) {
    UserOrNull(entries, parse).Truthy?
  }

  /* ---------- Logging out ---------- */

  /** `handleLogout`: removes "access", then "user", and navigates to "/login". */
  method HandleLogout(store: Storage) returns (target: string)
    modifies store
    ensures store.entries == WithoutSession(old(store.entries))
    ensures target == "/login"
  {
    store.RemoveItem("access");
    store.RemoveItem("user");
    target := "/login";
  }

  /** After logging out the header shows neither the logout button nor the update links. */
  lemma LoggedOutHeader(entries: map<string, string>, parse: string -> Parsed)
    requires parse("null") == Falsy
    ensures !ShowsLogout(WithoutSession(entries), parse) && !CanUpdate(WithoutSession(entries), parse)
  {
  }
}

/** The browser's key-value store and the user record the login page leaves in it, read by
    the role predicates that guard the update pages. */
module Auth {
  import opened Wrappers

  /** What `JSON.parse` makes of the stored "user" text, as far as the role tests can see:
      a falsy value (`null`, `false`, `0`, "") or a truthy one whose three role flags are
      taken by truthiness (a missing flag reads as false). */
  datatype Parsed = Falsy | Truthy(isChef: bool, isSuperuser: bool, isStaff: bool)

  /** The store's entries: `getItem(k)` is `Some(entries[k])` when `k` is held. */
  function GetItem(entries: map<string, string>, k: string): Option<string> {
    if k in entries then Some(entries[k]) else None
  }

  /** `getUserFromLocalStorage`: `null` (falsy) when the "user" entry is absent or empty,
      else its parsed text. `parse` stands for `JSON.parse`. */
  function StoredUser(entries: map<string, string>, parse: string -> Parsed): (u: Parsed)
    ensures GetItem(entries, "user") == None || GetItem(entries, "user") == Some("") ==> u == Falsy
    ensures "user" in entries && entries["user"] != "" ==> u == parse(entries["user"])
  {
    var raw := GetItem(entries, "user");
    if raw.None? || raw.value == "" then Falsy else parse(raw.value)
  }

  /** `JSON.parse(localStorage.getItem("user") || "null")`, the reading `isAdminOrChef` and the
      header use. */
  function UserOrNull(entries: map<string, string>, parse: string -> Parsed): Parsed {
    var raw := GetItem(entries, "user");
    parse(if raw.None? || raw.value == "" then "null" else raw.value)
  }

  /** The two ways of reading the user agree, since `JSON.parse("null")` is `null`. */
  lemma ReadingsAgree(entries: map<string, string>, parse: string -> Parsed)
    requires parse("null") == Falsy
    ensures UserOrNull(entries, parse) == StoredUser(entries, parse)
  {
  }

  /** `isAuthenticated`: a user is stored. */
  predicate IsAuthenticated(entries: map<string, string>, parse: string -> Parsed) {
    StoredUser(entries, parse).Truthy?
  }

  /** `isAdminOrChef`: the stored user is a department head or a superuser. */
  predicate IsAdminOrChef(entries: map<string, string>, parse: string -> Parsed) {
    var u := UserOrNull(entries, parse);
    u.Truthy? && (u.isChef || u.isSuperuser)
  }

  /** `isChef`: a user is stored and is a department head. */
  predicate IsChef(entries: map<string, string>, parse: string -> Parsed) {
    var u := StoredUser(entries, parse);
    u.Truthy? && u.isChef
  }

  /** The role tests nest: a head is an admin-or-head, and an admin-or-head is signed in; the
      staff flag alone passes none of the role tests. */
  lemma RolesNest(entries: map<string, string>, parse: string -> Parsed)
    requires parse("null") == Falsy
    ensures IsChef(entries, parse) ==> IsAdminOrChef(entries, parse)
    ensures IsAdminOrChef(entries, parse) ==> IsAuthenticated(entries, parse)
    ensures IsAdminOrChef(entries, parse) <==>
              IsAuthenticated(entries, parse) &&
              (StoredUser(entries, parse).isChef || StoredUser(entries, parse).isSuperuser)
  {
    ReadingsAgree(entries, parse);
  }

  /** Without a stored user (absent or empty entry) nobody is signed in and no role holds. */
  lemma NoUserNoRole(entries: map<string, string>, parse: string -> Parsed)
    requires "user" !in entries || entries["user"] == ""
    requires parse("null") == Falsy
    ensures !IsAuthenticated(entries, parse) && !IsAdminOrChef(entries, parse) && !IsChef(entries, parse)
  {
  }

  /** What a protected route renders: its children, or a redirection. */
  datatype Rendered<T> = Children(page: T) | Redirect(to: string)

  /** `ProtectedRoute`: the children for an admin or head, else a redirection to "/accueil". */
  function ProtectedRoute<T>(entries: map<string, string>, parse: string -> Parsed, children: T): (r: Rendered<T>)
    ensures r == Children(children) <==> IsAdminOrChef(entries, parse)
    ensures r.Redirect? ==> r.to == "/accueil"
  {
    if IsAdminOrChef(entries, parse) then Children(children) else Redirect("/accueil")
  }

  /* ---------- The store ---------- */

  /** The entries left once "access" and "user" are removed. */
  function WithoutSession(entries: map<string, string>): map<string, string> {
    entries - {"access", "user"}
  }

  /** Removing the session drops exactly "access" and "user": every other entry ("refresh"
      among them) keeps its value, and nobody is signed in afterwards. */
  lemma WithoutSessionKeeps(entries: map<string, string>, parse: string -> Parsed, k: string)
    ensures "access" !in WithoutSession(entries) && "user" !in WithoutSession(entries)
    ensures k != "access" && k != "user" ==>
              GetItem(WithoutSession(entries), k) == GetItem(entries, k)
    ensures !IsAuthenticated(WithoutSession(entries), parse)
  {
  }

  /** `localStorage`. */
  class Storage {
    var entries: map<string, string>

    constructor(init: map<string, string>)
      ensures entries == init
    {
      entries := init;
    }

    /** `getItem(k)`. */
    function Get(k: string): (r: Option<string>)
      reads this
      ensures r.Some? <==> k in entries
      ensures r.Some? ==> r.value == entries[k]
    {
      GetItem(entries, k)
    }

    /** `removeItem(k)`: the entry goes, the others stay. */
    method RemoveItem(k: string)
      modifies this
      ensures entries == old(entries) - {k}
    {
      entries := entries - {k};
    }
  }
}

/** The search box shared by the catalogue pages (tables of a theme, themes of a category,
    categories): a text filter over a display name and a pick that looks for an exact name. */
module Listing {
  import opened Wrappers
  import opened Strings
  import opened Collections

  /** The name of `x`, lower-cased, contains the (already lower-cased) query `q`. */
  predicate NameMatches<T>(name: T -> string, q: string, x: T) { Contains(Lower(name(x)), q) }

  /** `query.trim().toLowerCase()`, and the list when that is empty, else the items whose
      lower-cased name contains it, in their order. */
  function TextFiltered<T(==,!new)>(items: seq<T>, name: T -> string, query: string): seq<T> {
    var q := Lower(Trim(query));
    if q == "" then items else Filter(items, (x: T) => NameMatches(name, q, x))
  }

  /** A blank query (empty or white space only) keeps every item. */
  lemma TextFilteredBlank<T(!new)>(items: seq<T>, name: T -> string, query: string)
    requires forall i :: 0 <= i < |query| ==> IsJsSpace(query[i])
    ensures TextFiltered(items, name, query) == items
  {
    StripEmptyIff(query, IsJsSpace);
  }

  /** An item is kept iff it is listed and, for a non-blank query, its lower-cased name
      contains the trimmed, lower-cased query; a list in key order stays in key order. */
  lemma TextFilteredKeeps<T(!new)>(items: seq<T>, name: T -> string, query: string, key: T -> int, x: T)
    ensures x in TextFiltered(items, name, query) <==>
            x in items && (Lower(Trim(query)) == "" || Contains(Lower(name(x)), Lower(Trim(query))))
    ensures SortedBy(items, key) ==> SortedBy(TextFiltered(items, name, query), key)
  {
    var q := Lower(Trim(query));
    if q != "" && SortedBy(items, key) {
      FilterSortedBy(items, (x: T) => NameMatches(name, q, x), key);
    }
  }

  /** A non-blank query that some name does not contain hides that item. */
  lemma TextFilteredHides<T(!new)>(items: seq<T>, name: T -> string, query: string, x: T)
    requires Lower(Trim(query)) != "" && !Contains(Lower(name(x)), Lower(Trim(query)))
    ensures x !in TextFiltered(items, name, query)
  {
  }

  /** The name of `x` equals `val` up to case. */
  predicate SameName<T>(name: T -> string, val: string, x: T) { Lower(name(x)) == Lower(val) }

  /** `items.find(x => name(x).toLowerCase() === val.toLowerCase())`. */
  function Pick<T>(items: seq<T>, name: T -> string, val: string): Option<T> {
    Find(items, (x: T) => SameName(name, val, x))
  }

  /** The pick finds an item iff some name equals the value up to case, and then the first. */
  lemma PickFirst<T>(items: seq<T>, name: T -> string, val: string)
    ensures Pick(items, name, val).Some? <==> exists i :: 0 <= i < |items| && SameName(name, val, items[i])
    ensures Pick(items, name, val).Some? ==>
              exists i :: 0 <= i < |items| && SameName(name, val, items[i]) &&
                (forall j :: 0 <= j < i ==> !SameName(name, val, items[j])) &&
                Pick(items, name, val) == Some(items[i])
  {
    FindFirst(items, (x: T) => SameName(name, val, x));
  }

  /* ---------- Card decoration rules ---------- */

  /** A decoration rule: the value chosen when the lower-cased name contains one of the
      patterns. */
  datatype Rule<K> = Rule(patterns: seq<string>, value: K)

  predicate Fires<K>(r: Rule<K>, n: string) { exists i :: 0 <= i < |r.patterns| && Contains(n, r.patterns[i]) }

  lemma FiresOne<K>(r: Rule<K>, n: string)
    requires |r.patterns| == 1
    ensures Fires(r, n) <==> Contains(n, r.patterns[0])
  {
    if Contains(n, r.patterns[0]) {
      assert Contains(n, r.patterns[0]);
    }
  }

  lemma FiresTwo<K>(r: Rule<K>, n: string)
    requires |r.patterns| == 2
    ensures Fires(r, n) <==> Contains(n, r.patterns[0]) || Contains(n, r.patterns[1])
  {
    if Contains(n, r.patterns[0]) {
      assert Contains(n, r.patterns[0]);
    } else if Contains(n, r.patterns[1]) {
      assert Contains(n, r.patterns[1]);
    }
  }

  /** The value of the first rule that fires on `n`, or `otherwise` when none does. */
  function FirstRule<K>(rules: seq<Rule<K>>, n: string, otherwise: K): K
    decreases |rules|
  {
    if |rules| == 0 then otherwise
    else if Fires(rules[0], n) then rules[0].value
    else FirstRule(rules[1..], n, otherwise)
  }

  /** The first rule that fires decides, whatever the later rules say. */
  lemma {:induction false} FirstRuleDecides<K>(rules: seq<Rule<K>>, n: string, otherwise: K, k: nat)
    requires k < |rules| && Fires(rules[k], n) && forall j :: 0 <= j < k ==> !Fires(rules[j], n)
    ensures FirstRule(rules, n, otherwise) == rules[k].value
    decreases k
  {
    if k > 0 {
      assert !Fires(rules[0], n);
      FirstRuleDecides(rules[1..], n, otherwise, k - 1);
    }
  }

  /** When no rule fires, the fallback is chosen. */
  lemma {:induction false} FirstRuleFallback<K>(rules: seq<Rule<K>>, n: string, otherwise: K)
    requires forall j :: 0 <= j < |rules| ==> !Fires(rules[j], n)
    ensures FirstRule(rules, n, otherwise) == otherwise
    decreases |rules|
  {
    if |rules| > 0 {
      assert !Fires(rules[0], n);
      FirstRuleFallback(rules[1..], n, otherwise);
    }
  }
}

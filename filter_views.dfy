/** The back end's filter views: the option lists of the filter panel
    (`TableauFiltresOptionsView`), the line and column filter shared by `TableauFiltreView` and
    `TableauFiltreStructureView`, and the filtered structure. */
module FilterViews {
  import opened Wrappers
  import opened Strings
  import opened Collections
  import opened Payload
  import opened StructureView

  /** The error of a request for a table that does not exist (HTTP 404). */
  const NOT_FOUND: string := "Tableau non trouvé"

  /* ---------- Filter options ---------- */

  /** The line labels of a table's records, read as the structure views read them
      (`x.strip() if x else ""`). */
  function LineSet(ds: seq<Donnee>): set<string> {
    if |ds| == 0 then {} else LineSet(ds[..|ds| - 1]) + {Label(ds[|ds| - 1].ligne)}
  }

  /** The column labels of a table's records, read the same way. */
  function ColumnSet(ds: seq<Donnee>): set<string> {
    if |ds| == 0 then {} else ColumnSet(ds[..|ds| - 1]) + {Label(ds[|ds| - 1].colonne)}
  }

  /** A record `d.ligne.strip()` or `d.colonne.strip()` cannot read: its line or its column is
      NULL (`Donnees.ligne` is a nullable foreign key). */
  predicate NullLabel(d: Donnee) {
    d.ligne.None? || d.colonne.None?
  }

  /** The error the options view as written ends in: `None.strip()` raises `AttributeError`,
      which the framework answers with HTTP 500. */
  const SERVER_ERROR: string := "AttributeError"

  /** The key each label is grouped under: the stripped text before its first `~`, or the
      label itself. */
  function KeysOf(ls: seq<string>): (r: seq<string>)
    ensures |r| == |ls| && forall i :: 0 <= i < |ls| ==> r[i] == SplitLabel(ls[i]).0
  {
    seq(|ls|, i requires 0 <= i < |ls| => SplitLabel(ls[i]).0)
  }

  /** A `defaultdict(list)` read: the list under `k`, empty when `k` was never touched. */
  function SubsAt(m: map<string, seq<string>>, k: string): seq<string> {
    if k in m then m[k] else []
  }

  /** `lignes_groupées` after the labels `ls`: each key with the sub-labels met under it, in
      order; a label without `~` only creates its key. */
  function OptionSubs(ls: seq<string>): map<string, seq<string>> {
    if |ls| == 0 then map[]
    else
      var m := OptionSubs(ls[..|ls| - 1]);
      var l := ls[|ls| - 1];
      var k := SplitLabel(l).0;
      m[k := if '~' in l then SubsAt(m, k) + [SplitLabel(l).1] else SubsAt(m, k)]
  }

  /** `f"{indicateur} ~ {sous}"`. */
  function OptionText(k: string, s: string): string { k + " ~ " + s }

  /** The entries one key contributes: one per sub-label, or the key alone. */
  function KeyEntries(k: string, subs: seq<string>): seq<string> {
    if |subs| == 0 then [k] else seq(|subs|, i requires 0 <= i < |subs| => OptionText(k, subs[i]))
  }

  /** `lignes_finales`: the entries of the keys, key after key. */
  function Finales(keys: seq<string>, m: map<string, seq<string>>): seq<string> {
    if |keys| == 0 then []
    else Finales(keys[..|keys| - 1], m) + KeyEntries(keys[|keys| - 1], SubsAt(m, keys[|keys| - 1]))
  }

  /** What an option list offers for the stripped labels `labels`: "ind ~ sous" for each label
      with a `~`, and a label without `~` only when no label with a `~` has it as its key. */
  ghost predicate Offered(labels: set<string>, x: string) {
    (exists l :: l in labels && '~' in l && x == OptionText(SplitLabel(l).0, SplitLabel(l).1))
    || (x in labels && '~' !in x && forall l :: l in labels && '~' in l ==> SplitLabel(l).0 != x)
  }

  /** `r` holds, with their multiplicities, the entries `lignes_finales` gets from a walk `ls`
      of the set `labels` (a set has no order of its own; any walk that lists each label once). */
  ghost predicate OptionsOfWalk(labels: set<string>, r: seq<string>) {
    exists ls: seq<string> :: NoDup(ls) && (forall y :: y in ls <==> y in labels)
      && multiset(r) == multiset(Finales(Dedup(KeysOf(ls)), OptionSubs(ls)))
  }

  /** Two labels that differ only in the spaces around `~` give the same entry twice: the
      option list of `a~b` and `a ~b` is `["a ~ b", "a ~ b"]`. */
  lemma OptionsDuplicateExample(l1: string, l2: string)
    requires l1 == "a~b" && l2 == "a ~b"
    ensures Finales(Dedup(KeysOf([l1, l2])), OptionSubs([l1, l2])) == ["a ~ b", "a ~ b"]
  {
    SplitLabelSpacing();
    assert '~' in l1 && '~' in l2 by { assert l1[1] == '~' && l2[2] == '~'; }
    SameSplitTwice(l1, l2, "a", "b");
    OptionTextSpacing();
  }

  lemma OptionTextSpacing()
    ensures OptionText("a", "b") == "a ~ b"
  {
  }

  /** Two labels with a `~` that split alike give their one entry twice. */
  lemma SameSplitTwice(l1: string, l2: string, k: string, sub: string)
    requires '~' in l1 && '~' in l2 && SplitLabel(l1) == (k, sub) && SplitLabel(l2) == (k, sub)
    ensures Finales(Dedup(KeysOf([l1, l2])), OptionSubs([l1, l2])) == [OptionText(k, sub), OptionText(k, sub)]
  {
    var ls := [l1, l2];
    assert KeysOf(ls) == [k, k];
    DedupTwice(k);
    SubsTwice(l1, l2, k, sub);
    var m := OptionSubs(ls);
    FinalesOne(k, [sub, sub], m);
    KeyEntriesTwice(k, sub);
  }

  lemma KeyEntriesTwice(k: string, sub: string)
    ensures KeyEntries(k, [sub, sub]) == [OptionText(k, sub), OptionText(k, sub)]
  {
    var entries := KeyEntries(k, [sub, sub]);
    assert |entries| == 2 && entries[0] == OptionText(k, sub) && entries[1] == OptionText(k, sub);
  }

  lemma SubsTwice(l1: string, l2: string, k: string, sub: string)
    requires '~' in l1 && '~' in l2 && SplitLabel(l1) == (k, sub) && SplitLabel(l2) == (k, sub)
    ensures OptionSubs([l1, l2]) == map[k := [sub, sub]]
  {
    var e: seq<string> := [];
    var one := [l1];
    assert one[..0] == e;
    var m0: map<string, seq<string>> := map[];
    assert OptionSubs(e) == m0 && SubsAt(m0, k) == e;
    assert e + [sub] == [sub];
    assert OptionSubs(one) == m0[k := e + [sub]];
    assert m0[k := [sub]] == map[k := [sub]];
    var two := [l1, l2];
    assert two[..|two| - 1] == one && two[|two| - 1] == l2;
    var m1 := map[k := [sub]];
    assert SubsAt(m1, k) + [sub] == [sub, sub];
    assert OptionSubs(two) == m1[k := [sub, sub]];
  }

  lemma FinalesOne(k: string, subs: seq<string>, m: map<string, seq<string>>)
    requires k in m && m[k] == subs
    ensures Finales([k], m) == KeyEntries(k, subs)
  {
    var e: seq<string> := [];
    assert [k][..0] == e;
  }

  lemma DedupTwice(a: string)
    ensures Dedup([a, a]) == [a]
  {
    var e: seq<string> := [];
    assert [a][..0] == e;
    assert Dedup([a]) == [a];
    assert [a, a][..1] == [a];
  }

  /** `a~b` and `a ~b` both split into the key `a` and the sub-label `b`. */
  lemma SplitLabelSpacing()
    ensures SplitLabel("a~b") == ("a", "b") && SplitLabel("a ~b") == ("a", "b")
  {
    StripNoop("a", IsPySpace);
    StripNoop("b", IsPySpace);
    StripPadded("a", IsPySpace);
    assert "a" + " " == "a ";
    SplitAtTilde("a", "b");
    SplitAtTilde("a ", "b");
    assert "a" + "~" + "b" == "a~b" && "a " + "~" + "b" == "a ~b";
    assert "a~b"[1] == '~' && "a ~b"[2] == '~';
  }

  /** Cutting `k + "~" + s` at its first `~`, for a `k` without `~`, gives `k` and `s`. */
  lemma SplitAtTilde(k: string, s: string)
    requires '~' !in k
    ensures SplitFirst(k + "~" + s, '~') == (k, s)
  {
    var l := k + "~" + s;
    var r := IndexOf(l, '~');
    assert l[|k|] == '~';
    assert l[..|k|] == k && l[|k| + 1..] == s;
  }

  /** `TableauFiltresOptionsView.get` as written: the record loop calls `d.ligne.strip()` and
      `d.colonne.strip()` unguarded, so one record with a NULL label ends the request in a
      server error; otherwise both option lists, sorted. */
  method TableauFiltresOptionsAsWritten(table: Option<seq<Donnee>>)
    returns (r: Result<(seq<string>, seq<string>), string>)
    ensures table.None? ==> r == Failure(NOT_FOUND)
    ensures table.Some? ==> (r == Failure(SERVER_ERROR) <==> exists i :: 0 <= i < |table.value| && NullLabel(table.value[i]))
    ensures table.Some? && r.Success? ==>
      (forall x :: x in r.value.0 <==> Offered(LineSet(table.value), x))
      && (forall x :: x in r.value.1 <==> Offered(ColumnSet(table.value), x))
  {
    if table.None? {
      return Failure(NOT_FOUND);
    }
    var ds := table.value;
    for i := 0 to |ds|
      invariant forall k :: 0 <= k < i ==> !NullLabel(ds[k])
    {
      if NullLabel(ds[i]) {
        return Failure(SERVER_ERROR);
      }
    }
    r := TableauFiltresOptions(table);
  }

  /** `TableauFiltresOptionsView.get` with the labels read as the structure views read them:
      both option lists, sorted. */
  method TableauFiltresOptions(table: Option<seq<Donnee>>)
    returns (r: Result<(seq<string>, seq<string>), string>)
    ensures table.None? ==> r == Failure(NOT_FOUND)
    ensures table.Some? ==> (r.Success?
      && SortedStrings(r.value.0) && (forall x :: x in r.value.0 <==> Offered(LineSet(table.value), x))
      && SortedStrings(r.value.1) && (forall x :: x in r.value.1 <==> Offered(ColumnSet(table.value), x)))
  {
    if table.None? {
      return Failure(NOT_FOUND);
    }
    var lignesSet, colonnesSet := CollectLabels(table.value);
    var lignes := GroupOptions(lignesSet);
    var colonnes := GroupOptions(colonnesSet);
    r := Success((lignes, colonnes));
  }

  /** A table whose only record has no line: the view as written fails, the corrected one offers
      the blank line and the record's column. */
  lemma OptionsNullLineExample()
    ensures var ds := [Donnee(None, Some("2020"), Some("5"), None)];
      NullLabel(ds[0]) && Offered(LineSet(ds), "") && Offered(ColumnSet(ds), "2020")
  {
    var ds := [Donnee(None, Some("2020"), Some("5"), None)];
    assert ds[..0] == [];
    assert LineSet(ds) == {""};
    assert '~' !in "2020";
    StripNoop("2020", IsPySpace);
    assert ColumnSet(ds) == {"2020"};
  }

  /** The loop over the records: the two sets of labels. */
  method CollectLabels(ds: seq<Donnee>) returns (lignes: set<string>, colonnes: set<string>)
    ensures lignes == LineSet(ds) && colonnes == ColumnSet(ds)
  {
    lignes, colonnes := {}, {};
    for i := 0 to |ds|
      invariant lignes == LineSet(ds[..i]) && colonnes == ColumnSet(ds[..i])
    {
      assert ds[..i + 1][..i] == ds[..i];
      lignes := lignes + {Label(ds[i].ligne)};
      colonnes := colonnes + {Label(ds[i].colonne)};
    }
    assert ds[..|ds|] == ds;
  }

  /** One option list: the labels grouped by key, listed key by key, then `sorted`. The set is
      walked in an order the model leaves open. */
  method GroupOptions(labels: set<string>) returns (r: seq<string>)
    ensures SortedStrings(r)
    ensures forall x :: x in r <==> Offered(labels, x)
    ensures OptionsOfWalk(labels, r)
  {
    var ls := SetToSeq(labels);
    var keys, subs := GroupLabels(ls);
    KeysInSubs(ls);
    var finales := ListOptions(keys, subs);
    r := SortStrings(finales);
    assert multiset(r) == multiset(Finales(Dedup(KeysOf(ls)), OptionSubs(ls)));
    forall x ensures x in r <==> Offered(labels, x) {
      assert x in r <==> x in multiset(finales);
      OfferedIff(ls, labels, x);
    }
  }

  /** The first loop: fills `lignes_groupées`, whose key order is kept in `keys`. */
  method GroupLabels(ls: seq<string>) returns (keys: seq<string>, subs: map<string, seq<string>>)
    ensures keys == Dedup(KeysOf(ls)) && subs == OptionSubs(ls)
  {
    keys, subs := [], map[];
    for i := 0 to |ls|
      invariant keys == Dedup(KeysOf(ls[..i])) && subs == OptionSubs(ls[..i])
    {
      keys, subs := AddLabel(ls, i, keys, subs);
    }
    assert ls[..|ls|] == ls;
  }

  /** The body of the first loop, for the label `ls[i]`. */
  method AddLabel(ls: seq<string>, i: nat, keys: seq<string>, subs: map<string, seq<string>>)
    returns (keys': seq<string>, subs': map<string, seq<string>>)
    requires i < |ls|
    requires keys == Dedup(KeysOf(ls[..i])) && subs == OptionSubs(ls[..i])
    ensures keys' == Dedup(KeysOf(ls[..i + 1])) && subs' == OptionSubs(ls[..i + 1])
  {
    var l := ls[i];
    var k := SplitLabel(l).0;
    LabelPrefixStep(ls, i);
    OptionSubsKeys(ls[..i], k);
    DedupSnoc(KeysOf(ls[..i]), k);
    keys' := if k in subs then keys else keys + [k];
    if '~' in l {
      var sous := SplitLabel(l).1;
      var cur := if k in subs then subs[k] else [];
      subs' := subs[k := cur + [sous]];
    } else if k in subs {
      subs' := subs;
      assert subs == subs[k := subs[k]];
    } else {
      subs' := subs[k := []];
    }
    OptionSubsStep(ls, i, subs);
  }

  lemma OptionSubsStep(ls: seq<string>, i: nat, m: map<string, seq<string>>)
    requires i < |ls| && m == OptionSubs(ls[..i])
    ensures var k := SplitLabel(ls[i]).0;
      OptionSubs(ls[..i + 1]) == m[k := if '~' in ls[i] then SubsAt(m, k) + [SplitLabel(ls[i]).1] else SubsAt(m, k)]
  {
    assert ls[..i + 1][..i] == ls[..i];
  }

  lemma LabelPrefixStep(ls: seq<string>, i: nat)
    requires i < |ls|
    ensures ls[..i + 1][..i] == ls[..i] && ls[..i + 1][i] == ls[i]
    ensures KeysOf(ls[..i + 1]) == KeysOf(ls[..i]) + [SplitLabel(ls[i]).0]
  {
    assert ls[..i + 1][..i] == ls[..i];
  }

  /** The second loop: `lignes_finales`, key by key. */
  method ListOptions(keys: seq<string>, subs: map<string, seq<string>>) returns (finales: seq<string>)
    requires forall k :: k in keys ==> k in subs
    ensures finales == Finales(keys, subs)
  {
    finales := [];
    for j := 0 to |keys|
      invariant finales == Finales(keys[..j], subs)
    {
      var k := keys[j];
      finales := AddEntries(finales, k, subs[k]);
      assert keys[..j + 1][..j] == keys[..j];
    }
    assert keys[..|keys|] == keys;
  }

  /** The inner loop: one entry per sub-label, or the key alone. */
  method AddEntries(finales: seq<string>, k: string, sous: seq<string>) returns (r: seq<string>)
    ensures r == finales + KeyEntries(k, sous)
  {
    if |sous| == 0 {
      return finales + [k];
    }
    ghost var entries := KeyEntries(k, sous);
    r := finales;
    for t := 0 to |sous|
      invariant r == finales + entries[..t]
    {
      assert entries[..t + 1] == entries[..t] + [OptionText(k, sous[t])];
      r := r + [OptionText(k, sous[t])];
    }
    assert entries[..|sous|] == entries;
  }

  /** Every key of `lignes_groupées` was created by one of the labels. */
  lemma {:induction false} OptionSubsKeys(ls: seq<string>, k: string)
    ensures k in OptionSubs(ls) <==> k in KeysOf(ls)
  {
    if |ls| > 0 {
      var n := |ls| - 1;
      OptionSubsKeys(ls[..n], k);
      LabelPrefixStep(ls, n);
      assert ls[..n + 1] == ls;
    }
  }

  lemma KeysInSubs(ls: seq<string>)
    ensures forall k :: k in Dedup(KeysOf(ls)) ==> k in OptionSubs(ls)
  {
    forall k | k in Dedup(KeysOf(ls)) ensures k in OptionSubs(ls) {
      OptionSubsKeys(ls, k);
    }
  }

  /** `ls[i]` is a label with a `~` whose key is `k` and whose sub-label is `s`. */
  predicate TildeAt(ls: seq<string>, i: int, k: string, s: string) {
    0 <= i < |ls| && '~' in ls[i] && SplitLabel(ls[i]) == (k, s)
  }

  /** A sub-label listed under a key comes from a label with a `~` under that key. */
  lemma {:induction false} ListedSubHasLabel(ls: seq<string>, k: string, s: string) returns (i: nat)
    requires s in SubsAt(OptionSubs(ls), k)
    ensures TildeAt(ls, i, k, s)
  {
    var n := |ls| - 1;
    SubsAtSnoc(ls, k);
    if s in SubsAt(OptionSubs(ls[..n]), k) {
      i := ListedSubHasLabel(ls[..n], k, s);
      TildeAtPrefix(ls, n, i, k, s);
    } else {
      i := n;
    }
  }

  /** The sub-label of every label with a `~` is listed under its key. */
  lemma {:induction false} LabelSubListed(ls: seq<string>, i: nat, k: string, s: string)
    requires TildeAt(ls, i, k, s)
    ensures s in SubsAt(OptionSubs(ls), k)
  {
    var n := |ls| - 1;
    if i < n {
      TildeAtPrefix(ls, n, i, k, s);
      LabelSubListed(ls[..n], i, k, s);
      ListedStaysListed(ls, k, s);
    } else {
      LastListed(ls, i, k, s);
    }
  }

  lemma ListedStaysListed(ls: seq<string>, k: string, s: string)
    requires |ls| > 0 && s in SubsAt(OptionSubs(ls[..|ls| - 1]), k)
    ensures s in SubsAt(OptionSubs(ls), k)
  {
    SubsAtSnoc(ls, k);
  }

  lemma LastListed(ls: seq<string>, i: nat, k: string, s: string)
    requires i == |ls| - 1 && TildeAt(ls, i, k, s)
    ensures s in SubsAt(OptionSubs(ls), k)
  {
    SubsAtSnoc(ls, k);
  }

  lemma SubsAtSnoc(ls: seq<string>, k: string)
    requires |ls| > 0
    ensures var n := |ls| - 1;
      SubsAt(OptionSubs(ls), k)
      == SubsAt(OptionSubs(ls[..n]), k) + (if '~' in ls[n] && SplitLabel(ls[n]).0 == k then [SplitLabel(ls[n]).1] else [])
  {
    var n := |ls| - 1;
    OptionSubsStep(ls, n, OptionSubs(ls[..n]));
    assert ls[..n + 1] == ls;
  }

  lemma TildeAtPrefix(ls: seq<string>, n: nat, i: nat, k: string, s: string)
    requires i < n <= |ls|
    ensures TildeAt(ls[..n], i, k, s) <==> TildeAt(ls, i, k, s)
  {
    assert ls[..n][i] == ls[i];
  }

  /** A key is listed by the sequence `Finales` when one of its entries is. */
  lemma {:induction false} FinalesMembers(keys: seq<string>, m: map<string, seq<string>>, x: string)
    ensures x in Finales(keys, m) <==> exists j :: 0 <= j < |keys| && x in KeyEntries(keys[j], SubsAt(m, keys[j]))
  {
    if |keys| > 0 {
      var n := |keys| - 1;
      var init := keys[..n];
      FinalesMembers(init, m, x);
      forall j | 0 <= j < n ensures init[j] == keys[j] {
      }
    }
  }

  lemma KeyEntriesMembers(k: string, subs: seq<string>, x: string)
    ensures x in KeyEntries(k, subs) <==> (|subs| == 0 && x == k) || (exists s :: s in subs && x == OptionText(k, s))
  {
    var e := KeyEntries(k, subs);
    if |subs| > 0 {
      if x in e {
        var i :| 0 <= i < |e| && e[i] == x;
        assert subs[i] in subs;
      }
      if exists s :: s in subs && x == OptionText(k, s) {
        var s :| s in subs && x == OptionText(k, s);
        var i :| 0 <= i < |subs| && subs[i] == s;
        assert e[i] == x;
      }
    }
  }

  /** The listed entries are exactly the offered ones. */
  lemma OfferedIff(ls: seq<string>, labels: set<string>, x: string)
    requires forall y :: y in ls <==> y in labels
    ensures x in Finales(Dedup(KeysOf(ls)), OptionSubs(ls)) <==> Offered(labels, x)
  {
    var keys := Dedup(KeysOf(ls));
    var m := OptionSubs(ls);
    FinalesMembers(keys, m, x);
    if x in Finales(keys, m) {
      var j :| 0 <= j < |keys| && x in KeyEntries(keys[j], SubsAt(m, keys[j]));
      ListedIsOffered(ls, labels, keys[j], x);
    }
    if Offered(labels, x) {
      var k := OfferedKey(ls, labels, x);
      var j :| 0 <= j < |keys| && keys[j] == k;
      assert x in KeyEntries(keys[j], SubsAt(m, keys[j]));
    }
  }

  /** An entry listed under a key is offered. */
  lemma ListedIsOffered(ls: seq<string>, labels: set<string>, k: string, x: string)
    requires forall y :: y in ls <==> y in labels
    requires k in KeysOf(ls) && x in KeyEntries(k, SubsAt(OptionSubs(ls), k))
    ensures Offered(labels, x)
  {
    var subs := SubsAt(OptionSubs(ls), k);
    KeyEntriesMembers(k, subs, x);
    if |subs| > 0 {
      var s :| s in subs && x == OptionText(k, s);
      var i := ListedSubHasLabel(ls, k, s);
      assert ls[i] in labels;
    } else {
      var i :| 0 <= i < |ls| && KeysOf(ls)[i] == k;
      if '~' in ls[i] {
        LabelSubListed(ls, i, k, SplitLabel(ls[i]).1);
        assert false;
      }
      assert ls[i] in labels && ls[i] == x;
      forall l | l in labels && '~' in l ensures SplitLabel(l).0 != x {
        var i' :| 0 <= i' < |ls| && ls[i'] == l;
        if SplitLabel(l).0 == x {
          LabelSubListed(ls, i', x, SplitLabel(l).1);
          assert false;
        }
      }
    }
  }

  /** An offered entry is listed under its key. */
  lemma OfferedKey(ls: seq<string>, labels: set<string>, x: string) returns (k: string)
    requires forall y :: y in ls <==> y in labels
    requires Offered(labels, x)
    ensures k in Dedup(KeysOf(ls)) && x in KeyEntries(k, SubsAt(OptionSubs(ls), k))
  {
    if exists l :: l in labels && '~' in l && x == OptionText(SplitLabel(l).0, SplitLabel(l).1) {
      var l :| l in labels && '~' in l && x == OptionText(SplitLabel(l).0, SplitLabel(l).1);
      var i :| 0 <= i < |ls| && ls[i] == l;
      k := SplitLabel(l).0;
      assert KeysOf(ls)[i] == k;
      var s := SplitLabel(l).1;
      LabelSubListed(ls, i, k, s);
      KeyEntriesMembers(k, SubsAt(OptionSubs(ls), k), x);
    } else {
      var i :| 0 <= i < |ls| && ls[i] == x;
      k := x;
      assert KeysOf(ls)[i] == k;
      var subs := SubsAt(OptionSubs(ls), k);
      if |subs| > 0 {
        var i' := ListedSubHasLabel(ls, k, subs[0]);
        assert false;
      }
    }
  }

  /* ---------- The line and column filter ---------- */

  /** The `ligne` a selected line matches: `"ind~sous"` when the stripped part after the first
      `~` is non-blank and not "ensemble" in any case, the stripped indicator otherwise. */
  function LineCondition(sel: string): string {
    var parts := Split(sel, '~');
    var ind := PyStrip(parts[0]);
    if |parts| > 1 && PyStrip(parts[1]) != "" && Lower(PyStrip(parts[1])) != "ensemble" then
      ind + "~" + PyStrip(parts[1])
    else ind
  }

  /** A record passes the filter: its `ligne` is one of the selected lines' conditions, and its
      `colonne` one of the selected columns; an empty selection restricts nothing. */
  predicate Selected(d: Donnee, lignes: seq<string>, colonnes: seq<string>) {
    (|lignes| == 0 || exists j :: 0 <= j < |lignes| && d.ligne == Some(LineCondition(lignes[j])))
    && (|colonnes| == 0 || (d.colonne.Some? && d.colonne.value in colonnes))
  }

  /** The records of the table that pass the filter, in their order. */
  function FiltreRecords(ds: seq<Donnee>, lignes: seq<string>, colonnes: seq<string>): (r: seq<Donnee>)
    ensures forall d :: d in r <==> d in ds && Selected(d, lignes, colonnes)
  {
    Filter(ds, (d: Donnee) => Selected(d, lignes, colonnes))
  }

  /** `TableauFiltreView.post`: the filtered records, or the 404 error. */
  function TableauFiltre(table: Option<seq<Donnee>>, lignes: seq<string>, colonnes: seq<string>)
    : (r: Result<seq<Donnee>, string>)
    ensures table.None? <==> r == Failure(NOT_FOUND)
    ensures table.Some? ==> r.Success? && forall d :: d in r.value <==> d in table.value && Selected(d, lignes, colonnes)
  {
    if table.None? then Failure(NOT_FOUND) else Success(FiltreRecords(table.value, lignes, colonnes))
  }

  /** With nothing selected, every record is kept, in order. */
  lemma EmptySelectionKeepsAll(ds: seq<Donnee>)
    ensures FiltreRecords(ds, [], []) == ds
  {
    FilterAll(ds, (d: Donnee) => Selected(d, [], []));
  }

  /** A selected line without `~` matches its stripped text. */
  lemma PlainLineCondition(sel: string)
    requires '~' !in sel
    ensures LineCondition(sel) == PyStrip(sel)
  {
    SplitNone(sel, '~');
  }

  /** Selecting an offered "ind ~ sous" entry matches the stored line `ind~sous` it came from,
      except when the sub-label is "ensemble" in some case: that entry matches the indicator's
      own line. */
  lemma OfferedLineCondition(a: string, b: string)
    requires '~' !in a && '~' !in b && PyStrip(a) == a && PyStrip(b) == b && b != ""
    ensures LineCondition(OptionText(a, b)) == if Lower(b) != "ensemble" then a + "~" + b else a
  {
    OptionTextParts(a, b);
    LineConditionOfParts(OptionText(a, b), a, b);
  }

  lemma OptionTextParts(a: string, b: string)
    requires '~' !in a && '~' !in b && PyStrip(a) == a && PyStrip(b) == b
    ensures var parts := Split(OptionText(a, b), '~');
      |parts| == 2 && PyStrip(parts[0]) == a && PyStrip(parts[1]) == b
  {
    var x, y := a + " ", " " + b;
    assert IsPySpace(' ');
    StripPadded(a, IsPySpace);
    StripPadded(b, IsPySpace);
    assert '~' !in x && '~' !in y;
    OptionTextSplit(a, b);
    SplitOnce(x, '~', y);
    assert PyStrip(x) == a && PyStrip(y) == b;
  }

  /** The text of an entry, cut at its `~`. */
  lemma OptionTextSplit(a: string, b: string)
    ensures OptionText(a, b) == (a + " ") + ['~'] + (" " + b)
  {
    assert " ~ " == (" " + ['~']) + " ";
    ConcatAssoc(a, " " + ['~'], " ");
    ConcatAssoc(a, " ", ['~']);
    ConcatAssoc((a + " ") + ['~'], " ", b);
  }

  /** A selection with one `~` filters on `ind~sous` from its stripped parts, or on `ind` alone
      when `sous` is "ensemble" in any case. */
  lemma LineConditionOfParts(sel: string, a: string, b: string)
    requires var parts := Split(sel, '~'); |parts| == 2 && PyStrip(parts[0]) == a && PyStrip(parts[1]) == b
    requires b != ""
    ensures LineCondition(sel) == if Lower(b) != "ensemble" then a + "~" + b else a
  {
  }

  /** `Donnees.objects.filter(filtres).order_by('ligne')`: the filtered records sorted by
      `rank`, the key the database orders `ligne` by. `ligne` is a foreign key, so Django sorts
      by the related model's `Meta.ordering`, `LigneIndicateur.ordre`; `rank` stands for that
      key, and where nulls and ties go is the database's choice, fixed here by a stable sort. */
  function OrderedRecords(ds: seq<Donnee>, lignes: seq<string>, colonnes: seq<string>, rank: Donnee -> int)
    : (r: seq<Donnee>)
    ensures SortedBy(r, rank)
    ensures multiset(r) == multiset(FiltreRecords(ds, lignes, colonnes))
  {
    SortBy(FiltreRecords(ds, lignes, colonnes), rank)
  }

  /** `TableauFiltreStructureView.post`: the filtered records in `ligne` order, then the
      structure built as by the detail view with sorted sub-labels. */
  method FiltreStructure(table: Option<seq<Donnee>>, lignes: seq<string>, colonnes: seq<string>, rank: Donnee -> int)
    returns (r: Result<Structure, string>)
    ensures table.None? <==> r == Failure(NOT_FOUND)
    ensures table.Some? ==> (r.Success?
      && var cs := CleanAll(OrderedRecords(table.value, lignes, colonnes, rank));
         GroupsFor(r.value.colonnesGroupees, cs, true)
         && r.value.data == Data(cs)
         && r.value.hasSousIndicateurs == HasSubLine(cs))
    ensures table.Some? ==> (r.Success?
      && var keys := RowKeys(OrderedRecords(table.value, lignes, colonnes, rank));
         |r.value.data| == |keys| && forall i :: 0 <= i < |keys| ==> r.value.data[i].indicateur == keys[i])
    ensures table.Some? && FiltreRecords(table.value, lignes, colonnes) == [] ==> r == Success(Structure([], [], false))
  {
    if table.None? {
      return Failure(NOT_FOUND);
    }
    var donnees := OrderedRecords(table.value, lignes, colonnes, rank);
    if |donnees| == 0 {
      return Success(Structure([], [], false));
    }
    var s := BuildStructure(donnees, true);
    r := Success(s);
    forall i | 0 <= i < |s.data| ensures s.data[i].indicateur == RowKeys(donnees)[i] {
      RowShape(CleanAll(donnees), i);
    }
  }

  /** The indicators of the rows built from the records `s`, in row order: each once, in the
      order of their first record. */
  function RowKeys(s: seq<Donnee>): (r: seq<string>)
    ensures NoDup(r) && forall x :: x in r <==> exists i :: 0 <= i < |s| && Clean(s[i]).indicator == x
  {
    var inds := Indicators(CleanAll(s));
    assert forall i :: 0 <= i < |s| ==> inds[i] == Clean(s[i]).indicator;
    Dedup(inds)
  }

  /** The rows of the filtered structure follow the database order: the row of an indicator
      whose records all sort before every record of another indicator comes first. */
  lemma FiltreRowOrder(s: seq<Donnee>, rank: Donnee -> int, a: nat, b: nat)
    requires SortedBy(s, rank)
    requires a < |RowKeys(s)| && b < |RowKeys(s)|
    requires forall i, j ::
      (0 <= i < |s| && 0 <= j < |s|
       && Clean(s[i]).indicator == RowKeys(s)[a]
       && Clean(s[j]).indicator == RowKeys(s)[b]) ==> rank(s[i]) < rank(s[j])
    ensures a < b
  {
    var cs := CleanAll(s);
    var ks := RowKeys(s);
    assert ks[a] in Indicators(cs) && ks[b] in Indicators(cs);
    var ia := FirstIndex(Indicators(cs), ks[a]);
    var ib := FirstIndex(Indicators(cs), ks[b]);
    assert Clean(s[ia]).indicator == ks[a] && Clean(s[ib]).indicator == ks[b];
    assert rank(s[ia]) < rank(s[ib]);
    if b < a {
      DedupOrder(Indicators(cs), b, a);
      assert false;
    }
  }

  /** Two records of different lines arriving in the other order: the database order, not the
      arrival order, decides the order of the rows. */
  lemma FiltreOrderExample()
    ensures var b := Donnee(Some("B"), Some("2020"), Some("1"), None);
      var a := Donnee(Some("A"), Some("2020"), Some("2"), None);
      var rank := (d: Donnee) => if d.ligne == Some("A") then 0 else 1;
      OrderedRecords([b, a], [], [], rank) == [a, b]
  {
    var b := Donnee(Some("B"), Some("2020"), Some("1"), None);
    var a := Donnee(Some("A"), Some("2020"), Some("2"), None);
    var rank := (d: Donnee) => if d.ligne == Some("A") then 0 else 1;
    EmptySelectionKeepsAll([b, a]);
    assert [b, a][..1] == [b];
    assert [b][..0] == [];
  }
}

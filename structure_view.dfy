/** The back end's structure views (`TableauDetailStructureView` and the grouping half of
    `TableauFiltreStructureView`): they turn flat `Donnees` records into grouped columns, rows
    and sub-indicator rows. */
module StructureView {
  import opened Wrappers
  import opened Strings
  import opened Collections
  import opened Payload

  /** A `Donnees` record as these views read it. `valeur` is the number already rendered by the
      two-decimal formatting (`None` for a null value) and `unite` the stored unit. */
  datatype Donnee = Donnee(ligne: Option<string>, colonne: Option<string>, valeur: Option<string>, unite: Option<string>)

  /** `x.strip() if x else ""`. */
  function Label(x: Option<string>): string { PyStrip(x.GetOr("")) }

  /** A label cut at its first `~` into two stripped halves, or the label and `""`. */
  function SplitLabel(s: string): (string, string) {
    if '~' in s then
      var p := SplitFirst(s, '~');
      (PyStrip(p.0), PyStrip(p.1))
    else (s, "")
  }

  /** A record as the rest of the loop body sees it: the (principal, sub) column it writes
      (`col_principal`, `col_sous`), whether its row label names a sub-indicator (`A~B`), the
      indicator it belongs to (the stripped `A`, or the whole label), the sub-indicator name
      (the stripped `B`) and `valeur_finale`, the rendered number followed by the unit. */
  datatype Cleaned = Cleaned(column: ColumnItem, isSub: bool, indicator: string, subName: string, text: string)

  /** The first statements of the loop body. */
  function Clean(d: Donnee): Cleaned {
    var ligne := Label(d.ligne);
    var col := SplitLabel(Label(d.colonne));
    var row := SplitLabel(ligne);
    Cleaned(ColumnItem(col.0, col.1), '~' in ligne, row.0, row.1, d.valeur.GetOr("") + d.unite.GetOr(""))
  }

  function CleanAll(ds: seq<Donnee>): (r: seq<Cleaned>)
    ensures |r| == |ds| && forall i :: 0 <= i < |ds| ==> r[i] == Clean(ds[i])
  {
    seq(|ds|, i requires 0 <= i < |ds| => Clean(ds[i]))
  }

  /* ---------- What the views compute, record by record ---------- */

  function Principals(ds: seq<Cleaned>): (r: seq<string>)
    ensures |r| == |ds| && forall i :: 0 <= i < |ds| ==> r[i] == ds[i].column.principal
  {
    seq(|ds|, i requires 0 <= i < |ds| => ds[i].column.principal)
  }

  function Indicators(ds: seq<Cleaned>): (r: seq<string>)
    ensures |r| == |ds| && forall i :: 0 <= i < |ds| ==> r[i] == ds[i].indicator
  {
    seq(|ds|, i requires 0 <= i < |ds| => ds[i].indicator)
  }

  /** The sub-column labels seen under principal column `cp`. */
  function SubLabels(ds: seq<Cleaned>, cp: string): set<string> {
    if |ds| == 0 then {}
    else
      var c := ds[|ds| - 1].column;
      if c.principal == cp then SubLabels(ds[..|ds| - 1], cp) + {c.sous} else SubLabels(ds[..|ds| - 1], cp)
  }

  /** `valeurs[c.principal][c.sous] = t` on a `defaultdict(dict)`. */
  function Write(v: Valeurs, c: ColumnItem, t: string): Valeurs {
    v[c.principal := (if c.principal in v then v[c.principal] else map[])[c.sous := t]]
  }

  /** The cells a sequence of writes leaves behind. */
  function Cells(ws: seq<(ColumnItem, string)>): Valeurs {
    if |ws| == 0 then map[]
    else Write(Cells(ws[..|ws| - 1]), ws[|ws| - 1].0, ws[|ws| - 1].1)
  }

  /** The writes of the plain records (no `~` in the row label) of indicator `ind`. */
  function PlainWrites(ds: seq<Cleaned>, ind: string): seq<(ColumnItem, string)> {
    if |ds| == 0 then []
    else
      var d := ds[|ds| - 1];
      if !d.isSub && d.indicator == ind then PlainWrites(ds[..|ds| - 1], ind) + [(d.column, d.text)]
      else PlainWrites(ds[..|ds| - 1], ind)
  }

  /** A pending sub-indicator entry `{"nom": B, "valeurs": {cp: {cs: v}}}`; it holds one cell. */
  datatype SubEntry = SubEntry(nom: string, cell: ColumnItem, text: string)

  function EntryOf(d: Cleaned): SubEntry { SubEntry(d.subName, d.column, d.text) }

  /** The pending entries of indicator `ind`: one per `ind~B` record, in record order. */
  function SubEntries(ds: seq<Cleaned>, ind: string): seq<SubEntry> {
    if |ds| == 0 then []
    else
      var d := ds[|ds| - 1];
      if d.isSub && d.indicator == ind then SubEntries(ds[..|ds| - 1], ind) + [EntryOf(d)]
      else SubEntries(ds[..|ds| - 1], ind)
  }

  function Noms(subs: seq<SubEntry>): (r: seq<string>)
    ensures |r| == |subs| && forall i :: 0 <= i < |subs| ==> r[i] == subs[i].nom
  {
    seq(|subs|, i requires 0 <= i < |subs| => subs[i].nom)
  }

  /** The writes of the pending entries named `nom`. */
  function NomWrites(subs: seq<SubEntry>, nom: string): seq<(ColumnItem, string)> {
    if |subs| == 0 then []
    else
      var e := subs[|subs| - 1];
      if e.nom == nom then NomWrites(subs[..|subs| - 1], nom) + [(e.cell, e.text)]
      else NomWrites(subs[..|subs| - 1], nom)
  }

  /** The emitted sub-indicators: one per name, in first-occurrence order, each with the cells
      its entries write. */
  function Regrouped(subs: seq<SubEntry>): seq<SousIndicateur> {
    var ns := Dedup(Noms(subs));
    seq(|ns|, i requires 0 <= i < |ns| => SousIndicateur(ns[i], Cells(NomWrites(subs, ns[i]))))
  }

  /** The row emitted for indicator `ind`. */
  function RowOf(ds: seq<Cleaned>, ind: string): Row {
    RowFrom(ind, SubEntries(ds, ind), Cells(PlainWrites(ds, ind)))
  }

  /** The row of an indicator with pending entries `pending` and plain cells `cells`: its
      sub-indicators when it has pending entries (the plain cells are then dropped), else its
      plain cells. */
  function RowFrom(ind: string, pending: seq<SubEntry>, cells: Valeurs): Row {
    if |pending| > 0 then Row(ind, None, None, Some(Regrouped(pending)), false)
    else Row(ind, None, Some(cells), None, false)
  }

  /** `data`: one row per indicator, in first-occurrence order. */
  function Data(ds: seq<Cleaned>): seq<Row> {
    var ks := Dedup(Indicators(ds));
    seq(|ks|, i requires 0 <= i < |ks| => RowOf(ds, ks[i]))
  }

  predicate HasSubLine(ds: seq<Cleaned>) { exists i :: 0 <= i < |ds| && ds[i].isSub }

  /** The label list of a principal column with sub-labels `subs`: each label once (sorted when
      `sorted`), or `[""]` when every label is blank. */
  ghost predicate LabelsFor(l: seq<string>, subs: set<string>, sorted: bool) {
    if exists s :: s in subs && s != "" then
      NoDup(l) && (forall x :: x in l <==> x in subs) && (sorted ==> SortedStrings(l))
    else l == [""]
  }

  /** `colonnes_groupées` as the views build it from `ds`. */
  ghost predicate GroupsFor(groups: Groups, ds: seq<Cleaned>, sorted: bool) {
    var ks := Dedup(Principals(ds));
    |groups| == |ks|
    && forall i :: 0 <= i < |groups| ==> groups[i].0 == ks[i] && LabelsFor(groups[i].1, SubLabels(ds, ks[i]), sorted)
  }

  /* ---------- The dictionaries as the loops fill them ---------- */

  /** `colonnes_principales` (a `defaultdict(set)`) after the records `ds`. */
  function ColumnSets(ds: seq<Cleaned>): map<string, set<string>> {
    if |ds| == 0 then map[]
    else
      var m := ColumnSets(ds[..|ds| - 1]);
      var c := ds[|ds| - 1].column;
      m[c.principal := (if c.principal in m then m[c.principal] else {}) + {c.sous}]
  }

  /** The `sous_indicateurs` lists of `structure` after the records `ds`. */
  function PendingSubs(ds: seq<Cleaned>): map<string, seq<SubEntry>> {
    if |ds| == 0 then map[]
    else
      var m := PendingSubs(ds[..|ds| - 1]);
      var d := ds[|ds| - 1];
      var before := if d.indicator in m then m[d.indicator] else [];
      m[d.indicator := if d.isSub then before + [EntryOf(d)] else before]
  }

  /** The `valeurs` dictionaries of `structure` after the records `ds`. */
  function PlainCells(ds: seq<Cleaned>): map<string, Valeurs> {
    if |ds| == 0 then map[]
    else
      var m := PlainCells(ds[..|ds| - 1]);
      var d := ds[|ds| - 1];
      var before := if d.indicator in m then m[d.indicator] else map[];
      m[d.indicator := if d.isSub then before else Write(before, d.column, d.text)]
  }

  /** `regroupé` after the entries `subs`. */
  function RegroupMap(subs: seq<SubEntry>): map<string, Valeurs> {
    if |subs| == 0 then map[]
    else
      var m := RegroupMap(subs[..|subs| - 1]);
      var e := subs[|subs| - 1];
      m[e.nom := Write(if e.nom in m then m[e.nom] else map[], e.cell, e.text)]
  }

  /* ---------- The views' loops ---------- */

  /** The structure view on the records `ds` (in query order); `sorted` selects the filtered
      view, which sorts each column's sub-labels. */
  method BuildStructure(ds: seq<Donnee>, sorted: bool) returns (s: Structure)
    ensures GroupsFor(s.colonnesGroupees, CleanAll(ds), sorted)
    ensures s.data == Data(CleanAll(ds))
    ensures s.hasSousIndicateurs == HasSubLine(CleanAll(ds))
    ensures |ds| == 0 ==> s == Structure([], [], false)
  {
    if |ds| == 0 {
      return Structure([], [], false);
    }
    ghost var cs := CleanAll(ds);
    var colKeys, colSubs, keys, subs, vals := CollectRecords(CleanAll(ds));
    forall k | k in colKeys ensures k in colSubs && colSubs[k] == SubLabels(cs, k) {
      ColumnSetsIs(cs, k);
    }
    var groups := GroupColumns(cs, colKeys, colSubs, sorted);
    forall k | k in keys
      ensures k in subs && k in vals && subs[k] == SubEntries(cs, k) && vals[k] == Cells(PlainWrites(cs, k))
    {
      StructureIs(cs, k);
    }
    var data := BuildRows(keys, subs, vals);
    DataIs(cs, keys, subs, vals, data);
    var hasSous := exists k | k in subs :: |subs[k]| > 0;
    HasSousOfMap(cs);
    s := Structure(groups, data, hasSous);
  }

  /** The loop over the records: fills `colonnes_principales` and `structure`, with the key
      order of Python dictionaries (order of first insertion) kept in `colKeys` and `keys`. */
  method CollectRecords(cs: seq<Cleaned>)
    returns (colKeys: seq<string>, colSubs: map<string, set<string>>,
             keys: seq<string>, subs: map<string, seq<SubEntry>>, vals: map<string, Valeurs>)
    ensures colKeys == Dedup(Principals(cs)) && colSubs == ColumnSets(cs)
    ensures keys == Dedup(Indicators(cs))
    ensures subs == PendingSubs(cs) && vals == PlainCells(cs)
  {
    colKeys, colSubs, keys, subs, vals := [], map[], [], map[], map[];
    var i := 0;
    while i < |cs|
      invariant 0 <= i <= |cs|
      invariant colKeys == Dedup(Principals(cs[..i])) && colSubs == ColumnSets(cs[..i])
      invariant keys == Dedup(Indicators(cs[..i]))
      invariant subs == PendingSubs(cs[..i]) && vals == PlainCells(cs[..i])
    {
      colKeys, colSubs := AddColumn(cs, i, colKeys, colSubs);
      keys, subs, vals := AddRecord(cs, i, keys, subs, vals);
      i := i + 1;
    }
    assert cs[..|cs|] == cs;
  }

  /** `colonnes_principales[col_principal].add(col_sous)` for record `i`; a missing key reads
      as the empty set and is remembered in `colKeys`. */
  method AddColumn(cs: seq<Cleaned>, i: nat, colKeys: seq<string>, colSubs: map<string, set<string>>)
    returns (colKeys': seq<string>, colSubs': map<string, set<string>>)
    requires i < |cs|
    requires colKeys == Dedup(Principals(cs[..i])) && colSubs == ColumnSets(cs[..i])
    ensures colKeys' == Dedup(Principals(cs[..i + 1])) && colSubs' == ColumnSets(cs[..i + 1])
  {
    var c := cs[i].column;
    PrefixStep(cs, i);
    ColumnSetsIs(cs[..i], c.principal);
    DedupSnoc(Principals(cs[..i]), c.principal);
    colKeys' := if c.principal in colSubs then colKeys else colKeys + [c.principal];
    var sous := if c.principal in colSubs then colSubs[c.principal] else {};
    colSubs' := colSubs[c.principal := sous + {c.sous}];
  }

  /** The update of `structure` for record `i`: a record with `~` in its row label appends a
      pending entry, any other writes its cell; a missing indicator reads as no entries and no
      cells and is remembered in `keys`. */
  method AddRecord(cs: seq<Cleaned>, i: nat, keys: seq<string>, subs: map<string, seq<SubEntry>>, vals: map<string, Valeurs>)
    returns (keys': seq<string>, subs': map<string, seq<SubEntry>>, vals': map<string, Valeurs>)
    requires i < |cs|
    requires keys == Dedup(Indicators(cs[..i]))
    requires subs == PendingSubs(cs[..i]) && vals == PlainCells(cs[..i])
    ensures keys' == Dedup(Indicators(cs[..i + 1]))
    ensures subs' == PendingSubs(cs[..i + 1]) && vals' == PlainCells(cs[..i + 1])
  {
    var d := cs[i];
    var ind := d.indicator;
    PrefixStep(cs, i);
    StructureIs(cs[..i], ind);
    DedupSnoc(Indicators(cs[..i]), ind);
    keys' := if ind in subs then keys else keys + [ind];
    var pending := if ind in subs then subs[ind] else [];
    var cells := if ind in vals then vals[ind] else map[];
    if d.isSub {
      pending := pending + [EntryOf(d)];
    } else {
      cells := Write(cells, d.column, d.text);
    }
    subs' := subs[ind := pending];
    vals' := vals[ind := cells];
  }

  /** The `colonnes_groupées` comprehension: `list(sous)` (sorted in the filtered view) when some
      sub-label is non-blank, else `[""]`. */
  method GroupColumns(ghost ds: seq<Cleaned>, colKeys: seq<string>, colSubs: map<string, set<string>>, sorted: bool)
    returns (groups: Groups)
    requires colKeys == Dedup(Principals(ds))
    requires forall k :: k in colKeys ==> k in colSubs && colSubs[k] == SubLabels(ds, k)
    ensures GroupsFor(groups, ds, sorted)
  {
    groups := [];
    var i := 0;
    while i < |colKeys|
      invariant 0 <= i <= |colKeys| && |groups| == i
      invariant forall j :: 0 <= j < i ==> groups[j].0 == colKeys[j] && LabelsFor(groups[j].1, SubLabels(ds, colKeys[j]), sorted)
    {
      var col := colKeys[i];
      var l := ColumnLabels(colSubs[col], sorted);
      groups := groups + [(col, l)];
      i := i + 1;
    }
  }

  /** One value of the comprehension. */
  method ColumnLabels(sous: set<string>, sorted: bool) returns (l: seq<string>)
    ensures LabelsFor(l, sous, sorted)
  {
    if exists s | s in sous :: s != "" {
      l := SetToSeq(sous);
      if sorted {
        var u := SortStrings(l);
        NoDupOfPermutation(l, u);
        assert forall x :: x in u <==> x in multiset(l);
        l := u;
      }
    } else {
      l := [""];
    }
  }

  /** The loop over `structure`: one row per indicator, in key order. */
  method BuildRows(keys: seq<string>, subs: map<string, seq<SubEntry>>, vals: map<string, Valeurs>)
    returns (data: seq<Row>)
    requires forall k :: k in keys ==> k in subs && k in vals
    ensures |data| == |keys|
    ensures forall j :: 0 <= j < |keys| ==> data[j] == RowFrom(keys[j], subs[keys[j]], vals[keys[j]])
  {
    data := [];
    var i := 0;
    while i < |keys|
      invariant 0 <= i <= |keys| && |data| == i
      invariant forall j :: 0 <= j < i ==> data[j] == RowFrom(keys[j], subs[keys[j]], vals[keys[j]])
    {
      var ind := keys[i];
      var row;
      if |subs[ind]| > 0 {
        var regroupe := RegroupSubIndicators(subs[ind]);
        row := Row(ind, None, None, Some(regroupe), false);
      } else {
        row := Row(ind, None, Some(vals[ind]), None, false);
      }
      data := data + [row];
      i := i + 1;
    }
  }

  /** The rows built from `structure` are `data`. */
  lemma DataIs(ds: seq<Cleaned>, keys: seq<string>, subs: map<string, seq<SubEntry>>, vals: map<string, Valeurs>, data: seq<Row>)
    requires keys == Dedup(Indicators(ds))
    requires forall k :: k in keys ==> k in subs && k in vals && subs[k] == SubEntries(ds, k) && vals[k] == Cells(PlainWrites(ds, k))
    requires |data| == |keys|
    requires forall j :: 0 <= j < |keys| ==> data[j] == RowFrom(keys[j], subs[keys[j]], vals[keys[j]])
    ensures data == Data(ds)
  {
    forall j | 0 <= j < |keys| ensures data[j] == RowOf(ds, keys[j]) {
      assert keys[j] in keys;
    }
  }

  /** Regroups the pending entries of one indicator by name. */
  method RegroupSubIndicators(subs: seq<SubEntry>) returns (r: seq<SousIndicateur>)
    ensures r == Regrouped(subs)
  {
    var noms: seq<string> := [];
    var regroupe: map<string, Valeurs> := map[];
    var j := 0;
    while j < |subs|
      invariant 0 <= j <= |subs|
      invariant noms == Dedup(Noms(subs[..j])) && regroupe == RegroupMap(subs[..j])
    {
      noms, regroupe := AddEntry(subs, j, noms, regroupe);
      j := j + 1;
    }
    assert subs[..|subs|] == subs;
    r := ListGroups(subs, noms, regroupe);
  }

  /** One pass of the regrouping loop: entry `j` joins the group of its name, which is created
      empty (and its name remembered) the first time the name is seen. */
  method AddEntry(subs: seq<SubEntry>, j: nat, noms: seq<string>, regroupe: map<string, Valeurs>)
    returns (noms': seq<string>, regroupe': map<string, Valeurs>)
    requires j < |subs|
    requires noms == Dedup(Noms(subs[..j])) && regroupe == RegroupMap(subs[..j])
    ensures noms' == Dedup(Noms(subs[..j + 1])) && regroupe' == RegroupMap(subs[..j + 1])
  {
    var e := subs[j];
    EntryStep(subs, j);
    RegroupMapIs(subs[..j], e.nom);
    DedupSnoc(Noms(subs[..j]), e.nom);
    // regroupé[nom][c][sc] = val: a missing name reads as an empty group
    noms' := if e.nom in regroupe then noms else noms + [e.nom];
    var group := if e.nom in regroupe then regroupe[e.nom] else map[];
    regroupe' := regroupe[e.nom := Write(group, e.cell, e.text)];
  }

  /** The `sous_indicateurs` list, in order of first occurrence of each name. */
  method ListGroups(ghost subs: seq<SubEntry>, noms: seq<string>, regroupe: map<string, Valeurs>)
    returns (r: seq<SousIndicateur>)
    requires noms == Dedup(Noms(subs)) && regroupe == RegroupMap(subs)
    ensures r == Regrouped(subs)
  {
    r := [];
    var k := 0;
    while k < |noms|
      invariant 0 <= k <= |noms| && |r| == k
      invariant forall m :: 0 <= m < k ==> r[m] == SousIndicateur(noms[m], Cells(NomWrites(subs, noms[m])))
    {
      RegroupMapIs(subs, noms[k]);
      r := r + [SousIndicateur(noms[k], regroupe[noms[k]])];
      k := k + 1;
    }
  }

  /** One more record: what the specification reads grows by that record. */
  lemma PrefixStep(cs: seq<Cleaned>, i: nat)
    requires i < |cs|
    ensures cs[..i + 1][..i] == cs[..i] && cs[..i + 1][i] == cs[i]
    ensures Principals(cs[..i + 1]) == Principals(cs[..i]) + [cs[i].column.principal]
    ensures Indicators(cs[..i + 1]) == Indicators(cs[..i]) + [cs[i].indicator]
    ensures var m := ColumnSets(cs[..i]); var c := cs[i].column;
      ColumnSets(cs[..i + 1]) == m[c.principal := (if c.principal in m then m[c.principal] else {}) + {c.sous}]
    ensures var m := PendingSubs(cs[..i]); var d := cs[i];
      var before := if d.indicator in m then m[d.indicator] else [];
      PendingSubs(cs[..i + 1]) == m[d.indicator := if d.isSub then before + [EntryOf(d)] else before]
    ensures var m := PlainCells(cs[..i]); var d := cs[i];
      var before := if d.indicator in m then m[d.indicator] else map[];
      PlainCells(cs[..i + 1]) == m[d.indicator := if d.isSub then before else Write(before, d.column, d.text)]
  {
    var q := cs[..i + 1];
    assert q[..i] == cs[..i];
    assert q[..|q| - 1] == cs[..i] && q[|q| - 1] == cs[i];
  }

  /** One more entry: what the specification reads grows by that entry. */
  lemma EntryStep(subs: seq<SubEntry>, j: nat)
    requires j < |subs|
    ensures subs[..j + 1][..j] == subs[..j] && subs[..j + 1][j] == subs[j]
    ensures Noms(subs[..j + 1]) == Noms(subs[..j]) + [subs[j].nom]
    ensures var m := RegroupMap(subs[..j]); var e := subs[j];
      RegroupMap(subs[..j + 1]) == m[e.nom := Write(if e.nom in m then m[e.nom] else map[], e.cell, e.text)]
  {
    var q := subs[..j + 1];
    assert q[..j] == subs[..j];
    assert q[..|q| - 1] == subs[..j] && q[|q| - 1] == subs[j];
  }

  /** The last record: the record sequences the specification reads end with it. */
  lemma LastStep(cs: seq<Cleaned>)
    requires |cs| > 0
    ensures Principals(cs) == Principals(cs[..|cs| - 1]) + [cs[|cs| - 1].column.principal]
    ensures Indicators(cs) == Indicators(cs[..|cs| - 1]) + [cs[|cs| - 1].indicator]
  {
    PrefixStep(cs, |cs| - 1);
    assert cs[..|cs|] == cs;
  }

  /** `colonnes_principales` has one key per principal column seen, holding its sub-labels. */
  lemma {:induction false} ColumnSetsIs(cs: seq<Cleaned>, cp: string)
    ensures cp in ColumnSets(cs) <==> cp in Principals(cs)
    ensures cp in ColumnSets(cs) ==> ColumnSets(cs)[cp] == SubLabels(cs, cp)
  {
    if |cs| > 0 {
      ColumnSetsIs(cs[..|cs| - 1], cp);
      LastStep(cs);
      if cp !in Principals(cs[..|cs| - 1]) {
        UnseenColumn(cs[..|cs| - 1], cp);
      }
    }
  }

  /** A principal column no record names has no sub-labels. */
  lemma {:induction false} UnseenColumn(cs: seq<Cleaned>, cp: string)
    requires cp !in Principals(cs)
    ensures SubLabels(cs, cp) == {}
  {
    if |cs| > 0 {
      LastStep(cs);
      UnseenColumn(cs[..|cs| - 1], cp);
    }
  }

  /** An indicator no record names has no entries and no plain writes. */
  lemma {:induction false} UnnamedIndicator(cs: seq<Cleaned>, ind: string)
    requires ind !in Indicators(cs)
    ensures SubEntries(cs, ind) == [] && PlainWrites(cs, ind) == []
  {
    if |cs| > 0 {
      LastStep(cs);
      UnnamedIndicator(cs[..|cs| - 1], ind);
    }
  }

  /** `structure` has one key per indicator seen, holding its pending entries and plain cells. */
  lemma {:induction false} StructureIs(cs: seq<Cleaned>, ind: string)
    ensures ind in PendingSubs(cs) <==> ind in Indicators(cs)
    ensures ind in PlainCells(cs) <==> ind in Indicators(cs)
    ensures ind in PendingSubs(cs) ==> PendingSubs(cs)[ind] == SubEntries(cs, ind)
    ensures ind in PlainCells(cs) ==> PlainCells(cs)[ind] == Cells(PlainWrites(cs, ind))
  {
    if |cs| > 0 {
      var p := cs[..|cs| - 1];
      var d := cs[|cs| - 1];
      StructureIs(p, ind);
      LastStep(cs);
      if ind !in Indicators(p) {
        UnnamedIndicator(p, ind);
      }
      if d.indicator == ind && !d.isSub {
        CellsSnoc(PlainWrites(p, ind), (d.column, d.text));
      }
    }
  }

  lemma CellsSnoc(ws: seq<(ColumnItem, string)>, w: (ColumnItem, string))
    ensures Cells(ws + [w]) == Write(Cells(ws), w.0, w.1)
  {
    assert (ws + [w])[..|ws|] == ws;
  }

  /** `regroupé` has one key per name, holding the cells its entries write. */
  lemma {:induction false} RegroupMapIs(subs: seq<SubEntry>, n: string)
    ensures n in RegroupMap(subs) <==> n in Noms(subs)
    ensures n in RegroupMap(subs) ==> RegroupMap(subs)[n] == Cells(NomWrites(subs, n))
  {
    if |subs| > 0 {
      var j := |subs| - 1;
      var p := subs[..j];
      var e := subs[j];
      RegroupMapIs(p, n);
      EntryStep(subs, j);
      assert subs[..j + 1] == subs;
      if n == e.nom {
        if n !in Noms(p) {
          CellsOfNoWrites(p, n);
        }
        CellsSnoc(NomWrites(p, n), (e.cell, e.text));
      }
    }
  }

  /** `any(row.get("sous_indicateurs") ...)` over `structure` is the existence of a record with
      a sub-indicator row label. */
  lemma HasSousOfMap(cs: seq<Cleaned>)
    ensures (exists k | k in PendingSubs(cs) :: |PendingSubs(cs)[k]| > 0) <==> HasSubLine(cs)
  {
    var m := PendingSubs(cs);
    if HasSubLine(cs) {
      var i :| 0 <= i < |cs| && cs[i].isSub;
      var k := cs[i].indicator;
      assert Indicators(cs)[i] == k;
      StructureIs(cs, k);
      SubEntriesIff(cs, k, i);
      assert k in m && |m[k]| > 0;
    }
    forall k | k in m && |m[k]| > 0 ensures HasSubLine(cs) {
      StructureIs(cs, k);
      SubEntriesFrom(cs, k, m[k][0]);
    }
  }

  /** A name that no entry carries has no writes. */
  lemma {:induction false} CellsOfNoWrites(subs: seq<SubEntry>, nom: string)
    requires nom !in Noms(subs)
    ensures NomWrites(subs, nom) == [] && Cells(NomWrites(subs, nom)) == map[]
  {
    if |subs| > 0 {
      var p := subs[..|subs| - 1];
      assert Noms(subs)[|subs| - 1] == subs[|subs| - 1].nom;
      assert nom !in Noms(p) by {
        forall i | 0 <= i < |p| ensures Noms(p)[i] != nom {
          assert Noms(p)[i] == Noms(subs)[i];
        }
      }
      CellsOfNoWrites(p, nom);
    }
  }

  /** An indicator has pending entries iff one of its records is a sub-indicator record. */
  lemma {:induction false} SubEntriesIff(ds: seq<Cleaned>, ind: string, i: nat)
    requires i < |ds| && ds[i].isSub && ds[i].indicator == ind
    ensures |SubEntries(ds, ind)| > 0
  {
    var n := |ds| - 1;
    if i < n {
      SubEntriesIff(ds[..n], ind, i);
    }
  }

  /** Every pending entry comes from a sub-indicator record of that indicator. */
  lemma {:induction false} SubEntriesFrom(ds: seq<Cleaned>, ind: string, e: SubEntry)
    requires e in SubEntries(ds, ind)
    ensures exists i :: (0 <= i < |ds| && ds[i].isSub && ds[i].indicator == ind
                         && e == SubEntry(ds[i].subName, ds[i].column, ds[i].text))
  {
    var n := |ds| - 1;
    var d := ds[n];
    if e !in SubEntries(ds[..n], ind) {
      assert d.isSub && d.indicator == ind && e == SubEntry(d.subName, d.column, d.text);
    } else {
      SubEntriesFrom(ds[..n], ind, e);
      var i :| 0 <= i < n && ds[..n][i].isSub && ds[..n][i].indicator == ind
        && e == SubEntry(ds[..n][i].subName, ds[..n][i].column, ds[..n][i].text);
      assert ds[..n][i] == ds[i];
    }
  }

  /** A column's sub-labels are exactly the sub halves of the labels written under it. */
  lemma {:induction false} SubLabelsIff(ds: seq<Cleaned>, cp: string, s: string)
    ensures s in SubLabels(ds, cp) <==> exists i :: 0 <= i < |ds| && ds[i].column == ColumnItem(cp, s)
  {
    if |ds| > 0 {
      var n := |ds| - 1;
      SubLabelsIff(ds[..n], cp, s);
      if exists i :: 0 <= i < |ds| && ds[i].column == ColumnItem(cp, s) {
        var i :| 0 <= i < |ds| && ds[i].column == ColumnItem(cp, s);
        if i < n {
          assert ds[..n][i] == ds[i];
        }
      }
      if exists i :: 0 <= i < n && ds[..n][i].column == ColumnItem(cp, s) {
        var i :| 0 <= i < n && ds[..n][i].column == ColumnItem(cp, s);
        assert ds[..n][i] == ds[i];
      }
    }
  }

  /** A write sets its own cell and no other. */
  lemma LookupWrite(v: Valeurs, c: ColumnItem, t: string, a: string, b: string)
    ensures Lookup(Write(v, c, t), a, b) == if c == ColumnItem(a, b) then Some(t) else Lookup(v, a, b)
  {
  }

  /** Some write of `ws` targets cell `c`. */
  predicate Written(ws: seq<(ColumnItem, string)>, c: ColumnItem) {
    exists i :: 0 <= i < |ws| && ws[i].0 == c
  }

  /** Write `i` is the last of `ws` that targets cell `c`. */
  predicate LastWrite(ws: seq<(ColumnItem, string)>, c: ColumnItem, i: int) {
    0 <= i < |ws| && ws[i].0 == c && forall j :: i < j < |ws| ==> ws[j].0 != c
  }

  /** A cell is present iff some write targets it. */
  lemma {:induction false} CellsWritten(ws: seq<(ColumnItem, string)>, c: ColumnItem)
    ensures Lookup(Cells(ws), c.principal, c.sous).Some? <==> Written(ws, c)
  {
    if |ws| > 0 {
      var n := |ws| - 1;
      var p := ws[..n];
      CellsWritten(p, c);
      LookupWrite(Cells(p), ws[n].0, ws[n].1, c.principal, c.sous);
      if ws[n].0 != c && Written(ws, c) {
        var i :| 0 <= i < |ws| && ws[i].0 == c;
        assert p[i].0 == c;
      }
      if Written(p, c) {
        var i :| 0 <= i < |p| && p[i].0 == c;
        assert ws[i].0 == c;
      }
    }
  }

  /** A present cell holds the text of the last write to it: a later record for the same cell
      overwrites an earlier one. */
  lemma {:induction false} CellsLastWrite(ws: seq<(ColumnItem, string)>, c: ColumnItem, i: int)
    requires LastWrite(ws, c, i)
    ensures Lookup(Cells(ws), c.principal, c.sous) == Some(ws[i].1)
  {
    var n := |ws| - 1;
    var p := ws[..n];
    LookupWrite(Cells(p), ws[n].0, ws[n].1, c.principal, c.sous);
    if i < n {
      assert ws[n].0 != c;
      assert LastWrite(p, c, i) by {
        forall j | i < j < |p| ensures p[j].0 != c {
          assert p[j] == ws[j];
        }
      }
      CellsLastWrite(p, c, i);
    }
  }

  /** Example: the second of two records for the same cell wins. */
  lemma CellsOverwriteExample()
    ensures Cells([(ColumnItem("2013", ""), "5"), (ColumnItem("2013", ""), "7")])["2013"][""] == "7"
  {
    var ws := [(ColumnItem("2013", ""), "5"), (ColumnItem("2013", ""), "7")];
    assert ws[..1] == [(ColumnItem("2013", ""), "5")] && ws[..1][..0] == [];
  }

  /** Each emitted row is the indicator it stands for, and carries either its sub-indicators
      (when it has any; its plain cells are then dropped) or its plain cells. */
  lemma RowShape(ds: seq<Cleaned>, i: nat)
    requires i < |Data(ds)|
    ensures Data(ds)[i].indicateur == Dedup(Indicators(ds))[i]
    ensures Data(ds)[i].sousIndicateurs.Some? <==> Data(ds)[i].valeurs.None?
    ensures Data(ds)[i].sousIndicateurs.Some? <==>
      exists j :: 0 <= j < |ds| && ds[j].isSub && ds[j].indicator == Data(ds)[i].indicateur
  {
    var ind := Dedup(Indicators(ds))[i];
    if exists j :: 0 <= j < |ds| && ds[j].isSub && ds[j].indicator == ind {
      var j :| 0 <= j < |ds| && ds[j].isSub && ds[j].indicator == ind;
      SubEntriesIff(ds, ind, j);
    }
    if |SubEntries(ds, ind)| > 0 {
      SubEntriesFrom(ds, ind, SubEntries(ds, ind)[0]);
    }
  }

  /** Every indicator appears once, in order of first occurrence in the records. */
  lemma RowOrder(ds: seq<Cleaned>, a: nat, b: nat)
    requires a < b < |Data(ds)|
    ensures Data(ds)[a].indicateur != Data(ds)[b].indicateur
    ensures FirstIndex(Indicators(ds), Data(ds)[a].indicateur) < FirstIndex(Indicators(ds), Data(ds)[b].indicateur)
  {
    DedupOrder(Indicators(ds), a, b);
  }

  /** `has_sous_indicateurs` holds iff some emitted row carries sub-indicators. */
  lemma HasSousIff(ds: seq<Cleaned>)
    ensures HasSubLine(ds) <==> exists i :: 0 <= i < |Data(ds)| && Data(ds)[i].sousIndicateurs.Some?
  {
    var ks := Dedup(Indicators(ds));
    if HasSubLine(ds) {
      var j :| 0 <= j < |ds| && ds[j].isSub;
      var ind := ds[j].indicator;
      assert Indicators(ds)[j] == ind;
      assert ind in Indicators(ds) && ind in ks;
      var i :| 0 <= i < |ks| && ks[i] == ind;
      RowShape(ds, i);
    }
    forall i | 0 <= i < |Data(ds)| && Data(ds)[i].sousIndicateurs.Some? ensures HasSubLine(ds) {
      RowShape(ds, i);
    }
  }

  /** The sub-indicators of one indicator: one per name, in first-occurrence order, each holding
      the cells of the entries with that name. */
  lemma RegroupedNames(subs: seq<SubEntry>)
    ensures var r := Regrouped(subs);
      (forall i, j :: 0 <= i < j < |r| ==> r[i].nom != r[j].nom)
      && (forall n :: n in Noms(subs) <==> exists i :: 0 <= i < |r| && r[i].nom == n)
  {
    var r := Regrouped(subs);
    var ns := Dedup(Noms(subs));
    forall n | n in Noms(subs) ensures exists i :: 0 <= i < |r| && r[i].nom == n {
      var i :| 0 <= i < |ns| && ns[i] == n;
      assert r[i].nom == n;
    }
    forall i | 0 <= i < |r| ensures r[i].nom in Noms(subs) {
      assert r[i].nom == ns[i];
    }
  }
}

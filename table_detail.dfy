/** The table detail page (`TableauDetail`): the column axis, the header rows, cell lookup and
    formatting, the body, the status and projection legends, and the minimum table width. */
module TableDetail {
  import opened Wrappers
  import opened Strings
  import opened Collections
  import opened Payload
  import opened CellFormat
  import StructureView

  const COL_SPACING_X: nat := 1
  const LEFT1_MIN: nat := 180
  const LEFT2_MIN: nat := 140
  const DATA_MIN: nat := 96
  /** Census years: a projection table's columns for these years hold observed figures. */
  const ANNEES_RECENSEMENT: seq<string> := ["1977", "1988", "2000", "2013", "2023"]

  /* ---------- The column axis ---------- */

  /** The sub-column labels a principal column contributes: one blank label when it has none. */
  function SubsOf(sous: seq<string>): (r: seq<string>)
    ensures |r| >= 1
  {
    if |sous| == 0 then [""] else sous
  }

  function GroupItems(principal: string, sous: seq<string>): (r: seq<ColumnItem>)
    ensures |r| == |SubsOf(sous)|
    ensures forall k :: 0 <= k < |r| ==> r[k] == ColumnItem(principal, SubsOf(sous)[k])
  {
    var l := SubsOf(sous);
    seq(|l|, k requires 0 <= k < |l| => ColumnItem(principal, l[k]))
  }

  /** The column axis of `entries`: each principal column's items, group after group. */
  function FlatOrder(entries: Groups): seq<ColumnItem> {
    if |entries| == 0 then []
    else
      var last := entries[|entries| - 1];
      FlatOrder(entries[..|entries| - 1]) + GroupItems(last.0, last.1)
  }

  /** The number of data columns `entries` spans: one per sub-column, at least one per group. */
  function Width(entries: Groups): (n: nat)
    ensures n >= |entries|
  {
    if |entries| == 0 then 0
    else Width(entries[..|entries| - 1]) + |SubsOf(entries[|entries| - 1].1)|
  }

  /** `buildOrderFromGroups(groups)`. */
  method BuildOrderFromGroups(groups: Groups) returns (order: seq<ColumnItem>)
    ensures order == FlatOrder(ObjectEntries(groups))
  {
    var entries := ObjectEntries(groups);
    order := [];
    var i := 0;
    while i < |entries|
      invariant 0 <= i <= |entries|
      invariant order == FlatOrder(entries[..i])
    {
      order := PushGroup(order, entries[i].0, entries[i].1);
      FlatOrderSnoc(entries, i);
      i := i + 1;
    }
    assert entries[..|entries|] == entries;
  }

  /** The body of the `forEach`: one item per sub-column label, or one blank item. */
  method PushGroup(order: seq<ColumnItem>, principal: string, sous: seq<string>) returns (r: seq<ColumnItem>)
    ensures r == order + GroupItems(principal, sous)
  {
    var list := if |sous| > 0 then sous else [""];
    ghost var items := GroupItems(principal, sous);
    r := order;
    var k := 0;
    while k < |list|
      invariant 0 <= k <= |list|
      invariant r == order + items[..k]
    {
      assert items[..k + 1] == items[..k] + [ColumnItem(principal, list[k])];
      r := r + [ColumnItem(principal, list[k])];
      k := k + 1;
    }
    assert items[..k] == items;
  }

  lemma FlatOrderSnoc(entries: Groups, i: nat)
    requires i < |entries|
    ensures FlatOrder(entries[..i + 1]) == FlatOrder(entries[..i]) + GroupItems(entries[i].0, entries[i].1)
  {
    assert entries[..i + 1][..i] == entries[..i];
    assert entries[..i + 1][i] == entries[i];
  }

  /** The column axis of two runs of groups is the axis of the first followed by the second. */
  lemma {:induction false} FlatOrderAppend(a: Groups, b: Groups)
    ensures FlatOrder(a + b) == FlatOrder(a) + FlatOrder(b)
    decreases |b|
  {
    if |b| == 0 {
      assert a + b == a;
    } else {
      var n := |b| - 1;
      InitOfConcat(a, b);
      FlatOrderAppend(a, b[..n]);
      var g := GroupItems(b[n].0, b[n].1);
      calc {
        FlatOrder(a + b);
        FlatOrder(a + b[..n]) + g;
        (FlatOrder(a) + FlatOrder(b[..n])) + g;
        { ConcatAssoc(FlatOrder(a), FlatOrder(b[..n]), g); }
        FlatOrder(a) + (FlatOrder(b[..n]) + g);
        FlatOrder(a) + FlatOrder(b);
      }
    }
  }

  /** The axis has one item per sub-column, and one for each group without sub-columns. */
  lemma {:induction false} FlatOrderLength(entries: Groups)
    ensures |FlatOrder(entries)| == Width(entries)
  {
    if |entries| > 0 {
      FlatOrderLength(entries[..|entries| - 1]);
    }
  }

  /** Some group has principal label `p` and sub-label `s` (the blank one for a group without
      sub-columns). */
  predicate HasColumn(entries: Groups, p: string, s: string) {
    exists g :: 0 <= g < |entries| && entries[g].0 == p && s in SubsOf(entries[g].1)
  }

  /** An item is on the axis exactly when some group has that principal label and that
      sub-label. */
  lemma {:induction false} FlatOrderMembers(entries: Groups, p: string, s: string)
    ensures ColumnItem(p, s) in FlatOrder(entries) <==> HasColumn(entries, p, s)
  {
    if |entries| > 0 {
      var n := |entries| - 1;
      FlatOrderMembers(entries[..n], p, s);
      GroupItemsMembers(entries[n].0, entries[n].1, p, s);
      HasColumnSnoc(entries, p, s);
    }
  }

  lemma GroupItemsMembers(q: string, sous: seq<string>, p: string, s: string)
    ensures ColumnItem(p, s) in GroupItems(q, sous) <==> q == p && s in SubsOf(sous)
  {
    var items := GroupItems(q, sous);
    if ColumnItem(p, s) in items {
      var k :| 0 <= k < |items| && items[k] == ColumnItem(p, s);
    }
    if q == p && s in SubsOf(sous) {
      var k :| 0 <= k < |SubsOf(sous)| && SubsOf(sous)[k] == s;
      assert items[k] == ColumnItem(p, s);
    }
  }

  lemma HasColumnSnoc(entries: Groups, p: string, s: string)
    requires |entries| > 0
    ensures var n := |entries| - 1;
      HasColumn(entries, p, s) <==> HasColumn(entries[..n], p, s) || (entries[n].0 == p && s in SubsOf(entries[n].1))
  {
    var n := |entries| - 1;
    if HasColumn(entries, p, s) {
      var g :| 0 <= g < |entries| && entries[g].0 == p && s in SubsOf(entries[g].1);
      if g < n {
        assert entries[..n][g] == entries[g];
      }
    }
    if HasColumn(entries[..n], p, s) {
      var g :| 0 <= g < n && entries[..n][g].0 == p && s in SubsOf(entries[..n][g].1);
      assert entries[..n][g] == entries[g];
    }
  }

  /** The order the page uses: `colonnes_order` when the payload carries a non-empty one, the
      axis derived from `colonnes_groupées` otherwise, nothing before a payload arrives. */
  method SelectOrder(payload: Option<TablePayload>) returns (order: seq<ColumnItem>)
    ensures payload.None? ==> order == []
    ensures payload.Some? && |payload.value.colonnesOrder| > 0 ==> order == payload.value.colonnesOrder
    ensures payload.Some? && |payload.value.colonnesOrder| == 0
      ==> order == FlatOrder(ObjectEntries(payload.value.colonnesGroupees))
  {
    if payload.None? {
      order := [];
    } else if |payload.value.colonnesOrder| > 0 {
      order := payload.value.colonnesOrder;
    } else {
      order := BuildOrderFromGroups(payload.value.colonnesGroupees);
    }
  }

  /* ---------- Header shape ---------- */

  /** The header is a single row when there are columns and none has a sub-label. */
  predicate SingleHeaderRow(order: seq<ColumnItem>) {
    |order| > 0 && forall i :: 0 <= i < |order| ==> order[i].sous == ""
  }

  predicate NoSubLabels(entries: Groups) {
    forall g, k :: 0 <= g < |entries| && 0 <= k < |entries[g].1| ==> entries[g].1[k] == ""
  }

  /** On a derived axis, the header is a single row exactly when there is at least one group
      and no group names a sub-column. */
  lemma {:induction false} SingleHeaderRowOfGroups(entries: Groups)
    ensures SingleHeaderRow(FlatOrder(entries)) <==> |entries| > 0 && NoSubLabels(entries)
  {
    FlatOrderLength(entries);
    var order := FlatOrder(entries);
    if SingleHeaderRow(order) {
      forall g, k | 0 <= g < |entries| && 0 <= k < |entries[g].1| ensures entries[g].1[k] == "" {
        assert entries[g].1[k] in SubsOf(entries[g].1);
        FlatOrderMembers(entries, entries[g].0, entries[g].1[k]);
        var i :| 0 <= i < |order| && order[i] == ColumnItem(entries[g].0, entries[g].1[k]);
      }
    }
    if |entries| > 0 && NoSubLabels(entries) {
      forall i | 0 <= i < |order| ensures order[i].sous == "" {
        FlatOrderMembers(entries, order[i].principal, order[i].sous);
        var g :| 0 <= g < |entries| && entries[g].0 == order[i].principal
          && order[i].sous in SubsOf(entries[g].1);
      }
    }
  }

  predicate IsOld(p: TablePayload) {
    p.format == Some("ancien") || p.hasSousIndicateurs
  }

  /** Some row of an old-format table has sub-indicators: the page then adds a second label
      column. */
  predicate HasAnySubs(p: TablePayload) {
    IsOld(p) && exists i :: 0 <= i < |p.data| && RowSubs(p.data[i]) != []
  }

  /** `row.sous_indicateurs || []`. */
  function RowSubs(r: Row): seq<SousIndicateur> {
    r.sousIndicateurs.GetOr([])
  }

  /* ---------- Width arithmetic ---------- */

  function NCols(order: seq<ColumnItem>): nat {
    if |order| > 1 then |order| else 1
  }

  function SpacingPx(order: seq<ColumnItem>): nat {
    COL_SPACING_X * |order|
  }

  /** The `min-width` of the table, in pixels. */
  function MinTablePx(order: seq<ColumnItem>, hasAnySubs: bool): nat {
    (if hasAnySubs then LEFT1_MIN + LEFT2_MIN else LEFT1_MIN) + NCols(order) * DATA_MIN + SpacingPx(order)
  }

  /** Each data column gets at least `DATA_MIN` pixels plus its spacing, an empty axis still
      reserves one column, and the sub-indicator label column adds `LEFT2_MIN`. */
  lemma MinTableWidth(order: seq<ColumnItem>)
    ensures |order| > 0 ==> MinTablePx(order, false) == LEFT1_MIN + (DATA_MIN + COL_SPACING_X) * |order|
    ensures |order| == 0 ==> MinTablePx(order, false) == LEFT1_MIN + DATA_MIN
    ensures MinTablePx(order, true) == MinTablePx(order, false) + LEFT2_MIN
  {
  }

  /* ---------- Cells ---------- */

  /** `vals` holds the text `t` in some cell. */
  ghost predicate Holds(vals: Valeurs, t: string) {
    exists a, b :: Lookup(vals, a, b) == Some(t)
  }

  /** `getCell(vals, item)`: the cell (principal, sous), else the principal's unlabelled cell,
      else the transposed cell ("", principal), else "". */
  function GetCell(vals: Option<Valeurs>, item: ColumnItem): (r: string)
    ensures vals.Some? && Lookup(vals.value, item.principal, item.sous).Some?
      ==> r == Lookup(vals.value, item.principal, item.sous).value
    ensures r == "" || (vals.Some? && Holds(vals.value, r))
    ensures vals.None? ==> r == ""
  {
    if vals.None? then ""
    else
      var v := vals.value;
      var p := item.principal;
      match Lookup(v, p, item.sous)
      case Some(t) => t
      case None =>
        match Lookup(v, p, "")
        case Some(t) => t
        case None =>
          match Lookup(v, "", p)
          case Some(t) => t
          case None => ""
  }

  /** When the exact cell is missing, the lookup falls back to the principal's unlabelled cell
      and then to the transposed cell; when none is there the cell is blank. */
  lemma GetCellFallback(vals: Valeurs, item: ColumnItem)
    requires Lookup(vals, item.principal, item.sous).None?
    ensures Lookup(vals, item.principal, "").Some?
      ==> GetCell(Some(vals), item) == Lookup(vals, item.principal, "").value
    ensures Lookup(vals, item.principal, "").None? && Lookup(vals, "", item.principal).Some?
      ==> GetCell(Some(vals), item) == Lookup(vals, "", item.principal).value
    ensures Lookup(vals, item.principal, "").None? && Lookup(vals, "", item.principal).None?
      ==> GetCell(Some(vals), item) == ""
  {
  }

  /** The formatted cells of one body line: one per column of the axis. */
  function LineCells(vals: Option<Valeurs>, order: seq<ColumnItem>): (r: seq<string>)
    ensures |r| == |order|
    ensures forall i :: 0 <= i < |order| ==> r[i] == FormatCell(Some(GetCell(vals, order[i])))
  {
    seq(|order|, i requires 0 <= i < |order| => FormatCell(Some(GetCell(vals, order[i]))))
  }

  /** The body lines one row produces: in the old format a row with sub-indicators produces a
      line per sub-indicator, every other row a single line. */
  function RowLines(r: Row, order: seq<ColumnItem>, oldFormat: bool): seq<seq<string>> {
    var subs := RowSubs(r);
    if oldFormat && |subs| > 0 then
      seq(|subs|, k requires 0 <= k < |subs| => LineCells(Some(subs[k].valeurs), order))
    else [LineCells(r.valeurs, order)]
  }

  /** The body of the table, line by line. */
  function BodyLines(data: seq<Row>, order: seq<ColumnItem>, oldFormat: bool): seq<seq<string>> {
    if |data| == 0 then [] else BodyLines(data[..|data| - 1], order, oldFormat) + RowLines(data[|data| - 1], order, oldFormat)
  }

  /** The number of lines: the current format has one per row. */
  function LineCount(data: seq<Row>, oldFormat: bool): nat {
    if |data| == 0 then 0
    else
      var subs := RowSubs(data[|data| - 1]);
      LineCount(data[..|data| - 1], oldFormat) + (if oldFormat && |subs| > 0 then |subs| else 1)
  }

  /** The body is rectangular: every line has one cell per column of the axis, so a missing
      cell shows as "NA" rather than shifting the line. */
  lemma {:induction false} BodyRectangular(data: seq<Row>, order: seq<ColumnItem>, oldFormat: bool)
    ensures var lines := BodyLines(data, order, oldFormat);
      |lines| == LineCount(data, oldFormat) && forall l :: 0 <= l < |lines| ==> |lines[l]| == |order|
  {
    if |data| > 0 {
      BodyRectangular(data[..|data| - 1], order, oldFormat);
      var a := BodyLines(data[..|data| - 1], order, oldFormat);
      var b := RowLines(data[|data| - 1], order, oldFormat);
      forall l | 0 <= l < |a + b| ensures |(a + b)[l]| == |order| {
        if l < |a| {
          assert (a + b)[l] == a[l];
        } else {
          assert (a + b)[l] == b[l - |a|];
        }
      }
    }
  }

  /** The current format produces exactly one line per row. */
  lemma {:induction false} NewFormatLines(data: seq<Row>)
    ensures LineCount(data, false) == |data|
  {
    if |data| > 0 {
      NewFormatLines(data[..|data| - 1]);
    }
  }

  /** A cell the lookup cannot find reads "NA". */
  lemma MissingCellReadsNA(vals: Option<Valeurs>, item: ColumnItem)
    requires GetCell(vals, item) == ""
    ensures FormatCell(Some(GetCell(vals, item))) == "NA"
  {
  }

  /* ---------- First header row, current format: runs of equal principals ---------- */

  function Principals(order: seq<ColumnItem>): (r: seq<string>)
    ensures |r| == |order| && forall i :: 0 <= i < |order| ==> r[i] == order[i].principal
  {
    seq(|order|, i requires 0 <= i < |order| => order[i].principal)
  }

  /** The length of the run of equal labels `xs` starts with. */
  function RunLen(xs: seq<string>): (n: nat)
    requires |xs| > 0
    ensures 1 <= n <= |xs| && (n == |xs| || xs[n] != xs[0])
    ensures forall k :: 0 <= k < n ==> xs[k] == xs[0]
  {
    if |xs| == 1 || xs[1] != xs[0] then 1
    else
      var m := RunLen(xs[1..]);
      1 + m
  }

  lemma {:induction false} RunLenIs(xs: seq<string>, n: nat)
    requires 1 <= n <= |xs| && (n == |xs| || xs[n] != xs[0])
    requires forall k :: 0 <= k < n ==> xs[k] == xs[0]
    ensures RunLen(xs) == n
    decreases n
  {
    if n > 1 {
      RunLenIs(xs[1..], n - 1);
    }
  }

  /** The maximal runs of equal labels, each with its length. */
  function Runs(xs: seq<string>): seq<(string, nat)>
    decreases |xs|
  {
    if |xs| == 0 then [] else [(xs[0], RunLen(xs))] + Runs(xs[RunLen(xs)..])
  }

  /** The labels a list of (label, span) cells covers, column by column. */
  function Expand(cells: seq<(string, nat)>): seq<string> {
    if |cells| == 0 then [] else seq(cells[0].1, _ => cells[0].0) + Expand(cells[1..])
  }

  /** The cells of the first header row cover the axis exactly, in order. */
  lemma {:induction false} RunsExpand(xs: seq<string>)
    ensures Expand(Runs(xs)) == xs
    decreases |xs|
  {
    if |xs| > 0 {
      var n := RunLen(xs);
      var r := Runs(xs);
      assert r[0] == (xs[0], n) && r[1..] == Runs(xs[n..]);
      RunsExpand(xs[n..]);
      RunCovers(xs, n, Expand(r[1..]));
    }
  }

  /** A run of `n` copies of the first label, followed by the rest, is the whole list. */
  lemma RunCovers(xs: seq<string>, n: nat, tail: seq<string>)
    requires 1 <= n <= |xs| && forall k :: 0 <= k < n ==> xs[k] == xs[0]
    requires tail == xs[n..]
    ensures seq(n, _ => xs[0]) + tail == xs
  {
    assert seq(n, _ => xs[0]) == xs[..n];
  }

  /** Each cell spans at least one column, and neighbouring cells have different labels. */
  lemma {:induction false} RunsMaximal(xs: seq<string>)
    ensures forall i :: 0 <= i < |Runs(xs)| ==> Runs(xs)[i].1 >= 1
    ensures forall i :: 0 <= i < |Runs(xs)| - 1 ==> Runs(xs)[i].0 != Runs(xs)[i + 1].0
    decreases |xs|
  {
    if |xs| > 0 {
      var n := RunLen(xs);
      var r := Runs(xs);
      var t := Runs(xs[n..]);
      assert r == [(xs[0], n)] + t;
      RunsMaximal(xs[n..]);
      if |t| > 0 {
        assert t[0].0 == xs[n];
      }
      forall i | 0 <= i < |r| ensures r[i].1 >= 1 {
        if i > 0 {
          assert r[i] == t[i - 1];
        }
      }
      forall i | 0 <= i < |r| - 1 ensures r[i].0 != r[i + 1].0 {
        if i > 0 {
          assert r[i] == t[i - 1] && r[i + 1] == t[i];
        }
      }
    }
  }

  /** The run starting at `i` has length `span`, and the remaining runs start after it. */
  lemma RunsStep(order: seq<ColumnItem>, i: nat, span: nat)
    requires i < |order| && 1 <= span && i + span <= |order|
    requires i + span == |order| || order[i + span].principal != order[i].principal
    requires forall k :: i <= k < i + span ==> order[k].principal == order[i].principal
    ensures Runs(Principals(order)[i..]) == [(order[i].principal, span)] + Runs(Principals(order)[i + span..])
  {
    var rest := Principals(order)[i..];
    RunLenIs(rest, span);
    assert rest[span..] == Principals(order)[i + span..];
  }

  /** The inner loop: how far the principal at `i` repeats. */
  method RunSpan(order: seq<ColumnItem>, i: nat) returns (span: nat)
    requires i < |order|
    ensures 1 <= span && i + span <= |order|
    ensures i + span == |order| || order[i + span].principal != order[i].principal
    ensures forall k :: i <= k < i + span ==> order[k].principal == order[i].principal
  {
    var cur := order[i].principal;
    span := 1;
    var j := i + 1;
    while j < |order| && order[j].principal == cur
      invariant i < j <= |order| && span == j - i
      invariant forall k :: i <= k < j ==> order[k].principal == cur
    {
      span := span + 1;
      j := j + 1;
    }
  }

  /** `cells` are the runs of `xs` before position `i`. */
  ghost predicate RunsBefore(xs: seq<string>, cells: seq<(string, nat)>, i: nat) {
    i <= |xs| && cells + Runs(xs[i..]) == Runs(xs)
  }

  lemma RunsBeforeStart(xs: seq<string>)
    ensures RunsBefore(xs, [], 0)
  {
    assert xs[0..] == xs;
  }

  lemma RunsBeforeEnd(xs: seq<string>, cells: seq<(string, nat)>)
    requires RunsBefore(xs, cells, |xs|)
    ensures cells == Runs(xs)
  {
    assert xs[|xs|..] == [];
  }

  /** One turn of the outer loop: the run at `i` joins the cells. */
  lemma RunsBeforeStep(order: seq<ColumnItem>, cells: seq<(string, nat)>, i: nat, span: nat)
    requires RunsBefore(Principals(order), cells, i)
    requires i < |order| && 1 <= span && i + span <= |order|
    requires i + span == |order| || order[i + span].principal != order[i].principal
    requires forall k :: i <= k < i + span ==> order[k].principal == order[i].principal
    ensures RunsBefore(Principals(order), cells + [(order[i].principal, span)], i + span)
  {
    var xs := Principals(order);
    RunsStep(order, i, span);
    ShiftHead(cells, (order[i].principal, span), Runs(xs[i..]), Runs(xs[i + span..]), Runs(xs));
  }

  /** The first header row of the current format: each principal once per run of equal
      neighbours, spanning that run. */
  method HeaderSpans(order: seq<ColumnItem>) returns (cells: seq<(string, nat)>)
    ensures cells == Runs(Principals(order))
  {
    cells := [];
    var i := 0;
    RunsBeforeStart(Principals(order));
    while i < |order|
      invariant i <= |order| && RunsBefore(Principals(order), cells, i)
    {
      var span := RunSpan(order, i);
      RunsBeforeStep(order, cells, i, span);
      cells := cells + [(order[i].principal, span)];
      i := i + span;
    }
    RunsBeforeEnd(Principals(order), cells);
  }

  /* ---------- Header rows, old format ---------- */

  datatype HeaderCell = HeaderCell(text: string, colSpan: nat, rowSpan: nat)

  /** A group whose sub-columns are shown: more than one, and one of them not blank. */
  predicate HasRealSubs(sous: seq<string>) {
    |sous| > 1 && exists k :: 0 <= k < |sous| && Trim(sous[k]) != ""
  }

  /** A group with shown sub-columns spans them; any other group spans both header rows. */
  function TopCell(e: (string, seq<string>)): HeaderCell {
    if HasRealSubs(e.1) then HeaderCell(e.0, |e.1|, 1) else HeaderCell(e.0, 1, 2)
  }

  /** The first header row of the old format. */
  function OldTopRow(entries: Groups): seq<HeaderCell> {
    if |entries| == 0 then [] else OldTopRow(entries[..|entries| - 1]) + [TopCell(entries[|entries| - 1])]
  }

  /** The second header row: the sub-labels of the groups that show them. */
  function SubHeaderRow(entries: Groups): seq<string> {
    if |entries| == 0 then []
    else
      var last := entries[|entries| - 1];
      SubHeaderRow(entries[..|entries| - 1]) + (if HasRealSubs(last.1) then last.1 else [])
  }

  function ColSpanTotal(cells: seq<HeaderCell>): nat {
    if |cells| == 0 then 0 else ColSpanTotal(cells[..|cells| - 1]) + cells[|cells| - 1].colSpan
  }

  /** The groups spanning both header rows. */
  function MergedCount(entries: Groups): nat {
    if |entries| == 0 then 0
    else MergedCount(entries[..|entries| - 1]) + (if HasRealSubs(entries[|entries| - 1].1) then 0 else 1)
  }

  /** No group hides two or more sub-columns (all of them blank). */
  predicate HeaderAligned(entries: Groups) {
    forall g :: 0 <= g < |entries| && !HasRealSubs(entries[g].1) ==> |entries[g].1| <= 1
  }

  /** The groups the structure views send meet `HeaderAligned`: a group whose sub-labels are
      all blank is `[""]`. This needs every sub-label that JavaScript's `trim` blanks to be
      empty already, which Python's `strip` ensures except for characters only JavaScript
      counts as white space (U+FEFF, for one). */
  lemma PayloadHeaderAligned(groups: Groups, ds: seq<StructureView.Cleaned>, sorted: bool)
    requires StructureView.GroupsFor(groups, ds, sorted)
    requires forall g, k :: 0 <= g < |groups| && 0 <= k < |groups[g].1| && Trim(groups[g].1[k]) == ""
               ==> groups[g].1[k] == ""
    ensures HeaderAligned(groups)
  {
    forall g | 0 <= g < |groups| && !HasRealSubs(groups[g].1) ensures |groups[g].1| <= 1 {
      BlankGroupSingle(groups[g].1, StructureView.SubLabels(ds, Dedup(StructureView.Principals(ds))[g]), sorted);
    }
  }

  /** A value of `colonnes_groupées` whose sub-labels all trim to blank has one element. */
  lemma BlankGroupSingle(l: seq<string>, subs: set<string>, sorted: bool)
    requires StructureView.LabelsFor(l, subs, sorted)
    requires forall k :: 0 <= k < |l| && Trim(l[k]) == "" ==> l[k] == ""
    requires !HasRealSubs(l)
    ensures |l| <= 1
  {
    if |l| > 1 {
      assert false;
    }
  }

  /** The old-format header covers the column axis: the first row spans as many columns as the
      axis has, and the second row fills exactly the columns not spanned from the first. */
  lemma {:induction false} OldHeaderCoversAxis(entries: Groups)
    requires HeaderAligned(entries)
    ensures ColSpanTotal(OldTopRow(entries)) == |FlatOrder(entries)|
    ensures |SubHeaderRow(entries)| + MergedCount(entries) == |FlatOrder(entries)|
  {
    FlatOrderLength(entries);
    if |entries| > 0 {
      var n := |entries| - 1;
      HeaderAlignedInit(entries);
      OldHeaderCoversAxis(entries[..n]);
      FlatOrderLength(entries[..n]);
      OldTopRowSnoc(entries);
    }
  }

  lemma HeaderAlignedInit(entries: Groups)
    requires |entries| > 0 && HeaderAligned(entries)
    ensures HeaderAligned(entries[..|entries| - 1])
    ensures !HasRealSubs(entries[|entries| - 1].1) ==> |entries[|entries| - 1].1| <= 1
  {
    var n := |entries| - 1;
    forall g | 0 <= g < n ensures entries[..n][g] == entries[g] {
    }
  }

  /** The first header row of the old format gains one cell per group. */
  lemma OldTopRowSnoc(entries: Groups)
    requires |entries| > 0
    ensures var top := OldTopRow(entries);
      |top| > 0 && top[..|top| - 1] == OldTopRow(entries[..|entries| - 1])
      && top[|top| - 1] == TopCell(entries[|entries| - 1])
  {
  }

  /* ---------- Status legend ---------- */

  /** The texts held by the cells of `vals`. */
  function CellValues(vals: Valeurs): set<string> {
    set a, b | a in vals && b in vals[a] :: vals[a][b]
  }

  function SubValues(subs: seq<SousIndicateur>): set<string> {
    if |subs| == 0 then {} else SubValues(subs[..|subs| - 1]) + CellValues(subs[|subs| - 1].valeurs)
  }

  /** The texts held by a row's own cells and its sub-indicators' cells. */
  function RowValues(r: Row): set<string> {
    CellValues(r.valeurs.GetOr(map[])) + SubValues(r.sousIndicateurs.GetOr([]))
  }

  function TableValues(data: seq<Row>): set<string> {
    if |data| == 0 then {} else TableValues(data[..|data| - 1]) + RowValues(data[|data| - 1])
  }

  /** `u` is a status code that some text of `values`, upper-cased, equals. */
  predicate Hit(values: set<string>, statuts: seq<string>, u: string) {
    u in statuts && exists v :: v in values && Upper(v) == u
  }

  /** `out` lists, once each, the codes of `base` and the codes hit by `values`. */
  ghost predicate Collected(out: seq<string>, base: seq<string>, values: set<string>, statuts: seq<string>) {
    NoDup(out) && forall u :: u in out <==> u in base || Hit(values, statuts, u)
  }

  lemma CollectedStart(base: seq<string>, statuts: seq<string>)
    requires NoDup(base)
    ensures Collected(base, base, {}, statuts)
  {
  }

  /** Collecting `va` and then `vb` collects their union. */
  lemma CollectedChain(a: seq<string>, b: seq<string>, c: seq<string>, va: set<string>, vb: set<string>, statuts: seq<string>)
    requires Collected(b, a, va, statuts) && Collected(c, b, vb, statuts)
    ensures Collected(c, a, va + vb, statuts)
  {
    forall u {
      HitUnion(va, vb, statuts, u);
    }
  }

  /** The test on one cell: its text, upper-cased, is added when it is a code not yet seen. */
  method CheckCell(visibles: seq<string>, v: string, statuts: seq<string>) returns (out: seq<string>)
    requires NoDup(visibles)
    ensures Collected(out, visibles, {v}, statuts)
  {
    var u := Upper(v);
    if u in statuts && u !in visibles {
      out := visibles + [u];
    } else {
      out := visibles;
    }
  }

  /** `checkValeurs(valeurs)`, adding to `visibles`, the contents of a `Set` in insertion
      order. */
  method CheckValeurs(visibles: seq<string>, vals: Valeurs, statuts: seq<string>) returns (out: seq<string>)
    requires NoDup(visibles)
    ensures Collected(out, visibles, CellValues(vals), statuts)
  {
    out := visibles;
    var cols := vals.Keys;
    CollectedStart(visibles, statuts);
    ColumnValuesNone(vals);
    while cols != {}
      invariant cols <= vals.Keys
      invariant Collected(out, visibles, ColumnValues(vals, vals.Keys - cols), statuts)
      decreases |cols|
    {
      var c :| c in cols;
      ghost var prev := out;
      out := CheckColumn(out, vals[c], statuts);
      CollectedChain(visibles, prev, out, ColumnValues(vals, vals.Keys - cols), vals[c].Values, statuts);
      ColumnValuesAdd(vals, cols, c);
      cols := cols - {c};
    }
    ColumnValuesAll(vals);
  }

  /** The inner loop of `checkValeurs`, over the cells of one column. */
  method CheckColumn(visibles: seq<string>, col: map<string, string>, statuts: seq<string>) returns (out: seq<string>)
    requires NoDup(visibles)
    ensures Collected(out, visibles, col.Values, statuts)
  {
    out := visibles;
    var keys := col.Keys;
    CollectedStart(visibles, statuts);
    SomeValuesNone(col);
    while keys != {}
      invariant keys <= col.Keys
      invariant Collected(out, visibles, SomeValues(col, col.Keys - keys), statuts)
      decreases |keys|
    {
      var k :| k in keys;
      ghost var prev := out;
      out := CheckCell(out, col[k], statuts);
      CollectedChain(visibles, prev, out, SomeValues(col, col.Keys - keys), {col[k]}, statuts);
      SomeValuesAdd(col, keys, k);
      keys := keys - {k};
    }
    SomeValuesAll(col);
  }

  /** The texts in the cells `ks` of one column. */
  ghost function SomeValues(col: map<string, string>, ks: set<string>): set<string> {
    set k | k in ks && k in col :: col[k]
  }

  lemma SomeValuesNone(col: map<string, string>)
    ensures SomeValues(col, col.Keys - col.Keys) == {}
  {
    assert col.Keys - col.Keys == {};
  }

  lemma SomeValuesAll(col: map<string, string>)
    ensures SomeValues(col, col.Keys - {}) == col.Values
  {
    assert col.Keys - {} == col.Keys;
  }

  /** Visiting cell `k` next adds its text to those already visited. */
  lemma SomeValuesAdd(col: map<string, string>, keys: set<string>, k: string)
    requires k in keys && keys <= col.Keys
    ensures SomeValues(col, col.Keys - (keys - {k})) == SomeValues(col, col.Keys - keys) + {col[k]}
  {
    assert col.Keys - (keys - {k}) == (col.Keys - keys) + {k};
  }

  /** The texts in the columns `cs` of `vals`. */
  ghost function ColumnValues(vals: Valeurs, cs: set<string>): set<string> {
    set a, b | a in cs && a in vals && b in vals[a] :: vals[a][b]
  }

  lemma ColumnValuesNone(vals: Valeurs)
    ensures ColumnValues(vals, vals.Keys - vals.Keys) == {}
  {
    assert vals.Keys - vals.Keys == {};
  }

  lemma ColumnValuesAll(vals: Valeurs)
    ensures ColumnValues(vals, vals.Keys - {}) == CellValues(vals)
  {
    assert vals.Keys - {} == vals.Keys;
  }

  /** Visiting column `c` next adds its texts to those already visited. */
  lemma ColumnValuesAdd(vals: Valeurs, cols: set<string>, c: string)
    requires c in cols && cols <= vals.Keys
    ensures ColumnValues(vals, vals.Keys - (cols - {c})) == ColumnValues(vals, vals.Keys - cols) + vals[c].Values
  {
    var cs := vals.Keys - cols;
    assert vals.Keys - (cols - {c}) == cs + {c};
    var l := ColumnValues(vals, cs + {c});
    var r := ColumnValues(vals, cs) + vals[c].Values;
    forall t | t in l ensures t in r {
      var a, b :| a in cs + {c} && a in vals && b in vals[a] && vals[a][b] == t;
      if a != c {
        assert t in ColumnValues(vals, cs);
      }
    }
    forall t | t in r ensures t in l {
      if t in vals[c].Values {
        var b :| b in vals[c] && vals[c][b] == t;
      }
    }
  }

  /** The status codes shown by the table's cells. */
  ghost predicate Visible(data: seq<Row>, statuts: seq<string>, u: string) {
    Hit(TableValues(data), statuts, u)
  }

  lemma HitUnion(a: set<string>, b: set<string>, statuts: seq<string>, u: string)
    ensures Hit(a + b, statuts, u) <==> Hit(a, statuts, u) || Hit(b, statuts, u)
  {
    if Hit(a + b, statuts, u) {
      var v :| v in a + b && Upper(v) == u;
      if v in a {
        assert Hit(a, statuts, u);
      } else {
        assert Hit(b, statuts, u);
      }
    }
  }

  /** `detectVisibleStatuts(data, statuts)`: the distinct codes of `statuts` that some cell of a
      row or of a sub-indicator holds, compared upper-cased. */
  method DetectVisibleStatuts(data: seq<Row>, statuts: seq<string>) returns (visibles: seq<string>)
    ensures NoDup(visibles)
    ensures forall u :: u in visibles <==> Visible(data, statuts, u)
  {
    visibles := [];
    CollectedStart([], statuts);
    TableValuesPrefix(data, 0);
    var i := 0;
    while i < |data|
      invariant i <= |data|
      invariant Collected(visibles, [], TableValues(data[..i]), statuts)
    {
      ghost var prev := visibles;
      visibles := CheckRow(visibles, data[i], statuts);
      CollectedChain([], prev, visibles, TableValues(data[..i]), RowValues(data[i]), statuts);
      TableValuesPrefix(data, i + 1);
      i := i + 1;
    }
    assert data[..i] == data;
  }

  /** The body of the `forEach` over rows: the row's own cells, then each sub-indicator's. */
  method CheckRow(visibles: seq<string>, row: Row, statuts: seq<string>) returns (out: seq<string>)
    requires NoDup(visibles)
    ensures Collected(out, visibles, RowValues(row), statuts)
  {
    out := CheckValeurs(visibles, row.valeurs.GetOr(map[]), statuts);
    ghost var mid := out;
    var subs := row.sousIndicateurs.GetOr([]);
    CollectedStart(mid, statuts);
    SubValuesPrefix(subs, 0);
    var k := 0;
    while k < |subs|
      invariant k <= |subs|
      invariant Collected(out, mid, SubValues(subs[..k]), statuts)
    {
      ghost var prev := out;
      out := CheckValeurs(out, subs[k].valeurs, statuts);
      CollectedChain(mid, prev, out, SubValues(subs[..k]), CellValues(subs[k].valeurs), statuts);
      SubValuesPrefix(subs, k + 1);
      k := k + 1;
    }
    assert subs[..k] == subs;
    CollectedChain(visibles, mid, out, CellValues(row.valeurs.GetOr(map[])), SubValues(subs), statuts);
  }

  /** The texts of the first `i` rows. */
  lemma TableValuesPrefix(data: seq<Row>, i: nat)
    requires i <= |data|
    ensures i == 0 ==> TableValues(data[..i]) == {}
    ensures i > 0 ==> TableValues(data[..i]) == TableValues(data[..i - 1]) + RowValues(data[i - 1])
  {
    if i > 0 {
      assert data[..i][..i - 1] == data[..i - 1];
    }
  }

  /** The texts of the first `k` sub-indicators. */
  lemma SubValuesPrefix(subs: seq<SousIndicateur>, k: nat)
    requires k <= |subs|
    ensures k == 0 ==> SubValues(subs[..k]) == {}
    ensures k > 0 ==> SubValues(subs[..k]) == SubValues(subs[..k - 1]) + CellValues(subs[k - 1].valeurs)
  {
    if k > 0 {
      assert subs[..k][..k - 1] == subs[..k - 1];
    }
  }

  const STATUT_CODES: seq<string> := ["N/D", "NS", "NA"]

  /** The legend lines shown under the table, as their codes: N/D, NS, NA, in that order, for
      those among the visible codes. */
  function StatutLegend(visibles: seq<string>): seq<string> {
    Filter(STATUT_CODES, (c: string) => c in visibles)
  }

  /** The legend lists a code exactly when it is one of the three known codes and visible, and
      lists each once. */
  lemma StatutLegendLines(visibles: seq<string>)
    ensures forall c :: c in StatutLegend(visibles) <==> c in STATUT_CODES && c in visibles
    ensures NoDup(StatutLegend(visibles))
  {
    assert NoDup(STATUT_CODES) by {
      assert "N/D"[1] != "NS"[1] && "N/D"[1] != "NA"[1] && "NS"[1] != "NA"[1];
    }
    FilterNoDup(STATUT_CODES, (c: string) => c in visibles);
  }

  /** Without a `statuts` list in the payload (the structure views send none), no code is
      visible. */
  lemma NoStatutsNoneVisible(data: seq<Row>, u: string)
    ensures !Visible(data, [], u)
  {
  }

  /* ---------- Projection columns ---------- */

  predicate IsProjectionSource(source: string) {
    Contains(Lower(source), "projection")
  }

  predicate IsFourDigitYear(s: string) {
    |s| == 4 && AllDigits(s)
  }

  /** `isProjectionColumn(label, source)`: a four-digit year other than a census year, in a
      table whose source mentions projections. */
  predicate IsProjectionColumn(heading: string, source: string) {
    IsProjectionSource(source) && IsFourDigitYear(Trim(heading)) && Trim(heading) !in ANNEES_RECENSEMENT
  }

  /** The projection legend's condition. */
  predicate ShowProjectionLegend(source: string, order: seq<ColumnItem>) {
    IsProjectionSource(source) && exists i :: 0 <= i < |order| && IsProjectionColumn(order[i].principal, source)
  }

  /** The projection legend is shown exactly when some column is shaded. */
  lemma ProjectionLegendIff(source: string, order: seq<ColumnItem>)
    ensures ShowProjectionLegend(source, order)
      <==> exists i :: 0 <= i < |order| && IsProjectionColumn(order[i].principal, source)
  {
  }

  /** Worked example: a source that mentions "projection" in any case marks a projection table,
      a census source does not. */
  lemma ProjectionSourceExample()
    ensures IsProjectionSource("Projection") && !IsProjectionSource("RGPH")
  {
    assert Lower("Projection") == "projection";
    assert StartsWith("projection", "projection");
    assert |Lower("RGPH")| == 4;
    TooShortNotContained(Lower("RGPH"), "projection");
  }

  /** Worked example: a projected year is shaded. */
  lemma ProjectionExampleShaded()
    ensures IsProjectionColumn("2030", "Projection")
  {
    var y := "2030";
    ProjectionSourceExample();
    assert AllDigits(y) by {
      assert y[0] == '2' && y[1] == '0' && y[2] == '3' && y[3] == '0';
    }
    assert y !in ANNEES_RECENSEMENT by {
      assert y[2] == '3';
      assert forall k :: 0 <= k < |ANNEES_RECENSEMENT| ==> ANNEES_RECENSEMENT[k][2] != '3';
    }
    YearShaded(y, "Projection");
  }

  /** A four-digit label other than a census year is shaded in a projection table. */
  lemma YearShaded(y: string, source: string)
    requires IsProjectionSource(source) && |y| == 4 && AllDigits(y) && y !in ANNEES_RECENSEMENT
    ensures IsProjectionColumn(y, source)
  {
    assert IsDigit(y[0]) && IsDigit(y[3]);
    StripNoop(y, IsJsSpace);
  }

  /** Worked examples: a census year, and any year of a table that is not a projection, are
      not shaded. */
  lemma ProjectionExamplesPlain()
    ensures !IsProjectionColumn("2023", "Projection")
    ensures !IsProjectionColumn("2030", "RGPH")
  {
    ProjectionSourceExample();
    StripNoop("2023", IsJsSpace);
    assert ANNEES_RECENSEMENT[4] == "2023";
  }

  lemma {:induction false} TooShortNotContained(s: string, sub: string)
    requires |s| < |sub|
    ensures !Contains(s, sub)
    decreases |s|
  {
    if |s| > 0 {
      TooShortNotContained(s[1..], sub);
    }
  }

  /* ---------- Meta ---------- */

  datatype Meta = Meta(titre: string, source: string, etiquetteLigne: string)

  /** The `meta` the page keeps from a payload, with its defaults. */
  function MetaOf(titre: Option<string>, source: Option<string>, etiquette: Option<string>): (m: Meta)
    ensures titre.Some? ==> m.titre == titre.value
    ensures titre.None? ==> m.titre == ""
    ensures source.Some? ==> m.source == source.value
    ensures source.None? ==> m.source == ""
    ensures etiquette.Some? ==> m.etiquetteLigne == etiquette.value
    ensures etiquette.None? ==> m.etiquetteLigne == "Indicateur"
  {
    Meta(titre.GetOr(""), source.GetOr(""), etiquette.GetOr("Indicateur"))
  }

  /** The label of the first header cell: never blank. */
  function RowHeaderLabel(m: Meta): (r: string)
    ensures r != ""
    ensures m.etiquetteLigne != "" ==> r == m.etiquetteLigne
  {
    if m.etiquetteLigne != "" then m.etiquetteLigne else "Indicateur"
  }
}

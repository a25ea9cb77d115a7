/** The filtered-table page (`TableauFiltre`): the multi-select checklists that choose the
    lines and the columns, and the simple table it draws from a back-end structure. */
module TableFilter {
  import opened Wrappers
  import opened Collections
  import opened Payload

  /* ---------- Checklist toggle ---------- */

  /** Clicking option `opt` of a checklist whose selection is `value`: the option is dropped
      (every copy of it) when selected, appended at the end otherwise. */
  function Toggle(value: seq<string>, opt: string): (r: seq<string>)
  {
    if opt in value then Filter(value, (v: string) => v != opt) else value + [opt]
  }

  /** A checkbox is ticked iff its option is in the selection; a click flips it. */
  lemma ToggleFlips(value: seq<string>, opt: string)
    ensures opt in Toggle(value, opt) <==> opt !in value
  {
    if opt in value {
      assert opt !in Filter(value, (v: string) => v != opt);
    } else {
      assert Toggle(value, opt)[|value|] == opt;
    }
  }

  /** A click leaves every other option's state as it was. */
  lemma ToggleOthers(value: seq<string>, opt: string, other: string)
    requires other != opt
    ensures other in Toggle(value, opt) <==> other in value
  {
    if opt !in value {
      assert other in value + [opt] <==> other in value || other == opt;
    }
  }

  /** Selecting an option keeps the earlier selection in order and adds the option at the end. */
  lemma ToggleAppends(value: seq<string>, opt: string)
    requires opt !in value
    ensures Toggle(value, opt)[..|value|] == value
    ensures |Toggle(value, opt)| == |value| + 1 && Toggle(value, opt)[|value|] == opt
  {
  }

  /** Deselecting an option keeps the other options and their order. */
  lemma ToggleRemoves(value: seq<string>, opt: string)
    requires opt in value
    ensures Toggle(value, opt) == Filter(value, (v: string) => v != opt)
    ensures multiset(Toggle(value, opt))[opt] == 0
    ensures forall o :: o != opt ==> multiset(Toggle(value, opt))[o] == multiset(value)[o]
  {
    FilterCounts(value, opt);
  }

  lemma {:induction false} FilterCounts(value: seq<string>, opt: string)
    ensures multiset(Filter(value, (v: string) => v != opt))[opt] == 0
    ensures forall o :: o != opt ==> multiset(Filter(value, (v: string) => v != opt))[o] == multiset(value)[o]
  {
    if |value| > 0 {
      FilterCounts(value[1..], opt);
      assert value == [value[0]] + value[1..];
      var rest := Filter(value[1..], (v: string) => v != opt);
      if value[0] != opt {
        assert Filter(value, (v: string) => v != opt) == [value[0]] + rest;
      } else {
        assert Filter(value, (v: string) => v != opt) == rest;
      }
    }
  }

  /** Selecting then deselecting an option restores the selection. */
  lemma ToggleTwice(value: seq<string>, opt: string)
    requires opt !in value
    ensures Toggle(Toggle(value, opt), opt) == value
  {
    ToggleFlips(value, opt);
    RemoveLast(value, opt);
  }

  lemma {:induction false} RemoveLast(value: seq<string>, opt: string)
    requires opt !in value
    ensures Filter(value + [opt], (v: string) => v != opt) == value
  {
    if |value| > 0 {
      RemoveLast(value[1..], opt);
      assert (value + [opt])[1..] == value[1..] + [opt];
      assert value == [value[0]] + value[1..];
    }
  }

  /** A selection made only by clicks never lists an option twice. */
  lemma ToggleNoDup(value: seq<string>, opt: string)
    requires NoDup(value)
    ensures NoDup(Toggle(value, opt))
  {
    if opt in value {
      FilterNoDup(value, (v: string) => v != opt);
    } else {
      SnocNoDup(value, opt);
    }
  }

  /** Clicking the same option twice, starting from a click-made selection with it ticked,
      ticks it again with the same options selected; only its place moves to the end. */
  lemma ToggleTwiceSelected(value: seq<string>, opt: string)
    requires NoDup(value) && opt in value
    ensures opt in Toggle(Toggle(value, opt), opt)
    ensures forall o :: o in Toggle(Toggle(value, opt), opt) <==> o in value
    ensures |Toggle(Toggle(value, opt), opt)| == |value|
  {
    var once := Toggle(value, opt);
    ToggleFlips(value, opt);
    ToggleFlips(once, opt);
    forall o | o != opt ensures o in Toggle(once, opt) <==> o in value {
      ToggleOthers(value, opt, o);
      ToggleOthers(once, opt, o);
    }
    DropOnce(value, opt);
  }

  /** Dropping an option a duplicate-free selection holds shortens it by one. */
  lemma {:induction false} DropOnce(value: seq<string>, opt: string)
    requires NoDup(value) && opt in value
    ensures |Filter(value, (v: string) => v != opt)| == |value| - 1
  {
    assert value == [value[0]] + value[1..];
    assert NoDup(value[1..]) by {
      forall i, j | 0 <= i < j < |value| - 1 ensures value[1..][i] != value[1..][j] {
        assert value[1..][i] == value[i + 1] && value[1..][j] == value[j + 1];
      }
    }
    if value[0] == opt {
      assert opt !in value[1..] by {
        forall j | 0 <= j < |value| - 1 ensures value[1..][j] != opt {
          assert value[1..][j] == value[j + 1];
        }
      }
      FilterAll(value[1..], (v: string) => v != opt);
    } else {
      DropOnce(value[1..], opt);
    }
  }

  /* ---------- The simple structured table ---------- */

  /** The column heads: `Object.keys(structure.colonnes_groupées)`, one per member of
      `colonnes_groupées`. */
  function Columns(s: Structure): (r: seq<string>)
    ensures |r| == |s.colonnesGroupees|
    ensures forall c :: c in r <==> c in Keys(s.colonnesGroupees)
  {
    var g := s.colonnesGroupees;
    ObjectEntriesPermutes(g);
    assert |ObjectEntries(g)| == |multiset(ObjectEntries(g))| == |multiset(g)| == |g|;
    SameMembersKeys(ObjectEntries(g), g);
    Keys(ObjectEntries(g))
  }

  lemma SameMembersKeys(a: Groups, b: Groups)
    requires multiset(a) == multiset(b)
    ensures forall c :: c in Keys(a) <==> c in Keys(b)
  {
    forall c ensures c in Keys(a) ==> c in Keys(b) {
      if c in Keys(a) {
        var i :| 0 <= i < |a| && Keys(a)[i] == c;
        assert a[i] in multiset(b);
        var j :| 0 <= j < |b| && b[j] == a[i];
        assert Keys(b)[j] == c;
      }
    }
    forall c ensures c in Keys(b) ==> c in Keys(a) {
      if c in Keys(b) {
        var j :| 0 <= j < |b| && Keys(b)[j] == c;
        assert b[j] in multiset(a);
        var i :| 0 <= i < |a| && a[i] == b[j];
        assert Keys(a)[i] == c;
      }
    }
  }

  /** The header line: an `Indicateur` head, then one head per column. */
  function Header(s: Structure): (r: seq<string>)
    ensures |r| == |s.colonnesGroupees| + 1 && r[0] == "Indicateur" && r[1..] == Columns(s)
  {
    ["Indicateur"] + Columns(s)
  }

  /** The heads depend on the column names alone, not on their sub-column lists. */
  lemma HeaderIgnoresSubs(s: Structure, t: Structure)
    requires SameKeys(s.colonnesGroupees, t.colonnesGroupees)
    ensures Header(s) == Header(t)
  {
    ObjectEntriesKeys(s.colonnesGroupees, t.colonnesGroupees);
  }

  /** `valeurs?.[c]?.[""] ?? ""`: the unlabelled sub-cell of column `c`, or nothing. */
  function CellText(vals: Option<Valeurs>, c: string): (r: string)
    ensures vals.Some? && c in vals.value && "" in vals.value[c] ==> r == vals.value[c][""]
    ensures !(vals.Some? && c in vals.value && "" in vals.value[c]) ==> r == ""
  {
    if vals.Some? then Lookup(vals.value, c, "").GetOr("") else ""
  }

  /** The first cell of a body line: a plain indicator, or a group with one of its
      sub-indicators. */
  datatype LineLabel = Plain(indicateur: string) | Sub(indicateur: string, nom: string)

  /** One `<tr>` of the body: its first cell, whether it has the shaded background, its cells. */
  datatype Line = Line(head: LineLabel, shaded: bool, cells: seq<string>)

  function Texts(vals: Option<Valeurs>, cols: seq<string>): (r: seq<string>)
    ensures |r| == |cols| && forall j :: 0 <= j < |cols| ==> r[j] == CellText(vals, cols[j])
  {
    seq(|cols|, j requires 0 <= j < |cols| => CellText(vals, cols[j]))
  }

  /** A row with a `sous_indicateurs` list (even an empty one) draws one line per entry;
      any other row draws one line. */
  function Height(row: Row): nat {
    if row.sousIndicateurs.Some? then |row.sousIndicateurs.value| else 1
  }

  /** The lines of `data[i]` = `row`. */
  function RowLines(row: Row, i: nat, cols: seq<string>): (r: seq<Line>)
    ensures |r| == Height(row)
  {
    if row.sousIndicateurs.Some? then
      var subs := row.sousIndicateurs.value;
      seq(|subs|, k requires 0 <= k < |subs| =>
        Line(Sub(row.indicateur, subs[k].nom), (i + k) % 2 == 1, Texts(Some(subs[k].valeurs), cols)))
    else
      [Line(Plain(row.indicateur), i % 2 == 1, Texts(row.valeurs, cols))]
  }

  /** The lines of each row of `data`, in order (`structure.data.map((row, i) => ...)`), under
      the column heads `cols`. */
  function Blocks(data: seq<Row>, cols: seq<string>): (r: seq<seq<Line>>)
    ensures |r| == |data|
    ensures forall i :: 0 <= i < |data| ==> r[i] == RowLines(data[i], i, cols)
  {
    seq(|data|, i requires 0 <= i < |data| => RowLines(data[i], i, cols))
  }

  /** The table body: the rows' lines one after the other. */
  function Body(data: seq<Row>, cols: seq<string>): seq<Line> {
    Flatten(Blocks(data, cols))
  }

  /** The body of the table drawn for `s`. */
  function TableBody(s: Structure): seq<Line> {
    Body(s.data, Columns(s))
  }

  /** Where the lines of row `i` start in the body. */
  function Offset(data: seq<Row>, cols: seq<string>, i: nat): nat
    requires i <= |data|
  {
    Start(Blocks(data, cols), i)
  }

  /** The body line drawn for sub-indicator `k` of row `i`: labelled with the group and the
      sub-indicator, shaded on odd `i + k`, with that sub-indicator's cell per column. */
  lemma SubLine(data: seq<Row>, cols: seq<string>, i: nat, k: nat)
    requires i < |data| && data[i].sousIndicateurs.Some? && k < |data[i].sousIndicateurs.value|
    ensures Offset(data, cols, i) + k < |Body(data, cols)|
    ensures var line := Body(data, cols)[Offset(data, cols, i) + k];
            var sub := data[i].sousIndicateurs.value[k];
            line.head == Sub(data[i].indicateur, sub.nom) && line.shaded == ((i + k) % 2 == 1) &&
            |line.cells| == |cols| &&
            forall j :: 0 <= j < |cols| ==> line.cells[j] == CellText(Some(sub.valeurs), cols[j])
  {
    FlattenAt(Blocks(data, cols), i, k);
    var row := data[i];
    var sub := row.sousIndicateurs.value[k];
    assert RowLines(row, i, cols)[k] ==
           Line(Sub(row.indicateur, sub.nom), (i + k) % 2 == 1, Texts(Some(sub.valeurs), cols));
  }

  /** The body line drawn for a row without sub-indicators: its indicator, shaded on odd `i`,
      with the row's own cell per column. */
  lemma PlainLine(data: seq<Row>, cols: seq<string>, i: nat)
    requires i < |data| && data[i].sousIndicateurs.None?
    ensures Offset(data, cols, i) < |Body(data, cols)|
    ensures var line := Body(data, cols)[Offset(data, cols, i)];
            line.head == Plain(data[i].indicateur) && line.shaded == (i % 2 == 1) &&
            |line.cells| == |cols| &&
            forall j :: 0 <= j < |cols| ==> line.cells[j] == CellText(data[i].valeurs, cols[j])
  {
    FlattenAt(Blocks(data, cols), i, 0);
  }

  /** Every body line belongs to some row: it is line `k` of row `i`, and it has one cell
      per column head. */
  lemma BodyLineOrigin(data: seq<Row>, cols: seq<string>, n: nat) returns (i: nat, k: nat)
    requires n < |Body(data, cols)|
    ensures i < |data| && k < Height(data[i]) && n == Offset(data, cols, i) + k
    ensures Body(data, cols)[n] == RowLines(data[i], i, cols)[k]
    ensures |Body(data, cols)[n].cells| == |cols|
  {
    i, k := FlattenLocate(Blocks(data, cols), n);
  }

  /** The body draws exactly the rows' heights' worth of lines. */
  lemma BodyLength(data: seq<Row>, cols: seq<string>)
    ensures |Body(data, cols)| == Offset(data, cols, |data|)
  {
    FlattenLength(Blocks(data, cols));
  }
}

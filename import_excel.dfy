/** `ImportExcelView`: each worksheet is scanned row by row for its title, its header row, its
    data rows and its source line, then every data cell that reads as a number becomes a
    `Donnees` record. Opening the workbook and `float()` are outside the model: the workbook
    arrives as the outcome of opening it, and whether a normalised cell reads as a number is
    the predicate `parses`. */
module ImportExcel {
  import opened Wrappers
  import opened Strings
  import opened Collections

  /** A row as `iter_rows(values_only=True)` yields it: `None` for an empty cell, otherwise the
      text `str(cell)`. */
  type RawRow = seq<Option<string>>

  datatype Sheet = Sheet(name: string, rows: seq<RawRow>)

  const MISSING_INPUT: string := "Veuillez fournir le fichier, theme_id et cat_id"
  const READ_ERROR: string := "Erreur de lecture du fichier : "
  const DEFAULT_LABEL: string := "Indicateur"

  /** `row_str`: each cell stripped, an empty cell as `''`. */
  function RowStr(row: RawRow): (r: seq<string>)
    ensures |r| == |row|
    ensures forall i :: 0 <= i < |row| ==> r[i] == (if row[i].Some? then PyStrip(row[i].value) else "")
  {
    seq(|row|, i requires 0 <= i < |row| => if row[i].Some? then PyStrip(row[i].value) else "")
  }

  function RowStrs(rows: seq<RawRow>): (r: seq<seq<string>>)
    ensures |r| == |rows| && forall i :: 0 <= i < |rows| ==> r[i] == RowStr(rows[i])
  {
    seq(|rows|, i requires 0 <= i < |rows| => RowStr(rows[i]))
  }

  /* ---------- The row scan ---------- */

  /** Some cell holds "Tableau". */
  predicate HasTableau(rs: seq<string>) { exists i :: 0 <= i < |rs| && Contains(rs[i], "Tableau") }

  /** Some non-empty cell starts with "source" in any case. */
  predicate HasSource(rs: seq<string>) {
    exists i :: 0 <= i < |rs| && rs[i] != "" && StartsWith(Lower(rs[i]), "source")
  }

  /** Some cell is not empty. */
  predicate NonBlank(rs: seq<string>) { exists i :: 0 <= i < |rs| && rs[i] != "" }

  /** `' '.join(row_str).strip()`. */
  function TitleOf(rs: seq<string>): string { PyStrip(Join(rs, " ")) }

  /** `' '.join(row_str).replace("Source :", "").strip()`. */
  function SourceOf(rs: seq<string>): string { PyStrip(RemoveAll(Join(rs, " "), "Source :")) }

  /** The variables of the scan loop. */
  datatype ScanState = ScanState(
    titre: string, source: string, headers: seq<string>, lignes: seq<seq<string>>,
    started: bool, etiquette: string)

  const INIT: ScanState := ScanState("", "", [], [], false, DEFAULT_LABEL)

  /** The scan of the remaining rows `rows` from the state `st`; the first source row after the
      title ends it. */
  function ScanFrom(st: ScanState, rows: seq<seq<string>>): ScanState
    decreases |rows|
  {
    if |rows| == 0 then st
    else
      var rs := rows[0];
      if !st.started && HasTableau(rs) then ScanFrom(st.(titre := TitleOf(rs), started := true), rows[1..])
      else if st.started && HasSource(rs) then st.(source := SourceOf(rs))
      else if st.started && NonBlank(rs) then
        if st.headers == [] then ScanFrom(st.(headers := rs, etiquette := rs[0]), rows[1..])
        else ScanFrom(st.(lignes := st.lignes + [rs]), rows[1..])
      else ScanFrom(st, rows[1..])
  }

  function Scan(rows: seq<seq<string>>): ScanState { ScanFrom(INIT, rows) }

  /** The loop over the rows of one sheet, with its `continue` and `break`. */
  method ScanSheet(rows: seq<RawRow>) returns (st: ScanState)
    ensures st == Scan(RowStrs(rows))
  {
    ghost var all := RowStrs(rows);
    st := INIT;
    var i := 0;
    while i < |rows|
      invariant i <= |rows| && ScanFrom(st, all[i..]) == Scan(all)
    {
      var rs := RowStr(rows[i]);
      assert all[i..][0] == rs && all[i..][1..] == all[i + 1..];
      if !st.started && HasTableau(rs) {
        st := st.(titre := TitleOf(rs), started := true);
        i := i + 1;
        continue;
      }
      if st.started && HasSource(rs) {
        st := st.(source := SourceOf(rs));
        return;
      }
      if st.started {
        if st.headers == [] && NonBlank(rs) {
          st := st.(headers := rs, etiquette := rs[0]);
        } else if NonBlank(rs) {
          st := st.(lignes := st.lignes + [rs]);
        }
      }
      i := i + 1;
    }
    assert all[i..] == [];
  }

  /** Rows `a .. b - 1` hold no "Tableau" and come before the title: they are ignored. */
  lemma {:induction false} SkipBeforeTitle(st: ScanState, rows: seq<seq<string>>, a: nat, b: nat)
    requires !st.started && a <= b <= |rows|
    requires forall i :: a <= i < b ==> !HasTableau(rows[i])
    ensures ScanFrom(st, rows[a..]) == ScanFrom(st, rows[b..])
    decreases b - a
  {
    if a < b {
      assert rows[a..][0] == rows[a] && rows[a..][1..] == rows[a + 1..];
      SkipBeforeTitle(st, rows, a + 1, b);
    }
  }

  /** Rows `a .. b - 1` come after the title, before any header row, and are blank: they are
      ignored. */
  lemma {:induction false} SkipBeforeHeaders(st: ScanState, rows: seq<seq<string>>, a: nat, b: nat)
    requires st.started && st.headers == [] && a <= b <= |rows|
    requires forall i :: a <= i < b ==> !NonBlank(rows[i])
    ensures ScanFrom(st, rows[a..]) == ScanFrom(st, rows[b..])
    decreases b - a
  {
    if a < b {
      assert rows[a..][0] == rows[a] && rows[a..][1..] == rows[a + 1..];
      assert !HasSource(rows[a]);
      SkipBeforeHeaders(st, rows, a + 1, b);
    }
  }

  /** Once the headers are known, the non-blank rows among `a .. b - 1`, none of them a
      source row, are collected in order. */
  lemma {:induction false} CollectRows(st: ScanState, rows: seq<seq<string>>, a: nat, b: nat)
    requires st.started && st.headers != [] && a <= b <= |rows|
    requires forall i :: a <= i < b ==> !HasSource(rows[i])
    ensures ScanFrom(st, rows[a..]) == ScanFrom(st.(lignes := st.lignes + Filter(rows[a..b], NonBlank)), rows[b..])
    decreases b - a
  {
    if a < b {
      assert rows[a..][0] == rows[a] && rows[a..][1..] == rows[a + 1..];
      assert !HasSource(rows[a]);
      var h := if NonBlank(rows[a]) then [rows[a]] else [];
      var st' := st.(lignes := st.lignes + h);
      assert ScanFrom(st, rows[a..]) == ScanFrom(st', rows[a + 1..]) by {
        if !NonBlank(rows[a]) {
          assert st.lignes + h == st.lignes;
        }
      }
      CollectRows(st', rows, a + 1, b);
      var f := Filter(rows[a + 1..b], NonBlank);
      assert rows[a..b][0] == rows[a] && rows[a..b][1..] == rows[a + 1..b];
      assert Filter(rows[a..b], NonBlank) == h + f;
      ConcatAssoc(st.lignes, h, f);
      assert st'.(lignes := st'.lignes + f) == st.(lignes := st.lignes + Filter(rows[a..b], NonBlank));
    } else {
      assert rows[a..b] == [] && st.lignes + [] == st.lignes;
    }
  }

  /** The title row starts the scan. */
  lemma TitleStep(rows: seq<seq<string>>, t: nat)
    requires t < |rows| && HasTableau(rows[t])
    ensures ScanFrom(INIT, rows[t..]) == ScanFrom(INIT.(titre := TitleOf(rows[t]), started := true), rows[t + 1..])
  {
    assert rows[t..][0] == rows[t] && rows[t..][1..] == rows[t + 1..];
  }

  /** The first non-blank row after the title, if it is not a source row, gives the headers
      and the row label. */
  lemma HeaderStep(st: ScanState, rows: seq<seq<string>>, h: nat)
    requires st.started && st.headers == [] && h < |rows| && NonBlank(rows[h]) && !HasSource(rows[h])
    ensures ScanFrom(st, rows[h..]) == ScanFrom(st.(headers := rows[h], etiquette := rows[h][0]), rows[h + 1..])
  {
    assert rows[h..][0] == rows[h] && rows[h..][1..] == rows[h + 1..];
  }

  /** The end of the scan: at a source row, or after the last row. */
  lemma EndOfScan(st: ScanState, rows: seq<seq<string>>, s: nat)
    requires st.started && s <= |rows| && (s < |rows| ==> HasSource(rows[s]))
    ensures ScanFrom(st, rows[s..]) == if s < |rows| then st.(source := SourceOf(rows[s])) else st
  {
    if s < |rows| {
      assert rows[s..][0] == rows[s];
    } else {
      assert rows[s..] == [];
    }
  }

  /** The scan in full: the title row `t` (the first holding "Tableau"), the header row `h` (the
      first non-blank row after it) and the end `s` (the first source row after the title, or
      the end of the sheet) determine the title, the headers, the row label, the source and the
      data rows, which are the non-blank rows between the header row and the end. */
  lemma ScanShape(rows: seq<seq<string>>, t: nat, h: nat, s: nat)
    requires t < h < s <= |rows|
    requires HasTableau(rows[t]) && forall i :: 0 <= i < t ==> !HasTableau(rows[i])
    requires forall i :: t < i < s ==> !HasSource(rows[i])
    requires s < |rows| ==> HasSource(rows[s])
    requires NonBlank(rows[h]) && forall i :: t < i < h ==> !NonBlank(rows[i])
    ensures Scan(rows) == ScanState(TitleOf(rows[t]), if s < |rows| then SourceOf(rows[s]) else "",
      rows[h], Filter(rows[h + 1..s], NonBlank), true, rows[h][0])
  {
    assert rows[0..] == rows;
    SkipBeforeTitle(INIT, rows, 0, t);
    TitleStep(rows, t);
    AfterTitle(rows, t, h, s);
  }

  /** `ScanShape` from the row after the title on. */
  lemma AfterTitle(rows: seq<seq<string>>, t: nat, h: nat, s: nat)
    requires t < h < s <= |rows|
    requires forall i :: t < i < s ==> !HasSource(rows[i])
    requires s < |rows| ==> HasSource(rows[s])
    requires NonBlank(rows[h]) && forall i :: t < i < h ==> !NonBlank(rows[i])
    ensures ScanFrom(INIT.(titre := TitleOf(rows[t]), started := true), rows[t + 1..])
      == ScanState(TitleOf(rows[t]), if s < |rows| then SourceOf(rows[s]) else "",
        rows[h], Filter(rows[h + 1..s], NonBlank), true, rows[h][0])
  {
    var st1 := INIT.(titre := TitleOf(rows[t]), started := true);
    SkipBeforeHeaders(st1, rows, t + 1, h);
    HeaderStep(st1, rows, h);
    AfterHeaders(st1.(headers := rows[h], etiquette := rows[h][0]), rows, h, s);
  }

  /** `ScanShape` from the row after the headers on. */
  lemma AfterHeaders(st2: ScanState, rows: seq<seq<string>>, h: nat, s: nat)
    requires st2.started && st2.headers != [] && st2.lignes == [] && st2.source == ""
    requires h < s <= |rows|
    requires forall i :: h < i < s ==> !HasSource(rows[i])
    requires s < |rows| ==> HasSource(rows[s])
    ensures ScanFrom(st2, rows[h + 1..])
      == st2.(lignes := Filter(rows[h + 1..s], NonBlank), source := if s < |rows| then SourceOf(rows[s]) else "")
  {
    CollectRows(st2, rows, h + 1, s);
    EndOfScan(st2.(lignes := Filter(rows[h + 1..s], NonBlank)), rows, s);
  }

  /** A title row with nothing but blank rows up to the end or to a source row: no headers,
      no data rows, and the default row label. */
  lemma ScanWithoutHeaders(rows: seq<seq<string>>, t: nat, s: nat)
    requires t < s <= |rows|
    requires HasTableau(rows[t]) && forall i :: 0 <= i < t ==> !HasTableau(rows[i])
    requires forall i :: t < i < s ==> !NonBlank(rows[i])
    requires s < |rows| ==> HasSource(rows[s])
    ensures Scan(rows) == ScanState(TitleOf(rows[t]), if s < |rows| then SourceOf(rows[s]) else "",
      [], [], true, DEFAULT_LABEL)
  {
    assert rows[0..] == rows;
    SkipBeforeTitle(INIT, rows, 0, t);
    TitleStep(rows, t);
    var st1 := INIT.(titre := TitleOf(rows[t]), started := true);
    SkipBeforeHeaders(st1, rows, t + 1, s);
    EndOfScan(st1, rows, s);
  }

  /** A sheet without a row holding "Tableau" yields nothing but the default row label. */
  lemma NoTitleRow(rows: seq<seq<string>>)
    requires forall i :: 0 <= i < |rows| ==> !HasTableau(rows[i])
    ensures Scan(rows) == INIT
  {
    assert rows[0..] == rows && rows[|rows|..] == [];
    SkipBeforeTitle(INIT, rows, 0, |rows|);
  }

  /** The title, or `f"Titre non trouvé ({feuille})"` when the scan found none. */
  function SheetTitle(st: ScanState, name: string): string {
    if st.titre == "" then "Titre non trouvé (" + name + ")" else st.titre
  }

  /** Once started, the scan keeps its title. */
  lemma {:induction false} TitleKept(st: ScanState, rows: seq<seq<string>>)
    requires st.started
    ensures ScanFrom(st, rows).started && ScanFrom(st, rows).titre == st.titre
    decreases |rows|
  {
    if |rows| > 0 && !HasSource(rows[0]) {
      var rs := rows[0];
      var st' := if !NonBlank(rs) then st
        else if st.headers == [] then st.(headers := rs, etiquette := rs[0])
        else st.(lignes := st.lignes + [rs]);
      assert ScanFrom(st, rows) == ScanFrom(st', rows[1..]);
      TitleKept(st', rows[1..]);
    }
  }

  /** The title is the text of the first row holding "Tableau", never empty. */
  lemma TitleFound(rows: seq<seq<string>>, t: nat)
    requires t < |rows| && HasTableau(rows[t]) && forall i :: 0 <= i < t ==> !HasTableau(rows[i])
    ensures Scan(rows).titre == TitleOf(rows[t]) != ""
  {
    assert rows[0..] == rows;
    SkipBeforeTitle(INIT, rows, 0, t);
    TitleStep(rows, t);
    TitleKept(INIT.(titre := TitleOf(rows[t]), started := true), rows[t + 1..]);
    TitleRowNotBlank(rows[t]);
  }

  /** The default title is used for the sheets without a row holding "Tableau", and only for
      them. */
  lemma SheetTitleIs(rows: seq<seq<string>>, name: string)
    ensures (forall i :: 0 <= i < |rows| ==> !HasTableau(rows[i]))
      ==> SheetTitle(Scan(rows), name) == "Titre non trouvé (" + name + ")"
    ensures forall t :: (0 <= t < |rows| && HasTableau(rows[t]) && (forall i :: 0 <= i < t ==> !HasTableau(rows[i]))
      ==> SheetTitle(Scan(rows), name) == TitleOf(rows[t]))
  {
    if forall i :: 0 <= i < |rows| ==> !HasTableau(rows[i]) {
      NoTitleRow(rows);
    }
    forall t | 0 <= t < |rows| && HasTableau(rows[t]) && (forall i :: 0 <= i < t ==> !HasTableau(rows[i]))
      ensures SheetTitle(Scan(rows), name) == TitleOf(rows[t])
    {
      TitleFound(rows, t);
    }
  }

  /** A title row always gives a non-empty title: the default appears only for sheets without
      one. */
  lemma TitleRowNotBlank(rs: seq<string>)
    requires HasTableau(rs)
    ensures TitleOf(rs) != ""
  {
    var i :| 0 <= i < |rs| && Contains(rs[i], "Tableau");
    ContainsIff(rs[i], "Tableau");
    var k :| OccursAt(rs[i], "Tableau", k);
    assert rs[i][k] == 'T';
    JoinHolds(rs, " ", i, k);
    var j := Join(rs, " ");
    var p :| 0 <= p < |j| && j[p] == 'T';
    StripEmptyIff(j, IsPySpace);
  }

  /** The characters of a part also occur in the joined text. */
  lemma {:induction false} JoinHolds(parts: seq<string>, sep: string, i: nat, k: nat)
    requires i < |parts| && k < |parts[i]|
    ensures exists p :: 0 <= p < |Join(parts, sep)| && Join(parts, sep)[p] == parts[i][k]
    decreases |parts|
  {
    if |parts| == 1 {
      assert Join(parts, sep)[k] == parts[i][k];
    } else if i == 0 {
      assert Join(parts, sep) == parts[0] + sep + Join(parts[1..], sep);
      assert Join(parts, sep)[k] == parts[0][k];
    } else {
      JoinHolds(parts[1..], sep, i - 1, k);
      var rest := Join(parts[1..], sep);
      var p :| 0 <= p < |rest| && rest[p] == parts[1..][i - 1][k];
      var head := parts[0] + sep;
      assert Join(parts, sep) == head + rest;
      assert Join(parts, sep)[|head| + p] == rest[p];
    }
  }

  /* ---------- Cell normalisation ---------- */

  predicate IsPercent(c: char) { c == '%' }

  predicate IsNarrowSpace(c: char) { c == '\U{202F}' }

  predicate IsBlankChar(c: char) { c == ' ' }

  /** The characters the normalisation deletes. */
  predicate IsDropped(c: char) { c == '%' || c == '\U{202F}' || c == ' ' }

  /** `unite`: "%" exactly when the cell holds a percent sign. The cells of a data row are
      already stripped (`RowStrStripped`), so `str(cell).strip()` is the cell itself. */
  function Unite(cell: string): string { if '%' in cell then "%" else "" }

  /** `cell_str` after its `replace` calls. */
  function Normalise(cell: string): string {
    var c1 := if '%' in cell then RemoveWhere(cell, IsPercent) else cell;
    ReplaceChar(RemoveWhere(RemoveWhere(c1, IsNarrowSpace), IsBlankChar), ',', '.')
  }

  /** The normalised cell is the stripped cell with `%`, U+202F and spaces deleted and every
      `,` turned into `.`; the only unit is the percent sign. */
  lemma NormaliseIs(cell: string)
    ensures Normalise(cell) == ReplaceChar(RemoveWhere(cell, IsDropped), ',', '.')
  {
    var c1 := if '%' in cell then RemoveWhere(cell, IsPercent) else cell;
    if '%' !in cell {
      RemoveWhereNoop(cell, IsPercent);
    }
    assert c1 == RemoveWhere(cell, IsPercent);
    RemoveWhereTwice(cell, IsPercent, IsNarrowSpace, IsPercentOrNarrow);
    RemoveWhereTwice(cell, IsPercentOrNarrow, IsBlankChar, IsDropped);
  }

  /** Nothing the normalisation deletes is left, and no comma either. */
  lemma NormalisedClean(cell: string)
    ensures var n := Normalise(cell);
      '%' !in n && ' ' !in n && '\U{202F}' !in n && ',' !in n
  {
    NormaliseIs(cell);
    var r := RemoveWhere(cell, IsDropped);
    var n := Normalise(cell);
    forall i | 0 <= i < |n| ensures n[i] != '%' && n[i] != ' ' && n[i] != '\U{202F}' && n[i] != ',' {
      assert !IsDropped(r[i]);
    }
  }

  predicate IsPercentOrNarrow(c: char) { c == '%' || c == '\U{202F}' }

  /** Deleting in two passes is deleting once what either pass deletes. */
  lemma {:induction false} RemoveWhereTwice(s: string, p: char -> bool, q: char -> bool, both: char -> bool)
    requires forall c :: both(c) == (p(c) || q(c))
    ensures RemoveWhere(RemoveWhere(s, p), q) == RemoveWhere(s, both)
    decreases |s|
  {
    if |s| > 0 {
      RemoveWhereTwice(s[1..], p, q, both);
      var h := if p(s[0]) then [] else [s[0]];
      RemoveWhereConcat(h, RemoveWhere(s[1..], p), q);
      if !p(s[0]) {
        assert RemoveWhere(h, q) == if q(s[0]) then [] else [s[0]] by {
          assert h[1..] == [];
        }
      }
    }
  }

  /** The cells of a row are stripped already, so stripping them again changes nothing. */
  lemma RowStrStripped(row: RawRow, i: nat)
    requires i < |row|
    ensures PyStrip(RowStr(row)[i]) == RowStr(row)[i]
  {
    if row[i].Some? {
      StripIdempotent(row[i].value, IsPySpace);
    } else {
      StripNoop([], IsPySpace);
    }
  }

  /** `headers[i] if i < len(headers) else f'Col{i}'`. */
  function ColumnName(headers: seq<string>, i: nat): string {
    if i < |headers| then headers[i] else "Col" + NatToString(i)
  }

  /* ---------- Records ---------- */

  /** A `Donnees` row the import creates; `valeur` is the text `float()` reads. */
  datatype Record = Record(ligne: string, colonne: string, unite: string, source: string, valeur: string)

  /** What the conversion of one cell gives: the text `float()` is asked to read, and the
      unit. */
  datatype Reading = Reading(valeur: string, unite: string)

  /** The readings of the cells of a row. */
  function Readings(row: seq<string>): (r: seq<Reading>)
    ensures |r| == |row| && forall i :: 0 <= i < |row| ==> r[i] == Reading(Normalise(row[i]), Unite(row[i]))
  {
    seq(|row|, i requires 0 <= i < |row| => Reading(Normalise(row[i]), Unite(row[i])))
  }

  /** The record cell `i` of a data row stands for, given the cell's reading: labelled by the
      row's first cell and by the header above the cell. */
  function RecordOf(row: seq<string>, cell: Reading, i: nat, headers: seq<string>, source: string): Record
    requires i < |row|
  {
    Record(row[0], ColumnName(headers, i), cell.unite, source, cell.valeur)
  }

  /** Cell `i` (after the first) of a data row, read as `cells[i]`, reads as a number and
      makes `rec`. */
  predicate MadeAt(row: seq<string>, cells: seq<Reading>, i: nat, headers: seq<string>, source: string,
                   parses: string -> bool, rec: Record)
    requires |cells| == |row|
  {
    1 <= i < |row| && parses(cells[i].valeur) && rec == RecordOf(row, cells[i], i, headers, source)
  }

  /** The records of cells `1 .. n - 1` of a data row whose cells read as `cells`. */
  function RowRecords(row: seq<string>, cells: seq<Reading>, n: nat, headers: seq<string>, source: string,
                      parses: string -> bool): seq<Record>
    requires n <= |row| == |cells|
  {
    if n <= 1 then []
    else (RowRecords(row, cells, n - 1, headers, source, parses)
      + if parses(cells[n - 1].valeur) then [RecordOf(row, cells[n - 1], n - 1, headers, source)] else [])
  }

  /** The records of a data row. */
  function LineRecords(row: seq<string>, headers: seq<string>, source: string, parses: string -> bool): seq<Record> {
    RowRecords(row, Readings(row), |row|, headers, source, parses)
  }

  /** The records of all data rows. */
  function Records(lignes: seq<seq<string>>, headers: seq<string>, source: string, parses: string -> bool): seq<Record> {
    if |lignes| == 0 then []
    else Records(lignes[..|lignes| - 1], headers, source, parses) + LineRecords(lignes[|lignes| - 1], headers, source, parses)
  }

  /** Every record of a data row comes from a cell after the first that reads as a number. */
  lemma {:induction false} RowRecordSource(row: seq<string>, cells: seq<Reading>, n: nat, headers: seq<string>,
                                           source: string, parses: string -> bool, rec: Record) returns (i: nat)
    requires n <= |row| == |cells| && rec in RowRecords(row, cells, n, headers, source, parses)
    ensures i < n && MadeAt(row, cells, i, headers, source, parses, rec)
  {
    var prev := RowRecords(row, cells, n - 1, headers, source, parses);
    if rec in prev {
      i := RowRecordSource(row, cells, n - 1, headers, source, parses, rec);
    } else {
      i := n - 1;
    }
  }

  /** Every cell after the first that reads as a number gives its record. */
  lemma {:induction false} RowRecordMade(row: seq<string>, cells: seq<Reading>, n: nat, headers: seq<string>,
                                         source: string, parses: string -> bool, i: nat)
    requires n <= |row| == |cells| && 1 <= i < n && parses(cells[i].valeur)
    ensures RecordOf(row, cells[i], i, headers, source) in RowRecords(row, cells, n, headers, source, parses)
  {
    if i < n - 1 {
      RowRecordMade(row, cells, n - 1, headers, source, parses, i);
    }
  }

  /** A data row's records: exactly one per cell after the first whose normalised text reads
      as a number, labelled by the row's first cell and by the header above the cell. */
  lemma LineRecordsMembers(row: seq<string>, headers: seq<string>, source: string, parses: string -> bool, rec: Record)
    ensures rec in LineRecords(row, headers, source, parses)
      <==> exists i: nat :: (1 <= i < |row| && parses(Normalise(row[i]))
        && rec == Record(row[0], ColumnName(headers, i), Unite(row[i]), source, Normalise(row[i])))
  {
    var cells := Readings(row);
    if rec in LineRecords(row, headers, source, parses) {
      var i := RowRecordSource(row, cells, |row|, headers, source, parses, rec);
      assert cells[i] == Reading(Normalise(row[i]), Unite(row[i]));
    }
    if exists i: nat :: 1 <= i < |row| && parses(Normalise(row[i]))
        && rec == Record(row[0], ColumnName(headers, i), Unite(row[i]), source, Normalise(row[i])) {
      var i: nat :| 1 <= i < |row| && parses(Normalise(row[i]))
        && rec == Record(row[0], ColumnName(headers, i), Unite(row[i]), source, Normalise(row[i]));
      assert cells[i] == Reading(Normalise(row[i]), Unite(row[i]));
      RowRecordMade(row, cells, |row|, headers, source, parses, i);
    }
  }

  /** Every record of a sheet comes from one of its data rows. */
  lemma {:induction false} RecordSource(lignes: seq<seq<string>>, headers: seq<string>, source: string,
                                        parses: string -> bool, rec: Record) returns (k: nat)
    requires rec in Records(lignes, headers, source, parses)
    ensures k < |lignes| && rec in LineRecords(lignes[k], headers, source, parses)
  {
    var n := |lignes| - 1;
    var init := lignes[..n];
    if rec in Records(init, headers, source, parses) {
      k := RecordSource(init, headers, source, parses, rec);
      assert init[k] == lignes[k];
    } else {
      k := n;
    }
  }

  /** Every record of a data row is a record of the sheet. */
  lemma {:induction false} RecordKept(lignes: seq<seq<string>>, headers: seq<string>, source: string,
                                      parses: string -> bool, k: nat, rec: Record)
    requires k < |lignes| && rec in LineRecords(lignes[k], headers, source, parses)
    ensures rec in Records(lignes, headers, source, parses)
  {
    var n := |lignes| - 1;
    if k < n {
      var init := lignes[..n];
      assert init[k] == lignes[k];
      RecordKept(init, headers, source, parses, k, rec);
    }
  }

  /** The inner loop, over `enumerate(row[1:], start=1)`. */
  method ImportRow(recs: seq<Record>, row: seq<string>, headers: seq<string>, source: string, parses: string -> bool)
    returns (r: seq<Record>)
    ensures r == recs + LineRecords(row, headers, source, parses)
  {
    r := recs;
    if |row| == 0 {
      return;
    }
    var ligneLabel := row[0];
    var cells := Readings(row);
    for i := 1 to |row|
      invariant r == recs + RowRecords(row, cells, i, headers, source, parses)
    {
      var cell := cells[i];
      RowRecordsStep(recs, r, row, cells, i, headers, source, parses);
      if parses(cell.valeur) {
        r := r + [Record(ligneLabel, ColumnName(headers, i), cell.unite, source, cell.valeur)];
      }
    }
  }

  /** One turn of the inner loop. */
  lemma RowRecordsStep(recs: seq<Record>, r: seq<Record>, row: seq<string>, cells: seq<Reading>, i: nat,
                       headers: seq<string>, source: string, parses: string -> bool)
    requires 1 <= i < |row| == |cells| && r == recs + RowRecords(row, cells, i, headers, source, parses)
    ensures parses(cells[i].valeur) ==> r + [RecordOf(row, cells[i], i, headers, source)] == recs + RowRecords(row, cells, i + 1, headers, source, parses)
    ensures !parses(cells[i].valeur) ==> r == recs + RowRecords(row, cells, i + 1, headers, source, parses)
  {
    var made := if parses(cells[i].valeur) then [RecordOf(row, cells[i], i, headers, source)] else [];
    ConcatAssoc(recs, RowRecords(row, cells, i, headers, source, parses), made);
    if !parses(cells[i].valeur) {
      assert r + made == r;
    }
  }

  /** The loop over the data rows. */
  method ImportRows(lignes: seq<seq<string>>, headers: seq<string>, source: string, parses: string -> bool)
    returns (recs: seq<Record>)
    ensures recs == Records(lignes, headers, source, parses)
  {
    recs := [];
    for k := 0 to |lignes|
      invariant recs == Records(lignes[..k], headers, source, parses)
    {
      assert lignes[..k + 1][..k] == lignes[..k];
      recs := ImportRow(recs, lignes[k], headers, source, parses);
    }
    assert lignes[..|lignes|] == lignes;
  }

  /* ---------- The view ---------- */

  /** The `Tableau` created for one sheet, with its records. `categorieId` is the `categorie_id`
      every one of those records is created with. */
  datatype Imported = Imported(nomFeuille: string, titre: string, themeId: string, source: string,
                               etiquette: string, categorieId: string, records: seq<Record>)

  /** What one sheet turns into. */
  function SheetImport(sh: Sheet, themeId: string, catId: string, parses: string -> bool): Imported {
    var st := Scan(RowStrs(sh.rows));
    Imported(sh.name, SheetTitle(st, sh.name), themeId, st.source, st.etiquette, catId,
      Records(st.lignes, st.headers, st.source, parses))
  }

  /** What the sheets turn into: one `Tableau` per sheet, in the order of the sheets. */
  function SheetImports(sheets: seq<Sheet>, themeId: string, catId: string, parses: string -> bool): (r: seq<Imported>)
    ensures |r| == |sheets|
    ensures forall i :: 0 <= i < |sheets| ==> r[i] == SheetImport(sheets[i], themeId, catId, parses)
  {
    MapSeq(sheets, (sh: Sheet) => SheetImport(sh, themeId, catId, parses))
  }

  /** The body of the loop over `wb.sheetnames`. */
  method ImportSheet(sh: Sheet, themeId: string, catId: string, parses: string -> bool) returns (t: Imported)
    ensures t == SheetImport(sh, themeId, catId, parses)
  {
    var st := ScanSheet(sh.rows);
    var titre := SheetTitle(st, sh.name);
    var recs := ImportRows(st.lignes, st.headers, st.source, parses);
    t := Imported(sh.name, titre, themeId, st.source, st.etiquette, catId, recs);
  }

  /** A form value that Python reads as true. */
  predicate Given(x: Option<string>) { x.Some? && x.value != "" }

  /** `ImportExcelView.post`. `workbook` is `None` when no file was sent, otherwise the outcome
      of opening it (the sheets, or the message of the exception). */
  method Import(workbook: Option<Result<seq<Sheet>, string>>, themeId: Option<string>, catId: Option<string>,
                parses: string -> bool)
    returns (r: Result<seq<Imported>, string>)
    ensures !(workbook.Some? && Given(themeId) && Given(catId)) ==> r == Failure(MISSING_INPUT)
    ensures workbook.Some? && Given(themeId) && Given(catId) && workbook.value.Failure?
      ==> r == Failure(READ_ERROR + workbook.value.error)
    ensures workbook.Some? && Given(themeId) && Given(catId) && workbook.value.Success?
      ==> r == Success(SheetImports(workbook.value.value, themeId.value, catId.value, parses))
  {
    if !(workbook.Some? && Given(themeId) && Given(catId)) {
      return Failure(MISSING_INPUT);
    }
    if workbook.value.Failure? {
      return Failure(READ_ERROR + workbook.value.error);
    }
    var sheets := workbook.value.value;
    var out: seq<Imported> := [];
    for k := 0 to |sheets|
      invariant out == SheetImports(sheets[..k], themeId.value, catId.value, parses)
    {
      assert sheets[..k + 1][..k] == sheets[..k];
      var t := ImportSheet(sheets[k], themeId.value, catId.value, parses);
      out := out + [t];
    }
    assert sheets[..|sheets|] == sheets;
    r := Success(out);
  }
}

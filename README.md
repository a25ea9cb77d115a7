# ANSADE statistics portal: a verified model of its table pipeline

The ANSADE portal publishes the statistical tables of Mauritania's national statistics agency.
Tables are imported from Excel workbooks and browsed by category, theme and table. Each table
can be shown in full, filtered by line and column, analysed, and drawn on a map of the wilayas.
The back end (`views.py`, Django) stores a table as flat records `(ligne, colonne, valeur,
unite)`. The structure views turn those records into grouped columns, rows and sub-indicators.
The React front end lays that payload out: it builds a column axis and header rows, looks up
and formats cells, and shows legends. Around this pipeline are small page rules: searching,
filtering lists by text, breadcrumbs, the header's links, the role checks of the update pages,
and the colour scale of the map.

This project models that core in Dafny and proves what each part promises. Modules follow the
source files:

| module | file | what it models |
|---|---|---|
| `StructureView` | `backend/ansade_app/views.py` | the grouping done by `TableauDetailStructureView` and `TableauFiltreStructureView` |
| `FilterViews` | `backend/ansade_app/views.py` | `TableauFiltresOptionsView`; the filters of `TableauFiltreView` and `TableauFiltreStructureView` |
| `SearchViews` | `backend/ansade_app/views.py` | `ListeSourcesAPIView`, `RechercheGlobaleAPIView`, `TableauAnalyseAPIView` |
| `ImportExcel` | `backend/ansade_app/views.py` | the sheet scan and cell normalisation of `ImportExcelView` |
| `Payload` | shared | the payload datatypes; the key order of `Object.entries` on parsed JSON |
| `TableDetail`, `CellFormat` | `frontend/src/pages/TableauDetail.tsx` | column axis, header rows, `getCell`, `formatCell`, status and projection legends, minimum width |
| `TableFilter` | `frontend/src/pages/TableauFiltre.tsx` | the checkbox toggle and `SimpleStructuredTable` |
| `Tableaux`, `Themes`, `Categories`, `Listing` | the three list pages | titles, text filter, id order, pick-to-navigate, card rules; `Listing` holds the shared pieces |
| `Breadcrumb` | `frontend/src/pages/Breadcrumb.tsx` | path segments, links and labels |
| `Auth` | `frontend/src/utils/auth.ts`, `ProtectedRoute.tsx` | the stored user, role predicates, the protected route, the key-value store |
| `Header` | `frontend/src/layouts/Header.tsx` | active links, link classes, editor links, logout |
| `RecherchePage` | `frontend/src/pages/RecherchePage.tsx` | the search page's state and its display rules |
| `AnalyseCarte` | `frontend/src/pages/AnalyseCarte.tsx` | colour buckets, style, first year selected |
| `Wrappers`, `Strings`, `Collections` | — | `Option`/`Result`; JavaScript and Python string primitives; sequence helpers (first-occurrence dedup, filter, insertion sorts) |

The models follow the form of the code they stand for:

- The back-end views are loops that fill dictionaries and lists. Each becomes a `method` with
  loop invariants. The method is proved equal to a specification function, and the properties
  are proved as lemmas about that function. A Python dictionary keeps its keys in insertion
  order; the model keeps that order explicitly in a key list beside the map.
- Some front-end code runs in place: `buildOrderFromGroups`, `detectVisibleStatuts` and the
  header span loop. That code is modelled as methods too.
- Pure front-end code becomes functions and lemmas.
- State that changes step by step becomes a class with `modifies` clauses: the key-value store
  (`Auth.Storage`) and the search page (`RecherchePage.Page`).

Some parts are taken as parameters or left open:

- Database queries are replaced by the list of records they return.
- Python's `float()` is a parameter, `parses: string -> bool`. The two-decimal rendering of a
  value is taken as an opaque string.
- `JSON.parse` of the stored user is a parameter, `parse: string -> Parsed`.
- Python set iteration order is left open: the methods pick an element with `:|`, and every
  contract is independent of the choice.

## Model

| member | source | states |
|---|---|---|
| `StructureView.CleanAll` | backend/ansade_app/views.py:190-199 | each record is read as its stripped line and column labels, its column cut at the first `~` |
| `StructureView.BuildStructure` | backend/ansade_app/views.py:173-249 | the structure built from the records: grouped columns as `GroupsFor` describes (sub-labels sorted in the filtered view), the rows `Data`, and `has_sous_indicateurs` iff some line label holds `~`; no records gives `{}`, `[]`, `false` |
| `StructureView.CollectRecords` | backend/ansade_app/views.py:184-210 | the record loop leaves `colonnes_principales` and `structure` as the folds `ColumnSets`, `PendingSubs` and `PlainCells`, with keys in first-occurrence order |
| `StructureView.AddColumn` | backend/ansade_app/views.py:201 | `colonnes_principales[cp].add(cs)` advances the fold by one record; a new key is added once, at the end |
| `StructureView.AddRecord` | backend/ansade_app/views.py:203-210 | a `~` line appends a pending sub-indicator and any other line writes its cell, advancing both folds by one record |
| `StructureView.GroupColumns` | backend/ansade_app/views.py:212-215 | the `colonnes_groupées` comprehension satisfies `GroupsFor`: one entry per principal column in first-occurrence order |
| `StructureView.ColumnLabels` | backend/ansade_app/views.py:213 | a column's list holds each sub-label once (sorted when asked), or is `[""]` when every sub-label is blank |
| `StructureView.BuildRows` | backend/ansade_app/views.py:218-238 | one row per indicator in key order: its regrouped sub-indicators when it has pending ones, else its plain cells |
| `StructureView.DataIs` | backend/ansade_app/views.py:218-238 | the rows built from the collected dictionaries are the specification `Data` of the records |
| `StructureView.RegroupSubIndicators` | backend/ansade_app/views.py:221-233 | the pending entries of an indicator are regrouped by name into `Regrouped` |
| `StructureView.AddEntry` | backend/ansade_app/views.py:222-226 | one pass of the regrouping loop: the entry joins the group of its name, which is created the first time the name is seen |
| `StructureView.ListGroups` | backend/ansade_app/views.py:229-232 | the `sous_indicateurs` list is one group per name, in first-occurrence order |
| `StructureView.ColumnSetsIs` | backend/ansade_app/views.py:201 | `colonnes_principales` has a key iff some record names that principal column, holding exactly its sub-labels |
| `StructureView.StructureIs` | backend/ansade_app/views.py:203-210 | `structure` has a key iff some record names that indicator, holding its pending entries and the cells of its plain records |
| `StructureView.RegroupMapIs` | backend/ansade_app/views.py:221-226 | `regroupé` has a key iff some entry has that name, holding the cells its entries write |
| `StructureView.HasSousOfMap` | backend/ansade_app/views.py:241-243 | `any(row.get("sous_indicateurs"))` holds iff some record's line label holds `~` |
| `StructureView.SubEntriesIff` | backend/ansade_app/views.py:203-208 | an indicator with a `~` record has pending entries |
| `StructureView.SubEntriesFrom` | backend/ansade_app/views.py:203-208 | every pending entry comes from a `~` record of that indicator, with its name, cell and text |
| `StructureView.SubLabelsIff` | backend/ansade_app/views.py:196-201 | a sub-label is listed under a principal column iff some record's column splits into that pair |
| `StructureView.UnseenColumn` | backend/ansade_app/views.py:201 | a principal column that no record names has no sub-labels |
| `StructureView.UnnamedIndicator` | backend/ansade_app/views.py:203-210 | an indicator that no record names has no entries and no cells |
| `StructureView.LookupWrite` | backend/ansade_app/views.py:210 | a cell write sets that cell and no other |
| `StructureView.CellsWritten` | backend/ansade_app/views.py:210 | a cell is present iff some plain record writes it |
| `StructureView.CellsLastWrite` | backend/ansade_app/views.py:210 | a present cell holds the text of the last record that writes it: later records overwrite earlier ones |
| `StructureView.CellsOverwriteExample` | backend/ansade_app/views.py:210 | of two records for the same cell, the second wins |
| `StructureView.CellsOfNoWrites` | backend/ansade_app/views.py:224-226 | a sub-indicator name that no entry carries has no cells |
| `StructureView.RowShape` | backend/ansade_app/views.py:218-238 | row `i` is the `i`-th distinct indicator; it carries sub-indicators xor plain cells, and sub-indicators iff one of its records has a `~` line (its plain cells are then dropped) |
| `StructureView.RowOrder` | backend/ansade_app/views.py:219 | indicators are emitted once each, in order of first occurrence |
| `StructureView.HasSousIff` | backend/ansade_app/views.py:240-243 | `has_sous_indicateurs` holds iff some emitted row carries sub-indicators |
| `StructureView.RegroupedNames` | backend/ansade_app/views.py:221-232 | sub-indicators have distinct names, exactly the names of the entries, in first-occurrence order, each with the cells of its entries |
| `FilterViews.KeysOf` | backend/ansade_app/views.py:275-279 | each label is grouped under its stripped text before the first `~`, or under itself |
| `FilterViews.TableauFiltresOptionsAsWritten` | backend/ansade_app/views.py:253-309 | a missing table is the 404 error; the request ends in a server error iff some record has a NULL line or column; otherwise the option lists list exactly the offered entries |
| `FilterViews.OptionsNullLineExample` | backend/ansade_app/views.py:264-267 | a table whose one record has no line makes the view as written fail, while the corrected view offers the blank line and the record's column |
| `FilterViews.TableauFiltresOptions` | backend/ansade_app/views.py:253-309 | with labels read as `x.strip() if x else ""`: a missing table is the 404 error; otherwise both option lists are sorted and list exactly the offered entries |
| `FilterViews.CollectLabels` | backend/ansade_app/views.py:262-270 | the record loop yields the sets of line and column labels, a NULL label reading as "" |
| `FilterViews.GroupOptions` | backend/ansade_app/views.py:273-287 | one option list: sorted, an entry is listed iff it is offered (whatever order the set is walked in), and each entry occurs as often as in the `lignes_finales` of some walk of the set, duplicates included (`OptionsOfWalk`) |
| `FilterViews.OptionsDuplicateExample` | backend/ansade_app/views.py:273-287 | the labels `a~b` and `a ~b` both give `a ~ b`, so that entry is listed twice |
| `FilterViews.SameSplitTwice` | backend/ansade_app/views.py:273-287 | any two labels with a `~` that split into the same key and sub-label give the same entry twice |
| `FilterViews.SplitLabelSpacing` | backend/ansade_app/views.py:276-278 | `a~b` and `a ~b` split into the same stripped key `a` and sub-label `b` |
| `FilterViews.GroupLabels` | backend/ansade_app/views.py:273-279 | the grouping loop fills `lignes_groupées` with its keys in first-insertion order |
| `FilterViews.AddLabel` | backend/ansade_app/views.py:275-279 | a `~` label appends its stripped sub-label under its key; a plain label only creates its key |
| `FilterViews.ListOptions` | backend/ansade_app/views.py:281-287 | `lignes_finales` lists key by key `"ind ~ sous"` for each sub-label, or the key alone |
| `FilterViews.AddEntries` | backend/ansade_app/views.py:283-287 | the inner loop appends one entry per sub-label, or the key alone when there are none |
| `FilterViews.OptionSubsKeys` | backend/ansade_app/views.py:273-279 | every key of `lignes_groupées` is the key of some label |
| `FilterViews.ListedSubHasLabel` | backend/ansade_app/views.py:275-277 | a sub-label listed under a key comes from a `~` label with that key |
| `FilterViews.LabelSubListed` | backend/ansade_app/views.py:275-277 | the sub-label of every `~` label is listed under its key |
| `FilterViews.FinalesMembers` | backend/ansade_app/views.py:281-287 | an entry of one key's group is in `lignes_finales` |
| `FilterViews.OfferedIff` | backend/ansade_app/views.py:262-309 | the listed entries are exactly the offered ones: an indicator with `~` variants only as `"ind ~ sous"`, one without as itself |
| `FilterViews.ListedIsOffered` | backend/ansade_app/views.py:281-287 | every listed entry is offered |
| `FilterViews.OfferedKey` | backend/ansade_app/views.py:281-287 | every offered entry is listed |
| `FilterViews.FiltreRecords` | backend/ansade_app/views.py:320-339 | the records kept are the table's records that pass the line and column conditions, in order |
| `FilterViews.TableauFiltre` | backend/ansade_app/views.py:311-341 | a missing table is the 404 error; otherwise the records that pass the filter |
| `FilterViews.EmptySelectionKeepsAll` | backend/ansade_app/views.py:322-337 | with no lines and no columns selected, every record of the table is kept, in order |
| `FilterViews.PlainLineCondition` | backend/ansade_app/views.py:325-332 | a selected line without `~` matches exactly its stripped text |
| `FilterViews.OfferedLineCondition` | backend/ansade_app/views.py:325-332 | an offered `"ind ~ sous"` entry matches the stored `ind~sous` unless `sous` is "ensemble" in any case, when it matches `ind` |
| `FilterViews.OptionTextSplit` | backend/ansade_app/views.py:325-327 | an offered entry cut at its `~` gives back its indicator and sub-label |
| `FilterViews.LineConditionOfParts` | backend/ansade_app/views.py:325-332 | a selection with one `~` filters on `ind~sous` from its stripped parts, or on `ind` alone when `sous` is "ensemble" in any case |
| `FilterViews.OrderedRecords` | backend/ansade_app/views.py:373 | the records read for the filtered structure are the filtered records, as a permutation, sorted by the database's key for `ligne` |
| `FilterViews.FiltreStructure` | backend/ansade_app/views.py:344-446 | a missing table is the 404 error; otherwise the structure of the filtered records taken in database order (`OrderedRecords`), with sorted sub-labels, and row `i` is for the `i`-th indicator of that order |
| `FilterViews.RowKeys` | backend/ansade_app/views.py:387-436 | the rows' indicators are distinct and are exactly the indicators of the records |
| `FilterViews.FiltreRowOrder` | backend/ansade_app/views.py:373-436 | in the sorted records, the row of an indicator whose records all sort before every record of another indicator comes first |
| `FilterViews.FiltreOrderExample` | backend/ansade_app/views.py:373 | a line arriving second but ranked first by the database is read first |
| `SearchViews.Present` | backend/ansade_app/views.py:38 | the non-NULL values are exactly the present ones |
| `SearchViews.ListeSourcesAsWrittenFails` | backend/ansade_app/views.py:36-39 | the view as written fails iff some table has no source and another has a non-empty one |
| `SearchViews.ListeSourcesNullExample` | backend/ansade_app/views.py:36-39 | one table without a source makes the written view fail; the corrected one lists the other source |
| `SearchViews.ListeSources` | backend/ansade_app/views.py:36-39 | the sources listed are sorted and distinct, exactly the non-empty non-NULL ones |
| `SearchViews.ListeSourcesAgree` | backend/ansade_app/views.py:36-39 | without NULL sources the view as written and the corrected one agree |
| `SearchViews.RechercheGlobale` | backend/ansade_app/views.py:50-83 | the response is `SearchResults`: nothing for a blank query, else the matching categories, themes and tables |
| `SearchViews.AppendCategories` | backend/ansade_app/views.py:59-64 | the loop appends one hit per matching category, in order |
| `SearchViews.AppendThemes` | backend/ansade_app/views.py:67-72 | the loop appends one hit per matching theme, in order |
| `SearchViews.AppendTableaux` | backend/ansade_app/views.py:75-81 | the loop appends one hit per matching table, with its source, in order |
| `SearchViews.SearchBlank` | backend/ansade_app/views.py:52-54 | a query that strips to nothing finds nothing |
| `SearchViews.SearchMembers` | backend/ansade_app/views.py:56-81 | every hit is a matching category, theme or table of the stripped query, and every match is a hit |
| `SearchViews.SearchOrder` | backend/ansade_app/views.py:56-81 | categories come first, then themes, then tables, one hit per match, in query order |
| `SearchViews.KindBlocks` | backend/ansade_app/views.py:56-81 | three blocks of one kind each are in rank order |
| `SearchViews.TableauType` | backend/ansade_app/views.py:461-469 | the type is one of "annees", "groupes", "carte", "generique" |
| `SearchViews.TableauTypeIff` | backend/ansade_app/views.py:461-469 | each type is chosen iff its rule holds and every rule of higher priority fails |
| `SearchViews.NoColumnsIsAnnees` | backend/ansade_app/views.py:462-463 | a table without columns is "annees" |
| `SearchViews.YearsBeatWilayas` | backend/ansade_app/views.py:461-466 | year columns win over wilaya lines |
| `SearchViews.TruthyLignes` | backend/ansade_app/views.py:457 | the lines used are exactly the non-empty line labels |
| `SearchViews.TruthyColonnes` | backend/ansade_app/views.py:458 | the columns used are exactly the non-empty column labels |
| `SearchViews.Points` | backend/ansade_app/views.py:472-482 | one point per record, in record order |
| `SearchViews.TableauAnalyse` | backend/ansade_app/views.py:448-488 | a missing table is the 404 error; otherwise the title, the points and the type |
| `ImportExcel.RowStr` | backend/ansade_app/views.py:113 | a row's text has one stripped cell per cell, `''` for an empty one |
| `ImportExcel.ScanSheet` | backend/ansade_app/views.py:102-131 | the row loop, with its `continue` and `break`, leaves the state of the specification scan |
| `ImportExcel.SkipBeforeTitle` | backend/ansade_app/views.py:115-118 | rows before the first row holding "Tableau" are ignored |
| `ImportExcel.SkipBeforeHeaders` | backend/ansade_app/views.py:124-129 | blank rows after the title and before the headers are ignored |
| `ImportExcel.CollectRows` | backend/ansade_app/views.py:130-131 | once the headers are known, the non-blank rows are collected in order up to a source row |
| `ImportExcel.TitleStep` | backend/ansade_app/views.py:115-117 | the title row gives the title and starts the scan |
| `ImportExcel.HeaderStep` | backend/ansade_app/views.py:125-129 | the first non-blank row after the title gives the headers and `etiquette = headers[0]` |
| `ImportExcel.EndOfScan` | backend/ansade_app/views.py:120-122 | the scan stops at the first row with a cell starting with "source" in any case, and takes it as the source |
| `ImportExcel.ScanShape` | backend/ansade_app/views.py:112-131 | the whole scan: title row, header row, collected rows and end, as index ranges of the sheet |
| `ImportExcel.ScanWithoutHeaders` | backend/ansade_app/views.py:124-131 | a title followed only by blank rows gives no headers, no data rows and the default row label |
| `ImportExcel.NoTitleRow` | backend/ansade_app/views.py:112-134 | a sheet without a "Tableau" row yields no rows and the default row label |
| `ImportExcel.TitleKept` | backend/ansade_app/views.py:115-118 | once started, the scan keeps its title |
| `ImportExcel.TitleFound` | backend/ansade_app/views.py:115-117 | the title is the joined text of the first row holding "Tableau" |
| `ImportExcel.SheetTitleIs` | backend/ansade_app/views.py:133-134 | the default title `Titre non trouvé (sheet)` is used iff the sheet has no "Tableau" row |
| `ImportExcel.TitleRowNotBlank` | backend/ansade_app/views.py:116 | a title row always gives a non-empty title |
| `ImportExcel.NormaliseIs` | backend/ansade_app/views.py:149-155 | the normalised cell is the stripped cell without `%`, U+202F and spaces, with `,` turned into `.`; the unit is "%" iff the cell holds `%` |
| `ImportExcel.NormalisedClean` | backend/ansade_app/views.py:151-155 | the normalised text holds no `%`, U+202F, space or comma |
| `ImportExcel.RowStrStripped` | backend/ansade_app/views.py:147 | stripping a cell of `row_str` again changes nothing |
| `ImportExcel.Readings` | backend/ansade_app/views.py:147-155 | each cell is read as its normalised text and its unit |
| `ImportExcel.RowRecordSource` | backend/ansade_app/views.py:146-163 | every record of a data row comes from a cell after the first whose text reads as a number |
| `ImportExcel.RowRecordMade` | backend/ansade_app/views.py:146-163 | every cell after the first whose text reads as a number gives its record |
| `ImportExcel.LineRecordsMembers` | backend/ansade_app/views.py:144-169 | a data row's records are exactly one per cell `i >= 1` that reads as a number, labelled by `row[0]` and by `headers[i]`, or `Col{i}` past the headers |
| `ImportExcel.RecordSource` | backend/ansade_app/views.py:144 | every record of a sheet comes from one of its data rows |
| `ImportExcel.RecordKept` | backend/ansade_app/views.py:144 | every record of a data row is a record of the sheet |
| `ImportExcel.ImportRow` | backend/ansade_app/views.py:146-169 | the inner loop appends the row's records |
| `ImportExcel.ImportRows` | backend/ansade_app/views.py:144-169 | the loop over the data rows gives the sheet's records |
| `ImportExcel.SheetImports` | backend/ansade_app/views.py:102-169 | one created table per sheet, in sheet order, each with the request's theme and category |
| `ImportExcel.ImportSheet` | backend/ansade_app/views.py:102-169 | one sheet gives its table (name, title, theme, source, row label), the `categorie_id` of its records and the records |
| `ImportExcel.Import` | backend/ansade_app/views.py:89-171 | a missing file, theme or category is the 400 error; a file that cannot be read is the read error with its message; otherwise every sheet is imported with the given theme and category |
| `Payload.ObjectEntriesPermutes` | frontend/src/pages/TableauDetail.tsx:64 | `Object.entries` lists every member of the received object once |
| `Payload.ObjectEntriesIndexFirst` | frontend/src/pages/TableauDetail.tsx:64 | array-index keys (years) come first, in ascending numeric order |
| `Payload.ObjectEntriesNamed` | frontend/src/pages/TableauDetail.tsx:64 | an object without array-index keys keeps the order in which its members were sent |
| `Payload.ObjectEntriesKeys` | frontend/src/pages/TableauDetail.tsx:64 | the key order depends on the keys alone |
| `Payload.YearIsIndex` | frontend/src/pages/TableauDetail.tsx:64 | a four-digit year label is an array index |
| `Payload.ObjectEntriesExample` | frontend/src/pages/TableauDetail.tsx:64 | a year column moves ahead of a named column sent before it |
| `TableDetail.SubsOf` | frontend/src/pages/TableauDetail.tsx:65 | a principal column contributes at least one sub-label |
| `TableDetail.GroupItems` | frontend/src/pages/TableauDetail.tsx:65-68 | one item per sub-label, or one blank item |
| `TableDetail.Width` | frontend/src/pages/TableauDetail.tsx:62-69 | the axis spans at least one column per group |
| `TableDetail.BuildOrderFromGroups` | frontend/src/pages/TableauDetail.tsx:62-69 | the loop yields the flat axis of the groups in `Object.entries` order |
| `TableDetail.PushGroup` | frontend/src/pages/TableauDetail.tsx:64-68 | the loop body appends the group's items |
| `TableDetail.FlatOrderAppend` | frontend/src/pages/TableauDetail.tsx:62-69 | the axis of two runs of groups is the first axis followed by the second: no reordering |
| `TableDetail.FlatOrderLength` | frontend/src/pages/TableauDetail.tsx:62-69 | the axis has length sum of max(number of sub-labels, 1) |
| `TableDetail.FlatOrderMembers` | frontend/src/pages/TableauDetail.tsx:62-69 | an item is on the axis iff some group has that principal and that sub-label (blank for none) |
| `TableDetail.SelectOrder` | frontend/src/pages/TableauDetail.tsx:306-314 | a non-empty `colonnes_order` is used as it is; otherwise the axis derived from `colonnes_groupées`; nothing before a payload |
| `TableDetail.SingleHeaderRowOfGroups` | frontend/src/pages/TableauDetail.tsx:316-319 | on a derived axis the header is one row iff there is a group and no group names a sub-label |
| `TableDetail.MinTableWidth` | frontend/src/pages/TableauDetail.tsx:330-338 | the minimum width is 180 + 97 per column (96 for an empty axis); the sub-indicator column adds 140 |
| `TableDetail.GetCell` | frontend/src/pages/TableauDetail.tsx:71-80 | a present exact cell wins, even when blank; the result is "" or the text of some cell; no values give "" |
| `TableDetail.GetCellFallback` | frontend/src/pages/TableauDetail.tsx:71-80 | without the exact cell: the principal's unlabelled cell, then the transposed cell, then "" |
| `TableDetail.LineCells` | frontend/src/pages/TableauDetail.tsx:686 | a body line holds one formatted looked-up cell per column of the axis |
| `TableDetail.BodyRectangular` | frontend/src/pages/TableauDetail.tsx:593-692 | every body line has one cell per column, and there are as many lines as the rows produce |
| `TableDetail.NewFormatLines` | frontend/src/pages/TableauDetail.tsx:659-692 | the current format shows one line per row |
| `TableDetail.MissingCellReadsNA` | frontend/src/pages/TableauDetail.tsx:686 | a cell the lookup cannot find reads "NA" |
| `TableDetail.RunLen` | frontend/src/pages/TableauDetail.tsx:546-556 | a run has length at least 1, holds copies of its first label, and is maximal |
| `TableDetail.RunsExpand` | frontend/src/pages/TableauDetail.tsx:542-562 | repeating each header label by its span gives back the principal sequence, so the spans sum to the axis length |
| `TableDetail.RunsMaximal` | frontend/src/pages/TableauDetail.tsx:542-562 | every span is at least 1 and neighbouring cells have different labels |
| `TableDetail.RunSpan` | frontend/src/pages/TableauDetail.tsx:548-551 | the inner loop stops at the end of the run of the principal at `i` |
| `TableDetail.HeaderSpans` | frontend/src/pages/TableauDetail.tsx:542-562 | the outer loop emits the maximal runs of equal principals |
| `TableDetail.OldHeaderCoversAxis` | frontend/src/pages/TableauDetail.tsx:519-588 | the old-format header covers the axis: the top row spans the axis, and the second row fills the columns not spanned from the top |
| `TableDetail.PayloadHeaderAligned` | backend/ansade_app/views.py:212-215 | the column groups the structure views send meet the alignment `OldHeaderCoversAxis` needs, as long as no sub-label is blank to JavaScript's `trim` but not to Python's `strip` |
| `TableDetail.BlankGroupSingle` | backend/ansade_app/views.py:212-215 | a column group whose sub-labels all trim to blank is the single `[""]` |
| `TableDetail.OldTopRowSnoc` | frontend/src/pages/TableauDetail.tsx:519-539 | the old top row has one cell per group |
| `TableDetail.CollectedChain` | frontend/src/pages/TableauDetail.tsx:399-418 | collecting one set of texts then another collects their union |
| `TableDetail.CheckCell` | frontend/src/pages/TableauDetail.tsx:405-407 | a cell adds its upper-cased text when it is a code not yet seen |
| `TableDetail.CheckValeurs` | frontend/src/pages/TableauDetail.tsx:402-408 | `checkValeurs` adds the codes hit by the cells of `valeurs`, each once |
| `TableDetail.CheckColumn` | frontend/src/pages/TableauDetail.tsx:404-407 | the inner loop adds the codes hit by one column's cells |
| `TableDetail.CheckRow` | frontend/src/pages/TableauDetail.tsx:410-415 | a row adds the codes hit by its own cells and its sub-indicators' cells |
| `TableDetail.DetectVisibleStatuts` | frontend/src/pages/TableauDetail.tsx:399-418 | the result is duplicate-free and holds exactly the codes of `statuts` equal to some upper-cased cell of a row or sub-indicator |
| `TableDetail.StatutLegendLines` | frontend/src/pages/TableauDetail.tsx:717-729 | the legend lists, once each and in the order N/D, NS, NA, the visible known codes |
| `TableDetail.NoStatutsNoneVisible` | frontend/src/pages/TableauDetail.tsx:292 | without a `statuts` list no code is visible |
| `TableDetail.ProjectionLegendIff` | frontend/src/pages/TableauDetail.tsx:731 | the projection legend shows iff some column is shaded |
| `TableDetail.YearShaded` | frontend/src/pages/TableauDetail.tsx:420-432 | in a projection table every four-digit label other than a census year is shaded |
| `TableDetail.ProjectionExampleShaded` | frontend/src/pages/TableauDetail.tsx:420-432 | "2030" in a projection table is shaded |
| `TableDetail.ProjectionExamplesPlain` | frontend/src/pages/TableauDetail.tsx:50 | a census year, and any year outside a projection table, is not shaded |
| `TableDetail.ProjectionSourceExample` | frontend/src/pages/TableauDetail.tsx:420-424 | "Projection" marks a projection source, whatever its case; "RGPH" does not |
| `TableDetail.MetaOf` | frontend/src/pages/TableauDetail.tsx:286-291 | each of the title, the source and the row label is kept when the payload has it; the defaults are "", "" and "Indicateur" |
| `TableDetail.RowHeaderLabel` | frontend/src/pages/TableauDetail.tsx:499 | the first header cell is never blank, and is the row label when that is set |
| `CellFormat.MatchNumber` | frontend/src/pages/TableauDetail.tsx:88 | a match's groups are a signed digit run and an optional `[.,]digits` part that rebuild the text |
| `CellFormat.MatchNumberComplete` | frontend/src/pages/TableauDetail.tsx:88 | the pattern matches in at most one way, and the matcher finds it |
| `CellFormat.Grouped` | frontend/src/pages/TableauDetail.tsx:90 | the right-to-left grouping of a non-empty digit string is non-empty and begins and ends with the input's first and last digits |
| `CellFormat.SpacedIsGrouped` | frontend/src/pages/TableauDetail.tsx:90 | the lookahead regex's grouping equals the right-to-left grouping by three |
| `CellFormat.GroupedRemoveSpaces` | frontend/src/pages/TableauDetail.tsx:90 | grouping only inserts spaces: removing them gives back the digits |
| `CellFormat.GroupedChars` | frontend/src/pages/TableauDetail.tsx:90 | grouped digits hold only digits and spaces |
| `CellFormat.GroupedGroups` | frontend/src/pages/TableauDetail.tsx:90 | the groups are a leading group of 1 to 3 digits, then groups of exactly 3 |
| `CellFormat.GroupIntPartChars` | frontend/src/pages/TableauDetail.tsx:90 | the grouped integer part keeps its sign and ends with a digit |
| `CellFormat.FormatCellBlank` | frontend/src/pages/TableauDetail.tsx:83-85 | a missing, empty or white-space cell reads "NA" |
| `CellFormat.FormatCellNotBlank` | frontend/src/pages/TableauDetail.tsx:82-93 | a non-blank cell is not shown as "NA" unless it says so |
| `CellFormat.FormatCellPercent` | frontend/src/pages/TableauDetail.tsx:86 | a cell holding "%" is shown trimmed and otherwise as it is |
| `CellFormat.FormatCellText` | frontend/src/pages/TableauDetail.tsx:87-89 | a cell whose white-space-free text is not a number is shown trimmed |
| `CellFormat.FormatCellNumber` | frontend/src/pages/TableauDetail.tsx:87-92 | a number keeps its sign and decimal part; removing spaces from the result gives the cell without white space |
| `CellFormat.FormatCellIdempotent` | frontend/src/pages/TableauDetail.tsx:82-93 | formatting a formatted cell changes nothing |
| `CellFormat.FormatCellTrims` | frontend/src/pages/TableauDetail.tsx:82-93 | a non-blank cell is formatted from its trimmed text alone |
| `CellFormat.NAFixed` | frontend/src/pages/TableauDetail.tsx:82-93 | "NA" formats to itself |
| `CellFormat.FormatTextFixed` | frontend/src/pages/TableauDetail.tsx:86-92 | the output for trimmed non-blank text formats to itself |
| `CellFormat.FormattedNumberFixed` | frontend/src/pages/TableauDetail.tsx:88-91 | a grouped number formats to itself |
| `CellFormat.FormatCellDigits` | frontend/src/pages/TableauDetail.tsx:87-92 | a whole number is shown as its digits grouped by three |
| `CellFormat.FormatCellExampleInteger` | frontend/src/pages/TableauDetail.tsx:90 | "1234567" is shown "1 234 567" |
| `CellFormat.GroupedExamples` | frontend/src/pages/TableauDetail.tsx:90 | seven digits group as "1 234 567" |
| `CellFormat.FormatCellExampleText` | frontend/src/pages/TableauDetail.tsx:89 | text is shown trimmed |
| `CellFormat.FormatCellExamplePercent` | frontend/src/pages/TableauDetail.tsx:86 | a percentage is shown as it is, space included |
| `TableFilter.ToggleFlips` | frontend/src/pages/TableauFiltre.tsx:92-93 | a click flips whether the option is selected |
| `TableFilter.ToggleOthers` | frontend/src/pages/TableauFiltre.tsx:92-93 | a click leaves every other option's state unchanged |
| `TableFilter.ToggleAppends` | frontend/src/pages/TableauFiltre.tsx:93 | selecting keeps the selection in order and adds the option at the end |
| `TableFilter.ToggleRemoves` | frontend/src/pages/TableauFiltre.tsx:93 | deselecting removes every occurrence and keeps the others in order |
| `TableFilter.ToggleTwice` | frontend/src/pages/TableauFiltre.tsx:92-93 | selecting then deselecting an option restores the selection |
| `TableFilter.ToggleNoDup` | frontend/src/pages/TableauFiltre.tsx:92-93 | a selection made by clicks lists no option twice |
| `TableFilter.ToggleTwiceSelected` | frontend/src/pages/TableauFiltre.tsx:92-93 | two clicks on a selected option select the same options, with it moved to the end |
| `TableFilter.DropOnce` | frontend/src/pages/TableauFiltre.tsx:93 | deselecting from a duplicate-free selection shortens it by one |
| `TableFilter.Columns` | frontend/src/pages/TableauFiltre.tsx:120 | one column head per member of `colonnes_groupées` |
| `TableFilter.Header` | frontend/src/pages/TableauFiltre.tsx:126-130 | "Indicateur" then one head per column |
| `TableFilter.HeaderIgnoresSubs` | frontend/src/pages/TableauFiltre.tsx:126-130 | the heads depend on the column names alone |
| `TableFilter.CellText` | frontend/src/pages/TableauFiltre.tsx:143 | a cell is the unlabelled sub-cell of its column, or "" |
| `TableFilter.Texts` | frontend/src/pages/TableauFiltre.tsx:141-145 | one cell per column head |
| `TableFilter.RowLines` | frontend/src/pages/TableauFiltre.tsx:135-165 | a row with a `sous_indicateurs` field gives one line per sub-indicator, zero for an empty array; any other row one line |
| `TableFilter.Blocks` | frontend/src/pages/TableauFiltre.tsx:134-166 | one block of lines per row, in order |
| `TableFilter.SubLine` | frontend/src/pages/TableauFiltre.tsx:153-164 | line `k` of group `i` is labelled by both names, shaded iff `i + k` is odd, with the sub-indicator's cells |
| `TableFilter.PlainLine` | frontend/src/pages/TableauFiltre.tsx:136-147 | a plain row's line is its indicator, shaded iff `i` is odd, with its own cells |
| `TableFilter.BodyLineOrigin` | frontend/src/pages/TableauFiltre.tsx:134-166 | every body line is line `k` of some row `i` and has one cell per column head |
| `TableFilter.BodyLength` | frontend/src/pages/TableauFiltre.tsx:134-166 | the body has the rows' heights' worth of lines |
| `Listing.TextFilteredBlank` | frontend/src/pages/Themes.tsx:66-68 | a blank query keeps every item |
| `Listing.TextFilteredKeeps` | frontend/src/pages/Themes.tsx:66-70 | an item is kept iff it is listed and, for a non-blank query, its lower-cased name contains the trimmed lower-cased query; order is kept |
| `Listing.TextFilteredHides` | frontend/src/pages/Themes.tsx:69 | a non-blank query that a name does not contain hides that item |
| `Listing.PickFirst` | frontend/src/pages/Themes.tsx:74-76 | the pick finds an item iff some name equals the value up to case, and then the first |
| `Listing.FirstRuleDecides` | frontend/src/pages/Themes.tsx:20-31 | the first rule that fires decides |
| `Listing.FirstRuleFallback` | frontend/src/pages/Themes.tsx:30 | when no rule fires, the fallback is chosen |
| `Tableaux.ExtraireTitreBetween` | frontend/src/pages/Tableaux.tsx:21-24 | with a first ":" and a first ";" after it, the short title is the trimmed text between them |
| `Tableaux.ExtraireTitreAfter` | frontend/src/pages/Tableaux.tsx:25 | with a ":" and no later ";", the short title is the trimmed text after the first ":" |
| `Tableaux.ExtraireTitreWhole` | frontend/src/pages/Tableaux.tsx:26 | a title without ":" is its own short title |
| `Tableaux.OfTheme` | frontend/src/pages/Tableaux.tsx:44 | the tables kept are those of theme `parseInt(id \|\| "0")`, in the order received |
| `Tableaux.NoIdIsThemeZero` | frontend/src/pages/Tableaux.tsx:44 | without an id the page keeps the tables of theme 0 |
| `Tableaux.NumericIdIsTheme` | frontend/src/pages/Tableaux.tsx:44 | a numeric id keeps the tables of that theme |
| `Tableaux.NaNIdKeepsNothing` | frontend/src/pages/Tableaux.tsx:44 | an id not starting with a number keeps no table |
| `Tableaux.TableauxById` | frontend/src/pages/Tableaux.tsx:57 | the same tables, as a permutation, in ascending id order |
| `Collections.SortByStable` | frontend/src/pages/Tableaux.tsx:57 | the sort is stable: the elements of each key keep their relative order |
| `Tableaux.FilteredShows` | frontend/src/pages/Tableaux.tsx:60-64 | a table is shown iff it is held and its short title contains the query (all of them for a blank query); id order is kept |
| `Tableaux.HandlePickNavigates` | frontend/src/pages/Tableaux.tsx:67-73 | the query is always set; the page navigates iff a short title equals the value up to case, to the first such table |
| `Tableaux.HandleDownload` | frontend/src/pages/Tableaux.tsx:76-80 | the address opened is `/api/tableaux/{id}/export?format={fmt}`, and the menu is closed |
| `Tableaux.DownloadUrlInjective` | frontend/src/pages/Tableaux.tsx:77 | different tables or formats never share an export address |
| `Tableaux.ToggleMenu` | frontend/src/pages/Tableaux.tsx:170 | the download button opens its table's menu, or closes it when open |
| `Tableaux.LeaveCard` | frontend/src/pages/Tableaux.tsx:132 | leaving a card closes its own menu and leaves another table's menu open |
| `Tableaux.ToggleMenuTwice` | frontend/src/pages/Tableaux.tsx:170 | two clicks on the same button restore the menu state |
| `Themes.MetaByThemeRules` | frontend/src/pages/Themes.tsx:20-31 | the card is the first rule matching the lower-cased name (ASCII and Latin-1 capitals folded): démograph/demograph, sant, éduc/educ, etat civil/état civil, else the default |
| `Themes.AccentedEducationExample` | frontend/src/pages/Themes.tsx:21-26 | "Éducation" is lower-cased to "éducation" and gets the education card |
| `Themes.AccentedEtatCivilExample` | frontend/src/pages/Themes.tsx:21-27 | "État civil" is lower-cased to "état civil" and gets the civil-status card |
| `Themes.EtatCivilCard` | frontend/src/pages/Themes.tsx:21-27 | a name that holds "état civil" and no earlier pattern gets the civil-status card |
| `Themes.SanteOutranksEducation` | frontend/src/pages/Themes.tsx:22-27 | a health name gets the health card even when it also mentions education; only demography outranks it |
| `Themes.Loaded` | frontend/src/pages/Themes.tsx:40-48 | nothing without an id; else the themes of category `parseInt(id)`, in the order received |
| `Themes.LoadedHolds` | frontend/src/pages/Themes.tsx:41-47 | a theme is held iff an id is given, the theme is listed, and its category is the number the id starts with |
| `Themes.LoadedCategory` | frontend/src/pages/Themes.tsx:47 | a category's own decimal text selects that category |
| `Themes.ThemesById` | frontend/src/pages/Themes.tsx:60-63 | the held themes as a permutation in ascending id order |
| `Themes.FilteredShows` | frontend/src/pages/Themes.tsx:66-70 | a theme is shown iff it is held and its name contains the query (all for a blank query), in id order |
| `Themes.HandlePickNavigates` | frontend/src/pages/Themes.tsx:72-78 | the query is always set; the page navigates iff a name equals the value up to case, to the first such theme |
| `Categories.MetaByCategoryRules` | frontend/src/pages/Categories.tsx:19-26 | the card is the first rule matching the lower-cased name (ASCII and Latin-1 capitals folded): démograph, pauvret, environnement, économ/econom, else the default |
| `Categories.AccentedCapitalExample` | frontend/src/pages/Categories.tsx:19-24 | "Économie" is lower-cased to "économie" and gets the economy card |
| `Categories.UnaccentedDemography` | frontend/src/pages/Categories.tsx:21 | unlike the theme cards, unaccented "demograph" does not select the demography card |
| `Categories.Filtered` | frontend/src/pages/Categories.tsx:40-49 | the matching categories (all for a blank query), in ascending id order |
| `Categories.FilteredLists` | frontend/src/pages/Categories.tsx:40-49 | the listed categories are a permutation of the matching ones |
| `Categories.AlwaysAll` | frontend/src/pages/Categories.tsx:30 | the query is never set, so every category is listed, in ascending id order |
| `Breadcrumb.SegmentsClean` | frontend/src/pages/Breadcrumb.tsx:8-11 | segments are non-empty and hold no "/" |
| `Breadcrumb.RouteToSegments` | frontend/src/pages/Breadcrumb.tsx:23 | the link of crumb `i` leads to the page of the first `i + 1` segments |
| `Breadcrumb.RouteToExtends` | frontend/src/pages/Breadcrumb.tsx:23 | each link extends the previous one by "/" and the next segment |
| `Breadcrumb.LastRouteIsPath` | frontend/src/pages/Breadcrumb.tsx:23 | the last route is the current path in normal form |
| `Breadcrumb.WordInitialsUpper` | frontend/src/pages/Breadcrumb.tsx:30 | the word-initial upper-casing keeps the length |
| `Breadcrumb.Label` | frontend/src/pages/Breadcrumb.tsx:26-32 | a label is as long as its segment |
| `Breadcrumb.SecondLetterUpper` | frontend/src/pages/Breadcrumb.tsx:28-30 | the first two letters are upper-cased, since the rest is a text of its own |
| `Breadcrumb.InsideWordKept` | frontend/src/pages/Breadcrumb.tsx:30 | a character inside a word is kept |
| `Breadcrumb.LabelTableaux` | frontend/src/pages/Breadcrumb.tsx:26-32 | "tableaux" is labelled "TAbleaux" |
| `Breadcrumb.HyphenStartsWord` | frontend/src/pages/Breadcrumb.tsx:29-30 | a "-" becomes a space, and the next word character is upper-cased |
| `Breadcrumb.DigitsUnchanged` | frontend/src/pages/Breadcrumb.tsx:26-32 | a segment of digits is labelled as it is |
| `Breadcrumb.SegmentCrumbs` | frontend/src/pages/Breadcrumb.tsx:15-24 | one crumb per segment |
| `Breadcrumb.TrailShape` | frontend/src/pages/Breadcrumb.tsx:15-45 | nothing without segments; else "Accueil" to "/", then one crumb per segment, each linked except the last, crumb `i` leading to the first `i + 1` segments |
| `Auth.StoredUser` | frontend/src/utils/auth.ts:1-4 | an absent or empty "user" entry gives null; else its parsed text |
| `Auth.ReadingsAgree` | frontend/src/utils/auth.ts:1-10 | reading through `\|\| "null"` agrees with `getUserFromLocalStorage` |
| `Auth.RolesNest` | frontend/src/utils/auth.ts:6-15 | a head is an admin-or-head, an admin-or-head is signed in, and `isAdminOrChef` is a signed-in head or superuser |
| `Auth.NoUserNoRole` | frontend/src/utils/auth.ts:1-15 | without a stored user no role holds |
| `Auth.ProtectedRoute` | frontend/src/pages/ProtectedRoute.tsx:5-7 | the children are rendered iff `isAdminOrChef`; else a redirect to "/accueil" |
| `Auth.WithoutSessionKeeps` | frontend/src/layouts/Header.tsx:14-15 | removing the session drops "access" and "user" and keeps every other entry |
| `Auth.Storage.constructor` | frontend/src/layouts/Header.tsx:14-15 | the store starts with the given entries |
| `Auth.Storage.Get` | frontend/src/utils/auth.ts:2 | `getItem` gives the entry's value iff the key is held |
| `Auth.Storage.RemoveItem` | frontend/src/layouts/Header.tsx:14-15 | `removeItem` drops that key and keeps the others |
| `Header.AdminCanUpdate` | frontend/src/layouts/Header.tsx:9-11 | everyone `isAdminOrChef` lets in sees the update links |
| `Header.StaffOnlyRedirected` | frontend/src/layouts/Header.tsx:10-11 | a staff-only user sees "Mise à jour" but the page redirects to "/accueil" |
| `Header.HomeActive` | frontend/src/layouts/Header.tsx:30-31 | the home link is active iff the path is "/accueil" or "/" |
| `Header.PrefixActive` | frontend/src/layouts/Header.tsx:32 | any other link is active iff its path is a raw prefix of the current path |
| `Header.LinkClasses` | frontend/src/layouts/Header.tsx:35-36 | a link always has the base and underline classes |
| `Header.LinkClassesActive` | frontend/src/layouts/Header.tsx:35-36 | the highlight class is added iff the link is active |
| `Header.NavLinksShown` | frontend/src/layouts/Header.tsx:53-71 | the four public links come first; "Mise à jour" and "Gestion" follow iff `canUpdate` |
| `Header.HandleLogout` | frontend/src/layouts/Header.tsx:13-17 | logout removes exactly "access" and "user" and goes to "/login" |
| `Header.LoggedOutHeader` | frontend/src/layouts/Header.tsx:76-89 | after logout the header shows neither the logout button nor the update links |
| `RecherchePage.Displayed` | frontend/src/pages/RecherchePage.tsx:38 | all results once "Voir tous" is clicked; else the first five, or all when fewer |
| `RecherchePage.NothingHidden` | frontend/src/pages/RecherchePage.tsx:80-87 | "Voir tous" shows iff some result is not listed, with exactly five listed |
| `RecherchePage.DropdownOrMessage` | frontend/src/pages/RecherchePage.tsx:56-91 | the dropdown and "Aucun résultat" never show together; a short query shows neither; a settled long query shows one |
| `RecherchePage.LinkTarget` | frontend/src/pages/RecherchePage.tsx:61-69 | the link is "#" iff the kind is not Tableau, Categorie or Theme |
| `RecherchePage.HitsLink` | frontend/src/pages/RecherchePage.tsx:61-69 | back-end hits link to `/tableaux/id`, `/categories/id` and `/themes/id` |
| `RecherchePage.Page.constructor` | frontend/src/pages/RecherchePage.tsx:14-17 | the page starts with an empty query, no results, the list cut and no typing |
| `RecherchePage.Page.OnChange` | frontend/src/pages/RecherchePage.tsx:48-51 | the query becomes the text and typing starts; nothing else changes |
| `RecherchePage.Page.DebounceFire` | frontend/src/pages/RecherchePage.tsx:19-36 | a query longer than one character is sent; a shorter one clears the results; typing stops either way |
| `RecherchePage.Page.ResultsArrive` | frontend/src/pages/RecherchePage.tsx:25-26 | the answer replaces the results and the list is cut again |
| `RecherchePage.Page.ShowAll` | frontend/src/pages/RecherchePage.tsx:82 | after "Voir tous" every result is listed |
| `RecherchePage.FreshAnswerListing` | frontend/src/pages/RecherchePage.tsx:25-38 | fresh answers are listed from the top, at most five, with "Voir tous" iff some are left out |
| `AnalyseCarte.WilayaValue` | frontend/src/pages/AnalyseCarte.tsx:57 | a wilaya without a value reads 0 |
| `AnalyseCarte.Passed` | frontend/src/pages/AnalyseCarte.tsx:60-66 | a value passes at most all the thresholds |
| `AnalyseCarte.PassedMonotone` | frontend/src/pages/AnalyseCarte.tsx:60-66 | a larger value passes at least as many thresholds |
| `AnalyseCarte.FillColorByRank` | frontend/src/pages/AnalyseCarte.tsx:60-66 | the colour is the palette entry of the number of strict thresholds passed |
| `AnalyseCarte.FillColorMonotone` | frontend/src/pages/AnalyseCarte.tsx:60-66 | a larger value never gets a lighter colour |
| `AnalyseCarte.FillColorEdges` | frontend/src/pages/AnalyseCarte.tsx:60-66 | exactly 100000 gets "#a8ddb5"; a value gets "#ccc" iff it is at most 0 |
| `AnalyseCarte.GetStyle` | frontend/src/pages/AnalyseCarte.tsx:68-74 | every style field except the fill colour is constant |
| `AnalyseCarte.GetStyleOf` | frontend/src/pages/AnalyseCarte.tsx:55-75 | a wilaya without a value is grey; two values in the same bucket have the same style |
| `AnalyseCarte.Heading` | frontend/src/pages/AnalyseCarte.tsx:80 | the title when there is one, else "Carte des données" |
| `AnalyseCarte.FirstLoad` | frontend/src/pages/AnalyseCarte.tsx:39-52 | the first answer is held; with years, the first year is selected and requested |
| `AnalyseCarte.CarteUrl` | frontend/src/pages/AnalyseCarte.tsx:27-36 | nothing is requested without an id |

The detail page's filter dialog toggles its selections with the same expression
(frontend/src/pages/TableauDetail.tsx:202-207 and 226-231), so the `TableFilter.Toggle*` lemmas
cover it too.

## Left out

- Network and lifecycle: the `axios`/`fetch` calls, the `useEffect` hooks, the `alive` flag,
  and the token-refresh interceptor of `axiosInstance.ts`. Their answers are function
  parameters.
- `RecherchePage.Page.DebounceFire`: the 300 ms timer itself is not modelled, because timing
  and cancellation are concurrency. The method is the outcome when the timer fires.
- Django ORM and framework: `objects.filter`/`create`, `Q` and `order_by` become filters,
  sequences and sorts over in-memory records. The `models.py`, `serializers.py`, `admin.py`,
  `permissions.py` and `urls.py` files are not part of this model. `Donnees.ligne` is a string
  label, as the views treat it. A NULL `ligne` is `None`.
- `FilterViews.FiltreStructure`: `order_by('ligne')` sorts a foreign key by the related model's
  `Meta.ordering`, `LigneIndicateur.ordre` (models.py 69-76). That key is not among the modelled
  record fields, so it is the `rank` parameter. The database decides where nulls and equal
  keys go; the model fixes their order with a stable sort.
- Floating point: Python's `f"{v:.2f}".rstrip(...)` rendering is an opaque `valeur` string.
  `float()` is the `parses` parameter. `TableauAnalyse`'s points carry the same opaque rendered value as the structure views, where the view sends the stored float.
  `CarteParTableauAPIView`'s averages and `round` (views.py 494-533) are left out.
  `AnalyseGraphique.tsx` is left out.
- `AnalyseCarte.GetStyle`: values are `real`, so the `NaN` from a non-numeric value is not
  modelled.
- `Auth.StoredUser`: `JSON.parse` is the `parse` parameter. Its exception on invalid JSON, and
  the exact truthiness of every JSON value, are reduced to `Parsed`.
- Unicode: lower-casing (`toLowerCase`, `icontains`, `.lower()`) folds the ASCII capitals and the Latin-1 capitals U+00C0 to U+00DE (so "É" becomes "é"), and no others: capitals of other scripts, "Œ" and "Ÿ" are kept. Upper-casing (`toUpperCase`) is ASCII only. `toUpperCase` is used by `Breadcrumb.Label`, `Breadcrumb.WordInitialsUpper` and the status detection (`Strings.Upper`). In JavaScript "é" becomes "É" and "ß" becomes "SS", so the source can change a string's length, which the model's `Upper` never does. Python's `str.isdigit()` in `SearchViews.YearLike` (views.py 462-465) also accepts non-ASCII digits such as "٢٠٢٠" and "²"; the model's `IsDigit` accepts only 0 to 9.
  `localeCompare("fr")` sorting of options (TableauFiltre.tsx 25-26) is left out. Python
  `sorted` on strings is ordered by code point (`LexLe`).
- `RecherchePage.Page.DebounceFire`: `query.length` counts UTF-16 units in JavaScript and
  characters here.
- `Tableaux.HandleDownload`: `window.open` is the returned address.
- Python set iteration order in the unfiltered structure view (views.py 213) and in the option
  lister is not fixed. Contracts hold for every order.
- `StructureView.BuildStructure`: `colonnes_groupées` lists sub-labels in that unspecified set
  order. The contract states the set and its sortedness, not an order.
- The PDF and XLSX export, html2canvas, jspdf, xlsx, openpyxl workbook loading (a workbook is a
  sequence of named sheets of cell texts), leaflet/GeoJSON and recharts are left out.
- DOM measurement, scroll arrows and Tailwind classes are left out. Only the
  `nCols`/`minTablePx` arithmetic is kept.
- `TableDetail.GetCell`: the front-end `format`/`statuts` payload fields and `colonnes_order`
  are modelled as optional inputs. The structure views never send them.
- Presentation-only pages (`Accueil`, `BandeActualites`, `SourcesPage`, `MauritaniaMap`,
  `ChoixAnalyse`, `ChefDepartementDashboard`, `ImportExcel.tsx`, `LoginPage`, `MainLayout`,
  `App`, `BackButton`) and `TableauxParSourceAPIView` are not part of this model.

## Findings

| source | as written | input that shows it | evidently intended | confidence | as-written member | corrected member |
|---|---|---|---|---|---|---|
| backend/ansade_app/views.py:36-39 | `exclude(source="")` keeps tables whose `source` is NULL (the field is nullable), and `sorted` then compares `None` with a string, raising `TypeError` | two tables, one with source NULL and one with source "ONS": the request fails with a server error | list the distinct non-empty sources, sorted, ignoring tables without a source | not executed | `SearchViews.ListeSourcesAsWrittenFails` (with `SearchViews.ListeSourcesNullExample`) | `SearchViews.ListeSources` |
| backend/ansade_app/views.py:264-267 | the options loop calls `d.ligne.strip()` and `d.colonne.strip()` without the `if d.ligne` guard the structure views use (views.py 191, 390), and `Donnees.ligne` is a nullable foreign key (models.py 86). Read against that schema the call fails even on a non-NULL line, since a `LigneIndicateur` object has no `strip`; the model reads the labels as strings and so shows only the NULL case | a table with one record whose `ligne` is NULL: `None.strip()` raises `AttributeError` and the request fails with a server error | read the labels as the structure views do, `x.strip() if x else ""` | not executed | `FilterViews.TableauFiltresOptionsAsWritten` (with `FilterViews.OptionsNullLineExample`) | `FilterViews.TableauFiltresOptions` |

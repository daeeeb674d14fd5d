# Molar-mass calculator: a Dafny model

This project models the core of a desktop molar-mass calculator written in Python with PyQt and SQLite. The user picks elements one at a time from an element store and gives each a quantity. The window keeps an ordered list of `(symbol, quantity)` entries. On request it computes the total molar mass, shows the formula and saves the compound.

The model has four parts:

- **`ElementStore`** (`database_manager.py`) covers the element table, held as a sequence of records under the `UNIQUE` constraint on the symbol. It models:
  - point lookup, the listing ordered by atomic number, and substring search;
  - insert, update and delete;
  - saved compounds;
  - CSV export and import;
  - the seed data written into a new database.

  `Database` is a class whose methods update its tables in place. The queries are pure functions over the table.
- **`Calculator`** (`main_window.py`) is the `ChemicalCalculator` accumulator. It is a class whose fields are the entry list, the name field, the formula display and the enabled state of the calculate button. Its methods add, remove, clear, calculate and save. The folds they are proved against are the resolved-only mass, the breakdown, the formula and the composition.
- **`ElementDialog`** (`element_dialog.py`) covers the checks run before the add-element dialog is accepted and the record the dialog returns.
- **`ElementsBrowser`** (`elements_browser.py`) covers which rows the browser shows for a category or a search query, and what each shown line holds.

Three helper modules support them:

- **`Text`**: Python's `str.strip`, `str.join` and substring containment. `Text.IsWhitespace` lists exactly the code points CPython's `str.isspace` accepts, which are the ones `str.strip` removes.
- **`Sequences`**: order-preserving selection, the list comprehension and the SQL `WHERE`.
- **`Wrappers`**: `Option`.

Floating-point numbers are modelled as `real`. `str(x)` and `float(text)` are passed in as the functions `show: real -> string` and `parse: string -> Option<real>`, where `None` is a `ValueError`. The export/import round trip requires `parse(show(m)) == Some(m)` only for the masses being exported. Python's float text reads back as the same float, and a table holds finitely many masses.

Two behaviours of the store are easy to miss:

- `update_element` on an old symbol that no row carries matches no row, changes nothing and returns `True` (database_manager.py:196-202).
- `delete_element` returns `True` when no row matches (database_manager.py:216-218).

## Model

| member | source | states |
|---|---|---|
| Text.Strip | main_window.py:224-225 | the result is no longer than the input, neither of its ends is whitespace, and it is empty exactly when the input is all whitespace |
| Text.StripIsSlice | main_window.py:224-225 | the result of `Strip` is a contiguous slice of the input, and every character before and after that slice is whitespace |
| Text.StripIdempotent | element_dialog.py:124-125 | stripping an already stripped string changes nothing |
| Text.JoinAppend | main_window.py:285-291 | joining one more part appends the separator and that part to the previous join |
| Text.ContainsAt | database_manager.py:161-165 | `'%q%'` containment holds exactly when `q` occurs at some offset of the text |
| Sequences.FilterMembership | elements_browser.py:139 | a comprehension keeps a value exactly when it is in the input and satisfies the condition |
| Sequences.FilterIsSubsequence | elements_browser.py:139 | a comprehension keeps the input's order |
| Sequences.FilterConcat | database_manager.py:216 | selecting from a concatenation selects from each part, in order; the delete lemmas split the table around the deleted row with it |
| Sequences.FilterDropsOne | database_manager.py:216 | when only the row at `k` fails the condition, the selection is the input without that row |
| ElementStore.Lookup | database_manager.py:142-154 | `None` exactly when no row has the symbol; otherwise the four listed columns of a row with exactly that symbol |
| ElementStore.LookupUnique | database_manager.py:147-151 | under the `UNIQUE` constraint, lookup returns the columns of the one row carrying the symbol |
| ElementStore.SortByNumber | database_manager.py:133-135 | the listing order is ascending by atomic number and is a permutation of the table |
| ElementStore.SortKeepsUnique | database_manager.py:28 | ordering the table keeps the symbols unique |
| ElementStore.AllElementsExactlyOnce | database_manager.py:128-140 | `AllElements`, the model of `get_all_elements`, is the table's columns in `SortByNumber` order: the listing has one row per table row, contains every row's columns, contains nothing else, and keeps symbols unique |
| ElementStore.SearchExact | database_manager.py:156-169 | `Search`, the model of `search_elements`, returns every row whose name or symbol contains the query and no other row, ascending by atomic number, as a subsequence of the listing order |
| ElementStore.UpdateTouchesOneRow | database_manager.py:196-200 | for `ReplaceSymbol`, the model of the `UPDATE … WHERE symbol=?`: updating a missing symbol changes nothing; otherwise exactly the row carrying the old symbol is replaced by the new record |
| ElementStore.UpdateKeepsUniqueIff | database_manager.py:195-204 | the update keeps symbols unique exactly when the new symbol equals the old one or is not in the table |
| ElementStore.DeleteRemovesOne | database_manager.py:210-224 | for `RemoveSymbol`, the model of the `DELETE … WHERE symbol = ?`: deleting a missing symbol changes nothing; otherwise exactly the row carrying it is removed and the others keep their order |
| ElementStore.FilterKeepsUnique | database_manager.py:216 | any selection from a table with unique symbols has unique symbols |
| ElementStore.ImportRows | database_manager.py:291-303 | the import loop (one `ImportStep` per data row) keeps every existing row in place and appends `count` rows, each with atomic number 0 and no discovery year, keeping symbols unique |
| ElementStore.ImportCoversEveryRow | database_manager.py:292-303 | after an import that did not abort, the symbol of every data row with at least three fields is in the table: it was either there already or has been inserted |
| ElementStore.ImportAppendsOnlyDataRows | database_manager.py:293-301 | every appended record is made from one data row with at least three fields and that row's parsed mass: its symbol, name and mass, the fourth field (or "") as category, number 0 and no year |
| ElementStore.ImportInsertsFirstOccurrence | database_manager.py:292-301 | rows are imported in file order and each existence check sees the rows inserted before it: the first data row carrying a symbol the table lacked is the one inserted, with its own name, mass and category |
| ElementStore.NoEarlierCopy | database_manager.py:297-301 | a symbol that is neither in the table nor in any data row of at least three fields is still absent after the import |
| ElementStore.ImportStopsAtFailure | database_manager.py:294 | once a mass fails to parse, later rows change nothing |
| ElementStore.ImportFailureKeepsEarlierRows | database_manager.py:292-305 | a bad mass makes the import report -1 while the rows inserted before it stay inserted |
| ElementStore.ExportImportRoundTrip | database_manager.py:271-305 | `Import` (the model of `import_from_csv`) applied to the lines `ExportRows` (the model of the export loop) writes: when the text written for each exported mass reads back as that mass, importing the exported file into an empty table inserts every listed element, in listing order, with its symbol, name, mass and category text, atomic number 0 and no year, and reports their number |
| ElementStore.SeedTable | database_manager.py:102-108 | `INSERT OR IGNORE` of the seed rows yields unique symbols, every seed symbol present and only seed rows |
| ElementStore.Database.constructor | database_manager.py:70-126 | a new database holds the seeded elements, the six reference compounds and no saved compounds, with unique symbols |
| ElementStore.Database.InsertOrIgnoreAll | database_manager.py:105-108 | `executemany` of `INSERT OR IGNORE` over the seed rows, one insert per row in order, leaves the empty table equal to `SeedTable` of those rows, with unique symbols |
| ElementStore.Database.AddElement | database_manager.py:171-188 | succeeds exactly when the symbol is not present, and then appends the record; on failure the table is unchanged |
| ElementStore.Database.UpdateElement | database_manager.py:190-208 | succeeds exactly when the replacement keeps symbols unique, and then the table is the replacement; otherwise it is unchanged |
| ElementStore.Database.DeleteElement | database_manager.py:210-224 | always reports success; the table is the old table without the row carrying the symbol |
| ElementStore.Database.SaveCompound | database_manager.py:237-254 | reports success and appends the compound |
| ElementStore.Database.ImportFromCsv | database_manager.py:284-305 | the new table and the result (-1, or the number inserted) are those of `Import`, the import fold over the file's data rows |
| ElementStore.Database.ExportToCsv | database_manager.py:271-282 | when the file opens, the lines written are `ExportRows`: the header, then one line per listed element, in listing order, with an absent category written as an empty field |
| ElementDialog.ValidateAndAccept | element_dialog.py:122-139 | accepted exactly when the stripped symbol and name are non-empty and the symbol has at most 3 characters; each warning fires exactly when the checks before it passed and its own failed: first an empty symbol, then an empty name, then a symbol longer than 3 characters |
| ElementDialog.GetElementData | element_dialog.py:141-158 | the record has the stripped symbol and name and the given mass and number; the category is absent exactly when it is empty, and the year is absent exactly when it is -5000 |
| ElementDialog.AcceptedDataIsComplete | element_dialog.py:122-158 | an accepted dialog yields a non-empty, already stripped symbol of at most 3 characters and a non-empty, already stripped name |
| ElementsBrowser.FilterByCategory | elements_browser.py:132-140 | "Все категории" shows the whole listing; any other category shows exactly the listed rows with that category; the result is always a subsequence of the listing |
| ElementsBrowser.SearchElements | elements_browser.py:123-130 | a blank query shows the listing; otherwise it shows exactly what the store's search returns for the stripped query (database_manager.py:156-169): the rows whose name or symbol contains it, as a subsequence of the listing, ascending by atomic number |
| ElementsBrowser.DisplayElements | elements_browser.py:100-121 | the row count and the statistics count equal the number of rows; each line shows its row's symbol, name and mass, with position + 1 as the number; "Не указана" appears exactly for an absent, empty or literally "Не указана" category, any other category is shown as it is, and the discovery column always shows "Неизвестно" |
| Calculator.CheckEntry | main_window.py:223-243 | an entry is accepted exactly when the stripped symbol and quantity are non-empty, the quantity parses to a positive number and the symbol is in the store; the entry then has the stripped symbol and the parsed quantity. Each warning fires exactly when the checks before it passed and its own failed, in this order: empty symbol, empty quantity, quantity not a number, quantity not positive, symbol not in the store |
| Calculator.MassIsBreakdownSum | main_window.py:308-316 | for `ResolvedMass` and `Breakdown`, the models of the calculation loop: the total mass equals the sum of the contribution column of the breakdown |
| Calculator.MassAdditive | main_window.py:310-315 | the total of a concatenated list is the sum of the totals of its parts |
| Calculator.BreakdownConcat | main_window.py:310-316 | the breakdown of a concatenated list is the breakdowns of its parts, in order |
| Calculator.RemoveEntryEffect | main_window.py:253-261 | removing entry `i` takes exactly its contribution off the total and its line out of the breakdown; the other lines keep their order |
| Calculator.BreakdownAllResolved | main_window.py:310-316 | when every entry resolves, the breakdown has one line per entry, in entry order, each with the entry's symbol and quantity, the element's mass and name, and contribution mass × quantity |
| Calculator.RepeatedSymbolsAreNotMerged | main_window.py:244 | with H at 1.008 and O at 15.999, the list H×2, O×1, H×1 yields three lines and a total of 19.023 |
| Calculator.WaterExample | main_window.py:302-316 | with the seeded H and O rows, H×2, O×1 gives 18.015 and the lines (H, 2, 2.016, 1.008, Водород) and (O, 1, 15.999, 15.999, Кислород) |
| Calculator.RenderFormula | main_window.py:281-292 | computes `Formula`, the model of the formula text: empty for no entries, otherwise one part per entry (the bare symbol when the quantity is 1, else `symbol₍q₎`) joined with " + " |
| Calculator.FormulaAfterAdd | main_window.py:244-246 | adding an entry extends the formula by " + " and the new part, or starts it with that part |
| Calculator.FormulaEmptyIff | main_window.py:281-284 | the formula is empty exactly when the list is empty |
| Calculator.CompositionMatchesBreakdown | main_window.py:370-377 | `CompositionParts`, the model of the composition list, names the same resolving entries as the breakdown, one `symbol:quantity` part per line, in order |
| Calculator.MassAndComposition | main_window.py:368-375 | the save loop computes the resolved-only total mass and the composition parts of the resolving entries |
| Calculator.DisplayName | main_window.py:327-329 | the result's name is the stripped name field, or "Неизвестное соединение" when that is blank; it is never empty |
| Calculator.SaveName | main_window.py:363-367 | the saved name is the stripped name field when it is non-blank, else the prompt's text; there is none exactly when the field is blank and the prompt is cancelled or left empty |
| Calculator.ChemicalCalculator.constructor | main_window.py:19-22 | a new window has no entries, an empty name and formula, and the calculate button disabled (as set at main_window.py:150) |
| Calculator.ChemicalCalculator.UpdateFormulaDisplay | main_window.py:281-292 | the display holds the formula of the current list |
| Calculator.ChemicalCalculator.SetCompoundName | main_window.py:209-212 | the name field holds the loaded compound's name |
| Calculator.ChemicalCalculator.AddElementToList | main_window.py:223-251 | the outcome is the entry check; on success exactly that entry is appended, and the formula and button follow; on any failure nothing changes |
| Calculator.ChemicalCalculator.AppendEntry | main_window.py:244-250 | the append that follows the checks (which have already made the symbol non-empty and the quantity positive) extends the list by exactly that entry and keeps the window consistent: the formula display shows the new list's formula and the calculate button is enabled |
| Calculator.ChemicalCalculator.RemoveSelectedElement | main_window.py:253-261 | an in-range row is removed and the rest keep their order; an out-of-range row changes nothing; formula and button follow the list |
| Calculator.ChemicalCalculator.ClearElementsList | main_window.py:294-300 | the list, formula and name become empty and calculation is disabled |
| Calculator.ChemicalCalculator.CalculateMolarMass | main_window.py:302-331 | no result for an empty list; otherwise the display name, the formula, the resolved-only total and the breakdown |
| Calculator.ChemicalCalculator.SaveCurrentCompound | main_window.py:359-383 | nothing is saved without entries or without a name; otherwise exactly one compound is appended with that name, the displayed formula, the resolved-only total and the `;`-joined composition |
| Calculator.ChemicalCalculator.ShowAddElementDialog | main_window.py:333-357 | a cancelled dialog changes nothing; an accepted one inserts the dialog's record exactly when its symbol is new, and otherwise reports the clash and changes nothing |

## Left out

- The Qt widgets, message boxes, the status bar and the progress bar are not modelled. Each warning is a result value.
- `update_elements_table` (main_window.py:263-279) and the combo-box refresh after adding an element only draw, so they are not modelled.
- The symbol field's handlers are not modelled: upper-casing on every edit (main_window.py:214-216) and copying the symbol picked in the combo box (main_window.py:218-221). The model takes the field's text as given.
- SQLite is an in-memory sequence of records.
  - The `id` columns, `created_date` and the `ORDER BY created_date DESC` of `get_saved_compounds` are not modelled.
  - `get_saved_compounds` and `get_common_compounds` are plain reads of `savedCompounds` and `commonCompounds`.
- Elements with the same atomic number keep table order in the listing. SQLite leaves that order unspecified.
- `LIKE` is modelled as case-sensitive substring containment. SQLite's case folding of ASCII letters and the `%`/`_` wildcards inside the query are not modelled.
- The only failure of `add_element` and `update_element` modelled is the `UNIQUE` constraint. Other database errors, and the failure branches of `delete_element` and `save_compound`, are not modelled.
- File I/O is abstracted:
  - An import file is its rows after CSV parsing, or `None` when it cannot be opened.
  - Export takes a flag for whether the file opens.
  - CSV quoting and encoding are not modelled.
- Floating-point arithmetic, rounding and number formatting are not modelled. Sums are exact reals, and formatting and parsing are parameters.
- `ElementStore.ImportRows`: a NaN mass is not modelled. Python's `float` accepts "nan" (database_manager.py:294). SQLite stores NaN as NULL, so the insert breaks `atomic_mass REAL NOT NULL` (database_manager.py:30), and `add_element` catches the `IntegrityError` and returns `False` (database_manager.py:183-184). `import_from_csv` ignores that result and still counts the row (database_manager.py:300-301). So the source can report more rows than it inserted, while the model's `|st.table| == |t| + st.count` holds only because `parse` returns a `real`, which cannot be NaN. `ElementStore.Database.ImportFromCsv` inherits this.
- `Calculator.CheckEntry`: Python's `float` accepts "nan", and `quantity <= 0` (main_window.py:233-234) is false for NaN, so the source appends an entry with quantity NaN and every later total becomes NaN. The model's `parse` returns a `real`, which cannot be NaN, so the model never admits such an entry. The invariant that every quantity is positive holds only because of this abstraction.
- `Calculator.ChemicalCalculator.constructor` receives an open store instead of constructing one.
- `ElementStore.Database.constructor` models a store created from scratch. Opening an existing database file, which skips seeding (database_manager.py:12-17), is not modelled.
- `ElementStore.SeedTable` states the properties of the seeded table rather than its full 27-row value.
- `Calculator.ChemicalCalculator.ShowAddElementDialog` omits the empty-symbol-or-name warning (main_window.py:337-339). `ElementDialog.AcceptedDataIsComplete` proves that branch cannot be taken after the dialog was accepted.
- result_window.py, compound_manager.py and build.py are not part of this model.

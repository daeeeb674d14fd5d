/**
 * The element store of database_manager.py, kept in memory: a table of
 * element records whose `symbol` column is unique, the seeded reference
 * compounds and the compounds the user saved. Queries are functions of the
 * table; the writes are methods of `Database` that reassign its fields.
 */
module ElementStore {
  import opened Wrappers
  import opened Text
  import opened Sequences

  /** One row of the `elements` table. */
  datatype Element = Element(
    symbol: string,
    name: string,
    atomicMass: real,
    atomicNumber: int,
    category: Option<string>,
    discoveredYear: Option<int>)

  /** The four columns every element query selects: symbol, name, atomic mass, category. */
  datatype ElementRow = ElementRow(symbol: string, name: string, atomicMass: real, category: Option<string>)

  /** One row of `common_compounds`, seeded once and only read afterwards. */
  datatype ReferenceCompound = ReferenceCompound(name: string, formula: string, molarMass: real, description: string)

  /** One row of `saved_compounds`; the store's insertion timestamp is not modelled. */
  datatype SavedCompound = SavedCompound(name: string, formula: string, molarMass: real, composition: string)

  /** One line of a CSV file, already split into fields. */
  type CsvRow = seq<string>

  function Columns(e: Element): ElementRow {
    ElementRow(e.symbol, e.name, e.atomicMass, e.category)
  }

  function ColumnsOf(t: seq<Element>): seq<ElementRow> {
    seq(|t|, i requires 0 <= i < |t| => Columns(t[i]))
  }

  /** The `UNIQUE` constraint on the `symbol` column. */
  predicate UniqueSymbols(t: seq<Element>) {
    forall i, j :: 0 <= i < j < |t| ==> t[i].symbol != t[j].symbol
  }

  predicate UniqueRowSymbols(rows: seq<ElementRow>) {
    forall i, j :: 0 <= i < j < |rows| ==> rows[i].symbol != rows[j].symbol
  }

  predicate HasSymbol(t: seq<Element>, symbol: string) {
    exists i :: 0 <= i < |t| && t[i].symbol == symbol
  }

  // ---------------------------------------------------------------- lookup

  /** `get_element_by_symbol`: the row whose symbol equals `symbol` exactly, or `None`. */
  function Lookup(t: seq<Element>, symbol: string): (r: Option<ElementRow>)
    ensures r.None? <==> !HasSymbol(t, symbol)
    ensures r.Some? ==> exists i :: 0 <= i < |t| && t[i].symbol == symbol && r.value == Columns(t[i])
  {
    if t == [] then None
    else if t[0].symbol == symbol then Some(Columns(t[0]))
    else
      var r := Lookup(t[1..], symbol);
      assert HasSymbol(t, symbol) ==> HasSymbol(t[1..], symbol) by {
        if HasSymbol(t, symbol) {
          var i :| 0 <= i < |t| && t[i].symbol == symbol;
          assert t[1..][i - 1].symbol == symbol;
        }
      }
      assert r.Some? ==> exists i :: 0 <= i < |t| && t[i].symbol == symbol && r.value == Columns(t[i]) by {
        if r.Some? {
          var i :| 0 <= i < |t[1..]| && t[1..][i].symbol == symbol && r.value == Columns(t[1..][i]);
          assert t[i + 1] == t[1..][i];
        }
      }
      r
  }

  /** In a table with unique symbols, the lookup finds the one row carrying the symbol. */
  lemma LookupUnique(t: seq<Element>, i: int, symbol: string)
    requires UniqueSymbols(t) && 0 <= i < |t| && t[i].symbol == symbol
    ensures Lookup(t, symbol) == Some(Columns(t[i]))
  {
  }

  // ---------------------------------------------------------------- ordering

  /** The order of `ORDER BY atomic_number`. */
  predicate SortedByNumber(t: seq<Element>) {
    forall i, j :: 0 <= i < j < |t| ==> t[i].atomicNumber <= t[j].atomicNumber
  }

  /** Places `e` before the first row whose atomic number is not smaller. */
  function InsertByNumber(e: Element, s: seq<Element>): (r: seq<Element>)
    requires SortedByNumber(s)
    ensures SortedByNumber(r)
    ensures multiset(r) == multiset(s) + multiset{e}
    ensures |r| == |s| + 1 && (r[0] == e || (s != [] && r[0] == s[0]))
  {
    if s == [] || e.atomicNumber <= s[0].atomicNumber then
      PrependSorted(e, s);
      [e] + s
    else
      var rest := InsertByNumber(e, s[1..]);
      PrependSorted(s[0], rest);
      assert s == [s[0]] + s[1..];
      assert multiset([s[0]] + rest) == multiset{s[0]} + multiset(rest);
      [s[0]] + rest
  }

  /** A row no larger than the first of a sorted table can go in front of it. */
  lemma PrependSorted(x: Element, s: seq<Element>)
    requires SortedByNumber(s) && (s == [] || x.atomicNumber <= s[0].atomicNumber)
    ensures SortedByNumber([x] + s)
  {
    var r := [x] + s;
    forall i, j | 0 <= i < j < |r| ensures r[i].atomicNumber <= r[j].atomicNumber {
      assert r[j] == s[j - 1];
      if i > 0 {
        assert r[i] == s[i - 1];
      }
    }
  }

  /** The table in `ORDER BY atomic_number` order (an insertion sort; rows with equal numbers keep table order). */
  function SortByNumber(t: seq<Element>): (r: seq<Element>)
    ensures SortedByNumber(r)
    ensures multiset(r) == multiset(t)
  {
    if t == [] then []
    else
      assert t == [t[0]] + t[1..];
      InsertByNumber(t[0], SortByNumber(t[1..]))
  }

  /** Inserting a row whose symbol is new keeps the symbols unique. */
  lemma {:induction false} InsertKeepsUnique(e: Element, s: seq<Element>)
    requires SortedByNumber(s) && UniqueSymbols(s)
    requires forall x :: x in s ==> x.symbol != e.symbol
    ensures UniqueSymbols(InsertByNumber(e, s))
  {
    if s == [] || e.atomicNumber <= s[0].atomicNumber {
      var r := [e] + s;
      forall i, j | 0 <= i < j < |r| ensures r[i].symbol != r[j].symbol {
        assert r[j] == s[j - 1] && r[j] in s;
        if i > 0 {
          assert r[i] == s[i - 1];
        }
      }
    } else {
      var tail := s[1..];
      assert forall x :: x in tail ==> x in s;
      InsertKeepsUnique(e, tail);
      PrependKeepsUnique(e, s);
    }
  }

  /** The step of the insertion proof: the first row goes in front of a unique insertion into the rest. */
  lemma PrependKeepsUnique(e: Element, s: seq<Element>)
    requires SortedByNumber(s) && UniqueSymbols(s) && s != [] && e.atomicNumber > s[0].atomicNumber
    requires s[0].symbol != e.symbol
    requires UniqueSymbols(InsertByNumber(e, s[1..]))
    ensures UniqueSymbols(InsertByNumber(e, s))
  {
    var tail := s[1..];
    var rest := InsertByNumber(e, tail);
    var r := [s[0]] + rest;
    assert InsertByNumber(e, s) == r;
    forall i, j | 0 <= i < j < |r| ensures r[i].symbol != r[j].symbol {
      assert r[j] == rest[j - 1];
      if i > 0 {
        assert r[i] == rest[i - 1];
      } else {
        InsertedFrom(e, tail, rest[j - 1]);
        if rest[j - 1] != e {
          var k :| 0 <= k < |tail| && tail[k] == rest[j - 1];
          assert s[k + 1] == rest[j - 1];
        }
      }
    }
  }

  /** Every row of an insertion result is the inserted row or a row of the input. */
  lemma InsertedFrom(e: Element, s: seq<Element>, x: Element)
    requires SortedByNumber(s) && x in InsertByNumber(e, s)
    ensures x == e || x in s
  {
    assert x in multiset(InsertByNumber(e, s));
  }

  /** Sorting keeps the symbols unique. */
  lemma {:induction false} SortKeepsUnique(t: seq<Element>)
    requires UniqueSymbols(t)
    ensures UniqueSymbols(SortByNumber(t))
  {
    if t != [] {
      SortKeepsUnique(t[1..]);
      var s := SortByNumber(t[1..]);
      forall x | x in s ensures x.symbol != t[0].symbol {
        assert x in multiset(s);
        var k :| 0 <= k < |t[1..]| && t[1..][k] == x;
        assert t[k + 1] == x;
      }
      InsertKeepsUnique(t[0], s);
    }
  }

  lemma {:induction false} ColumnsOfMembership(s: seq<Element>)
    ensures forall e :: e in s ==> Columns(e) in ColumnsOf(s)
    ensures forall row :: row in ColumnsOf(s) ==> exists e :: e in s && Columns(e) == row
  {
    forall e | e in s ensures Columns(e) in ColumnsOf(s) {
      var k :| 0 <= k < |s| && s[k] == e;
      assert ColumnsOf(s)[k] == Columns(e);
    }
  }

  /** `get_all_elements`: the table's rows projected to their four columns, by atomic number. */
  function AllElements(t: seq<Element>): seq<ElementRow> {
    ColumnsOf(SortByNumber(t))
  }

  /** The listing holds every row of the table exactly once and nothing else. */
  lemma AllElementsExactlyOnce(t: seq<Element>)
    ensures |AllElements(t)| == |t|
    ensures forall e :: e in t ==> Columns(e) in AllElements(t)
    ensures forall row :: row in AllElements(t) ==> exists e :: e in t && Columns(e) == row
    ensures UniqueSymbols(t) ==> UniqueRowSymbols(AllElements(t))
  {
    var s := SortByNumber(t);
    assert |multiset(s)| == |multiset(t)|;
    forall e ensures e in t <==> e in s {
      assert e in t <==> e in multiset(t);
      assert e in s <==> e in multiset(s);
    }
    ColumnsOfMembership(s);
    if UniqueSymbols(t) {
      SortKeepsUnique(t);
    }
  }

  // ---------------------------------------------------------------- search

  /** `name LIKE '%q%' OR symbol LIKE '%q%'`, with `LIKE` read as a substring test. */
  predicate Matches(e: Element, q: string) {
    Contains(e.name, q) || Contains(e.symbol, q)
  }

  function MatchesQuery(q: string): Element -> bool {
    (e: Element) => Matches(e, q)
  }

  /** The matching rows, as whole records, in listing order. */
  function MatchingByNumber(t: seq<Element>, q: string): seq<Element> {
    Filter(SortByNumber(t), MatchesQuery(q))
  }

  /** `search_elements`: the matching rows' four columns, by atomic number. */
  function Search(t: seq<Element>, q: string): seq<ElementRow> {
    ColumnsOf(MatchingByNumber(t, q))
  }

  /** Selecting from a sorted table keeps it sorted. */
  lemma {:induction false} FilterKeepsSorted(s: seq<Element>, p: Element -> bool)
    requires SortedByNumber(s)
    ensures SortedByNumber(Filter(s, p))
  {
    if s != [] {
      FilterKeepsSorted(s[1..], p);
      forall x | x in Filter(s[1..], p) ensures s[0].atomicNumber <= x.atomicNumber {
        FilterMembership(s[1..], p, x);
        var k :| 0 <= k < |s[1..]| && s[1..][k] == x;
        assert s[k + 1] == x;
      }
    }
  }

  /** The search returns exactly the matching rows of the table, ordered by atomic number. */
  lemma SearchExact(t: seq<Element>, q: string)
    ensures forall e :: e in t && Matches(e, q) ==> Columns(e) in Search(t, q)
    ensures forall row :: row in Search(t, q) ==> exists e :: e in t && Matches(e, q) && Columns(e) == row
    ensures SortedByNumber(MatchingByNumber(t, q)) && IsSubsequence(MatchingByNumber(t, q), SortByNumber(t))
  {
    var s := SortByNumber(t);
    var m := MatchingByNumber(t, q);
    forall e ensures e in m <==> e in t && Matches(e, q) {
      FilterMembership(s, MatchesQuery(q), e);
      assert e in t <==> e in multiset(t);
      assert e in s <==> e in multiset(s);
    }
    ColumnsOfMembership(m);
    FilterKeepsSorted(s, MatchesQuery(q));
    FilterIsSubsequence(s, MatchesQuery(q));
  }

  // ---------------------------------------------------------------- update and delete

  /** `UPDATE elements SET ... WHERE symbol = old`: every row carrying `oldSymbol` becomes `e`. */
  function ReplaceSymbol(t: seq<Element>, oldSymbol: string, e: Element): seq<Element> {
    seq(|t|, i requires 0 <= i < |t| => if t[i].symbol == oldSymbol then e else t[i])
  }

  /** With unique symbols the update rewrites exactly one row, or none when `oldSymbol` is absent. */
  lemma UpdateTouchesOneRow(t: seq<Element>, oldSymbol: string, e: Element)
    requires UniqueSymbols(t)
    ensures !HasSymbol(t, oldSymbol) ==> ReplaceSymbol(t, oldSymbol, e) == t
    ensures forall k :: 0 <= k < |t| && t[k].symbol == oldSymbol ==> ReplaceSymbol(t, oldSymbol, e) == t[k := e]
  {
  }

  /**
   * The update keeps the symbols unique, and so succeeds, exactly when the
   * new symbol is the old one or is not held by any row yet.
   */
  lemma UpdateKeepsUniqueIff(t: seq<Element>, oldSymbol: string, e: Element)
    requires UniqueSymbols(t) && HasSymbol(t, oldSymbol)
    ensures UniqueSymbols(ReplaceSymbol(t, oldSymbol, e)) <==> e.symbol == oldSymbol || !HasSymbol(t, e.symbol)
  {
    var k :| 0 <= k < |t| && t[k].symbol == oldSymbol;
    var r := ReplaceSymbol(t, oldSymbol, e);
    assert r == t[k := e];
    if e.symbol != oldSymbol && HasSymbol(t, e.symbol) {
      var j :| 0 <= j < |t| && t[j].symbol == e.symbol;
      assert j != k && r[j] == t[j] && r[k] == e;
      if j < k {
        assert r[j].symbol == r[k].symbol;
      } else {
        assert r[k].symbol == r[j].symbol;
      }
    }
  }

  function NotSymbol(symbol: string): Element -> bool {
    (e: Element) => e.symbol != symbol
  }

  /** `DELETE FROM elements WHERE symbol = ?`: the other rows, in their order. */
  function RemoveSymbol(t: seq<Element>, symbol: string): seq<Element> {
    Filter(t, NotSymbol(symbol))
  }

  /** With unique symbols the delete removes exactly the one row carrying the symbol, or nothing. */
  lemma DeleteRemovesOne(t: seq<Element>, symbol: string)
    requires UniqueSymbols(t)
    ensures !HasSymbol(t, symbol) ==> RemoveSymbol(t, symbol) == t
    ensures forall k :: 0 <= k < |t| && t[k].symbol == symbol ==> RemoveSymbol(t, symbol) == t[..k] + t[k + 1..]
  {
    if !HasSymbol(t, symbol) {
      FilterKeepsAll(t, NotSymbol(symbol));
    }
    forall k | 0 <= k < |t| && t[k].symbol == symbol
      ensures RemoveSymbol(t, symbol) == t[..k] + t[k + 1..]
    {
      RemoveAt(t, symbol, k);
    }
  }

  lemma RemoveAt(t: seq<Element>, symbol: string, k: int)
    requires UniqueSymbols(t) && 0 <= k < |t| && t[k].symbol == symbol
    ensures RemoveSymbol(t, symbol) == t[..k] + t[k + 1..]
  {
    forall i | 0 <= i < |t| && i != k
      ensures NotSymbol(symbol)(t[i])
    {
      if i < k {
        assert t[i].symbol != t[k].symbol;
      } else {
        assert t[k].symbol != t[i].symbol;
      }
    }
    FilterDropsOne(t, NotSymbol(symbol), k);
  }

  /** Any selection from a table with unique symbols has unique symbols. */
  lemma {:induction false} FilterKeepsUnique(t: seq<Element>, p: Element -> bool)
    requires UniqueSymbols(t)
    ensures UniqueSymbols(Filter(t, p))
  {
    if t != [] {
      FilterKeepsUnique(t[1..], p);
      forall x | x in Filter(t[1..], p) ensures x.symbol != t[0].symbol {
        FilterMembership(t[1..], p, x);
        var k :| 0 <= k < |t[1..]| && t[1..][k] == x;
        assert t[k + 1] == x;
      }
    }
  }

  // ---------------------------------------------------------------- CSV import

  /** Where an import stands after some rows: the table, the rows inserted so far, and whether it aborted. */
  datatype ImportState = ImportState(table: seq<Element>, count: nat, failed: bool)

  /** The record an imported row becomes: atomic number 0, category the fourth field or "", no year. */
  function ImportedElement(row: CsvRow, mass: real): Element
    requires |row| >= 3
  {
    Element(row[0], row[1], mass, 0, Some(if |row| > 3 then row[3] else ""), None)
  }

  /** One data row of the import loop; `parse` is Python's `float` on the mass field. */
  function ImportStep(st: ImportState, row: CsvRow, parse: string -> Option<real>): ImportState {
    if st.failed || |row| < 3 then st
    else match parse(row[2])
      case None => st.(failed := true)
      case Some(mass) =>
        if HasSymbol(st.table, row[0]) then st
        else ImportState(st.table + [ImportedElement(row, mass)], st.count + 1, false)
  }

  /** The import loop over the data rows (header already skipped), starting from table `t`. */
  function ImportRows(t: seq<Element>, rows: seq<CsvRow>, parse: string -> Option<real>): (st: ImportState)
    ensures |st.table| == |t| + st.count && st.table[..|t|] == t
    ensures forall k :: |t| <= k < |st.table| ==> st.table[k].atomicNumber == 0 && st.table[k].discoveredYear == None
    ensures UniqueSymbols(t) ==> UniqueSymbols(st.table)
    decreases |rows|
  {
    if rows == [] then ImportState(t, 0, false)
    else ImportStep(ImportRows(t, rows[..|rows| - 1], parse), rows[|rows| - 1], parse)
  }

  /** The import of one more row is one more step of the loop. */
  lemma ImportRowsStep(t: seq<Element>, rows: seq<CsvRow>, i: int, parse: string -> Option<real>)
    requires 0 <= i < |rows|
    ensures ImportRows(t, rows[..i + 1], parse) == ImportStep(ImportRows(t, rows[..i], parse), rows[i], parse)
  {
    assert rows[..i + 1][..i] == rows[..i];
  }

  /** `import_from_csv`: `None` is a file that cannot be opened; an empty file has no header to skip. */
  function Import(t: seq<Element>, file: Option<seq<CsvRow>>, parse: string -> Option<real>): ImportState {
    match file
    case None => ImportState(t, 0, true)
    case Some(lines) => if lines == [] then ImportState(t, 0, true) else ImportRows(t, lines[1..], parse)
  }

  /** The value `import_from_csv` returns: -1 on failure, else the number of inserted rows. */
  function Reported(st: ImportState): int {
    if st.failed then -1 else st.count
  }

  /** Once a row has aborted the import, the remaining rows change nothing. */
  lemma {:induction false} ImportStopsAtFailure(t: seq<Element>, rows: seq<CsvRow>, j: nat, parse: string -> Option<real>)
    requires j <= |rows| && ImportRows(t, rows[..j], parse).failed
    ensures ImportRows(t, rows, parse) == ImportRows(t, rows[..j], parse)
    decreases |rows| - j
  {
    if j < |rows| {
      var n := |rows| - 1;
      assert rows[..n][..j] == rows[..j];
      ImportStopsAtFailure(t, rows[..n], j, parse);
    } else {
      assert rows[..j] == rows;
    }
  }

  /**
   * A mass that does not parse aborts the whole import with -1, but the rows
   * inserted before it stay in the table.
   */
  lemma ImportFailureKeepsEarlierRows(t: seq<Element>, rows: seq<CsvRow>, j: nat, parse: string -> Option<real>)
    requires j < |rows| && |rows[j]| >= 3 && parse(rows[j][2]) == None
    requires !ImportRows(t, rows[..j], parse).failed
    ensures ImportRows(t, rows, parse).failed
    ensures ImportRows(t, rows, parse).table == ImportRows(t, rows[..j], parse).table
    ensures Reported(ImportRows(t, rows, parse)) == -1
  {
    assert rows[..j + 1][..j] == rows[..j];
    ImportStopsAtFailure(t, rows, j + 1, parse);
  }

  /**
   * An import that did not abort leaves every data row with at least three
   * fields represented in the table: its symbol was either already there or
   * has just been inserted.
   */
  lemma {:induction false} ImportCoversEveryRow(t: seq<Element>, rows: seq<CsvRow>, parse: string -> Option<real>)
    requires !ImportRows(t, rows, parse).failed
    ensures forall j :: 0 <= j < |rows| && |rows[j]| >= 3 ==> HasSymbol(ImportRows(t, rows, parse).table, rows[j][0])
    decreases |rows|
  {
    if rows != [] {
      var n := |rows| - 1;
      var prev := ImportRows(t, rows[..n], parse);
      var st := ImportRows(t, rows, parse);
      assert st == ImportStep(prev, rows[n], parse);
      assert !prev.failed;
      ImportCoversEveryRow(t, rows[..n], parse);
      assert st.table[..|prev.table|] == prev.table;
      forall j | 0 <= j < |rows| && |rows[j]| >= 3 ensures HasSymbol(st.table, rows[j][0]) {
        if j < n {
          assert rows[..n][j] == rows[j];
          var i :| 0 <= i < |prev.table| && prev.table[i].symbol == rows[j][0];
          assert st.table[i] == prev.table[i];
        } else if !HasSymbol(prev.table, rows[n][0]) {
          assert st.table[|prev.table|].symbol == rows[n][0];
        } else {
          var i :| 0 <= i < |prev.table| && prev.table[i].symbol == rows[n][0];
          assert st.table[i] == prev.table[i];
        }
      }
    }
  }

  /** `e` is the record some data row of `rows` becomes when its mass parses to `m`. */
  ghost predicate ImportedFrom(e: Element, rows: seq<CsvRow>, parse: string -> Option<real>) {
    exists j, m :: 0 <= j < |rows| && |rows[j]| >= 3 && parse(rows[j][2]) == Some(m) && e == ImportedElement(rows[j], m)
  }

  /** Every record an import appends is made from one of its data rows and that row's parsed mass. */
  lemma {:induction false} ImportAppendsOnlyDataRows(t: seq<Element>, rows: seq<CsvRow>, parse: string -> Option<real>)
    ensures forall k :: |t| <= k < |ImportRows(t, rows, parse).table| ==> ImportedFrom(ImportRows(t, rows, parse).table[k], rows, parse)
    decreases |rows|
  {
    if rows != [] {
      var n := |rows| - 1;
      var prev := ImportRows(t, rows[..n], parse);
      var st := ImportRows(t, rows, parse);
      assert st == ImportStep(prev, rows[n], parse);
      ImportAppendsOnlyDataRows(t, rows[..n], parse);
      forall k | |t| <= k < |st.table| ensures ImportedFrom(st.table[k], rows, parse) {
        if k < |prev.table| {
          assert st.table[k] == prev.table[k];
          var j, m :| 0 <= j < n && |rows[..n][j]| >= 3 && parse(rows[..n][j][2]) == Some(m)
            && prev.table[k] == ImportedElement(rows[..n][j], m);
          assert rows[..n][j] == rows[j];
        } else {
          var m := parse(rows[n][2]).value;
          assert st.table[k] == ImportedElement(rows[n], m);
        }
      }
    }
  }

  /**
   * Rows are imported in file order and each existence check sees the rows
   * inserted before it: the first data row carrying a symbol the table lacked
   * is the one inserted, with its own name, mass and category.
   */
  lemma {:induction false} ImportInsertsFirstOccurrence(t: seq<Element>, rows: seq<CsvRow>, parse: string -> Option<real>, j: int)
    requires !ImportRows(t, rows, parse).failed
    requires 0 <= j < |rows| && |rows[j]| >= 3 && !HasSymbol(t, rows[j][0])
    requires forall i :: 0 <= i < j && |rows[i]| >= 3 ==> rows[i][0] != rows[j][0]
    ensures parse(rows[j][2]).Some?
    ensures ImportedElement(rows[j], parse(rows[j][2]).value) in ImportRows(t, rows, parse).table
    decreases |rows|
  {
    var n := |rows| - 1;
    var prev := ImportRows(t, rows[..n], parse);
    var st := ImportRows(t, rows, parse);
    assert st == ImportStep(prev, rows[n], parse);
    assert !prev.failed;
    assert st.table[..|prev.table|] == prev.table;
    if j < n {
      assert rows[..n][j] == rows[j];
      assert forall i :: 0 <= i < j && |rows[..n][i]| >= 3 ==> rows[..n][i][0] != rows[..n][j][0] by {
        forall i | 0 <= i < j && |rows[..n][i]| >= 3 ensures rows[..n][i][0] != rows[..n][j][0] {
          assert rows[..n][i] == rows[i];
        }
      }
      ImportInsertsFirstOccurrence(t, rows[..n], parse, j);
      var k :| 0 <= k < |prev.table| && prev.table[k] == ImportedElement(rows[j], parse(rows[j][2]).value);
      assert st.table[k] == prev.table[k];
    } else {
      NoEarlierCopy(t, rows[..n], parse, rows[j][0]);
      assert st.table[|prev.table|] == ImportedElement(rows[j], parse(rows[j][2]).value);
    }
  }

  /** A symbol neither in `t` nor in any data row of `rows` is not in the table the import leaves. */
  lemma NoEarlierCopy(t: seq<Element>, rows: seq<CsvRow>, parse: string -> Option<real>, symbol: string)
    requires !HasSymbol(t, symbol)
    requires forall i :: 0 <= i < |rows| && |rows[i]| >= 3 ==> rows[i][0] != symbol
    ensures !HasSymbol(ImportRows(t, rows, parse).table, symbol)
  {
    var st := ImportRows(t, rows, parse);
    ImportAppendsOnlyDataRows(t, rows, parse);
    forall k | 0 <= k < |st.table| ensures st.table[k].symbol != symbol {
      if k < |t| {
        assert st.table[k] == t[k];
      } else {
        assert ImportedFrom(st.table[k], rows, parse);
        var i, m :| 0 <= i < |rows| && |rows[i]| >= 3 && parse(rows[i][2]) == Some(m) && st.table[k] == ImportedElement(rows[i], m);
      }
    }
  }

  // ---------------------------------------------------------------- CSV export

  const CsvHeader: CsvRow := ["Символ", "Название", "Атомная масса", "Категория"]

  /** The text the CSV writer produces for a category: an absent one is written as an empty field. */
  function CategoryText(c: Option<string>): string {
    match c
    case None => ""
    case Some(s) => s
  }

  /** One exported line; `show` is how the writer renders the mass. */
  function CsvOf(row: ElementRow, show: real -> string): CsvRow {
    [row.symbol, row.name, show(row.atomicMass), CategoryText(row.category)]
  }

  /** The lines `export_to_csv` writes: the header, then one line per listed element. */
  function ExportRows(t: seq<Element>, show: real -> string): seq<CsvRow> {
    var rows := AllElements(t);
    [CsvHeader] + seq(|rows|, i requires 0 <= i < |rows| => CsvOf(rows[i], show))
  }

  /** What an exported row turns into when it is imported again. */
  function Reimported(row: ElementRow): Element {
    Element(row.symbol, row.name, row.atomicMass, 0, Some(CategoryText(row.category)), None)
  }

  lemma {:induction false} ReimportPrefix(rows: seq<ElementRow>, k: nat, show: real -> string, parse: string -> Option<real>)
    requires k <= |rows| && UniqueRowSymbols(rows)
    requires forall i :: 0 <= i < |rows| ==> parse(show(rows[i].atomicMass)) == Some(rows[i].atomicMass)
    ensures ImportRows([], seq(k, i requires 0 <= i < k => CsvOf(rows[i], show)), parse)
         == ImportState(seq(k, i requires 0 <= i < k => Reimported(rows[i])), k, false)
  {
    if k > 0 {
      var lines := seq(k, i requires 0 <= i < k => CsvOf(rows[i], show));
      assert lines[..k - 1] == seq(k - 1, i requires 0 <= i < k - 1 => CsvOf(rows[i], show));
      ReimportPrefix(rows, k - 1, show, parse);
      var before := seq(k - 1, i requires 0 <= i < k - 1 => Reimported(rows[i]));
      assert !HasSymbol(before, rows[k - 1].symbol) by {
        forall j | 0 <= j < k - 1 ensures before[j].symbol != rows[k - 1].symbol {
          assert before[j].symbol == rows[j].symbol;
        }
      }
      assert parse(lines[k - 1][2]) == Some(rows[k - 1].atomicMass);
      assert ImportedElement(lines[k - 1], rows[k - 1].atomicMass) == Reimported(rows[k - 1]);
      assert before + [Reimported(rows[k - 1])] == seq(k, i requires 0 <= i < k => Reimported(rows[i]));
    }
  }

  /**
   * Exporting a table and importing the file into an empty table inserts every
   * exported element, in listing order, with its atomic number reset to 0,
   * provided the text written for each exported mass reads back as that mass.
   */
  lemma ExportImportRoundTrip(t: seq<Element>, show: real -> string, parse: string -> Option<real>)
    requires UniqueSymbols(t)
    requires forall e :: e in t ==> parse(show(e.atomicMass)) == Some(e.atomicMass)
    ensures var rows := AllElements(t);
      Import([], Some(ExportRows(t, show)), parse)
      == ImportState(seq(|rows|, i requires 0 <= i < |rows| => Reimported(rows[i])), |t|, false)
  {
    var rows := AllElements(t);
    AllElementsExactlyOnce(t);
    forall i | 0 <= i < |rows| ensures parse(show(rows[i].atomicMass)) == Some(rows[i].atomicMass) {
      assert rows[i] in AllElements(t);
    }
    assert ExportRows(t, show)[1..] == seq(|rows|, i requires 0 <= i < |rows| => CsvOf(rows[i], show));
    ReimportPrefix(rows, |rows|, show, parse);
  }

  // ---------------------------------------------------------------- seed data

  /** The elements `populate_elements` inserts into a new database. */
  const SeedElements: seq<Element> := [
    Element("H", "Водород", 1.008, 1, Some("Неметалл"), Some(1766)),
    Element("He", "Гелий", 4.0026, 2, Some("Инертный газ"), Some(1868)),
    Element("Li", "Литий", 6.94, 3, Some("Щелочной металл"), Some(1817)),
    Element("Be", "Бериллий", 9.0122, 4, Some("Щелочноземельный"), Some(1797)),
    Element("B", "Бор", 10.81, 5, Some("Металлоид"), Some(1808)),
    Element("C", "Углерод", 12.011, 6, Some("Неметалл"), Some(-2000)),
    Element("N", "Азот", 14.007, 7, Some("Неметалл"), Some(1772)),
    Element("O", "Кислород", 15.999, 8, Some("Неметалл"), Some(1774)),
    Element("F", "Фтор", 18.998, 9, Some("Галоген"), Some(1886)),
    Element("Ne", "Неон", 20.180, 10, Some("Инертный газ"), Some(1898)),
    Element("Na", "Натрий", 22.990, 11, Some("Щелочной металл"), Some(1807)),
    Element("Mg", "Магний", 24.305, 12, Some("Щелочноземельный"), Some(1755)),
    Element("Al", "Алюминий", 26.982, 13, Some("Постпереходный металл"), Some(1825)),
    Element("Si", "Кремний", 28.085, 14, Some("Металлоид"), Some(1824)),
    Element("P", "Фосфор", 30.974, 15, Some("Неметалл"), Some(1669)),
    Element("S", "Сера", 32.06, 16, Some("Неметалл"), Some(-2000)),
    Element("Cl", "Хлор", 35.45, 17, Some("Галоген"), Some(1774)),
    Element("Ar", "Аргон", 39.948, 18, Some("Инертный газ"), Some(1894)),
    Element("K", "Калий", 39.098, 19, Some("Щелочной металл"), Some(1807)),
    Element("Ca", "Кальций", 40.078, 20, Some("Щелочноземельный"), Some(1808)),
    Element("Fe", "Железо", 55.845, 26, Some("Переходный металл"), Some(-2000)),
    Element("Cu", "Медь", 63.546, 29, Some("Переходный металл"), Some(-8000)),
    Element("Zn", "Цинк", 65.38, 30, Some("Переходный металл"), Some(1746)),
    Element("Ag", "Серебро", 107.87, 47, Some("Переходный металл"), Some(-3000)),
    Element("Au", "Золото", 196.97, 79, Some("Переходный металл"), Some(-3000)),
    Element("Hg", "Ртуть", 200.59, 80, Some("Переходный металл"), Some(-2000)),
    Element("Pb", "Свинец", 207.2, 82, Some("Постпереходный металл"), Some(-3000))
  ]

  /** `INSERT OR IGNORE` of `seeds`, one after the other, into an empty table. */
  function SeedTable(seeds: seq<Element>): (t: seq<Element>)
    ensures UniqueSymbols(t)
    ensures forall i :: 0 <= i < |seeds| ==> HasSymbol(t, seeds[i].symbol)
    ensures forall x :: x in t ==> x in seeds
    decreases |seeds|
  {
    if seeds == [] then []
    else
      var prefix := seeds[..|seeds| - 1];
      var last := seeds[|seeds| - 1];
      var before := SeedTable(prefix);
      assert forall i :: 0 <= i < |seeds| - 1 ==> seeds[i] == prefix[i];
      assert forall x :: x in prefix ==> x in seeds;
      if HasSymbol(before, last.symbol) then before
      else
        var t := before + [last];
        assert forall i :: 0 <= i < |seeds| ==> HasSymbol(t, seeds[i].symbol) by {
          forall i | 0 <= i < |seeds| ensures HasSymbol(t, seeds[i].symbol) {
            if i < |seeds| - 1 {
              assert HasSymbol(before, prefix[i].symbol);
              var k :| 0 <= k < |before| && before[k].symbol == prefix[i].symbol;
              assert t[k] == before[k];
            } else {
              assert t[|before|] == last;
            }
          }
        }
        t
  }

  /** The reference compounds `populate_elements` inserts. */
  const SeedCompounds: seq<ReferenceCompound> := [
    ReferenceCompound("Вода", "H2O", 18.015, "Основной растворитель"),
    ReferenceCompound("Поваренная соль", "NaCl", 58.44, "Хлорид натрия"),
    ReferenceCompound("Серная кислота", "H2SO4", 98.079, "Сильная кислота"),
    ReferenceCompound("Глюкоза", "C6H12O6", 180.156, "Углевод"),
    ReferenceCompound("Метан", "CH4", 16.04, "Природный газ"),
    ReferenceCompound("Этанол", "C2H5OH", 46.07, "Спирт")
  ]

  // ---------------------------------------------------------------- the store

  /** `DatabaseManager` over an in-memory copy of its three tables. */
  class Database {
    var elements: seq<Element>
    var commonCompounds: seq<ReferenceCompound>
    var savedCompounds: seq<SavedCompound>

    ghost predicate Valid()
      reads this
    {
      UniqueSymbols(elements)
    }

    /** A database created from scratch: tables created, then seeded with `INSERT OR IGNORE`. */
    constructor ()
      ensures Valid()
      ensures elements == SeedTable(SeedElements)
      ensures commonCompounds == SeedCompounds && savedCompounds == []
    {
      elements := [];
      commonCompounds := SeedCompounds;
      savedCompounds := [];
      new;
      InsertOrIgnoreAll(SeedElements);
    }

    /** The seeding loop: `INSERT OR IGNORE` of each of `seeds`, in order, into the empty table. */
    method InsertOrIgnoreAll(seeds: seq<Element>)
      requires elements == []
      modifies this`elements
      ensures elements == SeedTable(seeds) && Valid()
    {
      var i := 0;
      while i < |seeds|
        invariant 0 <= i <= |seeds|
        invariant elements == SeedTable(seeds[..i]) && Valid()
      {
        assert seeds[..i + 1][..i] == seeds[..i];
        var _ := AddElement(seeds[i]);
        i := i + 1;
      }
      assert seeds[..i] == seeds;
    }

    /** `add_element`: fails, changing nothing, when the symbol is taken; otherwise inserts the row. */
    method AddElement(e: Element) returns (ok: bool)
      requires Valid()
      modifies this`elements
      ensures Valid()
      ensures ok <==> !HasSymbol(old(elements), e.symbol)
      ensures elements == if ok then old(elements) + [e] else old(elements)
    {
      if Lookup(elements, e.symbol).Some? {
        return false;
      }
      elements := elements + [e];
      return true;
    }

    /** `update_element`: replaces the row of `oldSymbol` unless that would duplicate a symbol. */
    method UpdateElement(oldSymbol: string, e: Element) returns (ok: bool)
      requires Valid()
      modifies this`elements
      ensures Valid()
      ensures ok <==> UniqueSymbols(ReplaceSymbol(old(elements), oldSymbol, e))
      ensures elements == if ok then ReplaceSymbol(old(elements), oldSymbol, e) else old(elements)
    {
      UpdateTouchesOneRow(elements, oldSymbol, e);
      if !HasSymbol(elements, oldSymbol) {
        return true;
      }
      UpdateKeepsUniqueIff(elements, oldSymbol, e);
      if e.symbol != oldSymbol && HasSymbol(elements, e.symbol) {
        return false;
      }
      elements := ReplaceSymbol(elements, oldSymbol, e);
      return true;
    }

    /** `delete_element`: removes the row carrying `symbol`, if any, and always reports success. */
    method DeleteElement(symbol: string) returns (ok: bool)
      requires Valid()
      modifies this`elements
      ensures Valid()
      ensures ok && elements == RemoveSymbol(old(elements), symbol)
    {
      FilterKeepsUnique(elements, NotSymbol(symbol));
      elements := RemoveSymbol(elements, symbol);
      return true;
    }

    /** `save_compound`: appends one saved compound. */
    method SaveCompound(c: SavedCompound) returns (ok: bool)
      modifies this`savedCompounds
      ensures ok && savedCompounds == old(savedCompounds) + [c]
    {
      savedCompounds := savedCompounds + [c];
      return true;
    }

    /**
     * `import_from_csv` over the file's lines (`None` when it cannot be
     * opened): the header is skipped, short rows are ignored, rows whose
     * symbol is present are skipped, the others are inserted; a mass that
     * does not parse aborts with -1 and keeps what was inserted before.
     */
    method ImportFromCsv(file: Option<seq<CsvRow>>, parse: string -> Option<real>) returns (result: int)
      requires Valid()
      modifies this`elements
      ensures Valid()
      ensures elements == Import(old(elements), file, parse).table
      ensures result == Reported(Import(old(elements), file, parse))
    {
      if file.None? || file.value == [] {
        return -1;
      }
      var body := file.value[1..];
      var importedCount := 0;
      var i := 0;
      while i < |body|
        invariant 0 <= i <= |body|
        invariant Valid()
        invariant ImportRows(old(elements), body[..i], parse) == ImportState(elements, importedCount, false)
      {
        var row := body[i];
        ImportRowsStep(old(elements), body, i, parse);
        if |row| >= 3 {
          var mass := parse(row[2]);
          if mass.None? {
            ImportStopsAtFailure(old(elements), body, i + 1, parse);
            return -1;
          }
          if Lookup(elements, row[0]).None? {
            var _ := AddElement(ImportedElement(row, mass.value));
            importedCount := importedCount + 1;
          }
        }
        i := i + 1;
      }
      assert body[..i] == body;
      return importedCount;
    }

    /** `export_to_csv`: `None` when the file cannot be opened, else the lines written. */
    method ExportToCsv(canOpen: bool, show: real -> string) returns (written: Option<seq<CsvRow>>)
      ensures written == if canOpen then Some(ExportRows(elements, show)) else None
    {
      if !canOpen {
        return None;
      }
      var rows := AllElements(elements);
      var lines := [CsvHeader];
      var i := 0;
      while i < |rows|
        invariant 0 <= i <= |rows|
        invariant lines == [CsvHeader] + seq(i, k requires 0 <= k < i => CsvOf(rows[k], show))
      {
        lines := lines + [CsvOf(rows[i], show)];
        i := i + 1;
      }
      return Some(lines);
    }
  }
}

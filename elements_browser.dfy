/**
 * The selection logic of the elements browser (elements_browser.py): which
 * rows of the store the table shows for a category or a search query, and
 * what each shown line holds.
 */
module ElementsBrowser {
  import opened Wrappers
  import opened Text
  import opened Sequences
  import opened ElementStore

  /** The category entry that stands for "no filter". */
  const AllCategories: string := "Все категории"

  function InCategory(category: string): ElementRow -> bool {
    (row: ElementRow) => row.category == Some(category)
  }

  /** `filter_by_category`: the listing, or the listed rows whose category is exactly `category`. */
  function FilterByCategory(t: seq<Element>, category: string): (r: seq<ElementRow>)
    ensures category == AllCategories ==> r == AllElements(t)
    ensures category != AllCategories ==>
      forall row :: row in r <==> row in AllElements(t) && row.category == Some(category)
    ensures IsSubsequence(r, AllElements(t))
  {
    if category == AllCategories then
      assert IsSubsequence(AllElements(t), AllElements(t)) by { SubsequenceOfItself(AllElements(t)); }
      AllElements(t)
    else
      var r := Filter(AllElements(t), InCategory(category));
      assert forall row :: row in r <==> row in AllElements(t) && row.category == Some(category) by {
        forall row ensures row in r <==> row in AllElements(t) && row.category == Some(category) {
          FilterMembership(AllElements(t), InCategory(category), row);
        }
      }
      FilterIsSubsequence(AllElements(t), InCategory(category));
      r
  }

  lemma {:induction false} SubsequenceOfItself(s: seq<ElementRow>)
    ensures IsSubsequence(s, s)
  {
    if s != [] {
      SubsequenceOfItself(s[1..]);
    }
  }

  /**
   * `search_elements`: a blank query shows the listing; any other shows exactly
   * the store's search for the stripped query, which keeps its atomic-number
   * order (`ElementStore.SearchExact`).
   */
  function SearchElements(t: seq<Element>, queryText: string): (r: seq<ElementRow>)
    ensures Strip(queryText) == [] ==> r == AllElements(t)
    ensures Strip(queryText) != [] ==>
      forall row :: row in r <==> exists e :: e in t && Matches(e, Strip(queryText)) && Columns(e) == row
    ensures Strip(queryText) != [] ==> r == Search(t, Strip(queryText))
  {
    var q := Strip(queryText);
    if q == [] then AllElements(t)
    else
      SearchExact(t, q);
      Search(t, q)
  }

  /** One line of the browser's table. */
  datatype ShownRow = ShownRow(
    symbol: string,
    name: string,
    atomicMass: real,
    atomicNumber: int,
    category: string,
    discovered: string)

  /** What the browser shows: the table's row count, its lines and the count in the statistics label. */
  datatype Shown = Shown(rowCount: int, lines: seq<ShownRow>, statisticsCount: int)

  const NoCategory: string := "Не указана"
  const UnknownDiscovery: string := "Неизвестно"

  function ShowRow(row: ElementRow, index: nat): ShownRow {
    var category := if row.category == None || row.category == Some("") then NoCategory else row.category.value;
    ShownRow(row.symbol, row.name, row.atomicMass, index + 1, category, UnknownDiscovery)
  }

  /**
   * `display_elements`: one line per row, in order; both counts are the number
   * of rows; the atomic number shown is the placeholder position + 1; a
   * missing or empty category shows as "Не указана", and the discovery column
   * always shows "Неизвестно".
   */
  function DisplayElements(rows: seq<ElementRow>): (d: Shown)
    ensures d.rowCount == |rows| == |d.lines| && d.statisticsCount == |rows|
    ensures forall i :: 0 <= i < |rows| ==>
      && d.lines[i].symbol == rows[i].symbol && d.lines[i].name == rows[i].name
      && d.lines[i].atomicMass == rows[i].atomicMass
      && d.lines[i].atomicNumber == i + 1
      && (d.lines[i].category == NoCategory <==> rows[i].category in {None, Some(""), Some(NoCategory)})
      && (rows[i].category.Some? && rows[i].category.value != "" ==> d.lines[i].category == rows[i].category.value)
      && d.lines[i].discovered == UnknownDiscovery
  {
    Shown(|rows|, seq(|rows|, i requires 0 <= i < |rows| => ShowRow(rows[i], i)), |rows|)
  }
}

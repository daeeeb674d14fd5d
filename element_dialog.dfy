/**
 * The "add element" dialog of element_dialog.py: the checks made before the
 * dialog is accepted, and the record it hands to the store afterwards.
 */
module ElementDialog {
  import opened Wrappers
  import opened Text
  import opened ElementStore

  /** The raw contents of the dialog's fields. */
  datatype DialogInput = DialogInput(
    symbolText: string,
    nameText: string,
    atomicMass: real,
    atomicNumber: int,
    categoryText: string,
    discoveredYear: int)

  /** Whether the dialog closes as accepted, or which warning it shows instead. */
  datatype Verdict = Accepted | MissingSymbol | MissingName | SymbolTooLong

  /** The year spin box's special value, shown as "unknown". */
  const UnknownYear: int := -5000

  /**
   * `validate_and_accept`: first a non-empty symbol, then a non-empty name, then
   * a symbol of at most three characters, each after stripping; the first check
   * that fails decides the warning.
   */
  function ValidateAndAccept(symbolText: string, nameText: string): (v: Verdict)
    ensures v == Accepted <==> Strip(symbolText) != [] && Strip(nameText) != [] && |Strip(symbolText)| <= 3
    ensures v == MissingSymbol <==> Strip(symbolText) == []
    ensures v == MissingName <==> Strip(symbolText) != [] && Strip(nameText) == []
    ensures v == SymbolTooLong <==> Strip(symbolText) != [] && Strip(nameText) != [] && |Strip(symbolText)| > 3
  {
    var symbol := Strip(symbolText);
    var name := Strip(nameText);
    if symbol == [] then MissingSymbol
    else if name == [] then MissingName
    else if |symbol| > 3 then SymbolTooLong
    else Accepted
  }

  /** `get_element_data`: stripped symbol and name, "" category and the special year mapped to `None`. */
  function GetElementData(d: DialogInput): (e: Element)
    ensures e.symbol == Strip(d.symbolText) && e.name == Strip(d.nameText)
    ensures e.atomicMass == d.atomicMass && e.atomicNumber == d.atomicNumber
    ensures e.category == None <==> d.categoryText == ""
    ensures e.category.Some? ==> e.category.value == d.categoryText
    ensures e.discoveredYear == None <==> d.discoveredYear == UnknownYear
    ensures e.discoveredYear.Some? ==> e.discoveredYear.value == d.discoveredYear
  {
    var category := if d.categoryText == "" then None else Some(d.categoryText);
    var year := if d.discoveredYear == UnknownYear then None else Some(d.discoveredYear);
    Element(Strip(d.symbolText), Strip(d.nameText), d.atomicMass, d.atomicNumber, category, year)
  }

  /**
   * The record read from an accepted dialog has a non-empty symbol of at most
   * three characters and a non-empty name, neither with surrounding blanks.
   */
  lemma AcceptedDataIsComplete(d: DialogInput)
    requires ValidateAndAccept(d.symbolText, d.nameText) == Accepted
    ensures var e := GetElementData(d);
      && e.symbol != [] && |e.symbol| <= 3 && e.name != []
      && Strip(e.symbol) == e.symbol && Strip(e.name) == e.name
  {
    StripIdempotent(d.symbolText);
    StripIdempotent(d.nameText);
  }
}

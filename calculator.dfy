/**
 * The compound accumulator of main_window.py: an ordered list of
 * (symbol, quantity) entries built one element at a time, reduced on demand
 * to a molar mass, a per-entry breakdown, a display formula and the
 * composition string stored with a saved compound.
 */
module Calculator {
  import opened Wrappers
  import opened Text
  import opened ElementStore
  import ElementDialog

  /** One accumulated entry; entries are never merged, even when symbols repeat. */
  datatype Entry = Entry(symbol: string, quantity: real)

  /** One line of the result: symbol, quantity, contribution, atomic mass, element name. */
  datatype BreakdownLine = BreakdownLine(symbol: string, quantity: real, contribution: real, atomicMass: real, name: string)

  /** What the calculation hands to the result window. */
  datatype CalcResult = CalcResult(compoundName: string, formula: string, totalMass: real, breakdown: seq<BreakdownLine>)

  /** How an attempt to add an entry ends: the entry appended, or the warning shown. */
  datatype AddOutcome = Added(entry: Entry) | NoSymbol | NoQuantity | NotANumber | NotPositive | UnknownSymbol

  datatype SaveOutcome = NothingToSave | NameCancelled | Saved(name: string)

  datatype NewElementOutcome = DialogCancelled | ElementAdded | SymbolTaken

  /** The name the result window shows when the name field is blank. */
  const DefaultCompoundName: string := "Неизвестное соединение"

  // ---------------------------------------------------------------- adding an entry

  /**
   * The checks of `add_element_to_list`, each made only when the ones before
   * it passed: first a non-empty symbol, then a non-empty quantity, then a
   * quantity that parses, then a positive one, then a symbol the store knows.
   */
  function CheckEntry(symbolText: string, quantityText: string, parse: string -> Option<real>, t: seq<Element>): (r: AddOutcome)
    ensures r.Added? <==>
      && Strip(symbolText) != [] && Strip(quantityText) != []
      && parse(Strip(quantityText)).Some? && parse(Strip(quantityText)).value > 0.0
      && HasSymbol(t, Strip(symbolText))
    ensures r.Added? ==> r.entry == Entry(Strip(symbolText), parse(Strip(quantityText)).value)
    ensures r.Added? ==> r.entry.symbol != [] && r.entry.quantity > 0.0
    ensures r == NoSymbol <==> Strip(symbolText) == []
    ensures r == NoQuantity <==> Strip(symbolText) != [] && Strip(quantityText) == []
    ensures r == NotANumber <==> Strip(symbolText) != [] && Strip(quantityText) != [] && parse(Strip(quantityText)).None?
    ensures r == NotPositive <==>
      && Strip(symbolText) != [] && Strip(quantityText) != []
      && parse(Strip(quantityText)).Some? && parse(Strip(quantityText)).value <= 0.0
    ensures r == UnknownSymbol <==>
      && Strip(symbolText) != [] && Strip(quantityText) != []
      && parse(Strip(quantityText)).Some? && parse(Strip(quantityText)).value > 0.0
      && !HasSymbol(t, Strip(symbolText))
  {
    var symbol := Strip(symbolText);
    var quantityField := Strip(quantityText);
    if symbol == [] then NoSymbol
    else if quantityField == [] then NoQuantity
    else match parse(quantityField)
      case None => NotANumber
      case Some(quantity) =>
        if quantity <= 0.0 then NotPositive
        else if Lookup(t, symbol).None? then UnknownSymbol
        else Added(Entry(symbol, quantity))
  }

  // ---------------------------------------------------------------- mass and breakdown

  /** `atomic_mass * quantity` when the symbol resolves, nothing otherwise. */
  function Contribution(e: Entry, t: seq<Element>): real {
    match Lookup(t, e.symbol)
    case None => 0.0
    case Some(row) => row.atomicMass * e.quantity
  }

  /** The breakdown line of one entry; an entry whose symbol does not resolve has none. */
  function LineFor(e: Entry, t: seq<Element>): seq<BreakdownLine> {
    match Lookup(t, e.symbol)
    case None => []
    case Some(row) => [BreakdownLine(e.symbol, e.quantity, row.atomicMass * e.quantity, row.atomicMass, row.name)]
  }

  /** The total mass: the sum of the contributions of the entries that resolve, in entry order. */
  function ResolvedMass(entries: seq<Entry>, t: seq<Element>): real
    decreases |entries|
  {
    if entries == [] then 0.0
    else ResolvedMass(entries[..|entries| - 1], t) + Contribution(entries[|entries| - 1], t)
  }

  /** The breakdown: one line per resolving entry, in entry order. */
  function Breakdown(entries: seq<Entry>, t: seq<Element>): seq<BreakdownLine>
    decreases |entries|
  {
    if entries == [] then []
    else Breakdown(entries[..|entries| - 1], t) + LineFor(entries[|entries| - 1], t)
  }

  function SumContributions(lines: seq<BreakdownLine>): real
    decreases |lines|
  {
    if lines == [] then 0.0
    else SumContributions(lines[..|lines| - 1]) + lines[|lines| - 1].contribution
  }

  /** Appending at most one line adds that line's contribution to the column's sum. */
  lemma SumAppendLine(b: seq<BreakdownLine>, l: seq<BreakdownLine>)
    requires |l| <= 1
    ensures SumContributions(b + l) == SumContributions(b) + SumContributions(l)
  {
    if l == [] {
      assert b + l == b;
    } else {
      assert (b + l)[..|b + l| - 1] == b;
      assert (b + l)[|b + l| - 1] == l[0];
      assert l[..0] == [];
      assert SumContributions(l) == SumContributions([]) + l[0].contribution;
    }
  }

  /** The line of an entry carries exactly its contribution. */
  lemma LineCarriesContribution(e: Entry, t: seq<Element>)
    ensures |LineFor(e, t)| <= 1
    ensures SumContributions(LineFor(e, t)) == Contribution(e, t)
  {
    if Lookup(t, e.symbol).Some? {
      assert LineFor(e, t)[..0] == [];
    }
  }

  /** The total mass is the sum of the breakdown's contribution column. */
  lemma {:induction false} MassIsBreakdownSum(entries: seq<Entry>, t: seq<Element>)
    ensures ResolvedMass(entries, t) == SumContributions(Breakdown(entries, t))
    decreases |entries|
  {
    if entries != [] {
      var n := |entries| - 1;
      MassIsBreakdownSum(entries[..n], t);
      LineCarriesContribution(entries[n], t);
      SumAppendLine(Breakdown(entries[..n], t), LineFor(entries[n], t));
    }
  }

  /** The total mass of a concatenation is the sum of the totals of its halves. */
  lemma {:induction false} MassAdditive(a: seq<Entry>, b: seq<Entry>, t: seq<Element>)
    ensures ResolvedMass(a + b, t) == ResolvedMass(a, t) + ResolvedMass(b, t)
    decreases |b|
  {
    if b == [] {
      assert a + b == a;
    } else {
      var n := |b| - 1;
      assert (a + b)[..|a + b| - 1] == a + b[..n];
      assert (a + b)[|a + b| - 1] == b[n];
      MassAdditive(a, b[..n], t);
    }
  }

  /** The breakdown of a concatenation is the breakdowns of its halves, one after the other. */
  lemma {:induction false} BreakdownConcat(a: seq<Entry>, b: seq<Entry>, t: seq<Element>)
    ensures Breakdown(a + b, t) == Breakdown(a, t) + Breakdown(b, t)
    decreases |b|
  {
    if b == [] {
      assert a + b == a;
    } else {
      var n := |b| - 1;
      assert (a + b)[..|a + b| - 1] == a + b[..n];
      assert (a + b)[|a + b| - 1] == b[n];
      BreakdownConcat(a, b[..n], t);
    }
  }

  /**
   * Removing entry `i` takes exactly its contribution off the total and its
   * line (if any) out of the breakdown; the other lines keep their order.
   */
  lemma RemoveEntryEffect(s: seq<Entry>, i: int, t: seq<Element>)
    requires 0 <= i < |s|
    ensures ResolvedMass(s[..i] + s[i + 1..], t) == ResolvedMass(s, t) - Contribution(s[i], t)
    ensures Breakdown(s, t) == Breakdown(s[..i], t) + LineFor(s[i], t) + Breakdown(s[i + 1..], t)
    ensures Breakdown(s[..i] + s[i + 1..], t) == Breakdown(s[..i], t) + Breakdown(s[i + 1..], t)
  {
    assert s == s[..i] + [s[i]] + s[i + 1..];
    assert [s[i]][..0] == [];
    MassAdditive(s[..i], [s[i]], t);
    MassAdditive(s[..i] + [s[i]], s[i + 1..], t);
    MassAdditive(s[..i], s[i + 1..], t);
    BreakdownConcat(s[..i], [s[i]], t);
    BreakdownConcat(s[..i] + [s[i]], s[i + 1..], t);
    BreakdownConcat(s[..i], s[i + 1..], t);
  }

  /**
   * When every entry resolves, the breakdown has one line per entry, in entry
   * order, each with the element's mass and name and contribution mass * quantity.
   */
  lemma {:induction false} BreakdownAllResolved(entries: seq<Entry>, t: seq<Element>)
    requires forall i :: 0 <= i < |entries| ==> HasSymbol(t, entries[i].symbol)
    ensures |Breakdown(entries, t)| == |entries|
    ensures forall i :: 0 <= i < |entries| ==> ResolvedLine(Breakdown(entries, t)[i], entries[i], t)
    decreases |entries|
  {
    if entries != [] {
      var n := |entries| - 1;
      var prefix, last := entries[..n], entries[n];
      forall i | 0 <= i < n ensures HasSymbol(t, prefix[i].symbol) {
        assert prefix[i] == entries[i];
      }
      BreakdownAllResolved(prefix, t);
      LineForResolved(last, t);
      assert entries == prefix + [last];
      ResolvedExtend(Breakdown(prefix, t), prefix, LineFor(last, t), last, t);
    }
  }

  lemma ResolvedExtend(b: seq<BreakdownLine>, prefix: seq<Entry>, l: seq<BreakdownLine>, last: Entry, t: seq<Element>)
    requires |b| == |prefix| && forall i :: 0 <= i < |b| ==> ResolvedLine(b[i], prefix[i], t)
    requires |l| == 1 && ResolvedLine(l[0], last, t)
    ensures forall i :: 0 <= i < |b| + 1 ==> ResolvedLine((b + l)[i], (prefix + [last])[i], t)
  {
    forall i | 0 <= i < |b| + 1 ensures ResolvedLine((b + l)[i], (prefix + [last])[i], t) {
      if i < |b| {
        assert (b + l)[i] == b[i] && (prefix + [last])[i] == prefix[i];
      }
    }
  }

  /** The line of an entry whose symbol resolves: its symbol and quantity, the element's mass and name, mass * quantity. */
  ghost predicate ResolvedLine(line: BreakdownLine, e: Entry, t: seq<Element>) {
    && Lookup(t, e.symbol).Some?
    && line.symbol == e.symbol && line.quantity == e.quantity
    && line.atomicMass == Lookup(t, e.symbol).value.atomicMass && line.name == Lookup(t, e.symbol).value.name
    && line.contribution == line.atomicMass * e.quantity
  }

  lemma LineForResolved(e: Entry, t: seq<Element>)
    requires HasSymbol(t, e.symbol)
    ensures |LineFor(e, t)| == 1 && ResolvedLine(LineFor(e, t)[0], e, t)
  {
  }

  /** Repeated symbols stay separate entries: H×2, O×1, H×1 gives three lines and 2·1.008 + 15.999 + 1.008. */
  lemma RepeatedSymbolsAreNotMerged(t: seq<Element>)
    requires Lookup(t, "H").Some? && Lookup(t, "H").value.atomicMass == 1.008
    requires Lookup(t, "O").Some? && Lookup(t, "O").value.atomicMass == 15.999
    ensures var entries := [Entry("H", 2.0), Entry("O", 1.0), Entry("H", 1.0)];
      |Breakdown(entries, t)| == 3 && ResolvedMass(entries, t) == 19.023
  {
    var h2, o, h1 := Entry("H", 2.0), Entry("O", 1.0), Entry("H", 1.0);
    var entries := [h2, o, h1];
    assert Contribution(h2, t) == 2.016 && |LineFor(h2, t)| == 1;
    assert Contribution(o, t) == 15.999 && |LineFor(o, t)| == 1;
    assert Contribution(h1, t) == 1.008 && |LineFor(h1, t)| == 1;
    assert entries[..2] == [h2, o];
    assert [h2, o][..1] == [h2];
    assert [h2][..0] == [];
    assert ResolvedMass([h2], t) == 2.016 && |Breakdown([h2], t)| == 1;
    assert ResolvedMass([h2, o], t) == 18.015 && |Breakdown([h2, o], t)| == 2;
  }

  /** Water from the seeded hydrogen and oxygen rows: H×2, O×1 gives 18.015 and one line per entry. */
  lemma WaterExample(t: seq<Element>)
    requires Lookup(t, "H") == Some(ElementRow("H", "Водород", 1.008, Some("Неметалл")))
    requires Lookup(t, "O") == Some(ElementRow("O", "Кислород", 15.999, Some("Неметалл")))
    ensures var entries := [Entry("H", 2.0), Entry("O", 1.0)];
      && ResolvedMass(entries, t) == 18.015
      && Breakdown(entries, t) == [BreakdownLine("H", 2.0, 2.016, 1.008, "Водород"), BreakdownLine("O", 1.0, 15.999, 15.999, "Кислород")]
  {
    var h2, o := Entry("H", 2.0), Entry("O", 1.0);
    assert [h2, o][..1] == [h2];
    assert [h2][..0] == [];
  }

  // ---------------------------------------------------------------- formula

  /** The bare symbol for quantity 1, otherwise the symbol with the quantity in subscript brackets. */
  function FormulaPart(e: Entry, show: real -> string): string {
    if e.quantity == 1.0 then e.symbol else e.symbol + "₍" + show(e.quantity) + "₎"
  }

  function FormulaParts(entries: seq<Entry>, show: real -> string): seq<string> {
    seq(|entries|, i requires 0 <= i < |entries| => FormulaPart(entries[i], show))
  }

  /** The displayed formula: one part per entry, joined with " + ". */
  function Formula(entries: seq<Entry>, show: real -> string): string {
    Join(FormulaParts(entries, show), " + ")
  }

  /**
   * The formula loop of `update_formula_display` and `calculate_molar_mass`:
   * empty for no entries, else one part per entry joined with " + ".
   */
  method RenderFormula(entries: seq<Entry>, show: real -> string) returns (formula: string)
    ensures formula == Formula(entries, show)
  {
    if entries == [] {
      return "";
    }
    var parts: seq<string> := [];
    for i := 0 to |entries|
      invariant |parts| == i
      invariant forall k :: 0 <= k < i ==> parts[k] == FormulaPart(entries[k], show)
    {
      if entries[i].quantity == 1.0 {
        parts := parts + [entries[i].symbol];
      } else {
        parts := parts + [entries[i].symbol + "₍" + show(entries[i].quantity) + "₎"];
      }
    }
    assert parts == FormulaParts(entries, show);
    formula := Join(parts, " + ");
  }

  /** Appending an entry extends the formula by " + " and the new part (or starts it). */
  lemma FormulaAfterAdd(s: seq<Entry>, e: Entry, show: real -> string)
    ensures Formula(s + [e], show) == if s == [] then FormulaPart(e, show) else Formula(s, show) + " + " + FormulaPart(e, show)
  {
    assert FormulaParts(s + [e], show) == FormulaParts(s, show) + [FormulaPart(e, show)];
    if s != [] {
      JoinAppend(FormulaParts(s, show), FormulaPart(e, show), " + ");
    }
  }

  /** With non-empty symbols the formula is empty exactly when the list is. */
  lemma FormulaEmptyIff(s: seq<Entry>, show: real -> string)
    requires forall i :: 0 <= i < |s| ==> s[i].symbol != []
    ensures Formula(s, show) == [] <==> s == []
  {
    if s != [] {
      var parts := FormulaParts(s, show);
      assert parts[0] == FormulaPart(s[0], show);
      assert s[0].symbol <= parts[0];
      JoinStartsWithFirst(parts, " + ");
    }
  }

  // ---------------------------------------------------------------- composition

  function CompositionPart(e: Entry, show: real -> string): string {
    e.symbol + ":" + show(e.quantity)
  }

  /** The `symbol:quantity` parts of the entries that resolve, in entry order. */
  function CompositionParts(entries: seq<Entry>, t: seq<Element>, show: real -> string): seq<string>
    decreases |entries|
  {
    if entries == [] then []
    else
      var last := entries[|entries| - 1];
      CompositionParts(entries[..|entries| - 1], t, show) + (if Lookup(t, last.symbol).Some? then [CompositionPart(last, show)] else [])
  }

  /** The composition names the same resolving entries as the breakdown, part for line. */
  lemma {:induction false} CompositionMatchesBreakdown(entries: seq<Entry>, t: seq<Element>, show: real -> string)
    ensures |CompositionParts(entries, t, show)| == |Breakdown(entries, t)|
    ensures forall i :: 0 <= i < |Breakdown(entries, t)| ==>
      CompositionParts(entries, t, show)[i] == Breakdown(entries, t)[i].symbol + ":" + show(Breakdown(entries, t)[i].quantity)
    decreases |entries|
  {
    if entries != [] {
      CompositionMatchesBreakdown(entries[..|entries| - 1], t, show);
    }
  }

  /**
   * The loop of `save_current_compound`: the resolved-only total mass and the
   * `symbol:quantity` parts of the resolving entries, in entry order.
   */
  method MassAndComposition(entries: seq<Entry>, t: seq<Element>, show: real -> string) returns (totalMass: real, composition: seq<string>)
    ensures totalMass == ResolvedMass(entries, t)
    ensures composition == CompositionParts(entries, t, show)
  {
    totalMass := 0.0;
    composition := [];
    for i := 0 to |entries|
      invariant totalMass == ResolvedMass(entries[..i], t)
      invariant composition == CompositionParts(entries[..i], t, show)
    {
      assert entries[..i + 1][..i] == entries[..i];
      var entry := entries[i];
      assert entries[..i + 1][i] == entry;
      var found := Lookup(t, entry.symbol);
      if found.Some? {
        totalMass := totalMass + found.value.atomicMass * entry.quantity;
        composition := composition + [entry.symbol + ":" + show(entry.quantity)];
      }
    }
    assert entries[..|entries|] == entries;
  }

  // ---------------------------------------------------------------- names

  /** The name the result carries: the stripped name field, or the default when it is blank. */
  function DisplayName(nameText: string): (n: string)
    ensures n != []
    ensures Strip(nameText) != [] ==> n == Strip(nameText)
    ensures Strip(nameText) == [] ==> n == DefaultCompoundName
  {
    var n := Strip(nameText);
    if n == [] then DefaultCompoundName else n
  }

  /**
   * The name a compound is saved under: the stripped name field, or else the
   * text typed into the name prompt (`None` when the prompt is cancelled).
   */
  function SaveName(nameText: string, prompt: Option<string>): (r: Option<string>)
    ensures r.Some? ==> r.value != []
    ensures r.None? <==> Strip(nameText) == [] && (prompt.None? || prompt.value == [])
    ensures Strip(nameText) != [] ==> r == Some(Strip(nameText))
  {
    var n := Strip(nameText);
    if n != [] then Some(n)
    else match prompt
      case None => None
      case Some(typed) => if typed == [] then None else Some(typed)
  }

  // ---------------------------------------------------------------- the window state

  /** Every accumulated entry has a symbol and a positive quantity. */
  predicate EntriesWellFormed(entries: seq<Entry>) {
    forall i :: 0 <= i < |entries| ==> entries[i].symbol != [] && entries[i].quantity > 0.0
  }

  lemma AppendKeepsWellFormed(entries: seq<Entry>, e: Entry)
    requires EntriesWellFormed(entries) && e.symbol != [] && e.quantity > 0.0
    ensures EntriesWellFormed(entries + [e])
  {
  }

  /** The accumulator part of `ChemicalCalculator`; its widgets are reduced to the values they hold. */
  class ChemicalCalculator {
    const db: Database
    /** How a quantity is written into the formula and the composition (`str(quantity)`). */
    const showNumber: real -> string
    /** How the quantity field is read (`float(text)`), `None` when it is not a number. */
    const parseNumber: string -> Option<real>

    var elementsList: seq<Entry>
    var compoundNameText: string
    var formulaText: string
    var calculateEnabled: bool

    ghost predicate Valid()
      reads this, db
    {
      && db.Valid()
      && formulaText == Formula(elementsList, showNumber)
      && calculateEnabled == (elementsList != [])
      && EntriesWellFormed(elementsList)
    }

    constructor (db: Database, showNumber: real -> string, parseNumber: string -> Option<real>)
      requires db.Valid()
      ensures Valid()
      ensures this.db == db && this.showNumber == showNumber && this.parseNumber == parseNumber
      ensures elementsList == [] && compoundNameText == [] && formulaText == [] && !calculateEnabled
    {
      this.db := db;
      this.showNumber := showNumber;
      this.parseNumber := parseNumber;
      elementsList := [];
      compoundNameText := "";
      formulaText := "";
      calculateEnabled := false;
    }

    /** `update_formula_display`. */
    method UpdateFormulaDisplay()
      modifies this`formulaText
      ensures formulaText == Formula(elementsList, showNumber)
    {
      formulaText := RenderFormula(elementsList, showNumber);
    }

    /** The name field, as typed or as filled in by loading a reference compound. */
    method SetCompoundName(text: string)
      modifies this`compoundNameText
      ensures compoundNameText == text
    {
      compoundNameText := text;
    }

    /**
     * `add_element_to_list`: appends exactly one entry when every check
     * passes; on every failure the list, the formula and the button stay as they were.
     */
    method AddElementToList(symbolText: string, quantityText: string) returns (outcome: AddOutcome)
      requires Valid()
      modifies this`elementsList, this`formulaText, this`calculateEnabled
      ensures Valid()
      ensures outcome == CheckEntry(symbolText, quantityText, parseNumber, db.elements)
      ensures elementsList == if outcome.Added? then old(elementsList) + [outcome.entry] else old(elementsList)
      ensures !outcome.Added? ==> formulaText == old(formulaText) && calculateEnabled == old(calculateEnabled)
    {
      outcome := CheckEntry(symbolText, quantityText, parseNumber, db.elements);
      if outcome.Added? {
        AppendEntry(outcome.entry);
      }
    }

    /** The effect of a successful add: the entry appended, the formula redrawn, calculation enabled. */
    method AppendEntry(e: Entry)
      requires Valid() && e.symbol != [] && e.quantity > 0.0
      modifies this`elementsList, this`formulaText, this`calculateEnabled
      ensures Valid() && elementsList == old(elementsList) + [e]
    {
      AppendKeepsWellFormed(elementsList, e);
      elementsList := elementsList + [e];
      UpdateFormulaDisplay();
      calculateEnabled := |elementsList| > 0;
    }

    /** `remove_selected_element`: drops the entry at `row` when it is in range, keeping the others in order. */
    method RemoveSelectedElement(row: int)
      requires Valid()
      modifies this`elementsList, this`formulaText, this`calculateEnabled
      ensures Valid()
      ensures elementsList == if 0 <= row < |old(elementsList)| then old(elementsList)[..row] + old(elementsList)[row + 1..] else old(elementsList)
    {
      if row >= 0 && row < |elementsList| {
        elementsList := elementsList[..row] + elementsList[row + 1..];
        UpdateFormulaDisplay();
        calculateEnabled := |elementsList| > 0;
      }
    }

    /** `clear_elements_list`: empties the list, the formula and the name, and disables calculation. */
    method ClearElementsList()
      requires Valid()
      modifies this`elementsList, this`formulaText, this`calculateEnabled, this`compoundNameText
      ensures Valid()
      ensures elementsList == [] && formulaText == [] && compoundNameText == [] && !calculateEnabled
    {
      elementsList := [];
      UpdateFormulaDisplay();
      calculateEnabled := false;
      compoundNameText := "";
    }

    /**
     * `calculate_molar_mass`: no result for an empty list; otherwise the
     * resolved-only total, the breakdown in entry order, the formula and the name.
     */
    method CalculateMolarMass() returns (r: Option<CalcResult>)
      ensures r.None? <==> elementsList == []
      ensures r.Some? ==> r.value == CalcResult(DisplayName(compoundNameText), Formula(elementsList, showNumber),
                                                ResolvedMass(elementsList, db.elements), Breakdown(elementsList, db.elements))
    {
      if elementsList == [] {
        return None;
      }
      var totalMass := 0.0;
      var elementsData: seq<BreakdownLine> := [];
      for i := 0 to |elementsList|
        invariant totalMass == ResolvedMass(elementsList[..i], db.elements)
        invariant elementsData == Breakdown(elementsList[..i], db.elements)
      {
        assert elementsList[..i + 1][..i] == elementsList[..i];
        var entry := elementsList[i];
        assert elementsList[..i + 1][i] == entry;
        var found := Lookup(db.elements, entry.symbol);
        if found.Some? {
          var elementMass := found.value.atomicMass * entry.quantity;
          totalMass := totalMass + elementMass;
          elementsData := elementsData + [BreakdownLine(entry.symbol, entry.quantity, elementMass, found.value.atomicMass, found.value.name)];
        }
      }
      assert elementsList[..|elementsList|] == elementsList;
      var formula := RenderFormula(elementsList, showNumber);
      var compoundName := Strip(compoundNameText);
      if compoundName == [] {
        compoundName := DefaultCompoundName;
      }
      return Some(CalcResult(compoundName, formula, totalMass, elementsData));
    }

    /**
     * `save_current_compound`: nothing without entries or without a name;
     * otherwise one saved compound with the displayed formula, the same
     * resolved-only mass as the calculation and the `;`-joined composition.
     */
    method SaveCurrentCompound(prompt: Option<string>) returns (outcome: SaveOutcome)
      requires Valid()
      modifies db`savedCompounds
      ensures Valid()
      ensures outcome == NothingToSave <==> elementsList == []
      ensures outcome == NameCancelled <==> elementsList != [] && SaveName(compoundNameText, prompt).None?
      ensures outcome.Saved? ==> SaveName(compoundNameText, prompt) == Some(outcome.name)
      ensures outcome.Saved? ==> db.savedCompounds == old(db.savedCompounds) + [SavedCompound(outcome.name,
        Formula(elementsList, showNumber), ResolvedMass(elementsList, db.elements),
        Join(CompositionParts(elementsList, db.elements, showNumber), ";"))]
      ensures !outcome.Saved? ==> db.savedCompounds == old(db.savedCompounds)
    {
      if elementsList == [] {
        return NothingToSave;
      }
      var name := SaveName(compoundNameText, prompt);
      if name.None? {
        return NameCancelled;
      }
      var totalMass, composition := MassAndComposition(elementsList, db.elements, showNumber);
      var _ := db.SaveCompound(SavedCompound(name.value, formulaText, totalMass, Join(composition, ";")));
      return Saved(name.value);
    }

    /**
     * `show_add_element_dialog`: `None` when the dialog is cancelled; an
     * accepted dialog's record is inserted unless its symbol is taken.
     */
    method ShowAddElementDialog(submitted: Option<ElementDialog.DialogInput>) returns (outcome: NewElementOutcome)
      requires Valid()
      requires submitted.Some? ==>
        ElementDialog.ValidateAndAccept(submitted.value.symbolText, submitted.value.nameText) == ElementDialog.Accepted
      modifies db`elements
      ensures Valid()
      ensures submitted.None? ==> outcome == DialogCancelled && db.elements == old(db.elements)
      ensures submitted.Some? ==>
        var e := ElementDialog.GetElementData(submitted.value);
        && (outcome == ElementAdded <==> !HasSymbol(old(db.elements), e.symbol))
        && (outcome == SymbolTaken <==> HasSymbol(old(db.elements), e.symbol))
        && db.elements == if outcome == ElementAdded then old(db.elements) + [e] else old(db.elements)
    {
      if submitted.None? {
        return DialogCancelled;
      }
      var data := ElementDialog.GetElementData(submitted.value);
      var success := db.AddElement(data);
      if success {
        return ElementAdded;
      }
      return SymbolTaken;
    }
  }
}

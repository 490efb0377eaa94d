/**
 * The collapsible city lists. `initCityToggle` keeps a closure flag
 * `isCollapsed`, read once from the list's `data-collapsed` attribute; each
 * click on the button flips it, writes the attribute back and redraws the
 * list (max-height, overflow) and the button label. `initCityFilter` shows
 * the items whose lower-cased text contains the trimmed, lower-cased query
 * and forces the list open, without telling the toggle.
 */
module CityList {
  import opened Wrappers
  import opened JsStrings

  const CollapsedLabel: string := "Arat\U{0103} mai multe"
  const ExpandedLabel: string := "Arat\U{0103} mai pu\U{021B}ine"

  /** What `updateState` writes: the list's max-height and overflow and the button's label. */
  datatype Presentation = Presentation(maxHeight: string, overflow: string, buttonText: string)

  function PresentationOf(collapsed: bool): Presentation {
    if collapsed then Presentation("320px", "hidden", CollapsedLabel)
    else Presentation("2000px", "visible", ExpandedLabel)
  }

  /** The attribute value a click writes. */
  function AttrValue(collapsed: bool): string {
    if collapsed then "true" else "false"
  }

  /** The display state depends on the closure flag alone, and tells it apart. */
  lemma PresentationDistinguishes(a: bool, b: bool)
    ensures PresentationOf(a).buttonText == PresentationOf(b).buttonText <==> a == b
    ensures PresentationOf(a).overflow == "hidden" <==> a
  {
  }

  // ---------------------------------------------------------------------
  // The list as a state machine over click and input events
  // ---------------------------------------------------------------------

  /**
   * One list with its toggle: the `data-collapsed` attribute (absent is
   * `None`), the toggle's closure flag, the list's max-height and overflow,
   * and the button label.
   */
  datatype ListState = ListState(
    attr: Option<string>, collapsed: bool, maxHeight: string, overflow: string, buttonText: string)

  datatype ListEvent = ToggleClick | FilterInput

  /** The state `updateState` leaves for a given closure flag. */
  function Drawn(attr: Option<string>, collapsed: bool): ListState {
    var p := PresentationOf(collapsed);
    ListState(attr, collapsed, p.maxHeight, p.overflow, p.buttonText)
  }

  /** After `initCityToggle`: collapsed exactly when the attribute reads `"true"`. */
  function Initial(attr: Option<string>): ListState {
    Drawn(attr, attr == Some("true"))
  }

  function Step(s: ListState, e: ListEvent): ListState {
    match e
    case ToggleClick => Drawn(Some(AttrValue(!s.collapsed)), !s.collapsed)
    case FilterInput => s.(attr := Some("false"), maxHeight := "1000px", overflow := "visible")
  }

  function Run(s: ListState, events: seq<ListEvent>): ListState
    decreases |events|
  {
    if events == [] then s else Run(Step(s, events[0]), events[1..])
  }

  function Clicks(n: nat): seq<ListEvent> {
    if n == 0 then [] else [ToggleClick] + Clicks(n - 1)
  }

  /** The attribute, the style and the label agree with the closure flag. */
  predicate Synced(s: ListState) {
    s == Drawn(Some(AttrValue(s.collapsed)), s.collapsed)
  }

  /**
   * What holds on every reachable state: an attribute reading `"true"` means
   * the closure is collapsed, the label always follows the closure, and the
   * style is the closure's unless the filter forced the list open.
   */
  predicate Consistent(s: ListState) {
    (s.attr == Some("true") ==> s.collapsed) &&
    s.buttonText == PresentationOf(s.collapsed).buttonText &&
    ((s.maxHeight == PresentationOf(s.collapsed).maxHeight &&
      s.overflow == PresentationOf(s.collapsed).overflow) ||
     (s.attr == Some("false") && s.maxHeight == "1000px" && s.overflow == "visible"))
  }

  /** A click writes back the new flag and redraws: afterwards everything agrees. */
  lemma ClickSyncs(s: ListState)
    ensures Step(s, ToggleClick).collapsed == !s.collapsed
    ensures Synced(Step(s, ToggleClick))
    ensures Step(s, ToggleClick).attr == Some("true") <==> Step(s, ToggleClick).collapsed
  {
  }

  /** Two clicks give back the closure flag, and the whole state when it agreed before. */
  lemma TwoClicksRestore(s: ListState)
    ensures Run(s, [ToggleClick, ToggleClick]).collapsed == s.collapsed
    ensures Synced(s) ==> Run(s, [ToggleClick, ToggleClick]) == s
  {
    assert [ToggleClick, ToggleClick][1..] == [ToggleClick];
  }

  /** After `n` clicks the flag has flipped exactly when `n` is odd. */
  lemma {:induction false} ClickParity(s: ListState, n: nat)
    ensures Run(s, Clicks(n)).collapsed == (s.collapsed != (n % 2 == 1))
    decreases n
  {
    if n > 0 {
      assert Clicks(n)[1..] == Clicks(n - 1);
      ClickParity(Step(s, ToggleClick), n - 1);
    }
  }

  /** Filtering forces the list open but leaves the toggle's flag and the label as they were. */
  lemma FilterLeavesToggle(s: ListState)
    ensures var t := Step(s, FilterInput);
      t.collapsed == s.collapsed && t.buttonText == s.buttonText &&
      t.attr == Some("false") && t.maxHeight == "1000px" && t.overflow == "visible"
  {
  }

  lemma {:induction false} RunConsistent(s: ListState, events: seq<ListEvent>)
    requires Consistent(s)
    ensures Consistent(Run(s, events))
    decreases |events|
  {
    if events != [] {
      RunConsistent(Step(s, events[0]), events[1..]);
    }
  }

  /**
   * From initialisation on, whatever mix of clicks and filter inputs
   * happens, the attribute reads `"true"` only while the closure is
   * collapsed, and the label matches the closure.
   */
  lemma AttributeTrueMeansCollapsed(attr: Option<string>, events: seq<ListEvent>)
    ensures Initial(attr).collapsed <==> attr == Some("true")
    ensures var t := Run(Initial(attr), events);
      (t.attr == Some("true") ==> t.collapsed) && t.buttonText == PresentationOf(t.collapsed).buttonText
  {
    RunConsistent(Initial(attr), events);
  }

  // ---------------------------------------------------------------------
  // The filter predicate
  // ---------------------------------------------------------------------

  /** The query as the filter compares it: the input's value trimmed, then lower-cased. */
  function NormalizedQuery(raw: string): string {
    Lower(Trim(raw))
  }

  /** The item's lower-cased text contains the normalised query. */
  predicate Matches(text: string, raw: string) {
    Contains(Lower(text), NormalizedQuery(raw))
  }

  /** The `display` style the filter gives an item. */
  function ItemDisplay(text: string, raw: string): string {
    if Matches(text, raw) then "" else "none"
  }

  /**
   * An item is shown exactly when the normalised query occurs somewhere in
   * its lower-cased text, and hidden otherwise.
   */
  lemma ItemDisplayMeaning(text: string, raw: string)
    ensures ItemDisplay(text, raw) == "" <==> exists i :: OccursAt(Lower(text), NormalizedQuery(raw), i)
    ensures ItemDisplay(text, raw) == "none" <==> !exists i :: OccursAt(Lower(text), NormalizedQuery(raw), i)
  {
    ContainsIffOccurs(Lower(text), NormalizedQuery(raw));
  }

  /** An empty or whitespace-only query shows every item. */
  lemma BlankQueryShowsAll(text: string, raw: string)
    requires forall i :: 0 <= i < |raw| ==> IsWhitespace(raw[i])
    ensures ItemDisplay(text, raw) == ""
  {
    TrimEmptyIffBlank(raw);
    assert NormalizedQuery(raw) == [];
    ContainsEmpty(Lower(text));
  }

  /** Matching ignores case on both sides (for the characters `Lower` covers). */
  lemma MatchIgnoresCase(text: string, raw: string)
    ensures Matches(text, raw) == Matches(Lower(text), Lower(raw))
  {
    LowerIdempotent(text);
    TrimLowerCommute(raw);
    LowerIdempotent(Trim(raw));
  }

  /** A query that trims to the item's whole lower-cased text always matches it. */
  lemma ExactTextMatches(text: string, raw: string)
    requires NormalizedQuery(raw) == Lower(text)
    ensures ItemDisplay(text, raw) == ""
  {
    assert OccursAt(Lower(text), NormalizedQuery(raw), 0);
    ItemDisplayMeaning(text, raw);
  }

  // ---------------------------------------------------------------------
  // The page elements and the two handlers
  // ---------------------------------------------------------------------

  class ListItem {
    var text: string
    var display: string

    constructor (text: string)
      ensures this.text == text && display == ""
    {
      this.text := text;
      display := "";
    }
  }

  /** A city list (`<ul>`) with its `li` items. */
  class ListElement {
    var collapsedAttr: Option<string>
    var maxHeight: string
    var overflow: string
    const items: seq<ListItem>

    constructor (collapsedAttr: Option<string>, items: seq<ListItem>)
      ensures this.collapsedAttr == collapsedAttr && this.items == items
      ensures maxHeight == "" && overflow == ""
    {
      this.collapsedAttr := collapsedAttr;
      this.items := items;
      maxHeight, overflow := "", "";
    }
  }

  class ButtonElement {
    var text: string

    constructor (text: string)
      ensures this.text == text
    {
      this.text := text;
    }
  }

  class InputElement {
    var value: string

    constructor (value: string)
      ensures this.value == value
    {
      this.value := value;
    }
  }

  /** The closure `initCityToggle` leaves behind: its flag and the two elements it writes. */
  class CityToggle {
    const list: ListElement
    const button: ButtonElement
    var isCollapsed: bool

    ghost function State(): ListState
      reads this, list, button
    {
      ListState(list.collapsedAttr, isCollapsed, list.maxHeight, list.overflow, button.text)
    }

    constructor (list: ListElement, button: ButtonElement)
      ensures this.list == list && this.button == button
      ensures isCollapsed <==> list.collapsedAttr == Some("true")
    {
      this.list := list;
      this.button := button;
      isCollapsed := list.collapsedAttr == Some("true");
    }

    /** The closure's redraw step: style and label from the flag alone. */
    method UpdateState()
      modifies list`maxHeight, list`overflow, button`text
      ensures State() == Drawn(list.collapsedAttr, isCollapsed)
    {
      if isCollapsed {
        list.maxHeight := "320px";
        list.overflow := "hidden";
        button.text := CollapsedLabel;
      } else {
        list.maxHeight := "2000px";
        list.overflow := "visible";
        button.text := ExpandedLabel;
      }
    }

    /** The button's click handler. */
    method OnClick()
      modifies this, list`collapsedAttr, list`maxHeight, list`overflow, button`text
      ensures State() == Step(old(State()), ToggleClick)
    {
      isCollapsed := !isCollapsed;
      list.collapsedAttr := Some(if isCollapsed then "true" else "false");
      UpdateState();
    }
  }

  /**
   * `initCityToggle`, given the results of looking up the two elements:
   * without either element nothing is registered or changed; otherwise the
   * flag is read from the attribute and `updateState` runs once.
   */
  method InitCityToggle(list: ListElement?, button: ButtonElement?) returns (toggle: CityToggle?)
    modifies list, button
    ensures list == null || button == null ==> toggle == null
    ensures list != null && button == null ==> unchanged(list)
    ensures list == null && button != null ==> unchanged(button)
    ensures list != null && button != null ==>
      toggle != null && fresh(toggle) && toggle.list == list && toggle.button == button &&
      toggle.State() == Initial(old(list.collapsedAttr))
  {
    if list == null || button == null {
      return null;
    }
    toggle := new CityToggle(list, button);
    toggle.UpdateState();
  }

  /** The closure `initCityFilter` leaves behind, with the items it captured. */
  class CityFilter {
    const list: ListElement
    const input: InputElement
    const items: seq<ListItem>

    constructor (list: ListElement, input: InputElement)
      ensures this.list == list && this.input == input && items == list.items
    {
      this.list := list;
      this.input := input;
      items := list.items;
    }

    /** The input's `input` handler. */
    method OnInput()
      modifies list`collapsedAttr, list`maxHeight, list`overflow, items`display
      ensures list.collapsedAttr == Some("false") && list.maxHeight == "1000px" && list.overflow == "visible"
      ensures forall i :: 0 <= i < |items| ==> items[i].display == ItemDisplay(items[i].text, input.value)
    {
      var q := Lower(Trim(input.value));
      list.collapsedAttr := Some("false");
      list.maxHeight := "1000px";
      list.overflow := "visible";
      var i := 0;
      while i < |items|
        invariant 0 <= i <= |items|
        invariant forall j :: 0 <= j < i ==> items[j].display == ItemDisplay(items[j].text, input.value)
        invariant list.collapsedAttr == Some("false") && list.maxHeight == "1000px" && list.overflow == "visible"
      {
        items[i].display := if Contains(Lower(items[i].text), q) then "" else "none";
        i := i + 1;
      }
    }
  }

  /**
   * `initCityFilter`: without either element nothing is
   * registered; otherwise the list's items are captured and nothing changes yet.
   */
  method InitCityFilter(list: ListElement?, input: InputElement?) returns (filter: CityFilter?)
    ensures list == null || input == null ==> filter == null
    ensures list != null && input != null ==>
      filter != null && fresh(filter) && filter.list == list && filter.input == input &&
      filter.items == list.items
  {
    if list == null || input == null {
      return null;
    }
    filter := new CityFilter(list, input);
  }

  /**
   * An input event on a list that also has a toggle: the list and its
   * attribute move as `Step(_, FilterInput)` says, while the toggle's
   * closure flag and the button label stay put.
   */
  method FilterBesideToggle(toggle: CityToggle, filter: CityFilter)
    requires toggle.list == filter.list
    modifies filter.list`collapsedAttr, filter.list`maxHeight, filter.list`overflow, filter.items`display
    ensures toggle.State() == Step(old(toggle.State()), FilterInput)
  {
    filter.OnInput();
  }

  /**
   * The page runs `initCityToggle` twice for each list (once per
   * `DOMContentLoaded` handler): both closures read the same attribute.
   */
  method InitToggleTwice(list: ListElement, button: ButtonElement) returns (first: CityToggle, second: CityToggle)
    modifies list, button
    ensures fresh(first) && fresh(second) && first != second
    ensures first.list == list && second.list == list && first.button == button && second.button == button
    ensures first.isCollapsed == second.isCollapsed
    ensures first.State() == Initial(old(list.collapsedAttr))
  {
    var a := InitCityToggle(list, button);
    var b := InitCityToggle(list, button);
    first, second := a, b;
  }

  /**
   * One click on a button that carries both closures' handlers: they flip
   * in lockstep, so the list ends up as a single click would leave it.
   */
  method ClickWithBothHandlers(first: CityToggle, second: CityToggle)
    requires first != second && first.list == second.list && first.button == second.button
    requires first.isCollapsed == second.isCollapsed
    modifies first, second, first.list`collapsedAttr, first.list`maxHeight, first.list`overflow, first.button`text
    ensures first.isCollapsed == second.isCollapsed == !old(first.isCollapsed)
    ensures first.State() == Step(old(first.State()), ToggleClick)
  {
    first.OnClick();
    second.OnClick();
  }
}

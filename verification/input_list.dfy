/**
 * The editable list of values of a list setting: the items shown, each with a remove button,
 * and the new item being typed with its Add button.
 */
module InputList {
  import opened Options
  import opened FieldValues

  /** The component state: the items and the text typed into the add input. */
  datatype ListState = ListState(listItems: seq<Item>, newItem: string)

  /** The initial state: the value of the props, or no items, and nothing typed. */
  function Init(value: Option<seq<Item>>): (st: ListState)
    ensures st.listItems == value.GetOr([])
    ensures st.newItem == ""
  {
    ListState(value.GetOr([]), "")
  }

  /** `componentWillReceiveProps`: new props always replace the items; the typed text stays. */
  function ReceiveProps(st: ListState, value: Option<seq<Item>>): (r: ListState)
    ensures r.listItems == value.GetOr([])
    ensures r.newItem == st.newItem
  {
    st.(listItems := value.GetOr([]))
  }

  /** `updateNewItem()`: the text of the add input, read from it, becomes `newItem`. */
  function UpdateNewItem(st: ListState, typed: string): (r: ListState)
    ensures r.newItem == typed && r.listItems == st.listItems
  {
    st.(newItem := typed)
  }

  /** `removeListItem(item)`: every item equal to it goes, the others keep their order. */
  function RemoveListItem(st: ListState, item: Item): (r: ListState)
    ensures forall i :: 0 <= i < |r.listItems| ==> !SameItem(r.listItems[i], item)
    ensures forall x :: x in r.listItems <==> x in st.listItems && !SameItem(x, item)
    ensures |r.listItems| <= |st.listItems|
    ensures r.listItems == RemoveItem(st.listItems, item)
    ensures r.newItem == st.newItem
  {
    st.(listItems := RemoveItem(st.listItems, item))
  }

  /** `addListItem()`: the value of the add input (a parameter) goes at the end, and the typed text
      is reset. */
  function AddListItem(st: ListState, inputValue: string): (r: ListState)
    ensures |r.listItems| == |st.listItems| + 1
    ensures r.listItems[..|st.listItems|] == st.listItems
    ensures r.listItems[|st.listItems|] == Text(inputValue)
    ensures r.newItem == ""
  {
    ListState(st.listItems + [Text(inputValue)], "")
  }

  /** The Add button is disabled while the field is disabled or nothing is typed. */
  predicate AddDisabled(st: ListState, disabled: bool) {
    disabled || |st.newItem| == 0
  }

  /** `clear()`: no items left; the typed text stays. */
  function Clear(st: ListState): (r: ListState)
    ensures r.listItems == [] && r.newItem == st.newItem
  {
    st.(listItems := [])
  }

  /** `getValue()`: the items, unchanged. */
  function GetValue(st: ListState): (r: seq<Item>)
    ensures r == st.listItems
  {
    st.listItems
  }

  /** The keys the items are rendered under. */
  function DisplayKeys(st: ListState): (keys: seq<Option<string>>)
    ensures |keys| == |st.listItems|
    ensures forall i :: 0 <= i < |keys| ==> keys[i] == DisplayKey(st.listItems[i])
  {
    seq(|st.listItems|, i requires 0 <= i < |st.listItems| => DisplayKey(st.listItems[i]))
  }

  // ----- Lemmas -----

  /** After an add the button is disabled again until something new is typed. */
  lemma AddDisablesAdd(st: ListState, inputValue: string, disabled: bool)
    ensures AddDisabled(AddListItem(st, inputValue), disabled)
  {
  }

  /** The Add button is enabled exactly when the field is enabled and something is typed. */
  lemma TypingEnablesAdd(st: ListState, typed: string)
    ensures !AddDisabled(UpdateNewItem(st, typed), false) <==> typed != ""
  {
  }

  /** Removing an item that was just added, and was not there before, restores the items. */
  lemma RemoveUndoesAdd(st: ListState, inputValue: string)
    requires Text(inputValue) !in st.listItems
    ensures RemoveListItem(AddListItem(st, inputValue), Text(inputValue)).listItems == st.listItems
  {
    forall i | 0 <= i < |st.listItems|
      ensures !SameItem(st.listItems[i], Text(inputValue))
    {
      assert st.listItems[i] != Text(inputValue);
    }
    RemoveUndoesAppend(st.listItems, Text(inputValue));
  }

  /** Removing twice is removing once. */
  lemma RemoveIsIdempotent(st: ListState, item: Item)
    ensures RemoveListItem(RemoveListItem(st, item), item) == RemoveListItem(st, item)
  {
    RemoveAbsentItem(RemoveListItem(st, item).listItems, item);
  }

  /** An object item is shown under its first key, a string item under itself. */
  lemma DisplayKeyExample()
    ensures DisplayKeys(ListState([Text("abc"), Obj(1, [("US-NY", "New York")])], "")) == [Some("abc"), Some("US-NY")]
  {
  }
}

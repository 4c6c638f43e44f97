/**
 * Setting values as the settings forms hold them: a value is missing, a string, or an array
 * whose items are strings or objects (an object item maps a key to a label, such as a place
 * code to its name).
 */
module FieldValues {
  import opened Options
  import opened Seqs

  /** An array item. Objects are told apart by `identity`, as `!==` does; `fields` are their
      key/value pairs, in the order `Object.keys` lists them. */
  datatype Item = Text(text: string) | Obj(identity: nat, fields: seq<(string, string)>)

  /** A setting value: `undefined`/`null`, a string, or an array. */
  datatype FieldValue = Absent | Str(s: string) | Arr(items: seq<Item>)

  /** JavaScript truthiness: the empty string is falsy, every array (even empty) is truthy. */
  predicate Truthy(v: FieldValue) {
    v.Arr? || (v.Str? && v.s != "")
  }

  /** `a === b` on items: strings by value, objects by identity. */
  predicate SameItem(a: Item, b: Item) {
    match (a, b)
    case (Text(x), Text(y)) => x == y
    case (Obj(i, _), Obj(j, _)) => i == j
    case _ => false
  }

  /** `typeof item === "string" ? item : Object.keys(item)[0]`: the key an item is shown and
      rendered under; `undefined` for an object with no keys. */
  function DisplayKey(item: Item): (k: Option<string>)
    ensures item.Text? ==> k == Some(item.text)
    ensures item.Obj? ==> (k.Some? <==> |item.fields| > 0)
    ensures item.Obj? && k.Some? ==> k.value == item.fields[0].0
  {
    match item
    case Text(t) => Some(t)
    case Obj(_, fields) => if |fields| == 0 then None else Some(fields[0].0)
  }

  function NotSame(item: Item): Item -> bool {
    (x: Item) => !SameItem(x, item)
  }

  /** `items.filter(x => x !== item)`: every item equal to `item` goes, the rest keep their order. */
  function RemoveItem(items: seq<Item>, item: Item): (r: seq<Item>)
    ensures forall i :: 0 <= i < |r| ==> !SameItem(r[i], item)
    ensures forall x :: x in items && !SameItem(x, item) <==> x in r
  {
    Filter(NotSame(item), items)
  }

  /** Removing keeps the order of the items it keeps: it distributes over concatenation. */
  lemma RemoveKeepsOrder(front: seq<Item>, back: seq<Item>, item: Item)
    ensures RemoveItem(front + back, item) == RemoveItem(front, item) + RemoveItem(back, item)
  {
    FilterAppend(NotSame(item), front, back);
  }

  /** Removing an item that is not in the list leaves the list as it was. */
  lemma RemoveAbsentItem(items: seq<Item>, item: Item)
    requires forall i :: 0 <= i < |items| ==> !SameItem(items[i], item)
    ensures RemoveItem(items, item) == items
  {
    FilterKeepsAll(NotSame(item), items);
  }

  /** Removing an item that was just appended, and was not in the list before, restores the list. */
  lemma RemoveUndoesAppend(items: seq<Item>, item: Item)
    requires forall i :: 0 <= i < |items| ==> !SameItem(items[i], item)
    ensures RemoveItem(items + [item], item) == items
  {
    FilterAppend(NotSame(item), items, [item]);
    FilterKeepsAll(NotSame(item), items);
    assert SameItem(item, item);
    assert Filter(NotSame(item), [item]) == [] by {
      assert [item][1..] == [];
    }
  }
}

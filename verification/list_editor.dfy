/**
 * The custom list editor: the saved list (its props), and the name, entries, collections and
 * search entry point being edited; whether the edit differs from the saved list; which
 * collections feed the list; and the search URL.
 */
module ListEditor {
  import opened Options
  import opened Seqs
  import opened KeySort
  import opened ListEntries
  import UriComponent

  /** A collection, by its id in string form (what the default sort compares) and its name. */
  datatype Collection = Collection(id: string, name: string)

  /** The saved list the editor starts from. `collections` may be missing from the server's data. */
  datatype CustomList = CustomList(id: int, name: string, entries: seq<Entry>, collections: Option<seq<Collection>>)

  /** The editor's state. `name` is missing when there is no saved list. */
  datatype EditorState = EditorState(
    name: Option<string>,
    entries: seq<Entry>,
    collections: seq<Collection>,
    entryPointSelected: Option<string>)

  function UrnKeys(entries: seq<Entry>): (r: seq<Key>)
    ensures |r| == |entries|
  {
    Map((e: Entry) => e.identifierUrn, entries)
  }

  function IdKeys(collections: seq<Collection>): (r: seq<Key>)
    ensures |r| == |collections|
  {
    Map((c: Collection) => Some(c.id), collections)
  }

  /** `a[i]` in JavaScript: `undefined` past the end. */
  function At(a: seq<Key>, i: nat): Key {
    if i < |a| then a[i] else None
  }

  /** The reference meaning of `hasChanges()`: a saved list exists, and the name differs, or the
      entries' URNs differ as a multiset, or the list has collections and their ids differ as a
      multiset. Without a saved list nothing counts as a change. */
  predicate Changed(list: Option<CustomList>, st: EditorState) {
    list.Some? &&
      (st.name != Some(list.value.name)
       || multiset(UrnKeys(list.value.entries)) != multiset(UrnKeys(st.entries))
       || (list.value.collections.Some?
           && multiset(IdKeys(list.value.collections.value)) != multiset(IdKeys(st.collections))))
  }

  /** Some position of `saved` holds another key than the same position of `edited`. */
  predicate DifferAt(saved: seq<Key>, edited: seq<Key>) {
    exists i :: 0 <= i < |saved| && saved[i] != At(edited, i)
  }

  /** The loop of `hasChanges` over the sorted saved keys: does any position differ? */
  method PositionsDiffer(saved: seq<Key>, edited: seq<Key>) returns (differ: bool)
    ensures differ <==> DifferAt(saved, edited)
  {
    differ := false;
    var i := 0;
    while i < |saved|
      invariant 0 <= i <= |saved|
      invariant forall k :: 0 <= k < i ==> saved[k] == At(edited, k)
    {
      if saved[i] != At(edited, i) {
        differ := true;
        break;
      }
      i := i + 1;
    }
  }

  /** Two sort results of equally long inputs differ at some position exactly when the inputs do
      not hold the same keys. */
  lemma SortedDifferIffKeysDiffer(a: seq<Key>, b: seq<Key>)
    requires |a| == |b|
    ensures DifferAt(Sort(a), Sort(b)) <==> multiset(a) != multiset(b)
  {
    SortEqualIffSameKeys(a, b);
    if Sort(a) != Sort(b) {
      var i :| 0 <= i < |a| && Sort(a)[i] != Sort(b)[i];
      assert Sort(a)[i] != At(Sort(b), i);
    }
  }

  /** One half of `hasChanges`: a length check against the saved list, then the sorted keys compared
      position by position. `saved` is the saved list's keys or `[]`, and `checkLength` whether the
      saved list (and, for collections, its collections) exists. */
  method KeysChanged(saved: seq<Key>, edited: seq<Key>, checkLength: bool) returns (changed: bool)
    requires !checkLength ==> saved == []
    ensures changed <==> checkLength && multiset(saved) != multiset(edited)
  {
    if checkLength && |saved| != |edited| {
      changed := true;
      assert |multiset(saved)| != |multiset(edited)|;
    } else {
      changed := PositionsDiffer(Sort(saved), Sort(edited));
      if checkLength {
        SortedDifferIffKeysDiffer(saved, edited);
      } else {
        assert Sort(saved) == [];
      }
    }
  }

  /** `hasChanges()`: whether the cancel link shows. */
  method HasChanges(list: Option<CustomList>, st: EditorState) returns (changed: bool)
    ensures changed <==> Changed(list, st)
  {
    var nameChanged := list.Some? && Some(list.value.name) != st.name;
    var entriesChanged := KeysChanged(if list.Some? then UrnKeys(list.value.entries) else [], UrnKeys(st.entries), list.Some?);
    var withCollections := list.Some? && list.value.collections.Some?;
    var collectionsChanged := KeysChanged(if withCollections then IdKeys(list.value.collections.value) else [], IdKeys(st.collections), withCollections);
    changed := nameChanged || entriesChanged || collectionsChanged;
  }

  /** `hasCollection(collection)`: some chosen collection has its id. */
  predicate HasCollection(collections: seq<Collection>, collection: Collection) {
    exists i | 0 <= i < |collections| :: collections[i].id == collection.id
  }

  function IdIsNot(id: string): Collection -> bool {
    (c: Collection) => c.id != id
  }

  /** Removing the collections with one id keeps every other id. */
  lemma HasCollectionAfterRemove(collections: seq<Collection>, id: string, c: Collection)
    ensures HasCollection(Filter(IdIsNot(id), collections), c) <==> c.id != id && HasCollection(collections, c)
  {
    var kept := Filter(IdIsNot(id), collections);
    if HasCollection(kept, c) {
      var i :| 0 <= i < |kept| && kept[i].id == c.id;
      assert kept[i] in collections;
      var j :| 0 <= j < |collections| && collections[j] == kept[i];
    }
    if c.id != id && HasCollection(collections, c) {
      var i :| 0 <= i < |collections| && collections[i].id == c.id;
      assert collections[i] in kept;
      var j :| 0 <= j < |kept| && kept[j] == collections[i];
    }
  }

  /** Appending a collection adds its id and keeps the others. */
  lemma HasCollectionAfterAppend(collections: seq<Collection>, added: Collection, c: Collection)
    ensures HasCollection(collections + [added], c) <==> c.id == added.id || HasCollection(collections, c)
  {
    var all := collections + [added];
    assert all[|collections|] == added;
    if HasCollection(collections, c) {
      var i :| 0 <= i < |collections| && collections[i].id == c.id;
      assert all[i] == collections[i];
    }
    if HasCollection(all, c) && c.id != added.id {
      var i :| 0 <= i < |all| && all[i].id == c.id;
      assert i < |collections|;
      assert all[i] == collections[i];
    }
  }

  /** `changeCollection(collection)`: unticking removes every collection with its id, ticking
      appends it. */
  function ChangeCollection(st: EditorState, collection: Collection): (r: EditorState)
    ensures HasCollection(st.collections, collection) ==> r.collections == Filter(IdIsNot(collection.id), st.collections)
    ensures !HasCollection(st.collections, collection) ==> r.collections == st.collections + [collection]
    ensures HasCollection(r.collections, collection) <==> !HasCollection(st.collections, collection)
    ensures forall c: Collection :: c.id != collection.id ==> (HasCollection(r.collections, c) <==> HasCollection(st.collections, c))
    ensures r.name == st.name && r.entries == st.entries && r.entryPointSelected == st.entryPointSelected
  {
    if HasCollection(st.collections, collection) then
      var collections := Filter(IdIsNot(collection.id), st.collections);
      assert forall c: Collection :: HasCollection(collections, c) <==> c.id != collection.id && HasCollection(st.collections, c) by {
        forall c: Collection
          ensures HasCollection(collections, c) <==> c.id != collection.id && HasCollection(st.collections, c)
        {
          HasCollectionAfterRemove(st.collections, collection.id, c);
        }
      }
      st.(collections := collections)
    else
      var collections := st.collections + [collection];
      assert forall c: Collection :: HasCollection(collections, c) <==> c.id == collection.id || HasCollection(st.collections, c) by {
        forall c: Collection
          ensures HasCollection(collections, c) <==> c.id == collection.id || HasCollection(st.collections, c)
        {
          HasCollectionAfterAppend(st.collections, collection, c);
        }
      }
      st.(collections := collections)
  }

  /** `changeName`, `changeEntries` and `changeEntryPoint` each replace one field. */
  function ChangeName(st: EditorState, name: string): (r: EditorState)
    ensures r.name == Some(name)
    ensures r.entries == st.entries && r.collections == st.collections && r.entryPointSelected == st.entryPointSelected
  {
    st.(name := Some(name))
  }

  function ChangeEntries(st: EditorState, entries: seq<Entry>): (r: EditorState)
    ensures r.entries == entries
    ensures r.name == st.name && r.collections == st.collections && r.entryPointSelected == st.entryPointSelected
  {
    st.(entries := entries)
  }

  function ChangeEntryPoint(st: EditorState, entryPoint: string): (r: EditorState)
    ensures r.entryPointSelected == Some(entryPoint)
    ensures r.name == st.name && r.entries == st.entries && r.collections == st.collections
  {
    st.(entryPointSelected := Some(entryPoint))
  }

  /** The state built from a saved list (or none): its name, entries and collections, entry point `"all"`. */
  function Init(list: Option<CustomList>): (st: EditorState)
    ensures list.None? ==> st.name.None? && st.entries == [] && st.collections == []
    ensures list.Some? ==> st.name == Some(list.value.name) && st.entries == list.value.entries
    ensures list.Some? ==> st.collections == list.value.collections.GetOr([])
    ensures st.entryPointSelected == Some("all")
  {
    match list
    case None => EditorState(None, [], [], Some("all"))
    case Some(l) => EditorState(Some(l.name), l.entries, l.collections.GetOr([]), Some("all"))
  }

  /** `reset()` (the editor's own state): the saved collections and entry point `"all"` come back;
      the name and the entries are reset by their own components and stay here. */
  function Reset(st: EditorState, list: Option<CustomList>): (r: EditorState)
    ensures r.name == st.name && r.entries == st.entries
    ensures r.collections == Init(list).collections
    ensures r.entryPointSelected == Some("all")
  {
    EditorState(st.name, st.entries, if list.Some? then list.value.collections.GetOr([]) else [], Some("all"))
  }

  /** `componentWillReceiveProps`: moving to another list (or to none) reloads name, entries and
      collections; collections arriving for a list that had none are taken over; otherwise nothing
      changes. The entry point is never touched. */
  function ReceiveProps(st: EditorState, current: Option<CustomList>, next: Option<CustomList>): (r: EditorState)
    ensures r.entryPointSelected == st.entryPointSelected
    ensures current.Some? && (next.None? || next.value.id != current.value.id) ==>
      r == Init(next).(entryPointSelected := st.entryPointSelected)
    ensures current.Some? && next.Some? && next.value.id == current.value.id && current.value.collections.Some? ==> r == st
    ensures !(current.Some? && (next.None? || next.value.id != current.value.id))
      && (current.None? || current.value.collections.None?) && next.Some? && next.value.collections.Some?
      ==> r == st.(collections := next.value.collections.value)
    ensures !(current.Some? && (next.None? || next.value.id != current.value.id))
      && !((current.None? || current.value.collections.None?) && next.Some? && next.value.collections.Some?)
      ==> r == st
  {
    if current.Some? && (next.None? || next.value.id != current.value.id) then
      EditorState(
        if next.Some? then Some(next.value.name) else None,
        if next.Some? then next.value.entries else [],
        if next.Some? then next.value.collections.GetOr([]) else [],
        st.entryPointSelected)
    else if (current.None? || current.value.collections.None?) && next.Some? && next.value.collections.Some? then
      st.(collections := next.value.collections.value)
    else st
  }

  /** Receiving the same list a second time changes nothing. */
  lemma ReceivePropsIdempotent(st: EditorState, current: Option<CustomList>, next: Option<CustomList>)
    ensures ReceiveProps(ReceiveProps(st, current, next), next, next) == ReceiveProps(st, current, next)
  {
  }

  /** `getEntryPointQuery()`: the `&entrypoint=` parameter for a chosen entry point other than `"all"`. */
  function EntryPointQuery(selected: Option<string>): (q: string)
    ensures q == "" <==> selected.None? || selected.value == "" || selected.value == "all"
    ensures q != "" ==> q == "&entrypoint=" + UriComponent.Encode(selected.value)
  {
    if selected.Some? && selected.value != "" && selected.value != "all" then
      "&entrypoint=" + UriComponent.Encode(selected.value)
    else ""
  }

  /** The URL `search` requests for the terms typed: the library's search path, the encoded terms,
      then the entry-point parameter. */
  function SearchUrl(library: string, terms: string, selected: Option<string>): (url: string)
    ensures |url| >= |"/" + library + "/search?q="|
    ensures url[..|"/" + library + "/search?q="|] == "/" + library + "/search?q="
  {
    "/" + library + "/search?q=" + UriComponent.Encode(terms) + EntryPointQuery(selected)
  }

  // ----- Lemmas -----

  /** A freshly loaded list has no changes. */
  lemma InitHasNoChanges(list: Option<CustomList>)
    ensures !Changed(list, Init(list))
  {
  }

  /** Renaming a freshly loaded list is a change exactly when the new name differs from the saved one,
      so renaming it back undoes the change. */
  lemma RenameIsChange(list: Option<CustomList>, name: string)
    requires list.Some?
    ensures Changed(list, ChangeName(Init(list), name)) <==> name != list.value.name
  {
  }

  /** Ticking one more collection of a freshly loaded list that has collections is a change. */
  lemma TickCollectionIsChange(list: Option<CustomList>, collection: Collection)
    requires list.Some? && list.value.collections.Some?
    requires !HasCollection(list.value.collections.value, collection)
    ensures Changed(list, ChangeCollection(Init(list), collection))
  {
    var saved := list.value.collections.value;
    var r := ChangeCollection(Init(list), collection);
    assert |r.collections| == |saved| + 1 by {
      assert r.collections == saved + [collection];
    }
    assert |multiset(IdKeys(r.collections))| != |multiset(IdKeys(saved))|;
  }

  /** Reordering the entries or the collections is not a change: only which entries and which
      collections are chosen counts. */
  lemma ReorderIsNoChange(list: Option<CustomList>, st: EditorState, entries: seq<Entry>, collections: seq<Collection>)
    requires multiset(entries) == multiset(st.entries)
    requires multiset(collections) == multiset(st.collections)
    ensures Changed(list, st.(entries := entries, collections := collections)) == Changed(list, st)
  {
    MultisetMap((e: Entry) => e.identifierUrn, entries, st.entries);
    MultisetMap((c: Collection) => Some(c.id), collections, st.collections);
  }

  /** Ticking a collection that was not chosen and unticking it again restores the chosen ones. */
  lemma ChangeCollectionRoundTrip(st: EditorState, collection: Collection)
    requires !HasCollection(st.collections, collection)
    ensures ChangeCollection(ChangeCollection(st, collection), collection) == st
  {
    var once := ChangeCollection(st, collection);
    assert once.collections == st.collections + [collection];
    FilterAppend(IdIsNot(collection.id), st.collections, [collection]);
    FilterKeepsAll(IdIsNot(collection.id), st.collections);
    assert Filter(IdIsNot(collection.id), [collection]) == [] by {
      assert [collection][1..] == [];
    }
  }

  /** After `reset()` a search asks for every entry point. */
  lemma ResetSearchesAll(st: EditorState, list: Option<CustomList>, library: string, terms: string)
    ensures EntryPointQuery(Reset(st, list).entryPointSelected) == ""
    ensures SearchUrl(library, terms, Reset(st, list).entryPointSelected) == "/" + library + "/search?q=" + UriComponent.Encode(terms)
  {
  }

  /** The search URL carries an `&` exactly when an entry point other than `"all"` is chosen: the
      encoded terms never contain one. */
  lemma SearchUrlHasEntryPointIffChosen(library: string, terms: string, selected: Option<string>)
    requires forall i :: 0 <= i < |library| ==> library[i] != '&'
    ensures (exists i :: 0 <= i < |SearchUrl(library, terms, selected)| && SearchUrl(library, terms, selected)[i] == '&')
        <==> selected.Some? && selected.value != "" && selected.value != "all"
  {
    var prefix := "/" + library + "/search?q=";
    var enc := UriComponent.Encode(terms);
    var url := SearchUrl(library, terms, selected);
    var q := EntryPointQuery(selected);
    assert url == prefix + enc + q;
    if q != "" {
      assert url[|prefix| + |enc|] == '&';
    } else {
      forall i | 0 <= i < |url|
        ensures url[i] != '&'
      {
        if i < |prefix| {
          if 1 <= i < 1 + |library| {
            assert url[i] == library[i - 1];
          }
        } else {
          assert url[i] == enc[i - |prefix|];
        }
      }
    }
  }

  /** The search scenario: library `"library"`, terms `"test"`, entry point `"all"`. */
  lemma SearchScenario()
    ensures SearchUrl("library", "test", Some("all")) == "/library/search?q=test"
  {
    UriComponent.EncodeUnreservedIsIdentity("test");
    assert EntryPointQuery(Some("all")) == "";
  }
}

/**
 * The drag-and-drop entries editor of a custom list: the books found by a search, the list's
 * entries, and the panel a drag started from. Books move between the two panels by the
 * add/delete links, the add-all/delete-all buttons, or a drag from one panel to the other.
 */
module ListEntries {
  import opened Options
  import opened Seqs

  /** A list entry. Entries the server sends carry an `identifier_urn`; entries the editor creates do not. */
  datatype Entry = Entry(pwid: string, title: string, authors: seq<string>, identifierUrn: Option<string>)

  /** A search-result book; `pwid` is the identifier read from the book's raw OPDS data. */
  datatype Book = Book(pwid: string, title: string, authors: seq<string>)

  /** A page of search results. */
  datatype SearchResults = SearchResults(books: seq<Book>, nextPageUrl: Option<string>)

  /** The two droppable panels, `"search-results"` and `"custom-list-entries"`. */
  datatype Panel = SearchResultsPanel | EntriesPanel

  /** The component state. */
  datatype EntriesState = EntriesState(draggingFrom: Option<Panel>, entries: seq<Entry>)

  /** The `entries` prop: a JavaScript array, told apart from other arrays by `identity`. */
  datatype EntriesProp = EntriesProp(identity: nat, items: seq<Entry>)

  /** What the load-more button does. */
  datatype Fetch = NoFetch | FetchPage(url: Option<string>)

  function Pwids(entries: seq<Entry>): seq<string> {
    Map((e: Entry) => e.pwid, entries)
  }

  predicate Listed(book: Book, entries: seq<Entry>) {
    exists e | e in entries :: e.pwid == book.pwid
  }

  function NotListed(entries: seq<Entry>): Book -> bool {
    (b: Book) => b.pwid !in Pwids(entries)
  }

  function HasPwid(pwid: string): Book -> bool {
    (b: Book) => b.pwid == pwid
  }

  function EntryPwidIsNot(pwid: string): Entry -> bool {
    (e: Entry) => e.pwid != pwid
  }

  /** The entry the editor makes for a book: `{pwid, title, authors}`, with no `identifier_urn`. */
  function NewEntry(book: Book, pwid: string): Entry {
    Entry(pwid, book.title, book.authors, None)
  }

  /** The entry `add(pwid)` makes from each matching result. */
  function EntryWithPwid(pwid: string): Book -> Entry {
    (b: Book) => NewEntry(b, pwid)
  }

  function EntryFor(book: Book): Entry {
    NewEntry(book, book.pwid)
  }

  /** `searchResultsNotInEntries()`: the books, in search order, whose pwid no entry has. */
  function NotInEntries(books: seq<Book>, entries: seq<Entry>): (r: seq<Book>)
    ensures forall b :: b in r <==> b in books && !Listed(b, entries)
  {
    var r := Filter(NotListed(entries), books);
    assert forall b: Book :: b.pwid in Pwids(entries) <==> Listed(b, entries) by {
      forall b: Book
        ensures b.pwid in Pwids(entries) <==> Listed(b, entries)
      {
        if b.pwid in Pwids(entries) {
          var i :| 0 <= i < |entries| && Pwids(entries)[i] == b.pwid;
          assert entries[i] in entries;
        }
        if Listed(b, entries) {
          var e :| e in entries && e.pwid == b.pwid;
          var i :| 0 <= i < |entries| && entries[i] == e;
          assert Pwids(entries)[i] == b.pwid;
        }
      }
    }
    r
  }

  /** The initial state: not dragging, and the entries of the prop or none. */
  function Init(entries: Option<EntriesProp>): (st: EntriesState)
    ensures st.draggingFrom == None
    ensures entries.Some? ==> st.entries == entries.value.items
    ensures entries.None? ==> st.entries == []
  {
    EntriesState(None, if entries.Some? then entries.value.items else [])
  }

  /** `add(pwid)`: the source copies the entries, walks the search results and unshifts a new
      entry for every result with that pwid, so the new entries end up ahead of the old ones in
      reverse search order (see `UnshiftedIsReversedMatches`). */
  function Add(st: EntriesState, books: seq<Book>, pwid: string): (r: EntriesState)
    ensures r.draggingFrom == None
    ensures |r.entries| >= |st.entries|
    ensures r.entries[|r.entries| - |st.entries|..] == st.entries
  {
    EntriesState(None, Unshifted(books, pwid) + st.entries)
  }

  /** The entries the walk of `add` over `books` unshifts, the one made last coming first. */
  function Unshifted(books: seq<Book>, pwid: string): (r: seq<Entry>)
    ensures |r| <= |books|
    ensures forall i :: 0 <= i < |r| ==> r[i].pwid == pwid && r[i].identifierUrn.None?
    decreases |books|
  {
    if |books| == 0 then []
    else
      var last := books[|books| - 1];
      (if last.pwid == pwid then [NewEntry(last, pwid)] else []) + Unshifted(books[..|books| - 1], pwid)
  }

  /** The loop of `add`, unshifting one entry per matching result, computes `Add`. */
  method AddByUnshift(st: EntriesState, books: seq<Book>, pwid: string) returns (r: EntriesState)
    ensures r == Add(st, books, pwid)
  {
    var entries := st.entries;
    var i := 0;
    while i < |books|
      invariant 0 <= i <= |books|
      invariant entries == Unshifted(books[..i], pwid) + st.entries
    {
      assert books[..i + 1][..i] == books[..i];
      if books[i].pwid == pwid {
        entries := [NewEntry(books[i], pwid)] + entries;
      }
      i := i + 1;
    }
    assert books[..i] == books;
    r := EntriesState(None, entries);
  }

  /** `delete(pwid)`: every entry with that pwid goes; the others keep their order. */
  function Delete(st: EntriesState, pwid: string): (r: EntriesState)
    ensures r.draggingFrom == None
    ensures pwid !in Pwids(r.entries)
    ensures forall e :: e in r.entries <==> e in st.entries && e.pwid != pwid
  {
    EntriesState(None, Filter(EntryPwidIsNot(pwid), st.entries))
  }

  /** `addAll()`: an entry for every book not yet listed, in search order, ahead of the old entries. */
  function AddAll(st: EntriesState, books: seq<Book>): (r: EntriesState)
    ensures r.draggingFrom == None
    ensures |r.entries| >= |st.entries|
    ensures r.entries[|r.entries| - |st.entries|..] == st.entries
    ensures NotInEntries(books, r.entries) == []
    ensures |r.entries| == |NotInEntries(books, st.entries)| + |st.entries|
    ensures forall i :: 0 <= i < |NotInEntries(books, st.entries)| ==>
      r.entries[i] == NewEntry(NotInEntries(books, st.entries)[i], NotInEntries(books, st.entries)[i].pwid)
  {
    var added := Map(EntryFor, NotInEntries(books, st.entries));
    var entries := added + st.entries;
    assert forall i :: 0 <= i < |books| ==> !NotListed(entries)(books[i]) by {
      forall i | 0 <= i < |books|
        ensures books[i].pwid in Pwids(entries)
      {
        var b := books[i];
        if Listed(b, st.entries) {
          var e :| e in st.entries && e.pwid == b.pwid;
          var k :| 0 <= k < |st.entries| && st.entries[k] == e;
          assert Pwids(entries)[|added| + k] == b.pwid;
        } else {
          var nie := NotInEntries(books, st.entries);
          assert b in nie;
          var k :| 0 <= k < |nie| && nie[k] == b;
          assert Pwids(entries)[k] == b.pwid;
        }
      }
    }
    FilterDropsAll(NotListed(entries), books);
    EntriesState(None, entries)
  }

  /** `deleteAll()`. */
  function DeleteAll(st: EntriesState): (r: EntriesState)
    ensures r.draggingFrom == None && r.entries == []
  {
    EntriesState(None, [])
  }

  /** `onDragStart`: remembers the panel the drag started from; the entries stay. */
  function OnDragStart(st: EntriesState, source: Panel): (r: EntriesState)
    ensures r.draggingFrom == Some(source) && r.entries == st.entries
  {
    EntriesState(Some(source), st.entries)
  }

  /** `onDragEnd`: a drop from the search results onto the list adds the dragged book, a drop from
      the list onto the search results deletes it, anything else (including a drop outside both
      panels, `destination == None`) only ends the drag. */
  function OnDragEnd(st: EntriesState, books: seq<Book>, draggableId: string, source: Panel, destination: Option<Panel>): (r: EntriesState)
    ensures r.draggingFrom == None
    ensures destination != Some(EntriesPanel) && destination != Some(SearchResultsPanel) ==> r.entries == st.entries
    ensures source == destination.GetOr(source) ==> r.entries == st.entries
  {
    if source == SearchResultsPanel && destination == Some(EntriesPanel) then Add(st, books, draggableId)
    else if source == EntriesPanel && destination == Some(SearchResultsPanel) then Delete(st, draggableId)
    else EntriesState(None, st.entries)
  }

  /** The panel on the other side. */
  function Other(panel: Panel): Panel {
    match panel
    case SearchResultsPanel => EntriesPanel
    case EntriesPanel => SearchResultsPanel
  }

  /** `!isDropDisabled` of a panel. */
  predicate DropEnabled(st: EntriesState, panel: Panel) {
    match panel
    case SearchResultsPanel => st.draggingFrom == Some(EntriesPanel)
    case EntriesPanel => st.draggingFrom == Some(SearchResultsPanel)
  }

  /** `componentWillReceiveProps`: a new entries array (non-null, and not the array the editor
      already has) replaces the entries and ends any drag; otherwise nothing changes. */
  function ReceiveProps(st: EntriesState, current: Option<EntriesProp>, next: Option<EntriesProp>): (r: EntriesState)
    ensures next.None? ==> r == st
    ensures next.Some? && current.Some? && next.value.identity == current.value.identity ==> r == st
    ensures next.Some? && current.None? ==> r == Init(next)
    ensures next.Some? && current.Some? && next.value.identity != current.value.identity ==> r == Init(next)
  {
    if next.Some? && (current.None? || next.value.identity != current.value.identity) then
      EntriesState(None, next.value.items)
    else st
  }

  /** Receiving the same props a second time changes nothing. */
  lemma ReceivePropsIdempotent(st: EntriesState, current: Option<EntriesProp>, next: Option<EntriesProp>)
    ensures ReceiveProps(ReceiveProps(st, current, next), next, next) == ReceiveProps(st, current, next)
  {
  }

  /** Once a new entries array has arrived, resetting to it changes nothing. */
  lemma ReceivedEntriesAreReset(st: EntriesState, current: Option<EntriesProp>, next: Option<EntriesProp>)
    requires next.Some? && (current.None? || next.value.identity != current.value.identity)
    ensures Reset(ReceiveProps(st, current, next), next) == ReceiveProps(st, current, next)
  {
  }

  /** `reset()`: back to the entries of the prop, or none, with no drag in progress. */
  function Reset(st: EntriesState, entries: Option<EntriesProp>): (r: EntriesState)
    ensures r == Init(entries)
  {
    EntriesState(None, if entries.Some? then entries.value.items else [])
  }

  /** `loadMore()`: asks for the next page only when there are results and no fetch is pending. */
  function LoadMore(results: Option<SearchResults>, isFetchingMore: bool): (r: Fetch)
    ensures r.FetchPage? <==> results.Some? && !isFetchingMore
    ensures r.FetchPage? ==> r.url == results.value.nextPageUrl
  {
    if results.Some? && !isFetchingMore then FetchPage(results.value.nextPageUrl) else NoFetch
  }

  // ----- Lemmas -----

  /** The two panels never show the same book: no book still offered by the search panel shares
      its pwid with an entry of the list. */
  lemma NotInEntriesDisjoint(books: seq<Book>, entries: seq<Entry>)
    ensures forall b, e :: b in NotInEntries(books, entries) && e in entries ==> b.pwid != e.pwid
  {
  }

  /** Filtering out the listed books keeps the search order: it distributes over concatenation
      of search pages. */
  lemma NotInEntriesKeepsOrder(page1: seq<Book>, page2: seq<Book>, entries: seq<Entry>)
    ensures NotInEntries(page1 + page2, entries) == NotInEntries(page1, entries) + NotInEntries(page2, entries)
  {
    FilterAppend(NotListed(entries), page1, page2);
  }

  /** Deleting keeps the order of the entries it keeps: it distributes over concatenation. */
  lemma DeleteKeepsOrder(front: seq<Entry>, back: seq<Entry>, pwid: string, dragging: Option<Panel>)
    ensures Delete(EntriesState(dragging, front + back), pwid).entries
         == Delete(EntriesState(dragging, front), pwid).entries + Delete(EntriesState(dragging, back), pwid).entries
  {
    FilterAppend(EntryPwidIsNot(pwid), front, back);
  }

  /** Deleting a pwid undoes adding it when the list did not have it. */
  lemma {:induction false} DeleteUndoesAdd(st: EntriesState, books: seq<Book>, pwid: string)
    requires pwid !in Pwids(st.entries)
    ensures Delete(Add(st, books, pwid), pwid).entries == st.entries
  {
    var added := Add(st, books, pwid).entries;
    var k := |added| - |st.entries|;
    assert added == added[..k] + st.entries;
    FilterDropsAll(EntryPwidIsNot(pwid), added[..k]);
    assert forall i :: 0 <= i < |st.entries| ==> st.entries[i].pwid == Pwids(st.entries)[i];
    FilterKeepsAll(EntryPwidIsNot(pwid), st.entries);
    FilterAppend(EntryPwidIsNot(pwid), added[..k], st.entries);
  }

  /** The walk of `add` yields, in reverse search order, one new entry per search result with
      that pwid: the same entries as filtering, mapping and reversing the results. */
  lemma {:induction false} UnshiftedIsReversedMatches(books: seq<Book>, pwid: string)
    ensures Unshifted(books, pwid) == Reverse(Map(EntryWithPwid(pwid), Filter(HasPwid(pwid), books)))
    decreases |books|
  {
    if |books| != 0 {
      var front := books[..|books| - 1];
      var last := books[|books| - 1];
      var mk := EntryWithPwid(pwid);
      UnshiftedIsReversedMatches(front, pwid);
      assert books == front + [last];
      FilterAppend(HasPwid(pwid), front, [last]);
      var step := Filter(HasPwid(pwid), [last]);
      assert [last][1..] == [];
      MapAppend(mk, Filter(HasPwid(pwid), front), step);
      ReverseAppend(Map(mk, Filter(HasPwid(pwid), front)), Map(mk, step));
      if last.pwid == pwid {
        assert step == [last];
        assert Reverse(Map(mk, step)) == [NewEntry(last, pwid)];
      } else {
        assert step == [];
      }
    }
  }

  /** Adding a pwid no search result has changes nothing but ending the drag. */
  lemma AddWithoutMatch(st: EntriesState, books: seq<Book>, pwid: string)
    requires forall b | b in books :: b.pwid != pwid
    ensures Add(st, books, pwid) == EntriesState(None, st.entries)
  {
    UnshiftedIsReversedMatches(books, pwid);
    assert Filter(HasPwid(pwid), books) == [] by {
      FilterDropsAll(HasPwid(pwid), books);
    }
  }

  /** Adding a pwid that some search result has puts that pwid in the list. */
  lemma AddListsPwid(st: EntriesState, books: seq<Book>, pwid: string)
    requires exists b | b in books :: b.pwid == pwid
    ensures pwid in Pwids(Add(st, books, pwid).entries)
  {
    var b :| b in books && b.pwid == pwid;
    var matching := Filter(HasPwid(pwid), books);
    assert b in matching;
    UnshiftedIsReversedMatches(books, pwid);
    var r := Add(st, books, pwid).entries;
    assert |r| > |st.entries|;
    assert Pwids(r)[0] == pwid;
  }

  /** A drag ends with no panel accepting drops, whatever it did to the entries. */
  lemma DragEndDisablesDrops(st: EntriesState, books: seq<Book>, draggableId: string, source: Panel, destination: Option<Panel>, panel: Panel)
    ensures !DropEnabled(OnDragEnd(st, books, draggableId, source, destination), panel)
  {
  }

  /** While a drag is in progress exactly the panel it did not start from accepts drops. */
  lemma DragStartEnablesOtherPanel(st: EntriesState, source: Panel, panel: Panel)
    ensures DropEnabled(OnDragStart(st, source), panel) <==> panel == Other(source)
  {
  }

  /** The drop branches of `onDragEnd` are the explicit add and delete links. */
  lemma DragEndIsAddOrDelete(st: EntriesState, books: seq<Book>, draggableId: string)
    ensures OnDragEnd(st, books, draggableId, SearchResultsPanel, Some(EntriesPanel)) == Add(st, books, draggableId)
    ensures OnDragEnd(st, books, draggableId, EntriesPanel, Some(SearchResultsPanel)) == Delete(st, draggableId)
  {
  }

  /** The list scenario: entries `["1"]`, a search that found `"2"`; the search panel offers `"2"`,
      adding it puts it first, and deleting `"1"` leaves only `"2"`. A drag of `"2"` from the
      search results onto the list ends in the same state as the add link. */
  lemma AddDeleteScenario()
    ensures var one := Entry("1", "title 1", ["author 1"], None);
      var two := Book("2", "title 2", ["author 2"]);
      var st := EntriesState(None, [one]);
      && NotInEntries([two], [one]) == [two]
      && Add(st, [two], "2").entries == [EntryFor(two), one]
      && Delete(Add(st, [two], "2"), "1").entries == [EntryFor(two)]
      && OnDragEnd(OnDragStart(st, SearchResultsPanel), [two], "2", SearchResultsPanel, Some(EntriesPanel)) == Add(st, [two], "2")
  {
    var one := Entry("1", "title 1", ["author 1"], None);
    var two := Book("2", "title 2", ["author 2"]);
    assert Pwids([one]) == ["1"];
    assert Filter(HasPwid("2"), [two]) == [two];
    assert Unshifted([two], "2") == [EntryFor(two)] by {
      assert [two][..0] == [];
    }
    assert NotListed([one])(two);
    assert Filter(NotListed([one]), [two]) == [two];
    assert EntryPwidIsNot("1")(EntryFor(two)) && !EntryPwidIsNot("1")(one);
    assert Filter(EntryPwidIsNot("1"), [EntryFor(two), one]) == [EntryFor(two)] by {
      assert [EntryFor(two), one][1..] == [one];
      assert Filter(EntryPwidIsNot("1"), [one]) == [] by {
        assert [one][1..] == [];
      }
    }
  }
}

# circulation-admin core, modelled in Dafny

This project models the client-side logic of the circulation-admin console. The console is the web
interface librarians and system administrators use to configure a Library Simplified circulation
manager. The model covers the parts of it that compute something, as pure functions over immutable
state:

- **Admin roles** (`AdminRoles`). The individual-admin form ticks checkboxes from an admin's role
  records (`isSelected`). Each tick or untick rewrites the whole set of role records
  (`handleRoleChange`): promotion to a blanket role, demotion from one, and the per-library roles
  in between.
- **Custom list entries** (`ListEntries`). The two-panel drag-and-drop editor of a custom list's
  entries, with the search results on one side and the list on the other. It models add, delete,
  add all, delete all, drag start/end, which panel accepts drops, new props, reset and loading
  more results.
- **Custom list editor** (`ListEditor`). The dirty check `hasChanges` compares sorted identifier
  and collection-id arrays position by position. Also modelled: the collection checkboxes, the
  name, entries and entry-point setters, reset, new props, and the search URL with its entry-point
  query. `KeySort` models JavaScript's default `sort` on those keys, with `undefined` last.
  `UriComponent` models `encodeURIComponent`.
- **Individual-admins reducer** (`IndividualAdminsReducer`). The Redux reducer for fetching and
  editing admins, and any sequence of actions folded through it.
- **Protocol form fields and input lists** (`FieldValues`, `ProtocolFormField`, `InputList`).
  These cover which control a server-described setting renders, the props its input gets, which
  boxes of a multi-choice setting are ticked, and the add/remove/clear operations on the list of
  values of a free-form list setting.
- **Library registration** (`LibraryRegistration`). This covers finding a library's registration
  record for a discovery service, whether the service's protocol supports registration, the
  stage chosen per library, and the status block and button each library shows.
- **Editor adapter** (`EditorAdapter`). The mapping from an OPDS entry to the book editor's title
  and its hide, restore and edit links.

JavaScript's value semantics are written out where they matter:

- An empty string is falsy.
- Every array, even an empty one, is truthy, so "missing" and "empty" are different values
  (`Option<seq<…>>`).
- `null` and `undefined` are different where the source compares with `===` (`Nullable`).
- Object identity (`!==` on arrays and objects) is an explicit `identity` field.

Loops in the source appear as methods whose loop invariants prove they compute a reference
function. Examples are the unshift loop of `add`, the early-exit comparison loop of `hasChanges`
and the nested search of `getLibraryInfo`.

## Model

| member | source | states |
|---|---|---|
| AdminRoles.IsSelected | src/components/IndividualAdminEditForm.tsx:145-164 | On well-formed role records, a box is ticked exactly when the admin is granted that role. This includes grants implied by system admin, manager-all or librarian-all. A system admin has every box ticked. |
| AdminRoles.InitialRoles | src/components/IndividualAdminEditForm.tsx:31-35 | The form starts from the admin's role records, or from none when there is no admin or no roles. |
| AdminRoles.ReceiveProps | src/components/IndividualAdminEditForm.tsx:139-143 | An admin object other than the current one replaces the roles with its own, or with none when it has no roles. The same admin object, or no admin, leaves the roles as they are. |
| AdminRoles.ReceivePropsIdempotent | src/components/IndividualAdminEditForm.tsx:139-143 | Receiving the same admin a second time changes nothing. |
| AdminRoles.ToggleManager | src/components/IndividualAdminEditForm.tsx:190-219 | Ticking manager of a library ends with that manager record, after records of other libraries only. Unticking it under manager-all ends with librarian-all, after manager records of other listed libraries only. Unticking it otherwise leaves at most a librarian record for the library. |
| AdminRoles.ToggleSystem | src/components/IndividualAdminEditForm.tsx:167-172 | Toggling system admin leaves no roles when the admin was a system admin. Otherwise it leaves exactly the system-admin record. |
| AdminRoles.ToggleManagerAll | src/components/IndividualAdminEditForm.tsx:173-178 | Toggling manager-all leaves exactly librarian-all when manager-all was granted. Otherwise it leaves exactly manager-all. |
| AdminRoles.ToggleLibrarianAll | src/components/IndividualAdminEditForm.tsx:179-189 | Toggling librarian-all keeps every per-library manager record. It leaves nothing but manager records and possibly librarian-all. |
| AdminRoles.ToggleLibrarian | src/components/IndividualAdminEditForm.tsx:247-251 | Ticking librarian of a library that is not selected adds that librarian record and keeps the rest. |
| AdminRoles.HandleRoleChange | src/components/IndividualAdminEditForm.tsx:166-253 | The system branch empties the roles exactly when system admin was selected. The manager-all branch always leaves one record. |
| AdminRoles.ToggleKeepsWellFormed | src/components/IndividualAdminEditForm.tsx:166-253 | Every change keeps the role records well formed. Blanket roles carry no library and per-library roles carry one. |
| AdminRoles.ToggleFlipsCheckbox | src/components/IndividualAdminEditForm.tsx:145-253 | After a change, the changed box shows the opposite of what it showed before. |
| AdminRoles.ToggleSystemTwice | src/components/IndividualAdminEditForm.tsx:167-172 | Toggling system admin twice restores system admin exactly when it was selected. |
| AdminRoles.ToggleLibrarianAllKeepsManagers | src/components/IndividualAdminEditForm.tsx:179-189 | Toggling librarian-all flips the librarian-all grant and keeps the manager records. |
| AdminRoles.PromoteManager | src/components/IndividualAdminEditForm.tsx:213-219 | Ticking manager of a library grants manager and librarian of it. The other libraries' grants stay. |
| AdminRoles.DemoteManagerUnderManagerAll | src/components/IndividualAdminEditForm.tsx:191-203 | Unticking manager of one library under manager-all turns the admin into a manager of every other library and librarian-all. |
| AdminRoles.DemoteManagerAlone | src/components/IndividualAdminEditForm.tsx:204-212 | Unticking a per-library manager drops that manager record and keeps the admin a librarian of that library. |
| AdminRoles.DemoteLibrarianUnderManagerAll | src/components/IndividualAdminEditForm.tsx:221-233 | Unticking librarian of one library under manager-all makes the admin a manager of exactly the other listed libraries, with no access to that one and no librarian-all. |
| AdminRoles.DemoteLibrarianUnderLibrarianAll | src/components/IndividualAdminEditForm.tsx:234-242 | Unticking librarian of one library under librarian-all alone leaves librarian of every other listed library. The manager records of other libraries are kept, and the library itself loses all access. |
| AdminRoles.DemoteLibrarianAlone | src/components/IndividualAdminEditForm.tsx:243-246 | Unticking a per-library librarian removes every role on that library. |
| AdminRoles.ManagerAllOnOffLeavesLibrarians | src/components/IndividualAdminEditForm.tsx:173-178 | Ticking and then unticking manager-all does not restore the old roles: it leaves librarian-all. |
| AdminRoles.ManagerAllDemotionExample | src/components/IndividualAdminEditForm.tsx:195-203 | Manager-all over two libraries, unticking one, gives manager of the other plus librarian-all. |
| ListEntries.NotInEntries | src/components/CustomListEntriesEditor.tsx:205-216 | The search panel offers exactly the search results whose pwid no entry has. |
| ListEntries.NotInEntriesDisjoint | src/components/CustomListEntriesEditor.tsx:205-216 | No book offered by the search panel shares a pwid with a listed entry. |
| ListEntries.NotInEntriesKeepsOrder | src/components/CustomListEntriesEditor.tsx:205-216 | Filtering distributes over pages of results and keeps the search order. |
| ListEntries.Init | src/components/CustomListEntriesEditor.tsx:195-203 | The editor starts with no drag and the prop's entries, or none. |
| ListEntries.Add | src/components/CustomListEntriesEditor.tsx:245-256 | Adding ends any drag and keeps the old entries, in order, as a suffix of the new ones. |
| ListEntries.Unshifted | src/components/CustomListEntriesEditor.tsx:247-251 | The walk over the results yields at most one new entry per result. Each new entry has the added pwid and no identifier. |
| ListEntries.AddByUnshift | src/components/CustomListEntriesEditor.tsx:245-256 | The copy-and-unshift loop of `add` computes `Add`. |
| ListEntries.UnshiftedIsReversedMatches | src/components/CustomListEntriesEditor.tsx:247-251 | The added entries are the matching results in reverse search order, because each one is unshifted. |
| ListEntries.AddWithoutMatch | src/components/CustomListEntriesEditor.tsx:245-256 | Adding a pwid that no result has only ends the drag. |
| ListEntries.AddListsPwid | src/components/CustomListEntriesEditor.tsx:245-256 | Adding a pwid that some result has puts that pwid in the list. |
| ListEntries.Delete | src/components/CustomListEntriesEditor.tsx:258-265 | Deleting removes exactly the entries with that pwid and ends the drag. |
| ListEntries.DeleteKeepsOrder | src/components/CustomListEntriesEditor.tsx:258-265 | Deleting keeps the remaining entries in their order: it distributes over concatenation. |
| ListEntries.DeleteUndoesAdd | src/components/CustomListEntriesEditor.tsx:245-265 | Deleting a pwid undoes adding it when the list did not have it. |
| ListEntries.AddAll | src/components/CustomListEntriesEditor.tsx:267-282 | Add-all puts one new entry per unlisted search result first, in search order, and keeps the old entries after them. Afterwards the search panel offers nothing. |
| ListEntries.DeleteAll | src/components/CustomListEntriesEditor.tsx:284-289 | Delete-all leaves no entries and no drag. |
| ListEntries.OnDragStart | src/components/CustomListEntriesEditor.tsx:218-225 | A drag start records the source panel and keeps the entries. |
| ListEntries.OnDragEnd | src/components/CustomListEntriesEditor.tsx:227-243 | A drag end clears the drag. A drop outside both panels, or back onto the source panel, leaves the entries as they were. |
| ListEntries.DragEndIsAddOrDelete | src/components/CustomListEntriesEditor.tsx:227-243 | A drop from the results onto the list is `add`. A drop from the list onto the results is `delete`. |
| ListEntries.DragStartEnablesOtherPanel | src/components/CustomListEntriesEditor.tsx:63 | During a drag, exactly the panel the drag did not start from accepts drops. |
| ListEntries.DragEndDisablesDrops | src/components/CustomListEntriesEditor.tsx:134 | After any drag end, no panel accepts drops. |
| ListEntries.ReceiveProps | src/components/CustomListEntriesEditor.tsx:181-185 | An entries array other than the current one, including a first one, resets the state to it with no drag in progress. No entries array, or the current one, leaves the state as it is. |
| ListEntries.ReceivePropsIdempotent | src/components/CustomListEntriesEditor.tsx:181-185 | Receiving the same entries a second time changes nothing. |
| ListEntries.ReceivedEntriesAreReset | src/components/CustomListEntriesEditor.tsx:181-203 | Once a new entries array has arrived, resetting to it changes nothing. |
| ListEntries.Reset | src/components/CustomListEntriesEditor.tsx:195-203 | Resetting gives the initial state for the entries prop: its entries, or none, with no drag in progress. |
| ListEntries.LoadMore | src/components/CustomListEntriesEditor.tsx:291-296 | The next page is requested exactly when there are results and no fetch is pending, using the results' next-page URL. |
| ListEntries.AddDeleteScenario | src/components/CustomListEntriesEditor.tsx:205-265 | A list holds "1" and the search found "2". The panel offers "2", adding it puts it first, and deleting it restores the list. |
| KeySort.Sort | src/components/CustomListEditor.tsx:169-170 | Sorting the keys yields a sorted permutation of them. |
| KeySort.SortEqualIffSameKeys | src/components/CustomListEditor.tsx:169-170 | Two key arrays sort to the same array exactly when they hold the same keys with the same counts. |
| ListEditor.Init | src/components/CustomListEditor.tsx:36-43 | The editor starts from the list's name, entries and collections, or nothing, with entry point "all". |
| ListEditor.PositionsDiffer | src/components/CustomListEditor.tsx:171-176 | The early-exit loop finds a difference exactly when some position of the saved keys differs from the edited one, reading past the end as `undefined`. |
| ListEditor.KeysChanged | src/components/CustomListEditor.tsx:164-189 | The sorted comparison reports a change exactly when the saved and edited keys differ as multisets. |
| ListEditor.HasChanges | src/components/CustomListEditor.tsx:162-191 | The "Cancel changes" link shows exactly when the name differs, the entries differ as a multiset of identifiers, or the list's collections differ as a multiset of ids. Without a list there is never a change. |
| ListEditor.InitHasNoChanges | src/components/CustomListEditor.tsx:36-43 | A freshly opened editor has no changes. |
| ListEditor.RenameIsChange | src/components/CustomListEditor.tsx:162-195 | Renaming a freshly loaded list is a change exactly when the new name differs from the saved one, so renaming it back undoes the change. |
| ListEditor.TickCollectionIsChange | src/components/CustomListEditor.tsx:162-220 | Ticking one more collection of a loaded list that has collections is a change. |
| ListEditor.ReorderIsNoChange | src/components/CustomListEditor.tsx:162-191 | Reordering the entries or collections is not a change. |
| ListEditor.ChangeCollection | src/components/CustomListEditor.tsx:201-220 | Toggling a ticked collection removes every collection with its id, keeping the others in order. Toggling an unticked one appends it. Either way its checkbox flips, every other checkbox stays, and name, entries and entry point are kept. |
| ListEditor.ChangeCollectionRoundTrip | src/components/CustomListEditor.tsx:210-220 | Ticking an unticked collection and then unticking it restores the state. |
| ListEditor.ChangeName | src/components/CustomListEditor.tsx:193-195 | Only the name changes. |
| ListEditor.ChangeEntries | src/components/CustomListEditor.tsx:197-199 | Only the entries change. |
| ListEditor.ChangeEntryPoint | src/components/CustomListEditor.tsx:222-229 | Only the selected entry point changes. |
| ListEditor.Reset | src/components/CustomListEditor.tsx:250-259 | Reset restores the list's collections and entry point "all". It keeps the name and entries, which the child editors reset themselves. |
| ListEditor.ReceiveProps | src/components/CustomListEditor.tsx:145-160 | Switching from a list to another list, or to none, reloads name, entries and collections. Otherwise, when there was no list or it had no collections, and the new list has collections, those collections are loaded and nothing else changes. In every other case the state stays. The entry point is always kept. |
| ListEditor.ReceivePropsIdempotent | src/components/CustomListEditor.tsx:145-160 | Receiving the same list a second time changes nothing. |
| ListEditor.EntryPointQuery | src/components/CustomListEditor.tsx:261-269 | The query is empty exactly when no entry point, the empty one or "all" is selected. Otherwise it is `&entrypoint=` and the encoded entry point. |
| ListEditor.SearchUrl | src/components/CustomListEditor.tsx:302-308 | The search URL starts with the library's search path. |
| ListEditor.SearchUrlHasEntryPointIffChosen | src/components/CustomListEditor.tsx:261-308 | For a library name without `&`, the URL contains `&` exactly when a specific entry point is chosen. |
| ListEditor.ResetSearchesAll | src/components/CustomListEditor.tsx:250-308 | After reset, the search URL is the library's search path with the encoded terms and no entry point. |
| ListEditor.SearchScenario | src/components/__tests__/CustomListEditor-test.tsx:268-287 | Searching "test" in library "library" with entry point "all" requests `/library/search?q=test`. |
| UriComponent.Encode | src/components/CustomListEditor.tsx:304 | Encoding never shortens a string and yields only unreserved characters, `%` and hex digits. |
| UriComponent.EncodeUnreservedIsIdentity | src/components/CustomListEditor.tsx:304 | A string of unreserved characters encodes to itself. |
| UriComponent.EncodeAppend | src/components/CustomListEditor.tsx:265 | Encoding is character by character: it distributes over concatenation. |
| IndividualAdminsReducer.Initial | src/reducers/individualAdmins.ts:13-19 | The initial state has no data and no error, and is not fetching, editing or loaded. |
| IndividualAdminsReducer.Reduce | src/reducers/individualAdmins.ts:21-64 | Each action sets the fields its case names and keeps the others. An unknown action, or no state, gives the state or the initial state. |
| IndividualAdminsReducer.LoadedIsMonotone | src/reducers/individualAdmins.ts:21-64 | Once loaded, a state stays loaded. |
| IndividualAdminsReducer.ReducePreservesLoadedIfData | src/reducers/individualAdmins.ts:21-64 | Data only ever appears together with the loaded flag. |
| IndividualAdminsReducer.RunKeepsLoadedIfData | src/reducers/individualAdmins.ts:21-64 | After any sequence of actions from the start, data implies loaded. The state is loaded exactly when some load or failure happened. |
| IndividualAdminsReducer.EditRoundTrip | src/reducers/individualAdmins.ts:43-53 | An edit request followed by success leaves the state as it was, not editing and with no error. |
| IndividualAdminsReducer.FetchScenario | src/reducers/individualAdmins.ts:23-34 | A request then a load gives the data, loaded and not fetching. |
| FieldValues.DisplayKey | src/components/InputList.tsx:46 | A string item is shown as itself and an object item under its first key. An object with no keys gives `undefined`. |
| FieldValues.RemoveItem | src/components/InputList.tsx:127-129 | Removing keeps exactly the items not equal to the removed one. Strings compare by value and objects by identity. |
| FieldValues.RemoveKeepsOrder | src/components/InputList.tsx:127-129 | Removing keeps the other items in their order: it distributes over concatenation. |
| ProtocolFormField.ControlFor | src/components/ProtocolFormField.tsx:38-51 | Select, checkbox list (a list setting with options, even none), item list, colour picker or plain input, each exactly when its condition holds. |
| ProtocolFormField.ElementType | src/components/ProtocolFormField.tsx:70 | The element is the setting's type when that is text, textarea or select, and `input` otherwise. |
| ProtocolFormField.ShownValue | src/components/ProtocolFormField.tsx:84-96 | The value shown is the field's value when truthy, else the setting's default. |
| ProtocolFormField.InputProps | src/components/ProtocolFormField.tsx:69-103 | Every basic, type-specific and custom prop is present, and custom props win. An image input has no value of its own. Otherwise the shown value is used. The field's error is passed on, or left undefined when there is none. |
| ProtocolFormField.BasicPropKept | src/components/ProtocolFormField.tsx:84-101 | A basic prop that neither the type's extra props nor the custom props set is passed on unchanged. |
| ProtocolFormField.ImageAndNumberProps | src/components/ProtocolFormField.tsx:72-82 | Image inputs accept images, and number inputs step by one and stay text inputs. |
| ProtocolFormField.CheckboxPropsWin | src/components/ProtocolFormField.tsx:112-127 | Each option's checkbox gets the checkbox type and the name `key_option`, and is keyed by the option's key. |
| ProtocolFormField.ShouldBeChecked | src/components/ProtocolFormField.tsx:204-216 | A string value ticks the option it names. An array of strings ticks the options it lists. A mixed array ticks none. With no value, the default decides. |
| ProtocolFormField.ValueOverridesDefault | src/components/ProtocolFormField.tsx:210-216 | With a value present the default never matters. |
| ProtocolFormField.ArrayDefaultTicksListedKeys | src/components/ProtocolFormField.tsx:204-216 | An array default ticks exactly the options whose keys it lists. |
| ProtocolFormField.IsDefault | src/components/ProtocolFormField.tsx:204-208 | A falsy default matches nothing. An array default matches exactly the options whose keys it lists. A non-empty string default matches when it contains the option's key or the text `[object Object]`. |
| ProtocolFormField.KeyDefaultTicks | src/components/ProtocolFormField.tsx:204-216 | With no value, a string default equal to a non-empty option key ticks that option. |
| ProtocolFormField.ObjectTextDefaultTicksAll | src/components/ProtocolFormField.tsx:204-208 | A default reading `[object Object]` ticks every option. |
| ProtocolFormField.InitListItems | src/components/ProtocolFormField.tsx:26-30 | The list starts from the value when it is truthy, else empty. A non-empty string value stays a string. |
| ProtocolFormField.RemoveListItem | src/components/ProtocolFormField.tsx:226-228 | On an array it removes the equal items. On a string it throws. |
| ProtocolFormField.AddListItem | src/components/ProtocolFormField.tsx:230-234 | On an array it appends the typed item. On a string it concatenates text. |
| ProtocolFormField.RemoveUndoesAdd | src/components/ProtocolFormField.tsx:226-234 | Removing a just-added new item restores the list. |
| ProtocolFormField.Clear | src/components/ProtocolFormField.tsx:246-252 | Clearing leaves an empty list. |
| ProtocolFormField.GetValue | src/components/ProtocolFormField.tsx:218-224 | An item-list setting answers with its items, and any other setting with its input's value. |
| InputList.Init | src/components/InputList.tsx:24-29 | The list starts from the value, or empty, with nothing typed. |
| InputList.ReceiveProps | src/components/InputList.tsx:36-38 | New props replace the items and keep the typed text. |
| InputList.UpdateNewItem | src/components/InputList.tsx:119-125 | Typing sets the new item and keeps the items. |
| InputList.RemoveListItem | src/components/InputList.tsx:127-129 | Removing drops every item equal to the given one and keeps the others, in order and with their repeats: the result is `RemoveItem` of the items, which distributes over concatenation (`FieldValues.RemoveKeepsOrder`) and leaves a list without the item unchanged. The typed text stays. |
| InputList.AddListItem | src/components/InputList.tsx:131-139 | Adding appends the typed text as a string item after the old items and clears the input. |
| InputList.AddDisablesAdd | src/components/InputList.tsx:97 | Right after an add, the Add button is disabled. |
| InputList.TypingEnablesAdd | src/components/InputList.tsx:97 | On an enabled field, Add is enabled exactly when something is typed. |
| InputList.RemoveUndoesAdd | src/components/InputList.tsx:127-139 | Removing a just-added new item restores the items. |
| InputList.RemoveIsIdempotent | src/components/InputList.tsx:127-129 | Removing twice is removing once. |
| InputList.Clear | src/components/InputList.tsx:145-147 | Clearing leaves no items. |
| InputList.GetValue | src/components/InputList.tsx:141-143 | The value is the list's items. |
| InputList.DisplayKeys | src/components/InputList.tsx:46 | There is one display key per item, as `DisplayKey` gives it. |
| LibraryRegistration.Candidates | src/components/LibraryRegistration.tsx:120-133 | Every candidate record names the library asked about. |
| LibraryRegistration.GetLibraryInfo | src/components/LibraryRegistration.tsx:120-133 | The record found names the library. There is none exactly when the service has no record for it. |
| LibraryRegistration.InfoBelongsToService | src/components/LibraryRegistration.tsx:120-133 | Every record found comes from the registrations of the service being edited. |
| LibraryRegistration.FindInService | src/components/LibraryRegistration.tsx:124-128 | The inner loop returns the first record of the service named like the library. |
| LibraryRegistration.FindLibraryInfo | src/components/LibraryRegistration.tsx:120-133 | The nested loops with early return compute `GetLibraryInfo`. |
| LibraryRegistration.GetLibraryProp | src/components/LibraryRegistration.tsx:135-138 | With no record the property is `null`. Otherwise it is the record's status or stage. |
| LibraryRegistration.NoRecordMeansRegister | src/components/LibraryRegistration.tsx:77-84 | A library with no record shows "Not registered" and a Register button. |
| LibraryRegistration.ProtocolSupportsRegistration | src/components/LibraryRegistration.tsx:140-149 | True exactly when a protocol is chosen, the protocol list exists, and the first protocol of that name supports registration. With no protocol chosen it is false. With a protocol chosen and no data it throws. |
| LibraryRegistration.Renders | src/components/LibraryRegistration.tsx:26-27 | The form renders exactly when there is an item, the protocol supports registration, and the data lists at least one library. Render throws exactly when there is an item and a chosen protocol but no data. |
| LibraryRegistration.Init | src/components/LibraryRegistration.tsx:17-24 | The component starts with no chosen stages and the protocol from its props. |
| LibraryRegistration.ChosenStage | src/components/LibraryRegistration.tsx:34-35 | The stage sent is the library's chosen stage when one was chosen, else "testing". |
| LibraryRegistration.UpdateRegistrationStage | src/components/LibraryRegistration.tsx:109-118 | Choosing a stage records it under the library's short name and changes no other library's stage. |
| LibraryRegistration.UpdateStageIsLocal | src/components/LibraryRegistration.tsx:109-118 | Choosing a stage for one library does not change the stage sent for another. |
| LibraryRegistration.UpdateStageIsSent | src/components/LibraryRegistration.tsx:34-35 | The chosen stage is what the register button sends. |
| LibraryRegistration.UnnamedLibrariesShareStage | src/components/LibraryRegistration.tsx:109-118 | Libraries without a short name share the one "undefined" stage slot. |
| LibraryRegistration.StatusBlockFor | src/components/LibraryRegistration.tsx:61-84 | Success shows "Registered", failure shows "Registration failed", `null` shows "Not registered", and anything else shows no block. |
| LibraryRegistration.ButtonLabel | src/components/LibraryRegistration.tsx:61-84 | There is a button exactly when there is a status block. |
| LibraryRegistration.CurrentStageText | src/components/LibraryRegistration.tsx:42-45 | The current stage is shown unless it is empty or registration failed. |
| LibraryRegistration.SelectorValue | src/components/LibraryRegistration.tsx:46-58 | The stage selector starts at the current stage, or "testing". |
| LibraryRegistration.RegistrationScenario | src/components/LibraryRegistration.tsx:26-94 | A registered, a failed and an unregistered library show Update, Retry and Register. The selector is hidden for a library in production. |
| EditorAdapter.FindRel | src/editorAdapter.ts:4-14 | The link found is the first with that relation. There is none exactly when no link has it. |
| EditorAdapter.Adapt | src/editorAdapter.ts:3-22 | The title is kept. The hide, restore and edit links are each the first link of that relation, or missing when there is none. |
| EditorAdapter.FindRelAt | src/editorAdapter.ts:3-22 | The link found for a relation is the first link that has it. |
| EditorAdapter.AdaptTakesFirstLinks | src/editorAdapter.ts:3-22 | The book data holds, for each relation, the first link of the entry that has it. |
| EditorAdapter.FindRelSkipsOthers | src/editorAdapter.ts:4-14 | Links of other relations ahead of the first match do not change what is found. |
| EditorAdapter.AppendKeepsFound | src/editorAdapter.ts:4-14 | Adding a link at the end never changes a link already found. |
| EditorAdapter.AdapterExample | src/editorAdapter.ts:3-22 | For two hide links and an edit link, the first hide link and the edit link are found, and no restore link. |

## Left out

- Rendering (JSX markup, CSS classes, `document.body.classList`), refs and DOM reads. What the
  source reads from an input (a typed value, a selected stage) is a parameter.
- Saving and network calls: `save`, `submit`, `registerButton`'s `register` call,
  `loadMoreSearchResults` and `search` as requests. `LoadMore` returns which fetch would be made,
  and `SearchUrl` the URL that would be requested.
- `onUpdate` callbacks of the list-entries editor. They receive exactly the new entries of the
  state, so they add nothing to the model.
- The random password generator of the admin form, because it uses `Math.random`.
- AdminRoles.IsSelected: the equivalence with the granted roles is stated for well-formed role
  records only, because a blanket role that carries a library has no meaning in the source.
- ListEditor.SearchUrlHasEntryPointIffChosen: stated for library names without `&`, because
  otherwise the URL always contains one.
- ListEditor.SearchUrl: the contract states the prefix only. The full URL is stated by
  `ResetSearchesAll` and `SearchScenario` for the "all" entry point.
- ListEditor.HasChanges: collection ids are modelled as strings, the form JavaScript's default
  sort compares them in.
- UriComponent.Encode: characters are Unicode scalar values, so the URIError that
  `encodeURIComponent` throws on a lone surrogate is not modelled.
- ProtocolFormField.IsDefault: an array default is searched for the option's key. An array
  default that holds the option object itself is not modelled, because option objects are not
  stored in defaults.
- AdminRoles.ToggleLibrarian: the source pushes the new librarian record onto the array it
  shares with `props.item.roles`, so the admin record held in the props changes too; the model
  appends to a copy and does not model that aliasing.
- Error values of the reducer are opaque type parameters.
- The `setting.format` tooltip, the colour picker widget and the autocomplete of the input list
  are presentation only.

## Notes on the source

Where a design description and the code differ, the model follows the code:

- Role changes do not always leave a minimal set of role records. Demoting librarian of one
  library under librarian-all keeps the manager records of other libraries. Those records then
  coexist with librarian records of the same libraries.
- `add(pwid)` does not skip a pwid that is already listed. It unshifts one new entry per search
  result with that pwid.
- Ticking and then unticking manager-all leaves librarian-all, not the roles held before.
- In the librarian branch of `handleRoleChange` (line 234), the inner `else if` repeats the
  condition of the branch it is in. It is always taken, so the model has a single branch there.

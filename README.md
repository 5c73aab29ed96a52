# Note manager state layer, in Dafny

This project models the client-side state of a note manager written in
TypeScript with Redux Toolkit and React. Notes ("notices") live in a tree of
directories. The model covers four parts:

- **The directory forest** (`src/store/slices/directoriesSlice.ts`):
  - `buildDirectoryTree` turns the flat list the backend sends into a forest.
  - `findDirectoryById` is a pre-order lookup.
  - `removeDirectoryById` drops whole subtrees.
  - The reducers toggle, rename and insert children through the node the lookup finds, and clear the selection on delete.
- **The notice collection** (`src/store/slices/noticesSlice.ts`):
  - `reorderNotices` works on one directory's projection. It removes and reinserts with `splice`, renumbers the positions, and puts the block after the other directories' notices.
  - Fetch sorts stably by position.
  - Create appends; update replaces by id; delete filters by id.
- **The search suggestion filter and its handlers** (`src/components/Search/SearchBar.tsx`), and the search and UI slices.
- **The decision rules in the component handlers**:
  - the drag-end reorder and position updates of `NotesGrid.tsx`;
  - the tag editing, save and close of `NoteDetail.tsx`;
  - the rename guard, key handling and create-child auto-expand of `DirectoryItem.tsx`.

Files:

| file | module | contents |
|---|---|---|
| wrappers.dfy | Wrappers | `Option`, JavaScript truthiness of a `string \| null`, `message \|\| fallback` |
| types.dfy | Types | the records of `src/types/index.ts` and the request bodies of the thunks |
| directory_forest.dfy | DirectoryForest | lookup, in-place edits as values, removal, and their laws |
| directory_build.dfy | DirectoryBuild | `buildDirectoryTree`: its two loops and the forest they build |
| directory_links.dfy | DirectoryLinks | the shape of the built forest for distinct ids and acyclic parent links: each record exactly once, children linked to their parent |
| directories_slice.dfy | DirectoriesSlice | the directories state as a class, one method per reducer |
| notice_order.dfy | NoticeOrder | the per-directory projection, `splice` moves, renumbering, the stable sort |
| notices_slice.dfy | NoticesSlice | the notices state as a class, one method per reducer |
| text.dfy | Text | `trim`, UTF-16 `length`, `toLowerCase` (ASCII), `includes` |
| search_slice.dfy, ui_slice.dfy | SearchSlice, UiSlice | the search and UI states as classes, each reducer specified by a function on a snapshot |
| search_bar.dfy | SearchBar | the suggestion filter and the three handlers |
| notes_grid.dfy | NotesGrid | the shown notices, the create-note guard, the drag-end handler |
| note_detail.dfy | NoteDetail | the selected-notice lookup, tag lists, the panel's handlers |
| directory_item.dfy | DirectoryItem | the row's derived flags and its handlers |
| mock_data.dfy | MockData | the fixture of `src/utils/mockData.ts` as a concrete scenario |

How the model is put together:

- **Reducers.** Each reducer is a method on a state class that changes that class's fields (`modifies this`). The payload of an async thunk's `fulfilled` action is the method's parameter.
- **Directories.** The directory forest is a value (`seq<Directory>`). A change the source makes through the object `findDirectoryById` returns becomes `EditFirst`: the same change applied to the first node with the id in pre-order, which is the node that lookup finds. The flattened view `Entries` lists every node in pre-order with its ancestor ids. The "nothing else changes" statements are written over that view.
- **Handlers.** A handler is a method.
  - It dispatches a synchronous action by calling the state's method; the state is a parameter.
  - It returns the async thunks it dispatches, as `Request` values in dispatch order.
  - A browser dialog's answer (`prompt`) is a parameter.
  - A component's `useState` fields are the fields of a class (`NoteDetailView`, `DirectoryItemView`).
- **Integers.** Indices and positions are unbounded integers.
- **`splice`.** `SpliceStart` models how `splice` normalises a start index: a negative index counts from the end, and the result is clamped to the array.

Behaviour of the code that a reader might not expect:

- `updateDirectoryName` and `updateDirectory.fulfilled` rename the found node with no check on the name. The "non-empty and different" check is in `DirectoryItem.handleSaveEdit`, and it compares the untrimmed draft (`DirectoryItem.RenameGuardIsUntrimmed`).
- Only the fetch actions have `pending` and `rejected` reducers. Create, update and delete neither set `isLoading` nor record an error.
- A created directory whose non-empty `parentId` names no node is dropped. It is not appended to the roots (`DirectoriesSlice.DirectoriesState.CreateFulfilled`).
- Reordering puts the directory's block after every other notice (`NoticeOrder.ReorderedProjections`, `MockData.ReorderMovesBlockToEnd`).
- A source index that names no notice of the directory makes the reducer set `position` on `undefined`, and the reducer throws. `reorderNotices` then returns `ok == false` and leaves the state as it was. The drag handler stops at that point.
- The search gate trims the query, but matching uses the untrimmed query (`SearchBar.GateTrimsButFilterDoesNot`).
- `expanded` starts absent on a directory created after the fetch. Toggling reads an absent flag as false (`!undefined`), so toggling twice leaves it stored as `false` rather than absent.

## Model

| member | source | states |
|---|---|---|
| Wrappers.MessageOr | src/store/slices/directoriesSlice.ts:98-101 | a present, non-empty error message is kept; otherwise the fallback text is used |
| Types.Kids | src/types/index.ts:1-7 | an absent `children` field reads as no children; a present one is its list |
| DirectoryForest.FindIsFirstInPreorder | src/store/slices/directoriesSlice.ts:153-162 | `findDirectoryById` returns the first node with the id in the pre-order list of all nodes, and nothing exactly when no node has the id |
| DirectoryForest.EditMissingIsNoOp | src/store/slices/directoriesSlice.ts:68-79 | a toggle, rename or child insert aimed at an id no node has leaves the forest unchanged |
| DirectoryForest.FindAfterEdit | src/store/slices/directoriesSlice.ts:68-79 | after an edit, the lookup finds the found node with the edit applied; for an insert, the child is at the end of the parent's list, and an absent list becomes `[child]` |
| DirectoryForest.ToggleTwiceRestores | src/store/slices/directoriesSlice.ts:68-73 | toggling an id twice gives back the forest, when the found node carries an `expanded` flag |
| DirectoryForest.FieldEditTouchesFirst | src/store/slices/directoriesSlice.ts:68-79 | a toggle or rename changes only the first node with the id; every other node, the nesting and the order stay the same |
| DirectoryForest.AppendChildAddsOnlyTheChild | src/store/slices/directoriesSlice.ts:104-109 | inserting a child with a fresh id adds that child's subtree under the found parent and changes nothing else, apart from the parent's children list becoming present |
| DirectoryForest.RemoveKeepsTheRest | src/store/slices/directoriesSlice.ts:164-172 | removal keeps exactly the nodes that neither have the id nor lie below one that has it, in their old order and nesting |
| DirectoryForest.RemoveLeavesNoTrace | src/store/slices/directoriesSlice.ts:164-172 | after removal no node has the id, no node lies below one that had it, and the lookup finds nothing |
| DirectoryBuild.BuildDirectoryTree | src/store/slices/directoriesSlice.ts:130-151 | the two `forEach` loops compute the forest `Build` describes |
| DirectoryBuild.BuildRootsAreTheOrphans | src/store/slices/directoriesSlice.ts:140-148 | the roots are the records whose `parentId` is null, empty or names no fetched id, one per record, in input order |
| DirectoryBuild.BuildNodesAreFetchedCopies | src/store/slices/directoriesSlice.ts:135-137 | every built node is a copy of a fetched record with the same id; the last record with that id wins. The copy has the same fields, a present children list, and `expanded` stored as `expanded \|\| false` |
| DirectoryBuild.AssembledChildrenAreChildRecords | src/store/slices/directoriesSlice.ts:140-148 | each node assembled from a list of ids is a stored copy whose id is not on the path, and its children are assembled from its own children list, in input order, with its id added to the path |
| DirectoryBuild.AssembledIds | src/store/slices/directoriesSlice.ts:140-148 | assembling a list of ids below a path gives one node for each id that is stored and not on the path, in list order; nothing else is dropped |
| DirectoryLinks.FetchIsLinked | src/store/slices/directoriesSlice.ts:135-148 | for distinct ids and acyclic parent links, each id's children list holds, without repeats, exactly the records linked under that id |
| DirectoryLinks.BuildHoldsEachRecordOnce | src/store/slices/directoriesSlice.ts:130-151 | for distinct ids and acyclic parent links (a rank that grows from parent to child), every fetched id occurs exactly once among the forest's nodes, no other id occurs, and the forest has as many nodes as there are records |
| DirectoryLinks.BuildLinksChildren | src/store/slices/directoriesSlice.ts:140-148 | for distinct ids and acyclic parent links, each node's children are the records whose live parent it is, in input order |
| DirectoryLinks.BuildChildrenPointUp | src/store/slices/directoriesSlice.ts:140-148 | for distinct ids and acyclic parent links, every child's `parentId` is the id of the node it hangs under |
| DirectoriesSlice.FindByName | src/store/slices/directoriesSlice.ts:92 | `find` by name returns the first fetched record with the name, and none exactly when no record has it |
| DirectoriesSlice.DirectoriesState.constructor | src/store/slices/directoriesSlice.ts:54-59 | the initial state: no directories, no selection, not loading, no error |
| DirectoriesSlice.DirectoriesState.SelectDirectory | src/store/slices/directoriesSlice.ts:65-67 | sets the selection only |
| DirectoriesSlice.DirectoriesState.ToggleDirectoryExpanded | src/store/slices/directoriesSlice.ts:68-73 | flips `expanded` of the node the lookup finds, and nothing else (an absent flag reads as false) |
| DirectoriesSlice.DirectoriesState.UpdateDirectoryName | src/store/slices/directoriesSlice.ts:74-79 | renames the found node; the name is not checked |
| DirectoriesSlice.DirectoriesState.FetchPending | src/store/slices/directoriesSlice.ts:83-86 | sets `isLoading` and clears the error |
| DirectoriesSlice.DirectoriesState.FetchFulfilled | src/store/slices/directoriesSlice.ts:87-97 | stores the built forest and clears `isLoading`; only when nothing is selected, it selects the first fetched directory named 'Family' |
| DirectoriesSlice.DirectoriesState.FetchRejected | src/store/slices/directoriesSlice.ts:98-101 | clears `isLoading` and stores the message or 'Failed to fetch directories' |
| DirectoriesSlice.DirectoriesState.CreateFulfilled | src/store/slices/directoriesSlice.ts:102-113 | three cases: append under the found parent; append to the roots when `parentId` is falsy; no change when the parent is missing |
| DirectoriesSlice.DirectoriesState.UpdateFulfilled | src/store/slices/directoriesSlice.ts:114-119 | renames the found node to the server's name |
| DirectoriesSlice.DirectoriesState.DeleteFulfilled | src/store/slices/directoriesSlice.ts:120-125 | removes the subtrees, so the id is no longer found; clears the selection exactly when it was the deleted id |
| NoticeOrder.OfDirectory | src/store/slices/noticesSlice.ts:70 | the projection holds only notices of the directory |
| NoticeOrder.OtherDirectories | src/store/slices/noticesSlice.ts:82 | the complement holds only notices of other directories |
| NoticeOrder.SplitByDirectory | src/store/slices/noticesSlice.ts:70-82 | projection and complement together hold every notice exactly once |
| NoticeOrder.OfDirectoryAppend | src/store/slices/noticesSlice.ts:70-82 | both filters distribute over concatenation, so each keeps the order of the notices it keeps |
| NoticeOrder.SpliceStart | src/store/slices/noticesSlice.ts:73-74 | where `splice(k, ...)` starts: a negative `k` counts from the end, and the result is clamped to `0..len` |
| NoticeOrder.MovedIsPermutation | src/store/slices/noticesSlice.ts:73-74 | the move loses and duplicates nothing, and puts the removed notice at the destination slot |
| NoticeOrder.MovedToItsOwnSlot | src/store/slices/noticesSlice.ts:72-74 | moving a notice to its own index changes nothing |
| NoticeOrder.MovedKeepsDirectory | src/store/slices/noticesSlice.ts:73-74 | the moved block still belongs to the directory |
| NoticeOrder.RenumberedIsPlaced | src/store/slices/noticesSlice.ts:77-79 | after renumbering the positions are exactly `0..n-1`, in order, and no other field changes |
| NoticeOrder.UnplacedMoved | src/store/slices/noticesSlice.ts:73-74 | forgetting positions commutes with the move |
| NoticeOrder.UnplacedFilter | src/store/slices/noticesSlice.ts:70-82 | forgetting positions commutes with both filters |
| NoticeOrder.BlockAtTheEnd | src/store/slices/noticesSlice.ts:82 | after `others.concat(block)`, the projection is the block and the complement is the old complement |
| NoticeOrder.ReorderedProjections | src/store/slices/noticesSlice.ts:68-84 | after a reorder: the directory's notices are the old projection moved and renumbered `0..n-1`, with the dragged notice at the destination; the other directories' notices are unchanged in content and order |
| NoticeOrder.ReorderedKeepsNotices | src/store/slices/noticesSlice.ts:68-84 | a reorder keeps the count and, apart from positions, the same notices |
| NoticeOrder.InsertKeepsSorted | src/store/slices/noticesSlice.ts:94 | one step of the sort keeps the list ordered by position |
| NoticeOrder.InsertAddsOne | src/store/slices/noticesSlice.ts:94 | one step of the sort adds exactly the inserted notice |
| NoticeOrder.InsertIsStable | src/store/slices/noticesSlice.ts:94 | one step of the sort puts the notice after the notices with equal position |
| NoticeOrder.SortIsSorted | src/store/slices/noticesSlice.ts:94 | the sort orders by position |
| NoticeOrder.SortIsPermutation | src/store/slices/noticesSlice.ts:94 | the sort keeps the same notices |
| NoticeOrder.SortIsStable | src/store/slices/noticesSlice.ts:94 | notices with equal positions keep their input order |
| NoticeOrder.SortByPositionIsStableSort | src/store/slices/noticesSlice.ts:94 | the sort on fetch is a stable sort by position |
| NoticesSlice.NoticeIndex | src/store/slices/noticesSlice.ts:104 | `findIndex` returns the first index with the id, and -1 exactly when there is none |
| NoticesSlice.WithoutId | src/store/slices/noticesSlice.ts:110 | filtering by id never lengthens the list |
| NoticesSlice.WithoutIdMembers | src/store/slices/noticesSlice.ts:110 | exactly the notices with another id survive |
| NoticesSlice.WithoutIdAppend | src/store/slices/noticesSlice.ts:110 | deleting distributes over concatenation, so the survivors keep their order |
| NoticesSlice.WithoutAbsentId | src/store/slices/noticesSlice.ts:110 | deleting an id no notice has changes nothing |
| NoticesSlice.NoticesState.constructor | src/store/slices/noticesSlice.ts:54-59 | the initial state: no notices, no selection, not loading, no error |
| NoticesSlice.NoticesState.SelectNotice | src/store/slices/noticesSlice.ts:65-67 | sets the selection only |
| NoticesSlice.NoticesState.ReorderNotices | src/store/slices/noticesSlice.ts:68-84 | equal indices change nothing; otherwise the state is the reorder `Reordered` describes, or unchanged with `ok == false` when the source index names no notice |
| NoticesSlice.NoticesState.FetchPending | src/store/slices/noticesSlice.ts:88-91 | sets `isLoading` and clears the error |
| NoticesSlice.NoticesState.FetchFulfilled | src/store/slices/noticesSlice.ts:92-95 | stores the payload sorted by position, a permutation of it, and clears `isLoading` |
| NoticesSlice.NoticesState.FetchRejected | src/store/slices/noticesSlice.ts:96-99 | clears `isLoading` and stores the message or 'Failed to fetch notices' |
| NoticesSlice.NoticesState.CreateFulfilled | src/store/slices/noticesSlice.ts:100-102 | appends the server's notice at the end, whatever its position |
| NoticesSlice.NoticesState.UpdateFulfilled | src/store/slices/noticesSlice.ts:103-108 | replaces the first notice with the id and nothing else; an unknown id changes nothing |
| NoticesSlice.NoticesState.DeleteFulfilled | src/store/slices/noticesSlice.ts:109-114 | removes every notice with the id and keeps the rest; clears the selection exactly when it was that id |
| Text.LeadingSpaces | src/components/Search/SearchBar.tsx:24 | the length of the leading whitespace run, which ends at a non-whitespace character or at the end |
| Text.TrailingStart | src/components/Search/SearchBar.tsx:24 | where the trailing whitespace run begins, just after a non-whitespace character or at the start |
| Text.Trim | src/components/Search/SearchBar.tsx:24 | `trim` returns the slice between the leading and trailing whitespace; it is empty exactly when the input is all whitespace, and otherwise starts and ends with non-whitespace |
| Text.TrimIdempotent | src/components/Search/SearchBar.tsx:24 | trimming twice is trimming once |
| Text.Utf16Length | src/components/Search/SearchBar.tsx:24 | `length` counts UTF-16 code units: between one and two per character |
| Text.LowerChar | src/components/Search/SearchBar.tsx:27 | lowercasing maps 'A'-'Z' to 'a'-'z' and leaves every other character alone |
| Text.LowerIdempotent | src/components/Search/SearchBar.tsx:27 | lowercasing keeps the length, and lowercasing twice is lowercasing once |
| Text.IncludesIff | src/components/Search/SearchBar.tsx:27 | `includes` holds exactly when the needle occurs at some offset |
| Text.EmptyIsIncluded | src/components/Search/SearchBar.tsx:27 | the empty string is included in every string |
| SearchBar.FilteredMembers | src/components/Search/SearchBar.tsx:25-34 | the filter keeps exactly the matching notices: in simple mode the lowercased title contains the lowercased query; in advanced mode the title, the description or a tag does |
| SearchBar.FilteredAppend | src/components/Search/SearchBar.tsx:25-34 | the filter keeps the collection's order |
| SearchBar.MatchSlots | src/components/Search/SearchBar.tsx:25-34 | the indices of the matching notices, strictly increasing, every matching index among them |
| SearchBar.FilteredAtSlots | src/components/Search/SearchBar.tsx:25-34 | the filter lists the notices at the matching indices, in order |
| SearchBar.Suggestions | src/components/Search/SearchBar.tsx:25-35 | five suggestions when more than five notices match, all matches otherwise; the j-th suggestion is the notice at the j-th matching index, so they keep collection order |
| SearchBar.SuggestionsAreTheEarliest | src/components/Search/SearchBar.tsx:25-35 | every matching notice at an index up to the last suggestion's is a suggestion: the suggestions are the earliest matches |
| SearchBar.SimpleFindsLess | src/components/Search/SearchBar.tsx:26-33 | every simple-mode match is an advanced-mode match |
| SearchBar.SimpleFindsLessCount | src/components/Search/SearchBar.tsx:26-33 | the simple mode finds no more notices than the advanced mode |
| SearchBar.BlankNeverSearches | src/components/Search/SearchBar.tsx:24 | a query made only of whitespace never opens suggestions |
| SearchBar.TwoCharactersSearch | src/components/Search/SearchBar.tsx:24 | a query with two non-whitespace characters always passes the gate |
| SearchBar.GateTrimsButFilterDoesNot | src/components/Search/SearchBar.tsx:24-27 | " ab" passes the trimmed gate, yet the untrimmed query fails to match a notice titled "ab" |
| SearchBar.TitleAgainstTag | src/components/Search/SearchBar.tsx:26-33 | "Budget" in simple mode matches a notice titled "Budget" but not one only tagged "Budget"; advanced mode matches both |
| SearchBar.HandleQueryChange | src/components/Search/SearchBar.tsx:21-43 | stores the query verbatim; past the gate, the first five matches in the current mode with the panel open; otherwise no suggestions and the panel closed |
| SearchBar.HandleSuggestionClick | src/components/Search/SearchBar.tsx:45-49 | the query becomes the notice's title and the panel closes |
| SearchBar.Toggled | src/components/Search/SearchBar.tsx:51-53 | the other mode |
| SearchBar.ToggleMode | src/components/Search/SearchBar.tsx:51-53 | flips the mode and leaves the query, the panel and the suggestions as they were |
| SearchSlice.WithQuery | src/store/slices/searchSlice.ts:15-17 | `setQuery` changes the query only |
| SearchSlice.WithMode | src/store/slices/searchSlice.ts:18-20 | `setMode` changes the mode only |
| SearchSlice.WithOpen | src/store/slices/searchSlice.ts:21-23 | `setIsOpen` changes the open flag only |
| SearchSlice.WithSuggestions | src/store/slices/searchSlice.ts:24-26 | `setSuggestions` changes the suggestions only |
| SearchSlice.Cleared | src/store/slices/searchSlice.ts:27-31 | `clearSearch` restores the initial state but keeps the mode |
| SearchSlice.ClearSearchIdempotent | src/store/slices/searchSlice.ts:27-31 | clearing twice is clearing once |
| SearchSlice.SearchState.constructor | src/store/slices/searchSlice.ts:4-9 | the initial state: empty query, simple mode, closed, no suggestions |
| SearchSlice.SearchState.SetQuery | src/store/slices/searchSlice.ts:15-17 | the state becomes `WithQuery` of the old state |
| SearchSlice.SearchState.SetMode | src/store/slices/searchSlice.ts:18-20 | the state becomes `WithMode` of the old state |
| SearchSlice.SearchState.SetIsOpen | src/store/slices/searchSlice.ts:21-23 | the state becomes `WithOpen` of the old state |
| SearchSlice.SearchState.SetSuggestions | src/store/slices/searchSlice.ts:24-26 | the state becomes `WithSuggestions` of the old state |
| SearchSlice.SearchState.ClearSearch | src/store/slices/searchSlice.ts:27-31 | the state becomes `Cleared` of the old state |
| UiSlice.SidebarToggled | src/store/slices/uiSlice.ts:23-25 | `toggleSidebar` negates `sidebarCollapsed` only |
| UiSlice.WithNoteDetail | src/store/slices/uiSlice.ts:26-28 | `setShowNoteDetail` sets `showNoteDetail` only |
| UiSlice.EditingNote | src/store/slices/uiSlice.ts:29-32 | `startEditingNote` sets its flag and the item id, and leaves the directory flag alone |
| UiSlice.EditingDirectory | src/store/slices/uiSlice.ts:33-36 | `startEditingDirectory` sets its flag and the item id, and leaves the note flag alone |
| UiSlice.Stopped | src/store/slices/uiSlice.ts:37-41 | `stopEditing` clears both flags and the item id, and keeps the sidebar and panel flags |
| UiSlice.ToggleSidebarTwice | src/store/slices/uiSlice.ts:23-25 | toggling the sidebar twice changes nothing |
| UiSlice.StopEditingIdempotent | src/store/slices/uiSlice.ts:29-41 | stopping twice is stopping once, and stopping undoes either start |
| UiSlice.UiState.constructor | src/store/slices/uiSlice.ts:11-17 | the initial state: every flag false and no item id |
| UiSlice.UiState.ToggleSidebar | src/store/slices/uiSlice.ts:23-25 | the state becomes `SidebarToggled` of the old state |
| UiSlice.UiState.SetShowNoteDetail | src/store/slices/uiSlice.ts:26-28 | the state becomes `WithNoteDetail` of the old state |
| UiSlice.UiState.StartEditingNote | src/store/slices/uiSlice.ts:29-32 | the state becomes `EditingNote` of the old state |
| UiSlice.UiState.StartEditingDirectory | src/store/slices/uiSlice.ts:33-36 | the state becomes `EditingDirectory` of the old state |
| UiSlice.UiState.StopEditing | src/store/slices/uiSlice.ts:37-41 | the state becomes `Stopped` of the old state |
| NotesGrid.FilteredNotices | src/components/Notes/NotesGrid.tsx:21-23 | the selected directory's notices in `items` order, or all notices when nothing is selected |
| NotesGrid.HandleCreateNote | src/components/Notes/NotesGrid.tsx:25-40 | with no selection it only alerts; a non-empty title creates an untagged notice with an empty description in the selected directory; otherwise nothing is sent |
| NotesGrid.PositionUpdatesAre | src/components/Notes/NotesGrid.tsx:60-66 | every update is the `{id, position}` update of a notice whose position differs from its new index, and every such notice has its update |
| NotesGrid.ChangedSlots | src/components/Notes/NotesGrid.tsx:60-66 | the slots whose notice's position differs from the slot, strictly increasing, every such slot among them |
| NotesGrid.PositionUpdatesInSlotOrder | src/components/Notes/NotesGrid.tsx:60-66 | exactly one update per changed slot, in slot order: the j-th update is for the j-th changed slot |
| NotesGrid.UpdatesAreRenumbering | src/components/Notes/NotesGrid.tsx:56-66 | every update matches the renumbered list at some slot, and every slot without an update already has its renumbered value |
| NotesGrid.UpdatesAgreeWithReducer | src/components/Notes/NotesGrid.tsx:56-66 | every position the handler sends is the one the reducer gave that notice, and every notice left out already had it |
| NotesGrid.HandleDragEnd | src/components/Notes/NotesGrid.tsx:42-69 | no destination, no selection or equal indices: nothing. A source index the reducer rejects: the state is unchanged and nothing is sent. Otherwise the reducer's reorder plus the position updates of the re-spliced pre-drag list |
| NoteDetail.SelectedNotice | src/components/Notes/NoteDetail.tsx:24 | the first notice with the selected id; none when nothing is selected or no notice has the id |
| NoteDetail.TagsAfterAdd | src/components/Notes/NoteDetail.tsx:51-57 | the trimmed tag is appended when it is non-empty and new; otherwise the tags are unchanged |
| NoteDetail.WithoutTag | src/components/Notes/NoteDetail.tsx:59-61 | every copy of the tag goes and every other tag stays |
| NoteDetail.AddKeepsDistinct | src/components/Notes/NoteDetail.tsx:51-57 | adding keeps the tags duplicate-free and adds only a non-empty, trimmed tag |
| NoteDetail.RemoveKeepsDistinct | src/components/Notes/NoteDetail.tsx:59-61 | removing keeps the tags duplicate-free |
| NoteDetail.WithoutAbsentTag | src/components/Notes/NoteDetail.tsx:59-61 | removing a tag that is not there changes nothing |
| NoteDetail.RemoveUndoesAdd | src/components/Notes/NoteDetail.tsx:51-61 | removing the tag just added gives back the old tags |
| NoteDetail.NoteDetailView.constructor | src/components/Notes/NoteDetail.tsx:18-22 | not editing, with blank draft fields and no tags |
| NoteDetail.NoteDetailView.LoadSelected | src/components/Notes/NoteDetail.tsx:26-32 | a found notice's title, description and tags are loaded into the draft; otherwise the draft is kept |
| NoteDetail.NoteDetailView.HandleClose | src/components/Notes/NoteDetail.tsx:34-37 | hides the panel and leaves edit mode |
| NoteDetail.NoteDetailView.HandleSave | src/components/Notes/NoteDetail.tsx:39-49 | with a notice selected, sends its id, the trimmed title and description and the tags, then leaves edit mode; without one, nothing |
| NoteDetail.NoteDetailView.HandleAddTag | src/components/Notes/NoteDetail.tsx:51-57 | the tags become `TagsAfterAdd`; the draft text is cleared exactly when the tag was accepted |
| NoteDetail.NoteDetailView.HandleRemoveTag | src/components/Notes/NoteDetail.tsx:59-61 | the tags become `WithoutTag` |
| NoteDetail.NoteDetailView.HandleKeyDown | src/components/Notes/NoteDetail.tsx:63-67 | Enter adds the tag; any other key changes nothing |
| DirectoryItem.SaveEditRequests | src/components/Directory/DirectoryItem.tsx:53-56 | a rename is sent exactly when the trimmed draft is non-empty and the untrimmed draft differs from the name; the name sent is the trimmed draft |
| DirectoryItem.RenameGuardIsUntrimmed | src/components/Directory/DirectoryItem.tsx:54-55 | the draft " Work " for a directory named "Work" still sends a rename, to "Work" |
| DirectoryItem.BlankDraftSendsNothing | src/components/Directory/DirectoryItem.tsx:54 | a draft made only of whitespace sends no rename |
| DirectoryItem.CreateChildLeavesExpanded | src/components/Directory/DirectoryItem.tsx:73-82 | a collapsed row is expanded and an expanded one is left alone, so the row is expanded afterwards |
| DirectoryItem.ToggleFlipsShownChildren | src/components/Directory/DirectoryItem.tsx:34-36 | for a row with children (`children && children.length > 0`), toggling flips whether the children are shown (`isExpanded && hasChildren`) |
| DirectoryItem.DirectoryItemView.constructor | src/components/Directory/DirectoryItem.tsx:30 | the draft starts as the directory's name |
| DirectoryItem.DirectoryItemView.HandleStartEdit | src/components/Directory/DirectoryItem.tsx:47-51 | the row becomes the one in edit mode (`isEditingDirectory && editingItemId === id`), and the draft is reset to the name |
| DirectoryItem.DirectoryItemView.HandleSaveEdit | src/components/Directory/DirectoryItem.tsx:53-58 | sends `SaveEditRequests`, then stops editing whatever the draft, so the row leaves edit mode |
| DirectoryItem.DirectoryItemView.HandleCancelEdit | src/components/Directory/DirectoryItem.tsx:60-63 | resets the draft to the name and stops editing |
| DirectoryItem.DirectoryItemView.HandleKeyDown | src/components/Directory/DirectoryItem.tsx:65-71 | Enter saves, Escape cancels, any other key changes nothing |
| DirectoryItem.DirectoryItemView.HandleCreateChild | src/components/Directory/DirectoryItem.tsx:73-82 | a non-empty name sends a create with this directory as parent, and toggles the row only when it was collapsed; otherwise nothing |
| MockData.FetchSelectsFamily | src/utils/mockData.ts:4-10 | the fixture's first directory named 'Family' is directory '3' |
| MockData.FetchedForestIsFiveRoots | src/utils/mockData.ts:4-10 | the fixture builds into its five directories as roots, in order |
| MockData.FixtureHoldsEachDirectoryOnce | src/utils/mockData.ts:4-10 | the fixture's forest has exactly its five directories as nodes |
| MockData.FamilyHoldsThree | src/utils/mockData.ts:12-42 | directory '3' holds the first three notices, at positions 0 to 2 |
| MockData.ReorderMovesBlockToEnd | src/utils/mockData.ts:12-63 | dragging Family's first notice to the last slot puts Family's block, renumbered, after the two other notices |

## Left out

- The async thunk bodies: the `fetch` calls, `response.json()` and the dynamic import of the fixture. They are network and module I/O. Each `fulfilled` reducer takes the answer as a parameter, and a handler returns the thunks it starts as `Request` values.
- The Redux and Immer machinery. Each reducer is a method that changes the state object in place. A thrown reducer is modelled as `ok == false` with the state unchanged, which is what Immer's discarded draft gives.
- Overlapping in-flight requests and which response arrives last. This is about asynchrony.
- Browser dialogs. `prompt` is an optional string parameter and `alert` is a returned flag. `confirm`, and with it `handleDelete` of `DirectoryItem.tsx`, is not part of this model.
- Non-integer positions. `position` is a JavaScript number and the fetch sort compares `a.position - b.position` as doubles. Fractional, NaN, infinite and very large positions are not modelled; positions are unbounded integers.
- The drag gesture library. A drag result is a source index and an optional destination index, both integers; fractional or non-numeric indices are not modelled.
- A handler reads the store as it stood at the last render. The model takes it to be the current store state when the handler runs.
- Rendering, styling, tooltips, hover state and the click-outside listener of the search bar.
- The thin one-dispatch handlers `handleSelect` and `handleToggleExpanded` of `DirectoryItem.tsx`, and the button that enters edit mode in `NoteDetail.tsx`. They are covered by the reducers they dispatch to.
- The text inputs' `onChange` setters of the components.
- Text.LowerChar: Unicode case mapping is not modelled. Only 'A'-'Z' are lowercased, so matching is stated relative to ASCII lowercasing.
- `fetchNotices.fulfilled` sorts the action's payload array in place. The model returns the sorted list; the payload's own mutation is not modelled.
- Object identity and aliasing. The forest and the notices are values. Two nodes that share one object in the source (two fetched records with the same id) are two equal values here. An edit through one of them changes only the first in pre-order, where the source would change both.
- Duplicate ids and cyclic parent links. The source then links shared objects into a graph that may contain itself; the model stops unfolding at an id already on the path from the root. The exactly-once and parent-link lemmas of `DirectoryLinks` are stated only for distinct ids and acyclic links.
- DirectoryForest.ToggleTwiceRestores: requires the found node to carry an `expanded` flag. An absent flag reads as false, so after two toggles it is stored as `false`.
- UpdateFulfilled (notices): takes the server's answer to be a full notice, as the rest of the state assumes.
- The `Tag` and `AppState` types of `src/types/index.ts`, which nothing uses.
- `NoteCard.tsx`, the layout components, `DirectoryTree.tsx` and the store setup in `src/store/index.ts`. They are composition and rendering.
- The fixture's `createdAt` and `updatedAt` come from the clock. They are a parameter of `MockData.MockNotices`.

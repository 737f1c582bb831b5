# Todo app core, modelled in Dafny

This project models the core of a Next.js todo application: a multi-user todo
list with tags, priorities, notes and `@` mentions. The model covers:

- the client's shared query cache;
- the optimistic create, update and delete mutations and their rollback;
- the optimistic note creation;
- the mention and tag editing logic of the two todo dialogs;
- the list and create endpoints of the todo API: pagination, the filter, and how mentioned users are resolved;
- the CSV export;
- the request helpers, the form schemas, the route guard and the initials helper.

Each source file has its own module:

| module | file | source |
|---|---|---|
| `Strings` | strings.dfy | the JavaScript string operations the app uses, restricted to ASCII case mapping |
| `Domain` | domain.dfy | the data model of `lib/types.ts` |
| `QueryCache` | query_cache.dfy | the client query cache |
| `ApiClient` | api_client.dfy | `lib/api.ts` |
| `TodoList` | todo_list.dfy | `components/todo-list.tsx` |
| `TodoItem` | todo_item.dfy | `components/todo-item.tsx` |
| `NotesView` | notes_view.dfy | `components/notes-view.tsx` |
| `Navbar` | navbar.dfy | `components/navbar.tsx` |
| `TodoForm` | todo_form.dfy | the tag and mention logic shared by both dialogs |
| `EditTodoDialog` | edit_todo_dialog.dfy | `components/edit-todo-dialog.tsx` |
| `CreateTodoDialog` | create_todo_dialog.dfy | `components/create-todo-dialog.tsx` |
| `Validations` | validations.dfy | `lib/validations.ts` |
| `Middleware` | middleware.dfy | `middleware.ts` |
| `TodosRoute` | todos_route.dfy | `app/api/todos/route.ts` |
| `ExportRoute` | export_route.dfy | `app/api/export/route.ts` |

Pure code is written as functions and lemmas: list transforms, string
handling, schemas and CSV rendering. Code that changes state step by step is
written as classes with `modifies` clauses:

- the query cache;
- the list view's and item view's mutation callbacks;
- the notes panel;
- the dialogs' form state and handlers.

The list endpoint's filter builder (`TodosRoute.BuildWhere`) fills in a local
object field by field, so it is a method that reassigns a local datatype
value, not a class.

The cache is a map from query key to data, plus the set of keys an
invalidation marked stale. The key families are kept apart as the app keeps
them:

- `["todos"]` is the key that the optimistic writes target.
- `["todos", {page, …}]` is the key the list reads.
- `["notes", id]` holds a todo's notes.
- `["users"]` holds the user list.

An optimistic write to `["todos"]` is therefore never the entry the list
shows. The model keeps this as written rather than repairing it.

What `setQueryData(key, undefined)` does is library behaviour that is not
visible in the app's code. The cache carries an explicit flag,
`undefinedClears`, for it, and every rollback contract is stated for both
values of the flag.

## Model

| member | source | states |
|---|---|---|
| Strings.Lower | components/create-todo-dialog.tsx:102-105 | `toLowerCase` on ASCII: each character lower-cased, the length kept |
| Strings.LowerConcat | components/create-todo-dialog.tsx:105 | lower-casing distributes over concatenation |
| Strings.IncludesIffOccurs | components/create-todo-dialog.tsx:105 | `includes` holds iff the substring occurs at some index |
| Strings.IncludesChar | components/create-todo-dialog.tsx:127 | `includes(" ")` holds iff the text contains a space |
| Strings.LastIndexOf | components/create-todo-dialog.tsx:125 | -1 or an index holding the character, with no occurrence after it; -1 only when the character is absent |
| Strings.Substring | components/create-todo-dialog.tsx:124 | `substring(start, end)` is the slice when the bounds are in range, and never longer than the text |
| Strings.SubstringFrom | components/create-todo-dialog.tsx:128 | `substring(start)`: the suffix for a start in range, the whole text for a negative start, empty past the end |
| Strings.Trim | components/create-todo-dialog.tsx:72 | `trim()` is empty iff the text is all whitespace; otherwise it is the text between the leading and trailing whitespace and starts and ends with a non-space |
| Strings.TrimIdempotent | components/create-todo-dialog.tsx:72-75 | trimming a trimmed text changes nothing |
| Strings.Split | components/navbar.tsx:22 | `split(" ")` gives at least one piece, and no piece holds the separator |
| Strings.JoinSplit | components/navbar.tsx:22-24 | joining the pieces of a split with the separator gives the text back |
| Strings.JoinEnds | app/api/export/route.ts:54 | a join starts with its first piece and ends with its last |
| Strings.IndexOf | app/api/todos/route.ts:159 | the first position of the character, or -1 iff it does not occur |
| Strings.SplitJoin | components/navbar.tsx:22-24 | splitting a join of separator-free pieces gives the pieces back |
| Strings.NatToString | components/todo-list.tsx:82 | the rendering of `Date.now()` in a temporary id: at least one decimal digit, and no leading zero |
| Strings.NatToStringValue | components/todo-list.tsx:82 | the rendered digits read back as the number |
| QueryCache.Written | components/todo-list.tsx:103 | writing a value sets exactly that key; writing `undefined` removes the key or changes nothing, as the flag says; every other key keeps its entry |
| QueryCache.Read | components/todo-list.tsx:77 | the snapshot is present exactly when the key has an entry, and is that entry |
| QueryCache.RestoreAfterWrite | components/todo-list.tsx:77-103 | snapshot, then any write, then writing the snapshot back gives the original entries when the key was present; when it was absent, the result follows the flag |
| QueryCache.Cache.GetQueryData | components/todo-list.tsx:77 | reads the exact key |
| QueryCache.Cache.GetTodos | components/todo-list.tsx:44 | a `["todos"]`-family entry, present iff the key has one |
| QueryCache.Cache.GetNotes | components/todo-item.tsx:60 | a notes entry, present iff the key has one |
| QueryCache.Cache.SetQueryData | components/todo-list.tsx:80 | the new entries are `Written` of the old ones; a key that is written is no longer stale |
| QueryCache.Cache.InvalidateQueries | components/todo-list.tsx:111 | data untouched; every present key the filter matches (the whole `["todos"]` family, or one notes key) is marked stale |
| QueryCache.Cache.constructor | components/todo-list.tsx:28 | an empty cache with no stale keys |
| TodoList.TagsFromNames | components/todo-list.tsx:86 | one tag per name, in order, each `{id: name, name: name}` |
| TodoList.OptimisticTodo | components/todo-list.tsx:81-90 | a `temp-` id; the submitted title, priority and description; tags from the names, or none; no notes and no mentions |
| TodoList.PrependTodo | components/todo-list.tsx:92-95 | exactly one todo is added in front and the previous list follows in order; the pagination is kept; an absent entry becomes the list holding just that todo |
| TodoList.Merge | components/todo-list.tsx:133 | `{...todo, ...data}`: each of the nine patchable fields takes the submitted value when there is one and keeps the todo's otherwise; the id is kept |
| TodoList.MergeFullPatch | components/todo-list.tsx:133 | spreading a full todo with the same id over another gives the full todo |
| TodoList.MergeIdempotent | components/todo-list.tsx:133 | applying the same update twice is the same as once |
| TodoList.MergeById | components/todo-list.tsx:133 | same length and order; entries with the target id are merged and all others are unchanged |
| TodoList.UpdateTodos | components/todo-list.tsx:130-135 | the updater on a present entry: ids and length are kept, each entry with the target id becomes the merge of itself with the patch, every other entry is unchanged, and the pagination is kept |
| TodoList.MergeByIdAbsent | components/todo-list.tsx:133 | an update to an id not in the list changes nothing |
| TodoList.MergeByIdIdempotent | components/todo-list.tsx:133 | re-running the optimistic update changes nothing more |
| TodoList.RemoveById | components/todo-list.tsx:171 | a todo survives iff its id differs from the target |
| TodoList.RemoveByIdConcat | components/todo-list.tsx:171 | the filter works piecewise, so the survivors keep their relative order |
| TodoList.RemoveByIdAbsent | components/todo-list.tsx:171 | removing an id not in the list changes nothing |
| TodoList.RemoveByIdIdempotent | components/todo-list.tsx:171 | removing twice is removing once |
| TodoList.DeletePlaceholderUndoesCreate | components/todo-list.tsx:92-95 | deleting the optimistic todo's id after an optimistic create gives back the previous list |
| TodoList.DeleteTodos | components/todo-list.tsx:168-173 | the updater on a present entry: exactly the todos with other ids remain, and the pagination is kept |
| TodoList.AllTags | components/todo-list.tsx:44 | the tags of all cached todos, flattened |
| TodoList.IndexOfId | components/todo-list.tsx:45 | the position of a tag id in the map, or -1 when absent |
| TodoList.LastWithId | components/todo-list.tsx:45 | the last tag with an id, which is the one a `Map` keeps |
| TodoList.MapSetStep | components/todo-list.tsx:45 | one `Map.set` keeps the map faithful to the tags seen so far |
| TodoList.MapSetReplace | components/todo-list.tsx:45 | setting an id the map holds keeps it faithful to the tags seen, one more tag included |
| TodoList.MapSetAppend | components/todo-list.tsx:45 | setting a new id keeps the map faithful likewise |
| TodoList.MapSetAllHolds | components/todo-list.tsx:45 | building the map over all tags keeps it faithful |
| TodoList.UniqueTags | components/todo-list.tsx:43-45 | `uniqueTags` has at most one tag per id; its ids are exactly those of the cached todos' tags; each entry is the last tag seen with that id; with no `["todos"]` entry it is empty |
| TodoList.ListQueryArgs | components/todo-list.tsx:53-62 | the parameters object of the list query has distinct keys |
| TodoList.SentKey | lib/api.ts:34-38 | a key is sent iff some entry has that key and a sendable value |
| TodoList.OnlyKeyAt | lib/api.ts:34-38 | with distinct keys, whether a key is sent is decided by its own entry |
| TodoList.ListQuerySends | components/todo-list.tsx:53-62 | tag and priority are sent iff not `"all"` and not empty; search is sent iff non-empty; the page is always sent |
| TodoList.ShownTotalPages | components/todo-list.tsx:67 | the server's `totalPages` when it is present and non-zero, else 1 |
| TodoList.ShowsPagination | components/todo-list.tsx:359 | the pager is shown iff the server reported more than one page; a missing, zero or negative `totalPages` hides it |
| TodoList.TodoListView.constructor | components/todo-list.tsx:28-31 | the view over a shared cache, with the create dialog closed |
| TodoList.TodoListView.CreateOnMutate | components/todo-list.tsx:72-100 | the snapshot is the prior `["todos"]` entry; that entry becomes the prepended list; no other key changes |
| TodoList.TodoListView.RestoreTodos | components/todo-list.tsx:101-103 | writes the snapshot back under `["todos"]` |
| TodoList.TodoListView.InvalidateTodos | components/todo-list.tsx:110-111 | no data is written; every `["todos"]`-family entry is stale |
| TodoList.TodoListView.RunCreate | components/todo-list.tsx:70-118 | success leaves the optimistic list in place, marks the family stale and closes the dialog; failure restores the snapshot, which gives the original entries when the entry was present; no key but `["todos"]` is touched |
| TodoList.TodoListView.UpdateOnMutate | components/todo-list.tsx:122-139 | on a present entry, the snapshot is taken and the entry becomes the merged list; on an absent entry the updater throws, leaving the cache unchanged |
| TodoList.TodoListView.DeleteOnMutate | components/todo-list.tsx:160-177 | as above, with the filtered list |
| TodoList.TodoListView.RunUpdate | components/todo-list.tsx:120-156 | the request is sent iff the entry was present; failure leaves the entries as they were; success invalidates |
| TodoList.TodoListView.RunDelete | components/todo-list.tsx:158-194 | the same for deletion |
| TodoItem.OptimisticNote | components/todo-item.tsx:63-70 | a `temp-` id, the submitted content, this todo's id and the session user as author |
| TodoItem.AppendNote | components/todo-item.tsx:73-75 | exactly one note is added at the end of the notes entry, and an absent entry counts as empty |
| TodoItem.WithNote | components/todo-item.tsx:78-81 | the todo with the note appended; every other field is unchanged |
| TodoItem.ReplaceById | components/todo-item.tsx:84-90 | same length; only entries with the id are replaced |
| TodoItem.ReplaceByIdTwice | components/todo-item.tsx:84-106 | replacing an id twice equals the second replacement alone |
| TodoItem.ReplaceByIdSame | components/todo-item.tsx:100-106 | replacing entries by themselves changes nothing |
| TodoItem.ReplaceInTodos | components/todo-item.tsx:84-90 | guarded by `if (!old) return old`: an absent entry stays absent; otherwise only entries with the id change and the pagination is kept |
| TodoItem.NoteRollbackOnTodos | components/todo-item.tsx:100-106 | the rollback writes the original `todo` prop, not a snapshot: the result is the prior entry with every same-id todo set to the prop; it is the prior entry exactly when those already were the prop, and an absent entry stays absent |
| TodoItem.RemoveFromTodos | components/todo-item.tsx:140-146 | guarded removal: an absent entry stays absent; otherwise exactly the todos with other ids remain |
| TodoItem.WordRunLength | components/todo-item.tsx:184 | the longest prefix of word characters `[A-Za-z0-9_]` |
| TodoItem.FirstSegment | components/todo-item.tsx:184 | one match step: a segment that spells a non-empty prefix of the text, and the rest; a mention takes `@` and a non-empty, maximal run of word characters; an `@` left plain is not followed by a word character |
| TodoItem.ScanKeepsText | components/todo-item.tsx:184 | the scanned segments spell out the description exactly, so highlighting loses and adds no text |
| TodoItem.ScanHead | components/todo-item.tsx:184 | the first segment starts with the description's first character |
| TodoItem.ScanWellScanned | components/todo-item.tsx:184 | each highlighted run is `@` and one or more word characters, not followed by another; each `@` left plain is not followed by a word character |
| TodoItem.MentionWords | components/todo-item.tsx:184 | a word is returned iff some highlighted segment carries it |
| TodoItem.MentionWordsConcat | components/todo-item.tsx:184 | the words of two runs of segments are those of the first, then those of the second, so they keep the description's order |
| TodoItem.Rendered | components/todo-item.tsx:184 | a plain character is its own markup; a mention is its text wrapped in the highlight `<span>`, and only a mention grows |
| TodoItem.Render | components/todo-item.tsx:184 | the markup is never shorter than the text, has its length exactly when nothing is highlighted, and is then the text itself |
| TodoItem.SpanText | components/todo-item.tsx:184-195 | the text content of the rendered markup never exceeds the markup |
| TodoItem.SpanTextPlain | components/todo-item.tsx:184-195 | text without `<` is its own text content |
| TodoItem.RenderedText | components/todo-item.tsx:184-195 | a rendered segment, plain or wrapped in the highlight `<span>`, shows the text of the segment |
| TodoItem.RenderText | components/todo-item.tsx:184-195 | the rendered segments show the text they spell |
| TodoItem.FormatDescription | components/todo-item.tsx:184-195 | for a description with no `<` or `&`, the text shown by the highlighted markup is the description itself |
| TodoItem.PreviewNotes | components/todo-item.tsx:327 | the first `min(n, 3)` notes |
| TodoItem.MoreNotesCount | components/todo-item.tsx:335-345 | "View n−3 more" is shown iff n > 3, with that count |
| TodoItem.TodoItemView.constructor | components/todo-item.tsx:29-37 | an empty draft, the dialog closed and not deleting |
| TodoItem.TodoItemView.HandleAddNote | components/todo-item.tsx:174-181 | nothing is submitted iff the draft is blank after trimming; otherwise the untrimmed draft is sent for this todo |
| TodoItem.TodoItemView.CreateNoteOnMutate | components/todo-item.tsx:55-93 | snapshots the notes entry, appends the optimistic note there, and replaces this todo in `["todos"]` when that entry is present; both written keys are fresh afterwards |
| TodoItem.TodoItemView.CreateNoteOnError | components/todo-item.tsx:95-112 | the notes entry is written back from the snapshot, for both values of the undefined flag; in `["todos"]` this todo's id is set back to the original prop; the keys written are fresh afterwards |
| TodoItem.TodoItemView.CreateNoteOnSuccess | components/todo-item.tsx:114-128 | no data is written; the notes key is stale; the draft is cleared and the dialog closed; `onUpdate` receives the todo with the server note appended |
| TodoItem.TodoItemView.RunCreateNote | components/todo-item.tsx:53-128 | the whole mutation; on success the notes entry holds the optimistic note and is stale, `["todos"]` holds this todo with that note, and the draft is cleared and the dialog closed; on failure the notes entry is restored, or keeps only the optimistic note when it was absent and writing `undefined` is ignored, `["todos"]` holds the original prop, and the form is untouched; only those two keys change |
| TodoItem.TodoItemView.HandleDelete | components/todo-item.tsx:131-172 | no change unless confirmed; removes the todo from `["todos"]` before the request without a snapshot; any resolved fetch, whatever its status, reaches `onDelete`; only a thrown fetch invalidates; `isDeleting` ends false |
| NotesView.AuthorLabel | components/notes-view.tsx:148 | the name, else the username, else `"User"` |
| NotesView.NotesPanel.constructor | components/notes-view.tsx:22-26 | an empty draft with the form closed |
| NotesView.NotesPanel.HandleAddNote | components/notes-view.tsx:56-63 | nothing is submitted iff the draft is blank after trimming; otherwise the untrimmed draft is sent |
| NotesView.NotesPanel.SettleCreateNote | components/notes-view.tsx:36-54 | there is no optimistic write; success only marks the notes key stale, clears the draft and closes the form; failure changes nothing |
| Navbar.Heads | components/navbar.tsx:23 | `n[0]` of each word, `undefined` for an empty word |
| Navbar.JoinHeads | components/navbar.tsx:24 | a character is in the result iff some element holds it, and with no `undefined` element nothing is dropped |
| Navbar.GetInitials | components/navbar.tsx:19-27 | `"U"` for a missing or empty name; never more than 2 characters |
| Navbar.HeadsOfSplit | components/navbar.tsx:22-24 | split on `" "`, first characters, join: the result is the characters that start a word |
| Navbar.GetInitialsSpec | components/navbar.tsx:19-27 | for a non-empty name: the uppercased word starts, cut to 2 |
| Navbar.WordStartsOfWord | components/navbar.tsx:22-24 | a word contributes its first character |
| Navbar.WordStartsOfSpaces | components/navbar.tsx:22-24 | a run of spaces contributes nothing |
| Navbar.GetInitialsTwoWords | components/navbar.tsx:19-27 | two words, with any number of spaces between them, give their two uppercased initials |
| Navbar.GetInitialsOneWord | components/navbar.tsx:19-27 | a single word gives one character |
| Navbar.GetInitialsBlankName | components/navbar.tsx:19-27 | a name of spaces only gives the empty string, not `"U"` |
| Navbar.NextTheme | components/navbar.tsx:40 | `"light"` iff the theme is `"dark"`, else `"dark"`; always different from the current theme |
| Navbar.NextThemeTwice | components/navbar.tsx:40 | toggling twice returns to the theme iff it was `"dark"` or `"light"` |
| TodoForm.AddTag | components/edit-todo-dialog.tsx:77-85 | appends the trimmed input iff it is non-blank and not already a tag, and otherwise changes nothing; the input is cleared iff a tag is added; no duplicates are introduced |
| TodoForm.AddTagKeepsClean | components/create-todo-dialog.tsx:71-79 | a list of distinct, trimmed, non-empty tags stays so |
| TodoForm.RemoveTag | components/edit-todo-dialog.tsx:88-94 | a tag survives iff it differs from the removed string |
| TodoForm.RemoveTagConcat | components/create-todo-dialog.tsx:82-88 | removal works piecewise, so the order of the rest is kept |
| TodoForm.RemoveTagAbsent | components/edit-todo-dialog.tsx:88-94 | removing an absent tag changes nothing |
| TodoForm.RemoveUndoesAdd | components/edit-todo-dialog.tsx:77-94 | removing a tag that was just added gives the previous tags |
| TodoForm.BeforeAfter | components/edit-todo-dialog.tsx:146-147 | the text before and after the caret make up the description |
| TodoForm.MentionQuery | components/edit-todo-dialog.tsx:131-135 | a query never contains a space or an `@` |
| TodoForm.MentionQuerySpec | components/create-todo-dialog.tsx:124-133 | a query is found iff the text before the caret ends with `@` followed by that query, which has no space and no `@`; both directions |
| TodoForm.SelectMentionAsWritten | components/edit-todo-dialog.tsx:144-160 | the splice as written: the text up to the last `@`, then `@username `, then the text after the caret; the caret is at atIndex + \|username\| + 2 |
| TodoForm.SelectMention | components/create-todo-dialog.tsx:137-153 | the same text; the caret sits right after the inserted `@username `, and the text from the caret on is the text that followed the old caret |
| TodoForm.SelectMentionAgrees | components/edit-todo-dialog.tsx:149-159 | with an `@` before the caret, the corrected splice is the splice as written |
| TodoForm.SelectMentionCaretShort | components/edit-todo-dialog.tsx:149-159 | with no `@` before the caret, the text as written is `@username ` followed by the text after the caret, and its caret lands on that space, one short |
| TodoForm.SelectReplacesQuery | components/edit-todo-dialog.tsx:131-150 | when a query was detected, selection replaces exactly `@query` with `@username ` and keeps the rest |
| TodoForm.MatchingUsers | components/edit-todo-dialog.tsx:107-114 | a user is kept iff the lowercased username or name contains the lowercased query |
| TodoForm.MatchingUsersConcat | components/create-todo-dialog.tsx:99-106 | the filter works piecewise, so the original order is kept |
| TodoForm.Suggestions | components/create-todo-dialog.tsx:99-107 | the first `min(m, 5)` matching users |
| TodoForm.IncludesEmpty | components/edit-todo-dialog.tsx:113 | every string contains `""` |
| TodoForm.EmptyQueryMatchesAll | components/edit-todo-dialog.tsx:107-114 | the empty query matches every user |
| TodoForm.MentionHandle | components/edit-todo-dialog.tsx:183 | the username if truthy, else the name, else `""` |
| TodoForm.NextIndex | components/edit-todo-dialog.tsx:173 | `(i + 1) % n` stays in `[0, n)` and wraps from the last row to the first |
| TodoForm.PrevIndex | components/edit-todo-dialog.tsx:177 | `(i − 1 + n) % n` stays in `[0, n)` and wraps from the first row to the last |
| TodoForm.PrevUndoesNext | components/create-todo-dialog.tsx:166-170 | ArrowUp undoes ArrowDown and the reverse |
| TodoForm.PressDown | components/create-todo-dialog.tsx:166 | k ArrowDown presses stay in range |
| TodoForm.PressDownWraps | components/create-todo-dialog.tsx:166 | k ≤ n presses land at i + k, wrapped once |
| TodoForm.FullCycle | components/edit-todo-dialog.tsx:173 | n presses return to the start |
| EditTodoDialog.TagNamesOfNames | components/edit-todo-dialog.tsx:54 | names turned into placeholder tags read back as the same names |
| EditTodoDialog.DefaultsFrom | components/edit-todo-dialog.tsx:50-65 | the todo's title, description and priority, and its tag names |
| EditTodoDialog.Dialog.constructor | components/edit-todo-dialog.tsx:29-56 | the defaults from the todo and empty suggestion state |
| EditTodoDialog.Dialog.RefreshSuggestions | components/edit-todo-dialog.tsx:105-119 | the list becomes the suggestions for the current users and query, and the selection goes back to 0 |
| EditTodoDialog.Dialog.ReceiveUsers | components/edit-todo-dialog.tsx:42-46 | a new user list re-runs the effect |
| EditTodoDialog.Dialog.ResetFrom | components/edit-todo-dialog.tsx:59-65 | a new todo resets the form to its fields |
| EditTodoDialog.Dialog.HandleAddTag | components/edit-todo-dialog.tsx:77-85 | the tags and input become `AddTag` of the old ones; nothing else changes |
| EditTodoDialog.Dialog.HandleRemoveTag | components/edit-todo-dialog.tsx:88-94 | the tags become `RemoveTag` of the old ones |
| EditTodoDialog.Dialog.HandleDescriptionChange | components/edit-todo-dialog.tsx:122-141 | stores the text and the caret (`selectionStart \|\| 0`); suggestions are shown iff a query is found; a changed query refreshes the list and resets the selection |
| EditTodoDialog.Dialog.HandleSelectMention | components/edit-todo-dialog.tsx:144-163 | the description becomes the splice as written, suggestions close, and the caret is recorded at `atSignIndex + username.length + 2`; when an `@` precedes the caret this is the corrected caret after the inserted `@username ` |
| EditTodoDialog.Dialog.HandleKeyDown | components/edit-todo-dialog.tsx:166-192 | keys do nothing while suggestions are hidden or empty; the arrows move the selection cyclically within the list; Enter selects the highlighted user, with the splice and caret as written; Escape hides the list |
| CreateTodoDialog.Dialog.FilteredUsers | components/create-todo-dialog.tsx:99-107 | at most 5 suggestions, derived on each render |
| CreateTodoDialog.Dialog.constructor | components/create-todo-dialog.tsx:27-54 | the defaults: empty title and description, `MEDIUM`, no tags |
| CreateTodoDialog.Dialog.ReceiveUsers | components/create-todo-dialog.tsx:40-44 | the selection resets iff the list's length changed |
| CreateTodoDialog.Dialog.HandleAddTag | components/create-todo-dialog.tsx:71-79 | as in the edit dialog |
| CreateTodoDialog.Dialog.HandleRemoveTag | components/create-todo-dialog.tsx:82-88 | as in the edit dialog |
| CreateTodoDialog.Dialog.HandleDescriptionChange | components/create-todo-dialog.tsx:115-134 | as in the edit dialog, except the selection resets only when the list's length changes (create-todo-dialog.tsx:110-112) |
| CreateTodoDialog.Dialog.HandleSelectMention | components/create-todo-dialog.tsx:137-156 | the splice and caret as written; with an `@` before the caret the caret is the corrected one |
| CreateTodoDialog.Dialog.HandleKeyDown | components/create-todo-dialog.tsx:159-185 | as in the edit dialog, over the derived list; Enter gives the splice and caret as written |
| CreateTodoDialog.Dialog.OnSubmit | components/create-todo-dialog.tsx:198-214 | the submitted values are the form's and pass the create schema again; the form and the tag input reset; the mention state is kept |
| CreateTodoDialog.SelectAfterSubmit | components/create-todo-dialog.tsx:57-61 | after a reset, choosing a still-open suggestion meets the no-`@` case: the caret as written is \|username\| + 1 and the corrected one is \|username\| + 2 |
| Validations.SignupIssues | lib/validations.ts:8-23 | each field is reported iff its rule fails: name ≥ 2, username ≥ 5, email, password ≥ 8 with `A-Z` and a digit, and `confirmPassword` equal to the password |
| Validations.SignupIssuesSpec | lib/validations.ts:8-23 | signup is valid iff no issue is reported; a mismatch of otherwise valid data fails on `confirmPassword` alone |
| Validations.ParseCreateTodo | lib/validations.ts:25-30 | accepted iff the title has 1–100 characters, the description (if any) at most 500, and the priority is HIGH, MEDIUM or LOW |
| Validations.ParseCreateTodoRoundTrip | lib/validations.ts:25-30 | valid input, rendered as a body, parses back to itself |
| Validations.ParseUpdateTodo | lib/validations.ts:32-37 | the same bounds, with every field optional |
| Validations.EmptyBodies | lib/validations.ts:25-37 | `{}` is a valid update and an invalid create |
| Validations.LoginIssues | lib/validations.ts:3-6 | `email` is reported iff the address is invalid and `password` iff it has fewer than 8 characters; nothing else is reported |
| Validations.LoginValid | lib/validations.ts:3-6 | a login parses iff no field is reported |
| Validations.NoteIssues | lib/validations.ts:39-42 | `todoId` is reported iff it is empty and `content` iff it is empty or longer than 500 characters; nothing else is reported |
| Validations.NoteValid | lib/validations.ts:39-42 | a note parses iff no field is reported |
| Domain.ParsePriorityName | lib/validations.ts:28 | each priority's name parses back to it |
| Domain.TagNames | components/edit-todo-dialog.tsx:54 | `tags.map(tag => tag.name)` pointwise |
| Middleware.Decide | middleware.ts:5-27 | exactly one outcome; redirect to `/login` with `callbackUrl` = pathname iff protected and no token; redirect home iff `/login` or `/signup` with a token; otherwise pass through |
| Middleware.IsProtectedPath | middleware.ts:9 | a guarded path is neither `/login` nor `/signup`, and no path starting with `/api/auth` is guarded |
| Middleware.ProtectedPaths | middleware.ts:9 | `/login` and `/signup` are open only on exact match (`/login/` is guarded); everything starting with `/api/auth` is open, `/api/authors` included; `/` and `/api/todos` are guarded |
| Middleware.AuthApiAlwaysPasses | middleware.ts:9-26 | paths under `/api/auth` pass with or without a token |
| Middleware.TokenOpensProtectedPath | middleware.ts:15-26 | a protected path redirects without a token and passes with one |
| ApiClient.Render | lib/api.ts:36 | `String(value)` for strings and numbers |
| ApiClient.SentParams | lib/api.ts:34-38 | never more parameters than entries |
| ApiClient.SentParamsMember | lib/api.ts:34-38 | `(k, s)` is sent iff some entry with key k has a value that is not undefined, null or `""` and renders as s (so 0 is sent) |
| ApiClient.SentParamsSnoc | lib/api.ts:34-38 | one more entry adds one parameter or none, at the end |
| ApiClient.GetTodosQuery | lib/api.ts:32-38 | the `forEach` loop builds exactly the filtered, rendered parameter list |
| ApiClient.ExportQuery | lib/api.ts:74-80 | `format` always comes first; `userId` is added iff truthy |
| ApiClient.ErrorMessage | lib/api.ts:10-13 | the body's `error` if truthy, else `"API error: <status>"`, with an unparsable body counting as `{}` |
| ApiClient.ApiRequest | lib/api.ts:7-16 | resolves iff the status is 2xx, and otherwise rejects with that message |
| TodosRoute.NumberOr | app/api/todos/route.ts:17-18 | the decimal value of a truthy parameter, else the default; at least 1 |
| TodosRoute.NumberOrRendered | app/api/todos/route.ts:17-18 | a number the client rendered with `String(n)` reads back as n |
| TodosRoute.Skip | app/api/todos/route.ts:27 | page 1 skips nothing |
| TodosRoute.SkipStep | app/api/todos/route.ts:27 | each further page skips `limit` more rows |
| TodosRoute.CeilDiv | app/api/todos/route.ts:98 | the least number of pages of size `limit` that holds `total` |
| TodosRoute.CeilDivExample | app/api/todos/route.ts:98 | 23 rows at 10 per page make 3 pages, 20 make 2, and 0 make 0 |
| TodosRoute.Window | app/api/todos/route.ts:85-86 | `skip`/`take` is the slice from `skip` of at most `take` rows, or nothing past the end |
| TodosRoute.SkipOfCeilDiv | app/api/todos/route.ts:98 | for a non-empty result, page `totalPages` is at least 1 and starts before the total, and the page after it starts at or past the total |
| TodosRoute.WindowStartsInside | app/api/todos/route.ts:85-86 | a page that starts inside the rows is not empty |
| TodosRoute.LastPageNotEmpty | app/api/todos/route.ts:85-98 | page `totalPages` of a non-empty result holds at least one row |
| TodosRoute.NoPageAfterLast | app/api/todos/route.ts:85-98 | the page after `totalPages` holds no rows |
| TodosRoute.LastPageIsTotalPages | app/api/todos/route.ts:85-98 | page `totalPages` is non-empty and the page after it is empty |
| TodosRoute.BuildWhere | app/api/todos/route.ts:30-61 | the `where` object selects a todo iff it belongs to userId and meets every filter that is set: tag name, priority, a mention by email, and a case-insensitive search in title, description or a tag name |
| TodosRoute.Selected | app/api/todos/route.ts:64-65 | the rows the `where` object selects |
| TodosRoute.ListedRows | app/api/todos/route.ts:30-61 | the rows that meet the listing rule |
| TodosRoute.SelectedIsListed | app/api/todos/route.ts:30-90 | the rows the database returns are the listed rows, in order |
| TodosRoute.ListTodos | app/api/todos/route.ts:8-105 | 401 iff there is no session; otherwise the window `((page−1)·limit, limit)` of the listed rows, with total, page, limit and ⌈total/limit⌉ echoed |
| TodosRoute.StripFirstAt | app/api/todos/route.ts:159 | text without `@` is unchanged; otherwise the result is the text before the first `@` followed by the text after it |
| TodosRoute.StripLeadingAt | app/api/todos/route.ts:159 | `"@" + w` becomes w |
| TodosRoute.MentionedUsers | app/api/todos/route.ts:151-172 | a user matches iff the username or name equals, ignoring case, some mention with its first `@` removed |
| TodosRoute.MentionRecords | app/api/todos/route.ts:174-182 | one `(todoId, userId)` record per matched user |
| TodosRoute.CreateTodo | app/api/todos/route.ts:107-183 | 401 iff there is no session; 400 iff the schema rejects the body; otherwise a todo with description `""` when missing, the submitted priority, the session user as owner, its tags, and mention records iff some mention matched |
| TodosRoute.MissingPriorityRefused | app/api/todos/route.ts:118-135 | a body without a priority is refused before any write, so the `"MEDIUM"` fallback is never used |
| TodosRoute.AssumedExtractMentions | components/todo-item.tsx:184 | the assumed mention rule: one entry per highlighted word, and entry i is `@` followed by word i |
| TodosRoute.MentionsOfWords | app/api/todos/route.ts:151-172 | with one `@word` per word, a user matches some mention iff the username or name equals, ignoring case, some word |
| TodosRoute.AssumedMentionRule | app/api/todos/route.ts:151-172 | under that rule, a user is mentioned iff the username or name equals, ignoring case, a highlighted word |
| ExportRoute.SelectFormat | app/api/export/route.ts:15-38 | CSV iff the format parameter is exactly `"csv"`; missing, empty or other values give JSON |
| ExportRoute.MentionNames | app/api/export/route.ts:48 | each mentioned user's name, `""` for a null name |
| ExportRoute.NoteContents | app/api/export/route.ts:49 | each note's content, in order |
| ExportRoute.Row | app/api/export/route.ts:41-50 | 8 cells in header order; tags and mention names are joined by `", "` and notes by `"; "` |
| ExportRoute.HeaderLine | app/api/export/route.ts:53 | the header line splits at commas into exactly the eight column names, in order |
| ExportRoute.RowLine | app/api/export/route.ts:54 | no cells give an empty line, one cell gives that cell quoted, and a non-empty line opens and closes with `"` |
| ExportRoute.DoubleQuotes | app/api/export/route.ts:54 | every `"` is doubled and nothing else changes: text without `"` is kept, `"` becomes `""`, and nothing gets shorter |
| ExportRoute.DoubleQuotesConcat | app/api/export/route.ts:54 | the replacement is global and works piece by piece: doubling a concatenation doubles each part |
| ExportRoute.QuoteCell | app/api/export/route.ts:54 | the cell is wrapped in `"` |
| ExportRoute.QuoteAll | app/api/export/route.ts:54 | every cell of a row is quoted |
| ExportRoute.RowLines | app/api/export/route.ts:54 | one line per row |
| ExportRoute.Rows | app/api/export/route.ts:41 | one row per todo, in order |
| ExportRoute.CsvContent | app/api/export/route.ts:52-55 | the unquoted header alone when there are no todos; otherwise the header, `"\n"`, and the data lines joined by `"\n"`, with no trailing newline |
| ExportRoute.ParseQuotedBody | app/api/export/route.ts:54 | reading a quoted field consumes input |
| ExportRoute.ParseRecord | app/api/export/route.ts:54 | reading a record consumes input |
| ExportRoute.QuotedBodyRoundTrip | app/api/export/route.ts:54 | un-doubling a quoted body recovers the cell and leaves what follows the closing quote |
| ExportRoute.QuoteCellRoundTrip | app/api/export/route.ts:54 | stripping the outer quotes and un-doubling recovers the cell |
| ExportRoute.QuotedCellHead | app/api/export/route.ts:54 | a quoted cell opens with `"` and reads back as the cell |
| ExportRoute.RowLineRoundTrip | app/api/export/route.ts:54 | a data line reads back as exactly its cells |
| ExportRoute.RowLinesRoundTrip | app/api/export/route.ts:52-55 | the data lines read back as the rows, in order |
| ExportRoute.CsvRoundTrip | app/api/export/route.ts:39-55 | the document is the header line, then exactly one record per todo holding its 8 cells |
| ExportRoute.OwnedBy | app/api/export/route.ts:18-20 | exactly the rows of that user |
| ExportRoute.Export | app/api/export/route.ts:6-72 | 401 iff there is no session; CSV iff the format is `"csv"`; the todos are those of the `userId` parameter if truthy, else of the session user |

## Left out

- Network and database I/O: `fetch`, Prisma queries and the 500 responses of the `catch` blocks. Responses and table contents are parameters: a fetch outcome, a success flag, a server note, user rows and todo rows.
- Sessions and tokens: `getServerSession`, `getToken` and `useSession` become an optional session user or a token flag. Password hashing is not part of this model.
- Query-cache internals: `cancelQueries`, refetching after an invalidation, `keepPreviousData` and prefix matching beyond the two filters the app uses. An invalidation only marks entries stale, and a stale entry keeps its data.
- QueryCache.Cache.SetQueryData: what writing `undefined` does is not visible in the app, so it is the `undefinedClears` assumption. Both outcomes are stated.
- Rendering and UI effects: JSX, toasts, `confirm` (a boolean input), `scrollIntoView`, the open and close props of the dialogs and the scheduling of `useEffect`. `onClose` after a submit is not modelled. The dialogs' focus-and-caret callback is modelled as the recorded `caret`; only its `setTimeout` deferral is left out.
- TodoItem.FormatDescription: the markup goes to `dangerouslySetInnerHTML`, so a description holding `<` or `&` is read by the browser as HTML. The model does not parse HTML, and its text-content promise covers only descriptions without those characters.
- Character counting: Dafny strings are sequences of Unicode scalar values, while JavaScript's `.length`, indices and `substring` count UTF-16 code units. The two agree only on text within the Basic Multilingual Plane. Validations.ParseCreateTodo and Validations.ParseUpdateTodo count characters where zod's `.max(100)` and `.max(500)` count code units. The TodoForm mention functions take `selectionStart` and the `substring` offsets as character positions. Navbar.Heads takes `n[0]` as a whole character, where JavaScript yields a lone surrogate for a character outside that plane.
- ApiClient.ErrorMessage: three behaviours of the error path are not modelled. A JSON `null` error body makes `error.error` throw a `TypeError`. A truthy non-string `error` is turned into text by `new Error(...)`. `response.json()` can reject on a 2xx response.
- TodoList.OptimisticTodo: the optimistic todo does not carry `user: session?.user`. An absent description becomes `""`, whereas the spread leaves the field undefined.
- Time: `Date.now()` and `toISOString` become a stamp and a time-string parameter. The export file name is not modelled.
- JSON export: `JSON.stringify` is library formatting. The JSON response carries the selected todos as values.
- Sorting: rows arrive in the order the query asked for. Prisma's `orderBy` and the ordering of the priority enum are the database's.
- `extractMentions` lives in `lib/utils`, which is not part of this model. The create handler takes it as a function parameter. `TodosRoute.AssumedExtractMentions` is an assumed rule, the highlight scan of `@(\w+)`; nothing else depends on it.
- Email syntax: zod's `.email()` is an input flag to the login and signup predicates.
- Strings.Lower and Strings.Upper map ASCII letters only. Unicode case mapping and the database's insensitive mode are not modelled.
- TodosRoute.ListTodos requires `page` and `limit` to be absent or positive decimal numerals. `parseInt` on other text, `NaN`, 0 and negative values are not modelled.
- TodosRoute.Listed compares the priority filter with the priority's name. A string naming no priority may make the database query fail, and that error path is not modelled.
- TodosRoute.CreateTodo returns what it stores, not the re-read todo of lines 185-204. Tag rows are represented by their names.
- The update mutation's request body and the PATCH, DELETE, notes, users and signup endpoints are not part of this model. The same holds for the user switcher, the login page and the providers.
- `getInitials` in components/notes-view.tsx:65-73 is the same code as in components/navbar.tsx:19-27 and is modelled once, as Navbar.GetInitials.
- TodoList.TodoListView.RunUpdate: the throw of the update updater on an absent entry is modelled as the mutation failing without sending the request.
- ExportRoute.Export: the `userId` parameter selects any user's todos, as in the source. No ownership check is added.

## Findings

| source | as written | input that shows it | evidently intended | confidence | as-written member | corrected member |
|---|---|---|---|---|---|---|
| components/edit-todo-dialog.tsx:149-159 and components/create-todo-dialog.tsx:142-152 | the new caret is `atSignIndex + username.length + 2`; when no `@` precedes the caret, `atSignIndex` is -1, the text becomes `"@" + username + " " + after`, and the caret lands before the inserted space | create dialog: type `@al`, submit with the suggestions open and open the dialog again; `resetForm` cleared the description but not the suggestion state, so choosing `alice` gives `"@alice "` with the caret at 6 | the caret after the inserted space, at 7 | not executed | TodoForm.SelectMentionAsWritten, which both dialogs' handlers use (shown by TodoForm.SelectMentionCaretShort and CreateTodoDialog.SelectAfterSubmit) | TodoForm.SelectMention, proved equal to it whenever an `@` precedes the caret (TodoForm.SelectMentionAgrees) |

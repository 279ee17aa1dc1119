# Notes board — a verified model

This project models the notes board of the web application: the page
`app/notas/page.tsx` and its two dialogs, `components/notes/note-dialog.tsx`
and `components/notes/category-dialog.tsx`, over the records declared in
`types/notes.ts`.

The board keeps these lists and flags:

- a list of notes;
- a list of categories, which starts with "Roteiros", "Prompts" and "Outros";
- the note being dragged;
- which dialog is open, and on which note or category.

Its handlers replace those lists with new ones, computed with `find`, `some`,
`filter`, `map` and spread. The dialogs keep a working copy of what the user
types. On save they normalise it into a record and hand it back to the board.

How the model is organised:

- `options.dfy`: the `Option` type used for nullable values.
- `text.dfy`: JavaScript's `String.prototype.trim`.
  - White space is the ECMAScript WhiteSpace and LineTerminator sets.
  - Lemmas state what `trim` returns and when the result is empty.
- `lists.dfy`: the array operations as functions on sequences, with records compared by a key function (their id).
  - Insert-or-replace by id (`Upsert`) and delete by id (`RemoveKey`).
  - Lemmas on keys, uniqueness, order and idempotence.
- `records.dfy`: the `Note` and `Category` records, and the toasts (`Notification`).
  - A creation time is an integer timestamp.
- `note_dialog.dfy`: the record the note dialog saves (`SavedNote`).
  - The dialog is a class holding the working title and content.
  - Its handlers return, in order, the callback calls they make.
- `category_dialog.dfy`: the same for the category dialog.
  - The saved record is `SavedCategory`.
  - The toasts are part of the effects the handlers return.
- `notes_page.dfy`: the board.
  - Pure functions compute what the handlers and the page need: the column of a category (`Column`), whether its add button is enabled (`AddEnabled`), where a drop moves a note (`MoveTarget`) and the result of a category delete (`RemoveCategory`). Lemmas state what each result is.
  - A `Board` class holds the page state. Each handler's contract gives the whole new state as a function of the old one.
  - `ApplyNoteDialogEffect` and `ApplyCategoryDialogEffect` model how the page passes its handlers to the dialogs as props.
- `scenarios.dfy`: whole interactions made of board and dialog calls.
  - The sixth add to a full column is inert.
  - Adding a note and duplicating it.
  - Deleting a category that still has notes.
  - Renaming a category.

`Date.now().toString()` is a `freshId` parameter and `new Date()` is a
`now` parameter. Every toast is appended to a `notifications` log on the
board.

Deleting a category from its dialog: `handleDelete`
(`components/notes/category-dialog.tsx:56-66`) calls `onDelete`, closes
the dialog and shows its success toast, whatever the board does with the
request. So when the board refuses the delete, the board's error toast is
logged, then the dialog's success toast, and the dialog is closed
(`Scenarios.DeleteThroughDialog`, `Scenarios.DeleteUsedCategory`).

## Model

| member | source | states |
|---|---|---|
| Text.TrimStart | components/notes/note-dialog.tsx:33-34 | the leading white space `trim` removes is blank and what is left is a suffix of the input that does not start with white space |
| Text.TrimEnd | components/notes/note-dialog.tsx:33-34 | the trailing white space `trim` removes is blank and what is left is a prefix of the input that does not end with white space |
| Text.IsSpace | components/notes/note-dialog.tsx:33-34 | the code points `trim` removes: the ECMAScript WhiteSpace set (tab, vertical tab, form feed, space, no-break space, the byte order mark and the Unicode space separators) and the LineTerminator set |
| Text.Trim | components/notes/note-dialog.tsx:33-34 | `s.trim()` is no longer than `s` and neither of its ends is white space |
| Text.TrimIsSlice | components/notes/note-dialog.tsx:33-34 | `s.trim()` is a slice `s[a..b]` of the input, and what was cut off on either side is all white space |
| Text.TrimStartOfBlankPrefix | components/notes/note-dialog.tsx:33-34 | removing leading white space from blank text followed by a string that does not start with white space gives that string |
| Text.TrimEndOfBlankSuffix | components/notes/note-dialog.tsx:33-34 | removing trailing white space from a string that does not end with white space, followed by blank text, gives that string |
| Text.TrimOfPadded | components/notes/note-dialog.tsx:33-34 | `trim` is fully determined: a trimmed string surrounded by any blank text trims back to itself |
| Text.TrimIdempotent | components/notes/note-dialog.tsx:33-34 | trimming twice equals trimming once |
| Text.TrimEmptyIffBlank | components/notes/category-dialog.tsx:32 | `!name.trim()` holds exactly when the name is entirely white space (both directions) |
| Lists.FirstIndex | app/notas/page.tsx:67 | the index `find` stops at: its element satisfies the predicate, and no earlier one does |
| Lists.Find | app/notas/page.tsx:67 | `find` returns nothing exactly when no element satisfies the predicate (`some` is false); otherwise it returns the element at the first index that satisfies it (see `FirstIndex`: no earlier element does) |
| Lists.Filter | app/notas/page.tsx:76 | `filter` keeps exactly the elements that pass: each kept element is from the input and passes, and each passing input element is kept |
| Lists.MapWhere | app/notas/page.tsx:68 | the conditional `map` keeps the length and rewrites each element by its position: matching elements are rewritten, the others stay |
| Lists.Upsert | app/notas/page.tsx:66-71 | with the key present, the length is kept and every element with that key is replaced where it stands while the others stay; with the key absent, the old list is a prefix and the new element is appended last |
| Lists.RemoveKey | app/notas/page.tsx:75-77 | every element left does not have the removed key and was in the list; every element without that key is kept |
| Lists.FilterAppend | app/notas/page.tsx:76 | filtering a concatenation filters each part, so the relative order of what remains is kept |
| Lists.FilterAllPass | app/notas/page.tsx:76 | a filter that every element passes returns the list unchanged |
| Lists.FilterKeepsUnique | app/notas/page.tsx:76 | filtering a list with unique ids leaves the ids unique |
| Lists.RemoveKeyKeys | app/notas/page.tsx:76 | after deleting an id, the ids are the old ids without it |
| Lists.RemoveAbsentKey | app/notas/page.tsx:75-77 | deleting an id that no element has changes nothing |
| Lists.RemoveKeyKeepsUnique | app/notas/page.tsx:108 | deleting by id keeps the ids unique |
| Lists.UpsertKeys | app/notas/page.tsx:89-95 | after an upsert, the ids are the old ids plus the saved record's id |
| Lists.UpsertKeepsUnique | app/notas/page.tsx:66-71 | an upsert never creates a second record with an existing id |
| Lists.UpsertReplacesOne | app/notas/page.tsx:67-68 | with unique ids, saving a record whose id is at position k replaces exactly position k: same length, all other records unchanged and in order |
| Lists.UpsertIdempotent | app/notas/page.tsx:66-71 | saving the same record twice is the same as saving it once |
| Lists.UpsertThenFind | app/notas/page.tsx:66-71 | after saving a record, looking up its id finds that very record |
| Lists.FindByUniqueKey | app/notas/page.tsx:98 | with unique ids, looking up a record's id finds that record |
| Lists.MapWhereKeepsKeys | app/notas/page.tsx:129-133 | a conditional `map` that does not touch ids keeps each position's id, the set of ids and their uniqueness |
| NoteDialogs.UntitledTitleTrimmed | components/notes/note-dialog.tsx:33 | the default title "Sem título" is not blank and is already trimmed |
| NoteDialogs.SavedNote | components/notes/note-dialog.tsx:31-35 | the saved note keeps id, category and creation time; its content is the trimmed content; its title is the trimmed title, or "Sem título" exactly when the title is blank, so it is never empty and always trimmed |
| NoteDialogs.SavedNoteIdempotent | components/notes/note-dialog.tsx:29-38 | reopening a saved note and saving it unchanged gives the same note back |
| NoteDialogs.NoteDialog.constructor | components/notes/note-dialog.tsx:19-27 | the working title and content start as the note's, or empty without a note |
| NoteDialogs.NoteDialog.ChangeNote | components/notes/note-dialog.tsx:22-27 | a new non-null note reseeds the working title and content; a null note leaves them as they were |
| NoteDialogs.NoteDialog.ChangeViewMode | components/notes/note-dialog.tsx:18-27 | switching view mode leaves the working copy untouched |
| NoteDialogs.NoteDialog.TypeTitle | components/notes/note-dialog.tsx:50-56 | typing sets the title, except in view mode where the field is read-only; nothing else changes |
| NoteDialogs.NoteDialog.TypeContent | components/notes/note-dialog.tsx:57-63 | typing sets the content, except in view mode where the field is read-only; nothing else changes |
| NoteDialogs.NoteDialog.HandleSave | components/notes/note-dialog.tsx:29-38 | with a note: one `onSave` with the normalised note, then close; with no note: only close; closing is always last |
| NoteDialogs.NoteDialog.PressSave | components/notes/note-dialog.tsx:69-73 | in view mode there is no save button, so nothing happens; otherwise it is `handleSave` |
| NoteDialogs.NoteDialog.PressCancel | components/notes/note-dialog.tsx:66-68 | cancelling only closes the dialog and never saves |
| CategoryDialogs.SavedId | components/notes/category-dialog.tsx:41 | an edited category with a non-empty id keeps it; otherwise the fresh id is used, so a non-empty fresh id gives a non-empty id |
| CategoryDialogs.SavedCategory | components/notes/category-dialog.tsx:31-45 | no record exactly when the name is blank; otherwise the name is the trimmed name (non-empty and trimmed), the colour is kept as typed, the background is the colour followed by "10", and the id is chosen as in `SavedId` |
| CategoryDialogs.SavedCategoryStable | components/notes/category-dialog.tsx:31-45 | reopening a saved category and saving it unchanged gives the same record back |
| CategoryDialogs.CategoryDialog.constructor | components/notes/category-dialog.tsx:21-29 | the working name and colour come from a non-null category; without one they are "" and "#2563eb" |
| CategoryDialogs.CategoryDialog.ChangeCategory | components/notes/category-dialog.tsx:24-29 | a new non-null category reseeds the working name and colour; a null one leaves them as they were |
| CategoryDialogs.CategoryDialog.TypeName | components/notes/category-dialog.tsx:82-87 | typing sets the working name and nothing else |
| CategoryDialogs.CategoryDialog.PickColor | components/notes/category-dialog.tsx:93-103 | the picker and the hex field set the colour, unchecked, and nothing else |
| CategoryDialogs.CategoryDialog.HandleSave | components/notes/category-dialog.tsx:31-54 | a blank name gives one error toast and nothing else (no `onSave`, no close); otherwise exactly one `onSave` with the normalised record, then close, then the success toast |
| CategoryDialogs.CategoryDialog.HandleDelete | components/notes/category-dialog.tsx:56-66 | with no category nothing happens; otherwise `onDelete(id)`, then close, then the success toast, unconditionally |
| CategoryDialogs.CategoryDialog.PressDelete | components/notes/category-dialog.tsx:108-116 | the delete button exists only for a category with a non-empty id; pressing it is `handleDelete` |
| CategoryDialogs.CategoryDialog.PressCancel | components/notes/category-dialog.tsx:117-119 | cancelling only closes the dialog; it neither saves nor deletes |
| NotesPage.Column | app/notas/page.tsx:208-213 | a column shows only notes of the list filed under its name, and every such note |
| NotesPage.HasNotesIffColumnNotEmpty | app/notas/page.tsx:100 | `notes.some(note => note.category === name)` holds exactly when the column of `name` is not empty |
| NotesPage.ColumnSizeIsCount | app/notas/page.tsx:189 | the length of the filtered column equals the number of positions in the list holding a note filed under its name |
| NotesPage.NewNoteTitleTrimmed | app/notas/page.tsx:56 | the default title "Nova nota" is not blank and is already trimmed |
| NotesPage.Draft | app/notas/page.tsx:54-60 | the new note takes the fresh id, the column's category and the current time |
| NotesPage.DraftSavedUntouched | app/notas/page.tsx:53-64 | saving the draft untouched in the note dialog stores exactly the draft |
| NotesPage.Copy | app/notas/page.tsx:80-85 | the copy differs from the original only in id, title and creation time; it takes the fresh id and time, and its title starts with the original title and is longer by the length of " (cópia)" |
| NotesPage.Recategorise | app/notas/page.tsx:129-133 | the `map` keeps one note per note |
| NotesPage.RecategoriseFilesOnlyThatId | app/notas/page.tsx:129-133 | each note with the id is filed under the new name and every other note keeps its category; no field but the category changes |
| NotesPage.OwnsNote | app/notas/page.tsx:124-126 | the predicate `find` applies to each category: some note with the dropped-on id is filed under the category's name |
| NotesPage.AddEnabled | app/notas/page.tsx:189 | a column's add button is enabled exactly when fewer than 5 positions of the note list hold a note filed under its name, counted as a set of indices, not through `filter` |
| NotesPage.DropTarget | app/notas/page.tsx:124-126 | the drop column is a category some note with the dropped-on id is filed under, and the first such category in the list; there is none exactly when no category owns such a note |
| NotesPage.MoveTarget | app/notas/page.tsx:116-128 | no move without a drop target, without a note with the dragged id, or onto the dragged note's own category; when the dragged note and the drop column both exist, there is a move exactly when their categories differ, and it goes to the drop column |
| NotesPage.RemoveCategory | app/notas/page.tsx:97-110 | an unknown id changes nothing; the delete is refused exactly when some note is filed under the found category's name; otherwise the list is strictly shorter, without that id, and keeps every other category |
| NotesPage.FilterShrinks | app/notas/page.tsx:108 | a filter that drops an element of the list returns a strictly shorter list |
| NotesPage.SeededCategoriesUnique | app/notas/page.tsx:24-43 | the three seeded categories have distinct ids and distinct names |
| NotesPage.SeededBackgroundsDerived | app/notas/page.tsx:24-43 | every seeded background is its colour followed by "10" |
| NotesPage.CategoryChangesKeepDerivedBackgrounds | app/notas/page.tsx:89-110 | saving a category produced by the dialog, or deleting one, keeps every background equal to its colour followed by "10" |
| NotesPage.DeleteNoteProperties | app/notas/page.tsx:75-77 | deleting a note id removes every note with it and nothing else; the survivors keep their relative order; an absent id changes nothing; unique ids stay unique |
| NotesPage.AppendGrowsColumn | app/notas/page.tsx:70 | appending a note grows its column by one |
| NotesPage.SaveNewNote | app/notas/page.tsx:69-70 | saving a note with a new id appends it last (the old list is a prefix); its column grows by one even past the add limit; the ids gain exactly its id and stay unique |
| NotesPage.DuplicateAppendsCopy | app/notas/page.tsx:79-87 | duplicating appends one note after the unchanged list, with the fresh id and time, the title plus " (cópia)", and the same content and category; its column grows whatever its size; a fresh id keeps the ids unique |
| NotesPage.RenameStrandsNotes | app/notas/page.tsx:89-95 | with unique ids and names, saving a category under its id with a new name leaves no category with the old name, so its notes show in no column |
| NotesPage.DeleteCategoryIffUnused | app/notas/page.tsx:97-110 | with unique ids, deleting an existing category is refused exactly when some note is filed under its name; otherwise the category is gone |
| NotesPage.DropTargetOfNote | app/notas/page.tsx:124-126 | with unique note ids, the drop column of a note is the first category named like that note's category |
| NotesPage.OwnsNoteIff | app/notas/page.tsx:124-126 | with unique note ids, a category owns the dropped-on note exactly when it is named like that note's category |
| NotesPage.FirstIndexSamePredicate | app/notas/page.tsx:124-126 | `find` with two predicates that agree everywhere stops at the same index |
| NotesPage.DropOnOwnColumnIsNoop | app/notas/page.tsx:128 | with unique ids, dropping a note on a note of its own column moves nothing |
| NotesPage.DropOnOtherColumnMoves | app/notas/page.tsx:128-133 | with unique ids, dropping a note on a note of another existing column moves it into that column |
| NotesPage.MoveChangesOnlyDragged | app/notas/page.tsx:129-133 | with unique ids, a move changes only the dragged note's category; every other note and the order stay, and the ids are kept |
| NotesPage.Board.ActiveNote | app/notas/page.tsx:51 | the drag overlay shows nothing without a non-empty active id; otherwise the first note with that id, present whenever such a note exists |
| NotesPage.Board.constructor | app/notas/page.tsx:23-49 | a new board has no notes, the three seeded categories, nothing selected, open or dragged, and no toasts |
| NotesPage.Board.HandleAddNote | app/notas/page.tsx:53-64 | opens the dialog in edit mode on a draft titled "Nova nota" with empty content, the column's category, the fresh id and time; the notes are untouched |
| NotesPage.Board.PressAdd | app/notas/page.tsx:184-192 | when the column is full the button is inert and nothing changes; otherwise it is `handleAddNote` |
| NotesPage.Board.HandleSaveNote | app/notas/page.tsx:66-73 | the notes become the upsert of the saved note and the note dialog closes; nothing else changes |
| NotesPage.Board.HandleDeleteNote | app/notas/page.tsx:75-77 | the notes become the list without that id; nothing else changes |
| NotesPage.Board.HandleDuplicateNote | app/notas/page.tsx:79-87 | the copy is appended after the unchanged list; nothing else changes |
| NotesPage.Board.HandleSaveCategory | app/notas/page.tsx:89-95 | the categories become the upsert of the saved category; the notes and everything else stay, even on a rename |
| NotesPage.Board.HandleDeleteCategory | app/notas/page.tsx:97-110 | an unknown id changes nothing; a refused delete only adds the error toast; otherwise only the categories change, by removing that id |
| NotesPage.Board.HandleDragStart | app/notas/page.tsx:112-114 | the dragged id is recorded and nothing else changes |
| NotesPage.Board.HandleDragEnd | app/notas/page.tsx:116-139 | the dragged id is always cleared; without a move nothing else changes; with one, only the dragged note's category changes and a toast names the new column |
| NotesPage.Board.HandleViewNote | app/notas/page.tsx:141-145 | opens the dialog read-only on the note; nothing else changes |
| NotesPage.Board.EditNote | app/notas/page.tsx:219-223 | opens the dialog editable on the note; nothing else changes |
| NotesPage.Board.OpenCategorySettings | app/notas/page.tsx:196-199 | opens the category dialog on the column's category; nothing else changes |
| NotesPage.Board.ApplyNoteDialogEffect | app/notas/page.tsx:267-273 | the note dialog's `onSave` is `handleSaveNote` and its `onOpenChange` sets only the note dialog's open flag |
| NotesPage.Board.ApplyCategoryDialogEffect | app/notas/page.tsx:275-281 | the category dialog's `onSave` is `handleSaveCategory`, its `onDelete` is `handleDeleteCategory`, its `onOpenChange` sets only its open flag, and its toasts are logged |
| Scenarios.SaveFresh | app/notas/page.tsx:69-72 | saving a note with a new id appends it, closes the dialog, grows its column by one and leaves every other column as it was |
| Scenarios.SavedPaddedTitle | components/notes/note-dialog.tsx:33-34 | the typed title "  A " is saved as "A" |
| Scenarios.SixthAddIsInert | app/notas/page.tsx:189 | after five notes in "Roteiros", pressing its add button opens nothing and creates nothing |
| Scenarios.AddThroughDialog | app/notas/page.tsx:53-73 | add, type a title and save: the normalised draft is upserted and the dialog closed, or nothing at all happens when the column is full |
| Scenarios.AddThenDuplicate | app/notas/page.tsx:79-87 | adding "A" to "Roteiros" and duplicating it gives "A" and "A (cópia)", both in "Roteiros", with distinct ids |
| Scenarios.AddFirstNote | app/notas/page.tsx:53-73 | on a new board, adding a note to "Roteiros" with the typed title "  A " files exactly the note "A" there and closes the dialog |
| Scenarios.ApplyCloseAndToast | components/notes/category-dialog.tsx:47-53 | the close and the toast that end a save or a delete only close the category dialog and log the toast |
| Scenarios.DuplicateFirst | app/notas/page.tsx:79-87 | duplicating the single note "A" appends "A (cópia)" under the fresh id |
| Scenarios.PressDeleteInSettings | components/notes/category-dialog.tsx:56-66 | opening a column's settings and pressing delete asks for the delete, the close and the success toast, in that order |
| Scenarios.DeleteThroughDialog | components/notes/category-dialog.tsx:56-66 | the whole delete flow: the dialog always closes and shows its success toast; the categories change only when the board removes the category, and a refusal adds the board's error first |
| Scenarios.BoardWithPromptsNote | app/notas/page.tsx:66-73 | a new board after saving one note filed under "Prompts" |
| Scenarios.DeleteUsedCategory | app/notas/page.tsx:97-110 | deleting "Prompts" while a note is filed there keeps the categories and logs the board's error followed by the dialog's success toast |
| Scenarios.TypeNameInSettings | components/notes/category-dialog.tsx:31-54 | opening a column's settings, typing a name and saving gives the dialog's effects for that name |
| Scenarios.SaveThroughDialog | components/notes/category-dialog.tsx:31-54 | the whole edit flow: a blank name only adds the error and keeps the dialog open; otherwise the normalised category is upserted, the dialog closes and the success toast follows; the notes are never touched |
| Scenarios.SavedPaddedName | components/notes/category-dialog.tsx:40-45 | the typed name "Ideias " is saved as "Ideias", with the background derived from the colour |
| Scenarios.RenamedSeeds | app/notas/page.tsx:89-95 | saving "Prompts" as "Ideias " replaces it in place with "Ideias" and no category is named "Prompts" any more |
| Scenarios.RenameCategory | app/notas/page.tsx:89-95 | renaming "Prompts" to "Ideias" replaces it in place, and the note filed under "Prompts" is left in no column |

## Left out

- Rendering, animation and styling are not modelled: framer-motion, the drop-animation settings, CSS, the icons, and the dialogs' titles and descriptions.
- The drag library is not modelled: dnd-kit's `closestCenter` collision detection and sortable lists. A drop is given as the id of the note dropped on, or none.
- The `active.id as string` cast assumes dnd-kit ids are strings; the model takes them as strings.
- The toast library is not modelled. Each toast becomes an entry in an ordered log, and its `icon` option is dropped.
- The clock is a parameter. The source gives no guarantee that `Date.now()` ids are unique, so the lemmas that need unique ids or a fresh id state that as a precondition.
- Creation times are integers, not `Date` objects.
- The empty-column link "Criar primeira nota" (`app/notas/page.tsx:239-245`) calls `handleAddNote` directly. It is shown only on an empty column, where `PressAdd` is enabled and does the same, so it is not modelled separately.
- Closing a dialog with Escape or the overlay calls `onOpenChange(false)`, which is the same effect `PressCancel` yields; it is not modelled separately.
- The dialogs' `isOpen` prop only shows or hides the dialog. The open flags live on the board.
- `components/notes/note-card.tsx`, `components/header.tsx` and `app/conta/page.tsx` are not part of this model. They only render or forward callbacks.
- Hex colour validity is not modelled, because the source never checks it.
- NoteDialogs.NoteDialog.ChangeNote: reseeds the working copy on every call with a non-null note. React reruns the effect only when the prop's identity changes, which a model over values cannot see.
- CategoryDialogs.CategoryDialog.ChangeCategory: reseeds on every call with a non-null category, for the same reason as `ChangeNote`.
- Whether the dialog component stays mounted between openings is not modelled. The scenarios create a dialog each time one opens.

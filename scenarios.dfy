/**
 * Whole interactions as a user performs them: board handlers and dialog
 * handlers called in the order the page wires them together, with the
 * outcome each one ends in. They use only the contracts of the members
 * they call.
 */
module Scenarios {
  import opened Options
  import opened Lists
  import opened Records
  import opened NotesPage
  import Text
  import NoteDialogs
  import CategoryDialogs

  /** A note filed under `category`, for the scenarios below. */
  function Filed(id: string, category: string): Note {
    Note(id, "t", "", category, 0)
  }

  /** Saving a note under an id the board does not hold yet appends it and grows its column by one. */
  method SaveFresh(b: Board, n: Note)
    requires !Any(b.notes, KeyIs(NoteId, n.id))
    modifies b
    ensures b.State() == old(b.State()).(notes := old(b.notes) + [n], isNoteDialogOpen := false)
    ensures |Column(b.notes, n.category)| == |Column(old(b.notes), n.category)| + 1
    ensures forall name :: name != n.category ==> Column(b.notes, name) == Column(old(b.notes), name)
  {
    SaveNewNote(b.notes, n);
    forall name | name != n.category ensures Column(b.notes + [n], name) == Column(b.notes, name) {
      FilterAppend(b.notes, [n], InColumn(name));
      assert Filter([n], InColumn(name)) == [] + Filter([], InColumn(name));
    }
    b.HandleSaveNote(n);
  }

  /** The dialog turns the typed title "  A " into "A" and keeps the empty content. */
  lemma SavedPaddedTitle(n: Note)
    requires n.content == ""
    ensures NoteDialogs.SavedNote(n, "  A ", "") == n.(title := "A")
  {
    assert !Text.IsSpace('A');
    assert "  A " == "  " + "A" + " ";
    Text.TrimOfPadded("  ", "A", " ");
    assert !Text.IsBlank("  A ") by { assert !Text.IsSpace("  A "[2]); }
    Text.TrimEmptyIffBlank("");
  }

  /** Five notes in "Roteiros" disable its add button: a sixth press changes nothing. */
  method SixthAddIsInert() returns (b: Board)
    ensures |b.notes| == 5 && |Column(b.notes, "Roteiros")| == 5
    ensures !AddEnabled(b.notes, "Roteiros") && !b.isNoteDialogOpen && b.selectedNote.None?
  {
    b := new Board();
    var i := 0;
    while i < 5
      invariant 0 <= i <= 5
      invariant |b.notes| == i && |Column(b.notes, "Roteiros")| == i
      invariant forall j :: 0 <= j < i ==> b.notes[j].id == [('1' as int + j) as char]
      invariant !b.isNoteDialogOpen && b.selectedNote.None?
    {
      var id := [('1' as int + i) as char];
      assert !Any(b.notes, KeyIs(NoteId, id)) by {
        forall j | 0 <= j < |b.notes| ensures b.notes[j].id != id {
          assert b.notes[j].id[0] != id[0];
        }
      }
      SaveFresh(b, Filed(id, "Roteiros"));
      i := i + 1;
    }
    b.PressAdd("Roteiros", "6", 6);
  }

  /**
   * The add flow end to end: press a column's add button, type a title in
   * the dialog that opens on the draft, press save. When the button is
   * enabled the board ends up with the normalised draft upserted and the
   * dialog closed; when it is disabled nothing happens.
   */
  method AddThroughDialog(b: Board, category: string, freshId: string, now: Timestamp, typed: string)
    modifies b
    ensures AddEnabled(old(b.notes), category) ==>
      b.State() == old(b.State()).(notes := Upsert(old(b.notes), NoteDialogs.SavedNote(Draft(category, freshId, now), typed, ""), NoteId),
                                   selectedNote := Some(Draft(category, freshId, now)), isViewMode := false, isNoteDialogOpen := false)
    ensures !AddEnabled(old(b.notes), category) ==> b.State() == old(b.State())
  {
    if !AddEnabled(b.notes, category) {
      b.PressAdd(category, freshId, now);
      return;
    }
    b.PressAdd(category, freshId, now);
    var dialog := new NoteDialogs.NoteDialog(b.selectedNote, b.isViewMode);
    dialog.TypeTitle(typed);
    var effects := dialog.PressSave();
    b.ApplyNoteDialogEffect(effects[0]);
    b.ApplyNoteDialogEffect(effects[1]);
  }

  /**
   * Adding a note "A" to "Roteiros" through the dialog and duplicating it
   * leaves two notes in that column: "A" and "A (cópia)", with distinct ids.
   */
  method AddThenDuplicate() returns (b: Board)
    ensures |b.notes| == 2
    ensures b.notes[0].title == "A" && b.notes[1].title == "A (cópia)"
    ensures b.notes[0].category == "Roteiros" && b.notes[1].category == "Roteiros"
    ensures b.notes[0].id != b.notes[1].id
    ensures !b.isNoteDialogOpen
  {
    b := AddFirstNote();
    DuplicateFirst(b);
  }

  /** On a new board, adding a note to "Roteiros" through the dialog with the typed title "  A " files the note "A" there. */
  method AddFirstNote() returns (b: Board)
    ensures fresh(b)
    ensures b.notes == [Note("100", "A", "", "Roteiros", 100)] && !b.isNoteDialogOpen
  {
    b := new Board();
    var a := Note("100", "A", "", "Roteiros", 100);
    SavedPaddedTitle(Draft("Roteiros", "100", 100));
    assert Upsert([], a, NoteId) == [a];
    assert AddEnabled([], "Roteiros");
    AddThroughDialog(b, "Roteiros", "100", 100, "  A ");
  }

  /** Duplicating the single note "A" of the add scenario. */
  method DuplicateFirst(b: Board)
    requires b.notes == [Note("100", "A", "", "Roteiros", 100)] && !b.isNoteDialogOpen
    modifies b
    ensures b.notes == [Note("100", "A", "", "Roteiros", 100), Note("101", "A (cópia)", "", "Roteiros", 101)]
    ensures !b.isNoteDialogOpen
  {
    assert "A" + CopySuffix == "A (cópia)";
    b.HandleDuplicateNote(b.notes[0], "101", 101);
  }

  /** Opening a column's settings and pressing delete: the dialog asks to delete, close and report success. */
  method PressDeleteInSettings(b: Board, c: Category) returns (effects: seq<CategoryDialogs.Effect>)
    requires c.id != ""
    modifies b
    ensures b.State() == old(b.State()).(selectedCategory := Some(c), isCategoryDialogOpen := true)
    ensures effects == [CategoryDialogs.OnDelete(c.id), CategoryDialogs.OnOpenChange(false), CategoryDialogs.Notify(CategoryDialogs.CategoryDeleted)]
  {
    b.OpenCategorySettings(c);
    var dialog := new CategoryDialogs.CategoryDialog(b.selectedCategory);
    effects := dialog.PressDelete();
  }

  /** The two effects that end a successful save or a delete in the category dialog: close it, then show its toast. */
  method ApplyCloseAndToast(b: Board, close: CategoryDialogs.Effect, toast: CategoryDialogs.Effect)
    requires close == CategoryDialogs.OnOpenChange(false) && toast.Notify?
    modifies b
    ensures b.State() == old(b.State()).(isCategoryDialogOpen := false, notifications := old(b.notifications) + [toast.notification])
  {
    b.ApplyCategoryDialogEffect(close);
    b.ApplyCategoryDialogEffect(toast);
  }

  /**
   * The delete flow end to end: open a column's settings, press delete in
   * the category dialog. Whatever the board decides, the dialog closes and
   * its success toast follows the board's own outcome.
   */
  method DeleteThroughDialog(b: Board, c: Category)
    requires c.id != ""
    modifies b
    ensures b.isCategoryDialogOpen == false && b.selectedCategory == Some(c)
    ensures b.notes == old(b.notes)
    ensures RemoveCategory(old(b.notes), old(b.categories), c.id).Refused? ==>
      b.categories == old(b.categories) && b.notifications == old(b.notifications) + [CategoryInUse, CategoryDialogs.CategoryDeleted]
    ensures RemoveCategory(old(b.notes), old(b.categories), c.id).Removed? ==>
      b.categories == RemoveKey(old(b.categories), c.id, CategoryId) && b.notifications == old(b.notifications) + [CategoryDialogs.CategoryDeleted]
    ensures RemoveCategory(old(b.notes), old(b.categories), c.id).Unchanged? ==>
      b.categories == old(b.categories) && b.notifications == old(b.notifications) + [CategoryDialogs.CategoryDeleted]
  {
    var effects := PressDeleteInSettings(b, c);
    b.ApplyCategoryDialogEffect(effects[0]);
    ApplyCloseAndToast(b, effects[1], effects[2]);
  }

  /** A new board after saving one note filed under "Prompts". */
  method BoardWithPromptsNote() returns (b: Board)
    ensures fresh(b)
    ensures b.State() == View([Filed("n", "Prompts")], SeededCategories, None, None, false, false, None, false, [])
  {
    b := new Board();
    var n := Filed("n", "Prompts");
    assert Upsert([], n, NoteId) == [n];
    b.HandleSaveNote(n);
  }

  /**
   * Asking the category dialog to delete "Prompts" while a note is filed
   * there: the board refuses and raises its error, yet the dialog closes
   * and reports success, and the categories stay as they were.
   */
  method DeleteUsedCategory() returns (b: Board)
    ensures b.categories == SeededCategories
    ensures b.notifications == [CategoryInUse, CategoryDialogs.CategoryDeleted]
    ensures !b.isCategoryDialogOpen
  {
    b := BoardWithPromptsNote();
    var n := Filed("n", "Prompts");
    var prompts := SeededCategories[1];
    SeededCategoriesUnique();
    assert [n][0].category == prompts.name;
    DeleteCategoryIffUnused([n], SeededCategories, prompts);
    DeleteThroughDialog(b, prompts);
  }

  /** Opening a column's settings, typing a name and pressing save: the dialog's effects for that name. */
  method TypeNameInSettings(b: Board, c: Category, typed: string, freshId: string) returns (effects: seq<CategoryDialogs.Effect>)
    modifies b
    ensures b.State() == old(b.State()).(selectedCategory := Some(c), isCategoryDialogOpen := true)
    ensures var saved := CategoryDialogs.SavedCategory(Some(c), typed, c.color, freshId);
            && (saved.None? ==> effects == [CategoryDialogs.Notify(CategoryDialogs.NameRequired)])
            && (saved.Some? ==> effects == [CategoryDialogs.OnSave(saved.value), CategoryDialogs.OnOpenChange(false), CategoryDialogs.Notify(CategoryDialogs.CategorySaved)])
  {
    b.OpenCategorySettings(c);
    var dialog := new CategoryDialogs.CategoryDialog(b.selectedCategory);
    dialog.TypeName(typed);
    effects := dialog.HandleSave(freshId);
  }

  /**
   * The edit flow end to end: open a column's settings, type a name in the
   * category dialog, press save. A blank name only raises the dialog's
   * error and leaves it open; otherwise the board upserts the normalised
   * category, the dialog closes and reports success. The notes are never
   * touched, even when the name changed.
   */
  method SaveThroughDialog(b: Board, c: Category, typed: string, freshId: string)
    modifies b
    ensures b.notes == old(b.notes) && b.selectedCategory == Some(c)
    ensures Text.IsBlank(typed) ==>
      b.categories == old(b.categories) && b.isCategoryDialogOpen
      && b.notifications == old(b.notifications) + [CategoryDialogs.NameRequired]
    ensures !Text.IsBlank(typed) ==>
      b.categories == Upsert(old(b.categories), CategoryDialogs.SavedCategory(Some(c), typed, c.color, freshId).value, CategoryId)
      && !b.isCategoryDialogOpen && b.notifications == old(b.notifications) + [CategoryDialogs.CategorySaved]
  {
    var effects := TypeNameInSettings(b, c, typed, freshId);
    if Text.IsBlank(typed) {
      b.ApplyCategoryDialogEffect(effects[0]);
    } else {
      b.ApplyCategoryDialogEffect(effects[0]);
      ApplyCloseAndToast(b, effects[1], effects[2]);
    }
  }

  /** The category dialog turns the typed name "Ideias " into "Ideias". */
  lemma SavedPaddedName(c: Category, freshId: string)
    ensures CategoryDialogs.SavedCategory(Some(c), "Ideias ", c.color, freshId)
            == Some(Category(CategoryDialogs.SavedId(Some(c), freshId), "Ideias", c.color, c.color + "10"))
  {
    assert "Ideias " == [] + "Ideias" + " ";
    Text.TrimOfPadded([], "Ideias", " ");
    Text.TrimEmptyIffBlank("Ideias ");
  }

  /**
   * Saving "Prompts" under the typed name "Ideias " replaces it in place
   * with "Ideias", keeping its id and colour, and no category is named
   * "Prompts" any more.
   */
  lemma RenamedSeeds()
    ensures var saved := CategoryDialogs.SavedCategory(Some(SeededCategories[1]), "Ideias ", SeededCategories[1].color, "999");
            && saved.Some? && |SeededCategories| == 3
            && Upsert(SeededCategories, saved.value, CategoryId) == SeededCategories[1 := Category("2", "Ideias", "#0891b2", "#0891b210")]
            && forall i :: 0 <= i < |SeededCategories| ==> Upsert(SeededCategories, saved.value, CategoryId)[i].name != "Prompts"
  {
    var prompts := SeededCategories[1];
    var renamed := Category("2", "Ideias", "#0891b2", "#0891b210");
    assert prompts == Category("2", "Prompts", "#0891b2", "#0891b210");
    assert prompts.color + "10" == renamed.backgroundColor;
    SavedPaddedName(prompts, "999");
    assert CategoryDialogs.SavedCategory(Some(prompts), "Ideias ", prompts.color, "999") == Some(renamed);
    SeededCategoriesUnique();
    UpsertReplacesOne(SeededCategories, renamed, CategoryId, 1);
    RenameStrandsNotes(SeededCategories, SeededCategories[1], renamed);
  }

  /**
   * Renaming "Prompts" to "Ideias" in the category dialog replaces that
   * category in place, with its background derived from its colour, and
   * leaves the note filed under "Prompts" in no column.
   */
  method RenameCategory() returns (b: Board)
    ensures |b.categories| == 3 && b.categories[1] == Category("2", "Ideias", "#0891b2", "#0891b210")
    ensures b.notes == [Filed("n", "Prompts")]
    ensures forall i :: 0 <= i < |b.categories| ==> b.categories[i].name != "Prompts"
  {
    b := BoardWithPromptsNote();
    RenamedSeeds();
    assert !Text.IsBlank("Ideias ") by { assert !Text.IsSpace("Ideias "[0]); }
    SaveThroughDialog(b, SeededCategories[1], "Ideias ", "999");
    assert b.categories == SeededCategories[1 := Category("2", "Ideias", "#0891b2", "#0891b210")];
  }
}

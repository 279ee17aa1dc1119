/**
 * The notes board (app/notas/page.tsx): the page's state — the notes, the
 * categories, the note being dragged and the dialog selections — and the
 * handlers that replace it. Each handler computes the new lists with the
 * functions below and assigns them; the lemmas state what those lists are.
 */
module NotesPage {
  import opened Options
  import opened Lists
  import opened Records
  import Text
  import NoteDialogs
  import CategoryDialogs

  /** A column's add button is disabled once it holds this many notes. */
  const MaxNotesPerColumn: nat := 5

  const NewNoteTitle: string := "Nova nota"
  const CopySuffix: string := " (cópia)"

  const CategoryInUse: Notification := Notification(Error, "Erro", "Não é possível excluir uma categoria com notas")

  /** The toast after a successful move. */
  function NoteMoved(name: string): Notification {
    Notification(Success, "Nota movida", "Nota movida para " + name)
  }

  /** The three categories every board starts with. */
  const SeededCategories: seq<Category> := [
    Category("1", "Roteiros", "#2563eb", "#2563eb10"),
    Category("2", "Prompts", "#0891b2", "#0891b210"),
    Category("3", "Outros", "#4f46e5", "#4f46e510")
  ]

  /** The predicate `note => note.category === name`. */
  function InColumn(name: string): Note -> bool {
    (n: Note) => n.category == name
  }

  /** The notes shown in the column of category `name`: exactly the notes filed under `name`, in list order. */
  function Column(notes: seq<Note>, name: string): (r: seq<Note>)
    ensures |r| <= |notes|
    ensures forall i :: 0 <= i < |r| ==> r[i] in notes && r[i].category == name
    ensures forall i :: 0 <= i < |notes| && notes[i].category == name ==> notes[i] in r
  {
    Filter(notes, InColumn(name))
  }

  /** `notes.some(note => note.category === name)`: some note refers to the category named `name`. */
  predicate HasNotes(notes: seq<Note>, name: string) {
    Any(notes, InColumn(name))
  }

  /** A category has notes exactly when its column is not empty. */
  lemma HasNotesIffColumnNotEmpty(notes: seq<Note>, name: string)
    ensures HasNotes(notes, name) <==> Column(notes, name) != []
  {
    if HasNotes(notes, name) {
      var i :| 0 <= i < |notes| && InColumn(name)(notes[i]);
      assert notes[i] in Column(notes, name);
    }
    if Column(notes, name) != [] {
      var n := Column(notes, name)[0];
      var i :| 0 <= i < |notes| && notes[i] == n;
      assert InColumn(name)(notes[i]);
    }
  }

  /** The positions of the notes filed under `name`, counted without going through `filter`. */
  function ColumnIndices(notes: seq<Note>, name: string): set<nat> {
    set i: nat | i < |notes| && notes[i].category == name
  }

  /** A column shows as many notes as there are notes filed under its name. */
  lemma {:induction false} ColumnSizeIsCount(notes: seq<Note>, name: string)
    ensures |Column(notes, name)| == |ColumnIndices(notes, name)|
    decreases |notes|
  {
    if notes == [] {
      assert ColumnIndices(notes, name) == {};
    } else {
      var init, last := notes[..|notes| - 1], notes[|notes| - 1];
      assert notes == init + [last];
      ColumnSizeIsCount(init, name);
      ColumnOfSnoc(init, last, name);
      IndicesOfSnoc(init, last, name);
    }
  }

  /** Filing one more note at the end adds it to the end of its own column only. */
  lemma ColumnOfSnoc(init: seq<Note>, last: Note, name: string)
    ensures Column(init + [last], name) == Column(init, name) + (if last.category == name then [last] else [])
  {
    FilterAppend(init, [last], InColumn(name));
    assert [last][1..] == [];
  }

  /** Filing one more note at the end adds its position to the positions of its own column only. */
  lemma IndicesOfSnoc(init: seq<Note>, last: Note, name: string)
    ensures ColumnIndices(init + [last], name) == ColumnIndices(init, name) + (if last.category == name then {|init|} else {})
    ensures |init| !in ColumnIndices(init, name)
  {
    var notes := init + [last];
    forall i: nat | i < |init| ensures notes[i] == init[i] { }
  }

  /** The add button of the column `name` is enabled while fewer than five notes are filed under `name`. */
  function AddEnabled(notes: seq<Note>, name: string): (enabled: bool)
    ensures enabled <==> |ColumnIndices(notes, name)| < MaxNotesPerColumn
  {
    ColumnSizeIsCount(notes, name);
    |Column(notes, name)| < MaxNotesPerColumn
  }

  /** The default title of a new note is not blank and is already trimmed. */
  lemma NewNoteTitleTrimmed()
    ensures Text.Trim(NewNoteTitle) == NewNoteTitle && !Text.IsBlank(NewNoteTitle)
  {
    assert !Text.IsSpace(NewNoteTitle[0]) && !Text.IsSpace(NewNoteTitle[|NewNoteTitle| - 1]);
    assert [] + NewNoteTitle + [] == NewNoteTitle;
    Text.TrimOfPadded([], NewNoteTitle, []);
  }

  /** The draft `handleAddNote` opens the dialog with: the given id, category and time, titled "Nova nota" with no content. */
  function Draft(category: string, freshId: string, now: Timestamp): (r: Note)
    ensures r.id == freshId && r.category == category && r.createdAt == now
  {
    Note(freshId, NewNoteTitle, "", category, now)
  }

  /** Saving the draft untouched in the note dialog stores exactly the draft. */
  lemma DraftSavedUntouched(category: string, freshId: string, now: Timestamp)
    ensures var d := Draft(category, freshId, now); NoteDialogs.SavedNote(d, d.title, d.content) == d
  {
    NewNoteTitleTrimmed();
    Text.TrimEmptyIffBlank("");
  }

  /**
   * The copy `handleDuplicateNote` appends: only the id, the title and the
   * creation time differ from the original, and the title starts with the
   * original title.
   */
  function Copy(n: Note, freshId: string, now: Timestamp): (r: Note)
    ensures r.(id := n.id, title := n.title, createdAt := n.createdAt) == n
    ensures r.id == freshId && r.createdAt == now
    ensures |r.title| == |n.title| + |CopySuffix| && r.title[..|n.title|] == n.title
  {
    n.(id := freshId, title := n.title + CopySuffix, createdAt := now)
  }

  /** `notes.map(note => note.id === id ? { ...note, category: name } : note)`, one note per note. */
  function Recategorise(notes: seq<Note>, id: string, name: string): (r: seq<Note>)
    ensures |r| == |notes|
  {
    MapWhere(notes, KeyIs(NoteId, id), (n: Note) => n.(category := name))
  }

  /** Recategorising files the notes with that id under `name`, and nothing else changes. */
  lemma RecategoriseFilesOnlyThatId(notes: seq<Note>, id: string, name: string)
    ensures var r := Recategorise(notes, id, name);
            (forall i :: 0 <= i < |notes| ==> r[i].(category := notes[i].category) == notes[i])
            && (forall i :: 0 <= i < |notes| ==> r[i].category == if notes[i].id == id then name else notes[i].category)
  {
    var r := Recategorise(notes, id, name);
    forall i | 0 <= i < |notes|
      ensures r[i] == if notes[i].id == id then notes[i].(category := name) else notes[i]
    {
      assert KeyIs(NoteId, id)(notes[i]) == (NoteId(notes[i]) == id);
    }
  }

  /** The predicate `cat => notes.some(note => note.id === overId && note.category === cat.name)`. */
  function OwnsNote(notes: seq<Note>, overId: string): Category -> bool {
    (c: Category) => exists i :: 0 <= i < |notes| && notes[i].id == overId && notes[i].category == c.name
  }

  /**
   * The column a drop lands in: the first category whose name is the
   * category of a note with the id dropped on. Only notes are drop
   * targets, so a category no note refers to is never one.
   */
  function DropTarget(notes: seq<Note>, categories: seq<Category>, overId: string): (r: Option<Category>)
    ensures r.Some? ==> r.value in categories && HasNotes(notes, r.value.name)
    ensures r.Some? ==> exists i :: 0 <= i < |notes| && notes[i].id == overId && notes[i].category == r.value.name
    ensures r.None? <==> forall c :: c in categories ==> !OwnsNote(notes, overId)(c)
    ensures r.Some? ==> r.value == categories[FirstIndex(categories, OwnsNote(notes, overId))]
  {
    Find(categories, OwnsNote(notes, overId))
  }

  /**
   * The category `handleDragEnd` moves the dragged note into, or none when
   * the drop changes nothing: no drop target, no note with the dragged id,
   * no category for the target, or the note is already in it.
   */
  function MoveTarget(notes: seq<Note>, categories: seq<Category>, activeId: string, over: Option<string>): (r: Option<Category>)
    ensures over.None? ==> r.None?
    ensures !Any(notes, KeyIs(NoteId, activeId)) ==> r.None?
    ensures r.Some? ==> over.Some? && r == DropTarget(notes, categories, over.value)
    ensures r.Some? ==> exists i :: 0 <= i < |notes| && notes[i].id == activeId && notes[i].category != r.value.name
    ensures over.Some? && Find(notes, KeyIs(NoteId, activeId)).Some? && DropTarget(notes, categories, over.value).Some? ==>
              (r.Some? <==> Find(notes, KeyIs(NoteId, activeId)).value.category != DropTarget(notes, categories, over.value).value.name)
  {
    if over.None? then None
    else
      match (Find(notes, KeyIs(NoteId, activeId)), DropTarget(notes, categories, over.value))
      case (Some(a), Some(c)) => if a.category != c.name then Some(c) else None
      case _ => None
  }

  /** What `handleDeleteCategory` does with the category list. */
  datatype Removal = Unchanged | Refused | Removed(categories: seq<Category>)

  /**
   * Deleting category `id`: an unknown id changes nothing; the first
   * category with that id blocks the delete while some note refers to its
   * name; otherwise every category with that id goes.
   */
  function RemoveCategory(notes: seq<Note>, categories: seq<Category>, id: string): (r: Removal)
    ensures r.Unchanged? <==> !Any(categories, KeyIs(CategoryId, id))
    ensures r.Refused? <==> Find(categories, KeyIs(CategoryId, id)).Some?
                            && HasNotes(notes, Find(categories, KeyIs(CategoryId, id)).value.name)
    ensures r.Removed? ==> |r.categories| < |categories|
    ensures r.Removed? ==> forall i :: 0 <= i < |r.categories| ==> r.categories[i] in categories && r.categories[i].id != id
    ensures r.Removed? ==> forall i :: 0 <= i < |categories| && categories[i].id != id ==> categories[i] in r.categories
  {
    match Find(categories, KeyIs(CategoryId, id))
    case None => Unchanged
    case Some(c) =>
      if HasNotes(notes, c.name) then Refused
      else
        var rest := RemoveKey(categories, id, CategoryId);
        assert |rest| < |categories| by {
          assert c in categories && c !in rest;
          FilterShrinks(categories, KeyIsNot(CategoryId, id), c);
        }
        Removed(rest)
  }

  /** A filter that drops some element of the input is strictly shorter than the input. */
  lemma {:induction false} FilterShrinks<T>(xs: seq<T>, p: T -> bool, x: T)
    requires x in xs && !p(x)
    ensures |Filter(xs, p)| < |xs|
    decreases |xs|
  {
    if xs[0] != x {
      FilterShrinks(xs[1..], p, x);
    } else {
      assert |Filter(xs[1..], p)| <= |xs| - 1;
    }
  }

  /** The key two categories must not share for a rename to be unambiguous. */
  function CategoryName(c: Category): string { c.name }

  /** Every category's background is its colour with the alpha suffix, as the category dialog derives it. */
  predicate DerivedBackgrounds(categories: seq<Category>) {
    forall i :: 0 <= i < |categories| ==> categories[i].backgroundColor == categories[i].color + CategoryDialogs.BackgroundAlpha
  }

  /** The seeded categories have distinct ids and distinct names. */
  lemma SeededCategoriesUnique()
    ensures UniqueKeys(SeededCategories, CategoryId) && UniqueKeys(SeededCategories, CategoryName)
  {
    var s := SeededCategories;
    assert s[0].id[0] != s[1].id[0] && s[0].id[0] != s[2].id[0] && s[1].id[0] != s[2].id[0];
    assert s[0].name[0] != s[1].name[0] && s[0].name[0] != s[2].name[0] && s[1].name[0] != s[2].name[0];
  }

  /** The seeded backgrounds are derived from the seeded colours, as a save through the dialog would derive them. */
  lemma SeededBackgroundsDerived()
    ensures DerivedBackgrounds(SeededCategories)
  {
  }

  /**
   * Saving a category the dialog produced keeps every background derived
   * from its colour, and so does deleting one.
   */
  lemma CategoryChangesKeepDerivedBackgrounds(notes: seq<Note>, categories: seq<Category>, edited: Option<Category>,
                                              name: string, color: string, freshId: string, id: string)
    requires DerivedBackgrounds(categories)
    ensures var saved := CategoryDialogs.SavedCategory(edited, name, color, freshId);
            saved.Some? ==> DerivedBackgrounds(Upsert(categories, saved.value, CategoryId))
    ensures var r := RemoveCategory(notes, categories, id); r.Removed? ==> DerivedBackgrounds(r.categories)
  {
    var saved := CategoryDialogs.SavedCategory(edited, name, color, freshId);
    if saved.Some? {
      var u := Upsert(categories, saved.value, CategoryId);
      forall i | 0 <= i < |u| ensures u[i].backgroundColor == u[i].color + CategoryDialogs.BackgroundAlpha {
        if i < |categories| && categories[i].id != saved.value.id {
          assert u[i] == categories[i];
        }
      }
    }
    var r := RemoveCategory(notes, categories, id);
    if r.Removed? {
      forall i | 0 <= i < |r.categories|
        ensures r.categories[i].backgroundColor == r.categories[i].color + CategoryDialogs.BackgroundAlpha
      {
        var j :| 0 <= j < |categories| && categories[j] == r.categories[i];
      }
    }
  }

  /**
   * Deleting note `id` removes every note with that id and nothing else,
   * keeps the rest in their relative order (deleting from a concatenation
   * deletes from each part), and deleting an id no note has changes nothing.
   */
  lemma DeleteNoteProperties(notes: seq<Note>, id: string, k: nat)
    requires k <= |notes|
    ensures Keys(RemoveKey(notes, id, NoteId), NoteId) == Keys(notes, NoteId) - {id}
    ensures RemoveKey(notes, id, NoteId) == RemoveKey(notes[..k], id, NoteId) + RemoveKey(notes[k..], id, NoteId)
    ensures !Any(notes, KeyIs(NoteId, id)) ==> RemoveKey(notes, id, NoteId) == notes
    ensures UniqueKeys(notes, NoteId) ==> UniqueKeys(RemoveKey(notes, id, NoteId), NoteId)
  {
    RemoveKeyKeys(notes, id, NoteId);
    assert notes == notes[..k] + notes[k..];
    FilterAppend(notes[..k], notes[k..], KeyIsNot(NoteId, id));
    if !Any(notes, KeyIs(NoteId, id)) {
      RemoveAbsentKey(notes, id, NoteId);
    }
    if UniqueKeys(notes, NoteId) {
      RemoveKeyKeepsUnique(notes, id, NoteId);
    }
  }

  /** Appending a note adds one note to its column, whether or not the column was already full. */
  lemma {:induction false} AppendGrowsColumn(notes: seq<Note>, n: Note)
    ensures |Column(notes + [n], n.category)| == |Column(notes, n.category)| + 1
  {
    FilterAppend(notes, [n], InColumn(n.category));
    assert Filter([n], InColumn(n.category)) == [n] + Filter([], InColumn(n.category));
  }

  /**
   * Saving a note whose id is new appends it to the end (the old list is a
   * prefix of the new one) and grows its column by one even past the
   * add button's limit: the limit is not enforced by saving.
   */
  lemma SaveNewNote(notes: seq<Note>, n: Note)
    requires !Any(notes, KeyIs(NoteId, n.id))
    ensures Upsert(notes, n, NoteId) == notes + [n]
    ensures |Column(Upsert(notes, n, NoteId), n.category)| == |Column(notes, n.category)| + 1
    ensures Keys(Upsert(notes, n, NoteId), NoteId) == Keys(notes, NoteId) + {n.id}
    ensures UniqueKeys(notes, NoteId) ==> UniqueKeys(Upsert(notes, n, NoteId), NoteId)
  {
    var r := Upsert(notes, n, NoteId);
    assert r == r[..|notes|] + [r[|notes|]];
    AppendGrowsColumn(notes, n);
    UpsertKeys(notes, n, NoteId);
    if UniqueKeys(notes, NoteId) {
      UpsertKeepsUnique(notes, n, NoteId);
    }
  }

  /**
   * Duplicating appends one note after the unchanged list: it has the new
   * id and creation time, the title marked as a copy, and the original's
   * content and category. With a new id the ids stay unique, and the
   * column grows by one whatever its size.
   */
  lemma DuplicateAppendsCopy(notes: seq<Note>, n: Note, freshId: string, now: Timestamp)
    ensures var r := notes + [Copy(n, freshId, now)];
            |r| == |notes| + 1 && r[..|notes|] == notes
            && r[|notes|].id == freshId && r[|notes|].createdAt == now
            && r[|notes|].title == n.title + CopySuffix
            && r[|notes|].content == n.content && r[|notes|].category == n.category
    ensures |Column(notes + [Copy(n, freshId, now)], n.category)| == |Column(notes, n.category)| + 1
    ensures freshId !in Keys(notes, NoteId) ==>
            Keys(notes + [Copy(n, freshId, now)], NoteId) == Keys(notes, NoteId) + {freshId}
            && (UniqueKeys(notes, NoteId) ==> UniqueKeys(notes + [Copy(n, freshId, now)], NoteId))
  {
    var c := Copy(n, freshId, now);
    AppendGrowsColumn(notes, c);
    if freshId !in Keys(notes, NoteId) {
      assert !Any(notes, KeyIs(NoteId, freshId)) by {
        forall i | 0 <= i < |notes| ensures notes[i].id != freshId {
          assert notes[i] in notes;
        }
      }
      SaveNewNote(notes, c);
    }
  }

  /**
   * Renaming a category (saving a record with its id and a new name)
   * strands the notes filed under the old name: with names unique, no
   * category is called by it any more, so those notes show in no column.
   */
  lemma RenameStrandsNotes(categories: seq<Category>, before: Category, renamed: Category)
    requires UniqueKeys(categories, CategoryId) && UniqueKeys(categories, CategoryName)
    requires before in categories && renamed.id == before.id && renamed.name != before.name
    ensures forall i :: 0 <= i < |Upsert(categories, renamed, CategoryId)| ==>
              Upsert(categories, renamed, CategoryId)[i].name != before.name
  {
    var k :| 0 <= k < |categories| && categories[k] == before;
    UpsertReplacesOne(categories, renamed, CategoryId, k);
    forall i | 0 <= i < |categories| && i != k ensures categories[i].name != before.name {
      if i < k {
        assert CategoryName(categories[i]) != CategoryName(categories[k]);
      } else {
        assert CategoryName(categories[k]) != CategoryName(categories[i]);
      }
    }
  }

  /**
   * With unique ids, deleting an existing category is refused exactly when
   * some note is filed under its name; when it is not refused the category
   * is gone and the others stay.
   */
  lemma DeleteCategoryIffUnused(notes: seq<Note>, categories: seq<Category>, c: Category)
    requires UniqueKeys(categories, CategoryId) && c in categories
    ensures RemoveCategory(notes, categories, c.id).Refused? <==> HasNotes(notes, c.name)
    ensures !HasNotes(notes, c.name) ==>
              RemoveCategory(notes, categories, c.id) == Removed(RemoveKey(categories, c.id, CategoryId))
              && c !in RemoveKey(categories, c.id, CategoryId)
  {
    FindByUniqueKey(categories, c, CategoryId);
  }

  /** With unique ids, the drop target of a note is the first category named like that note's category. */
  lemma DropTargetOfNote(notes: seq<Note>, categories: seq<Category>, o: Note)
    requires UniqueKeys(notes, NoteId) && o in notes
    ensures DropTarget(notes, categories, o.id) == Find(categories, KeyIs(CategoryName, o.category))
  {
    var p := OwnsNote(notes, o.id);
    var q := KeyIs(CategoryName, o.category);
    var j :| 0 <= j < |notes| && notes[j] == o;
    forall c ensures p(c) == q(c) {
      OwnsNoteIff(notes, j, c);
    }
    assert FirstIndex(categories, p) == FirstIndex(categories, q) by {
      FirstIndexSamePredicate(categories, p, q);
    }
  }

  /** With unique ids, a category owns the note with the id of `notes[j]` exactly when it is named like that note's category. */
  lemma OwnsNoteIff(notes: seq<Note>, j: nat, c: Category)
    requires UniqueKeys(notes, NoteId) && j < |notes|
    ensures OwnsNote(notes, notes[j].id)(c) <==> c.name == notes[j].category
  {
    if OwnsNote(notes, notes[j].id)(c) {
      var i :| 0 <= i < |notes| && notes[i].id == notes[j].id && notes[i].category == c.name;
    }
    if c.name == notes[j].category {
      assert notes[j].id == notes[j].id && notes[j].category == c.name;
    }
  }

  /** `find` with two predicates that agree everywhere stops at the same place. */
  lemma {:induction false} FirstIndexSamePredicate<T>(xs: seq<T>, p: T -> bool, q: T -> bool)
    requires forall x :: p(x) == q(x)
    ensures FirstIndex(xs, p) == FirstIndex(xs, q)
    decreases |xs|
  {
    if xs != [] && !p(xs[0]) {
      FirstIndexSamePredicate(xs[1..], p, q);
    }
  }

  /** With unique ids, dropping a note on a note of its own column changes nothing. */
  lemma DropOnOwnColumnIsNoop(notes: seq<Note>, categories: seq<Category>, a: Note, o: Note)
    requires UniqueKeys(notes, NoteId) && a in notes && o in notes && a.category == o.category
    ensures MoveTarget(notes, categories, a.id, Some(o.id)).None?
  {
    FindByUniqueKey(notes, a, NoteId);
    DropTargetOfNote(notes, categories, o);
  }

  /**
   * With unique ids, dropping note `a` on a note `o` of another column
   * whose category exists moves `a` into `o`'s category.
   */
  lemma DropOnOtherColumnMoves(notes: seq<Note>, categories: seq<Category>, a: Note, o: Note)
    requires UniqueKeys(notes, NoteId) && a in notes && o in notes && a.category != o.category
    requires exists c :: c in categories && c.name == o.category
    ensures MoveTarget(notes, categories, a.id, Some(o.id)).Some?
    ensures MoveTarget(notes, categories, a.id, Some(o.id)).value.name == o.category
  {
    FindByUniqueKey(notes, a, NoteId);
    DropTargetOfNote(notes, categories, o);
    var c :| c in categories && c.name == o.category;
    assert CategoryName(c) == o.category;
    assert KeyIs(CategoryName, o.category)(c);
  }

  /**
   * With unique ids, a move rewrites the category of the dragged note `a`
   * alone: every other note and the order stay, and the ids are kept.
   */
  lemma MoveChangesOnlyDragged(notes: seq<Note>, a: Note, name: string)
    requires UniqueKeys(notes, NoteId) && a in notes
    ensures var r := Recategorise(notes, a.id, name);
            |r| == |notes| && UniqueKeys(r, NoteId) && Keys(r, NoteId) == Keys(notes, NoteId)
            && (forall i :: 0 <= i < |notes| && notes[i] != a ==> r[i] == notes[i])
            && (forall i :: 0 <= i < |notes| && notes[i] == a ==> r[i] == a.(category := name))
  {
    MapWhereKeepsKeys(notes, KeyIs(NoteId, a.id), (n: Note) => n.(category := name), NoteId);
    var r := Recategorise(notes, a.id, name);
    var j :| 0 <= j < |notes| && notes[j] == a;
    forall i | 0 <= i < |notes| && notes[i] != a ensures r[i] == notes[i] {
      assert i != j;
      assert NoteId(notes[i]) != NoteId(notes[j]);
    }
  }

  /** The board's whole state, as one value. */
  datatype View = View(
    notes: seq<Note>,
    categories: seq<Category>,
    selectedNote: Option<Note>,
    selectedCategory: Option<Category>,
    isNoteDialogOpen: bool,
    isCategoryDialogOpen: bool,
    activeId: Option<string>,
    isViewMode: bool,
    notifications: seq<Notification>)

  class Board {
    var notes: seq<Note>
    var categories: seq<Category>
    var selectedNote: Option<Note>
    var selectedCategory: Option<Category>
    var isNoteDialogOpen: bool
    var isCategoryDialogOpen: bool
    /** The id of the note being dragged; `null` between drags. */
    var activeId: Option<string>
    var isViewMode: bool
    /** Every toast raised so far, oldest first. */
    var notifications: seq<Notification>

    function State(): View
      reads this
    {
      View(notes, categories, selectedNote, selectedCategory, isNoteDialogOpen, isCategoryDialogOpen,
           activeId, isViewMode, notifications)
    }

    /** The initial `useState` values: no notes, the three seeded categories, nothing selected, open or dragged. */
    constructor ()
      ensures State() == View([], SeededCategories, None, None, false, false, None, false, [])
    {
      notes := [];
      categories := SeededCategories;
      selectedNote := None;
      selectedCategory := None;
      isNoteDialogOpen := false;
      isCategoryDialogOpen := false;
      activeId := None;
      isViewMode := false;
      notifications := [];
    }

    /** The note the drag overlay shows: the first note with the active id, while that id is set and non-empty. */
    function ActiveNote(): (r: Option<Note>)
      reads this
      ensures activeId.None? || activeId.value == "" ==> r.None?
      ensures r.Some? ==> r.value in notes && r.value.id == activeId.value
      ensures activeId.Some? && activeId.value != "" && Any(notes, KeyIs(NoteId, activeId.value)) ==> r.Some?
      ensures r.Some? ==> FirstIndex(notes, KeyIs(NoteId, activeId.value)) < |notes|
                          && r.value == notes[FirstIndex(notes, KeyIs(NoteId, activeId.value))]
    {
      if activeId.Some? && activeId.value != "" then
        var found := Find(notes, KeyIs(NoteId, activeId.value));
        assert found.Some? ==> KeyIs(NoteId, activeId.value)(found.value);
        assert found.Some? ==> NoteId(found.value) == activeId.value;
        found
      else None
    }

    /** `handleAddNote`: open the dialog in edit mode on a fresh draft; the note list is not touched. */
    method HandleAddNote(category: string, freshId: string, now: Timestamp)
      modifies this
      ensures State() == old(State()).(selectedNote := Some(Draft(category, freshId, now)), isViewMode := false, isNoteDialogOpen := true)
    {
      selectedNote := Some(Draft(category, freshId, now));
      isViewMode := false;
      isNoteDialogOpen := true;
    }

    /** Clicking a column's add button, which is disabled (inert) once the column holds five notes. */
    method PressAdd(category: string, freshId: string, now: Timestamp)
      modifies this
      ensures AddEnabled(old(notes), category) ==>
        State() == old(State()).(selectedNote := Some(Draft(category, freshId, now)), isViewMode := false, isNoteDialogOpen := true)
      ensures !AddEnabled(old(notes), category) ==> State() == old(State())
    {
      if AddEnabled(notes, category) {
        HandleAddNote(category, freshId, now);
      }
    }

    /** `handleSaveNote`: replace the notes with the note's id, or append it when there are none; then close the dialog. */
    method HandleSaveNote(note: Note)
      modifies this
      ensures State() == old(State()).(notes := Upsert(old(notes), note, NoteId), isNoteDialogOpen := false)
    {
      notes := Upsert(notes, note, NoteId);
      isNoteDialogOpen := false;
    }

    /** `handleDeleteNote`: drop every note with this id, unconditionally. */
    method HandleDeleteNote(id: string)
      modifies this
      ensures State() == old(State()).(notes := RemoveKey(old(notes), id, NoteId))
    {
      notes := RemoveKey(notes, id, NoteId);
    }

    /** `handleDuplicateNote`: append a copy of the note under a new id, whatever the column's size. */
    method HandleDuplicateNote(note: Note, freshId: string, now: Timestamp)
      modifies this
      ensures State() == old(State()).(notes := old(notes) + [Copy(note, freshId, now)])
    {
      notes := notes + [Copy(note, freshId, now)];
    }

    /** `handleSaveCategory`: upsert by id; the notes keep their category strings even when the name changed. */
    method HandleSaveCategory(category: Category)
      modifies this
      ensures State() == old(State()).(categories := Upsert(old(categories), category, CategoryId))
    {
      categories := Upsert(categories, category, CategoryId);
    }

    /** `handleDeleteCategory`: refused with one error toast while notes refer to the category; otherwise remove it. */
    method HandleDeleteCategory(id: string)
      modifies this
      ensures RemoveCategory(old(notes), old(categories), id).Unchanged? ==> State() == old(State())
      ensures RemoveCategory(old(notes), old(categories), id).Refused? ==>
        State() == old(State()).(notifications := old(notifications) + [CategoryInUse])
      ensures RemoveCategory(old(notes), old(categories), id).Removed? ==>
        State() == old(State()).(categories := RemoveKey(old(categories), id, CategoryId))
    {
      var category := Find(categories, KeyIs(CategoryId, id));
      if category.Some? {
        if HasNotes(notes, category.value.name) {
          notifications := notifications + [CategoryInUse];
          return;
        }
        categories := RemoveKey(categories, id, CategoryId);
      }
    }

    /** `handleDragStart`: remember the dragged note's id. */
    method HandleDragStart(active: string)
      modifies this
      ensures State() == old(State()).(activeId := Some(active))
    {
      activeId := Some(active);
    }

    /**
     * `handleDragEnd`: always clear the dragged id; when the drop resolves
     * to another category, move the dragged note there and raise a toast
     * naming it.
     */
    method HandleDragEnd(active: string, over: Option<string>)
      modifies this
      ensures activeId.None?
      ensures var t := MoveTarget(old(notes), old(categories), active, over);
        if t.None? then State() == old(State()).(activeId := None)
        else State() == old(State()).(activeId := None, notes := Recategorise(old(notes), active, t.value.name),
                                      notifications := old(notifications) + [NoteMoved(t.value.name)])
    {
      var target := MoveTarget(notes, categories, active, over);
      if target.Some? {
        var name := target.value.name;
        activeId, notes, notifications := None, Recategorise(notes, active, name), notifications + [NoteMoved(name)];
      } else {
        activeId := None;
      }
    }

    /** `handleViewNote`: open the dialog read-only on the note. */
    method HandleViewNote(note: Note)
      modifies this
      ensures State() == old(State()).(selectedNote := Some(note), isViewMode := true, isNoteDialogOpen := true)
    {
      selectedNote := Some(note);
      isViewMode := true;
      isNoteDialogOpen := true;
    }

    /** A card's edit action: open the dialog editable on the note. */
    method EditNote(note: Note)
      modifies this
      ensures State() == old(State()).(selectedNote := Some(note), isViewMode := false, isNoteDialogOpen := true)
    {
      selectedNote := Some(note);
      isViewMode := false;
      isNoteDialogOpen := true;
    }

    /** A column's settings button: open the category dialog on that category. */
    method OpenCategorySettings(category: Category)
      modifies this
      ensures State() == old(State()).(selectedCategory := Some(category), isCategoryDialogOpen := true)
    {
      selectedCategory := Some(category);
      isCategoryDialogOpen := true;
    }

    /** The note dialog's props: `onSave` is `handleSaveNote`, `onOpenChange` sets the note dialog's open flag. */
    method ApplyNoteDialogEffect(effect: NoteDialogs.Effect)
      modifies this
      ensures effect.OnSave? ==> State() == old(State()).(notes := Upsert(old(notes), effect.note, NoteId), isNoteDialogOpen := false)
      ensures effect.OnOpenChange? ==> State() == old(State()).(isNoteDialogOpen := effect.open)
    {
      match effect
      case OnSave(n) => HandleSaveNote(n);
      case OnOpenChange(open) => isNoteDialogOpen := open;
    }

    /**
     * The category dialog's props: `onSave` is `handleSaveCategory`,
     * `onDelete` is `handleDeleteCategory`, `onOpenChange` sets the category
     * dialog's open flag; its toasts join the board's.
     */
    method ApplyCategoryDialogEffect(effect: CategoryDialogs.Effect)
      modifies this
      ensures effect.OnSave? ==> State() == old(State()).(categories := Upsert(old(categories), effect.category, CategoryId))
      ensures effect.OnDelete? && RemoveCategory(old(notes), old(categories), effect.id).Unchanged? ==> State() == old(State())
      ensures effect.OnDelete? && RemoveCategory(old(notes), old(categories), effect.id).Refused? ==>
        State() == old(State()).(notifications := old(notifications) + [CategoryInUse])
      ensures effect.OnDelete? && RemoveCategory(old(notes), old(categories), effect.id).Removed? ==>
        State() == old(State()).(categories := RemoveKey(old(categories), effect.id, CategoryId))
      ensures effect.OnOpenChange? ==> State() == old(State()).(isCategoryDialogOpen := effect.open)
      ensures effect.Notify? ==> State() == old(State()).(notifications := old(notifications) + [effect.notification])
    {
      match effect
      case OnSave(c) => HandleSaveCategory(c);
      case OnDelete(id) => HandleDeleteCategory(id);
      case OnOpenChange(open) => isCategoryDialogOpen := open;
      case Notify(n) => notifications := notifications + [n];
    }
  }
}

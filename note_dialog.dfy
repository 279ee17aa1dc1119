/**
 * The note dialog (components/notes/note-dialog.tsx): a working copy of a
 * note's title and content, seeded from the `note` prop, and a save that
 * hands the normalised note back to the board.
 */
module NoteDialogs {
  import opened Options
  import opened Text
  import opened Records

  /** The title a note gets when the edited title is blank. */
  const UntitledTitle: string := "Sem título"

  /** The dialog's outward calls, in the order it makes them. */
  datatype Effect = OnSave(note: Note) | OnOpenChange(open: bool)

  /** The default title is already trimmed and not blank. */
  lemma UntitledTitleTrimmed()
    ensures Trim(UntitledTitle) == UntitledTitle && !IsBlank(UntitledTitle)
  {
    assert !IsSpace(UntitledTitle[0]);
    assert [] + UntitledTitle + [] == UntitledTitle;
    TrimOfPadded([], UntitledTitle, []);
  }

  /**
   * The note that save hands to `onSave`: the incoming note with the
   * trimmed title (or the default title when that is empty) and the
   * trimmed content; id, category and creation time are carried over.
   */
  function SavedNote(n: Note, title: string, content: string): (r: Note)
    ensures r.id == n.id && r.category == n.category && r.createdAt == n.createdAt
    ensures r.content == Trim(content) && IsTrimmed(r.content)
    ensures IsBlank(title) ==> r.title == UntitledTitle
    ensures !IsBlank(title) ==> r.title == Trim(title)
    ensures r.title != [] && IsTrimmed(r.title)
  {
    TrimEmptyIffBlank(title);
    UntitledTitleTrimmed();
    var t := Trim(title);
    n.(title := if t == [] then UntitledTitle else t, content := Trim(content))
  }

  /** Saving an already saved note again changes nothing: the normalisation is idempotent. */
  lemma SavedNoteIdempotent(n: Note, title: string, content: string)
    ensures var m := SavedNote(n, title, content); SavedNote(m, m.title, m.content) == m
  {
    var m := SavedNote(n, title, content);
    TrimIdempotent(content);
    if IsBlank(title) {
      UntitledTitleTrimmed();
    } else {
      TrimIdempotent(title);
      TrimEmptyIffBlank(title);
      TrimEmptyIffBlank(m.title);
    }
    var m2 := SavedNote(m, m.title, m.content);
    assert m2.title == m.title;
    assert m2.content == m.content;
  }

  class NoteDialog {
    /** The `note` prop: the board's selected note, or none. */
    var note: Option<Note>
    /** The `isViewMode` prop: fields are read-only and no save button is shown. */
    var isViewMode: bool
    /** The working copy. */
    var title: string
    var content: string

    /** Mounting: `useState(note?.title || '')` and `useState(note?.content || '')`; the mount effect reseeds the same values. */
    constructor (note: Option<Note>, isViewMode: bool)
      ensures this.note == note && this.isViewMode == isViewMode
      ensures note.Some? ==> title == note.value.title && content == note.value.content
      ensures note.None? ==> title == "" && content == ""
    {
      this.note := note;
      this.isViewMode := isViewMode;
      if note.Some? {
        title, content := note.value.title, note.value.content;
      } else {
        title, content := "", "";
      }
    }

    /** The parent passes a different `note`; the effect reseeds the working copy when it is non-null and keeps it otherwise. */
    method ChangeNote(n: Option<Note>)
      modifies this
      ensures note == n && isViewMode == old(isViewMode)
      ensures n.Some? ==> title == n.value.title && content == n.value.content
      ensures n.None? ==> title == old(title) && content == old(content)
    {
      note := n;
      if n.Some? {
        title, content := n.value.title, n.value.content;
      }
    }

    /** The parent passes a different `isViewMode`; it is not an effect dependency, so the working copy stays. */
    method ChangeViewMode(v: bool)
      modifies this
      ensures isViewMode == v && note == old(note) && title == old(title) && content == old(content)
    {
      isViewMode := v;
    }

    /** Typing in the title field; a read-only field (view mode) takes no input. */
    method TypeTitle(t: string)
      modifies this
      ensures title == if old(isViewMode) then old(title) else t
      ensures note == old(note) && isViewMode == old(isViewMode) && content == old(content)
    {
      if !isViewMode {
        title := t;
      }
    }

    /** Typing in the content field; a read-only field (view mode) takes no input. */
    method TypeContent(c: string)
      modifies this
      ensures content == if old(isViewMode) then old(content) else c
      ensures note == old(note) && isViewMode == old(isViewMode) && title == old(title)
    {
      if !isViewMode {
        content := c;
      }
    }

    /** `handleSave`: with a note, `onSave` once with the normalised note and then close; with none, only close. */
    method HandleSave() returns (effects: seq<Effect>)
      ensures |effects| >= 1 && effects[|effects| - 1] == OnOpenChange(false)
      ensures note.None? ==> effects == [OnOpenChange(false)]
      ensures note.Some? ==> effects == [OnSave(SavedNote(note.value, title, content)), OnOpenChange(false)]
    {
      if note.Some? {
        effects := [OnSave(SavedNote(note.value, title, content)), OnOpenChange(false)];
      } else {
        effects := [OnOpenChange(false)];
      }
    }

    /** Pressing "Salvar": the button exists only outside view mode, so in view mode nothing happens. */
    method PressSave() returns (effects: seq<Effect>)
      ensures isViewMode ==> effects == []
      ensures !isViewMode && note.None? ==> effects == [OnOpenChange(false)]
      ensures !isViewMode && note.Some? ==> effects == [OnSave(SavedNote(note.value, title, content)), OnOpenChange(false)]
    {
      if isViewMode {
        effects := [];
      } else {
        effects := HandleSave();
      }
    }

    /** Pressing "Cancelar" / "Fechar": close and hand nothing back, so the board's note stays as it was. */
    method PressCancel() returns (effects: seq<Effect>)
      ensures effects == [OnOpenChange(false)]
      ensures forall i :: 0 <= i < |effects| ==> !effects[i].OnSave?
    {
      effects := [OnOpenChange(false)];
    }
  }
}

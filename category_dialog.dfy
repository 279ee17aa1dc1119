/**
 * The category dialog (components/notes/category-dialog.tsx): a working
 * name and colour seeded from the `category` prop, a save that validates
 * and normalises them into a category record, and a delete that forwards
 * the category's id to the board.
 */
module CategoryDialogs {
  import opened Options
  import opened Text
  import opened Records

  /** The colour a dialog opened without a category starts from. */
  const DefaultColor: string := "#2563eb"

  /** Appended to a colour's hex string to give the column's translucent background. */
  const BackgroundAlpha: string := "10"

  const NameRequired: Notification := Notification(Error, "Erro", "O nome da categoria é obrigatório")
  const CategorySaved: Notification := Notification(Success, "Sucesso", "Categoria salva com sucesso")
  const CategoryDeleted: Notification := Notification(Success, "Sucesso", "Categoria excluída com sucesso")

  /** The dialog's outward calls and toasts, in the order it makes them. */
  datatype Effect = OnSave(category: Category) | OnDelete(id: string) | OnOpenChange(open: bool) | Notify(notification: Notification)

  /** `category?.id || Date.now().toString()`: an edited category keeps a non-empty id; otherwise the fresh one is used. */
  function SavedId(edited: Option<Category>, freshId: string): (id: string)
    ensures edited.Some? && edited.value.id != "" ==> id == edited.value.id
    ensures edited.None? || edited.value.id == "" ==> id == freshId
    ensures freshId != "" ==> id != ""
  {
    if edited.Some? && edited.value.id != "" then edited.value.id else freshId
  }

  /**
   * The record `handleSave` builds, or none when the name is blank: the
   * name is trimmed, the colour kept as typed (it is never validated) and
   * the background is the colour with the alpha suffix.
   */
  function SavedCategory(edited: Option<Category>, name: string, color: string, freshId: string): (r: Option<Category>)
    ensures r.None? <==> IsBlank(name)
    ensures r.Some? ==> r.value.name == Trim(name) && r.value.name != [] && IsTrimmed(r.value.name)
    ensures r.Some? ==> r.value.color == color && r.value.backgroundColor == color + BackgroundAlpha
    ensures r.Some? ==> r.value.id == SavedId(edited, freshId)
  {
    TrimEmptyIffBlank(name);
    if Trim(name) == [] then None
    else Some(Category(SavedId(edited, freshId), Trim(name), color, color + BackgroundAlpha))
  }

  /** A saved category is a fixed point of saving: reopening it and saving unchanged gives the same record back. */
  lemma SavedCategoryStable(edited: Option<Category>, name: string, color: string, freshId: string, otherId: string)
    requires freshId != ""
    requires SavedCategory(edited, name, color, freshId).Some?
    ensures var c := SavedCategory(edited, name, color, freshId).value;
            SavedCategory(Some(c), c.name, c.color, otherId) == Some(c)
  {
    var c := SavedCategory(edited, name, color, freshId).value;
    TrimIdempotent(name);
    TrimEmptyIffBlank(c.name);
  }

  class CategoryDialog {
    /** The `category` prop: the category being edited, or none. */
    var category: Option<Category>
    /** The working copy. */
    var name: string
    var color: string

    /**
     * Mounting: `useState(category?.name || '')` and
     * `useState(category?.color || '#2563eb')`, then the mount effect,
     * which reseeds both from a non-null category (so an empty colour is
     * kept as empty after all).
     */
    constructor (category: Option<Category>)
      ensures this.category == category
      ensures category.Some? ==> name == category.value.name && color == category.value.color
      ensures category.None? ==> name == "" && color == DefaultColor
    {
      this.category := category;
      name := if category.Some? then category.value.name else "";
      color := if category.Some? && category.value.color != "" then category.value.color else DefaultColor;
      new;
      if category.Some? {
        name, color := category.value.name, category.value.color;
      }
    }

    /** The parent passes a different `category`; the effect reseeds the working copy when it is non-null and keeps it otherwise. */
    method ChangeCategory(c: Option<Category>)
      modifies this
      ensures category == c
      ensures c.Some? ==> name == c.value.name && color == c.value.color
      ensures c.None? ==> name == old(name) && color == old(color)
    {
      category := c;
      if c.Some? {
        name, color := c.value.name, c.value.color;
      }
    }

    /** Typing in the name field. */
    method TypeName(n: string)
      modifies this
      ensures name == n && color == old(color) && category == old(category)
    {
      name := n;
    }

    /** The colour picker and the hex field both set the colour, unchecked. */
    method PickColor(c: string)
      modifies this
      ensures color == c && name == old(name) && category == old(category)
    {
      color := c;
    }

    /**
     * `handleSave`: a blank name raises one error toast and nothing else
     * (no `onSave`, the dialog stays open); otherwise `onSave` once with
     * the normalised record, then close, then a success toast.
     */
    method HandleSave(freshId: string) returns (effects: seq<Effect>)
      ensures SavedCategory(category, name, color, freshId).None? ==> effects == [Notify(NameRequired)]
      ensures SavedCategory(category, name, color, freshId).Some? ==>
                effects == [OnSave(SavedCategory(category, name, color, freshId).value), OnOpenChange(false), Notify(CategorySaved)]
    {
      var saved := SavedCategory(category, name, color, freshId);
      if saved.None? {
        effects := [Notify(NameRequired)];
      } else {
        effects := [OnSave(saved.value), OnOpenChange(false), Notify(CategorySaved)];
      }
    }

    /**
     * `handleDelete`: with no category nothing happens; otherwise
     * `onDelete(id)`, then close, then a success toast — whatever the
     * board then does with the request.
     */
    method HandleDelete() returns (effects: seq<Effect>)
      ensures category.None? ==> effects == []
      ensures category.Some? ==> effects == [OnDelete(category.value.id), OnOpenChange(false), Notify(CategoryDeleted)]
    {
      effects := [];
      if category.Some? {
        effects := [OnDelete(category.value.id), OnOpenChange(false), Notify(CategoryDeleted)];
      }
    }

    /** Pressing "Excluir categoria": the button exists only while the category has a non-empty id. */
    method PressDelete() returns (effects: seq<Effect>)
      ensures category.None? || category.value.id == "" ==> effects == []
      ensures category.Some? && category.value.id != "" ==> effects == [OnDelete(category.value.id), OnOpenChange(false), Notify(CategoryDeleted)]
    {
      if category.Some? && category.value.id != "" {
        effects := HandleDelete();
      } else {
        effects := [];
      }
    }

    /** Pressing "Cancelar": close, and save or delete nothing. */
    method PressCancel() returns (effects: seq<Effect>)
      ensures effects == [OnOpenChange(false)]
      ensures forall i :: 0 <= i < |effects| ==> !effects[i].OnSave? && !effects[i].OnDelete?
    {
      effects := [OnOpenChange(false)];
    }
  }
}

/** The two record shapes of the notes board (types/notes.ts) and the toast notifications it emits. */
module Records {

  /** `Date`, as milliseconds since the epoch; the model takes it as an input wherever the source reads the clock. */
  type Timestamp = int

  datatype Note = Note(id: string, title: string, content: string, category: string, createdAt: Timestamp)

  /** `category` of a note holds the `name` (not the `id`) of the category it belongs to. */
  datatype Category = Category(id: string, name: string, color: string, backgroundColor: string)

  /** The three toast kinds of the notifications collaborator. */
  datatype Kind = Info | Success | Error

  /** One fire-and-forget toast; the icon some toasts carry is presentation and not modelled. */
  datatype Notification = Notification(kind: Kind, title: string, description: string)

  /** The key the board finds, replaces and removes notes by. */
  function NoteId(n: Note): string { n.id }

  /** The key the board finds, replaces and removes categories by. */
  function CategoryId(c: Category): string { c.id }
}

/** The notes dialog (components/notes-view.tsx): unlike the note form inside
    a todo item it writes nothing into the cache before the request; a created
    note only marks the `["notes", todoId]` entry stale. Its `getInitials`
    is the helper modelled in `Navbar`. */
module NotesView {
  import opened Strings
  import opened Domain
  import opened QueryCache
  import TodoItem

  /** `note.user?.name || note.user?.username || "User"`. */
  function AuthorLabel(author: Option<User>): (shown: String)
    ensures shown != []
    ensures author.Some? && Truthy(author.value.name) ==> shown == author.value.name.value
    ensures author.Some? && !Truthy(author.value.name) && Truthy(author.value.username) ==> shown == author.value.username.value
    ensures author.None? || (!Truthy(author.value.name) && !Truthy(author.value.username)) ==> shown == "User"
  {
    match author
    case None => "User"
    case Some(u) => OrElse(u.name, OrElse(u.username, "User"))
  }

  class NotesPanel {
    const todoId: String
    const cache: Cache
    var noteContent: String
    var isAddingNote: bool

    ghost predicate Valid()
      reads this, cache
    {
      cache.Valid()
    }

    constructor (todoId: String, cache: Cache)
      requires cache.Valid()
      ensures Valid()
      ensures this.todoId == todoId && this.cache == cache
      ensures noteContent == [] && !isAddingNote
    {
      this.todoId := todoId;
      this.cache := cache;
      noteContent := [];
      isAddingNote := false;
    }

    /** `handleAddNote`: a blank draft submits nothing; otherwise the untrimmed draft is sent. */
    method HandleAddNote() returns (request: Option<TodoItem.NoteRequest>)
      ensures request.None? <==> IsBlank(noteContent)
      ensures request.Some? ==> request.value == TodoItem.NoteRequest(todoId, noteContent)
    {
      if Trim(noteContent) == [] {
        request := None;
      } else {
        request := Some(TodoItem.NoteRequest(todoId, noteContent));
      }
    }

    /** The mutation's outcome. No data is written into the cache either way.
        On success the notes entry is marked stale, the draft is cleared and
        the form closes; on failure only a message is shown. */
    method SettleCreateNote(succeeded: bool)
      requires Valid()
      modifies this, cache
      ensures Valid()
      ensures cache.entries == old(cache.entries)
      ensures succeeded ==> (cache.stale == old(cache.stale) + (set k | k in cache.entries && k == NotesOf(todoId))
                             && noteContent == [] && !isAddingNote)
      ensures !succeeded ==> (cache.stale == old(cache.stale)
                              && noteContent == old(noteContent) && isAddingNote == old(isAddingNote))
    {
      if succeeded {
        cache.InvalidateQueries(NotesFor(todoId));
        noteContent := [];
        isAddingNote := false;
      }
    }
  }
}

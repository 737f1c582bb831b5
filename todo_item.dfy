/** One todo in the list (components/todo-item.tsx): the optimistic note
    creation on the `["notes", id]` and `["todos"]` entries and its rollback,
    the optimistic removal in `handleDelete`, the guard on adding a note, the
    highlighting of `@` mentions in the description and the three-note preview. */
module TodoItem {
  import opened Strings
  import opened Domain
  import opened QueryCache
  import TodoList

  // ---------------------------------------------------------------------------
  // Optimistic note

  /** The placeholder note: a `temp-` id, the submitted content and this todo's id. */
  function OptimisticNote(todoId: String, content: String, stamp: nat, now: String, user: Option<User>): (n: Note)
    ensures TodoList.IsTempId(n.id)
    ensures n.content == content && n.todoId == todoId && n.author == user
  {
    Note(TodoList.TempPrefix + NatToString(stamp), content, todoId, now, user)
  }

  /** The notes updater `(old = []) => [...old, note]`: an absent entry counts as empty. */
  function AppendNote(prev: Option<seq<Note>>, n: Note): (r: seq<Note>)
    ensures |r| >= 1 && r[|r| - 1] == n
    ensures prev.Some? ==> r[..|r| - 1] == prev.value
    ensures prev.None? ==> r == [n]
  {
    match prev
    case Some(notes) => notes + [n]
    case None => [n]
  }

  /** `{ ...todo, notes: [...todo.notes, note] }`. */
  function WithNote(t: Todo, n: Note): (r: Todo)
    ensures r.notes == t.notes + [n]
    ensures r.(notes := t.notes) == t
  {
    t.(notes := t.notes + [n])
  }

  /** `todos.map(t => t.id === id ? u : t)`. */
  function ReplaceById(todos: seq<Todo>, id: String, u: Todo): (r: seq<Todo>)
    ensures |r| == |todos|
    ensures forall i :: 0 <= i < |todos| ==> r[i] == (if todos[i].id == id then u else todos[i])
  {
    if todos == [] then []
    else [if todos[0].id == id then u else todos[0]] + ReplaceById(todos[1..], id, u)
  }

  /** A second replacement of the same id overrides the first. */
  lemma {:induction false} ReplaceByIdTwice(todos: seq<Todo>, id: String, u: Todo, v: Todo)
    requires u.id == id
    ensures ReplaceById(ReplaceById(todos, id, u), id, v) == ReplaceById(todos, id, v)
  {
    var once := ReplaceById(todos, id, u);
    assert forall i :: 0 <= i < |todos| ==> (once[i].id == id <==> todos[i].id == id);
  }

  /** Replacing the entries of an id by the value they already hold changes nothing. */
  lemma {:induction false} ReplaceByIdSame(todos: seq<Todo>, id: String, v: Todo)
    requires forall i :: 0 <= i < |todos| && todos[i].id == id ==> todos[i] == v
    ensures ReplaceById(todos, id, v) == todos
  {
    var r := ReplaceById(todos, id, v);
    assert forall i :: 0 <= i < |todos| ==> r[i] == todos[i];
  }

  /** The `["todos"]` updaters of note creation and its rollback:
      `if (!old) return old` leaves an absent entry absent. */
  function ReplaceInTodos(prev: Option<TodosData>, id: String, u: Todo): (r: Option<TodosData>)
    ensures r.Some? <==> prev.Some?
    ensures r.Some? ==> (r.value.pagination == prev.value.pagination
                         && r.value.todos == ReplaceById(prev.value.todos, id, u))
  {
    match prev
    case Some(d) => Some(d.(todos := ReplaceById(d.todos, id, u)))
    case None => None
  }

  /** Optimistic write then rollback, on the `["todos"]` value: the entries with
      this todo's id end up holding the original `todo` prop, whatever they held
      before the write; they are back to their earlier value exactly when they
      already equalled the prop. */
  lemma {:induction false} NoteRollbackOnTodos(prev: Option<TodosData>, todo: Todo, n: Note)
    ensures var rolledBack := ReplaceInTodos(ReplaceInTodos(prev, todo.id, WithNote(todo, n)), todo.id, todo);
            rolledBack == ReplaceInTodos(prev, todo.id, todo)
            && ((prev.Some? && forall i :: 0 <= i < |prev.value.todos| && prev.value.todos[i].id == todo.id ==> prev.value.todos[i] == todo)
                ==> rolledBack == prev)
            && (prev.None? ==> rolledBack == None)
  {
    if prev.Some? {
      ReplaceByIdTwice(prev.value.todos, todo.id, WithNote(todo, n), todo);
      if forall i :: 0 <= i < |prev.value.todos| && prev.value.todos[i].id == todo.id ==> prev.value.todos[i] == todo {
        ReplaceByIdSame(prev.value.todos, todo.id, todo);
      }
    }
  }

  /** The `handleDelete` updater: guarded, unlike the list's own delete updater. */
  function RemoveFromTodos(prev: Option<TodosData>, id: String): (r: Option<TodosData>)
    ensures r.Some? <==> prev.Some?
    ensures r.Some? ==> (r.value.pagination == prev.value.pagination
                         && forall t :: t in r.value.todos <==> t in prev.value.todos && t.id != id)
  {
    match prev
    case Some(d) => Some(d.(todos := TodoList.RemoveById(d.todos, id)))
    case None => None
  }

  // ---------------------------------------------------------------------------
  // Mention highlighting: `description.replace(/@(\w+)/g, '<span …>@$1</span>')`

  /** A piece of the description: one character left as it is, or a mention
      (`@` and a maximal run of word characters). */
  datatype Segment = Plain(c: char) | MentionRun(word: String)

  /** Number of word characters at the start of `s`. */
  function WordRunLength(s: String): (n: nat)
    ensures n <= |s|
    ensures forall k :: 0 <= k < n ==> IsWordChar(s[k])
    ensures n < |s| ==> !IsWordChar(s[n])
  {
    if s != [] && IsWordChar(s[0]) then 1 + WordRunLength(s[1..]) else 0
  }

  /** One step of the left-to-right scan a global regular-expression replace
      performs: an `@` followed by word characters takes the whole run, any
      other character stands alone. Returns the segment and what is left. */
  function FirstSegment(s: String): (r: (Segment, String))
    requires s != []
    ensures |r.1| < |s|
    ensures RawText(r.0) != [] && RawText(r.0) + r.1 == s
    ensures r.0.MentionRun? ==>
              r.0.word != [] && (forall k :: 0 <= k < |r.0.word| ==> IsWordChar(r.0.word[k]))
              && (r.1 != [] ==> !IsWordChar(r.1[0]))
    ensures r.0 == Plain('@') && r.1 != [] ==> !IsWordChar(r.1[0])
  {
    if s[0] == '@' && |s| > 1 && IsWordChar(s[1]) then
      var n := WordRunLength(s[1..]);
      MentionSplit(s, n);
      (MentionRun(s[1..1 + n]), s[1 + n..])
    else
      assert s == [s[0]] + s[1..];
      (Plain(s[0]), s[1..])
  }

  /** An `@` and its run of word characters, then the rest: the rest does
      not open with a word character. */
  lemma MentionSplit(s: String, n: nat)
    requires |s| > 1 && s[0] == '@' && n == WordRunLength(s[1..])
    ensures 1 + n <= |s|
    ensures "@" + s[1..1 + n] + s[1 + n..] == s
    ensures forall k :: 1 <= k < 1 + n ==> IsWordChar(s[k])
    ensures s[1 + n..] != [] ==> !IsWordChar(s[1 + n..][0])
  {
    assert s == [s[0]] + s[1..];
    assert s[1..] == s[1..1 + n] + s[1 + n..];
    assert forall k :: 1 <= k < 1 + n ==> s[k] == s[1..][k - 1];
    assert s[1 + n..] != [] ==> s[1 + n..][0] == s[1..][n];
  }

  /** The scan: the segments of `s`, left to right. */
  function Scan(s: String): (segs: seq<Segment>)
    decreases |s|
  {
    if s == [] then []
    else
      var (seg, rest) := FirstSegment(s);
      [seg] + Scan(rest)
  }

  function RawText(seg: Segment): String {
    match seg
    case Plain(c) => [c]
    case MentionRun(w) => "@" + w
  }

  function Raw(segs: seq<Segment>): String {
    if segs == [] then [] else RawText(segs[0]) + Raw(segs[1..])
  }

  const OpenSpan: String := "<span class=\"text-primary font-medium\">"
  const CloseSpan: String := "</span>"

  /** The markup of one segment: a plain character stands for itself, and a
      mention is its text wrapped in the highlight span, which makes it longer. */
  function Rendered(seg: Segment): (html: String)
    ensures html == RawText(seg) || html == OpenSpan + RawText(seg) + CloseSpan
    ensures seg.MentionRun? <==> |html| > |RawText(seg)|
  {
    match seg
    case Plain(c) => [c]
    case MentionRun(w) => OpenSpan + "@" + w + CloseSpan
  }

  /** The markup of a scan: never shorter than the text, and of the same
      length exactly when nothing is highlighted, in which case it is the text. */
  function Render(segs: seq<Segment>): (html: String)
    ensures |html| >= |Raw(segs)|
    ensures |html| == |Raw(segs)| <==> forall i :: 0 <= i < |segs| ==> segs[i].Plain?
    ensures (forall i :: 0 <= i < |segs| ==> segs[i].Plain?) ==> html == Raw(segs)
  {
    if segs == [] then []
    else
      var html := Rendered(segs[0]) + Render(segs[1..]);
      assert forall i :: 1 <= i < |segs| ==> segs[i] == segs[1..][i - 1];
      html
  }


  /** The properties that pin the scan down: every mention is `@` followed by a
      non-empty run of word characters that is not followed by another word
      character, and an `@` left as plain text is not followed by a word character. */
  ghost predicate WellScanned(segs: seq<Segment>) {
    (forall i :: 0 <= i < |segs| && segs[i].MentionRun? ==>
        segs[i].word != [] && (forall k :: 0 <= k < |segs[i].word| ==> IsWordChar(segs[i].word[k])))
    && (forall i :: 0 <= i < |segs| - 1 && segs[i].MentionRun? ==> !IsWordChar(RawText(segs[i + 1])[0]))
    && (forall i :: 0 <= i < |segs| - 1 && segs[i] == Plain('@') ==> !(segs[i + 1].Plain? && IsWordChar(segs[i + 1].c)))
  }

  /** `Raw` of a segment followed by more segments. */
  lemma RawCons(seg: Segment, segs: seq<Segment>)
    ensures Raw([seg] + segs) == RawText(seg) + Raw(segs)
  {
    assert ([seg] + segs)[1..] == segs;
  }

  /** The scan neither drops nor adds text: taking the markup away gives the
      description back. */
  lemma {:induction false} ScanKeepsText(s: String)
    ensures Raw(Scan(s)) == s
    decreases |s|
  {
    if s != [] {
      var (seg, rest) := FirstSegment(s);
      ScanKeepsText(rest);
      RawCons(seg, Scan(rest));
    }
  }
  // ---------------------------------------------------------------------------
  // What the highlighted markup reads as

  /** The text a browser shows for markup made of the highlighter's own span
      tags and plain characters: the tags are dropped, everything else kept. */
  function SpanText(html: String): (text: String)
    ensures |text| <= |html|
    decreases |html|
  {
    if html == [] then []
    else if IsPrefix(OpenSpan, html) then SpanText(html[|OpenSpan|..])
    else if IsPrefix(CloseSpan, html) then SpanText(html[|CloseSpan|..])
    else [html[0]] + SpanText(html[1..])
  }

  /** A character that cannot open a tag reads as itself. */
  lemma SpanTextChar(c: char, rest: String)
    requires c != '<'
    ensures SpanText([c] + rest) == [c] + SpanText(rest)
  {
    var h := [c] + rest;
    assert h[0] == c && OpenSpan[0] == '<' && CloseSpan[0] == '<';
    assert h[1..] == rest;
  }

  /** Splitting off the first character of a non-empty prefix. */
  lemma PeelHead(w: String, rest: String)
    requires w != []
    ensures w + rest == [w[0]] + (w[1..] + rest)
    ensures w == [w[0]] + w[1..]
  {
  }

  /** Text without `<` reads as itself, whatever follows it. */
  lemma {:induction false} SpanTextPlain(w: String, rest: String)
    requires '<' !in w
    ensures SpanText(w + rest) == w + SpanText(rest)
    decreases |w|
  {
    if w == [] {
      assert w + rest == rest;
    } else {
      var c, tail := w[0], w[1..];
      assert c != '<' && '<' !in tail;
      calc {
        SpanText(w + rest);
        { PeelHead(w, rest); }
        SpanText([c] + (tail + rest));
        { SpanTextChar(c, tail + rest); }
        [c] + SpanText(tail + rest);
        { SpanTextPlain(tail, rest); }
        [c] + (tail + SpanText(rest));
        { PeelHead(w, SpanText(rest)); }
        w + SpanText(rest);
      }
    }
  }

  /** The closing tag reads as nothing. */
  lemma SpanTextClose(rest: String)
    ensures SpanText(CloseSpan + rest) == SpanText(rest)
  {
    var h := CloseSpan + rest;
    assert h[1] == '/' && OpenSpan[1] == 's';
    assert h[..|CloseSpan|] == CloseSpan;
    assert h[|CloseSpan|..] == rest;
  }

  /** A rendered segment reads as the text it was made from. */
  lemma RenderedText(seg: Segment, rest: String)
    requires '<' !in RawText(seg)
    ensures SpanText(Rendered(seg) + rest) == RawText(seg) + SpanText(rest)
  {
    match seg
    case Plain(c) =>
      SpanTextChar(c, rest);
    case MentionRun(w) =>
      var body := "@" + w;
      Regroup(OpenSpan, body, CloseSpan, rest);
      SpanTextOpen(body + (CloseSpan + rest));
      SpanTextPlain(body, CloseSpan + rest);
      SpanTextClose(rest);
  }

  lemma Regroup(a: String, b: String, c: String, d: String)
    ensures a + b + c + d == a + (b + (c + d))
  {
  }

  /** The opening tag reads as nothing. */
  lemma SpanTextOpen(rest: String)
    ensures SpanText(OpenSpan + rest) == SpanText(rest)
  {
    var h := OpenSpan + rest;
    assert h[..|OpenSpan|] == OpenSpan;
    assert h[|OpenSpan|..] == rest;
  }

  /** Rendered segments read as the text they were made from. */
  lemma {:induction false} RenderText(segs: seq<Segment>)
    requires '<' !in Raw(segs)
    ensures SpanText(Render(segs)) == Raw(segs)
  {
    if segs != [] {
      assert forall c :: c in RawText(segs[0]) || c in Raw(segs[1..]) ==> c in Raw(segs);
      RenderText(segs[1..]);
      RenderedText(segs[0], Render(segs[1..]));
    }
  }

  /** `formattedDescription`: a description with no markup characters reads,
      once highlighted, exactly as it was written. */
  function FormatDescription(description: String): (html: String)
    ensures '<' !in description && '&' !in description ==> SpanText(html) == description
  {
    ScanKeepsText(description);
    if '<' in description then Render(Scan(description))
    else
      RenderText(Scan(description));
      Render(Scan(description))
  }


  /** The first segment's text starts the string it was scanned from. */
  lemma ScanHead(s: String)
    requires s != []
    ensures Scan(s) != [] && RawText(Scan(s)[0])[0] == s[0]
  {
    var (seg, rest) := FirstSegment(s);
    assert Scan(s)[0] == seg;
    assert (RawText(seg) + rest)[0] == RawText(seg)[0];
  }

  /** A segment in front of well-scanned segments keeps them well scanned
      when it is well formed itself and fits the segment after it. */
  lemma WellScannedCons(seg: Segment, segs: seq<Segment>)
    requires WellScanned(segs)
    requires seg.MentionRun? ==> seg.word != [] && forall k :: 0 <= k < |seg.word| ==> IsWordChar(seg.word[k])
    requires seg.MentionRun? && segs != [] ==> !IsWordChar(RawText(segs[0])[0])
    requires seg == Plain('@') && segs != [] ==> !(segs[0].Plain? && IsWordChar(segs[0].c))
    ensures WellScanned([seg] + segs)
  {
    var all := [seg] + segs;
    assert forall i :: 1 <= i < |all| ==> all[i] == segs[i - 1];
  }

  /** Every segment the scan produces is well formed and mentions are maximal. */
  lemma {:induction false} ScanWellScanned(s: String)
    ensures WellScanned(Scan(s))
    decreases |s|
  {
    if s != [] {
      var (seg, rest) := FirstSegment(s);
      ScanWellScanned(rest);
      if rest != [] {
        ScanHead(rest);
        assert Scan(rest)[0].Plain? ==> Scan(rest)[0].c == RawText(Scan(rest)[0])[0];
      }
      WellScannedCons(seg, Scan(rest));
    }
  }

  /** The mention words of a description, in order: the `@(\w+)` rule. */
  function MentionWords(segs: seq<Segment>): (words: seq<String>)
    ensures |words| <= |segs|
    ensures forall w :: w in words <==> exists i :: 0 <= i < |segs| && segs[i] == MentionRun(w)
  {
    if segs == [] then []
    else
      var rest := MentionWords(segs[1..]);
      assert forall i :: 1 <= i < |segs| ==> segs[i] == segs[1..][i - 1];
      assert forall w :: (exists i :: 0 <= i < |segs[1..]| && segs[1..][i] == MentionRun(w)) ==>
                           exists i :: 0 <= i < |segs| && segs[i] == MentionRun(w) by {
        forall w, i | 0 <= i < |segs[1..]| && segs[1..][i] == MentionRun(w)
          ensures segs[i + 1] == MentionRun(w)
        {
        }
      }
      if segs[0].MentionRun? then [segs[0].word] + rest
      else rest
  }

  /** The words of two runs of segments are the words of the first run, then
      those of the second: the captured words keep the description's order. */
  lemma {:induction false} MentionWordsConcat(a: seq<Segment>, b: seq<Segment>)
    ensures MentionWords(a + b) == MentionWords(a) + MentionWords(b)
    decreases |a|
  {
    if a != [] {
      assert (a + b)[0] == a[0];
      assert (a + b)[1..] == a[1..] + b;
      MentionWordsConcat(a[1..], b);
    } else {
      assert a + b == b;
    }
  }

  // ---------------------------------------------------------------------------
  // The details view shows at most three notes

  function PreviewNotes(notes: seq<Note>): (shown: seq<Note>)
    ensures |shown| == if |notes| < 3 then |notes| else 3
    ensures shown == notes[..|shown|]
  {
    if |notes| <= 3 then notes else notes[..3]
  }

  /** The count in "View n more notes…", shown only when there are more than three. */
  function MoreNotesCount(notes: seq<Note>): (more: Option<nat>)
    ensures more.Some? <==> |notes| > 3
    ensures more.Some? ==> more.value == |notes| - |PreviewNotes(notes)|
  {
    if |notes| > 3 then Some(|notes| - 3) else None
  }

  // ---------------------------------------------------------------------------
  // The component's state and handlers

  datatype NoteRequest = NoteRequest(todoId: String, content: String)

  /** What the `DELETE` fetch did: threw, or resolved with some status. */
  datatype FetchOutcome = Threw | Responded(status: int)

  class TodoItemView {
    const todo: Todo
    const cache: Cache
    const sessionUser: Option<User>
    var noteContent: String
    var isAddNoteDialogOpen: bool
    var isDeleting: bool

    ghost predicate Valid()
      reads this, cache
    {
      cache.Valid()
    }

    constructor (todo: Todo, cache: Cache, sessionUser: Option<User>)
      requires cache.Valid()
      ensures Valid()
      ensures this.todo == todo && this.cache == cache && this.sessionUser == sessionUser
      ensures noteContent == [] && !isAddNoteDialogOpen && !isDeleting
    {
      this.todo := todo;
      this.cache := cache;
      this.sessionUser := sessionUser;
      noteContent := [];
      isAddNoteDialogOpen := false;
      isDeleting := false;
    }

    /** `handleAddNote`: nothing is submitted when the draft is blank; otherwise
        the draft is submitted untrimmed. */
    method HandleAddNote() returns (request: Option<NoteRequest>)
      ensures request.None? <==> IsBlank(noteContent)
      ensures request.Some? ==> request.value == NoteRequest(todo.id, noteContent)
    {
      if Trim(noteContent) == [] {
        request := None;
      } else {
        request := Some(NoteRequest(todo.id, noteContent));
      }
    }

    /** `createNoteMutation.onMutate`: snapshot the notes entry, append the
        placeholder note to it, and put the todo with that note in place of the
        cached todo with this id. */
    method CreateNoteOnMutate(content: String, stamp: nat, now: String) returns (previousNotes: Option<CacheData>, updatedTodo: Todo)
      requires Valid()
      modifies cache
      ensures Valid()
      ensures previousNotes == Read(old(cache.entries), NotesOf(todo.id))
      ensures updatedTodo == WithNote(todo, OptimisticNote(todo.id, content, stamp, now, sessionUser))
      ensures var notesAfter := NotesValue(AppendNote(old(cache.GetNotes(NotesOf(todo.id))), OptimisticNote(todo.id, content, stamp, now, sessionUser)));
              var todosAfter := ReplaceInTodos(old(cache.GetTodos(AllTodos)), todo.id, updatedTodo);
              cache.entries == (if todosAfter.Some?
                                then old(cache.entries)[NotesOf(todo.id) := notesAfter][AllTodos := TodosValue(todosAfter.value)]
                                else old(cache.entries)[NotesOf(todo.id) := notesAfter])
      ensures cache.stale == old(cache.stale) - {NotesOf(todo.id), AllTodos}
    {
      previousNotes := cache.GetQueryData(NotesOf(todo.id));
      var note := OptimisticNote(todo.id, content, stamp, now, sessionUser);
      var notes := AppendNote(cache.GetNotes(NotesOf(todo.id)), note);
      cache.SetQueryData(NotesOf(todo.id), Some(NotesValue(notes)));
      updatedTodo := WithNote(todo, note);
      var todos := ReplaceInTodos(cache.GetTodos(AllTodos), todo.id, updatedTodo);
      cache.SetQueryData(AllTodos, if todos.Some? then Some(TodosValue(todos.value)) else None);
    }

    /** `createNoteMutation.onError`: write the notes snapshot back and put the
        original `todo` prop in place of the cached todo with this id. */
    method CreateNoteOnError(previousNotes: Option<CacheData>)
      requires Valid()
      requires previousNotes.Some? ==> previousNotes.value.NotesValue?
      modifies cache
      ensures Valid()
      ensures var restored := Written(old(cache.entries), NotesOf(todo.id), previousNotes, cache.undefinedClears);
              var todosAfter := ReplaceInTodos(old(cache.GetTodos(AllTodos)), todo.id, todo);
              cache.entries == (if todosAfter.Some? then restored[AllTodos := TodosValue(todosAfter.value)] else restored)
      ensures cache.stale == if previousNotes.Some? || cache.undefinedClears
                             then old(cache.stale) - {NotesOf(todo.id), AllTodos}
                             else old(cache.stale) - {AllTodos}
    {
      cache.SetQueryData(NotesOf(todo.id), previousNotes);
      var todos := ReplaceInTodos(cache.GetTodos(AllTodos), todo.id, todo);
      cache.SetQueryData(AllTodos, if todos.Some? then Some(TodosValue(todos.value)) else None);
    }

    /** `createNoteMutation.onSuccess`: mark the notes entry stale, clear the
        draft, close the dialog and hand the todo with the server's note to `onUpdate`. */
    method CreateNoteOnSuccess(serverNote: Note) returns (forUpdate: Todo)
      requires Valid()
      modifies this, cache
      ensures Valid()
      ensures cache.entries == old(cache.entries)
      ensures cache.stale == old(cache.stale) + (set k | k in cache.entries && k == NotesOf(todo.id))
      ensures noteContent == [] && !isAddNoteDialogOpen && isDeleting == old(isDeleting)
      ensures forUpdate == WithNote(todo, serverNote)
    {
      cache.InvalidateQueries(NotesFor(todo.id));
      noteContent := [];
      isAddNoteDialogOpen := false;
      forUpdate := WithNote(todo, serverNote);
    }

    /** The whole note creation: `serverNote` is the created note, or absent when the request failed. */
    method RunCreateNote(content: String, stamp: nat, now: String, serverNote: Option<Note>)
      returns (phase: TodoList.Phase, forUpdate: Option<Todo>)
      requires Valid()
      modifies this, cache
      ensures Valid()
      ensures phase == (if serverNote.Some? then TodoList.Succeeded else TodoList.Failed)
      ensures forUpdate.Some? <==> serverNote.Some?
      ensures isDeleting == old(isDeleting)
      ensures serverNote.Some? ==> forUpdate.value == WithNote(todo, serverNote.value) && noteContent == [] && !isAddNoteDialogOpen
      ensures serverNote.Some? ==>
              Read(cache.entries, NotesOf(todo.id)) == Some(NotesValue(AppendNote(old(cache.GetNotes(NotesOf(todo.id))), OptimisticNote(todo.id, content, stamp, now, sessionUser))))
              && cache.GetTodos(AllTodos) == ReplaceInTodos(old(cache.GetTodos(AllTodos)), todo.id, WithNote(todo, OptimisticNote(todo.id, content, stamp, now, sessionUser)))
              && cache.stale == old(cache.stale) - {AllTodos} + {NotesOf(todo.id)}
      ensures serverNote.None? ==>
              (NotesOf(todo.id) in old(cache.entries) || cache.undefinedClears ==>
                 Read(cache.entries, NotesOf(todo.id)) == Read(old(cache.entries), NotesOf(todo.id)))
              && (NotesOf(todo.id) !in old(cache.entries) && !cache.undefinedClears ==>
                 Read(cache.entries, NotesOf(todo.id)) == Some(NotesValue([OptimisticNote(todo.id, content, stamp, now, sessionUser)])))
              && cache.GetTodos(AllTodos) == ReplaceInTodos(old(cache.GetTodos(AllTodos)), todo.id, todo)
              && cache.stale == old(cache.stale) - {NotesOf(todo.id), AllTodos}
              && noteContent == old(noteContent) && isAddNoteDialogOpen == old(isAddNoteDialogOpen)
      ensures forall k :: k != AllTodos && k != NotesOf(todo.id) ==>
                (k in cache.entries <==> k in old(cache.entries)) && (k in cache.entries ==> cache.entries[k] == old(cache.entries)[k])
    {
      phase := TodoList.Pending;
      ghost var before := cache.entries;
      ghost var todosBefore := cache.GetTodos(AllTodos);
      var previousNotes, updatedTodo := CreateNoteOnMutate(content, stamp, now);
      if serverNote.Some? {
        var t := CreateNoteOnSuccess(serverNote.value);
        forUpdate := Some(t);
        phase := TodoList.Succeeded;
      } else {
        CreateNoteOnError(previousNotes);
        NoteRollbackOnTodos(todosBefore, todo, OptimisticNote(todo.id, content, stamp, now, sessionUser));
        forUpdate := None;
        phase := TodoList.Failed;
      }
    }

    /** `handleDelete`. Without confirmation nothing happens. Otherwise the todo
        is taken out of `["todos"]` before the request, with no snapshot; a
        request that resolves, whatever its status, goes on to `onDelete`, and
        only a thrown request marks the todos entries stale instead. */
    method HandleDelete(confirmed: bool, fetch: FetchOutcome) returns (deleted: Option<String>)
      requires Valid()
      modifies this, cache
      ensures Valid()
      ensures !confirmed ==> deleted.None? && cache.entries == old(cache.entries)
                             && cache.stale == old(cache.stale) && isDeleting == old(isDeleting)
      ensures confirmed ==> !isDeleting
      ensures confirmed ==> cache.GetTodos(AllTodos) == RemoveFromTodos(old(cache.GetTodos(AllTodos)), todo.id)
      ensures confirmed ==> (deleted.Some? <==> fetch.Responded?)
      ensures deleted.Some? ==> deleted.value == todo.id
      ensures confirmed && fetch.Threw? ==> forall k :: k in cache.entries && IsTodosKey(k) ==> k in cache.stale
      ensures forall k :: k != AllTodos ==>
                (k in cache.entries <==> k in old(cache.entries)) && (k in cache.entries ==> cache.entries[k] == old(cache.entries)[k])
    {
      deleted := None;
      if !confirmed {
        return;
      }
      isDeleting := true;
      var todos := RemoveFromTodos(cache.GetTodos(AllTodos), todo.id);
      cache.SetQueryData(AllTodos, if todos.Some? then Some(TodosValue(todos.value)) else None);
      match fetch {
        case Responded(_) =>
          deleted := Some(todo.id);
        case Threw =>
          cache.InvalidateQueries(TodosFamily);
      }
      isDeleting := false;
    }
  }
}

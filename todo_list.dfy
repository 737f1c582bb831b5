/** The todo list component (components/todo-list.tsx): the list-level
    optimistic mutations on the shared query cache, the tag vocabulary it
    derives from the cache, the parameters of its list query and its
    pagination display.

    The three mutations write their optimistic values under the exact key
    `["todos"]`, while the list itself is read from `["todos", {page, …}]`; the
    two keys stay distinct here, so an optimistic write never changes the entry
    the list renders (see `RunCreate`). */
module TodoList {
  import opened Strings
  import opened Domain
  import opened QueryCache
  import ApiClient

  // ---------------------------------------------------------------------------
  // Optimistic create

  /** The form data the create dialog hands over (the validated `CreateTodoInput`). */
  datatype CreateTodoInput = CreateTodoInput(title: String, description: Option<String>, priority: Priority, tags: Option<seq<String>>)

  const TempPrefix: String := "temp-"

  predicate IsTempId(id: String) {
    IsPrefix(TempPrefix, id)
  }

  /** `name => ({ id: name, name })`, over the list of tag names. */
  function TagsFromNames(names: seq<String>): (r: seq<Tag>)
    ensures |r| == |names|
    ensures forall i :: 0 <= i < |names| ==> r[i] == Tag(names[i], names[i])
  {
    if names == [] then [] else [Tag(names[0], names[0])] + TagsFromNames(names[1..])
  }

  /** The placeholder todo: a `temp-` id, the submitted fields, both timestamps
      `now`, tags named after the submitted strings, no notes, no mentions and no
      owner id. */
  function OptimisticTodo(input: CreateTodoInput, stamp: nat, now: String): (t: Todo)
    ensures IsTempId(t.id)
    ensures t.title == input.title && t.priority == input.priority
    ensures input.description.Some? ==> t.description == input.description.value
    ensures input.tags.None? ==> t.tags == []
    ensures input.tags.Some? ==> (|t.tags| == |input.tags.value| &&
              forall i :: 0 <= i < |t.tags| ==> t.tags[i].id == t.tags[i].name == input.tags.value[i])
    ensures t.notes == [] && t.mentions == [] && t.userId.None?
    ensures t.createdAt == now && t.updatedAt == now
  {
    Todo(TempPrefix + NatToString(stamp), input.title,
         match input.description case Some(d) => d case None => [],
         input.priority, now, now, None,
         match input.tags case Some(names) => TagsFromNames(names) case None => [],
         [], [])
  }

  function TodosOrEmpty(prev: Option<TodosData>): seq<Todo> {
    match prev
    case Some(d) => d.todos
    case None => []
  }

  /** The create updater: `{ ...prev, todos: [optimisticTodo, ...(prev?.todos || [])] }`. */
  function PrependTodo(prev: Option<TodosData>, t: Todo): (r: TodosData)
    ensures |r.todos| == |TodosOrEmpty(prev)| + 1
    ensures r.todos[0] == t && r.todos[1..] == TodosOrEmpty(prev)
    ensures prev.Some? ==> r.pagination == prev.value.pagination
    ensures prev.None? ==> r == TodosData([t], None)
  {
    match prev
    case Some(d) => d.(todos := [t] + d.todos)
    case None => TodosData([t], None)
  }

  // ---------------------------------------------------------------------------
  // Optimistic update: `{ ...todo, ...data }` for the entries with the target id

  /** The fields an update may carry; a present field overrides the cached one. */
  datatype TodoPatch = TodoPatch(
    title: Option<String>, description: Option<String>, priority: Option<Priority>,
    createdAt: Option<String>, updatedAt: Option<String>, userId: Option<Option<String>>,
    tags: Option<seq<Tag>>, notes: Option<seq<Note>>, mentions: Option<seq<Mention>>)

  function Pick<T>(patch: Option<T>, current: T): T {
    match patch
    case Some(v) => v
    case None => current
  }

  /** `{ ...todo, ...data }`: the patch's fields over the todo's; the id is kept. */
  function Merge(t: Todo, p: TodoPatch): (r: Todo)
    ensures r.id == t.id
    ensures p.title.None? ==> r.title == t.title
    ensures p.title.Some? ==> r.title == p.title.value
    ensures p.description.None? ==> r.description == t.description
    ensures p.description.Some? ==> r.description == p.description.value
    ensures p.priority.None? ==> r.priority == t.priority
    ensures p.priority.Some? ==> r.priority == p.priority.value
    ensures p.createdAt.None? ==> r.createdAt == t.createdAt
    ensures p.createdAt.Some? ==> r.createdAt == p.createdAt.value
    ensures p.updatedAt.None? ==> r.updatedAt == t.updatedAt
    ensures p.updatedAt.Some? ==> r.updatedAt == p.updatedAt.value
    ensures p.userId.None? ==> r.userId == t.userId
    ensures p.userId.Some? ==> r.userId == p.userId.value
    ensures p.tags.None? ==> r.tags == t.tags
    ensures p.tags.Some? ==> r.tags == p.tags.value
    ensures p.notes.None? ==> r.notes == t.notes
    ensures p.notes.Some? ==> r.notes == p.notes.value
    ensures p.mentions.None? ==> r.mentions == t.mentions
    ensures p.mentions.Some? ==> r.mentions == p.mentions.value
  {
    Todo(t.id, Pick(p.title, t.title), Pick(p.description, t.description), Pick(p.priority, t.priority),
         Pick(p.createdAt, t.createdAt), Pick(p.updatedAt, t.updatedAt), Pick(p.userId, t.userId),
         Pick(p.tags, t.tags), Pick(p.notes, t.notes), Pick(p.mentions, t.mentions))
  }

  /** The data `handleUpdateTodo` passes: the whole updated todo, every field present. */
  function FullPatch(u: Todo): TodoPatch {
    TodoPatch(Some(u.title), Some(u.description), Some(u.priority), Some(u.createdAt), Some(u.updatedAt),
              Some(u.userId), Some(u.tags), Some(u.notes), Some(u.mentions))
  }

  /** Merging the whole updated todo into the entry with its id gives the updated todo. */
  lemma MergeFullPatch(t: Todo, u: Todo)
    requires t.id == u.id
    ensures Merge(t, FullPatch(u)) == u
  {
  }

  /** Merging the same patch twice is merging it once. */
  lemma MergeIdempotent(t: Todo, p: TodoPatch)
    ensures Merge(Merge(t, p), p) == Merge(t, p)
  {
  }

  /** `todos.map(todo => todo.id === id ? { ...todo, ...data } : todo)`. */
  function MergeById(todos: seq<Todo>, id: String, p: TodoPatch): (r: seq<Todo>)
    ensures |r| == |todos|
    ensures forall i :: 0 <= i < |todos| ==> r[i] == (if todos[i].id == id then Merge(todos[i], p) else todos[i])
  {
    if todos == [] then []
    else [if todos[0].id == id then Merge(todos[0], p) else todos[0]] + MergeById(todos[1..], id, p)
  }

  /** The update updater. `prev.todos` is read without a guard, so the entry must be present. */
  function UpdateTodos(prev: Option<TodosData>, id: String, p: TodoPatch): (r: TodosData)
    requires prev.Some?
    ensures r.pagination == prev.value.pagination
    ensures |r.todos| == |prev.value.todos|
    ensures forall i :: 0 <= i < |r.todos| ==> r.todos[i].id == prev.value.todos[i].id
    ensures forall i :: 0 <= i < |r.todos| && prev.value.todos[i].id != id ==> r.todos[i] == prev.value.todos[i]
    ensures forall i :: 0 <= i < |r.todos| && prev.value.todos[i].id == id ==> r.todos[i] == Merge(prev.value.todos[i], p)
  {
    prev.value.(todos := MergeById(prev.value.todos, id, p))
  }

  /** An update of an id no entry has changes nothing. */
  lemma {:induction false} MergeByIdAbsent(todos: seq<Todo>, id: String, p: TodoPatch)
    requires forall i :: 0 <= i < |todos| ==> todos[i].id != id
    ensures MergeById(todos, id, p) == todos
  {
    var r := MergeById(todos, id, p);
    assert forall i :: 0 <= i < |todos| ==> r[i] == todos[i];
  }

  /** Applying the same update twice is applying it once. */
  lemma {:induction false} MergeByIdIdempotent(todos: seq<Todo>, id: String, p: TodoPatch)
    ensures MergeById(MergeById(todos, id, p), id, p) == MergeById(todos, id, p)
  {
    var once := MergeById(todos, id, p);
    var twice := MergeById(once, id, p);
    forall i | 0 <= i < |todos|
      ensures twice[i] == once[i]
    {
      if todos[i].id == id {
        MergeIdempotent(todos[i], p);
      }
    }
  }

  // ---------------------------------------------------------------------------
  // Optimistic delete: `todos.filter(todo => todo.id !== id)`

  function RemoveById(todos: seq<Todo>, id: String): (r: seq<Todo>)
    ensures |r| <= |todos|
    ensures forall t :: t in r <==> t in todos && t.id != id
  {
    if todos == [] then []
    else if todos[0].id == id then RemoveById(todos[1..], id)
    else [todos[0]] + RemoveById(todos[1..], id)
  }

  /** Removal works piecewise, so the kept entries stay in their relative order. */
  lemma {:induction false} RemoveByIdConcat(a: seq<Todo>, b: seq<Todo>, id: String)
    ensures RemoveById(a + b, id) == RemoveById(a, id) + RemoveById(b, id)
  {
    if a == [] {
      assert a + b == b;
    } else {
      assert (a + b)[0] == a[0];
      assert (a + b)[1..] == a[1..] + b;
      RemoveByIdConcat(a[1..], b, id);
    }
  }

  /** Removing an id no entry has changes nothing. */
  lemma {:induction false} RemoveByIdAbsent(todos: seq<Todo>, id: String)
    requires forall i :: 0 <= i < |todos| ==> todos[i].id != id
    ensures RemoveById(todos, id) == todos
  {
    if todos != [] {
      RemoveByIdAbsent(todos[1..], id);
    }
  }

  /** Removing twice is removing once: a repeated delete of the same id is a no-op. */
  lemma {:induction false} RemoveByIdIdempotent(todos: seq<Todo>, id: String)
    ensures RemoveById(RemoveById(todos, id), id) == RemoveById(todos, id)
  {
    var r := RemoveById(todos, id);
    forall i | 0 <= i < |r|
      ensures r[i].id != id
    {
      assert r[i] in r;
    }
    RemoveByIdAbsent(r, id);
  }

  /** Deleting the placeholder a create put in front gives the list before the
      create back, provided no earlier entry had a `temp-` id equal to it. */
  lemma {:induction false} DeletePlaceholderUndoesCreate(prev: Option<TodosData>, t: Todo)
    requires forall i :: 0 <= i < |TodosOrEmpty(prev)| ==> TodosOrEmpty(prev)[i].id != t.id
    ensures RemoveById(PrependTodo(prev, t).todos, t.id) == TodosOrEmpty(prev)
  {
    var s := TodosOrEmpty(prev);
    assert PrependTodo(prev, t).todos == [t] + s;
    RemoveByIdConcat([t], s, t.id);
    RemoveByIdAbsent(s, t.id);
  }

  /** The delete updater; like the update updater it reads `prev.todos` unguarded. */
  function DeleteTodos(prev: Option<TodosData>, id: String): (r: TodosData)
    requires prev.Some?
    ensures r.pagination == prev.value.pagination
    ensures forall t :: t in r.todos <==> t in prev.value.todos && t.id != id
  {
    prev.value.(todos := RemoveById(prev.value.todos, id))
  }

  // ---------------------------------------------------------------------------
  // Tag vocabulary: `Array.from(new Map(allTags.map(tag => [tag.id, tag])).values())`

  function AllTags(todos: seq<Todo>): (r: seq<Tag>)
    ensures forall tag :: tag in r <==> exists t :: t in todos && tag in t.tags
  {
    if todos == [] then [] else todos[0].tags + AllTags(todos[1..])
  }

  function IndexOfId(m: seq<Tag>, id: String): (r: int)
    ensures -1 <= r < |m|
    ensures r >= 0 ==> m[r].id == id
    ensures r < 0 ==> forall i :: 0 <= i < |m| ==> m[i].id != id
  {
    if m == [] then -1
    else if m[|m| - 1].id == id then |m| - 1
    else IndexOfId(m[..|m| - 1], id)
  }

  /** `map.set(tag.id, tag)` on a map kept as its entries in insertion order:
      an existing key keeps its place and takes the new value, a new key goes last. */
  function MapSet(m: seq<Tag>, tag: Tag): (r: seq<Tag>)
  {
    var k := IndexOfId(m, tag.id);
    if k >= 0 then m[k := tag] else m + [tag]
  }

  function MapSetAll(m: seq<Tag>, tags: seq<Tag>): seq<Tag>
    decreases |tags|
  {
    if tags == [] then m else MapSetAll(MapSet(m, tags[0]), tags[1..])
  }

  /** The last tag with the given id, if any. */
  function LastWithId(tags: seq<Tag>, id: String): (r: Option<Tag>)
    ensures r.Some? ==> r.value in tags && r.value.id == id
    ensures r.None? ==> forall i :: 0 <= i < |tags| ==> tags[i].id != id
  {
    if tags == [] then None
    else if tags[|tags| - 1].id == id then Some(tags[|tags| - 1])
    else LastWithId(tags[..|tags| - 1], id)
  }

  function IdSet(tags: seq<Tag>): set<String> {
    set t | t in tags :: t.id
  }

  predicate DistinctIds(m: seq<Tag>) {
    forall i, j :: 0 <= i < j < |m| ==> m[i].id != m[j].id
  }

  /** What the map holds after the tags `seen` have been set: one entry per id
      seen, holding the last tag with that id. */
  predicate MapHolds(m: seq<Tag>, seen: seq<Tag>) {
    DistinctIds(m)
    && IdSet(m) == IdSet(seen)
    && (forall i :: 0 <= i < |m| ==> LastWithId(seen, m[i].id) == Some(m[i]))
  }

  /** The last tag with an id after one more tag: that tag if it has the id. */
  lemma LastWithIdSnoc(seen: seq<Tag>, tag: Tag, id: String)
    ensures LastWithId(seen + [tag], id) == if tag.id == id then Some(tag) else LastWithId(seen, id)
  {
    var seen' := seen + [tag];
    assert seen'[..|seen'| - 1] == seen;
  }

  lemma IdSetSnoc(tags: seq<Tag>, tag: Tag)
    ensures IdSet(tags + [tag]) == IdSet(tags) + {tag.id}
  {
    assert forall t :: t in tags + [tag] <==> t in tags || t == tag;
  }

  /** Replacing a tag by one with the same id keeps the set of ids. */
  lemma IdSetUpdate(m: seq<Tag>, k: nat, tag: Tag)
    requires k < |m| && m[k].id == tag.id
    ensures IdSet(m[k := tag]) == IdSet(m)
  {
    var m' := m[k := tag];
    forall x | x in IdSet(m') ensures x in IdSet(m) {
      var i :| 0 <= i < |m'| && m'[i].id == x;
      assert m[i] in m;
    }
    forall x | x in IdSet(m) ensures x in IdSet(m') {
      var i :| 0 <= i < |m| && m[i].id == x;
      assert m'[i] in m';
    }
  }

  /** Setting an id the map already holds replaces its entry in place. */
  lemma MapSetReplace(m: seq<Tag>, seen: seq<Tag>, tag: Tag)
    requires MapHolds(m, seen)
    requires IndexOfId(m, tag.id) >= 0
    ensures MapHolds(MapSet(m, tag), seen + [tag])
  {
    var k := IndexOfId(m, tag.id);
    var m' := m[k := tag];
    IdSetUpdate(m, k, tag);
    IdSetSnoc(seen, tag);
    assert tag.id in IdSet(seen) by { assert m[k] in m; }
    forall i | 0 <= i < |m'|
      ensures LastWithId(seen + [tag], m'[i].id) == Some(m'[i])
    {
      LastWithIdSnoc(seen, tag, m'[i].id);
    }
  }

  /** Setting a new id appends the tag. */
  lemma MapSetAppend(m: seq<Tag>, seen: seq<Tag>, tag: Tag)
    requires MapHolds(m, seen)
    requires IndexOfId(m, tag.id) < 0
    ensures MapHolds(MapSet(m, tag), seen + [tag])
  {
    var m' := m + [tag];
    IdSetSnoc(m, tag);
    IdSetSnoc(seen, tag);
    forall i | 0 <= i < |m'|
      ensures LastWithId(seen + [tag], m'[i].id) == Some(m'[i])
    {
      LastWithIdSnoc(seen, tag, m'[i].id);
    }
  }

  lemma MapSetStep(m: seq<Tag>, seen: seq<Tag>, tag: Tag)
    requires MapHolds(m, seen)
    ensures MapHolds(MapSet(m, tag), seen + [tag])
  {
    if IndexOfId(m, tag.id) >= 0 {
      MapSetReplace(m, seen, tag);
    } else {
      MapSetAppend(m, seen, tag);
    }
  }

  lemma {:induction false} MapSetAllHolds(m: seq<Tag>, seen: seq<Tag>, tags: seq<Tag>)
    requires MapHolds(m, seen)
    ensures MapHolds(MapSetAll(m, tags), seen + tags)
    decreases |tags|
  {
    if tags != [] {
      MapSetStep(m, seen, tags[0]);
      assert (seen + [tags[0]]) + tags[1..] == seen + tags;
      MapSetAllHolds(MapSet(m, tags[0]), seen + [tags[0]], tags[1..]);
    } else {
      assert seen + tags == seen;
    }
  }

  /** `uniqueTags`: one tag per id among the tags of the todos cached under
      `["todos"]`. It holds at most one tag per id; its ids are exactly the ids
      of the cached todos' tags; the tag kept for an id is the last one seen. */
  function UniqueTags(cached: Option<TodosData>): (tags: seq<Tag>)
    ensures DistinctIds(tags)
    ensures cached.None? ==> tags == []
    ensures cached.Some? ==> MapHolds(tags, AllTags(cached.value.todos))
  {
    match cached
    case Some(d) =>
      var all := AllTags(d.todos);
      assert [] + all == all;
      MapSetAllHolds([], [], all);
      MapSetAll([], all)
    case None => []
  }

  // ---------------------------------------------------------------------------
  // The list query and its pagination display

  /** The object `getTodos` is called with: `"all"` and an empty search become `undefined`. */
  function ListQueryArgs(page: int, userId: Option<String>, selectedTag: String, selectedPriority: String,
                         sortBy: String, sortOrder: String, search: String): (args: seq<(String, ApiClient.ParamValue)>)
    ensures ApiClient.DistinctKeys(args)
  {
    [("page", ApiClient.Num(page)),
     ("userId", match userId case Some(u) => ApiClient.Str(u) case None => ApiClient.Undefined),
     ("tag", if selectedTag != "all" then ApiClient.Str(selectedTag) else ApiClient.Undefined),
     ("priority", if selectedPriority != "all" then ApiClient.Str(selectedPriority) else ApiClient.Undefined),
     ("sortBy", ApiClient.Str(sortBy)),
     ("sortOrder", ApiClient.Str(sortOrder)),
     ("search", if search != [] then ApiClient.Str(search) else ApiClient.Undefined)]
  }

  predicate HasKey(q: ApiClient.Query, k: String) {
    exists i :: 0 <= i < |q| && q[i].0 == k
  }

  /** A key is in the query exactly when the object has it with a sent value. */
  lemma SentKey(args: seq<(String, ApiClient.ParamValue)>, k: String)
    ensures HasKey(ApiClient.SentParams(args), k) <==> exists i :: 0 <= i < |args| && args[i].0 == k && ApiClient.IsSent(args[i].1)
  {
    var q := ApiClient.SentParams(args);
    if HasKey(q, k) {
      var i :| 0 <= i < |q| && q[i].0 == k;
      assert q[i] in q;
      ApiClient.SentParamsMember(args, k, q[i].1);
    }
    if exists i :: 0 <= i < |args| && args[i].0 == k && ApiClient.IsSent(args[i].1) {
      var i :| 0 <= i < |args| && args[i].0 == k && ApiClient.IsSent(args[i].1);
      ApiClient.SentParamsMember(args, k, ApiClient.Render(args[i].1));
      var j :| 0 <= j < |q| && q[j] == (k, ApiClient.Render(args[i].1));
    }
  }

  lemma OnlyKeyAt(args: seq<(String, ApiClient.ParamValue)>, i: nat, k: String)
    requires ApiClient.DistinctKeys(args) && i < |args| && args[i].0 == k
    ensures (exists j :: 0 <= j < |args| && args[j].0 == k && ApiClient.IsSent(args[j].1)) <==> ApiClient.IsSent(args[i].1)
  {
    if ApiClient.IsSent(args[i].1) {
      assert args[i].0 == k;
    }
  }

  /** The tag and priority filters reach the server exactly when they are
      neither `"all"` nor empty; the search exactly when it is not empty; the
      page always. */
  lemma ListQuerySends(page: int, userId: Option<String>, selectedTag: String, selectedPriority: String,
                       sortBy: String, sortOrder: String, search: String)
    ensures var q := ApiClient.SentParams(ListQueryArgs(page, userId, selectedTag, selectedPriority, sortBy, sortOrder, search));
            (HasKey(q, "tag") <==> selectedTag != "all" && selectedTag != [])
            && (HasKey(q, "priority") <==> selectedPriority != "all" && selectedPriority != [])
            && (HasKey(q, "search") <==> search != [])
            && ("page", IntToString(page)) in q
  {
    var args := ListQueryArgs(page, userId, selectedTag, selectedPriority, sortBy, sortOrder, search);
    SentKey(args, "tag");
    SentKey(args, "priority");
    SentKey(args, "search");
    OnlyKeyAt(args, 2, "tag");
    OnlyKeyAt(args, 3, "priority");
    OnlyKeyAt(args, 6, "search");
    ApiClient.SentParamsMember(args, "page", IntToString(page));
    assert args[0].0 == "page";
  }

  /** `data?.pagination?.totalPages || 1`. */
  function ShownTotalPages(data: Option<TodosData>): (n: int)
    ensures data.Some? && data.value.pagination.Some? && data.value.pagination.value.totalPages != 0
            ==> n == data.value.pagination.value.totalPages
    ensures (data.None? || data.value.pagination.None? || data.value.pagination.value.totalPages == 0) ==> n == 1
  {
    if data.Some? && data.value.pagination.Some? && data.value.pagination.value.totalPages != 0
    then data.value.pagination.value.totalPages
    else 1
  }

  /** The pager is rendered only when there is more than one page. */
  function ShowsPagination(data: Option<TodosData>): (shown: bool)
    ensures shown <==> data.Some? && data.value.pagination.Some? && data.value.pagination.value.totalPages > 1
  {
    ShownTotalPages(data) > 1
  }

  // ---------------------------------------------------------------------------
  // The mutations as steps on the shared cache

  /** The phases of one mutation. */
  datatype Phase = Pending | Succeeded | Failed

  class TodoListView {
    const cache: Cache
    var isCreateDialogOpen: bool

    ghost predicate Valid()
      reads this, cache
    {
      cache.Valid()
    }

    constructor (cache: Cache)
      requires cache.Valid()
      ensures Valid() && this.cache == cache && !isCreateDialogOpen
    {
      this.cache := cache;
      isCreateDialogOpen := false;
    }

    /** `createTodoMutation.onMutate`: snapshot `["todos"]`, then put the
        placeholder in front of its todos. */
    method CreateOnMutate(input: CreateTodoInput, stamp: nat, now: String) returns (previous: Option<CacheData>)
      requires Valid()
      modifies cache
      ensures Valid()
      ensures previous == Read(old(cache.entries), AllTodos)
      ensures cache.entries == old(cache.entries)[AllTodos := TodosValue(PrependTodo(old(cache.GetTodos(AllTodos)), OptimisticTodo(input, stamp, now)))]
      ensures cache.stale == old(cache.stale) - {AllTodos}
    {
      previous := cache.GetQueryData(AllTodos);
      var next := PrependTodo(cache.GetTodos(AllTodos), OptimisticTodo(input, stamp, now));
      cache.SetQueryData(AllTodos, Some(TodosValue(next)));
    }

    /** `onError` of the list mutations: write back what `onMutate` read. */
    method RestoreTodos(previous: Option<CacheData>)
      requires Valid()
      requires previous.Some? ==> previous.value.TodosValue?
      modifies cache
      ensures Valid()
      ensures cache.entries == Written(old(cache.entries), AllTodos, previous, cache.undefinedClears)
    {
      cache.SetQueryData(AllTodos, previous);
    }

    /** `onSuccess` of the list mutations: no server value is written; every
        todos key is marked stale. */
    method InvalidateTodos()
      requires Valid()
      modifies cache
      ensures Valid()
      ensures cache.entries == old(cache.entries)
      ensures forall k :: k in cache.entries && IsTodosKey(k) ==> k in cache.stale
    {
      cache.InvalidateQueries(TodosFamily);
    }

    /** The whole create mutation, from `onMutate` to the outcome of the request. */
    method RunCreate(input: CreateTodoInput, stamp: nat, now: String, requestSucceeded: bool) returns (phase: Phase)
      requires Valid()
      modifies this, cache
      ensures Valid()
      ensures phase == (if requestSucceeded then Succeeded else Failed)
      ensures forall k :: k != AllTodos ==> ((k in cache.entries <==> k in old(cache.entries))
                                          && (k in cache.entries ==> cache.entries[k] == old(cache.entries)[k]))
      ensures requestSucceeded ==> (AllTodos in cache.entries
              && cache.entries[AllTodos] == TodosValue(PrependTodo(old(cache.GetTodos(AllTodos)), OptimisticTodo(input, stamp, now)))
              && !isCreateDialogOpen
              && (forall k :: k in cache.entries && IsTodosKey(k) ==> k in cache.stale))
      ensures !requestSucceeded && (AllTodos in old(cache.entries) || cache.undefinedClears) ==> cache.entries == old(cache.entries)
      ensures !requestSucceeded && AllTodos !in old(cache.entries) && !cache.undefinedClears ==>
              cache.entries == old(cache.entries)[AllTodos := TodosValue(TodosData([OptimisticTodo(input, stamp, now)], None))]
      ensures !requestSucceeded ==> isCreateDialogOpen == old(isCreateDialogOpen)
    {
      phase := Pending;
      ghost var before := cache.entries;
      var previous := CreateOnMutate(input, stamp, now);
      if requestSucceeded {
        InvalidateTodos();
        isCreateDialogOpen := false;
        phase := Succeeded;
      } else {
        RestoreTodos(previous);
        RestoreAfterWrite(before, AllTodos, TodosValue(PrependTodo(old(cache.GetTodos(AllTodos)), OptimisticTodo(input, stamp, now))), cache.undefinedClears);
        phase := Failed;
      }
    }

    /** `updateTodoMutation.onMutate`. With no `["todos"]` entry the updater
        throws; the cache is then untouched and `threw` is set. */
    method UpdateOnMutate(id: String, p: TodoPatch) returns (previous: Option<CacheData>, threw: bool)
      requires Valid()
      modifies cache
      ensures Valid()
      ensures previous == Read(old(cache.entries), AllTodos)
      ensures threw <==> AllTodos !in old(cache.entries)
      ensures threw ==> cache.entries == old(cache.entries) && cache.stale == old(cache.stale)
      ensures !threw ==> cache.entries == old(cache.entries)[AllTodos := TodosValue(UpdateTodos(old(cache.GetTodos(AllTodos)), id, p))]
    {
      previous := cache.GetQueryData(AllTodos);
      var current := cache.GetTodos(AllTodos);
      if current.None? {
        threw := true;
      } else {
        threw := false;
        cache.SetQueryData(AllTodos, Some(TodosValue(UpdateTodos(current, id, p))));
      }
    }

    /** `deleteTodoMutation.onMutate`, with the same unguarded read. */
    method DeleteOnMutate(id: String) returns (previous: Option<CacheData>, threw: bool)
      requires Valid()
      modifies cache
      ensures Valid()
      ensures previous == Read(old(cache.entries), AllTodos)
      ensures threw <==> AllTodos !in old(cache.entries)
      ensures threw ==> cache.entries == old(cache.entries) && cache.stale == old(cache.stale)
      ensures !threw ==> cache.entries == old(cache.entries)[AllTodos := TodosValue(DeleteTodos(old(cache.GetTodos(AllTodos)), id))]
    {
      previous := cache.GetQueryData(AllTodos);
      var current := cache.GetTodos(AllTodos);
      if current.None? {
        threw := true;
      } else {
        threw := false;
        cache.SetQueryData(AllTodos, Some(TodosValue(DeleteTodos(current, id))));
      }
    }

    /** The whole update mutation (`handleUpdateTodo` passes the updated todo as
        the data). When `onMutate` throws, the request is never sent and
        `onError` runs with no context, writing `undefined`. */
    method RunUpdate(updated: Todo, requestSucceeded: bool) returns (phase: Phase, sent: bool)
      requires Valid()
      modifies cache
      ensures Valid()
      ensures sent <==> AllTodos in old(cache.entries)
      ensures phase == (if sent && requestSucceeded then Succeeded else Failed)
      ensures phase == Succeeded ==>
              cache.entries == old(cache.entries)[AllTodos := TodosValue(UpdateTodos(old(cache.GetTodos(AllTodos)), updated.id, FullPatch(updated)))]
              && (forall k :: k in cache.entries && IsTodosKey(k) ==> k in cache.stale)
      ensures phase == Failed ==> cache.entries == old(cache.entries)
    {
      ghost var before := cache.entries;
      var previous, threw := UpdateOnMutate(updated.id, FullPatch(updated));
      sent := !threw;
      if threw {
        RestoreTodos(None);
        phase := Failed;
      } else if requestSucceeded {
        InvalidateTodos();
        phase := Succeeded;
      } else {
        RestoreTodos(previous);
        RestoreAfterWrite(before, AllTodos, cache.entries[AllTodos], cache.undefinedClears);
        phase := Failed;
      }
    }

    /** The whole delete mutation (`handleDeleteTodo`). */
    method RunDelete(id: String, requestSucceeded: bool) returns (phase: Phase, sent: bool)
      requires Valid()
      modifies cache
      ensures Valid()
      ensures sent <==> AllTodos in old(cache.entries)
      ensures phase == (if sent && requestSucceeded then Succeeded else Failed)
      ensures phase == Succeeded ==>
              cache.entries == old(cache.entries)[AllTodos := TodosValue(DeleteTodos(old(cache.GetTodos(AllTodos)), id))]
              && (forall k :: k in cache.entries && IsTodosKey(k) ==> k in cache.stale)
      ensures phase == Failed ==> cache.entries == old(cache.entries)
    {
      ghost var before := cache.entries;
      var previous, threw := DeleteOnMutate(id);
      sent := !threw;
      if threw {
        RestoreTodos(None);
        phase := Failed;
      } else if requestSucceeded {
        InvalidateTodos();
        phase := Succeeded;
      } else {
        RestoreTodos(previous);
        RestoreAfterWrite(before, AllTodos, cache.entries[AllTodos], cache.undefinedClears);
        phase := Failed;
      }
    }
  }
}

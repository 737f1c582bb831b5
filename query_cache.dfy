/** The client query cache the components share: an entry per query key, each
    holding the data last written under that key, plus a set of keys marked
    stale by an invalidation. Only the three operations the components call are
    modelled: read (`getQueryData`), write (`setQueryData`) and mark stale
    (`invalidateQueries`). Refetching is the library's business and is not
    modelled: a stale entry keeps its data. */
module QueryCache {
  import opened Strings
  import opened Domain

  /** The parameters of a list query, as the list view puts them in its key. */
  datatype ListKeyParams = ListKeyParams(
    page: int, userId: Option<String>, tag: String, priority: String,
    sortBy: String, sortOrder: String, search: String)

  /** Query keys: `["todos"]`, `["todos", {…}]`, `["notes", todoId]` and `["users"]`.
      `["todos"]` and `["todos", {…}]` are distinct keys with distinct entries. */
  datatype Key =
    | AllTodos
    | TodoPage(params: ListKeyParams)
    | NotesOf(todoId: String)
    | UsersList

  predicate IsTodosKey(k: Key) {
    k.AllTodos? || k.TodoPage?
  }

  datatype Pagination = Pagination(total: int, page: int, limit: int, totalPages: int)

  /** The value of a todos entry: `{ todos, pagination? }`. */
  datatype TodosData = TodosData(todos: seq<Todo>, pagination: Option<Pagination>)

  datatype CacheData =
    | TodosValue(data: TodosData)
    | NotesValue(notes: seq<Note>)
    | UsersValue(users: seq<User>)

  /** The key filters the components invalidate with: `["todos"]` (every todos
      key) and `["notes", todoId]`. */
  datatype Filter = TodosFamily | NotesFor(todoId: String)

  predicate FilterMatches(f: Filter, k: Key) {
    match f
    case TodosFamily => IsTodosKey(k)
    case NotesFor(id) => k == NotesOf(id)
  }

  /** Every entry holds the kind of value its key names. */
  ghost predicate WellTyped(entries: map<Key, CacheData>) {
    forall k :: k in entries ==>
      (IsTodosKey(k) ==> entries[k].TodosValue?) &&
      (k.NotesOf? ==> entries[k].NotesValue?) &&
      (k.UsersList? ==> entries[k].UsersValue?)
  }

  /** The entries after `setQueryData(key, value)`. Writing a value replaces the
      entry; what writing `undefined` does is library behaviour this model does
      not see, so it is a parameter: with `undefinedClears` the entry is removed,
      without it the write is ignored (the behaviour TanStack Query v5 documents). */
  function Written(entries: map<Key, CacheData>, key: Key, value: Option<CacheData>, undefinedClears: bool)
    : (r: map<Key, CacheData>)
    ensures value.Some? ==> key in r && r[key] == value.value
    ensures value.None? && undefinedClears ==> key !in r
    ensures value.None? && !undefinedClears ==> r == entries
    ensures forall k :: k != key ==> (k in r <==> k in entries) && (k in r ==> r[k] == entries[k])
  {
    match value
    case Some(v) => entries[key := v]
    case None => if undefinedClears then entries - {key} else entries
  }

  /** The read a snapshot takes. */
  function Read(entries: map<Key, CacheData>, key: Key): (r: Option<CacheData>)
    ensures r.Some? <==> key in entries
    ensures r.Some? ==> r.value == entries[key]
  {
    if key in entries then Some(entries[key]) else None
  }

  /** Snapshot, write, restore: writing back what was read before any write
      under the same key gives the entries back, unless the entry was absent and
      writing `undefined` is ignored, in which case the written value stays. */
  lemma {:induction false} RestoreAfterWrite(entries: map<Key, CacheData>, key: Key, v: CacheData, undefinedClears: bool)
    ensures var snapshot := Read(entries, key);
            var restored := Written(Written(entries, key, Some(v), undefinedClears), key, snapshot, undefinedClears);
            (key in entries || undefinedClears ==> restored == entries) &&
            (key !in entries && !undefinedClears ==> restored == entries[key := v])
  {
    var snapshot := Read(entries, key);
    var restored := Written(Written(entries, key, Some(v), undefinedClears), key, snapshot, undefinedClears);
    if key in entries || undefinedClears {
      assert restored.Keys == entries.Keys;
    }
  }

  class Cache {
    var entries: map<Key, CacheData>
    var stale: set<Key>
    const undefinedClears: bool

    ghost predicate Valid()
      reads this
    {
      WellTyped(entries) && stale <= entries.Keys
    }

    constructor (undefinedClears: bool)
      ensures Valid()
      ensures entries == map[] && stale == {}
      ensures this.undefinedClears == undefinedClears
    {
      entries := map[];
      stale := {};
      this.undefinedClears := undefinedClears;
    }

    /** `getQueryData(key)`: the entry's data, absent when there is no entry. */
    function GetQueryData(key: Key): (r: Option<CacheData>)
      reads this
      ensures r == Read(entries, key)
    {
      Read(entries, key)
    }

    /** The todos value under a todos key, absent when there is no entry. */
    function GetTodos(key: Key): (r: Option<TodosData>)
      reads this
      requires Valid() && IsTodosKey(key)
      ensures r.Some? <==> key in entries
      ensures r.Some? ==> entries[key] == TodosValue(r.value)
    {
      if key in entries then Some(entries[key].data) else None
    }

    /** The notes value under a notes key, absent when there is no entry. */
    function GetNotes(key: Key): (r: Option<seq<Note>>)
      reads this
      requires Valid() && key.NotesOf?
      ensures r.Some? <==> key in entries
      ensures r.Some? ==> entries[key] == NotesValue(r.value)
    {
      if key in entries then Some(entries[key].notes) else None
    }

    /** `setQueryData(key, value)`: a whole-value replacement of one entry; the
        written entry is fresh again. Nothing else changes. */
    method SetQueryData(key: Key, value: Option<CacheData>)
      requires Valid()
      requires value.Some? ==> WellTyped(map[key := value.value])
      modifies this
      ensures Valid()
      ensures entries == Written(old(entries), key, value, undefinedClears)
      ensures stale == (if value.Some? || undefinedClears then old(stale) - {key} else old(stale))
    {
      entries := Written(entries, key, value, undefinedClears);
      if value.Some? || undefinedClears {
        stale := stale - {key};
      }
    }

    /** `invalidateQueries({ queryKey })`: every present entry the filter matches
        is marked stale; no data changes. */
    method InvalidateQueries(f: Filter)
      requires Valid()
      modifies this
      ensures Valid()
      ensures entries == old(entries)
      ensures stale == old(stale) + (set k | k in entries && FilterMatches(f, k))
    {
      stale := stale + (set k | k in entries && FilterMatches(f, k));
    }
  }
}

/** The todo collection endpoint (app/api/todos/route.ts). `GET` lists one
    page of a user's todos under optional filters; `POST` validates a new todo,
    stores it and links the users its description mentions. The session, the
    database tables and the generated ids are inputs. Rows arrive in the order
    the query asked for: the sort itself is the database's. */
module TodosRoute {
  import opened Strings
  import opened Domain
  import QueryCache
  import Validations
  import TodoItem

  // ---------------------------------------------------------------------------
  // Pagination arithmetic

  /** `Number.parseInt` of a string of decimal digits. */
  function ParseDigits(s: String): (n: nat)
    requires s != [] && forall i :: 0 <= i < |s| ==> IsDigit(s[i])
  {
    DigitsValue(s)
  }

  /** A `page` or `limit` parameter the model accepts: absent, empty, or
      digits naming a positive number. */
  predicate PositiveParam(p: Option<String>) {
    !Truthy(p) || ((forall i :: 0 <= i < |p.value| ==> IsDigit(p.value[i])) && DigitsValue(p.value) >= 1)
  }

  /** `Number.parseInt(param || fallback)`. */
  function NumberOr(p: Option<String>, fallback: nat): (n: nat)
    requires PositiveParam(p) && fallback >= 1
    ensures n >= 1
    ensures !Truthy(p) ==> n == fallback
    ensures Truthy(p) ==> n == DigitsValue(p.value)
  {
    if Truthy(p) then ParseDigits(p.value) else fallback
  }

  /** A page or limit the client rendered with `String(n)` is read back as `n`. */
  lemma NumberOrRendered(k: nat, fallback: nat)
    requires k >= 1 && fallback >= 1
    ensures PositiveParam(Some(NatToString(k)))
    ensures NumberOr(Some(NatToString(k)), fallback) == k
  {
    NatToStringValue(k);
  }

  /** `skip = (page - 1) * limit`: the rows on the pages before this one. */
  function Skip(page: nat, limit: nat): (skip: nat)
    requires page >= 1
    ensures page == 1 ==> skip == 0
  {
    (page - 1) * limit
  }

  /** Each further page skips one more page of rows. */
  lemma SkipStep(page: nat, limit: nat)
    requires page >= 1
    ensures Skip(page + 1, limit) == Skip(page, limit) + limit
  {
    assert page * limit == (page - 1) * limit + limit;
  }

  /** `Math.ceil(total / limit)`: the fewest pages of `limit` rows that hold `total` rows. */
  function CeilDiv(total: nat, limit: nat): (pages: nat)
    requires limit >= 1
    ensures pages * limit >= total
    ensures pages == 0 || (pages - 1) * limit < total
    decreases total
  {
    if total == 0 then 0
    else if total <= limit then 1
    else
      var rest := CeilDiv(total - limit, limit);
      assert (rest + 1) * limit == rest * limit + limit;
      rest + 1
  }

  lemma CeilDivExample()
    ensures CeilDiv(23, 10) == 3 && CeilDiv(20, 10) == 2 && CeilDiv(0, 10) == 0
  {
  }

  /** `skip` and `take` applied to the matching rows. */
  function Window<T>(rows: seq<T>, skip: nat, take: nat): (w: seq<T>)
    ensures |w| <= take
    ensures skip < |rows| ==> w == rows[skip..if skip + take <= |rows| then skip + take else |rows|]
    ensures skip >= |rows| ==> w == []
  {
    if skip >= |rows| then []
    else rows[skip..if skip + take <= |rows| then skip + take else |rows|]
  }

  /** The last page starts before the end of the rows, and the page after it
      starts at or past the end. */
  lemma {:induction false} SkipOfCeilDiv(total: nat, limit: nat)
    requires limit >= 1 && total > 0
    ensures CeilDiv(total, limit) >= 1
    ensures Skip(CeilDiv(total, limit), limit) < total
    ensures Skip(CeilDiv(total, limit) + 1, limit) >= total
    decreases total
  {
    if total > limit {
      SkipOfCeilDiv(total - limit, limit);
      var r := CeilDiv(total - limit, limit);
      assert CeilDiv(total, limit) == r + 1;
      SkipStep(r, limit);
      SkipStep(r + 1, limit);
    } else {
      assert CeilDiv(total, limit) == 1;
      SkipStep(1, limit);
    }
  }

  /** `totalPages` is the last page with rows on it: that page is not empty
      and the page after it is. */
  lemma LastPageIsTotalPages<T>(rows: seq<T>, limit: nat)
    requires limit >= 1 && |rows| > 0
    ensures var last := CeilDiv(|rows|, limit);
            last >= 1 && Window(rows, Skip(last, limit), limit) != [] && Window(rows, Skip(last + 1, limit), limit) == []
  {
    LastPageNotEmpty(rows, limit);
    NoPageAfterLast(rows, limit);
  }

  lemma LastPageNotEmpty<T>(rows: seq<T>, limit: nat)
    requires limit >= 1 && |rows| > 0
    ensures CeilDiv(|rows|, limit) >= 1 && Window(rows, Skip(CeilDiv(|rows|, limit), limit), limit) != []
  {
    SkipOfCeilDiv(|rows|, limit);
    WindowStartsInside(rows, Skip(CeilDiv(|rows|, limit), limit), limit);
  }

  lemma NoPageAfterLast<T>(rows: seq<T>, limit: nat)
    requires limit >= 1 && |rows| > 0
    ensures Window(rows, Skip(CeilDiv(|rows|, limit) + 1, limit), limit) == []
  {
    SkipOfCeilDiv(|rows|, limit);
  }

  /** A window that starts inside the rows and takes at least one row is not empty. */
  lemma WindowStartsInside<T>(rows: seq<T>, skip: nat, take: nat)
    requires skip < |rows| && take >= 1
    ensures Window(rows, skip, take) != []
  {
    var end := if skip + take <= |rows| then skip + take else |rows|;
    assert |rows[skip..end]| == end - skip >= 1;
  }

  // ---------------------------------------------------------------------------
  // The `where` object and what it selects

  /** The query string of a `GET`, as `searchParams.get` returns each field. */
  datatype ListQuery = ListQuery(
    page: Option<String>, limit: Option<String>, tag: Option<String>, priority: Option<String>,
    mentionedUser: Option<String>, sortBy: Option<String>, sortOrder: Option<String>,
    userId: Option<String>, search: Option<String>)

  /** The `where` object: an owner, and each filter absent or set. */
  datatype Where = Where(userId: String, tag: Option<String>, priority: Option<String>,
                         mentionedUser: Option<String>, search: Option<String>)

  predicate HasTagNamed(t: Todo, name: String) {
    exists i :: 0 <= i < |t.tags| && t.tags[i].name == name
  }

  predicate MentionsEmail(t: Todo, email: String) {
    exists i :: 0 <= i < |t.mentions| && t.mentions[i].user.email == email
  }

  /** `contains` with `mode: "insensitive"`. */
  predicate ContainsInsensitive(s: String, sub: String) {
    Includes(Lower(s), Lower(sub))
  }

  predicate HasTagContaining(t: Todo, sub: String) {
    exists i :: 0 <= i < |t.tags| && ContainsInsensitive(t.tags[i].name, sub)
  }

  /** How the database reads a `where` object: every field that is set must hold. */
  predicate Selects(w: Where, t: Todo) {
    t.userId == Some(w.userId)
    && (w.tag.Some? ==> HasTagNamed(t, w.tag.value))
    && (w.priority.Some? ==> PriorityName(t.priority) == w.priority.value)
    && (w.mentionedUser.Some? ==> MentionsEmail(t, w.mentionedUser.value))
    && (w.search.Some? ==> ContainsInsensitive(t.title, w.search.value)
                           || ContainsInsensitive(t.description, w.search.value)
                           || HasTagContaining(t, w.search.value))
  }

  /** The listing rule stated on the query itself: owned by the requested user
      (the session user when none is named), and for each non-empty filter the
      todo passes it. */
  predicate Listed(q: ListQuery, sessionUser: String, t: Todo) {
    t.userId == Some(OrElse(q.userId, sessionUser))
    && (Truthy(q.tag) ==> HasTagNamed(t, q.tag.value))
    && (Truthy(q.priority) ==> PriorityName(t.priority) == q.priority.value)
    && (Truthy(q.mentionedUser) ==> MentionsEmail(t, q.mentionedUser.value))
    && (Truthy(q.search) ==> ContainsInsensitive(t.title, q.search.value)
                             || ContainsInsensitive(t.description, q.search.value)
                             || HasTagContaining(t, q.search.value))
  }

  /** Build the `where` object one filter at a time, each only when its
      parameter is truthy. */
  method BuildWhere(q: ListQuery, sessionUser: String) returns (w: Where)
    ensures forall t :: Selects(w, t) <==> Listed(q, sessionUser, t)
    ensures w.userId == OrElse(q.userId, sessionUser)
  {
    w := Where(OrElse(q.userId, sessionUser), None, None, None, None);
    if Truthy(q.tag) {
      w := w.(tag := q.tag);
    }
    if Truthy(q.priority) {
      w := w.(priority := q.priority);
    }
    if Truthy(q.mentionedUser) {
      w := w.(mentionedUser := q.mentionedUser);
    }
    if Truthy(q.search) {
      w := w.(search := q.search);
    }
  }

  /** The rows a `where` object selects, in table order. */
  function Selected(w: Where, rows: seq<Todo>): (r: seq<Todo>)
    ensures |r| <= |rows|
    ensures forall t :: t in r <==> t in rows && Selects(w, t)
  {
    if rows == [] then []
    else (if Selects(w, rows[0]) then [rows[0]] else []) + Selected(w, rows[1..])
  }

  /** The rows the listing rule keeps, in table order. */
  function ListedRows(q: ListQuery, sessionUser: String, rows: seq<Todo>): (r: seq<Todo>)
    ensures forall t :: t in r <==> t in rows && Listed(q, sessionUser, t)
  {
    if rows == [] then []
    else (if Listed(q, sessionUser, rows[0]) then [rows[0]] else []) + ListedRows(q, sessionUser, rows[1..])
  }

  /** A `where` object that selects exactly the listed todos selects the same rows in the same order. */
  lemma {:induction false} SelectedIsListed(w: Where, q: ListQuery, sessionUser: String, rows: seq<Todo>)
    requires forall t :: Selects(w, t) <==> Listed(q, sessionUser, t)
    ensures Selected(w, rows) == ListedRows(q, sessionUser, rows)
  {
    if rows != [] {
      SelectedIsListed(w, q, sessionUser, rows[1..]);
    }
  }

  // ---------------------------------------------------------------------------
  // GET

  datatype ListResponse =
    | ListUnauthorized
    | ListPage(todos: seq<Todo>, pagination: QueryCache.Pagination)

  /** `GET /api/todos`. `rows` is the todo table in the requested order. */
  method ListTodos(session: Option<String>, q: ListQuery, rows: seq<Todo>) returns (resp: ListResponse)
    requires PositiveParam(q.page) && PositiveParam(q.limit)
    ensures session.None? <==> resp.ListUnauthorized?
    ensures resp.ListPage? ==>
              var page := NumberOr(q.page, 1);
              var limit := NumberOr(q.limit, 10);
              var listed := ListedRows(q, session.value, rows);
              resp.todos == Window(listed, Skip(page, limit), limit)
              && resp.pagination == QueryCache.Pagination(|listed|, page, limit, CeilDiv(|listed|, limit))
  {
    if session.None? {
      return ListUnauthorized;
    }
    var page := NumberOr(q.page, 1);
    var limit := NumberOr(q.limit, 10);
    var skip := Skip(page, limit);
    var w := BuildWhere(q, session.value);
    var matching := Selected(w, rows);
    SelectedIsListed(w, q, session.value, rows);
    var todos := Window(matching, skip, limit);
    var total := |matching|;
    resp := ListPage(todos, QueryCache.Pagination(total, page, limit, CeilDiv(total, limit)));
  }

  // ---------------------------------------------------------------------------
  // POST: mentions

  /** `mention.replace("@", "")`: only the first `@` goes. */
  function StripFirstAt(m: String): (r: String)
    ensures '@' !in m ==> r == m
    ensures '@' in m ==> var k := IndexOf(m, '@'); 0 <= k && r == m[..k] + m[k + 1..]
  {
    if m == [] then []
    else if m[0] == '@' then
      assert m[..0] + m[1..] == m[1..];
      m[1..]
    else
      var rest := StripFirstAt(m[1..]);
      if '@' in m[1..] then
        var k := IndexOf(m[1..], '@');
        assert IndexOf(m, '@') == k + 1;
        DropAfterHead(m, k);
        [m[0]] + rest
      else
        assert [m[0]] + m[1..] == m;
        [m[0]] + rest
  }

  /** Dropping position `k` of the tail is dropping position `k + 1` of the whole. */
  lemma DropAfterHead(m: String, k: int)
    requires 0 <= k < |m| - 1
    ensures [m[0]] + (m[1..][..k] + m[1..][k + 1..]) == m[..k + 1] + m[k + 2..]
  {
    assert [m[0]] + m[1..][..k] == m[..k + 1];
    assert m[1..][k + 1..] == m[k + 2..];
  }

  lemma StripLeadingAt(w: String)
    ensures StripFirstAt("@" + w) == w
  {
  }

  /** Case-insensitive `equals` on a nullable column: null equals nothing. */
  predicate ColumnEquals(column: Option<String>, s: String) {
    column.Some? && EqualsIgnoreCase(column.value, s)
  }

  /** The `OR` over mentions: the username or the name equals some mention without its `@`. */
  predicate MatchesSomeMention(u: User, mentions: seq<String>) {
    exists i :: 0 <= i < |mentions| &&
      (ColumnEquals(u.username, StripFirstAt(mentions[i])) || ColumnEquals(u.name, StripFirstAt(mentions[i])))
  }

  /** `prisma.user.findMany` with that `OR`, in table order. */
  function MentionedUsers(users: seq<User>, mentions: seq<String>): (r: seq<User>)
    ensures |r| <= |users|
    ensures forall u :: u in r <==> u in users && MatchesSomeMention(u, mentions)
  {
    if users == [] then []
    else (if MatchesSomeMention(users[0], mentions) then [users[0]] else []) + MentionedUsers(users[1..], mentions)
  }

  /** `mentionedUsers.map(user => ({ todoId, userId: user.id }))`. */
  function MentionRecords(todoId: String, users: seq<User>): (r: seq<(String, String)>)
    ensures |r| == |users|
    ensures forall i :: 0 <= i < |users| ==> r[i] == (todoId, users[i].id)
  {
    if users == [] then [] else [(todoId, users[0].id)] + MentionRecords(todoId, users[1..])
  }

  // ---------------------------------------------------------------------------
  // POST

  /** What `POST` stores: the todo's fields, its tag names (each connected to
      the tag of that name, or a new one) and the mention records. */
  datatype StoredTodo = StoredTodo(
    id: String, title: String, description: String, priority: Priority, userId: String,
    tagNames: seq<String>, mentions: seq<(String, String)>)

  datatype CreateResponse =
    | CreateUnauthorized
    | InvalidInput
    | Created(todo: StoredTodo)

  /** `POST /api/todos`. `extractMentions` is the helper that finds the
      mentions in a description; `users` is the user table and `newId` the id
      the database gives the row. */
  method CreateTodo(session: Option<String>, body: Validations.TodoBody, extractMentions: String -> seq<String>,
                    users: seq<User>, newId: String) returns (resp: CreateResponse)
    ensures session.None? <==> resp.CreateUnauthorized?
    ensures session.Some? ==> (resp.InvalidInput? <==> Validations.ParseCreateTodo(body).None?)
    ensures resp.Created? ==>
              var input := Validations.ParseCreateTodo(body).value;
              var mentions := extractMentions(OrElse(input.description, []));
              resp.todo.id == newId && resp.todo.title == input.title
              && resp.todo.description == OrElse(input.description, [])
              && resp.todo.priority == input.priority && resp.todo.userId == session.value
              && resp.todo.tagNames == (if input.tags.Some? then input.tags.value else [])
              && resp.todo.mentions == (if |mentions| > 0 then MentionRecords(newId, MentionedUsers(users, mentions)) else [])
  {
    if session.None? {
      return CreateUnauthorized;
    }
    var parsed := Validations.ParseCreateTodo(body);
    if parsed.None? {
      return InvalidInput;
    }
    var input := parsed.value;
    var mentions := extractMentions(OrElse(input.description, []));
    var todo := StoredTodo(newId, input.title, OrElse(input.description, []), input.priority, session.value,
                           if input.tags.Some? then input.tags.value else [], []);
    if |mentions| > 0 {
      var mentioned := MentionedUsers(users, mentions);
      if |mentioned| > 0 {
        todo := todo.(mentions := MentionRecords(newId, mentioned));
      }
    }
    resp := Created(todo);
  }

  /** The priority is required by the schema, so the route's `"MEDIUM"`
      fallback is never used: a body without one is refused. */
  lemma MissingPriorityRefused(session: String, body: Validations.TodoBody, extractMentions: String -> seq<String>,
                               users: seq<User>, newId: String)
    requires body.priority.None?
    ensures Validations.ParseCreateTodo(body).None?
  {
  }

  /** The mention words the description highlighter finds (`@(\w+)`), each
      with its `@`: the rule assumed for `extractMentions`. */
  function AssumedExtractMentions(description: String): (mentions: seq<String>)
    ensures var words := TodoItem.MentionWords(TodoItem.Scan(description));
            |mentions| == |words| && forall i :: 0 <= i < |words| ==> mentions[i] == "@" + words[i]
  {
    var words := TodoItem.MentionWords(TodoItem.Scan(description));
    seq(|words|, i requires 0 <= i < |words| => "@" + words[i])
  }

  /** One of the words equals, ignoring case, the user's username or name. */
  predicate SomeWordNames(u: User, words: seq<String>) {
    exists i :: 0 <= i < |words| && (ColumnEquals(u.username, words[i]) || ColumnEquals(u.name, words[i]))
  }

  /** Mentions that are words with an `@` in front match a user exactly when
      one of the words names the user. */
  lemma MentionsOfWords(u: User, words: seq<String>, mentions: seq<String>)
    requires |mentions| == |words|
    requires forall i :: 0 <= i < |words| ==> mentions[i] == "@" + words[i]
    ensures MatchesSomeMention(u, mentions) <==> SomeWordNames(u, words)
  {
    forall i | 0 <= i < |words|
      ensures StripFirstAt(mentions[i]) == words[i]
    {
      StripLeadingAt(words[i]);
    }
  }

  /** Under the assumed rule, a user is linked exactly when their username or
      name equals, ignoring case, a word written after an `@` in the description. */
  lemma AssumedMentionRule(u: User, description: String)
    ensures MatchesSomeMention(u, AssumedExtractMentions(description))
            <==> SomeWordNames(u, TodoItem.MentionWords(TodoItem.Scan(description)))
  {
    MentionsOfWords(u, TodoItem.MentionWords(TodoItem.Scan(description)), AssumedExtractMentions(description));
  }
}

/** The records the application passes around: a todo with its tags, notes and
    mentions as the API returns it (`DetailedTodo` in lib/types.ts), and the
    users it refers to. Timestamps are kept as the ISO strings the client sees. */
module Domain {
  import opened Strings

  datatype Option<+T> = None | Some(value: T)

  datatype Priority = HIGH | MEDIUM | LOW

  function PriorityName(p: Priority): (r: String)
    ensures |r| >= 3
  {
    match p
    case HIGH => "HIGH"
    case MEDIUM => "MEDIUM"
    case LOW => "LOW"
  }

  /** The priority a string names, if any (the enum accepts exactly these three spellings). */
  function ParsePriority(s: String): (r: Option<Priority>)
    ensures r.Some? ==> PriorityName(r.value) == s
  {
    if s == "HIGH" then Some(HIGH)
    else if s == "MEDIUM" then Some(MEDIUM)
    else if s == "LOW" then Some(LOW)
    else None
  }

  lemma ParsePriorityName(p: Priority)
    ensures ParsePriority(PriorityName(p)) == Some(p)
  {
  }

  /** A user as the directory returns it; `name` and `username` may be null. */
  datatype User = User(id: String, name: Option<String>, username: Option<String>, email: String)

  datatype Tag = Tag(id: String, name: String)

  /** A note; `author` is the `user` object the client attaches, when any. */
  datatype Note = Note(id: String, content: String, todoId: String, createdAt: String, author: Option<User>)

  datatype Mention = Mention(id: String, todoId: String, user: User)

  /** A todo with its relations. `userId` is absent on a todo the client made up itself. */
  datatype Todo = Todo(
    id: String,
    title: String,
    description: String,
    priority: Priority,
    createdAt: String,
    updatedAt: String,
    userId: Option<String>,
    tags: seq<Tag>,
    notes: seq<Note>,
    mentions: seq<Mention>)

  /** `tags.map(tag => tag.name)`. */
  function TagNames(tags: seq<Tag>): (names: seq<String>)
    ensures |names| == |tags|
    ensures forall i :: 0 <= i < |tags| ==> names[i] == tags[i].name
  {
    if tags == [] then [] else [tags[0].name] + TagNames(tags[1..])
  }

  /** JavaScript truthiness of an optional string: present and not empty. */
  predicate Truthy(s: Option<String>) {
    s.Some? && s.value != []
  }

  /** `a || b` on optional strings. */
  function OrElse(a: Option<String>, b: String): (r: String)
    ensures Truthy(a) ==> r == a.value
    ensures !Truthy(a) ==> r == b
  {
    if a.Some? && a.value != [] then a.value else b
  }
}

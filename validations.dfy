/** The request schemas (lib/validations.ts) as predicates over the fields they
    check. Lengths count characters. The e-mail format rule belongs to the
    validation library and is an input here (`emailOk`). */
module Validations {
  import opened Strings
  import opened Domain
  import TodoList

  predicate HasUpperAscii(s: String) {
    exists i :: 0 <= i < |s| && IsUpperAscii(s[i])
  }

  predicate HasDigit(s: String) {
    exists i :: 0 <= i < |s| && IsDigit(s[i])
  }

  /** The fields `userLoginSchema` reports a problem on. */
  function LoginIssues(password: String, emailOk: bool): (paths: set<String>)
    ensures "email" in paths <==> !emailOk
    ensures "password" in paths <==> |password| < 8
    ensures paths <= {"email", "password"}
  {
    (if !emailOk then {"email"} else {}) + (if |password| < 8 then {"password"} else {})
  }

  /** `userLoginSchema`: a login parses exactly when no field is reported. */
  function LoginValid(password: String, emailOk: bool): (ok: bool)
    ensures ok <==> LoginIssues(password, emailOk) == {}
    ensures ok ==> |password| >= 8
  {
    var paths := LoginIssues(password, emailOk);
    assert paths == {} <==> "email" !in paths && "password" !in paths;
    emailOk && |password| >= 8
  }

  datatype SignupInput = SignupInput(name: String, username: String, email: String, password: String, confirmPassword: String)

  /** The password rule of `userSignupSchema`: eight characters, an upper-case letter and a digit. */
  predicate StrongPassword(p: String) {
    |p| >= 8 && HasUpperAscii(p) && HasDigit(p)
  }

  /** The fields `userSignupSchema` reports a problem on. */
  function SignupIssues(s: SignupInput, emailOk: bool): (paths: set<String>)
    ensures "name" in paths <==> |s.name| < 2
    ensures "username" in paths <==> |s.username| < 5
    ensures "email" in paths <==> !emailOk
    ensures "password" in paths <==> !StrongPassword(s.password)
    ensures "confirmPassword" in paths <==> s.password != s.confirmPassword
    ensures paths <= {"name", "username", "email", "password", "confirmPassword"}
  {
    (if |s.name| < 2 then {"name"} else {})
    + (if |s.username| < 5 then {"username"} else {})
    + (if !emailOk then {"email"} else {})
    + (if !StrongPassword(s.password) then {"password"} else {})
    + (if s.password != s.confirmPassword then {"confirmPassword"} else {})
  }

  predicate SignupValid(s: SignupInput, emailOk: bool) {
    |s.name| >= 2 && |s.username| >= 5 && emailOk && StrongPassword(s.password) && s.password == s.confirmPassword
  }

  /** A signup is accepted exactly when no field is reported, and a password
      that differs from its confirmation is reported on `confirmPassword` alone
      when everything else holds. */
  lemma SignupIssuesSpec(s: SignupInput, emailOk: bool)
    ensures SignupValid(s, emailOk) <==> SignupIssues(s, emailOk) == {}
    ensures |s.name| >= 2 && |s.username| >= 5 && emailOk && StrongPassword(s.password) && s.password != s.confirmPassword
            ==> SignupIssues(s, emailOk) == {"confirmPassword"}
  {
    var paths := SignupIssues(s, emailOk);
    if paths == {} {
      assert "name" !in paths && "username" !in paths && "email" !in paths;
      assert "password" !in paths && "confirmPassword" !in paths;
    }
  }

  predicate TitleValid(t: String) {
    1 <= |t| <= 100
  }

  predicate DescriptionValid(d: Option<String>) {
    d.None? || |d.value| <= 500
  }

  /** A request body as it arrives: each field a string, a list of strings, or missing. */
  datatype TodoBody = TodoBody(title: Option<String>, description: Option<String>, priority: Option<String>, tags: Option<seq<String>>)

  /** `createTodoSchema.safeParse(body)`: title required, description optional
      and bounded, priority required and one of the three names, tags optional. */
  function ParseCreateTodo(b: TodoBody): (r: Option<TodoList.CreateTodoInput>)
    ensures r.Some? <==> b.title.Some? && TitleValid(b.title.value) && DescriptionValid(b.description)
                         && b.priority.Some? && ParsePriority(b.priority.value).Some?
    ensures r.Some? ==> r.value.title == b.title.value && r.value.description == b.description
                        && PriorityName(r.value.priority) == b.priority.value && r.value.tags == b.tags
  {
    if b.title.Some? && TitleValid(b.title.value) && DescriptionValid(b.description)
       && b.priority.Some? && ParsePriority(b.priority.value).Some?
    then Some(TodoList.CreateTodoInput(b.title.value, b.description, ParsePriority(b.priority.value).value, b.tags))
    else None
  }

  /** The body the create dialog sends for a form value is accepted back as that value. */
  lemma ParseCreateTodoRoundTrip(input: TodoList.CreateTodoInput)
    requires TitleValid(input.title) && DescriptionValid(input.description)
    ensures ParseCreateTodo(TodoBody(Some(input.title), input.description, Some(PriorityName(input.priority)), input.tags)) == Some(input)
  {
    ParsePriorityName(input.priority);
  }

  /** The fields of `updateTodoSchema`: every one optional, each checked when present. */
  datatype UpdateTodoInput = UpdateTodoInput(title: Option<String>, description: Option<String>, priority: Option<Priority>, tags: Option<seq<String>>)

  function ParseUpdateTodo(b: TodoBody): (r: Option<UpdateTodoInput>)
    ensures r.Some? <==> (b.title.None? || TitleValid(b.title.value)) && DescriptionValid(b.description)
                         && (b.priority.None? || ParsePriority(b.priority.value).Some?)
    ensures r.Some? ==> r.value.title == b.title && r.value.description == b.description && r.value.tags == b.tags
                        && (r.value.priority.Some? <==> b.priority.Some?)
                        && (r.value.priority.Some? ==> PriorityName(r.value.priority.value) == b.priority.value)
  {
    if (b.title.None? || TitleValid(b.title.value)) && DescriptionValid(b.description)
       && (b.priority.None? || ParsePriority(b.priority.value).Some?)
    then Some(UpdateTodoInput(b.title, b.description,
                              if b.priority.Some? then ParsePriority(b.priority.value) else None, b.tags))
    else None
  }

  /** An empty update is valid; an empty creation is not. */
  lemma EmptyBodies()
    ensures ParseUpdateTodo(TodoBody(None, None, None, None)) == Some(UpdateTodoInput(None, None, None, None))
    ensures ParseCreateTodo(TodoBody(None, None, None, None)).None?
  {
  }

  /** The fields `createNoteSchema` reports a problem on. */
  function NoteIssues(todoId: String, content: String): (paths: set<String>)
    ensures "todoId" in paths <==> |todoId| < 1
    ensures "content" in paths <==> |content| < 1 || |content| > 500
    ensures paths <= {"todoId", "content"}
  {
    (if |todoId| < 1 then {"todoId"} else {}) + (if |content| < 1 || |content| > 500 then {"content"} else {})
  }

  /** `createNoteSchema`: a note parses exactly when no field is reported. */
  function NoteValid(todoId: String, content: String): (ok: bool)
    ensures ok <==> NoteIssues(todoId, content) == {}
    ensures ok ==> todoId != [] && content != [] && |content| <= 500
  {
    var paths := NoteIssues(todoId, content);
    assert paths == {} <==> "todoId" !in paths && "content" !in paths;
    |todoId| >= 1 && 1 <= |content| <= 500
  }
}

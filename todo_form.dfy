/** The editing logic the create and edit dialogs share
    (components/create-todo-dialog.tsx, components/edit-todo-dialog.tsx): the
    tag list, the `@` mention query before the caret, splicing a chosen user
    into the description, the suggestion list and its keyboard selection. */
module TodoForm {
  import opened Strings
  import opened Domain

  /** The values a todo dialog's form holds. */
  datatype FormValues = FormValues(title: String, description: String, priority: Priority, tags: seq<String>)

  // ---------------------------------------------------------------------------
  // Tags

  /** The form's tag list and the tag input box. */
  datatype TagForm = TagForm(tags: seq<String>, input: String)

  predicate NoDuplicates(s: seq<String>) {
    forall i, j :: 0 <= i < j < |s| ==> s[i] != s[j]
  }

  /** Tags as the add handler produces them: distinct, non-empty and trimmed. */
  predicate CleanTags(tags: seq<String>) {
    NoDuplicates(tags) && forall i :: 0 <= i < |tags| ==> tags[i] != [] && Trim(tags[i]) == tags[i]
  }

  /** `handleAddTag`: the trimmed input is appended when it is not blank and
      not already a tag, and the input box is cleared only then. */
  function AddTag(f: TagForm): (r: TagForm)
    ensures r.tags == f.tags || r.tags == f.tags + [Trim(f.input)]
    ensures r.tags != f.tags <==> !IsBlank(f.input) && Trim(f.input) !in f.tags
    ensures r.tags != f.tags ==> r.input == []
    ensures r.tags == f.tags ==> r.input == f.input
    ensures !IsBlank(f.input) ==> Trim(f.input) in r.tags
    ensures NoDuplicates(f.tags) ==> NoDuplicates(r.tags)
  {
    var t := Trim(f.input);
    if t != [] && t !in f.tags then TagForm(f.tags + [t], []) else f
  }

  /** Adding keeps the tag list clean. */
  lemma AddTagKeepsClean(f: TagForm)
    requires CleanTags(f.tags)
    ensures CleanTags(AddTag(f).tags)
  {
    TrimIdempotent(f.input);
  }

  /** `handleRemoveTag`: `tags.filter(tag => tag !== x)`. */
  function RemoveTag(tags: seq<String>, x: String): (r: seq<String>)
    ensures forall t :: t in r <==> t in tags && t != x
    ensures |r| <= |tags|
  {
    if tags == [] then []
    else (if tags[0] != x then [tags[0]] else []) + RemoveTag(tags[1..], x)
  }

  /** Removal keeps the other tags in their order: it distributes over concatenation. */
  lemma {:induction false} RemoveTagConcat(a: seq<String>, b: seq<String>, x: String)
    ensures RemoveTag(a + b, x) == RemoveTag(a, x) + RemoveTag(b, x)
  {
    if a == [] {
      assert a + b == b;
    } else {
      assert (a + b)[0] == a[0];
      assert (a + b)[1..] == a[1..] + b;
      RemoveTagConcat(a[1..], b, x);
    }
  }

  /** Removing a tag that is not there changes nothing. */
  lemma {:induction false} RemoveTagAbsent(tags: seq<String>, x: String)
    requires x !in tags
    ensures RemoveTag(tags, x) == tags
  {
    if tags != [] {
      assert tags[0] in tags;
      assert forall t :: t in tags[1..] ==> t in tags;
      RemoveTagAbsent(tags[1..], x);
    }
  }

  /** Removing the tag just added gives the earlier list back. */
  lemma RemoveUndoesAdd(f: TagForm)
    requires !IsBlank(f.input) && Trim(f.input) !in f.tags
    ensures RemoveTag(AddTag(f).tags, Trim(f.input)) == f.tags
  {
    var t := Trim(f.input);
    RemoveTagConcat(f.tags, [t], t);
    RemoveTagAbsent(f.tags, t);
    assert RemoveTag([t], t) == [] + RemoveTag([t][1..], t);
  }

  // ---------------------------------------------------------------------------
  // The mention query before the caret

  /** `value.substring(0, cursor)` and `value.substring(cursor)`. */
  function Before(s: String, cursor: int): String {
    Substring(s, 0, cursor)
  }

  function After(s: String, cursor: int): String {
    SubstringFrom(s, cursor)
  }

  /** The caret splits the text, wherever it is. */
  lemma BeforeAfter(s: String, cursor: int)
    ensures Before(s, cursor) + After(s, cursor) == s
  {
    if 0 <= cursor <= |s| {
      assert s[..cursor] + s[cursor..] == s;
    } else if cursor < 0 {
      assert Before(s, cursor) == s[0..0];
    } else {
      assert Before(s, cursor) == s[0..|s|];
    }
  }

  /** What `handleDescriptionChange` decides: the text after the last `@`
      before the caret when it holds no space, and no query otherwise. */
  function MentionQuery(value: String, cursor: int): (q: Option<String>)
    ensures q.Some? ==> ' ' !in q.value && '@' !in q.value
  {
    var before := Before(value, cursor);
    var at := LastIndexOf(before, '@');
    if at != -1 && !Includes(SubstringFrom(before, at + 1), " ") then
      IncludesChar(SubstringFrom(before, at + 1), ' ');
      Some(SubstringFrom(before, at + 1))
    else None
  }

  /** `before` ends with `@` and then `q`, and `q` holds no `@` and no space. */
  predicate EndsWithMention(before: String, q: String) {
    |q| < |before| && before[|before| - |q| - 1] == '@' && before[|before| - |q|..] == q
    && '@' !in q && ' ' !in q
  }

  /** Suggestions open with query `q` exactly when the text before the caret
      ends with `@q`, with neither an `@` nor a space in `q`. */
  lemma MentionQuerySpec(value: String, cursor: int, q: String)
    ensures MentionQuery(value, cursor) == Some(q) <==> EndsWithMention(Before(value, cursor), q)
  {
    var before := Before(value, cursor);
    var at := LastIndexOf(before, '@');
    if MentionQuery(value, cursor) == Some(q) {
      assert q == before[at + 1..];
      forall k | 0 <= k < |q|
        ensures q[k] != '@'
      {
        assert q[k] == before[at + 1 + k];
      }
    }
    if EndsWithMention(before, q) {
      IncludesChar(before[at + 1..], ' ');
    }
  }

  // ---------------------------------------------------------------------------
  // Splicing a chosen user into the description

  /** The new description and the caret position the focus callback sets. */
  datatype Splice = Splice(text: String, cursor: int)

  /** `handleSelectMention` as written: the caret goes to `atSignIndex + |username| + 2`. */
  function SelectMentionAsWritten(description: String, cursor: int, username: String): (r: Splice)
    ensures r.text == Substring(Before(description, cursor), 0, LastIndexOf(Before(description, cursor), '@'))
                      + "@" + username + " " + After(description, cursor)
    ensures r.cursor == LastIndexOf(Before(description, cursor), '@') + |username| + 2
  {
    var before := Before(description, cursor);
    var at := LastIndexOf(before, '@');
    Splice(Substring(before, 0, at) + "@" + username + " " + After(description, cursor), at + |username| + 2)
  }

  /** `handleSelectMention` with the caret placed after the inserted
      `@username ` in every case, as the source's comment says it should be. */
  function SelectMention(description: String, cursor: int, username: String): (r: Splice)
    ensures 0 <= r.cursor <= |r.text|
    ensures r.text[r.cursor..] == After(description, cursor)
    ensures r.cursor >= |username| + 2 && r.text[r.cursor - |username| - 2..r.cursor] == "@" + username + " "
  {
    var before := Before(description, cursor);
    var kept := Substring(before, 0, LastIndexOf(before, '@'));
    var text := kept + "@" + username + " " + After(description, cursor);
    assert text == (kept + ("@" + username + " ")) + After(description, cursor);
    Splice(text, |kept| + |username| + 2)
  }

  /** With an `@` before the caret the two agree. */
  lemma SelectMentionAgrees(description: String, cursor: int, username: String)
    requires '@' in Before(description, cursor)
    ensures SelectMentionAsWritten(description, cursor, username) == SelectMention(description, cursor, username)
  {
  }

  /** With no `@` before the caret everything before it is dropped, and the
      caret as written lands between the username and the space inserted after
      it, one position short of the corrected one. */
  lemma SelectMentionCaretShort(description: String, cursor: int, username: String)
    requires '@' !in Before(description, cursor)
    ensures var w := SelectMentionAsWritten(description, cursor, username);
            w.text == "@" + username + " " + After(description, cursor)
            && w.cursor == |username| + 1 && w.text[w.cursor] == ' '
            && SelectMention(description, cursor, username).cursor == w.cursor + 1
  {
    var before := Before(description, cursor);
    var w := SelectMentionAsWritten(description, cursor, username);
    assert w.text == ("@" + username) + [' '] + After(description, cursor);
  }

  /** Choosing a user while the query `q` is open replaces `@q` by
      `@username ` and keeps the text on both sides. */
  lemma SelectReplacesQuery(description: String, cursor: int, q: String, username: String)
    requires MentionQuery(description, cursor) == Some(q)
    ensures var before := Before(description, cursor);
            var kept := before[..|before| - |q| - 1];
            before == kept + "@" + q
            && SelectMention(description, cursor, username) == Splice(kept + "@" + username + " " + After(description, cursor), |kept| + |username| + 2)
  {
    var before := Before(description, cursor);
    MentionQuerySpec(description, cursor, q);
    var j := |before| - |q| - 1;
    assert before == before[..j] + [before[j]] + before[j + 1..];
  }

  // ---------------------------------------------------------------------------
  // Suggestions

  /** A user matches when the lower-cased username or name contains the
      lower-cased query; a missing field counts as empty. */
  predicate UserMatches(u: User, query: String) {
    Includes(Lower(OrElse(u.username, [])), Lower(query)) || Includes(Lower(OrElse(u.name, [])), Lower(query))
  }

  /** `users.filter(...)`. */
  function MatchingUsers(users: seq<User>, query: String): (r: seq<User>)
    ensures |r| <= |users|
    ensures forall u :: u in r <==> u in users && UserMatches(u, query)
  {
    if users == [] then []
    else (if UserMatches(users[0], query) then [users[0]] else []) + MatchingUsers(users[1..], query)
  }

  /** The filter keeps the users' order: it distributes over concatenation. */
  lemma {:induction false} MatchingUsersConcat(a: seq<User>, b: seq<User>, query: String)
    ensures MatchingUsers(a + b, query) == MatchingUsers(a, query) + MatchingUsers(b, query)
  {
    if a == [] {
      assert a + b == b;
    } else {
      assert (a + b)[0] == a[0];
      assert (a + b)[1..] == a[1..] + b;
      MatchingUsersConcat(a[1..], b, query);
    }
  }

  /** `.slice(0, 5)` of the matches. */
  function Suggestions(users: seq<User>, query: String): (r: seq<User>)
    ensures |r| == if |MatchingUsers(users, query)| < 5 then |MatchingUsers(users, query)| else 5
    ensures r == MatchingUsers(users, query)[..|r|]
    ensures forall u :: u in r ==> u in users && UserMatches(u, query)
  {
    var m := MatchingUsers(users, query);
    var r := if |m| <= 5 then m else m[..5];
    assert forall u :: u in r ==> u in m;
    r
  }

  lemma IncludesEmpty(s: String)
    ensures Includes(s, [])
  {
    IncludesIffOccurs(s, []);
    assert OccursAt(s, [], 0);
  }

  /** An empty query (just after typing `@`) matches everyone: the first five users are offered. */
  lemma {:induction false} EmptyQueryMatchesAll(users: seq<User>)
    ensures MatchingUsers(users, []) == users
  {
    if users != [] {
      IncludesEmpty(Lower(OrElse(users[0].username, [])));
      EmptyQueryMatchesAll(users[1..]);
    }
  }

  /** `user.username || user.name || ""`: what Enter inserts for the selected user. */
  function MentionHandle(u: User): (h: String)
    ensures Truthy(u.username) ==> h == u.username.value
    ensures !Truthy(u.username) ==> h == OrElse(u.name, [])
  {
    OrElse(u.username, OrElse(u.name, []))
  }

  // ---------------------------------------------------------------------------
  // Keyboard selection

  datatype KeyPress = ArrowDown | ArrowUp | Enter | Escape | OtherKey

  /** `(prev + 1) % n`. */
  function NextIndex(i: nat, n: nat): (r: nat)
    requires n > 0
    ensures r < n
    ensures i + 1 < n ==> r == i + 1
    ensures i + 1 == n ==> r == 0
  {
    (i + 1) % n
  }

  /** `(prev - 1 + n) % n`; the operand is never negative for a selection in range. */
  function PrevIndex(i: nat, n: nat): (r: nat)
    requires n > 0
    ensures r < n
    ensures 0 < i < n ==> r == i - 1
    ensures i == 0 ==> r == n - 1
  {
    (i - 1 + n) % n
  }

  /** Up undoes down and down undoes up. */
  lemma PrevUndoesNext(i: nat, n: nat)
    requires i < n
    ensures PrevIndex(NextIndex(i, n), n) == i
    ensures NextIndex(PrevIndex(i, n), n) == i
  {
  }

  /** `k` presses of ArrowDown. */
  function PressDown(i: nat, n: nat, k: nat): (r: nat)
    requires n > 0
    ensures r < n || (k == 0 && r == i)
  {
    if k == 0 then i else NextIndex(PressDown(i, n, k - 1), n)
  }

  /** Pressing ArrowDown `k` times (at most once round) moves the selection
      `k` places on, wrapping past the last suggestion to the first. */
  lemma {:induction false} PressDownWraps(i: nat, n: nat, k: nat)
    requires i < n && k <= n
    ensures PressDown(i, n, k) == if i + k < n then i + k else i + k - n
  {
    if k > 0 {
      PressDownWraps(i, n, k - 1);
    }
  }

  /** Going down once per suggestion comes back to where it started. */
  lemma FullCycle(i: nat, n: nat)
    requires i < n
    ensures PressDown(i, n, n) == i
  {
    PressDownWraps(i, n, n);
  }
}

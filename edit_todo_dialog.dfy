/** The edit dialog (components/edit-todo-dialog.tsx): a form seeded from the
    todo, the tag handlers, and mention suggestions kept in a state field
    that an effect refills, with the selection back at the top, whenever the
    user list or the query changes. */
module EditTodoDialog {
  import opened Strings
  import opened Domain
  import opened TodoForm
  import TodoList

  /** Names turned into the client's placeholder tags and read back give the names again. */
  lemma TagNamesOfNames(names: seq<String>)
    ensures TagNames(TodoList.TagsFromNames(names)) == names
  {
    var back := TagNames(TodoList.TagsFromNames(names));
    assert forall i :: 0 <= i < |names| ==> back[i] == names[i];
  }

  /** The form defaults and the reset on a new todo: the todo's own fields. */
  function DefaultsFrom(todo: Todo): (v: FormValues)
    ensures v.title == todo.title && v.description == todo.description && v.priority == todo.priority
    ensures v.tags == TagNames(todo.tags)
  {
    FormValues(todo.title, todo.description, todo.priority, TagNames(todo.tags))
  }

  class Dialog {
    var users: seq<User>
    var values: FormValues
    var tagInput: String
    var showMentionSuggestions: bool
    var mentionQuery: String
    var cursorPosition: int
    var selectedSuggestionIndex: nat
    var filteredUsers: seq<User>
    /** Where the focus callback puts the caret after a mention is chosen. */
    var caret: Option<int>

    /** The list is the effect's result for the current users and query, and
        the selection is the top or a row of the list. */
    ghost predicate Valid()
      reads this
    {
      filteredUsers == Suggestions(users, mentionQuery)
      && (selectedSuggestionIndex == 0 || selectedSuggestionIndex < |filteredUsers|)
    }

    /** Mount: defaults from the todo, no users loaded yet, the effect run once. */
    constructor (todo: Todo)
      ensures Valid()
      ensures values == DefaultsFrom(todo) && tagInput == [] && users == []
      ensures !showMentionSuggestions && mentionQuery == [] && cursorPosition == 0
      ensures selectedSuggestionIndex == 0 && filteredUsers == [] && caret == None
    {
      users := [];
      values := DefaultsFrom(todo);
      tagInput := [];
      showMentionSuggestions := false;
      mentionQuery := [];
      cursorPosition := 0;
      selectedSuggestionIndex := 0;
      filteredUsers := [];
      caret := None;
    }

    /** The effect on `[users, mentionQuery]`. */
    method RefreshSuggestions()
      modifies this
      ensures Valid()
      ensures filteredUsers == Suggestions(users, mentionQuery) && selectedSuggestionIndex == 0
      ensures users == old(users) && values == old(values) && tagInput == old(tagInput)
      ensures showMentionSuggestions == old(showMentionSuggestions) && mentionQuery == old(mentionQuery)
      ensures cursorPosition == old(cursorPosition) && caret == old(caret)
    {
      filteredUsers := Suggestions(users, mentionQuery);
      selectedSuggestionIndex := 0;
    }

    /** The `["users"]` query delivers a list: the effect runs again. */
    method ReceiveUsers(us: seq<User>)
      modifies this
      ensures Valid()
      ensures users == us && filteredUsers == Suggestions(us, mentionQuery) && selectedSuggestionIndex == 0
      ensures values == old(values) && tagInput == old(tagInput)
      ensures showMentionSuggestions == old(showMentionSuggestions) && mentionQuery == old(mentionQuery)
      ensures cursorPosition == old(cursorPosition) && caret == old(caret)
    {
      users := us;
      RefreshSuggestions();
    }

    /** The effect on a new `todo`: the form goes back to its fields. */
    method ResetFrom(todo: Todo)
      requires Valid()
      modifies this
      ensures Valid()
      ensures values == DefaultsFrom(todo)
      ensures users == old(users) && tagInput == old(tagInput) && filteredUsers == old(filteredUsers)
      ensures showMentionSuggestions == old(showMentionSuggestions) && mentionQuery == old(mentionQuery)
      ensures cursorPosition == old(cursorPosition) && selectedSuggestionIndex == old(selectedSuggestionIndex)
      ensures caret == old(caret)
    {
      values := DefaultsFrom(todo);
    }

    /** `handleAddTag`. */
    method HandleAddTag()
      requires Valid()
      modifies this
      ensures Valid()
      ensures TagForm(values.tags, tagInput) == AddTag(TagForm(old(values.tags), old(tagInput)))
      ensures values == old(values).(tags := values.tags)
      ensures users == old(users) && filteredUsers == old(filteredUsers)
      ensures showMentionSuggestions == old(showMentionSuggestions) && mentionQuery == old(mentionQuery)
      ensures cursorPosition == old(cursorPosition) && selectedSuggestionIndex == old(selectedSuggestionIndex)
      ensures caret == old(caret)
    {
      var r := AddTag(TagForm(values.tags, tagInput));
      values := values.(tags := r.tags);
      tagInput := r.input;
    }

    /** `handleRemoveTag(x)`. */
    method HandleRemoveTag(x: String)
      requires Valid()
      modifies this
      ensures Valid()
      ensures values == old(values).(tags := RemoveTag(old(values.tags), x))
      ensures users == old(users) && tagInput == old(tagInput) && filteredUsers == old(filteredUsers)
      ensures showMentionSuggestions == old(showMentionSuggestions) && mentionQuery == old(mentionQuery)
      ensures cursorPosition == old(cursorPosition) && selectedSuggestionIndex == old(selectedSuggestionIndex)
      ensures caret == old(caret)
    {
      values := values.(tags := RemoveTag(values.tags, x));
    }

    /** `handleDescriptionChange`: store the text and the caret (`selectionStart || 0`),
        then open suggestions with the query before the caret, or close them.
        A query that differs from the last one re-runs the effect. */
    method HandleDescriptionChange(value: String, selectionStart: Option<int>)
      requires Valid()
      modifies this
      ensures Valid()
      ensures values == old(values).(description := value)
      ensures cursorPosition == (if selectionStart.Some? then selectionStart.value else 0)
      ensures showMentionSuggestions <==> MentionQuery(value, cursorPosition).Some?
      ensures mentionQuery == (if MentionQuery(value, cursorPosition).Some? then MentionQuery(value, cursorPosition).value else old(mentionQuery))
      ensures mentionQuery != old(mentionQuery) ==> selectedSuggestionIndex == 0
      ensures mentionQuery == old(mentionQuery) ==> selectedSuggestionIndex == old(selectedSuggestionIndex) && filteredUsers == old(filteredUsers)
      ensures users == old(users) && tagInput == old(tagInput) && caret == old(caret)
    {
      values := values.(description := value);
      cursorPosition := if selectionStart.Some? then selectionStart.value else 0;
      var q := MentionQuery(value, cursorPosition);
      if q.Some? {
        var changed := q.value != mentionQuery;
        mentionQuery := q.value;
        showMentionSuggestions := true;
        if changed {
          RefreshSuggestions();
        }
      } else {
        showMentionSuggestions := false;
      }
    }

    /** `handleSelectMention(username)`: splice the mention in at the recorded
        caret, close the suggestions and set the caret where the source puts
        it, `atSignIndex + username.length + 2`. That is just after the
        inserted `@username ` when an `@` precedes the caret, and one position
        short of it otherwise. */
    method HandleSelectMention(username: String)
      requires Valid()
      modifies this
      ensures Valid()
      ensures var s := SelectMentionAsWritten(old(values.description), old(cursorPosition), username);
              values == old(values).(description := s.text) && caret == Some(s.cursor)
      ensures '@' in Before(old(values.description), old(cursorPosition)) ==>
                caret == Some(SelectMention(old(values.description), old(cursorPosition), username).cursor)
      ensures !showMentionSuggestions
      ensures users == old(users) && tagInput == old(tagInput) && filteredUsers == old(filteredUsers)
      ensures mentionQuery == old(mentionQuery) && cursorPosition == old(cursorPosition)
      ensures selectedSuggestionIndex == old(selectedSuggestionIndex)
    {
      var s := SelectMentionAsWritten(values.description, cursorPosition, username);
      if '@' in Before(values.description, cursorPosition) {
        SelectMentionAgrees(values.description, cursorPosition, username);
      }
      values := values.(description := s.text);
      showMentionSuggestions := false;
      caret := Some(s.cursor);
    }

    /** `handleKeyDown`: nothing while suggestions are hidden or empty; the
        arrows move the selection round the list, Enter chooses the selected
        user, Escape hides the list. */
    method HandleKeyDown(key: KeyPress)
      requires Valid()
      modifies this
      ensures Valid()
      ensures users == old(users) && tagInput == old(tagInput) && filteredUsers == old(filteredUsers)
      ensures mentionQuery == old(mentionQuery) && cursorPosition == old(cursorPosition)
      ensures !old(showMentionSuggestions) || |filteredUsers| == 0 || key == OtherKey ==>
                values == old(values) && showMentionSuggestions == old(showMentionSuggestions)
                && selectedSuggestionIndex == old(selectedSuggestionIndex) && caret == old(caret)
      ensures old(showMentionSuggestions) && |filteredUsers| > 0 ==>
                (key == ArrowDown ==> selectedSuggestionIndex == NextIndex(old(selectedSuggestionIndex), |filteredUsers|))
                && (key == ArrowUp ==> selectedSuggestionIndex == PrevIndex(old(selectedSuggestionIndex), |filteredUsers|))
                && (key == ArrowDown || key == ArrowUp ==> values == old(values) && showMentionSuggestions && caret == old(caret))
                && (key == Escape ==> !showMentionSuggestions && values == old(values)
                                      && selectedSuggestionIndex == old(selectedSuggestionIndex) && caret == old(caret))
                && (key == Enter ==>
                      var s := SelectMentionAsWritten(old(values.description), cursorPosition, MentionHandle(filteredUsers[old(selectedSuggestionIndex)]));
                      values == old(values).(description := s.text) && caret == Some(s.cursor)
                      && !showMentionSuggestions && selectedSuggestionIndex == old(selectedSuggestionIndex))
    {
      var n := |filteredUsers|;
      if !showMentionSuggestions || n == 0 {
        return;
      }
      match key {
        case ArrowDown =>
          selectedSuggestionIndex := NextIndex(selectedSuggestionIndex, n);
        case ArrowUp =>
          selectedSuggestionIndex := PrevIndex(selectedSuggestionIndex, n);
        case Enter =>
          HandleSelectMention(MentionHandle(filteredUsers[selectedSuggestionIndex]));
        case Escape =>
          showMentionSuggestions := false;
        case OtherKey =>
      }
    }
  }
}

/** The create dialog (components/create-todo-dialog.tsx): the same tag and
    mention handlers as the edit dialog, but the suggestion list is derived on
    every render and the selection returns to the top only when the list's
    length changes. Submitting hands the values to the list view, resets the
    form and closes; the mention state is not reset. */
module CreateTodoDialog {
  import opened Strings
  import opened Domain
  import opened TodoForm
  import TodoList
  import Validations

  /** `defaultValues`: empty title and description, priority MEDIUM, no tags. */
  const Defaults: FormValues := FormValues([], [], MEDIUM, [])

  /** The effect on `filteredUsers.length`: the selection returns to the top
      when the list's length changes and stays put otherwise. */
  function SelectionAfter(users: seq<User>, before: String, after: String, index: nat): (i: nat)
    ensures |Suggestions(users, after)| != |Suggestions(users, before)| ==> i == 0
    ensures |Suggestions(users, after)| == |Suggestions(users, before)| ==> i == index
  {
    if |Suggestions(users, after)| != |Suggestions(users, before)| then 0 else index
  }

  class Dialog {
    var users: seq<User>
    var values: FormValues
    var tagInput: String
    var showMentionSuggestions: bool
    var mentionQuery: String
    var cursorPosition: int
    var selectedSuggestionIndex: nat
    /** Where the focus callback puts the caret after a mention is chosen. */
    var caret: Option<int>

    /** `filteredUsers`, recomputed on each render. */
    function FilteredUsers(): (r: seq<User>)
      reads this
      ensures |r| <= 5
    {
      Suggestions(users, mentionQuery)
    }

    /** The selection is the top or a row of the current list. */
    ghost predicate Valid()
      reads this
    {
      selectedSuggestionIndex == 0 || selectedSuggestionIndex < |FilteredUsers()|
    }

    constructor ()
      ensures Valid()
      ensures values == Defaults && tagInput == [] && users == []
      ensures !showMentionSuggestions && mentionQuery == [] && cursorPosition == 0
      ensures selectedSuggestionIndex == 0 && caret == None
    {
      users := [];
      values := Defaults;
      tagInput := [];
      showMentionSuggestions := false;
      mentionQuery := [];
      cursorPosition := 0;
      selectedSuggestionIndex := 0;
      caret := None;
    }

    /** The `["users"]` query delivers a list; the effect on
        `filteredUsers.length` puts the selection back at the top if the length moved. */
    method ReceiveUsers(us: seq<User>)
      requires Valid()
      modifies this
      ensures Valid()
      ensures users == us
      ensures |FilteredUsers()| != old(|FilteredUsers()|) ==> selectedSuggestionIndex == 0
      ensures |FilteredUsers()| == old(|FilteredUsers()|) ==> selectedSuggestionIndex == old(selectedSuggestionIndex)
      ensures values == old(values) && tagInput == old(tagInput)
      ensures showMentionSuggestions == old(showMentionSuggestions) && mentionQuery == old(mentionQuery)
      ensures cursorPosition == old(cursorPosition) && caret == old(caret)
    {
      var before := |FilteredUsers()|;
      users := us;
      if |FilteredUsers()| != before {
        selectedSuggestionIndex := 0;
      }
    }

    /** `handleAddTag`. */
    method HandleAddTag()
      requires Valid()
      modifies this
      ensures Valid()
      ensures TagForm(values.tags, tagInput) == AddTag(TagForm(old(values.tags), old(tagInput)))
      ensures values == old(values).(tags := values.tags)
      ensures users == old(users)
      ensures showMentionSuggestions == old(showMentionSuggestions) && mentionQuery == old(mentionQuery)
      ensures cursorPosition == old(cursorPosition) && selectedSuggestionIndex == old(selectedSuggestionIndex)
      ensures caret == old(caret)
    {
      var r := AddTag(TagForm(values.tags, tagInput));
      values := values.(tags := r.tags);
      tagInput := r.input;
    }

    /** `handleRemoveTag(x)`. */
    method HandleRemoveTag(x: String)
      requires Valid()
      modifies this
      ensures Valid()
      ensures values == old(values).(tags := RemoveTag(old(values.tags), x))
      ensures users == old(users) && tagInput == old(tagInput)
      ensures showMentionSuggestions == old(showMentionSuggestions) && mentionQuery == old(mentionQuery)
      ensures cursorPosition == old(cursorPosition) && selectedSuggestionIndex == old(selectedSuggestionIndex)
      ensures caret == old(caret)
    {
      values := values.(tags := RemoveTag(values.tags, x));
    }

    /** `handleDescriptionChange`; a new query that changes the list's length
        puts the selection back at the top, one that keeps it does not. */
    method HandleDescriptionChange(value: String, selectionStart: Option<int>)
      requires Valid()
      modifies this
      ensures Valid()
      ensures values == old(values).(description := value)
      ensures cursorPosition == (if selectionStart.Some? then selectionStart.value else 0)
      ensures showMentionSuggestions <==> MentionQuery(value, cursorPosition).Some?
      ensures mentionQuery == (if MentionQuery(value, cursorPosition).Some? then MentionQuery(value, cursorPosition).value else old(mentionQuery))
      ensures var before := |Suggestions(old(users), old(mentionQuery))|;
              var after := |Suggestions(users, mentionQuery)|;
              (after != before ==> selectedSuggestionIndex == 0)
              && (after == before ==> selectedSuggestionIndex == old(selectedSuggestionIndex))
      ensures users == old(users) && tagInput == old(tagInput) && caret == old(caret)
    {
      var cursor := if selectionStart.Some? then selectionStart.value else 0;
      var q := MentionQuery(value, cursor);
      var query := if q.Some? then q.value else mentionQuery;
      var index := SelectionAfter(users, mentionQuery, query, selectedSuggestionIndex);
      values, cursorPosition, showMentionSuggestions, mentionQuery, selectedSuggestionIndex :=
        values.(description := value), cursor, q.Some?, query, index;
    }

    /** `handleSelectMention(username)`: splice the mention in at the recorded
        caret, close the suggestions and set the caret where the source puts
        it, `atSignIndex + username.length + 2`. That is just after the
        inserted `@username ` when an `@` precedes the caret, and one position
        short of it otherwise. */
    method HandleSelectMention(username: String)
      requires Valid()
      modifies this
      ensures Valid()
      ensures var s := SelectMentionAsWritten(old(values.description), old(cursorPosition), username);
              values == old(values).(description := s.text) && caret == Some(s.cursor)
      ensures '@' in Before(old(values.description), old(cursorPosition)) ==>
                caret == Some(SelectMention(old(values.description), old(cursorPosition), username).cursor)
      ensures !showMentionSuggestions
      ensures users == old(users) && tagInput == old(tagInput)
      ensures mentionQuery == old(mentionQuery) && cursorPosition == old(cursorPosition)
      ensures selectedSuggestionIndex == old(selectedSuggestionIndex)
    {
      var s := SelectMentionAsWritten(values.description, cursorPosition, username);
      if '@' in Before(values.description, cursorPosition) {
        SelectMentionAgrees(values.description, cursorPosition, username);
      }
      values := values.(description := s.text);
      showMentionSuggestions := false;
      caret := Some(s.cursor);
    }

    /** `handleKeyDown`, as in the edit dialog. */
    method HandleKeyDown(key: KeyPress)
      requires Valid()
      modifies this
      ensures Valid()
      ensures users == old(users) && tagInput == old(tagInput)
      ensures mentionQuery == old(mentionQuery) && cursorPosition == old(cursorPosition)
      ensures !old(showMentionSuggestions) || |FilteredUsers()| == 0 || key == OtherKey ==>
                values == old(values) && showMentionSuggestions == old(showMentionSuggestions)
                && selectedSuggestionIndex == old(selectedSuggestionIndex) && caret == old(caret)
      ensures old(showMentionSuggestions) && |FilteredUsers()| > 0 ==>
                (key == ArrowDown ==> selectedSuggestionIndex == NextIndex(old(selectedSuggestionIndex), |FilteredUsers()|))
                && (key == ArrowUp ==> selectedSuggestionIndex == PrevIndex(old(selectedSuggestionIndex), |FilteredUsers()|))
                && (key == ArrowDown || key == ArrowUp ==> values == old(values) && showMentionSuggestions && caret == old(caret))
                && (key == Escape ==> !showMentionSuggestions && values == old(values)
                                      && selectedSuggestionIndex == old(selectedSuggestionIndex) && caret == old(caret))
                && (key == Enter ==>
                      var s := SelectMentionAsWritten(old(values.description), cursorPosition, MentionHandle(FilteredUsers()[old(selectedSuggestionIndex)]));
                      values == old(values).(description := s.text) && caret == Some(s.cursor)
                      && !showMentionSuggestions && selectedSuggestionIndex == old(selectedSuggestionIndex))
    {
      var filtered := FilteredUsers();
      var n := |filtered|;
      if !showMentionSuggestions || n == 0 {
        return;
      }
      match key {
        case ArrowDown =>
          selectedSuggestionIndex := NextIndex(selectedSuggestionIndex, n);
        case ArrowUp =>
          selectedSuggestionIndex := PrevIndex(selectedSuggestionIndex, n);
        case Enter =>
          HandleSelectMention(MentionHandle(filtered[selectedSuggestionIndex]));
        case Escape =>
          showMentionSuggestions := false;
        case OtherKey =>
      }
    }

    /** `onSubmit` on values the form's schema accepted: hand them to the list
        view, then reset the form and the tag input. The suggestion state and
        the recorded caret stay as they were. */
    method OnSubmit() returns (submitted: TodoList.CreateTodoInput)
      requires Valid()
      requires Validations.TitleValid(values.title) && |values.description| <= 500
      modifies this
      ensures Valid()
      ensures submitted == TodoList.CreateTodoInput(old(values.title), Some(old(values.description)),
                                                    old(values.priority), Some(old(values.tags)))
      ensures Validations.ParseCreateTodo(Validations.TodoBody(Some(submitted.title), submitted.description,
                                                              Some(PriorityName(submitted.priority)), submitted.tags)) == Some(submitted)
      ensures values == Defaults && tagInput == []
      ensures users == old(users) && showMentionSuggestions == old(showMentionSuggestions)
      ensures mentionQuery == old(mentionQuery) && cursorPosition == old(cursorPosition)
      ensures selectedSuggestionIndex == old(selectedSuggestionIndex) && caret == old(caret)
    {
      submitted := TodoList.CreateTodoInput(values.title, Some(values.description), values.priority, Some(values.tags));
      Validations.ParseCreateTodoRoundTrip(submitted);
      values := Defaults;
      tagInput := [];
    }
  }

  /** After a submission the form is empty while suggestions may still be
      open: choosing one then meets a description with no `@` before the
      recorded caret, the case where the caret as written falls short. */
  lemma SelectAfterSubmit(cursor: int, username: String)
    ensures '@' !in Before(Defaults.description, cursor)
    ensures SelectMentionAsWritten(Defaults.description, cursor, username).cursor == |username| + 1
    ensures SelectMention(Defaults.description, cursor, username).cursor == |username| + 2
  {
    SelectMentionCaretShort(Defaults.description, cursor, username);
  }
}

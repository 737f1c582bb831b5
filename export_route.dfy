/** The export endpoint (app/api/export/route.ts): a user's todos as a CSV
    document or as JSON. Every CSV data cell is quoted with embedded quotes
    doubled, as section 2, rule 7 of RFC 4180 allows; records are separated by
    a bare line feed rather than the CRLF of rule 1. The JSON rendering and the
    download file name are left to the runtime. */
module ExportRoute {
  import opened Strings
  import opened Domain

  datatype Format = Csv | Json

  /** `searchParams.get("format") || "json"`, then `format === "csv"`. */
  function SelectFormat(formatParam: Option<String>): (f: Format)
    ensures f == Csv <==> formatParam == Some("csv")
  {
    if OrElse(formatParam, "json") == "csv" then Csv else Json
  }

  /** The column names, in export order. */
  const Headers: seq<String> := ["id", "title", "description", "priority", "createdAt", "tags", "mentions", "notes"]

  /** `headers.join(",")`: the column names, unquoted, joined by commas; none of
      them holds a comma, so splitting the line at commas gives them back. */
  function HeaderLine(): (line: String)
    ensures Split(line, ',') == Headers
  {
    assert forall h :: h in Headers ==> ',' !in h;
    SplitJoin(Headers, ',');
    Join(Headers, ",")
  }

  function MentionNames(mentions: seq<Mention>): (names: seq<String>)
    ensures |names| == |mentions|
    ensures forall i :: 0 <= i < |mentions| ==> names[i] == (if mentions[i].user.name.Some? then mentions[i].user.name.value else [])
  {
    if mentions == [] then []
    else [if mentions[0].user.name.Some? then mentions[0].user.name.value else []] + MentionNames(mentions[1..])
  }

  function NoteContents(notes: seq<Note>): (contents: seq<String>)
    ensures |contents| == |notes|
    ensures forall i :: 0 <= i < |notes| ==> contents[i] == notes[i].content
  {
    if notes == [] then [] else [notes[0].content] + NoteContents(notes[1..])
  }

  /** The eight cells of a todo's row, in header order; a mentioned user
      without a name contributes an empty string. */
  function Row(t: Todo): (cells: seq<String>)
    ensures |cells| == |Headers| == 8
    ensures cells[0] == t.id && cells[1] == t.title && cells[2] == t.description
    ensures cells[3] == PriorityName(t.priority) && cells[4] == t.createdAt
    ensures cells[5] == Join(TagNames(t.tags), ", ")
    ensures cells[6] == Join(MentionNames(t.mentions), ", ")
    ensures cells[7] == Join(NoteContents(t.notes), "; ")
  {
    [t.id, t.title, t.description, PriorityName(t.priority), t.createdAt,
     Join(TagNames(t.tags), ", "), Join(MentionNames(t.mentions), ", "), Join(NoteContents(t.notes), "; ")]
  }

  // ---------------------------------------------------------------------------
  // Quoting

  /** `replace(/"/g, '""')`. */
  function DoubleQuotes(s: String): (r: String)
    ensures |r| >= |s|
    ensures '"' !in s ==> r == s
    ensures s == "\"" ==> r == "\"\""
  {
    if s == [] then []
    else
      var rest := DoubleQuotes(s[1..]);
      assert '"' !in s ==> '"' !in s[1..] && s == [s[0]] + s[1..];
      (if s[0] == '"' then "\"\"" else [s[0]]) + rest
  }

  /** The replacement works character by character: doubling a concatenation
      doubles each part. */
  lemma {:induction false} DoubleQuotesConcat(a: String, b: String)
    ensures DoubleQuotes(a + b) == DoubleQuotes(a) + DoubleQuotes(b)
    decreases |a|
  {
    if a == [] {
      assert a + b == b;
    } else {
      assert (a + b)[0] == a[0];
      assert (a + b)[1..] == a[1..] + b;
      DoubleQuotesConcat(a[1..], b);
    }
  }

  /** `"${cell}"` with embedded quotes doubled. */
  function QuoteCell(cell: String): (q: String)
    ensures |q| >= 2 && q[0] == '"' && q[|q| - 1] == '"'
  {
    "\"" + DoubleQuotes(cell) + "\""
  }

  function QuoteAll(cells: seq<String>): (r: seq<String>)
    ensures |r| == |cells|
    ensures forall i :: 0 <= i < |cells| ==> r[i] == QuoteCell(cells[i])
  {
    if cells == [] then [] else [QuoteCell(cells[0])] + QuoteAll(cells[1..])
  }

  /** A data line: the quoted cells joined by commas. */
  function RowLine(cells: seq<String>): (line: String)
    ensures cells == [] ==> line == []
    ensures |cells| == 1 ==> line == QuoteCell(cells[0])
    ensures cells != [] ==> |line| >= 2 && line[0] == '"' && line[|line| - 1] == '"'
  {
    var quoted := QuoteAll(cells);
    if cells == [] then Join(quoted, ",")
    else JoinEnds(quoted, ","); Join(quoted, ",")
  }

  function RowLines(rows: seq<seq<String>>): (lines: seq<String>)
    ensures |lines| == |rows|
    ensures forall i :: 0 <= i < |rows| ==> lines[i] == RowLine(rows[i])
  {
    if rows == [] then [] else [RowLine(rows[0])] + RowLines(rows[1..])
  }

  function Rows(todos: seq<Todo>): (rows: seq<seq<String>>)
    ensures |rows| == |todos|
    ensures forall i :: 0 <= i < |todos| ==> rows[i] == Row(todos[i])
  {
    if todos == [] then [] else [Row(todos[0])] + Rows(todos[1..])
  }

  /** `csvContent`: the header line, then one line per todo, joined by line feeds. */
  function CsvContent(todos: seq<Todo>): (doc: String)
    ensures todos == [] ==> doc == HeaderLine()
    ensures todos != [] ==> doc == HeaderLine() + "\n" + Join(RowLines(Rows(todos)), "\n")
  {
    Join([HeaderLine()] + RowLines(Rows(todos)), "\n")
  }

  // ---------------------------------------------------------------------------
  // Reading the quoted records back (the reading rule of RFC 4180, section 2)

  /** The rest of a quoted field after its opening quote: a doubled quote
      stands for one quote, a single quote closes the field. */
  function ParseQuotedBody(s: String): (r: Option<(String, String)>)
    ensures r.Some? ==> |r.value.1| < |s|
    decreases |s|
  {
    if s == [] then None
    else if s[0] == '"' then
      if |s| > 1 && s[1] == '"' then
        match ParseQuotedBody(s[2..])
        case Some((c, rest)) => Some(("\"" + c, rest))
        case None => None
      else Some(([], s[1..]))
    else
      match ParseQuotedBody(s[1..])
      case Some((c, rest)) => Some(([s[0]] + c, rest))
      case None => None
  }

  /** A record: quoted fields separated by commas, up to a line feed or the end. */
  function ParseRecord(s: String): (r: Option<(seq<String>, String)>)
    ensures r.Some? ==> |r.value.1| < |s|
    decreases |s|
  {
    if s == [] || s[0] != '"' then None
    else
      match ParseQuotedBody(s[1..])
      case None => None
      case Some((cell, rest)) =>
        if rest == [] || rest[0] == '\n' then Some(([cell], rest))
        else if rest[0] == ',' then
          match ParseRecord(rest[1..])
          case Some((cells, after)) => Some(([cell] + cells, after))
          case None => None
        else None
  }

  /** Records separated by line feeds, to the end of the input. */
  function ParseRecords(s: String): (r: Option<seq<seq<String>>>)
    decreases |s|
  {
    match ParseRecord(s)
    case None => None
    case Some((cells, rest)) =>
      if rest == [] then Some([cells])
      else
        match ParseRecords(rest[1..])
        case Some(more) => Some([cells] + more)
        case None => None
  }

  /** Un-doubling a quoted cell's body gives the cell back, whatever follows
      the closing quote (other than another quote). */
  lemma {:induction false} QuotedBodyRoundTrip(cell: String, rest: String)
    requires rest == [] || rest[0] != '"'
    ensures ParseQuotedBody(DoubleQuotes(cell) + "\"" + rest) == Some((cell, rest))
  {
    if cell == [] {
      var s := DoubleQuotes(cell) + "\"" + rest;
      assert s == "\"" + rest;
      assert s[1..] == rest;
    } else {
      QuotedBodyRoundTrip(cell[1..], rest);
      QuotedBodyStep(cell, rest);
    }
  }

  /** One step of the round trip: the first character of the cell, doubled
      when it is a quote, is read back in front of the rest of the cell. */
  lemma QuotedBodyStep(cell: String, rest: String)
    requires cell != []
    requires ParseQuotedBody(DoubleQuotes(cell[1..]) + "\"" + rest) == Some((cell[1..], rest))
    ensures ParseQuotedBody(DoubleQuotes(cell) + "\"" + rest) == Some((cell, rest))
  {
    var tail := DoubleQuotes(cell[1..]) + "\"" + rest;
    DoubleQuotesHead(cell, rest);
    if cell[0] == '"' {
      ParseDoubledQuote(tail);
      assert "\"" + cell[1..] == cell;
    } else {
      ParsePlainChar(cell[0], tail);
      assert [cell[0]] + cell[1..] == cell;
    }
  }

  /** Doubling the quotes of a non-empty cell, followed by the closing quote
      and `rest`, starts with the doubled first character. */
  lemma DoubleQuotesHead(cell: String, rest: String)
    requires cell != []
    ensures DoubleQuotes(cell) + "\"" + rest
            == (if cell[0] == '"' then "\"\"" else [cell[0]]) + (DoubleQuotes(cell[1..]) + "\"" + rest)
  {
    var h := if cell[0] == '"' then "\"\"" else [cell[0]];
    var d := DoubleQuotes(cell[1..]);
    calc {
      DoubleQuotes(cell) + "\"" + rest;
    == { assert DoubleQuotes(cell) == h + d; }
      (h + d) + "\"" + rest;
    == { Regroup(h, d, "\"", rest); }
      h + (d + "\"" + rest);
    }
  }

  /** Concatenation regrouped to the right. */
  lemma Regroup(a: String, b: String, c: String, d: String)
    ensures (a + b) + c + d == a + (b + c + d)
  {
  }

  /** A doubled quote is read as one quote of the cell. */
  lemma ParseDoubledQuote(t: String)
    ensures ParseQuotedBody("\"\"" + t)
            == match ParseQuotedBody(t)
               case None => None
               case Some((c, rest)) => Some(("\"" + c, rest))
  {
    var s := "\"\"" + t;
    assert s[2..] == t;
  }

  /** A character other than a quote is read as itself. */
  lemma ParsePlainChar(ch: char, t: String)
    requires ch != '"'
    ensures ParseQuotedBody([ch] + t)
            == match ParseQuotedBody(t)
               case None => None
               case Some((c, rest)) => Some(([ch] + c, rest))
  {
    var s := [ch] + t;
    assert s[1..] == t;
  }

  /** Stripping the outer quotes and un-doubling recovers the cell. */
  lemma QuoteCellRoundTrip(cell: String)
    ensures ParseQuotedBody(QuoteCell(cell)[1..]) == Some((cell, []))
  {
    QuotedBodyRoundTrip(cell, []);
    assert QuoteCell(cell)[1..] == DoubleQuotes(cell) + "\"" + [];
  }

  /** A quoted cell followed by anything but a quote opens with a quote and
      reads back as the cell, leaving what follows. */
  lemma QuotedCellHead(cell: String, after: String)
    requires after == [] || after[0] != '"'
    ensures var s := QuoteCell(cell) + after;
            s[0] == '"' && ParseQuotedBody(s[1..]) == Some((cell, after))
  {
    var s := QuoteCell(cell) + after;
    assert s[1..] == DoubleQuotes(cell) + "\"" + after;
    QuotedBodyRoundTrip(cell, after);
  }

  /** A data line of two or more cells is the first quoted cell, a comma
      and the line of the rest. */
  lemma RowLineCons(cells: seq<String>, rest: String)
    requires |cells| >= 2
    ensures RowLine(cells) + rest == QuoteCell(cells[0]) + ("," + (RowLine(cells[1..]) + rest))
  {
    var head := QuoteCell(cells[0]);
    var line := RowLine(cells[1..]);
    assert RowLine(cells) == head + ("," + line) by {
      assert QuoteAll(cells) == [head] + QuoteAll(cells[1..]);
      JoinCons(head, QuoteAll(cells[1..]), ",");
    }
    assert (head + ("," + line)) + rest == head + ("," + (line + rest));
  }

  /** A quoted cell ending the record. */
  lemma ParseRecordLast(cell: String, rest: String)
    requires rest == [] || rest[0] == '\n'
    ensures ParseRecord(QuoteCell(cell) + rest) == Some(([cell], rest))
  {
    QuotedCellHead(cell, rest);
  }

  /** A quoted cell and a comma in front of a record add the cell to it. */
  lemma ParseRecordCons(cell: String, tail: String, cells: seq<String>, after: String)
    requires ParseRecord(tail) == Some((cells, after))
    ensures ParseRecord(QuoteCell(cell) + ("," + tail)) == Some(([cell] + cells, after))
  {
    QuotedCellHead(cell, "," + tail);
    assert ("," + tail)[1..] == tail;
  }

  /** One cell more in front of a line that reads back reads back too. */
  lemma RowLineStep(cells: seq<String>, rest: String)
    requires |cells| >= 2
    requires ParseRecord(RowLine(cells[1..]) + rest) == Some((cells[1..], rest))
    ensures ParseRecord(RowLine(cells) + rest) == Some((cells, rest))
  {
    var tail := RowLine(cells[1..]) + rest;
    RowLineCons(cells, rest);
    ParseRecordCons(cells[0], tail, cells[1..], rest);
    assert [cells[0]] + cells[1..] == cells;
  }

  /** A data line reads back as its cells. */
  lemma {:induction false} RowLineRoundTrip(cells: seq<String>, rest: String)
    requires |cells| >= 1
    requires rest == [] || rest[0] == '\n'
    ensures ParseRecord(RowLine(cells) + rest) == Some((cells, rest))
    decreases |cells|
  {
    if |cells| == 1 {
      assert RowLine(cells) == QuoteCell(cells[0]);
      ParseRecordLast(cells[0], rest);
      assert [cells[0]] == cells;
    } else {
      RowLineRoundTrip(cells[1..], rest);
      RowLineStep(cells, rest);
    }
  }

  /** A record followed by a line feed and more records adds itself in front. */
  lemma ParseRecordsCons(line: String, more: String, rows: seq<seq<String>>)
    requires rows != []
    requires ParseRecord(line + ("\n" + more)) == Some((rows[0], "\n" + more))
    requires ParseRecords(more) == Some(rows[1..])
    ensures ParseRecords(line + ("\n" + more)) == Some(rows)
  {
    assert ("\n" + more)[1..] == more;
    assert [rows[0]] + rows[1..] == rows;
  }

  /** A single data line reads back as its one row. */
  lemma RowLinesOne(rows: seq<seq<String>>)
    requires |rows| == 1 && |rows[0]| >= 1
    ensures ParseRecords(Join(RowLines(rows), "\n")) == Some(rows)
  {
    RowLineRoundTrip(rows[0], []);
    assert Join(RowLines(rows), "\n") == RowLine(rows[0]) + [];
    assert [rows[0]] == rows;
  }

  /** The lines of two or more rows: the first row's line, a line feed and the rest. */
  lemma RowLinesCons(rows: seq<seq<String>>)
    requires |rows| >= 2
    ensures Join(RowLines(rows), "\n") == RowLine(rows[0]) + ("\n" + Join(RowLines(rows[1..]), "\n"))
  {
    assert RowLines(rows) == [RowLine(rows[0])] + RowLines(rows[1..]);
    JoinCons(RowLine(rows[0]), RowLines(rows[1..]), "\n");
  }

  /** One row more in front of lines that read back reads back too. */
  lemma RowLinesStep(rows: seq<seq<String>>)
    requires |rows| >= 2 && |rows[0]| >= 1
    requires ParseRecords(Join(RowLines(rows[1..]), "\n")) == Some(rows[1..])
    ensures ParseRecords(Join(RowLines(rows), "\n")) == Some(rows)
  {
    var more := Join(RowLines(rows[1..]), "\n");
    RowLinesCons(rows);
    RowLineRoundTrip(rows[0], "\n" + more);
    ParseRecordsCons(RowLine(rows[0]), more, rows);
  }

  /** The data lines of a document read back as the rows, in order. */
  lemma {:induction false} RowLinesRoundTrip(rows: seq<seq<String>>)
    requires |rows| >= 1
    requires forall i :: 0 <= i < |rows| ==> |rows[i]| >= 1
    ensures ParseRecords(Join(RowLines(rows), "\n")) == Some(rows)
  {
    if |rows| == 1 {
      RowLinesOne(rows);
    } else {
      RowLinesRoundTrip(rows[1..]);
      RowLinesStep(rows);
    }
  }

  /** After the header line, the document holds exactly one record per todo,
      each the todo's eight cells. */
  lemma CsvRoundTrip(todos: seq<Todo>)
    requires todos != []
    ensures var doc := CsvContent(todos);
            |doc| > |HeaderLine()| && doc[..|HeaderLine()| + 1] == HeaderLine() + "\n"
            && ParseRecords(doc[|HeaderLine()| + 1..]) == Some(Rows(todos))
  {
    var head := HeaderLine() + "\n";
    var body := Join(RowLines(Rows(todos)), "\n");
    assert CsvContent(todos) == head + body;
    SplitAtEnd(head, body);
    RowLinesRoundTrip(Rows(todos));
  }

  /** A concatenation cut where its first part ends gives back both parts. */
  lemma SplitAtEnd(a: String, b: String)
    ensures (a + b)[..|a|] == a && (a + b)[|a|..] == b
  {
  }

  // ---------------------------------------------------------------------------
  // The handler

  datatype ExportResponse =
    | ExportUnauthorized
    | CsvFile(content: String)
    | JsonFile(todos: seq<Todo>)

  /** The rows owned by a user, in table order. */
  function OwnedBy(rows: seq<Todo>, userId: String): (r: seq<Todo>)
    ensures forall t :: t in r <==> t in rows && t.userId == Some(userId)
  {
    if rows == [] then []
    else (if rows[0].userId == Some(userId) then [rows[0]] else []) + OwnedBy(rows[1..], userId)
  }

  /** `GET /api/export`: the requested user's todos (the session user when
      none is named), newest first as `rows` already are, as CSV or JSON. */
  function Export(session: Option<String>, formatParam: Option<String>, userIdParam: Option<String>, rows: seq<Todo>)
    : (resp: ExportResponse)
    ensures session.None? <==> resp.ExportUnauthorized?
    ensures resp.CsvFile? <==> session.Some? && formatParam == Some("csv")
    ensures resp.CsvFile? ==> resp.content == CsvContent(OwnedBy(rows, OrElse(userIdParam, session.value)))
    ensures resp.JsonFile? ==> resp.todos == OwnedBy(rows, OrElse(userIdParam, session.value))
  {
    if session.None? then ExportUnauthorized
    else
      var todos := OwnedBy(rows, OrElse(userIdParam, session.value));
      match SelectFormat(formatParam)
      case Csv => CsvFile(CsvContent(todos))
      case Json => JsonFile(todos)
  }
}

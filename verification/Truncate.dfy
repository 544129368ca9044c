// The TRUNCATE statement with quoted table names.
module Truncate {
  import opened Text
  import opened Utf8
  import opened SqlSplit
  import opened SplitLaws

  function QuoteIdentifier(s: string): string {
    "\"" + ReplaceAll(s, "\"", "\"\"") + "\""
  }

  function QuoteAll(names: seq<string>): (parts: seq<string>)
    ensures |parts| == |names|
  {
    if names == [] then [] else [QuoteIdentifier(names[0])] + QuoteAll(names[1..])
  }

  const HEAD := "TRUNCATE "
  const TAIL := " RESTART IDENTITY CASCADE"

  function TruncateText(tables: seq<string>): string {
    HEAD + Join(QuoteAll(tables), ", ") + TAIL
  }

  datatype TruncateError = OpenFailed | ExecFailed(tables: string)

  // Fills the parts, builds the text and sends it; no table means no connection at all.
  method TruncatePostgres(tables: seq<string>, opens: bool, accepts: string -> bool)
    returns (sent: Option<string>, err: Option<TruncateError>)
    ensures sent == if tables != [] && opens then Some(TruncateText(tables)) else None
    ensures err.None? <==> tables == [] || (opens && accepts(TruncateText(tables)))
    ensures err.Some? ==> err.value == if opens then ExecFailed(Join(tables, ",")) else OpenFailed
  {
    if |tables| == 0 {
      return None, None;
    }
    if !opens {
      return None, Some(OpenFailed);
    }
    var parts := seq(|tables|, _ => "");
    var i := 0;
    while i < |tables|
      invariant 0 <= i <= |tables| == |parts|
      invariant parts[..i] == QuoteAll(tables[..i])
    {
      parts := parts[i := QuoteIdentifier(tables[i])];
      QuoteAllConcat(tables[..i], [tables[i]]);
      assert QuoteAll([tables[i]]) == [QuoteIdentifier(tables[i])];
      assert tables[..i + 1] == tables[..i] + [tables[i]];
      i := i + 1;
    }
    assert parts[..i] == parts && tables[..i] == tables;
    var stmt := HEAD + Join(parts, ", ") + TAIL;
    sent, err := Some(stmt), None;
    if !accepts(stmt) {
      err := Some(ExecFailed(Join(tables, ",")));
    }
  }

  lemma {:induction false} QuoteAllConcat(a: seq<string>, b: seq<string>)
    ensures QuoteAll(a + b) == QuoteAll(a) + QuoteAll(b)
  {
    if a == [] {
      assert a + b == b;
    } else {
      assert (a + b)[1..] == a[1..] + b;
      QuoteAllConcat(a[1..], b);
    }
  }

  // ---- reading the text back, by PostgreSQL's rule for delimited identifiers ----

  // Up to the first double quote that is not doubled: the name and what follows.
  function ReadBody(s: string): (r: Option<(string, string)>)
    ensures r.Some? ==> |r.value.1| < |s|
    decreases |s|
  {
    if s == "" then None
    else if s[0] != '"' then
      match ReadBody(s[1..])
      case None => None
      case Some((name, rest)) => Some(([s[0]] + name, rest))
    else if |s| >= 2 && s[1] == '"' then
      match ReadBody(s[2..])
      case None => None
      case Some((name, rest)) => Some(("\"" + name, rest))
    else Some(("", s[1..]))
  }

  // One or more delimited identifiers separated by ", ", and what follows; an identifier of
  // no length is refused.
  function ReadList(s: string): Option<(seq<string>, string)>
    decreases |s|
  {
    if s == "" || s[0] != '"' then None
    else
      match ReadBody(s[1..])
      case None => None
      case Some((name, rest)) =>
        if name == "" then None
        else if |rest| >= 2 && rest[0] == ',' && rest[1] == ' ' then
          match ReadList(rest[2..])
          case None => None
          case Some((names, end)) => Some(([name] + names, end))
        else Some(([name], rest))
  }

  function ReadTruncate(stmt: string): Option<seq<string>> {
    if !("TRUNCATE " <= stmt) then None
    else
      match ReadList(stmt[9..])
      case Some((names, end)) => if end == " RESTART IDENTITY CASCADE" then Some(names) else None
      case None => None
  }

  // What a quoted name is after its opening quote.
  function Body(name: string): string {
    ReplaceAll(name, "\"", "\"\"") + "\""
  }

  lemma BodyNext(name: string)
    requires name != ""
    ensures var c, t := name[0], Body(name[1..]);
            Body(name) == if c == '"' then [c] + ([c] + t) else [c] + t
  {
    assert name[..1] == [name[0]];
    var c, t := name[0], ReplaceAll(name[1..], "\"", "\"\"");
    assert ReplaceAll(name, "\"", "\"\"") == (if c == '"' then [c, c] else [c]) + t;
    Regroup(if c == '"' then [c, c] else [c], t, "\"");
    assert [c, c] + Body(name[1..]) == [c] + ([c] + Body(name[1..]));
  }

  lemma ReadRune(c: char, t: string, name: string, rest: string)
    requires ReadBody(t) == Some((name, rest))
    ensures ReadBody(if c == '"' then [c] + ([c] + t) else [c] + t) == Some(([c] + name, rest))
  {
    if c == '"' {
      assert ([c] + ([c] + t))[2..] == t;
    } else {
      assert ([c] + t)[1..] == t;
    }
  }

  lemma {:induction false} ReadQuotedBody(name: string, rest: string)
    requires rest == "" || rest[0] != '"'
    ensures ReadBody(Body(name) + rest) == Some((name, rest))
    decreases |name|
  {
    if name == "" {
      assert (Body(name) + rest)[1..] == rest;
    } else {
      var c, t := name[0], Body(name[1..]);
      ReadQuotedBody(name[1..], rest);
      BodyNext(name);
      ReadRune(c, t + rest, name[1..], rest);
      Regroup([c], t, rest);
      Regroup([c], [c] + t, rest);
      assert name == [c] + name[1..];
    }
  }

  lemma ReadQuotedHead(name: string, rest: string)
    requires rest == "" || rest[0] != '"'
    ensures ReadBody((QuoteIdentifier(name) + rest)[1..]) == Some((name, rest))
  {
    ReadQuotedBody(name, rest);
    assert (QuoteIdentifier(name) + rest)[1..] == Body(name) + rest;
  }

  lemma ReadLastName(name: string, end: string)
    requires end == "" || (end[0] != '"' && end[0] != ',')
    ensures ReadList(QuoteIdentifier(name) + end) == if name == "" then None else Some(([name], end))
  {
    ReadQuotedHead(name, end);
  }

  lemma ReadOneMore(name: string, more: string)
    ensures ReadList(QuoteIdentifier(name) + ", " + more) ==
            if name == "" || ReadList(more).None? then None
            else Some(([name] + ReadList(more).value.0, ReadList(more).value.1))
  {
    var rest := ", " + more;
    assert QuoteIdentifier(name) + ", " + more == QuoteIdentifier(name) + rest;
    ReadQuotedHead(name, rest);
    assert rest[2..] == more;
  }

  lemma {:induction false} ReadQuotedList(names: seq<string>, end: string)
    requires names != []
    requires end == "" || (end[0] != '"' && end[0] != ',')
    ensures ReadList(Join(QuoteAll(names), ", ") + end) == if "" in names then None else Some((names, end))
    decreases |names|
  {
    var head, list := QuoteIdentifier(names[0]), Join(QuoteAll(names), ", ");
    if |names| == 1 {
      assert list == head && names == [names[0]];
      ReadLastName(names[0], end);
    } else {
      var more := Join(QuoteAll(names[1..]), ", ");
      assert QuoteAll(names)[1..] == QuoteAll(names[1..]);
      Regroup(head + ", ", more, end);
      ReadQuotedList(names[1..], end);
      ReadOneMore(names[0], more + end);
      assert names == [names[0]] + names[1..];
    }
  }

  // Whatever the names contain, the statement reads back as exactly those names; it is
  // refused if and only if one of them is empty.
  lemma TruncateRoundTrip(tables: seq<string>)
    requires tables != []
    ensures ReadTruncate(TruncateText(tables)) == if "" in tables then None else Some(tables)
  {
    var stmt := TruncateText(tables);
    assert stmt == HEAD + (Join(QuoteAll(tables), ", ") + TAIL);
    assert stmt[|HEAD|..] == Join(QuoteAll(tables), ", ") + TAIL;
    ReadQuotedList(tables, TAIL);
  }

  // ---- the splitter sees one statement ----

  // Inside the quotes the lexer leaves and re-enters the string at each doubled quote.
  lemma {:induction false} LexQuotedBody(name: string)
    ensures NoCut(Double, Body(name)) && EndMode(Double, Body(name)) == Default
    decreases |name|
  {
    if name == "" {
      assert Body(name) == ['"'] + "";
      LexRune(Double, '"', "");
    } else {
      var c, t := name[0], Body(name[1..]);
      LexQuotedBody(name[1..]);
      BodyNext(name);
      if c == '"' {
        LexRune(Default, c, t);
        LexRune(Double, c, [c] + t);
      } else {
        LexRune(Double, c, t);
      }
    }
  }

  lemma LexQuoted(name: string)
    ensures NoCut(Default, QuoteIdentifier(name)) && EndMode(Default, QuoteIdentifier(name)) == Default
  {
    LexQuotedBody(name);
    LexRune(Default, '"', Body(name));
    assert QuoteIdentifier(name) == ['"'] + Body(name);
  }

  // Texts that the lexer crosses from the default mode to the default mode.
  predicate Crosses(s: string) {
    NoCut(Default, s) && EndMode(Default, s) == Default
  }

  lemma CrossBoth(a: string, b: string)
    requires Crosses(a) && Crosses(b) && FreshStart(b)
    ensures Crosses(a + b)
  {
    FreshIsApart(Default, a, b);
    ModeConcat(Default, a, b);
  }

  lemma {:induction false} LexQuotedList(names: seq<string>)
    requires names != []
    ensures var s := Join(QuoteAll(names), ", ");
            s != "" && s[0] == '"' && Crosses(s)
    decreases |names|
  {
    var head := QuoteIdentifier(names[0]);
    LexQuoted(names[0]);
    if |names| > 1 {
      var more := Join(QuoteAll(names[1..]), ", ");
      LexQuotedList(names[1..]);
      assert QuoteAll(names)[1..] == QuoteAll(names[1..]);
      LexPlain(", ");
      CrossBoth(head, ", ");
      CrossBoth(head + ", ", more);
    }
  }

  // Capital letters, blanks and commas.
  predicate Plain(s: string) {
    forall i :: 0 <= i < |s| ==> s[i] == ' ' || s[i] == ',' || 'A' <= s[i] <= 'Z'
  }

  lemma {:induction false} LexPlain(s: string)
    requires Plain(s)
    ensures Crosses(s)
  {
    if s != "" {
      LexPlain(s[1..]);
      LexRune(Default, s[0], s[1..]);
      assert s == [s[0]] + s[1..];
    }
  }

  lemma OneStatement(head: string, list: string, tail: string)
    requires Plain(head) && Crosses(list) && Plain(tail)
    requires FreshStart(list)
    requires head != "" && head[0] != ' '
    requires tail != "" && tail[|tail| - 1] != ' '
    ensures Statements(head + list + tail) == [head + list + tail]
  {
    LexPlain(head);
    LexPlain(tail);
    CrossBoth(head, list);
    CrossBoth(head + list, tail);
    TrimFixed(head + list + tail, RuneSpace);
    StatementAlone(head + list + tail);
  }

  // Whatever quotes and semicolons the names contain.
  lemma TruncateIsOneStatement(tables: seq<string>)
    requires tables != []
    ensures Statements(TruncateText(tables)) == [TruncateText(tables)]
  {
    LexQuotedList(tables);
    OneStatement(HEAD, Join(QuoteAll(tables), ", "), TAIL);
  }
}

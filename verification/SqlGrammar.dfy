// The splitter against a grammar without modes: a script is a list of runes,
// quoted strings, comments and semicolons, and its segments are what lies
// between the semicolons of that list.
module SqlGrammar {
  import opened Text
  import opened SqlSplit
  import opened SplitLaws

  datatype Token =
    | Rune(c: char)
    | Quoted(q: char, body: string)
    | LineComment(body: string)
    | BlockComment(body: string)
    | Semicolon
    | OpenQuote(q: char, body: string)
    | OpenLine(body: string)
    | OpenBlock(body: string)

  predicate IsQuote(c: char) {
    c == '\'' || c == '"' || c == '`'
  }

  function TextOf(t: Token): string {
    match t
    case Rune(c) => [c]
    case Quoted(q, body) => [q] + body + [q]
    case LineComment(body) => ['-', '-'] + body + ['\n']
    case BlockComment(body) => ['/', '*'] + body + ['*', '/']
    case Semicolon => [';']
    case OpenQuote(q, body) => [q] + body
    case OpenLine(body) => ['-', '-'] + body
    case OpenBlock(body) => ['/', '*'] + body
  }

  function Render(ts: seq<Token>): string {
    if ts == [] then "" else TextOf(ts[0]) + Render(ts[1..])
  }

  predicate Unclosed(body: string) {
    forall i :: 0 <= i < |body| - 1 ==> !(body[i] == '*' && body[i + 1] == '/')
  }

  predicate IsOpen(t: Token) {
    t.OpenQuote? || t.OpenLine? || t.OpenBlock?
  }

  // The token can stand before the given text.
  predicate Fits(t: Token, after: string) {
    match t
    case Rune(c) =>
      && !IsQuote(c) && c != ';'
      && !(c == '-' && after != "" && after[0] == '-')
      && !(c == '/' && after != "" && after[0] == '*')
    case Quoted(q, body) => IsQuote(q) && Free(body, q)
    case LineComment(body) => Free(body, '\n')
    case BlockComment(body) => Unclosed(body)
    case Semicolon => true
    case OpenQuote(q, body) => IsQuote(q) && Free(body, q) && after == ""
    case OpenLine(body) => Free(body, '\n') && after == ""
    case OpenBlock(body) => Unclosed(body) && after == ""
  }

  predicate WellFormed(ts: seq<Token>) {
    ts != [] ==> Fits(ts[0], Render(ts[1..])) && WellFormed(ts[1..])
  }

  // What lies between the semicolon tokens.
  function SegmentsOf(ts: seq<Token>): (segs: seq<string>)
    ensures |segs| >= 1
  {
    if ts == [] then [""]
    else if ts[0].Semicolon? then [""] + SegmentsOf(ts[1..])
    else Glue([TextOf(ts[0])], SegmentsOf(ts[1..]))
  }

  lemma GlueText(a: string, b: string, y: seq<string>)
    requires |y| >= 1
    ensures Glue([a], Glue([b], y)) == Glue([a + b], y)
  {
    assert a + (b + y[0]) == a + b + y[0];
  }

  lemma StepOne(m: Mode, c: char, t: string)
    requires !TakesTwo(m, c, Lookahead([c] + t)) && !(m == Default && c == ';')
    ensures Segments(m, [c] + t) == Glue([[c]], Segments(ModeAfter(m, c, Lookahead([c] + t)), t))
  {
    var s := [c] + t;
    assert s[..1] == [c] && s[1..] == t;
  }

  lemma StepTwo(m: Mode, a: char, b: char, t: string)
    requires TakesTwo(m, a, b)
    ensures Segments(m, [a, b] + t) == Glue([[a, b]], Segments(ModeAfter(m, a, b), t))
  {
    var s := [a, b] + t;
    assert s[..2] == [a, b] && s[2..] == t;
  }

  // The text keeps the lexer in its comment or string.
  predicate Stays(m: Mode, body: string, after: string) {
    match m
    case Default => false
    case Line => Free(body, '\n')
    case Single => Free(body, '\'')
    case Double => Free(body, '"')
    case Back => Free(body, '`')
    case Block => Unclosed(body) && !(body != "" && body[|body| - 1] == '*' && after != "" && after[0] == '/')
  }

  lemma StayStep(m: Mode, c: char, rest: string, after: string)
    requires Stays(m, [c] + rest, after)
    ensures Stays(m, rest, after) && m != Default
    ensures var d := Lookahead([c] + (rest + after)); !TakesTwo(m, c, d) && ModeAfter(m, c, d) == m
  {
    var body := [c] + rest;
    assert Lookahead([c] + (rest + after)) == if rest != "" then rest[0] else if after != "" then after[0] else '\0';
    assert body[0] == c;
    assert forall i :: 0 <= i < |rest| ==> rest[i] == body[i + 1];
  }

  lemma {:induction false} LexInside(m: Mode, body: string, after: string)
    requires Stays(m, body, after)
    ensures Segments(m, body + after) == Glue([body], Segments(m, after))
    decreases |body|
  {
    var y := Segments(m, after);
    if body == "" {
      assert body + after == after;
      GlueEmpty(y);
    } else {
      var c, rest := body[0], body[1..];
      assert body == [c] + rest;
      Regroup([c], rest, after);
      StayStep(m, c, rest, after);
      StepOne(m, c, rest + after);
      LexInside(m, rest, after);
      GlueText([c], rest, y);
    }
  }

  function Mark(q: char): Mode {
    if q == '\'' then Single else if q == '"' then Double else Back
  }

  // A closed comment or string is crossed whole, whatever it contains.
  lemma CrossBracket(m: Mode, opener: string, body: string, closer: string, after: string)
    requires Stays(m, body, closer + after)
    requires Segments(Default, opener + (body + (closer + after))) ==
             Glue([opener], Segments(m, body + (closer + after)))
    requires Segments(m, closer + after) == Glue([closer], Segments(Default, after))
    ensures Segments(Default, (opener + body + closer) + after) ==
            Glue([opener + body + closer], Segments(Default, after))
  {
    LexInside(m, body, closer + after);
    GlueThree(opener, body, closer, Segments(Default, after));
    RegroupFour(opener, body, closer, after);
  }

  lemma RegroupFour(a: string, b: string, c: string, d: string)
    ensures (a + b + c) + d == a + (b + (c + d))
  {
  }

  lemma GlueThree(a: string, b: string, c: string, y: seq<string>)
    requires |y| >= 1
    ensures Glue([a], Glue([b], Glue([c], y))) == Glue([a + b + c], y)
  {
    GlueText(b, c, y);
    GlueText(a, b + c, y);
    assert a + (b + c) == a + b + c;
  }

  lemma OpenBracket(m: Mode, opener: string, body: string)
    requires Stays(m, body, "")
    requires Segments(Default, opener + body) == Glue([opener], Segments(m, body))
    ensures Segments(Default, opener + body) == [opener + body]
  {
    LexInside(m, body, "");
    assert body + "" == body;
  }

  lemma LexQuote(q: char, body: string, after: string)
    requires IsQuote(q) && Free(body, q)
    ensures Segments(Default, ([q] + body + [q]) + after) == Glue([[q] + body + [q]], Segments(Default, after))
  {
    StepOne(Default, q, body + ([q] + after));
    StepOne(Mark(q), q, after);
    CrossBracket(Mark(q), [q], body, [q], after);
  }

  lemma LexLine(body: string, after: string)
    requires Free(body, '\n')
    ensures var text := ['-', '-'] + body + ['\n'];
            Segments(Default, text + after) == Glue([text], Segments(Default, after))
  {
    StepTwo(Default, '-', '-', body + (['\n'] + after));
    StepOne(Line, '\n', after);
    CrossBracket(Line, ['-', '-'], body, ['\n'], after);
  }

  lemma LexBlock(body: string, after: string)
    requires Unclosed(body)
    ensures var text := ['/', '*'] + body + ['*', '/'];
            Segments(Default, text + after) == Glue([text], Segments(Default, after))
  {
    StepTwo(Default, '/', '*', body + (['*', '/'] + after));
    StepTwo(Block, '*', '/', after);
    CrossBracket(Block, ['/', '*'], body, ['*', '/'], after);
  }

  lemma LexOpen(t: Token)
    requires IsOpen(t) && Fits(t, "")
    ensures Segments(Default, TextOf(t)) == [TextOf(t)]
  {
    match t {
      case OpenQuote(q, body) =>
        StepOne(Default, q, body);
        OpenBracket(Mark(q), [q], body);
      case OpenLine(body) =>
        StepTwo(Default, '-', '-', body);
        OpenBracket(Line, ['-', '-'], body);
      case OpenBlock(body) =>
        StepTwo(Default, '/', '*', body);
        OpenBracket(Block, ['/', '*'], body);
    }
  }

  lemma LexToken(t: Token, after: string)
    requires Fits(t, after) && !t.Semicolon?
    ensures Segments(Default, TextOf(t) + after) == Glue([TextOf(t)], Segments(Default, after))
  {
    if IsOpen(t) {
      LexOpen(t);
      assert TextOf(t) + after == TextOf(t);
      GlueEmpty([TextOf(t)]);
    } else {
      match t {
        case Rune(c) =>
          assert Lookahead([c] + after) == if after != "" then after[0] else '\0';
          StepOne(Default, c, after);
        case Quoted(q, body) => LexQuote(q, body, after);
        case LineComment(body) => LexLine(body, after);
        case BlockComment(body) => LexBlock(body, after);
      }
    }
  }

  // The lexer cuts a rendered token list exactly at its semicolon tokens.
  lemma {:induction false} SegmentsFollowTokens(ts: seq<Token>)
    requires WellFormed(ts)
    ensures Segments(Default, Render(ts)) == SegmentsOf(ts)
  {
    if ts != [] {
      var after := Render(ts[1..]);
      SegmentsFollowTokens(ts[1..]);
      if ts[0].Semicolon? {
        assert Render(ts)[1..] == after;
      } else {
        LexToken(ts[0], after);
      }
    }
  }

  // The part of a block comment's text before its closer, or all of it.
  lemma {:induction false} BlockBody(s: string) returns (k: nat)
    ensures k <= |s| && Unclosed(s[..k])
    ensures k == |s| || (k + 1 < |s| && s[k] == '*' && s[k + 1] == '/')
  {
    k := 0;
    while k < |s| && !(k + 1 < |s| && s[k] == '*' && s[k + 1] == '/')
      invariant k <= |s|
      invariant forall i :: 0 <= i < k && i + 1 < |s| ==> !(s[i] == '*' && s[i + 1] == '/')
    {
      k := k + 1;
    }
  }

  lemma Prepend(t: Token, ts: seq<Token>, s: string)
    requires WellFormed(ts) && Fits(t, Render(ts)) && s == TextOf(t) + Render(ts)
    ensures WellFormed([t] + ts) && Render([t] + ts) == s
  {
    assert ([t] + ts)[1..] == ts;
  }

  // Every script is the rendering of a well-formed token list.
  lemma {:induction false} Tokenize(s: string) returns (ts: seq<Token>)
    ensures WellFormed(ts) && Render(ts) == s
    decreases |s|
  {
    if s == "" {
      ts := [];
      return;
    }
    var t, rest := FirstToken(s);
    ts := Tokenize(rest);
    Prepend(t, ts, s);
    ts := [t] + ts;
  }

  lemma FirstToken(s: string) returns (t: Token, rest: string)
    requires s != ""
    ensures Fits(t, rest) && s == TextOf(t) + rest && |rest| < |s|
  {
    var c := s[0];
    if IsQuote(c) {
      t, rest := QuoteToken(s);
    } else if c == '-' && Lookahead(s) == '-' {
      t, rest := LineToken(s);
    } else if c == '/' && Lookahead(s) == '*' {
      t, rest := BlockToken(s);
    } else if c == ';' {
      t, rest := Semicolon, s[1..];
    } else {
      t, rest := Rune(c), s[1..];
    }
  }

  lemma AtFirst(s: string, sep: char)
    requires |Before(s, sep)| < |s|
    ensures var body := Before(s, sep); s == body + [sep] + s[|body| + 1..]
  {
    BeforeIsFirst(s, sep);
  }

  lemma QuoteToken(s: string) returns (t: Token, rest: string)
    requires s != "" && IsQuote(s[0])
    ensures Fits(t, rest) && s == TextOf(t) + rest && |rest| < |s|
  {
    var c, tail := s[0], s[1..];
    var body := Before(tail, c);
    BeforeIsFirst(tail, c);
    if |body| == |tail| {
      t, rest := OpenQuote(c, body), "";
    } else {
      t, rest := Quoted(c, body), tail[|body| + 1..];
      AtFirst(tail, c);
      Regroup([c], body, [c]);
      Regroup([c], body + [c], rest);
    }
    assert s == [c] + tail;
  }

  lemma LineToken(s: string) returns (t: Token, rest: string)
    requires |s| >= 2 && s[0] == '-' && s[1] == '-'
    ensures Fits(t, rest) && s == TextOf(t) + rest && |rest| < |s|
  {
    var tail := s[2..];
    var body := Before(tail, '\n');
    BeforeIsFirst(tail, '\n');
    assert s == ['-', '-'] + tail;
    if |body| == |tail| {
      t, rest := OpenLine(body), "";
    } else {
      t, rest := LineComment(body), tail[|body| + 1..];
      AtFirst(tail, '\n');
      Regroup(['-', '-'], body, ['\n']);
      Regroup(['-', '-'], body + ['\n'], rest);
    }
  }

  lemma BlockToken(s: string) returns (t: Token, rest: string)
    requires |s| >= 2 && s[0] == '/' && s[1] == '*'
    ensures Fits(t, rest) && s == TextOf(t) + rest && |rest| < |s|
  {
    var tail := s[2..];
    var k := BlockBody(tail);
    assert s == ['/', '*'] + tail;
    if k == |tail| {
      t, rest := OpenBlock(tail), "";
      assert tail[..k] == tail;
    } else {
      t, rest := BlockComment(tail[..k]), tail[k + 2..];
      assert tail == tail[..k] + ['*', '/'] + rest;
    }
  }

  predicate Reads(ts: seq<Token>, script: string) {
    WellFormed(ts) && Render(ts) == script
  }

  // So splitting is: read the tokens, cut at the semicolons, trim, drop the empty.
  lemma {:induction false} StatementsFollowTokens(script: string)
    ensures exists ts :: Reads(ts, script)
    ensures forall ts :: Reads(ts, script) ==> Statements(script) == Emitted(SegmentsOf(ts))
  {
    var ts := Tokenize(script);
    assert Reads(ts, script);
    forall ts | Reads(ts, script)
      ensures Statements(script) == Emitted(SegmentsOf(ts))
    {
      SegmentsFollowTokens(ts);
    }
  }

  lemma ShapesOfQuotes(body: string, after: string)
    ensures Free(body, '\'') ==>
              Segments(Default, "'" + body + "'" + after) == Glue(["'" + body + "'"], Segments(Default, after))
    ensures Free(body, '"') ==>
              Segments(Default, "\"" + body + "\"" + after) == Glue(["\"" + body + "\""], Segments(Default, after))
    ensures Free(body, '`') ==>
              Segments(Default, "`" + body + "`" + after) == Glue(["`" + body + "`"], Segments(Default, after))
  {
    if Free(body, '\'') {
      LexQuote('\'', body, after);
    }
    if Free(body, '"') {
      LexQuote('"', body, after);
    }
    if Free(body, '`') {
      LexQuote('`', body, after);
    }
  }

  lemma OtherRune(c: char, after: string)
    ensures c !in {'\'', '"', '`', ';'} && !("--" <= [c] + after) && !("/*" <= [c] + after) ==>
              Segments(Default, [c] + after) == Glue([[c]], Segments(Default, after))
  {
    if c !in {'\'', '"', '`', ';'} && !("--" <= [c] + after) && !("/*" <= [c] + after) {
      assert Fits(Rune(c), after);
      LexToken(Rune(c), after);
    }
  }

  // The shapes of the language, one by one: quoted text and comments are crossed whole,
  // whatever semicolons they contain; elsewhere a semicolon cuts, and any other rune is kept.
  lemma ShapesOfText(body: string, c: char, after: string)
    ensures Free(body, '\'') ==>
              Segments(Default, "'" + body + "'" + after) == Glue(["'" + body + "'"], Segments(Default, after))
    ensures Free(body, '"') ==>
              Segments(Default, "\"" + body + "\"" + after) == Glue(["\"" + body + "\""], Segments(Default, after))
    ensures Free(body, '`') ==>
              Segments(Default, "`" + body + "`" + after) == Glue(["`" + body + "`"], Segments(Default, after))
    ensures Free(body, '\n') ==>
              Segments(Default, "--" + body + "\n" + after) == Glue(["--" + body + "\n"], Segments(Default, after))
    ensures Unclosed(body) ==>
              Segments(Default, "/*" + body + "*/" + after) == Glue(["/*" + body + "*/"], Segments(Default, after))
    ensures Segments(Default, ";" + after) == [""] + Segments(Default, after)
    ensures c !in {'\'', '"', '`', ';'} && !("--" <= [c] + after) && !("/*" <= [c] + after) ==>
              Segments(Default, [c] + after) == Glue([[c]], Segments(Default, after))
  {
    ShapesOfQuotes(body, after);
    if Free(body, '\n') {
      LexLine(body, after);
    }
    if Unclosed(body) {
      LexBlock(body, after);
    }
    assert (";" + after)[1..] == after;
    OtherRune(c, after);
  }
}

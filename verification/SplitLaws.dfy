// What splitting a script means: it conserves every rune, its segments are the
// only lawful ones, it composes at top-level semicolons, and it can be undone.
module SplitLaws {
  import opened Text
  import opened Utf8
  import opened SqlSplit

  // No step of lexing s from mode m meets a top-level semicolon.
  predicate NoCut(m: Mode, s: string)
    decreases |s|
  {
    s == "" || (!Cuts(m, s) && NoCut(Next(m, s), s[Width(m, s)..]))
  }

  // segs could be the segments of a script lexed from mode m.
  predicate IsSegmentation(m: Mode, segs: seq<string>)
    requires |segs| >= 1
    decreases |segs|
  {
    && NoCut(m, segs[0])
    && (|segs| > 1 ==> EndMode(m, segs[0]) == Default && IsSegmentation(Default, segs[1..]))
  }

  // The last rune of a, as lexed from mode m, and the first of b are a comment opener or
  // closer.
  predicate Straddles(m: Mode, a: string, b: string)
    decreases |a|
  {
    && a != "" && b != ""
    && if |a| == 1 then TakesTwo(m, a[0], b[0]) else Straddles(Next(m, a), a[Width(m, a)..], b)
  }

  // b completes no comment opener or closer, whatever came before it.
  predicate FreshStart(b: string) {
    b == "" || (b[0] != '-' && b[0] != '*' && b[0] != '/')
  }

  lemma {:induction false} FreshIsApart(m: Mode, a: string, b: string)
    requires FreshStart(b)
    ensures !Straddles(m, a, b)
    decreases |a|
  {
    if |a| > 1 {
      FreshIsApart(Next(m, a), a[Width(m, a)..], b);
    }
  }

  lemma GlueAssociates(x: seq<string>, y: seq<string>, z: seq<string>)
    requires |x| >= 1 && |y| >= 1 && |z| >= 1
    ensures Glue(Glue(x, y), z) == Glue(x, Glue(y, z))
  {
    assert x[|x| - 1] + (y[0] + z[0]) == x[|x| - 1] + y[0] + z[0];
  }

  lemma GlueEmpty(y: seq<string>)
    requires |y| >= 1
    ensures Glue([""], y) == y && Glue(y, [""]) == y
  {
    assert "" + y[0] == y[0];
    assert y[|y| - 1] + "" == y[|y| - 1];
  }

  lemma FirstStep(m: Mode, a: string, b: string)
    requires a != "" && !Straddles(m, a, b)
    ensures !Straddles(Next(m, a), a[Width(m, a)..], b)
    ensures var w := Width(m, a);
            && Width(m, a + b) == w && Next(m, a + b) == Next(m, a) && Cuts(m, a + b) == Cuts(m, a)
            && (a + b)[..w] == a[..w] && (a + b)[w..] == a[w..] + b
  {
    assert (a + b)[0] == a[0];
    assert Lookahead(a + b) == if |a| >= 2 then a[1] else if b == "" then '\0' else b[0];
    SplitWithin(a, b, Width(m, a));
  }

  // Lexing a text is lexing its two parts, the second from where the first ended.
  lemma {:induction false} ModeConcat(m: Mode, a: string, b: string)
    requires !Straddles(m, a, b)
    ensures EndMode(m, a + b) == EndMode(EndMode(m, a), b)
    ensures NoCut(m, a + b) == (NoCut(m, a) && NoCut(EndMode(m, a), b))
    decreases |a|
  {
    if a == "" {
      assert a + b == b;
    } else {
      FirstStep(m, a, b);
      ModeConcat(Next(m, a), a[Width(m, a)..], b);
    }
  }

  lemma {:induction false} LexConcat(m: Mode, a: string, b: string)
    requires !Straddles(m, a, b)
    ensures Segments(m, a + b) == Glue(Segments(m, a), Segments(EndMode(m, a), b))
    decreases |a|
  {
    var y := Segments(EndMode(m, a), b);
    if a == "" {
      assert a + b == b;
      GlueEmpty(y);
    } else {
      var w := Width(m, a);
      var n, t := Next(m, a), a[w..];
      var x := Segments(n, t);
      FirstStep(m, a, b);
      LexConcat(n, t, b);
      assert EndMode(n, t) == EndMode(m, a);
      if Cuts(m, a) {
        GlueBehindCut(x, y);
      } else {
        GlueAssociates([a[..w]], x, y);
      }
    }
  }

  lemma GlueBehindCut(x: seq<string>, y: seq<string>)
    requires |x| >= 1 && |y| >= 1
    ensures [""] + Glue(x, y) == Glue([""] + x, y)
  {
  }

  lemma {:induction false} NoCutIsOneSegment(m: Mode, s: string)
    requires NoCut(m, s)
    ensures Segments(m, s) == [s]
    decreases |s|
  {
    if s != "" {
      var w := Width(m, s);
      NoCutIsOneSegment(Next(m, s), s[w..]);
      assert s[..w] + s[w..] == s;
    }
  }

  lemma JoinGlue(p: string, y: seq<string>, sep: string)
    requires |y| >= 1
    ensures Join(Glue([p], y), sep) == p + Join(y, sep)
  {
    if |y| > 1 {
      assert Glue([p], y)[1..] == y[1..];
      assert p + y[0] + sep + Join(y[1..], sep) == p + (y[0] + sep + Join(y[1..], sep));
    }
  }

  lemma JoinBehindCut(y: seq<string>, sep: string)
    requires |y| >= 1
    ensures Join([""] + y, sep) == sep + Join(y, sep)
  {
    assert ([""] + y)[1..] == y;
    assert "" + sep + Join(y, sep) == sep + Join(y, sep);
  }

  // Every rune but the top-level semicolons is kept, once and in order.
  lemma {:induction false} Conservation(m: Mode, s: string)
    ensures Join(Segments(m, s), ";") == s
    decreases |s|
  {
    if s != "" {
      var w := Width(m, s);
      var rest := Segments(Next(m, s), s[w..]);
      Conservation(Next(m, s), s[w..]);
      assert s == s[..w] + s[w..];
      if Cuts(m, s) {
        assert s[..w] == ";";
        JoinBehindCut(rest, ";");
      } else {
        JoinGlue(s[..w], rest, ";");
      }
    }
  }

  lemma FirstSegmentIsPrefix(m: Mode, s: string)
    ensures Segments(m, s)[0] <= s
  {
    Conservation(m, s);
  }

  lemma {:induction false} SegmentsAreLawful(m: Mode, s: string)
    ensures IsSegmentation(m, Segments(m, s))
    decreases |s|
  {
    if s != "" {
      var w := Width(m, s);
      var rest := Segments(Next(m, s), s[w..]);
      SegmentsAreLawful(Next(m, s), s[w..]);
      if Cuts(m, s) {
        assert ([""] + rest)[1..] == rest;
      } else {
        FirstSegmentIsPrefix(Next(m, s), s[w..]);
        StepPrefix(m, s, rest[0]);
        assert Glue([s[..w]], rest)[1..] == rest[1..];
      }
    }
  }

  // The first step of lexing s is also the first step when what follows it is r,
  // provided r is how the text after that step goes on.
  lemma StepPrefix(m: Mode, s: string, r: string)
    requires s != "" && !Cuts(m, s)
    requires r <= s[Width(m, s)..]
    ensures var w := Width(m, s);
            && NoCut(m, s[..w] + r) == NoCut(Next(m, s), r)
            && EndMode(m, s[..w] + r) == EndMode(Next(m, s), r)
  {
    var w := Width(m, s);
    var t := s[..w] + r;
    assert t[0] == s[0];
    assert t[w..] == r;
    assert |t| >= 2 ==> t[1] == s[1];
    if |s| >= 2 && w == 1 && |t| == 1 {
      assert t == [s[0]];
    }
  }

  // Where lexing the last of these segments ends.
  function EndOfLast(m: Mode, segs: seq<string>): Mode
    requires |segs| >= 1
  {
    EndMode(if |segs| == 1 then m else Default, segs[|segs| - 1])
  }

  lemma EndOfGlued(m: Mode, s: string, rest: seq<string>)
    requires s != "" && !Cuts(m, s)
    requires |rest| >= 1 && rest[0] <= s[Width(m, s)..]
    ensures EndOfLast(m, Glue([s[..Width(m, s)]], rest)) == EndOfLast(Next(m, s), rest)
  {
    StepPrefix(m, s, rest[0]);
  }

  lemma EndOfCut(m: Mode, rest: seq<string>)
    requires |rest| >= 1
    ensures EndOfLast(m, [""] + rest) == EndOfLast(Default, rest)
  {
  }

  // A script ends in the mode in which its last segment ends.
  lemma {:induction false} LastSegmentMode(m: Mode, s: string)
    ensures EndMode(m, s) == EndOfLast(m, Segments(m, s))
    decreases |s|
  {
    if s != "" {
      var n, t := Next(m, s), s[Width(m, s)..];
      LastSegmentMode(n, t);
      if Cuts(m, s) {
        EndOfCut(m, Segments(n, t));
      } else {
        FirstSegmentIsPrefix(n, t);
        EndOfGlued(m, s, Segments(n, t));
      }
    }
  }

  // One rune at a time, where no pair begins.
  lemma LexRune(m: Mode, c: char, t: string)
    requires !TakesTwo(m, c, Lookahead([c] + t))
    ensures var n := ModeAfter(m, c, Lookahead([c] + t));
            && NoCut(m, [c] + t) == (!(m == Default && c == ';') && NoCut(n, t))
            && EndMode(m, [c] + t) == EndMode(n, t)
  {
    assert ([c] + t)[1..] == t;
  }

  // segs are the segments of the script exactly when they join to it and are lawful.
  lemma {:induction false} SegmentationIsUnique(m: Mode, s: string, segs: seq<string>)
    requires |segs| >= 1
    ensures segs == Segments(m, s) <==> Join(segs, ";") == s && IsSegmentation(m, segs)
  {
    Conservation(m, s);
    SegmentsAreLawful(m, s);
    if IsSegmentation(m, segs) {
      LawfulIsSegments(m, segs);
    }
  }

  lemma {:induction false} LawfulIsSegments(m: Mode, segs: seq<string>)
    requires |segs| >= 1 && IsSegmentation(m, segs)
    ensures Segments(m, Join(segs, ";")) == segs
    decreases |segs|
  {
    var head := segs[0];
    NoCutIsOneSegment(m, head);
    if |segs| > 1 {
      LawfulIsSegments(Default, segs[1..]);
      CutAfter(m, head, Join(segs[1..], ";"));
      assert Join(segs, ";") == head + ";" + Join(segs[1..], ";");
      assert [head] + segs[1..] == segs;
    }
  }

  lemma GlueCut(x: seq<string>, y: seq<string>)
    requires |x| >= 1
    ensures Glue(x, [""] + y) == x + y
  {
    assert x[|x| - 1] + "" == x[|x| - 1];
  }

  // A semicolon met in the default mode separates.
  lemma CutAfter(m: Mode, a: string, b: string)
    requires EndMode(m, a) == Default
    ensures Segments(m, a + ";" + b) == Segments(m, a) + Segments(Default, b)
  {
    var tail := ";" + b;
    assert a + ";" + b == a + tail;
    FreshIsApart(m, a, tail);
    LexConcat(m, a, tail);
    assert tail[1..] == b;
    assert Segments(Default, tail) == [""] + Segments(Default, b);
    GlueCut(Segments(m, a), Segments(Default, b));
  }

  // A semicolon met in another mode is copied.
  lemma CopiedSemicolon(m: Mode, b: string) returns (y: seq<string>)
    requires m != Default
    ensures |y| >= 1 && Segments(m, ";" + b) == Glue([";"], y)
  {
    var tail := ";" + b;
    assert tail[..1] == ";" && tail[1..] == b;
    y := Segments(Next(m, tail), b);
  }

  // ---- trimming a segment ----

  predicate Closed(t: string) {
    EndMode(Default, t) == Default || EndMode(Default, t) == Line
  }

  lemma {:induction false} LexBlank(m: Mode, b: string)
    requires Blank(b, RuneSpace)
    ensures NoCut(m, b)
    ensures EndMode(m, b) == m || (m == Line && EndMode(m, b) == Default)
    decreases |b|
  {
    if b != "" {
      assert RuneSpace(b[0]);
      LexBlank(Next(m, b), b[1..]);
    }
  }

  lemma {:induction false} LexAfterBlank(left: string, s: string)
    requires Blank(left, RuneSpace)
    ensures EndMode(Default, left + s) == EndMode(Default, s)
    ensures NoCut(Default, left + s) == NoCut(Default, s)
    decreases |left|
  {
    if left == "" {
      assert left + s == s;
    } else {
      assert RuneSpace((left + s)[0]);
      assert (left + s)[1..] == left[1..] + s;
      LexAfterBlank(left[1..], s);
    }
  }

  lemma BlankIsFresh(s: string)
    requires Blank(s, RuneSpace)
    ensures FreshStart(s)
  {
    if s != "" {
      assert RuneSpace(s[0]);
    }
  }

  lemma TrimSegment(s: string)
    requires NoCut(Default, s)
    ensures NoCut(Default, Trim(s, RuneSpace))
    ensures EndMode(Default, s) == Default ==> Closed(Trim(s, RuneSpace))
  {
    var i, j := CoreExists(s, RuneSpace);
    var core, right := s[i..j], s[j..];
    assert s == s[..i] + (core + right);
    LexAfterBlank(s[..i], core + right);
    BlankIsFresh(right);
    FreshIsApart(Default, core, right);
    ModeConcat(Default, core, right);
    LexBlank(EndMode(Default, core), right);
  }

  // ---- statement lists ----

  // A text that splits to just itself.
  predicate IsStatement(t: string) {
    t != "" && Trim(t, RuneSpace) == t && NoCut(Default, t)
  }

  predicate IsStatementList(ts: seq<string>) {
    && (forall i :: 0 <= i < |ts| ==> IsStatement(ts[i]))
    && (forall i :: 0 <= i < |ts| - 1 ==> Closed(ts[i]))
  }

  lemma TrimIdempotent(s: string)
    ensures Trim(Trim(s, RuneSpace), RuneSpace) == Trim(s, RuneSpace)
  {
    var i, j := CoreExists(s, RuneSpace);
    TrimFixed(s[i..j], RuneSpace);
  }

  lemma {:induction false} EmittedIsStatementList(segs: seq<string>)
    requires |segs| >= 1 && IsSegmentation(Default, segs)
    ensures IsStatementList(Emitted(segs))
    decreases |segs|
  {
    var t := Trim(segs[0], RuneSpace);
    TrimSegment(segs[0]);
    TrimIdempotent(segs[0]);
    if |segs| > 1 {
      EmittedIsStatementList(segs[1..]);
    }
  }

  lemma StatementAlone(t: string)
    requires IsStatement(t)
    ensures Statements(t) == [t]
  {
    NoCutIsOneSegment(Default, t);
    assert Emitted([t]) == [t];
  }

  lemma StatementThenNewline(t: string)
    requires IsStatement(t) && Closed(t)
    ensures EndMode(Default, t + "\n") == Default
    ensures Statements(t + "\n") == [t]
  {
    FreshIsApart(Default, t, "\n");
    ModeConcat(Default, t, "\n");
    LexBlank(EndMode(Default, t), "\n");
    assert EndMode(EndMode(Default, t), "\n") == Default;
    NoCutIsOneSegment(Default, t + "\n");
    TrimPadded("", t, "\n", RuneSpace);
    assert "" + t + "\n" == t + "\n";
    assert Emitted([t + "\n"]) == [t];
  }

  lemma LeadingNewline(s: string)
    ensures Statements("\n" + s) == Statements(s)
  {
    var segs := Segments(Default, s);
    assert ("\n" + s)[1..] == s && ("\n" + s)[..1] == "\n";
    TrimPadded("\n", segs[0], "", RuneSpace);
    assert "\n" + segs[0] + "" == "\n" + segs[0];
    assert Glue(["\n"], segs)[1..] == segs[1..];
  }

  lemma {:induction false} RejoinSplits(ts: seq<string>)
    requires IsStatementList(ts)
    ensures Statements(Join(ts, "\n;\n")) == ts
    decreases |ts|
  {
    if |ts| == 0 {
      assert Segments(Default, "") == [""];
      TrimFixed("", RuneSpace);
    } else if |ts| == 1 {
      StatementAlone(ts[0]);
    } else {
      var rest := Join(ts[1..], "\n;\n");
      assert Join(ts, "\n;\n") == (ts[0] + "\n") + ";" + ("\n" + rest);
      assert Closed(ts[0]);
      StatementThenNewline(ts[0]);
      SplitAtTopLevel(ts[0] + "\n", "\n" + rest);
      LeadingNewline(rest);
      TailOfStatements(ts);
      RejoinSplits(ts[1..]);
    }
  }

  lemma SplitAtTopLevel(a: string, b: string)
    requires EndMode(Default, a) == Default
    ensures Statements(a + ";" + b) == Statements(a) + Statements(b)
  {
    CutAfter(Default, a, b);
    EmittedConcat(Segments(Default, a), Segments(Default, b));
  }

  // ---- the laws ----

  lemma StatementsAreStatements(script: string)
    ensures IsStatementList(Statements(script))
  {
    SegmentsAreLawful(Default, script);
    EmittedIsStatementList(Segments(Default, script));
  }

  // Each emitted statement splits to just itself.
  lemma {:induction false} EachStatementSplitsToItself(script: string, k: nat)
    requires k < |Statements(script)|
    ensures Statements(Statements(script)[k]) == [Statements(script)[k]]
  {
    StatementsAreStatements(script);
    StatementAlone(Statements(script)[k]);
  }

  // Joining the statements and splitting again gives the same list.
  lemma {:induction false} RoundTrip(script: string)
    ensures Statements(Join(Statements(script), "\n;\n")) == Statements(script)
  {
    StatementsAreStatements(script);
    RejoinSplits(Statements(script));
  }

  // The lists that splitting can produce are exactly the statement lists.
  lemma {:induction false} SplitImage(ts: seq<string>)
    ensures IsStatementList(ts) <==> exists script :: Statements(script) == ts
  {
    if IsStatementList(ts) {
      RejoinSplits(ts);
    }
    if exists script :: Statements(script) == ts {
      var script :| Statements(script) == ts;
      StatementsAreStatements(script);
    }
  }

  lemma CommentLine()
    ensures EndMode(Default, "--\n") == Default
    ensures Statements("--\n") == ["--"]
  {
    var comment := "--\n";
    assert comment[2..] == "\n";
    LexBlank(Line, "\n");
    assert EndMode(Line, "\n") == Default;
    NoCutIsOneSegment(Default, comment);
    assert comment[0..2] == "--";
    TrimIsCore(comment, RuneSpace, 0, 2);
    assert Emitted([comment]) == ["--"];
  }

  lemma CommentedSemicolon()
    ensures Statements("--;x") == ["--;x"]
  {
    var joined := "--;x";
    assert joined[2..] == ";x" && ";x"[1..] == "x";
    assert NoCut(Line, "x");
    TrimFixed(joined, RuneSpace);
    StatementAlone(joined);
  }

  // A plain semicolon does not rejoin: trimming took the newline of the comment.
  lemma PlainRejoinFails()
    ensures Statements("--\n;x") == ["--", "x"]
    ensures Statements(Join(["--", "x"], ";")) == ["--;x"]
  {
    CommentLine();
    LexOne("x");
    SplitAtTopLevel("--\n", "x");
    assert "--\n;x" == "--\n" + ";" + "x";
    CommentedSemicolon();
    assert Join(["--", "x"], ";") == "--" + ";" + Join(["x"], ";") by {
      assert ["--", "x"][1..] == ["x"];
    }
    assert "--" + ";" + "x" == "--;x";
  }

  lemma LexOne(t: string)
    requires |t| == 1 && t[0] != ';' && !RuneSpace(t[0])
    ensures Statements(t) == [t]
  {
    assert t[1..] == "";
    TrimFixed(t, RuneSpace);
    StatementAlone(t);
  }

  lemma EmittedMiddle(a: seq<string>, t: string, b: seq<string>)
    requires Trim(t, RuneSpace) != ""
    ensures Emitted(a + [t] + b) == Emitted(a) + [Trim(t, RuneSpace)] + Emitted(b)
  {
    EmittedConcat(a + [t], b);
    EmittedConcat(a, [t]);
    assert Emitted([t]) == [Trim(t, RuneSpace)];
  }

  // Text after an unblank beginning, itself ending in ink, only lengthens the core.
  lemma LongerCore(l: string, y: string)
    requires Trim(l, RuneSpace) != ""
    ensures |Trim(l + ";" + y, RuneSpace)| > |Trim(l, RuneSpace)|
  {
    var i, j := CoreExists(l, RuneSpace);
    var w := l + ";" + y;
    var i2, j2 := CoreExists(w, RuneSpace);
    assert w[i] == l[i] && w[|l|] == ';';
    CoreHolds(w, RuneSpace, i2, j2, i);
    CoreHolds(w, RuneSpace, i2, j2, |l|);
  }

  // The last segment of a text that ends inside a comment or string is not blank.
  lemma OpenEndHasInk(a: string)
    requires EndMode(Default, a) != Default
    ensures Trim(Segments(Default, a)[|Segments(Default, a)| - 1], RuneSpace) != ""
  {
    var l := Segments(Default, a)[|Segments(Default, a)| - 1];
    LastSegmentMode(Default, a);
    var i, j := CoreExists(l, RuneSpace);
    if Blank(l, RuneSpace) {
      LexBlank(Default, l);
    } else {
      var k :| 0 <= k < |l| && !RuneSpace(l[k]);
      CoreHolds(l, RuneSpace, i, j, k);
    }
  }

  // A semicolon between two texts separates them exactly when the lexer ends the
  // first one in the default mode.
  lemma {:induction false} SemicolonSeparates(a: string, b: string)
    ensures Statements(a + ";" + b) == Statements(a) + Statements(b) <==> EndMode(Default, a) == Default
  {
    if EndMode(Default, a) == Default {
      SplitAtTopLevel(a, b);
    } else {
      SemicolonInside(a, b, Statements(b));
    }
  }

  // Inside a comment or string, the semicolon stays in the statement it comes after.
  lemma SemicolonInside(a: string, b: string, more: seq<string>)
    requires EndMode(Default, a) != Default
    ensures Statements(a + ";" + b) != Statements(a) + more
  {
    var x := Segments(Default, a);
    var init, l := x[..|x| - 1], x[|x| - 1];
    OpenEndHasInk(a);
    var y := CopiedSemicolon(EndMode(Default, a), b);
    Regroup(a, ";", b);
    FreshIsApart(Default, a, ";" + b);
    LexConcat(Default, a, ";" + b);
    assert init + [l] == x;
    DifferAtSemicolon(init, l, y, more);
  }

  // Statements rejoin by plain semicolons exactly when the lexer ends each but the last
  // in the default mode.
  lemma {:induction false} PlainRejoin(ts: seq<string>)
    requires IsStatementList(ts)
    ensures Statements(Join(ts, ";")) == ts <==>
            forall i :: 0 <= i < |ts| - 1 ==> EndMode(Default, ts[i]) == Default
    decreases |ts|
  {
    if |ts| <= 1 {
      RejoinSplits(ts);
    } else {
      var head, rest := ts[0], ts[1..];
      StatementAlone(head);
      TailOfStatements(ts);
      assert ts == [head] + rest;
      if EndMode(Default, head) == Default {
        PlainRejoin(rest);
        SplitAtTopLevel(head, Join(rest, ";"));
        SameTail(head, Statements(Join(rest, ";")), rest);
        assert forall i :: 0 <= i < |rest| ==> rest[i] == ts[i + 1];
      } else {
        SemicolonInside(head, Join(rest, ";"), rest);
      }
    }
  }

  lemma TailOfStatements(ts: seq<string>)
    requires IsStatementList(ts) && ts != []
    ensures IsStatementList(ts[1..])
  {
    forall i | 0 <= i < |ts| - 2 ensures Closed(ts[1..][i]) {
      assert Closed(ts[i + 1]);
    }
  }

  lemma SameTail(head: string, x: seq<string>, y: seq<string>)
    ensures [head] + x == [head] + y <==> x == y
  {
    assert ([head] + x)[1..] == x && ([head] + y)[1..] == y;
  }

  // So the statements of a script do exactly when none but the last ends in a line comment.
  lemma PlainRejoinOfScript(script: string)
    ensures var ts := Statements(script);
            Statements(Join(ts, ";")) == ts <==>
            forall i :: 0 <= i < |ts| - 1 ==> EndMode(Default, ts[i]) != Line
  {
    var ts := Statements(script);
    StatementsAreStatements(script);
    PlainRejoin(ts);
    forall i | 0 <= i < |ts| - 1 ensures EndMode(Default, ts[i]) in {Default, Line} {
      assert Closed(ts[i]);
    }
  }

  lemma DifferAtSemicolon(init: seq<string>, l: string, y: seq<string>, more: seq<string>)
    requires |y| >= 1 && Trim(l, RuneSpace) != ""
    ensures Emitted(Glue(init + [l], Glue([";"], y))) != Emitted(init + [l]) + more
  {
    var fused, k := l + ";" + y[0], |Emitted(init)|;
    assert l + (";" + y[0]) == fused;
    assert Glue(init + [l], Glue([";"], y)) == init + [fused] + y[1..];
    LongerCore(l, y[0]);
    EmittedMiddle(init, fused, y[1..]);
    EmittedMiddle(init, l, []);
    assert init + [l] + [] == init + [l];
    assert Emitted(init + [fused] + y[1..])[k] == Trim(fused, RuneSpace);
    assert (Emitted(init + [l]) + more)[k] == Trim(l, RuneSpace);
  }
}

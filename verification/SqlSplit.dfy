// The SQL script splitter: the mode lexer it implements, the loop with five
// flags that runs it, and the laws of splitting.
module SqlSplit {
  import opened Text
  import opened Utf8

  // ---- the lexer as one mode ----

  datatype Mode = Default | Line | Block | Single | Double | Back

  // The rune after the first, or zero at the end of the text.
  function Lookahead(s: string): char {
    if |s| >= 2 then s[1] else '\0'
  }

  // Comment openers and closers consume two runes.
  predicate TakesTwo(m: Mode, r: char, next: char) {
    || (m == Block && r == '*' && next == '/')
    || (m == Default && ((r == '-' && next == '-') || (r == '/' && next == '*')))
  }

  function ModeAfter(m: Mode, r: char, next: char): Mode {
    match m
    case Line => if r == '\n' then Default else Line
    case Block => if r == '*' && next == '/' then Default else Block
    case Single => if r == '\'' then Default else Single
    case Double => if r == '"' then Default else Double
    case Back => if r == '`' then Default else Back
    case Default =>
      if r == '-' && next == '-' then Line
      else if r == '/' && next == '*' then Block
      else if r == '\'' then Single
      else if r == '"' then Double
      else if r == '`' then Back
      else Default
  }

  function Width(m: Mode, s: string): (w: nat)
    requires s != ""
    ensures 1 <= w <= |s|
  {
    if TakesTwo(m, s[0], Lookahead(s)) then 2 else 1
  }

  function Next(m: Mode, s: string): Mode
    requires s != ""
  {
    ModeAfter(m, s[0], Lookahead(s))
  }

  predicate Cuts(m: Mode, s: string)
    requires s != ""
  {
    m == Default && s[0] == ';'
  }

  // The mode in which lexing s from mode m ends.
  function EndMode(m: Mode, s: string): Mode
    decreases |s|
  {
    if s == "" then m else EndMode(Next(m, s), s[Width(m, s)..])
  }

  // Two segment lists laid end to end, fusing the segments that meet.
  function Glue(x: seq<string>, y: seq<string>): (z: seq<string>)
    requires |x| >= 1 && |y| >= 1
    ensures |z| == |x| + |y| - 1
  {
    x[..|x| - 1] + [x[|x| - 1] + y[0]] + y[1..]
  }

  // The untrimmed text between top-level semicolons.
  function Segments(m: Mode, s: string): (segs: seq<string>)
    ensures |segs| >= 1
    decreases |s|
  {
    if s == "" then [""]
    else if Cuts(m, s) then [""] + Segments(Default, s[1..])
    else Glue([s[..Width(m, s)]], Segments(Next(m, s), s[Width(m, s)..]))
  }

  // Trimmed segments, without the empty ones.
  function Emitted(segs: seq<string>): seq<string> {
    if segs == [] then []
    else
      var t := Trim(segs[0], RuneSpace);
      (if t == "" then [] else [t]) + Emitted(segs[1..])
  }

  function Statements(script: string): seq<string> {
    Emitted(Segments(Default, script))
  }

  // ---- the loop, and what it refines ----

  // Exactly the flag of the current mode is set, so at most one ever is.
  ghost predicate Flags(m: Mode, inSingle: bool, inDouble: bool, inBack: bool, inLine: bool, inBlock: bool) {
    && inSingle == m.Single?
    && inDouble == m.Double?
    && inBack == m.Back?
    && inLine == m.Line?
    && inBlock == m.Block?
  }

  datatype Lexer = Lexer(m: Mode, buf: string, out: seq<seq<byte>>, i: nat)

  // The buffer is closed: its trimmed text is a statement unless it is empty.
  function Close(out: seq<seq<byte>>, buf: string): seq<seq<byte>> {
    var stmt := Trim(Encode(buf), ByteSpace);
    if stmt != [] then out + [stmt] else out
  }

  // One iteration, on the mode instead of the flags.
  function Step(script: string, x: Lexer): (y: Lexer)
    requires x.i < |script|
    ensures x.i < y.i <= |script|
  {
    var r, next := script[x.i], if x.i + 1 < |script| then script[x.i + 1] else '\0';
    if x.m == Default && r == ';' then Lexer(Default, "", Close(x.out, x.buf), x.i + 1)
    else if TakesTwo(x.m, r, next) then Lexer(ModeAfter(x.m, r, next), x.buf + [r, next], x.out, x.i + 2)
    else Lexer(ModeAfter(x.m, r, next), x.buf + [r], x.out, x.i + 1)
  }

  function Run(script: string, x: Lexer): Lexer
    requires x.i <= |script|
    decreases |script| - x.i
  {
    if x.i == |script| then x else Run(script, Step(script, x))
  }

  lemma {:induction false} EmittedConcat(a: seq<string>, b: seq<string>)
    ensures Emitted(a + b) == Emitted(a) + Emitted(b)
  {
    if a == [] {
      assert a + b == b;
    } else {
      assert (a + b)[1..] == a[1..] + b;
      EmittedConcat(a[1..], b);
    }
  }

  lemma EmitOne(cut: seq<string>, buf: string, out: seq<seq<byte>>)
    requires out == EncodeAll(Emitted(cut))
    ensures Close(out, buf) == EncodeAll(Emitted(cut + [buf]))
  {
    TrimBytesIsTrimRunes(buf);
    EmittedConcat(cut, [buf]);
    var stmt := Trim(buf, RuneSpace);
    assert Emitted([buf]) == if stmt == "" then [] else [stmt];
    if stmt == "" {
      assert Emitted(cut) + [] == Emitted(cut);
    } else {
      EncodeAllConcat(Emitted(cut), [stmt]);
      assert EncodeAll([stmt]) == [Encode(stmt)];
    }
  }

  lemma CopyGlue(cut: seq<string>, buf: string, m: Mode, s: string)
    requires s != "" && !Cuts(m, s)
    ensures var w := Width(m, s);
            Glue(cut + [buf], Segments(m, s)) == Glue(cut + [buf + s[..w]], Segments(Next(m, s), s[w..]))
  {
    var w := Width(m, s);
    var rest := Segments(Next(m, s), s[w..]);
    assert buf + (s[..w] + rest[0]) == buf + s[..w] + rest[0];
  }

  lemma CutGlue(cut: seq<string>, buf: string, s: string)
    requires s != "" && Cuts(Default, s)
    ensures Glue(cut + [buf], Segments(Default, s)) == Glue(cut + [buf] + [""], Segments(Default, s[1..]))
  {
    var rest := Segments(Default, s[1..]);
    assert buf + "" == buf;
    assert "" + rest[0] == rest[0];
  }

  lemma StepInText(script: string, x: Lexer)
    requires x.i < |script|
    ensures var s, y := script[x.i..], Step(script, x);
            && script[y.i..] == s[if Cuts(x.m, s) then 1 else Width(x.m, s)..]
            && (!Cuts(x.m, s) ==> y == Lexer(Next(x.m, s), x.buf + s[..Width(x.m, s)], x.out, y.i))
  {
    var s := script[x.i..];
    assert Lookahead(s) == if x.i + 1 < |script| then script[x.i + 1] else '\0';
    assert s[..Width(x.m, s)] == if Width(x.m, s) == 2 then [s[0], s[1]] else [s[0]];
  }

  // The iterations add to the statements those of the segments still to come.
  lemma {:induction false} RunEmits(script: string, x: Lexer, cut: seq<string>)
    requires x.i <= |script|
    requires x.out == EncodeAll(Emitted(cut))
    ensures var y := Run(script, x);
            Close(y.out, y.buf) == EncodeAll(Emitted(Glue(cut + [x.buf], Segments(x.m, script[x.i..]))))
    decreases |script| - x.i
  {
    var s := script[x.i..];
    if s == "" {
      EmitOne(cut, x.buf, x.out);
      assert x.buf + "" == x.buf;
      assert Glue(cut + [x.buf], [""]) == cut + [x.buf];
    } else {
      var y := Step(script, x);
      StepInText(script, x);
      if Cuts(x.m, s) {
        EmitOne(cut, x.buf, x.out);
        RunEmits(script, y, cut + [x.buf]);
        CutGlue(cut, x.buf, s);
      } else {
        RunEmits(script, y, cut);
        CopyGlue(cut, x.buf, x.m, s);
      }
    }
  }

  lemma RunIsStatements(script: string)
    ensures var y := Run(script, Lexer(Default, "", [], 0));
            Close(y.out, y.buf) == EncodeAll(Statements(script))
  {
    RunEmits(script, Lexer(Default, "", [], 0), []);
    assert script[0..] == script;
    assert "" + Segments(Default, script)[0] == Segments(Default, script)[0];
    assert Glue([""], Segments(Default, script)) == Segments(Default, script);
  }

  method SplitSQL(runes: string) returns (out: seq<seq<byte>>)
    ensures out == EncodeAll(Statements(runes))
  {
    out := [];
    var buf: string := "";
    var inSingle, inDouble, inBack, inLine, inBlock := false, false, false, false, false;
    var i := 0;
    ghost var x := Lexer(Default, "", [], 0);
    while i < |runes|
      invariant i == x.i <= |runes| && buf == x.buf && out == x.out
      invariant Flags(x.m, inSingle, inDouble, inBack, inLine, inBlock)
      invariant Run(runes, x) == Run(runes, Lexer(Default, "", [], 0))
    {
      var r := runes[i];
      var next := if i + 1 < |runes| then runes[i + 1] else '\0';
      x := Step(runes, x);
      if inLine {
        buf := buf + [r];
        if r == '\n' {
          inLine := false;
        }
      } else if inBlock {
        buf := buf + [r];
        if r == '*' && next == '/' {
          buf := buf + [next];
          i := i + 1;
          inBlock := false;
          assert buf == x.buf;
        }
      } else if inSingle {
        buf := buf + [r];
        if r == '\'' {
          inSingle := false;
        }
      } else if inDouble {
        buf := buf + [r];
        if r == '"' {
          inDouble := false;
        }
      } else if inBack {
        buf := buf + [r];
        if r == '`' {
          inBack := false;
        }
      } else if r == '-' && next == '-' {
        inLine := true;
        buf := buf + [r, next];
        i := i + 1;
      } else if r == '/' && next == '*' {
        inBlock := true;
        buf := buf + [r, next];
        i := i + 1;
      } else if r == '\'' {
        inSingle := true;
        buf := buf + [r];
      } else if r == '"' {
        inDouble := true;
        buf := buf + [r];
      } else if r == '`' {
        inBack := true;
        buf := buf + [r];
      } else if r == ';' {
        var stmt := TrimSpace(Encode(buf));
        if stmt != [] {
          out := out + [stmt];
        }
        buf := "";
      } else {
        buf := buf + [r];
      }
      i := i + 1;
    }
    RunIsStatements(runes);
    var stmt := TrimSpace(Encode(buf));
    if stmt != [] {
      out := out + [stmt];
    }
  }
}

// Templates whose placeholders can begin one another, and keys that agree by accident.
module TemplateCoherence {
  import opened Text
  import opened Translation
  import opened TemplateReplace
  import opened TemplateOrder
  import opened TemplateJoin

  // ---- keys of which one placeholder can begin another ----

  // No value can begin any placeholder, its own included.
  predicate Inert(values: map<string, string>) {
    forall j, k :: j in values && k in values ==> Clear(values[j], Placeholder(k))
  }

  // Every hole has a value, and literal text cannot begin a placeholder.
  predicate Known(ts: seq<Token>, values: map<string, string>) {
    forall i :: 0 <= i < |ts| ==>
      match ts[i]
      case Lit(text) => forall k :: k in values ==> Clear(text, Placeholder(k))
      case Hole(name) => name in values
  }

  // What follows the placeholder of j in the one of k.
  function Beyond(j: string, k: string): string
    requires Placeholder(j) <= Placeholder(k)
  {
    Placeholder(k)[|Placeholder(j)|..]
  }

  // A placeholder that begins another stands for the same, what follows it kept.
  predicate Coherent(values: map<string, string>) {
    forall j, k :: j in values && k in values && j != k && Placeholder(j) <= Placeholder(k) ==>
      values[k] == values[j] + Beyond(j, k)
  }

  // A placeholder begins another one at its front or not at all.
  predicate Aligned(values: map<string, string>) {
    forall j, k :: j in values && k in values ==> Clear(Placeholder(j)[1..], Placeholder(k))
  }

  lemma WithoutOpening(values: map<string, string>)
    requires forall k :: k in values ==> Free(k, '{')
    ensures Aligned(values)
  {
    forall j, k | j in values && k in values ensures Clear(Placeholder(j)[1..], Placeholder(k)) {
      assert Placeholder(j)[1..] == j + "}";
      FreeIsClear(Placeholder(j)[1..], Placeholder(k));
    }
  }

  // For such placeholders: all templates are free of the order exactly when those of which
  // one begins the other agree.
  lemma OrderFreeIffCoherent(values: map<string, string>)
    requires Inert(values) && Aligned(values)
    ensures (forall ts :: Known(ts, values) ==> OrderFreeFor(Render(ts), values)) <==> Coherent(values)
  {
    if Coherent(values) {
      forall ts | Known(ts, values) ensures OrderFreeFor(Render(ts), values) {
        KnownIsOrderFree(ts, values);
      }
    } else {
      var j, k :| j in values && k in values && j != k && Placeholder(j) <= Placeholder(k)
                  && values[k] != values[j] + Beyond(j, k);
      PlaceholderBegins(values, j, k);
      OneHole(k, values);
    }
  }

  lemma OneHole(k: string, values: map<string, string>)
    requires k in values
    ensures Known([Hole(k)], values) && Render([Hole(k)]) == Placeholder(k) + ""
  {
    assert [Hole(k)][1..] == [];
  }

  lemma BeyondIsClear(j: string, k: string, x: string)
    requires Placeholder(j) <= Placeholder(k) && Clear(Placeholder(k)[1..], Placeholder(x))
    ensures Clear(Beyond(j, k), Placeholder(x))
    ensures Placeholder(k) == Placeholder(j) + Beyond(j, k)
  {
    ClearFrom(Placeholder(k)[1..], |Placeholder(j)| - 1, Placeholder(x));
    assert Placeholder(k)[1..][|Placeholder(j)| - 1..] == Beyond(j, k);
  }

  // ---- its failure ----

  lemma ClearOccurs(a: string, b: string, pat: string)
    requires pat != "" && Clear(a, pat) && Clear(b, pat)
    ensures !Occurs(pat, a + b)
  {
    forall i | 0 <= i <= |a + b| ensures !(pat <= (a + b)[i..]) {
      if i < |a| {
        ClearAt(a, b, pat, i);
        assert (a + b)[i..] == a[i..] + b;
      } else if i < |a + b| {
        ClearAt(b, "", pat, i - |a|);
        assert (a + b)[i..] == b[i - |a|..] + "";
      }
    }
  }

  lemma FirstThenIdle(msg: string, x: string, values: map<string, string>) returns (o: seq<string>)
    requires x in values
    requires forall k :: k in values ==> !Occurs(Placeholder(k), ReplaceAll(msg, Placeholder(x), values[x]))
    ensures IsOrderOf(o, values.Keys)
    ensures ReplaceInOrder(msg, o, values) == ReplaceAll(msg, Placeholder(x), values[x])
  {
    var rest := SomeOrder(values.Keys - {x});
    o := [x] + rest;
    NoRepeatsCons(x, rest);
    assert o[0] == x && o[1..] == rest;
    forall k ensures k in o <==> k in values.Keys {
      assert k in o <==> k == x || k in rest;
    }
    OrderIdle(ReplaceAll(msg, Placeholder(x), values[x]), rest, values);
  }

  lemma PlaceholderBegins(values: map<string, string>, j: string, k: string)
    requires Inert(values) && Aligned(values)
    requires j in values && k in values && j != k && Placeholder(j) <= Placeholder(k)
    requires values[k] != values[j] + Beyond(j, k)
    ensures !OrderFreeFor(Placeholder(k) + "", values)
  {
    var t := Beyond(j, k);
    ReplaceAtHole(k, values[k], "");
    ReplaceAtHole(j, values[j], t);
    forall x | x in values ensures !Occurs(Placeholder(x), values[k] + "") && !Occurs(Placeholder(x), values[j] + t) {
      BeyondIsClear(j, k, x);
      ClearOccurs(values[k], "", Placeholder(x));
      ClearOccurs(values[j], t, Placeholder(x));
    }
    BeyondIsClear(j, k, j);
    ReplaceSkips(t, "", Placeholder(j), values[j]);
    assert t + "" == t && Placeholder(k) + "" == Placeholder(k) == Placeholder(j) + t;
    var o := FirstThenIdle(Placeholder(k) + "", k, values);
    var p := FirstThenIdle(Placeholder(k) + "", j, values);
    assert values[k] + "" == values[k];
    OrdersDiffer(Placeholder(k) + "", values, o, p);
  }

  // ---- its success ----

  // The holes at which the placeholder occurs, each filled with its own value.
  function FillWhere(ts: seq<Token>, k: string, values: map<string, string>): (r: seq<Token>)
    ensures |r| == |ts|
  {
    if ts == [] then []
    else
      [if ts[0].Hole? && ts[0].name in values && Placeholder(k) <= Render(ts) then Lit(values[ts[0].name]) else ts[0]]
      + FillWhere(ts[1..], k, values)
  }

  predicate KeptOrFilled(t: Token, r: Token, values: map<string, string>) {
    r == t || (t.Hole? && t.name in values && r == Lit(values[t.name]))
  }

  lemma {:induction false} FillWhereAt(ts: seq<Token>, k: string, values: map<string, string>, i: nat)
    requires i < |ts| && k in values
    ensures KeptOrFilled(ts[i], FillWhere(ts, k, values)[i], values)
    ensures ts[i] == Hole(k) ==> FillWhere(ts, k, values)[i] != ts[i]
  {
    if i == 0 {
      assert ts[0] == Hole(k) ==> Placeholder(k) <= Placeholder(k) + Render(ts[1..]);
    } else {
      FillWhereAt(ts[1..], k, values, i - 1);
    }
  }

  // Where the placeholder of k occurs at the hole of j, replacing it leaves what filling
  // that hole does.
  lemma ReplaceAtBeginning(j: string, k: string, rest: string, values: map<string, string>)
    requires j in values && k in values && Coherent(values) && Aligned(values)
    requires Placeholder(k) <= Placeholder(j) + rest
    ensures ReplaceAll(Placeholder(j) + rest, Placeholder(k), values[k]) ==
            values[j] + ReplaceAll(rest, Placeholder(k), values[k])
  {
    var p, q, s := Placeholder(k), Placeholder(j), Placeholder(j) + rest;
    if |p| <= |q| {
      assert p <= q;
      var t := Beyond(k, j);
      BeyondIsClear(k, j, k);
      Regroup(p, t, rest);
      ReplaceAtHole(k, values[k], t + rest);
      ReplaceSkips(t, rest, p, values[k]);
      Regroup(values[k], t, ReplaceAll(rest, p, values[k]));
      assert j == k ==> values[k] + t == values[j];
    } else {
      assert q <= p;
      var u := Beyond(j, k);
      BeyondIsClear(j, k, k);
      PrefixRest(q, rest, p);
      var more := rest[|u|..];
      assert rest == u + more;
      Regroup(q, u, more);
      ReplaceAtHole(k, values[k], more);
      ReplaceSkips(u, more, p, values[k]);
      Regroup(values[j], u, ReplaceAll(more, p, values[k]));
    }
  }

  lemma ReplaceElsewhere(j: string, k: string, rest: string, value: string)
    requires Clear(Placeholder(j)[1..], Placeholder(k)) && !(Placeholder(k) <= Placeholder(j) + rest)
    ensures ReplaceAll(Placeholder(j) + rest, Placeholder(k), value) ==
            Placeholder(j) + ReplaceAll(rest, Placeholder(k), value)
  {
    var p, q := Placeholder(k), Placeholder(j);
    forall i | 0 <= i < |q| ensures !(p <= q[i..] + rest) {
      if i == 0 {
        assert q[0..] == q;
      } else {
        assert q[i..] == q[1..][i - 1..];
        ClearAt(q[1..], rest, p, i - 1);
      }
    }
    ReplacePast(q, rest, p, value);
  }

  lemma {:induction false} ReplaceFillsWhere(ts: seq<Token>, k: string, values: map<string, string>)
    requires Known(ts, values) && Coherent(values) && Aligned(values) && k in values
    ensures ReplaceAll(Render(ts), Placeholder(k), values[k]) == Render(FillWhere(ts, k, values))
  {
    if ts != [] {
      var rest := Render(ts[1..]);
      assert Known(ts[1..], values);
      ReplaceFillsWhere(ts[1..], k, values);
      assert FillWhere(ts, k, values)[1..] == FillWhere(ts[1..], k, values);
      match ts[0] {
        case Lit(text) => ReplaceSkips(text, rest, Placeholder(k), values[k]);
        case Hole(j) =>
          if Placeholder(k) <= Placeholder(j) + rest {
            ReplaceAtBeginning(j, k, rest, values);
          } else {
            ReplaceElsewhere(j, k, rest, values[k]);
          }
      }
    }
  }

  lemma {:induction false} FillTheRest(ts: seq<Token>, r: seq<Token>, values: map<string, string>)
    requires |r| == |ts| && forall i :: 0 <= i < |ts| ==> KeptOrFilled(ts[i], r[i], values)
    ensures Fill(r, values) == Fill(ts, values)
  {
    if ts != [] {
      FillTheRest(ts[1..], r[1..], values);
    }
  }

  // Holes are left only for keys that are still to come.
  predicate HolesIn(ts: seq<Token>, keys: seq<string>) {
    forall i :: 0 <= i < |ts| && ts[i].Hole? ==> ts[i].name in keys
  }

  lemma {:induction false} NoHoles(ts: seq<Token>, values: map<string, string>)
    requires HolesIn(ts, [])
    ensures Fill(ts, values) == ts
  {
    if ts != [] {
      assert ts[0].Lit?;
      NoHoles(ts[1..], values);
    }
  }

  lemma {:induction false} InOrderSettles(ts: seq<Token>, order: seq<string>, values: map<string, string>)
    requires Inert(values) && Coherent(values) && Aligned(values) && Known(ts, values) && HolesIn(ts, order)
    requires forall k :: k in order ==> k in values
    ensures ReplaceInOrder(Render(ts), order, values) == Render(Fill(ts, values))
    decreases |order|
  {
    if order == [] {
      NoHoles(ts, values);
    } else {
      var k, rest := order[0], order[1..];
      var next := FillWhere(ts, k, values);
      ReplaceFillsWhere(ts, k, values);
      forall i | 0 <= i < |ts| ensures KeptOrFilled(ts[i], next[i], values) && (ts[i] == Hole(k) ==> next[i] != ts[i]) {
        FillWhereAt(ts, k, values, i);
      }
      forall i | 0 <= i < |next| && next[i].Hole? ensures next[i].name in rest {
        assert next[i] == ts[i] && ts[i].name in order && ts[i].name != k;
      }
      InOrderSettles(next, rest, values);
      FillTheRest(ts, next, values);
    }
  }

  lemma KnownIsOrderFree(ts: seq<Token>, values: map<string, string>)
    requires Inert(values) && Coherent(values) && Aligned(values) && Known(ts, values)
    ensures OrderFreeFor(Render(ts), values)
  {
    forall o | IsOrderOf(o, values.Keys) ensures ReplaceInOrder(Render(ts), o, values) == Render(Fill(ts, values)) {
      InOrderSettles(ts, o, values);
    }
  }

  // ---- an agreement by accident ----

  const SHORT := "{a}"
  const LONG := "{a}b}"

  function ReplaceShort(s: string): string {
    ReplaceAll(s, SHORT, "z{a}")
  }

  function ReplaceLong(s: string): string {
    ReplaceAll(s, LONG, SHORT)
  }

  // Text without an opening brace is at the front after a replacement if it was before.
  lemma {:induction false} FrontKept(t: string, s: string, pat: string, repl: string)
    requires pat != "" && pat[0] == '{' && Free(t, '{')
    requires repl != "" && Free(t, repl[0])
    ensures t <= ReplaceAll(s, pat, repl) <==> t <= s
    decreases |t|
  {
    if t != "" && s != "" {
      assert s == [s[0]] + s[1..];
      if pat <= s {
        assert s[..|pat|] == pat && s[0] == pat[0] && t[0] != s[0];
        assert ReplaceAll(s, pat, repl) == repl + ReplaceAll(s[|pat|..], pat, repl);
        assert ReplaceAll(s, pat, repl)[0] == repl[0] && t[0] != repl[0];
      } else {
        CopyRune(s[0], s[1..], pat, repl);
        FrontKept(t[1..], s[1..], pat, repl);
        PrefixCons(t, s[0], s[1..]);
        PrefixCons(t, s[0], ReplaceAll(s[1..], pat, repl));
      }
    }
  }

  lemma {:induction false} BothWays(s: string)
    ensures ReplaceShort(ReplaceLong(s)) == ReplaceLong(ReplaceShort(s))
    decreases |s|
  {
    if LONG <= s {
      BothAtLong(s[|LONG|..]);
      assert s == LONG + s[|LONG|..];
    } else if SHORT <= s {
      BothAtShort(s[|SHORT|..]);
      assert s == SHORT + s[|SHORT|..];
    } else if s != "" {
      var c, u := s[0], s[1..];
      assert s == [c] + u;
      BothWays(u);
      CopyRune(c, u, SHORT, "z{a}");
      CopyRune(c, u, LONG, SHORT);
      FrontKept("a}b}", u, SHORT, "z{a}");
      FrontKept("a}", u, LONG, SHORT);
      Front(LONG, c, u, ReplaceShort(u));
      Front(SHORT, c, u, ReplaceLong(u));
      CopyRune(c, ReplaceShort(u), LONG, SHORT);
      CopyRune(c, ReplaceLong(u), SHORT, "z{a}");
    }
  }

  lemma Front(pat: string, c: char, u: string, v: string)
    requires pat != "" && (pat[1..] <= u <==> pat[1..] <= v)
    ensures pat <= [c] + u <==> pat <= [c] + v
  {
    PrefixCons(pat, c, u);
    PrefixCons(pat, c, v);
  }

  lemma CopyPast(s: string)
    ensures ReplaceLong(['z'] + s) == ['z'] + ReplaceLong(s)
  {
    Mismatch(LONG, ['z'] + s, 0);
    CopyRune('z', s, LONG, SHORT);
  }

  // The short placeholder, replaced where the long one is: that is left with a rune before it.
  lemma ShortAtLong(u: string)
    ensures ReplaceShort(LONG + u) == ['z'] + (LONG + ReplaceShort(u))
  {
    var v := ReplaceShort(u);
    assert LONG + u == SHORT + ("b}" + u);
    ReplaceFront("b}" + u, SHORT, "z{a}");
    FreeIsClear("b}", SHORT);
    ReplaceSkips("b}", u, SHORT, "z{a}");
    assert "z{a}" + ("b}" + v) == ['z'] + (LONG + v);
  }

  lemma ShortThenLong(u: string)
    ensures ReplaceLong(ReplaceShort(LONG + u)) == ['z'] + (SHORT + ReplaceLong(ReplaceShort(u)))
  {
    ShortAtLong(u);
    CopyPast(LONG + ReplaceShort(u));
    ReplaceFront(ReplaceShort(u), LONG, SHORT);
  }

  lemma BothAtLong(u: string)
    ensures ReplaceShort(ReplaceLong(LONG + u)) == ReplaceLong(ReplaceShort(LONG + u))
    decreases |u| + |LONG|, 0
  {
    BothWays(u);
    ShortThenLong(u);
    ReplaceFront(u, LONG, SHORT);
    ReplaceFront(ReplaceLong(u), SHORT, "z{a}");
    var v := ReplaceLong(ReplaceShort(u));
    assert ['z'] + (SHORT + v) == "z{a}" + v;
  }

  lemma PrefixJoin(a: string, r: string, b: string)
    requires r <= b
    ensures a + r <= a + b
  {
  }

  lemma LongGoesOn(u: string)
    ensures LONG <= SHORT + u <==> "b}" <= u
  {
    assert LONG == SHORT + "b}";
    if LONG <= SHORT + u {
      PrefixRest(SHORT, u, LONG);
    }
    if "b}" <= u {
      PrefixJoin(SHORT, "b}", u);
    }
  }

  lemma LongPasses(u: string)
    requires !(LONG <= SHORT + u)
    ensures ReplaceLong(SHORT + u) == SHORT + ReplaceLong(u)
    ensures ReplaceLong("z{a}" + u) == "z{a}" + ReplaceLong(u)
  {
    assert Placeholder("a") == SHORT && Placeholder("a}b") == LONG;
    assert SHORT[1..] == "a}";
    FreeIsClear("a}", LONG);
    ReplaceElsewhere("a", "a}b", u, SHORT);
    Mismatch(LONG, ['z'] + (SHORT + u), 0);
    CopyRune('z', SHORT + u, LONG, SHORT);
    assert "z{a}" == ['z'] + SHORT;
    Regroup(['z'], SHORT, u);
    Regroup(['z'], SHORT, ReplaceLong(u));
  }

  lemma BothAtShort(u: string)
    requires !(LONG <= SHORT + u)
    ensures ReplaceShort(ReplaceLong(SHORT + u)) == ReplaceLong(ReplaceShort(SHORT + u))
    decreases |u| + |SHORT|, 0
  {
    BothWays(u);
    var v := ReplaceShort(u);
    LongGoesOn(u);
    LongGoesOn(v);
    FrontKept("b}", u, SHORT, "z{a}");
    ReplaceAtHole("a", "z{a}", u);
    ReplaceAtHole("a", "z{a}", ReplaceLong(u));
    LongPasses(u);
    LongPasses(v);
  }

  lemma NotJoined(values: map<string, string>)
    requires values == map["a" := "z{a}", "a}b" := "{a}"]
    ensures !Joined(values, ["a", "a}b"])
  {
    var o := ["a", "a}b"];
    assert Placeholder("a") == SHORT && Placeholder("a}b") == LONG;
    assert SHORT[0..] == SHORT && SHORT <= LONG && Meets(SHORT, 0, LONG);
    assert Overlay(SHORT, 0, LONG) == LONG;
    assert FirstGone(SHORT, "z{a}", 0, LONG) == "z{a}b}" && SecondGone(SHORT, 0, LONG, SHORT) == SHORT;
    PairOrder("z{a}b}", "a", "a}b", values);
    PairOrder(SHORT, "a", "a}b", values);
    BothOverlaid();
  }

  lemma BothOverlaid()
    ensures ReplaceLong(ReplaceShort("z{a}b}")) == "zz{a}"
    ensures ReplaceLong(ReplaceShort(SHORT)) == "z{a}"
  {
    ShortThenLong("");
    assert "z{a}b}" == ['z'] + (LONG + "") && LONG + "" == LONG;
    Mismatch(SHORT, ['z'] + LONG, 0);
    CopyRune('z', LONG, SHORT, "z{a}");
    CopyPast(ReplaceShort(LONG));
    ReplaceAtHole("a", "z{a}", "");
    assert SHORT + "" == SHORT && !(LONG <= SHORT + "");
    LongPasses("");
  }

  // Neither stands for what the other does with "b}" behind it, and a value begins the
  // placeholder of the other key: yet no text shows the order.
  lemma AccidentalAgreement()
    ensures var values := map["a" := "z{a}", "a}b" := "{a}"];
            && !Coherent(values) && !Inert(values)
            && !Joined(values, ["a", "a}b"]) && !Quiet(values)
            && forall msg :: OrderFreeFor(msg, values)
  {
    var values := map["a" := "z{a}", "a}b" := "{a}"];
    assert Placeholder("a") == SHORT && Placeholder("a}b") == LONG;
    assert Beyond("a", "a}b") == "b}";
    assert "{a}"[0..] == "{a}" && "{a}" <= LONG;
    NotJoined(values);
    forall msg, o | IsOrderOf(o, values.Keys) ensures ReplaceInOrder(msg, o, values) == ReplaceLong(ReplaceShort(msg)) {
      TwoOrders(o, "a", "a}b");
      PairOrder(msg, "a", "a}b", values);
      PairOrder(msg, "a}b", "a", values);
      BothWays(msg);
    }
  }

  lemma TwoOrders(o: seq<string>, x: string, y: string)
    requires IsOrderOf(o, {x, y}) && x != y
    ensures o == [x, y] || o == [y, x]
  {
    OrderSize(o, {x, y});
    assert o[0] in o && o[1] in o;
  }
}

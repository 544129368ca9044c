// Message templates: the fallback chain and the replacement of placeholders.
module Translation {
  import opened Text

  const DEFAULT_LANGUAGE := "en"

  type Languages = map<string, string>

  // Details are given with their values already formatted.
  datatype AppError = AppError(code: string, message: string, details: Option<map<string, string>>)

  function Placeholder(key: string): string {
    "{" + key + "}"
  }

  // Replaces the keys one after the other, in the given order.
  function ReplaceInOrder(msg: string, order: seq<string>, values: map<string, string>): string
    requires forall k :: k in order ==> k in values
    decreases |order|
  {
    if order == [] then msg
    else ReplaceInOrder(ReplaceAll(msg, Placeholder(order[0]), values[order[0]]), order[1..], values)
  }

  // The template before replacement.
  function Template(translations: map<string, Languages>, e: AppError, lang: string): string {
    var msg :=
      if e.code !in translations then ""
      else if lang in translations[e.code] then translations[e.code][lang]
      else if DEFAULT_LANGUAGE in translations[e.code] then translations[e.code][DEFAULT_LANGUAGE]
      else "";
    if msg != "" then msg else if e.message != "" then e.message else e.code
  }

  class Registry {
    var translations: map<string, Languages>

    constructor ()
      ensures translations == map[]
    {
      translations := map[];
    }

    method RegisterTranslations(t: map<string, Languages>, order: seq<string>)
      requires IsOrderOf(order, t.Keys)
      modifies this
      ensures translations == old(translations) + t
    {
      var i := 0;
      while i < |order|
        invariant 0 <= i <= |order|
        invariant forall k :: k in translations <==> k in old(translations) || k in order[..i]
        invariant forall k :: k in order[..i] ==> translations[k] == t[k]
        invariant forall k :: k in old(translations) && k !in order[..i] ==> translations[k] == old(translations)[k]
      {
        assert order[..i + 1] == order[..i] + [order[i]];
        translations := translations[order[i] := t[order[i]]];
        i := i + 1;
      }
      assert order[..i] == order;
    }

    method ResolveMessage(e: AppError, lang: string, order: seq<string>) returns (msg: string)
      requires e.details.Some? ==> IsOrderOf(order, e.details.value.Keys)
      ensures msg == if e.details.Some?
                     then ReplaceInOrder(Template(translations, e, lang), order, e.details.value)
                     else Template(translations, e, lang)
    {
      msg := "";
      if e.code in translations {
        var langs := translations[e.code];
        if lang in langs {
          msg := langs[lang];
        } else if DEFAULT_LANGUAGE in langs {
          msg := langs[DEFAULT_LANGUAGE];
        }
      }
      if msg == "" {
        if e.message != "" {
          msg := e.message;
        } else {
          msg := e.code;
        }
      }
      if e.details.Some? {
        var m := e.details.value;
        var i := 0;
        assert order[0..] == order;
        while i < |order|
          invariant 0 <= i <= |order|
          invariant ReplaceInOrder(msg, order[i..], m) == ReplaceInOrder(Template(translations, e, lang), order, m)
        {
          assert order[i] in m by {
            assert order[i] in order;
          }
          assert order[i..][1..] == order[i + 1..];
          msg := ReplaceAll(msg, "{" + order[i] + "}", m[order[i]]);
          i := i + 1;
        }
      }
    }
  }

  // ---- templates as tokens ----

  datatype Token = Lit(text: string) | Hole(name: string)

  function Show(t: Token): string {
    match t
    case Lit(text) => text
    case Hole(name) => Placeholder(name)
  }

  function Render(ts: seq<Token>): string {
    if ts == [] then "" else Show(ts[0]) + Render(ts[1..])
  }

  // All holes with a value, filled at once.
  function Fill(ts: seq<Token>, values: map<string, string>): (r: seq<Token>)
    ensures |r| == |ts|
  {
    if ts == [] then []
    else [if ts[0].Hole? && ts[0].name in values then Lit(values[ts[0].name]) else ts[0]] + Fill(ts[1..], values)
  }

  // The key's replacement changes something.
  predicate Active(values: map<string, string>, k: string) {
    k in values && values[k] != Placeholder(k)
  }

  // No placeholder of these keys can begin in the literal text, and names are brace-free.
  predicate Ready(ts: seq<Token>, keys: seq<string>) {
    forall i :: 0 <= i < |ts| ==>
      match ts[i]
      case Lit(text) => forall k :: k in keys ==> Clear(text, Placeholder(k))
      case Hole(name) => Free(name, '{') && Free(name, '}')
  }

  // No value can begin the placeholder of another key, keys that change nothing aside.
  ghost predicate Independent(values: map<string, string>) {
    forall j, k :: Active(values, j) && Active(values, k) && j != k ==> Clear(values[j], Placeholder(k))
  }

  // ---- one replacement of text is one filling of holes ----

  lemma MatchAtHole(name: string, key: string, rest: string)
    requires Free(name, '}') && Free(key, '}')
    requires Placeholder(key) <= Placeholder(name) + rest
    ensures name == key
  {
    var s := Placeholder(name) + rest;
    var more := s[|Placeholder(key)|..];
    assert s[1..] == name + ("}" + rest);
    assert s[1..] == key + ("}" + more);
    BeforeStops(name, "}" + rest, '}');
    BeforeStops(key, "}" + more, '}');
  }

  lemma ReplaceAtOtherHole(name: string, key: string, value: string, rest: string)
    requires Free(name, '{') && Free(name, '}') && Free(key, '}') && name != key
    ensures ReplaceAll(Placeholder(name) + rest, Placeholder(key), value) ==
            Placeholder(name) + ReplaceAll(rest, Placeholder(key), value)
  {
    var s, p, tail := Placeholder(name) + rest, Placeholder(key), name + "}";
    assert s[0] == '{' && s[1..] == tail + rest;
    FreeIsClear(tail, p);
    ReplaceSkips(tail, rest, p, value);
    assert Placeholder(name) + ReplaceAll(rest, p, value) == ['{'] + (tail + ReplaceAll(rest, p, value));
    if |s| < |p| {
      assert ReplaceAll(rest, p, value) == rest;
    } else if s[..|p|] == p {
      MatchAtHole(name, key, rest);
    }
  }

  lemma ReplaceAtHole(key: string, value: string, rest: string)
    ensures ReplaceAll(Placeholder(key) + rest, Placeholder(key), value) ==
            value + ReplaceAll(rest, Placeholder(key), value)
  {
    var s, p := Placeholder(key) + rest, Placeholder(key);
    assert s[..|p|] == p && s[|p|..] == rest;
  }

  lemma {:induction false} ReplaceFills(ts: seq<Token>, key: string, value: string)
    requires Ready(ts, [key]) && Free(key, '}')
    ensures ReplaceAll(Render(ts), Placeholder(key), value) == Render(Fill(ts, map[key := value]))
  {
    if ts != [] {
      var rest := Render(ts[1..]);
      assert Ready(ts[1..], [key]);
      ReplaceFills(ts[1..], key, value);
      match ts[0] {
        case Lit(text) => ReplaceSkips(text, rest, Placeholder(key), value);
        case Hole(name) =>
          if name == key {
            ReplaceAtHole(key, value, rest);
          } else {
            ReplaceAtOtherHole(name, key, value, rest);
          }
      }
      assert Fill(ts, map[key := value])[1..] == Fill(ts[1..], map[key := value]);
    }
  }

  lemma {:induction false} FillAt(ts: seq<Token>, values: map<string, string>, i: nat)
    requires i < |ts|
    ensures Fill(ts, values)[i] == if ts[i].Hole? && ts[i].name in values then Lit(values[ts[i].name]) else ts[i]
  {
    if i > 0 {
      FillAt(ts[1..], values, i - 1);
    }
  }

  lemma {:induction false} FillTwice(ts: seq<Token>, key: string, value: string, more: map<string, string>)
    requires key !in more
    ensures Fill(Fill(ts, map[key := value]), more) == Fill(ts, more[key := value])
  {
    if ts != [] {
      FillTwice(ts[1..], key, value, more);
      assert Fill(ts, map[key := value])[1..] == Fill(ts[1..], map[key := value]);
    }
  }

  function Restrict(values: map<string, string>, keys: seq<string>): map<string, string> {
    map k | k in values && k in keys :: values[k]
  }

  lemma StillReady(ts: seq<Token>, keys: seq<string>, values: map<string, string>)
    requires keys != [] && Ready(ts, keys) && Independent(values)
    requires forall k :: k in keys ==> k in values && Active(values, k)
    requires keys[0] !in keys[1..]
    ensures Ready(Fill(ts, map[keys[0] := values[keys[0]]]), keys[1..])
  {
    var one := map[keys[0] := values[keys[0]]];
    forall i | 0 <= i < |ts|
      ensures match Fill(ts, one)[i]
              case Lit(text) => forall k :: k in keys[1..] ==> Clear(text, Placeholder(k))
              case Hole(name) => Free(name, '{') && Free(name, '}')
    {
      FillAt(ts, one, i);
    }
  }

  lemma {:induction false} InOrderFills(ts: seq<Token>, order: seq<string>, values: map<string, string>)
    requires Independent(values) && Ready(ts, order)
    requires NoRepeats(order)
    requires forall k :: k in order ==> k in values && Active(values, k) && Free(k, '}')
    ensures ReplaceInOrder(Render(ts), order, values) == Render(Fill(ts, Restrict(values, order)))
    decreases |order|
  {
    if order == [] {
      FillNothing(ts, Restrict(values, order));
    } else {
      var k, rest := order[0], order[1..];
      var next := Fill(ts, map[k := values[k]]);
      assert k in order && forall x :: x in rest ==> x in order;
      ReplaceFills(ts, k, values[k]);
      StillReady(ts, order, values);
      InOrderFills(next, rest, values);
      FillTwice(ts, k, values[k], Restrict(values, rest));
      RestrictOneMore(values, order);
    }
  }

  lemma RestrictOneMore(values: map<string, string>, keys: seq<string>)
    requires keys != [] && keys[0] in values
    ensures Restrict(values, keys[1..])[keys[0] := values[keys[0]]] == Restrict(values, keys)
  {
    assert keys == [keys[0]] + keys[1..];
  }

  lemma {:induction false} FillNothing(ts: seq<Token>, values: map<string, string>)
    requires values == map[]
    ensures Fill(ts, values) == ts
  {
    if ts != [] {
      FillNothing(ts[1..], values);
    }
  }

  // ---- keys that change nothing ----

  lemma {:induction false} ReplaceSame(s: string, pat: string)
    requires pat != ""
    ensures ReplaceAll(s, pat, pat) == s
    decreases |s|
  {
    if |s| >= |pat| {
      if s[..|pat|] == pat {
        ReplaceSame(s[|pat|..], pat);
        assert pat + s[|pat|..] == s;
      } else {
        ReplaceSame(s[1..], pat);
        assert [s[0]] + s[1..] == s;
      }
    }
  }

  function ActiveOf(order: seq<string>, values: map<string, string>): (r: seq<string>)
    ensures forall k :: k in r <==> k in order && Active(values, k)
  {
    if order == [] then []
    else
      var r := ActiveOf(order[1..], values);
      assert forall k :: k in order <==> k == order[0] || k in order[1..];
      if Active(values, order[0]) then [order[0]] + r else r
  }

  lemma {:induction false} ActiveSuffice(msg: string, order: seq<string>, values: map<string, string>)
    requires forall k :: k in order ==> k in values
    ensures ReplaceInOrder(msg, order, values) == ReplaceInOrder(msg, ActiveOf(order, values), values)
    decreases |order|
  {
    if order != [] {
      var k, rest := order[0], order[1..];
      ActiveSuffice(ReplaceAll(msg, Placeholder(k), values[k]), rest, values);
      if Active(values, k) {
        assert ActiveOf(order, values)[1..] == ActiveOf(rest, values);
      } else {
        ReplaceSame(msg, Placeholder(k));
      }
    }
  }

  lemma {:induction false} ActiveDistinct(order: seq<string>, values: map<string, string>)
    requires NoRepeats(order)
    ensures NoRepeats(ActiveOf(order, values))
  {
    if order != [] {
      assert order == [order[0]] + order[1..];
      NoRepeatsCons(order[0], order[1..]);
      ActiveDistinct(order[1..], values);
      NoRepeatsCons(order[0], ActiveOf(order[1..], values));
    }
  }

  lemma {:induction false} FillActive(ts: seq<Token>, values: map<string, string>, order: seq<string>)
    requires IsOrderOf(order, values.Keys)
    ensures Render(Fill(ts, Restrict(values, ActiveOf(order, values)))) == Render(Fill(ts, values))
  {
    if ts != [] {
      FillActive(ts[1..], values, order);
      var active := Restrict(values, ActiveOf(order, values));
      assert Fill(ts, active)[1..] == Fill(ts[1..], active);
      assert Fill(ts, values)[1..] == Fill(ts[1..], values);
    }
  }

  // Replacing the keys one at a time, in any order, fills every hole at once.
  lemma {:induction false} OrderFree(ts: seq<Token>, order: seq<string>, values: map<string, string>)
    requires IsOrderOf(order, values.Keys)
    requires Ready(ts, ActiveOf(order, values)) && Independent(values)
    requires forall k :: k in values ==> Free(k, '}')
    ensures ReplaceInOrder(Render(ts), order, values) == Render(Fill(ts, values))
  {
    ActiveSuffice(Render(ts), order, values);
    ActiveDistinct(order, values);
    InOrderFills(ts, ActiveOf(order, values), values);
    FillActive(ts, values, order);
  }

  predicate BraceFree(s: string) {
    Free(s, '{') && Free(s, '}')
  }

  // In particular where literals, names, keys and values have no braces.
  lemma {:induction false} BraceFreeIsOrderFree(ts: seq<Token>, order: seq<string>, values: map<string, string>)
    requires IsOrderOf(order, values.Keys)
    requires forall i :: 0 <= i < |ts| ==> BraceFree(if ts[i].Lit? then ts[i].text else ts[i].name)
    requires forall k :: k in values ==> BraceFree(k) && BraceFree(values[k])
    ensures ReplaceInOrder(Render(ts), order, values) == Render(Fill(ts, values))
  {
    forall text, k | Free(text, '{') ensures Clear(text, Placeholder(k)) {
      FreeIsClear(text, Placeholder(k));
    }
    forall i | 0 <= i < |ts|
      ensures match ts[i]
              case Lit(text) => forall k :: k in ActiveOf(order, values) ==> Clear(text, Placeholder(k))
              case Hole(name) => Free(name, '{') && Free(name, '}')
    {
      assert BraceFree(if ts[i].Lit? then ts[i].text else ts[i].name);
    }
    OrderFree(ts, order, values);
  }

  // ---- inputs on which the order shows ----

  // A value that spells another placeholder.
  lemma ValueWithPlaceholder()
    ensures var values := map["a" := "{b}", "b" := "x"];
            && ReplaceInOrder("{a}", ["a", "b"], values) == "x"
            && ReplaceInOrder("{a}", ["b", "a"], values) == "{b}"
  {
    var values := map["a" := "{b}", "b" := "x"];
    assert ReplaceAll("{a}", "{a}", "{b}") == "{b}";
    assert ReplaceAll("{b}", "{b}", "x") == "x";
    assert ReplaceAll("{a}", "{b}", "x") == "{a}";
    assert ["a", "b"][1..] == ["b"] && ["b", "a"][1..] == ["a"];
  }

  // A key that closes early.
  lemma KeyWithBrace()
    ensures var values := map["a" := "x", "a}b" := "y"];
            && ReplaceInOrder("{a}b}", ["a", "a}b"], values) == "xb}"
            && ReplaceInOrder("{a}b}", ["a}b", "a"], values) == "y"
  {
    assert ReplaceAll("{a}b}", "{a}", "x") == "xb}";
    assert ReplaceAll("xb}", "{a}b}", "y") == "xb}";
    assert ReplaceAll("{a}b}", "{a}b}", "y") == "y";
    assert ReplaceAll("y", "{a}", "x") == "y";
    assert ["a", "a}b"][1..] == ["a}b"] && ["a}b", "a"][1..] == ["a"];
  }

  // A stray opening brace before a placeholder.
  lemma StrayBrace()
    ensures var values := map["a" := "x", "xb" := "y"];
            && ReplaceInOrder("{{a}b}", ["a", "xb"], values) == "y"
            && ReplaceInOrder("{{a}b}", ["xb", "a"], values) == "{xb}"
  {
    assert Placeholder("a") == "{a}" && Placeholder("xb") == "{xb}";
    assert ReplaceAll("{{a}b}", "{a}", "x") == "{xb}";
    assert ReplaceAll("{xb}", "{xb}", "y") == "y";
    assert ReplaceAll("{{a}b}", "{xb}", "y") == "{{a}b}";
    assert ["a", "xb"][1..] == ["xb"] && ["xb", "a"][1..] == ["a"];
  }

  // A key that opens again.
  lemma KeyWithOpeningBrace()
    ensures var values := map["a" := "x", "{a" := "y"];
            && ReplaceInOrder("{{a}", ["a", "{a"], values) == "{x"
            && ReplaceInOrder("{{a}", ["{a", "a"], values) == "y"
  {
    assert Placeholder("a") == "{a}" && Placeholder("{a") == "{{a}";
    assert ReplaceAll("{{a}", "{a}", "x") == "{x";
    assert ReplaceAll("{x", "{{a}", "y") == "{x";
    assert ReplaceAll("{{a}", "{{a}", "y") == "y";
    assert ReplaceAll("y", "{a}", "x") == "y";
    assert ["a", "{a"][1..] == ["{a"] && ["{a", "a"][1..] == ["a"];
  }

  // ---- the fallback chain ----

  // The chain as documented: requested language, "en", message, code, first non-empty.
  function DocumentedTemplate(translations: map<string, Languages>, e: AppError, lang: string): string {
    var langs := if e.code in translations then translations[e.code] else map[];
    if lang in langs && langs[lang] != "" then langs[lang]
    else if DEFAULT_LANGUAGE in langs && langs[DEFAULT_LANGUAGE] != "" then langs[DEFAULT_LANGUAGE]
    else if e.message != "" then e.message
    else e.code
  }

  // The code leaves the documented chain exactly when the requested translation is
  // present but empty and "en" has a text that the error itself does not repeat.
  lemma FallbackAsDocumented(translations: map<string, Languages>, e: AppError, lang: string)
    ensures Template(translations, e, lang) == DocumentedTemplate(translations, e, lang) <==>
            !(e.code in translations
              && lang in translations[e.code] && translations[e.code][lang] == ""
              && DEFAULT_LANGUAGE in translations[e.code] && translations[e.code][DEFAULT_LANGUAGE] != ""
              && translations[e.code][DEFAULT_LANGUAGE] != if e.message != "" then e.message else e.code)
  {
  }

  // The input on which it does.
  lemma EmptyTranslationSkipsEnglish()
    ensures var e := AppError("C", "M", None);
            var translations := map["C" := map["th" := "", "en" := "E"]];
            Template(translations, e, "th") == "M" && DocumentedTemplate(translations, e, "th") == "E"
  {
  }
}

// String helpers of the Go standard library that the modelled code calls, the iteration
// of its maps, and the facts about them that the other modules share.  A string is a
// sequence of Unicode scalar values.
module Text {
  datatype Option<+T> = None | Some(value: T)

  ghost predicate NoRepeats<T>(s: seq<T>) {
    forall i, j :: 0 <= i < j < |s| ==> s[i] != s[j]
  }

  lemma NoRepeatsCons<T>(x: T, s: seq<T>)
    ensures NoRepeats([x] + s) <==> x !in s && NoRepeats(s)
  {
    var t := [x] + s;
    assert t[0] == x && t[1..] == s;
    if NoRepeats(t) {
      forall i | 0 <= i < |s| ensures s[i] != x {
        assert t[i + 1] == s[i];
      }
      forall i, j | 0 <= i < j < |s| ensures s[i] != s[j] {
        assert t[i + 1] == s[i] && t[j + 1] == s[j];
      }
    }
  }

  // The keys of a map in the order in which one iteration visits them.
  ghost predicate IsOrderOf(order: seq<string>, keys: set<string>) {
    NoRepeats(order) && forall k :: k in order <==> k in keys
  }

  lemma {:induction false} SomeOrder(keys: set<string>) returns (order: seq<string>)
    ensures IsOrderOf(order, keys)
    decreases |keys|
  {
    if keys == {} {
      order := [];
    } else {
      var k :| k in keys;
      var front := SomeOrder(keys - {k});
      order := front + [k];
      assert forall x :: x in order <==> x in front || x == k;
      assert k !in front;
    }
  }

  lemma {:induction false} OrderSize(order: seq<string>, keys: set<string>)
    requires IsOrderOf(order, keys)
    ensures |order| == |keys|
  {
    if order == [] {
      assert keys == {};
    } else {
      var k, rest := order[0], order[1..];
      assert order == [k] + rest;
      NoRepeatsCons(k, rest);
      assert forall x :: x in order <==> x == k || x in rest;
      OrderSize(rest, keys - {k});
    }
  }

  // strings.Join
  function Join(parts: seq<string>, sep: string): string {
    if |parts| == 0 then ""
    else if |parts| == 1 then parts[0]
    else parts[0] + sep + Join(parts[1..], sep)
  }

  // The parts with the separator between any two.
  lemma {:induction false} JoinMore(parts: seq<string>, last: string, sep: string)
    ensures Join([], sep) == "" && Join([last], sep) == last
    ensures parts != [] ==> Join(parts + [last], sep) == Join(parts, sep) + (sep + last)
  {
    if |parts| == 1 {
      assert (parts + [last])[1..] == [last];
    } else if |parts| > 1 {
      JoinMore(parts[1..], last, sep);
      assert (parts + [last])[1..] == parts[1..] + [last];
      Regroup(parts[0] + sep, Join(parts[1..], sep), sep + last);
    }
  }

  lemma Regroup<T>(a: seq<T>, b: seq<T>, c: seq<T>)
    ensures a + b + c == a + (b + c)
  {
  }

  lemma SameRemainder<T>(head: seq<T>, x: seq<T>, y: seq<T>)
    requires head + x == head + y
    ensures x == y
  {
    assert (head + x)[|head|..] == x && (head + y)[|head|..] == y;
  }

  lemma SplitWithin<T>(a: seq<T>, b: seq<T>, w: nat)
    requires w <= |a|
    ensures (a + b)[..w] == a[..w] && (a + b)[w..] == a[w..] + b
  {
  }

  predicate Free(s: string, c: char) {
    forall i :: 0 <= i < |s| ==> s[i] != c
  }

  // ---- trimming ----

  function TrimLeft<T>(s: seq<T>, space: T -> bool): seq<T> {
    if s != [] && space(s[0]) then TrimLeft(s[1..], space) else s
  }

  function TrimRight<T>(s: seq<T>, space: T -> bool): seq<T> {
    if s != [] && space(s[|s| - 1]) then TrimRight(s[..|s| - 1], space) else s
  }

  function Trim<T>(s: seq<T>, space: T -> bool): seq<T> {
    TrimRight(TrimLeft(s, space), space)
  }

  predicate Blank<T>(s: seq<T>, space: T -> bool) {
    forall i :: 0 <= i < |s| ==> space(s[i])
  }

  // The window [i..j] of s is its trimmed core.
  predicate IsCore<T>(s: seq<T>, space: T -> bool, i: nat, j: nat) {
    && i <= j <= |s|
    && Blank(s[..i], space)
    && Blank(s[j..], space)
    && (i < j ==> !space(s[i]) && !space(s[j - 1]))
  }

  lemma {:induction false} TrimLeftSkips<T>(s: seq<T>, space: T -> bool, i: nat)
    requires i <= |s| && Blank(s[..i], space)
    ensures TrimLeft(s, space) == TrimLeft(s[i..], space)
  {
    if i == 0 {
      assert s[0..] == s;
    } else {
      assert space(s[..i][0]);
      assert s[1..][..i - 1] == s[..i][1..];
      TrimLeftSkips(s[1..], space, i - 1);
      assert s[1..][i - 1..] == s[i..];
    }
  }

  lemma {:induction false} TrimRightSkips<T>(s: seq<T>, space: T -> bool, j: nat)
    requires j <= |s| && Blank(s[j..], space)
    ensures TrimRight(s, space) == TrimRight(s[..j], space)
    decreases |s|
  {
    if j == |s| {
      assert s[..j] == s;
    } else {
      var t := s[..|s| - 1];
      assert space(s[j..][|s| - 1 - j]);
      assert t[j..] == s[j..][..|s| - 1 - j];
      TrimRightSkips(t, space, j);
      assert t[..j] == s[..j];
    }
  }

  // A core window is what trimming returns, so trimming has only one answer.
  lemma TrimIsCore<T>(s: seq<T>, space: T -> bool, i: nat, j: nat)
    requires IsCore(s, space, i, j)
    ensures Trim(s, space) == s[i..j]
  {
    TrimLeftSkips(s, space, i);
    var t := s[i..];
    if i < j {
      assert t[0] == s[i];
      assert t[j - i..] == s[j..];
      TrimRightSkips(t, space, j - i);
      assert t[..j - i] == s[i..j];
    } else {
      assert t == s[j..];
      assert t[|t|..] == [];
      TrimLeftSkips(t, space, |t|);
    }
  }

  lemma {:induction false} CoreExists<T>(s: seq<T>, space: T -> bool) returns (i: nat, j: nat)
    ensures IsCore(s, space, i, j) && Trim(s, space) == s[i..j]
  {
    i := 0;
    while i < |s| && space(s[i])
      invariant i <= |s| && Blank(s[..i], space)
    {
      i := i + 1;
    }
    j := |s|;
    while i < j && space(s[j - 1])
      invariant i <= j <= |s| && Blank(s[j..], space)
    {
      j := j - 1;
    }
    TrimIsCore(s, space, i, j);
  }

  // Everything that is not blank lies inside the core.
  lemma CoreHolds<T>(s: seq<T>, space: T -> bool, i: nat, j: nat, k: nat)
    requires IsCore(s, space, i, j) && k < |s| && !space(s[k])
    ensures i <= k < j
  {
    forall q | 0 <= q < i ensures space(s[q]) {
      assert s[..i][q] == s[q];
    }
    forall q | j <= q < |s| ensures space(s[q]) {
      assert s[j..][q - j] == s[q];
    }
  }

  lemma TrimFixed<T>(s: seq<T>, space: T -> bool)
    requires s != [] ==> !space(s[0]) && !space(s[|s| - 1])
    ensures Trim(s, space) == s
  {
    TrimIsCore(s, space, 0, |s|);
  }

  // Padding with blanks on either side is invisible to trimming.
  lemma TrimPadded<T>(left: seq<T>, s: seq<T>, right: seq<T>, space: T -> bool)
    requires Blank(left, space) && Blank(right, space)
    ensures Trim(left + s + right, space) == Trim(s, space)
  {
    var i, j := CoreExists(s, space);
    var w := left + s + right;
    if i < j {
      var front, back := w[..|left| + i], w[|left| + j..];
      forall k | 0 <= k < |front| ensures space(front[k]) {
        assert front[k] == if k < |left| then left[k] else s[..i][k - |left|];
      }
      forall k | 0 <= k < |back| ensures space(back[k]) {
        assert back[k] == if j + k < |s| then s[j..][k] else right[j + k - |s|];
      }
      TrimIsCore(w, space, |left| + i, |left| + j);
      assert w[|left| + i..|left| + j] == s[i..j];
    } else {
      forall k | 0 <= k < |w| ensures space(w[k]) {
        assert k >= |left| && k < |left| + |s| ==>
            w[k] == if k - |left| < i then s[..i][k - |left|] else s[j..][k - |left| - j];
      }
      TrimIsCore(w, space, |w|, |w|);
      assert w[..|w|] == w;
    }
  }

  // ---- replacement ----

  // strings.ReplaceAll with a non-empty pattern: leftmost, non-overlapping.
  function ReplaceAll(s: string, pat: string, repl: string): string
    requires pat != ""
  {
    if |s| < |pat| then s
    else if s[..|pat|] == pat then repl + ReplaceAll(s[|pat|..], pat, repl)
    else [s[0]] + ReplaceAll(s[1..], pat, repl)
  }

  // No occurrence of the pattern can begin in the text, whatever follows it.
  predicate Clear(text: string, pat: string) {
    forall i :: 0 <= i < |text| ==> !(text[i..] <= pat) && !(pat <= text[i..])
  }

  lemma FreeIsClear(text: string, pat: string)
    requires pat != "" && Free(text, pat[0])
    ensures Clear(text, pat)
  {
    forall i | 0 <= i < |text| ensures !(text[i..] <= pat) && !(pat <= text[i..]) {
      assert text[i..][0] == text[i];
    }
  }

  lemma PrefixMeets(a: string, b: string, pat: string)
    requires pat <= a + b
    ensures pat <= a || a <= pat
  {
    assert if |pat| <= |a| then pat == a[..|pat|] else a == pat[..|a|];
  }

  lemma ClearStart(a: string, b: string, pat: string)
    requires a != "" && Clear(a, pat)
    ensures !(pat <= a + b) && Clear(a[1..], pat)
  {
    assert a[0..] == a;
    if pat <= a + b {
      PrefixMeets(a, b, pat);
    }
    forall i | 0 <= i < |a[1..]| ensures !(a[1..][i..] <= pat) && !(pat <= a[1..][i..]) {
      assert a[1..][i..] == a[i + 1..];
    }
  }

  // Such text is copied.
  lemma {:induction false} ReplaceSkips(a: string, b: string, pat: string, repl: string)
    requires pat != "" && Clear(a, pat)
    ensures ReplaceAll(a + b, pat, repl) == a + ReplaceAll(b, pat, repl)
  {
    if a == "" {
      assert a + b == b;
    } else {
      var s, rest := a + b, a[1..] + b;
      assert s[0] == a[0] && s[1..] == rest;
      ClearStart(a, b, pat);
      ReplaceSkips(a[1..], b, pat, repl);
      if |s| >= |pat| {
        assert s[..|pat|] != pat;
        assert ReplaceAll(s, pat, repl) == [a[0]] + ReplaceAll(rest, pat, repl);
      } else {
        assert ReplaceAll(s, pat, repl) == s && ReplaceAll(b, pat, repl) == b;
      }
      assert [a[0]] + (a[1..] + ReplaceAll(b, pat, repl)) == a + ReplaceAll(b, pat, repl);
    }
  }

  // ---- splitting ----

  // strings.Split with a one-character separator
  function Split(s: string, sep: char): (parts: seq<string>)
    ensures |parts| >= 1
  {
    if s == "" then [""]
    else if s[0] == sep then [""] + Split(s[1..], sep)
    else
      var rest := Split(s[1..], sep);
      [[s[0]] + rest[0]] + rest[1..]
  }

  // strings.SplitN(s, sep, 2)[0]
  function Before(s: string, sep: char): string {
    if s == "" || s[0] == sep then "" else [s[0]] + Before(s[1..], sep)
  }

  lemma {:induction false} BeforeStops(a: string, b: string, sep: char)
    requires Free(a, sep)
    requires b == "" || b[0] == sep
    ensures Before(a + b, sep) == a
  {
    if a == "" {
      assert a + b == b;
    } else {
      assert (a + b)[0] == a[0] && (a + b)[1..] == a[1..] + b;
      BeforeStops(a[1..], b, sep);
    }
  }

  lemma {:induction false} BeforeIsFirst(s: string, sep: char)
    ensures var b := Before(s, sep);
            Free(b, sep) && b <= s && (|b| < |s| ==> s[|b|] == sep)
  {
    if s != "" && s[0] != sep {
      BeforeIsFirst(s[1..], sep);
    }
  }

  // The parts are what the separators leave.
  lemma {:induction false} SplitIs(s: string, sep: char)
    ensures Join(Split(s, sep), [sep]) == s
    ensures forall i :: 0 <= i < |Split(s, sep)| ==> Free(Split(s, sep)[i], sep)
  {
    if s != "" {
      var rest := Split(s[1..], sep);
      SplitIs(s[1..], sep);
      assert s == [s[0]] + s[1..];
      if s[0] == sep {
        assert Split(s, sep)[1..] == rest && "" + [sep] == [sep];
      } else {
        assert Split(s, sep)[1..] == rest[1..];
        if |rest| > 1 {
          Regroup([s[0]], rest[0], [sep]);
          Regroup([s[0]], rest[0] + [sep], Join(rest[1..], [sep]));
        }
      }
    }
  }

  lemma {:induction false} SplitHead(a: string, sep: char)
    requires Free(a, sep)
    ensures Split(a, sep) == [a]
  {
    if a != "" {
      SplitHead(a[1..], sep);
      assert a == [a[0]] + a[1..];
    }
  }

  lemma {:induction false} SplitCons(a: string, b: string, sep: char)
    requires Free(a, sep)
    ensures Split(a + [sep] + b, sep) == [a] + Split(b, sep)
  {
    var s := a + [sep] + b;
    if a == "" {
      assert s[1..] == b;
    } else {
      assert s[0] == a[0];
      assert s[1..] == a[1..] + [sep] + b;
      SplitCons(a[1..], b, sep);
      assert a == [a[0]] + a[1..];
    }
  }

  lemma {:induction false} SplitJoin(parts: seq<string>, sep: char)
    requires |parts| >= 1
    requires forall i :: 0 <= i < |parts| ==> Free(parts[i], sep)
    ensures Split(Join(parts, [sep]), sep) == parts
  {
    if |parts| == 1 {
      SplitHead(parts[0], sep);
    } else {
      var head, rest := parts[0], parts[1..];
      assert Free(head, sep);
      SplitJoin(rest, sep);
      SplitCons(head, Join(rest, [sep]), sep);
      assert parts == [head] + rest;
    }
  }

  // strings.ToLower / strings.ToUpper on ASCII letters
  function ToLower(s: string): (r: string)
    ensures |r| == |s|
    ensures forall i :: 0 <= i < |s| ==> r[i] == LowerChar(s[i])
  {
    if s == "" then "" else [LowerChar(s[0])] + ToLower(s[1..])
  }

  function LowerChar(c: char): char {
    if 'A' <= c <= 'Z' then (c as int + 32) as char else c
  }

  function ToUpper(s: string): (r: string)
    ensures |r| == |s|
    ensures forall i :: 0 <= i < |s| ==> r[i] == UpperChar(s[i])
  {
    if s == "" then "" else [UpperChar(s[0])] + ToUpper(s[1..])
  }

  function UpperChar(c: char): char {
    if 'a' <= c <= 'z' then (c as int - 32) as char else c
  }
}

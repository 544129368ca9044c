// Placeholders that overlap: the order in which they are replaced makes no difference to any
// text exactly when it makes none to the finitely many texts that two of them overlay.
module TemplateJoin {
  import opened Text
  import opened Translation
  import opened TemplateReplace
  import opened TemplateOrder

  // No value touches any placeholder, its own included.
  ghost predicate Quiet(values: map<string, string>) {
    forall j, k :: Active(values, j) && Active(values, k) ==> !Touches(values[j], Placeholder(k))
  }

  // ---- one occurrence replaced ----

  predicate Fits(s: string, i: nat, k: string, values: map<string, string>) {
    Active(values, k) && i <= |s| && Placeholder(k) <= s[i..]
  }

  function StepAt(s: string, i: nat, k: string, values: map<string, string>): string
    requires Fits(s, i, k, values)
  {
    s[..i] + (values[k] + s[i + |Placeholder(k)|..])
  }

  lemma KeptBefore(a: string, v: string, r: string, q: string)
    requires a != "" && !Touches(v, q) && q <= a + (v + r)
    ensures q <= a
  {
    if |q| > |a| {
      PrefixRest(a, v + r, q);
      MeetsValue(v, r, q, |a|);
    }
  }

  lemma StepOccurs(s: string, i: nat, k: string, values: map<string, string>, q: string)
    requires Fits(s, i, k, values) && q != "" && !Touches(values[k], q)
    ensures Occurs(q, StepAt(s, i, k, values)) ==> Occurs(q, s)
  {
    var t, v, r := StepAt(s, i, k, values), values[k], s[i + |Placeholder(k)|..];
    forall e | i <= e < i + |v| ensures !(q <= t[e..]) {
      assert t[e..] == v[e - i..] + r;
      ClearAt(v, r, q, e - i);
    }
    forall e | 0 <= e <= |t| && q <= t[e..] && (e < i || i + |v| <= e) ensures Occurs(q, s) {
      if e < i {
        assert t[e..] == s[..i][e..] + (v + r);
        KeptBefore(s[..i][e..], v, r, q);
        assert q <= s[e..];
      } else {
        assert t[e..] == s[i + |Placeholder(k)| + (e - i - |v|)..];
      }
    }
  }

  // A step between other texts.
  lemma StepInside(l: string, w: string, r: string, i: nat, k: string, values: map<string, string>)
    requires Fits(w, i, k, values)
    ensures Fits(l + (w + r), |l| + i, k, values)
    ensures StepAt(l + (w + r), |l| + i, k, values) == l + (StepAt(w, i, k, values) + r)
  {
    var s, p := l + (w + r), Placeholder(k);
    assert s[|l| + i..] == w[i..] + r;
    assert s[..|l| + i] == l + w[..i];
    assert s[|l| + i + |p|..] == w[i + |p|..] + r;
  }

  lemma StepBehind(l: string, w: string, i: nat, k: string, values: map<string, string>)
    requires Fits(w, i, k, values)
    ensures Fits(l + w, |l| + i, k, values)
    ensures StepAt(l + w, |l| + i, k, values) == l + StepAt(w, i, k, values)
  {
    StepInside(l, w, "", i, k, values);
    assert w + "" == w && StepAt(w, i, k, values) + "" == StepAt(w, i, k, values);
  }

  lemma StepHere(l: string, k: string, r: string, values: map<string, string>)
    requires Active(values, k)
    ensures Fits(l + (Placeholder(k) + r), |l|, k, values)
    ensures StepAt(l + (Placeholder(k) + r), |l|, k, values) == l + (values[k] + r)
  {
    var s := l + (Placeholder(k) + r);
    assert s[|l|..] == Placeholder(k) + r && s[|l| + |Placeholder(k)|..] == r;
  }

  // Replacing one occurrence first makes no difference to replacing all of them.
  lemma {:induction false} StepFirst(s: string, i: nat, k: string, values: map<string, string>)
    requires Quiet(values) && Borderless(values) && Fits(s, i, k, values)
    ensures ReplaceAll(StepAt(s, i, k, values), Placeholder(k), values[k]) ==
            ReplaceAll(s, Placeholder(k), values[k])
    decreases i
  {
    if i == 0 {
      StepHereFirst(s, k, values);
    } else if Placeholder(k) <= s {
      var t := FirstBehind(s, i, k, values);
      StepFirst(t, i - |Placeholder(k)|, k, values);
      SameFront(StepAt(t, i - |Placeholder(k)|, k, values), t, Placeholder(k), values[k]);
    } else {
      var t := RuneBehind(s, i, k, values);
      StepFirst(t, i - 1, k, values);
      SameCopied(s[0], StepAt(t, i - 1, k, values), t, Placeholder(k), values[k]);
    }
  }

  lemma SameFront(t: string, u: string, p: string, v: string)
    requires p != "" && ReplaceAll(t, p, v) == ReplaceAll(u, p, v)
    ensures ReplaceAll(p + t, p, v) == ReplaceAll(p + u, p, v)
  {
    ReplaceFront(t, p, v);
    ReplaceFront(u, p, v);
  }

  lemma SameCopied(c: char, t: string, u: string, p: string, v: string)
    requires p != "" && !(p <= [c] + t) && !(p <= [c] + u) && ReplaceAll(t, p, v) == ReplaceAll(u, p, v)
    ensures ReplaceAll([c] + t, p, v) == ReplaceAll([c] + u, p, v)
  {
    CopyRune(c, t, p, v);
    CopyRune(c, u, p, v);
  }

  lemma StepHereFirst(s: string, k: string, values: map<string, string>)
    requires Quiet(values) && Fits(s, 0, k, values)
    ensures ReplaceAll(StepAt(s, 0, k, values), Placeholder(k), values[k]) ==
            ReplaceAll(s, Placeholder(k), values[k])
  {
    var p, v, t := Placeholder(k), values[k], s[|Placeholder(k)|..];
    assert s == p + t && StepAt(s, 0, k, values) == v + t;
    ReplaceFront(t, p, v);
    ReplaceSkips(v, t, p, v);
  }

  lemma RuneBehind(s: string, i: nat, k: string, values: map<string, string>) returns (t: string)
    requires Quiet(values) && Fits(s, i, k, values) && 0 < i && !(Placeholder(k) <= s)
    ensures s == [s[0]] + t && Fits(t, i - 1, k, values)
    ensures StepAt(s, i, k, values) == [s[0]] + StepAt(t, i - 1, k, values)
    ensures !(Placeholder(k) <= StepAt(s, i, k, values))
  {
    var p := Placeholder(k);
    t := s[1..];
    assert s == [s[0]] + t && t[i - 1..] == s[i..];
    StepBehind([s[0]], t, i - 1, k, values);
    StepStarts(s, i, k, values, p);
  }

  // Before the step, no placeholder begins that did not.
  lemma StepStarts(s: string, i: nat, k: string, values: map<string, string>, q: string)
    requires Fits(s, i, k, values) && 0 < i && !Touches(values[k], q)
    ensures q <= StepAt(s, i, k, values) ==> q <= s
  {
    if q <= StepAt(s, i, k, values) {
      KeptBefore(s[..i], values[k], s[i + |Placeholder(k)|..], q);
      assert q <= s;
    }
  }

  lemma FirstBehind(s: string, i: nat, k: string, values: map<string, string>) returns (t: string)
    requires Borderless(values) && Fits(s, i, k, values) && 0 < i && Placeholder(k) <= s
    ensures |Placeholder(k)| <= i && s == Placeholder(k) + t && Fits(t, i - |Placeholder(k)|, k, values)
    ensures StepAt(s, i, k, values) == Placeholder(k) + StepAt(t, i - |Placeholder(k)|, k, values)
  {
    var p := Placeholder(k);
    if i < |p| {
      NoOwnOverlap(s, i, p);
    }
    t := s[|p|..];
    assert s == p + t;
    assert t[i - |p|..] == s[i..];
    StepBehind(p, t, i - |p|, k, values);
  }

  lemma NoOwnOverlap(s: string, i: nat, p: string)
    requires 0 < i < |p| && Clear(p[1..], p) && p <= s
    ensures !(p <= s[i..])
  {
    assert s[i..] == p[1..][i - 1..] + s[|p|..];
    ClearAt(p[1..], s[|p|..], p, i - 1);
  }

  // The first replacement of an order that changes the text, as one occurrence replaced.
  lemma {:induction false} FirstStep(s: string, o: seq<string>, values: map<string, string>, x: string)
    returns (i: nat, k: string)
    requires Quiet(values) && Borderless(values)
    requires forall y :: y in o ==> y in values
    requires x in o && Active(values, x) && Occurs(Placeholder(x), s)
    ensures Fits(s, i, k, values)
    ensures ReplaceInOrder(StepAt(s, i, k, values), o, values) == ReplaceInOrder(s, o, values)
    decreases |o|
  {
    var y, p := o[0], Placeholder(o[0]);
    if Active(values, y) && Occurs(p, s) {
      i :| 0 <= i <= |s| && p <= s[i..];
      k := y;
      StepFirst(s, i, k, values);
    } else {
      i, k := FirstStep(s, o[1..], values, x);
      if Active(values, y) {
        StepOccurs(s, i, k, values, p);
        ReplaceNone(s, p, values[y]);
        ReplaceNone(StepAt(s, i, k, values), p, values[y]);
      } else {
        ReplaceSame(s, p);
        ReplaceSame(StepAt(s, i, k, values), p);
      }
    }
  }

  // ---- what is left to replace ----

  ghost predicate Starts(s: string, values: map<string, string>) {
    exists k :: Active(values, k) && Placeholder(k) <= s
  }

  // The places at which a placeholder begins.
  ghost function Count(s: string, values: map<string, string>): nat {
    if s == "" then 0 else (if Starts(s, values) then 1 else 0) + Count(s[1..], values)
  }

  lemma {:induction false} CountTail(a: string, b: string, values: map<string, string>)
    ensures Count(b, values) <= Count(a + b, values)
  {
    if a == "" {
      assert a + b == b;
    } else {
      assert (a + b)[1..] == a[1..] + b;
      CountTail(a[1..], b, values);
    }
  }

  lemma {:induction false} CountClear(v: string, r: string, values: map<string, string>)
    requires forall k :: Active(values, k) ==> Clear(v, Placeholder(k))
    ensures Count(v + r, values) == Count(r, values)
  {
    if v == "" {
      assert v + r == r;
    } else {
      assert (v + r)[1..] == v[1..] + r;
      forall k | Active(values, k) ensures Clear(v[1..], Placeholder(k)) && !(Placeholder(k) <= v + r) {
        ClearStart(v, r, Placeholder(k));
      }
      CountClear(v[1..], r, values);
    }
  }

  lemma {:induction false} CountDrops(a: string, k: string, r: string, values: map<string, string>)
    requires Quiet(values) && Active(values, k)
    ensures Count(a + (values[k] + r), values) < Count(a + (Placeholder(k) + r), values)
  {
    var v, p := values[k], Placeholder(k);
    var s, t := a + (p + r), a + (v + r);
    if a == "" {
      assert s == p + r && t == v + r;
      CountClear(v, r, values);
      assert p <= s && s[1..] == p[1..] + r;
      CountTail(p[1..], r, values);
    } else {
      assert s[1..] == a[1..] + (p + r) && t[1..] == a[1..] + (v + r);
      CountDrops(a[1..], k, r, values);
      forall x | Active(values, x) && Placeholder(x) <= t ensures Placeholder(x) <= s {
        KeptBefore(a, v, r, Placeholder(x));
      }
    }
  }

  lemma StepDrops(s: string, i: nat, k: string, values: map<string, string>)
    requires Quiet(values) && Fits(s, i, k, values)
    ensures Count(StepAt(s, i, k, values), values) < Count(s, values)
  {
    var r := s[i + |Placeholder(k)|..];
    assert s == s[..i] + (Placeholder(k) + r);
    CountDrops(s[..i], k, r, values);
  }

  // ---- a text within another ----

  // Below the bound, replacing one occurrence keeps what the order o makes of the text.
  ghost predicate StepsAgree(n: nat, o: seq<string>, values: map<string, string>)
    requires forall k :: k in o ==> k in values
  {
    forall s, i, k :: Fits(s, i, k, values) && Count(s, values) < n ==>
      ReplaceInOrder(StepAt(s, i, k, values), o, values) == ReplaceInOrder(s, o, values)
  }

  lemma {:induction false} AllWithin(l: string, a: string, r: string, k: string, n: nat, o: seq<string>,
                                     values: map<string, string>)
    requires Quiet(values) && Active(values, k) && forall x :: x in o ==> x in values
    requires StepsAgree(n, o, values) && Count(l + (a + r), values) < n
    ensures var b := ReplaceAll(a, Placeholder(k), values[k]);
            && Count(l + (b + r), values) < n
            && ReplaceInOrder(l + (b + r), o, values) == ReplaceInOrder(l + (a + r), o, values)
    decreases |a|
  {
    var p, v := Placeholder(k), values[k];
    if p <= a {
      var t := a[|p|..];
      assert a == p + t;
      Regroup(p, t, r);
      Regroup(l, v, t + r);
      CountDrops(l, k, t + r, values);
      StepHere(l, k, t + r, values);
      AllWithin(l + v, t, r, k, n, o, values);
      ReplaceFront(t, p, v);
      Inner(l, v, ReplaceAll(t, p, v), r);
    } else if a != "" {
      var c, t := [a[0]], a[1..];
      assert a == c + t;
      Inner(l, c, t, r);
      AllWithin(l + c, t, r, k, n, o, values);
      CopyRune(a[0], t, p, v);
      Inner(l, c, ReplaceAll(t, p, v), r);
    }
  }

  lemma Inner(l: string, v: string, t: string, r: string)
    ensures (l + v) + (t + r) == l + ((v + t) + r)
  {
  }

  // Within a text too, replacing in any order keeps what o makes of it.
  lemma {:induction false} OrderWithin(l: string, a: string, r: string, p: seq<string>, n: nat, o: seq<string>,
                                       values: map<string, string>)
    requires Quiet(values) && forall x :: x in o + p ==> x in values
    requires (forall x :: x in o ==> x in values) && (forall x :: x in p ==> x in values)
    requires StepsAgree(n, o, values) && Count(l + (a + r), values) < n
    ensures ReplaceInOrder(l + (ReplaceInOrder(a, p, values) + r), o, values) ==
            ReplaceInOrder(l + (a + r), o, values)
    decreases |p|
  {
    if p != [] {
      var k := p[0];
      if Active(values, k) {
        AllWithin(l, a, r, k, n, o, values);
      } else {
        ReplaceSame(a, Placeholder(k));
      }
      OrderWithin(l, ReplaceAll(a, Placeholder(k), values[k]), r, p[1..], n, o, values);
    }
  }

  lemma SameWithin(l: string, a: string, b: string, r: string, n: nat, o: seq<string>, values: map<string, string>)
    requires Quiet(values) && forall x :: x in o ==> x in values
    requires StepsAgree(n, o, values) && Count(l + (a + r), values) < n && Count(l + (b + r), values) < n
    requires ReplaceInOrder(a, o, values) == ReplaceInOrder(b, o, values)
    ensures ReplaceInOrder(l + (a + r), o, values) == ReplaceInOrder(l + (b + r), o, values)
  {
    OrderWithin(l, a, r, o, n, o, values);
    OrderWithin(l, b, r, o, n, o, values);
  }

  // ---- two placeholders overlaid ----

  // The second placeholder can begin at offset d of the first.
  predicate Meets(p: string, d: nat, q: string) {
    d < |p| && (p[d..] <= q || q <= p[d..])
  }

  // The text they overlay, and what replacing one or the other leaves of it.
  function Overlay(p: string, d: nat, q: string): string
    requires Meets(p, d, q)
  {
    if q <= p[d..] then p else p[..d] + q
  }

  function FirstGone(p: string, u: string, d: nat, q: string): string
    requires Meets(p, d, q)
  {
    u + Overlay(p, d, q)[|p|..]
  }

  function SecondGone(p: string, d: nat, q: string, v: string): string
    requires Meets(p, d, q)
  {
    p[..d] + (v + Overlay(p, d, q)[d + |q|..])
  }

  // Of two placeholders laid over each other, either can be replaced first.
  predicate Joined(values: map<string, string>, o: seq<string>)
    requires forall k :: k in o ==> k in values
  {
    forall j, k, d :: j in values && k in values && Active(values, j) && Active(values, k) && j != k
                      && 0 <= d < |Placeholder(j)| && Meets(Placeholder(j), d, Placeholder(k)) ==>
      ReplaceInOrder(FirstGone(Placeholder(j), values[j], d, Placeholder(k)), o, values) ==
      ReplaceInOrder(SecondGone(Placeholder(j), d, Placeholder(k), values[k]), o, values)
  }

  lemma OverlayFits(j: string, d: nat, k: string, values: map<string, string>)
    requires Active(values, j) && Active(values, k) && Meets(Placeholder(j), d, Placeholder(k))
    ensures var w := Overlay(Placeholder(j), d, Placeholder(k));
            && Fits(w, 0, j, values) && Fits(w, d, k, values)
            && StepAt(w, 0, j, values) == FirstGone(Placeholder(j), values[j], d, Placeholder(k))
            && StepAt(w, d, k, values) == SecondGone(Placeholder(j), d, Placeholder(k), values[k])
  {
    var p, q := Placeholder(j), Placeholder(k);
    var w := Overlay(p, d, q);
    assert w[..|p|] == p;
    assert w[d..][..|q|] == q;
  }

  // Both replacements, where the overlay lies in some text.
  lemma InOverlay(j: string, d: nat, k: string, values: map<string, string>, l: string, r: string)
    returns (x: string, y: string)
    requires Active(values, j) && Active(values, k) && Meets(Placeholder(j), d, Placeholder(k))
    ensures x == FirstGone(Placeholder(j), values[j], d, Placeholder(k))
    ensures y == SecondGone(Placeholder(j), d, Placeholder(k), values[k])
    ensures var s := l + (Overlay(Placeholder(j), d, Placeholder(k)) + r);
            && Fits(s, |l|, j, values) && StepAt(s, |l|, j, values) == l + (x + r)
            && Fits(s, |l| + d, k, values) && StepAt(s, |l| + d, k, values) == l + (y + r)
  {
    var w := Overlay(Placeholder(j), d, Placeholder(k));
    OverlayFits(j, d, k, values);
    x, y := StepAt(w, 0, j, values), StepAt(w, d, k, values);
    StepInside(l, w, r, 0, j, values);
    StepInside(l, w, r, d, k, values);
  }

  // Two occurrences that overlap, in their text.
  lemma Overlaid(s: string, a: nat, p: string, b: nat, q: string) returns (r: string)
    requires a <= b < a + |p| && b <= |s| && p <= s[a..] && q <= s[b..]
    ensures Meets(p, b - a, q) && s == s[..a] + (Overlay(p, b - a, q) + r)
  {
    var d := b - a;
    assert s[b..] == p[d..] + s[a + |p|..];
    PrefixMeets(p[d..], s[a + |p|..], q);
    var w := Overlay(p, d, q);
    assert w <= s[a..] by {
      assert s[a..][d..] == s[b..];
      assert p[..d] == s[a..][..d];
    }
    r := s[a..][|w|..];
    assert s[a..] == w + r;
    assert s == s[..a] + s[a..];
  }

  lemma OverlapAgrees(s: string, a: nat, j: string, b: nat, k: string, o: seq<string>, values: map<string, string>)
    requires Quiet(values) && forall x :: x in o ==> x in values
    requires Joined(values, o) && StepsAgree(Count(s, values), o, values)
    requires Fits(s, a, j, values) && Fits(s, b, k, values) && a <= b < a + |Placeholder(j)| && j != k
    ensures ReplaceInOrder(StepAt(s, a, j, values), o, values) == ReplaceInOrder(StepAt(s, b, k, values), o, values)
  {
    var l, x, y, r := JoinedAt(s, a, j, b, k, o, values);
    StepDrops(s, a, j, values);
    StepDrops(s, b, k, values);
    SameWithin(l, x, y, r, Count(s, values), o, values);
  }

  lemma JoinedAt(s: string, a: nat, j: string, b: nat, k: string, o: seq<string>, values: map<string, string>)
    returns (l: string, x: string, y: string, r: string)
    requires (forall z :: z in o ==> z in values) && Joined(values, o)
    requires Fits(s, a, j, values) && Fits(s, b, k, values) && a <= b < a + |Placeholder(j)| && j != k
    ensures StepAt(s, a, j, values) == l + (x + r) && StepAt(s, b, k, values) == l + (y + r)
    ensures ReplaceInOrder(x, o, values) == ReplaceInOrder(y, o, values)
  {
    l := s[..a];
    r := Overlaid(s, a, Placeholder(j), b, Placeholder(k));
    x, y := InOverlay(j, b - a, k, values, l, r);
  }

  lemma Behind(l: string, u: string, m: string, r: string)
    ensures l + (u + (m + r)) == (l + u + m) + r
  {
  }

  // Of two occurrences that do not overlap, either is still there when the other is gone.
  lemma Disjoint(l: string, j: string, m: string, k: string, r: string, values: map<string, string>)
    requires Active(values, j) && Active(values, k)
    ensures var p, u, q, v := Placeholder(j), values[j], Placeholder(k), values[k];
            var s := l + (p + (m + (q + r)));
            && Fits(s, |l|, j, values) && Fits(s, |l + p + m|, k, values)
            && Fits(StepAt(s, |l|, j, values), |l + u + m|, k, values)
            && Fits(StepAt(s, |l + p + m|, k, values), |l|, j, values)
            && StepAt(StepAt(s, |l|, j, values), |l + u + m|, k, values) ==
               StepAt(StepAt(s, |l + p + m|, k, values), |l|, j, values)
  {
    var p, u, q, v := Placeholder(j), values[j], Placeholder(k), values[k];
    StepHere(l, j, m + (q + r), values);
    StepHere(l, j, m + (v + r), values);
    StepHere(l + p + m, k, r, values);
    StepHere(l + u + m, k, r, values);
    Behind(l, p, m, q + r);
    Behind(l, p, m, v + r);
    Behind(l, u, m, q + r);
    Behind(l, u, m, v + r);
  }

  lemma Parts(s: string, a: nat, p: string, b: nat, q: string)
    requires a + |p| <= b <= |s| && p <= s[a..] && q <= s[b..]
    ensures s == s[..a] + (p + (s[a + |p|..b] + (q + s[b + |q|..])))
  {
    assert s[b..] == q + s[b + |q|..];
    assert s[a..] == p + s[a + |p|..];
    assert s[a + |p|..] == s[a + |p|..b] + s[b..];
    assert s == s[..a] + s[a..];
  }

  lemma DisjointAgree(s: string, a: nat, j: string, b: nat, k: string, o: seq<string>, values: map<string, string>)
    requires Quiet(values) && forall x :: x in o ==> x in values
    requires StepsAgree(Count(s, values), o, values)
    requires Fits(s, a, j, values) && Fits(s, b, k, values) && a + |Placeholder(j)| <= b
    ensures ReplaceInOrder(StepAt(s, a, j, values), o, values) == ReplaceInOrder(StepAt(s, b, k, values), o, values)
  {
    var p, q := Placeholder(j), Placeholder(k);
    Parts(s, a, p, b, q);
    Disjoint(s[..a], j, s[a + |p|..b], k, s[b + |q|..], values);
    StepDrops(s, a, j, values);
    StepDrops(s, b, k, values);
    var t, w := StepAt(s, a, j, values), StepAt(s, b, k, values);
    var c := |s[..a] + values[j] + s[a + |p|..b]|;
    assert |s[..a] + p + s[a + |p|..b]| == b;
    assert StepAt(t, c, k, values) == StepAt(w, a, j, values);
  }

  lemma TwoSteps(s: string, a: nat, j: string, b: nat, k: string, o: seq<string>, values: map<string, string>)
    requires Quiet(values) && Borderless(values) && forall x :: x in o ==> x in values
    requires Joined(values, o) && StepsAgree(Count(s, values), o, values)
    requires Fits(s, a, j, values) && Fits(s, b, k, values) && a <= b
    ensures ReplaceInOrder(StepAt(s, a, j, values), o, values) == ReplaceInOrder(StepAt(s, b, k, values), o, values)
  {
    if a + |Placeholder(j)| <= b {
      DisjointAgree(s, a, j, b, k, o, values);
    } else if j != k {
      OverlapAgrees(s, a, j, b, k, o, values);
    } else if a < b {
      assert s[a..][b - a..] == s[b..];
      NoOwnOverlap(s[a..], b - a, Placeholder(k));
    }
  }

  // All one-occurrence replacements agree, by induction on what is left to replace.
  lemma {:induction false} AllStepsAgree(n: nat, o: seq<string>, values: map<string, string>)
    requires Quiet(values) && Borderless(values) && IsOrderOf(o, values.Keys) && Joined(values, o)
    ensures StepsAgree(n, o, values)
  {
    if n > 0 {
      AllStepsAgree(n - 1, o, values);
      forall s, i, k | Fits(s, i, k, values) && Count(s, values) == n - 1
        ensures ReplaceInOrder(StepAt(s, i, k, values), o, values) == ReplaceInOrder(s, o, values)
      {
        var b, x := FirstStep(s, o, values, k);
        if i <= b {
          TwoSteps(s, i, k, b, x, o, values);
        } else {
          TwoSteps(s, b, x, i, k, o, values);
        }
      }
    }
  }

  // ---- nothing is left ----

  lemma {:induction false} OccursBefore(s: string, p: string, v: string, q: string)
    requires p != "" && q != "" && !Touches(v, q)
    ensures Occurs(q, ReplaceAll(s, p, v)) ==> Occurs(q, s) && q != p
    decreases |s|
  {
    if s == "" {
      assert s[0..] == s;
    } else if p <= s {
      var t := s[|p|..];
      OccursBefore(t, p, v, q);
      OccursBehind(v, ReplaceAll(t, p, v), q);
      assert s == p + t;
      if Occurs(q, t) {
        OccursIn(p, t, q);
      }
    } else {
      CopiedStart(s, p, v, q);
      OccursBefore(s[1..], p, v, q);
      OccursCons(s[0], ReplaceAll(s[1..], p, v), q);
      assert s == [s[0]] + s[1..];
      OccursCons(s[0], s[1..], q);
    }
  }

  lemma OccursCons(c: char, u: string, q: string)
    ensures Occurs(q, [c] + u) <==> q <= [c] + u || Occurs(q, u)
  {
    var s := [c] + u;
    assert s[0..] == s && s[1..] == u;
    if i :| 0 < i <= |s| && q <= s[i..] {
      assert u[i - 1..] == s[i..];
    }
    if s[0..] == s && Occurs(q, u) {
      OccursLater(q, s);
    }
  }

  lemma OccursIn(a: string, b: string, q: string)
    requires Occurs(q, b)
    ensures Occurs(q, a + b)
  {
    var i :| 0 <= i <= |b| && q <= b[i..];
    assert (a + b)[|a| + i..] == b[i..];
  }

  lemma OccursBehind(v: string, b: string, q: string)
    requires Clear(v, q)
    ensures Occurs(q, v + b) ==> Occurs(q, b)
  {
    var s := v + b;
    forall i | 0 <= i < |v| ensures !(q <= s[i..]) {
      assert s[i..] == v[i..] + b;
      ClearAt(v, b, q, i);
    }
    forall i | |v| <= i <= |s| && q <= s[i..] ensures Occurs(q, b) {
      assert s[i..] == b[i - |v|..];
    }
  }

  lemma {:induction false} StaysOut(s: string, o: seq<string>, values: map<string, string>, x: string)
    requires Quiet(values) && Active(values, x) && forall k :: k in o ==> k in values
    requires !Occurs(Placeholder(x), s)
    ensures !Occurs(Placeholder(x), ReplaceInOrder(s, o, values))
    decreases |o|
  {
    if o != [] {
      var p, v := Placeholder(o[0]), values[o[0]];
      if Active(values, o[0]) {
        OccursBefore(s, p, v, Placeholder(x));
      } else {
        ReplaceSame(s, p);
      }
      StaysOut(ReplaceAll(s, p, v), o[1..], values, x);
    }
  }

  lemma {:induction false} NoneLeft(s: string, o: seq<string>, values: map<string, string>, x: string)
    requires Quiet(values) && Active(values, x) && x in o && forall k :: k in o ==> k in values
    ensures !Occurs(Placeholder(x), ReplaceInOrder(s, o, values))
    decreases |o|
  {
    var t := ReplaceAll(s, Placeholder(o[0]), values[o[0]]);
    if o[0] == x {
      OccursBefore(s, Placeholder(x), values[x], Placeholder(x));
      StaysOut(t, o[1..], values, x);
    } else {
      NoneLeft(t, o[1..], values, x);
    }
  }

  // ---- all texts ----

  // For values that touch no placeholder and placeholders that cannot begin within
  // themselves: all texts are free of the order exactly when the overlaid ones are.
  lemma OrderFreeIffJoined(values: map<string, string>, o: seq<string>)
    requires Quiet(values) && Borderless(values) && IsOrderOf(o, values.Keys)
    ensures (forall msg :: OrderFreeFor(msg, values)) <==> Joined(values, o)
  {
    if Joined(values, o) {
      forall msg ensures OrderFreeFor(msg, values) {
        JoinedIsOrderFree(msg, o, values);
      }
    }
    if forall msg :: OrderFreeFor(msg, values) {
      forall j, k, d | Active(values, j) && Active(values, k) && 0 <= d && Meets(Placeholder(j), d, Placeholder(k))
        ensures ReplaceInOrder(FirstGone(Placeholder(j), values[j], d, Placeholder(k)), o, values) ==
                ReplaceInOrder(SecondGone(Placeholder(j), d, Placeholder(k), values[k]), o, values)
      {
        var w := Overlay(Placeholder(j), d, Placeholder(k));
        OverlayFits(j, d, k, values);
        FreeStep(w, 0, j, o, values);
        FreeStep(w, d, k, o, values);
      }
    }
  }

  lemma JoinedIsOrderFree(msg: string, o: seq<string>, values: map<string, string>)
    requires Quiet(values) && Borderless(values) && IsOrderOf(o, values.Keys) && Joined(values, o)
    ensures OrderFreeFor(msg, values)
  {
    var n := Count(msg, values) + 1;
    AllStepsAgree(n, o, values);
    assert "" + (msg + "") == msg;
    forall p | IsOrderOf(p, values.Keys) ensures ReplaceInOrder(msg, p, values) == ReplaceInOrder(msg, o, values) {
      var s := ReplaceInOrder(msg, p, values);
      assert "" + (s + "") == s;
      OrderWithin("", msg, "", p, n, o, values);
      forall x | Active(values, x) ensures !Occurs(Placeholder(x), s) {
        NoneLeft(msg, p, values, x);
      }
      OrderIdle(s, o, values);
    }
  }

  // Where no text shows the order, replacing one occurrence first makes no difference.
  lemma FreeStep(s: string, i: nat, k: string, o: seq<string>, values: map<string, string>)
    requires Quiet(values) && Borderless(values) && IsOrderOf(o, values.Keys) && Fits(s, i, k, values)
    requires OrderFreeFor(s, values) && OrderFreeFor(StepAt(s, i, k, values), values)
    ensures ReplaceInOrder(StepAt(s, i, k, values), o, values) == ReplaceInOrder(s, o, values)
  {
    var p := StartingWith(k, values.Keys);
    StepFirst(s, i, k, values);
    assert ReplaceInOrder(s, p, values) == ReplaceInOrder(StepAt(s, i, k, values), p, values);
  }

  lemma StartingWith(k: string, keys: set<string>) returns (o: seq<string>)
    requires k in keys
    ensures IsOrderOf(o, keys) && o[0] == k
  {
    var rest := SomeOrder(keys - {k});
    o := [k] + rest;
    NoRepeatsCons(k, rest);
    forall x ensures x in o <==> x in keys {
      assert x in o <==> x == k || x in rest;
    }
  }
}

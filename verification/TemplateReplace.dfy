// Replacements of one placeholder in text, orders of them, and which values make a
// placeholder of another key.
module TemplateReplace {
  import opened Text
  import opened Translation

  // All orders of the keys give one message.
  ghost predicate OrderFreeFor(msg: string, values: map<string, string>) {
    forall o, p :: IsOrderOf(o, values.Keys) && IsOrderOf(p, values.Keys) ==>
      ReplaceInOrder(msg, o, values) == ReplaceInOrder(msg, p, values)
  }

  // ---- one replacement ----

  predicate Occurs(pat: string, s: string) {
    exists i :: 0 <= i <= |s| && pat <= s[i..]
  }

  lemma OccursLater(pat: string, s: string)
    requires s != "" && Occurs(pat, s[1..])
    ensures Occurs(pat, s)
  {
    var i :| 0 <= i <= |s[1..]| && pat <= s[1..][i..];
    assert s[1..][i..] == s[i + 1..];
  }

  lemma {:induction false} ReplaceNone(s: string, pat: string, repl: string)
    requires pat != "" && !Occurs(pat, s)
    ensures ReplaceAll(s, pat, repl) == s
  {
    if |s| >= |pat| {
      assert !(pat <= s[0..]);
      assert s[0..] == s;
      if Occurs(pat, s[1..]) {
        OccursLater(pat, s);
      }
      ReplaceNone(s[1..], pat, repl);
      assert [s[0]] + s[1..] == s;
    }
  }

  // Text in which no occurrence begins, given what follows it, is copied.
  lemma {:induction false} ReplacePast(a: string, b: string, pat: string, repl: string)
    requires pat != "" && forall i :: 0 <= i < |a| ==> !(pat <= a[i..] + b)
    ensures ReplaceAll(a + b, pat, repl) == a + ReplaceAll(b, pat, repl)
  {
    if a == "" {
      assert a + b == b;
    } else {
      var s := a + b;
      assert a[0..] + b == s;
      assert s[0] == a[0] && s[1..] == a[1..] + b;
      forall i | 0 <= i < |a[1..]| ensures !(pat <= a[1..][i..] + b) {
        assert a[1..][i..] == a[i + 1..];
      }
      ReplacePast(a[1..], b, pat, repl);
      Regroup([a[0]], a[1..], ReplaceAll(b, pat, repl));
      assert [a[0]] + a[1..] == a;
      if |s| < |pat| {
        assert ReplaceAll(s, pat, repl) == s && ReplaceAll(b, pat, repl) == b;
      }
    }
  }

  lemma {:induction false} ReplaceLength(s: string, pat: string, repl: string)
    requires pat != ""
    ensures |repl| >= |pat| ==> |ReplaceAll(s, pat, repl)| >= |s|
    ensures |repl| <= |pat| ==> |ReplaceAll(s, pat, repl)| <= |s|
    decreases |s|
  {
    if |s| >= |pat| {
      ReplaceLength(if s[..|pat|] == pat then s[|pat|..] else s[1..], pat, repl);
    }
  }

  // Replacing what does occur by something else is seen.
  lemma {:induction false} ReplaceChanges(s: string, pat: string, repl: string)
    requires pat != "" && repl != pat && Occurs(pat, s)
    ensures ReplaceAll(s, pat, repl) != s
  {
    var i :| 0 <= i <= |s| && pat <= s[i..];
    assert s[0..] == s;
    if s[..|pat|] == pat {
      var rest := s[|pat|..];
      ReplaceLength(rest, pat, repl);
      if |repl| == |pat| {
        assert (repl + ReplaceAll(rest, pat, repl))[..|pat|] == repl;
      }
    } else {
      assert i > 0;
      assert s[1..][i - 1..] == s[i..];
      ReplaceChanges(s[1..], pat, repl);
      assert ([s[0]] + ReplaceAll(s[1..], pat, repl))[1..] == ReplaceAll(s[1..], pat, repl);
    }
  }

  lemma ReplaceFront(t: string, pat: string, repl: string)
    requires pat != ""
    ensures ReplaceAll(pat + t, pat, repl) == repl + ReplaceAll(t, pat, repl)
  {
    assert (pat + t)[..|pat|] == pat && (pat + t)[|pat|..] == t;
  }

  lemma CopyRune(c: char, s: string, pat: string, repl: string)
    requires pat != "" && !(pat <= [c] + s)
    ensures ReplaceAll([c] + s, pat, repl) == [c] + ReplaceAll(s, pat, repl)
  {
    assert [c][0..] == [c];
    ReplacePast([c], s, pat, repl);
  }

  lemma PrefixCons(t: string, c: char, u: string)
    requires t != ""
    ensures t <= [c] + u <==> t[0] == c && t[1..] <= u
  {
    var s := [c] + u;
    assert s[0] == c && s[1..] == u;
    if t <= s {
      assert t[1..] == s[1..|t|];
    }
    if t[0] == c && t[1..] <= u {
      assert t == [c] + t[1..];
    }
  }

  lemma Mismatch(p: string, s: string, m: nat)
    requires m < |p| && m < |s| && p[m] != s[m]
    ensures !(p <= s)
  {
  }

  lemma ClearAt(v: string, tail: string, pat: string, i: nat)
    requires Clear(v, pat) && i < |v|
    ensures !(pat <= v[i..] + tail)
  {
    if pat <= v[i..] + tail {
      PrefixMeets(v[i..], tail, pat);
    }
  }

  lemma ClearFrom(s: string, n: nat, pat: string)
    requires n <= |s| && Clear(s, pat)
    ensures Clear(s[n..], pat)
  {
    forall i | 0 <= i < |s[n..]| ensures !(s[n..][i..] <= pat) && !(pat <= s[n..][i..]) {
      assert s[n..][i..] == s[n + i..];
    }
  }

  lemma ClearHasNone(s: string, pat: string)
    requires pat != "" && Clear(s, pat)
    ensures !Occurs(pat, s)
  {
    forall i | 0 <= i <= |s| ensures !(pat <= s[i..]) {
      if i < |s| {
        assert !(pat <= s[i..]);
      }
    }
  }

  lemma PrefixRest(a: string, b: string, r: string)
    requires r <= a + b && |a| <= |r|
    ensures a <= r && r[|a|..] <= b && a + r[|a|..] == r
  {
    assert r[|a|..] == (a + b)[|a|..|r|];
    assert r[..|a|] == (a + b)[..|a|];
  }

  // What begins before a text and reaches into it, meets it within.
  lemma ReachesIn(a: string, q: string, tail: string, p: string)
    requires 0 < |a| < |p| && p <= a + (q + tail)
    ensures !Clear(p[1..], q)
  {
    PrefixRest(a, q + tail, p);
    PrefixMeets(q, tail, p[|a|..]);
    assert p[1..][|a| - 1..] == p[|a|..];
  }

  // ---- two orders that differ ----

  lemma {:induction false} OrderConcat(msg: string, o: seq<string>, p: seq<string>, values: map<string, string>)
    requires forall k :: k in o + p ==> k in values
    ensures (forall k :: k in o ==> k in values) && (forall k :: k in p ==> k in values)
    ensures ReplaceInOrder(msg, o + p, values) == ReplaceInOrder(ReplaceInOrder(msg, o, values), p, values)
    decreases |o|
  {
    assert forall k :: k in o ==> k in o + p;
    assert forall k :: k in p ==> k in o + p;
    if o == [] {
      assert o + p == p;
    } else {
      assert (o + p)[1..] == o[1..] + p;
      OrderConcat(ReplaceAll(msg, Placeholder(o[0]), values[o[0]]), o[1..], p, values);
    }
  }

  // Keys whose placeholders do not occur, or stand for themselves, change nothing.
  lemma {:induction false} OrderIdle(msg: string, o: seq<string>, values: map<string, string>)
    requires forall k :: k in o ==> k in values && (Active(values, k) ==> !Occurs(Placeholder(k), msg))
    ensures ReplaceInOrder(msg, o, values) == msg
    decreases |o|
  {
    if o != [] {
      if Active(values, o[0]) {
        ReplaceNone(msg, Placeholder(o[0]), values[o[0]]);
      } else {
        ReplaceSame(msg, Placeholder(o[0]));
      }
      OrderIdle(msg, o[1..], values);
    }
  }

  lemma PairOrder(msg: string, j: string, k: string, values: map<string, string>)
    requires j in values && k in values
    ensures ReplaceInOrder(msg, [j, k], values) ==
            ReplaceAll(ReplaceAll(msg, Placeholder(j), values[j]), Placeholder(k), values[k])
  {
    assert [j, k][1..] == [k] && [k][1..] == [];
    assert ReplaceInOrder(ReplaceAll(msg, Placeholder(j), values[j]), [k], values)
        == ReplaceAll(ReplaceAll(msg, Placeholder(j), values[j]), Placeholder(k), values[k]);
  }

  lemma EndingIn(keys: set<string>, j: string, k: string) returns (front: seq<string>)
    requires j in keys && k in keys && j != k
    ensures IsOrderOf(front + [j, k], keys) && IsOrderOf(front + [k, j], keys)
    ensures forall x :: x in front ==> x in keys && x != j && x != k
  {
    front := SomeOrder(keys - {j, k});
    forall x ensures x in front + [j, k] <==> x in keys {
      assert x in front + [j, k] <==> x in front || x == j || x == k;
    }
    forall x ensures x in front + [k, j] <==> x in keys {
      assert x in front + [k, j] <==> x in front || x == j || x == k;
    }
    assert j !in front && k !in front;
  }

  lemma AfterIdle(msg: string, front: seq<string>, j: string, k: string, values: map<string, string>)
    requires forall x :: x in front + [j, k] ==> x in values
    requires forall x :: x in front && Active(values, x) ==> !Occurs(Placeholder(x), msg)
    ensures j in values && k in values
    ensures ReplaceInOrder(msg, front + [j, k], values) ==
            ReplaceAll(ReplaceAll(msg, Placeholder(j), values[j]), Placeholder(k), values[k])
  {
    assert j in front + [j, k] && k in front + [j, k];
    OrderConcat(msg, front, [j, k], values);
    OrderIdle(msg, front, values);
    PairOrder(msg, j, k, values);
  }

  // Only the placeholder of j occurs, and replacing it makes the one of k occur.
  lemma OrderShows(msg: string, values: map<string, string>, j: string, k: string)
    requires j in values && Active(values, k) && j != k
    requires forall x :: Active(values, x) && x != j ==> !Occurs(Placeholder(x), msg)
    requires Occurs(Placeholder(k), ReplaceAll(msg, Placeholder(j), values[j]))
    ensures !OrderFreeFor(msg, values)
  {
    var front := EndingIn(values.Keys, j, k);
    AfterIdle(msg, front, j, k, values);
    AfterIdle(msg, front, k, j, values);
    ReplaceNone(msg, Placeholder(k), values[k]);
    ReplaceChanges(ReplaceAll(msg, Placeholder(j), values[j]), Placeholder(k), values[k]);
    OrdersDiffer(msg, values, front + [j, k], front + [k, j]);
  }

  lemma OrdersDiffer(msg: string, values: map<string, string>, o: seq<string>, p: seq<string>)
    requires IsOrderOf(o, values.Keys) && IsOrderOf(p, values.Keys)
    requires ReplaceInOrder(msg, o, values) != ReplaceInOrder(msg, p, values)
    ensures !OrderFreeFor(msg, values)
  {
  }

  // ---- values that make no placeholder ----

  // The value, put into some text, can be part of an occurrence that was not there: it can
  // begin the placeholder, or end it, or lies inside it.
  predicate Touches(v: string, pat: string) {
    || !Clear(v, pat)
    || (exists m :: 0 < m < |pat| && Ends(v, pat, m))
    || (exists m :: 0 < m < |pat| && Lies(v, pat, m))
  }

  // From m on, the pattern is how the value begins.
  predicate Ends(v: string, pat: string, m: nat) {
    m <= |pat| && pat[m..] <= v
  }

  // From m on, the pattern has the value inside it.
  predicate Lies(v: string, pat: string, m: nat) {
    m + |v| < |pat| && v == pat[m..m + |v|]
  }

  lemma MeetsValue(v: string, tail: string, pat: string, m: nat)
    requires 0 < m < |pat| && pat[m..] <= v + tail
    ensures Touches(v, pat)
  {
    PrefixMeets(v, tail, pat[m..]);
    assert if pat[m..] <= v then Ends(v, pat, m) else Lies(v, pat, m);
  }

  // What the rest of a placeholder meets after a replacement, it met before.
  lemma {:induction false} MeetsBefore(s: string, pat: string, v: string, q: string, m: nat)
    requires pat != "" && 0 < m <= |q| && !Touches(v, q)
    ensures q[m..] <= ReplaceAll(s, pat, v) ==> q[m..] <= s
    decreases |s|
  {
    if m < |q| && s != "" {
      assert s == [s[0]] + s[1..];
      if pat <= s {
        if q[m..] <= ReplaceAll(s, pat, v) {
          MeetsValue(v, ReplaceAll(s[|pat|..], pat, v), q, m);
        }
      } else {
        CopyRune(s[0], s[1..], pat, v);
        MeetsBefore(s[1..], pat, v, q, m + 1);
        assert q[m..][1..] == q[m + 1..];
        PrefixCons(q[m..], s[0], s[1..]);
        PrefixCons(q[m..], s[0], ReplaceAll(s[1..], pat, v));
      }
    }
  }

  // In particular none begins at a rune that is copied.
  lemma CopiedStart(s: string, pat: string, v: string, q: string)
    requires s != "" && pat != "" && q != "" && !Touches(v, q) && !(pat <= s)
    ensures ReplaceAll(s, pat, v) == [s[0]] + ReplaceAll(s[1..], pat, v)
    ensures q <= ReplaceAll(s, pat, v) ==> q <= s
  {
    assert s == [s[0]] + s[1..];
    CopyRune(s[0], s[1..], pat, v);
    MeetsBefore(s[1..], pat, v, q, 1);
    PrefixCons(q, s[0], s[1..]);
    PrefixCons(q, s[0], ReplaceAll(s[1..], pat, v));
  }
}

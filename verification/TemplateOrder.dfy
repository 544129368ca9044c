// When the order in which a map's placeholders are replaced makes no difference: keys whose
// placeholders keep apart, with the exact condition on the values for all texts, and for
// templates of literals and holes.
module TemplateOrder {
  import opened Text
  import opened Translation
  import opened TemplateReplace

  // ---- two replacements commute ----

  function Both(s: string, p: string, u: string, q: string, v: string): string
    requires p != "" && q != ""
  {
    ReplaceAll(ReplaceAll(s, p, u), q, v)
  }

  predicate Separate(p: string, u: string, q: string, v: string) {
    p != "" && q != "" && Clear(p, q) && Clear(q, p) && !Touches(u, q) && !Touches(v, p)
  }

  lemma {:induction false} Commute(s: string, p: string, u: string, q: string, v: string)
    requires Separate(p, u, q, v)
    ensures Both(s, p, u, q, v) == Both(s, q, v, p, u)
    decreases |s|
  {
    if s != "" {
      if p <= s {
        Commute(s[|p|..], p, u, q, v);
        AtFirst(s[|p|..], p, u, q, v);
        assert s == p + s[|p|..];
      } else if q <= s {
        Commute(s[|q|..], p, u, q, v);
        AtFirst(s[|q|..], q, v, p, u);
        assert s == q + s[|q|..];
      } else {
        Commute(s[1..], p, u, q, v);
        CopiedTwice(s, p, u, q, v);
        CopiedTwice(s, q, v, p, u);
      }
    }
  }

  lemma AtFirst(t: string, p: string, u: string, q: string, v: string)
    requires Separate(p, u, q, v)
    ensures Both(p + t, p, u, q, v) == u + Both(t, p, u, q, v)
    ensures Both(p + t, q, v, p, u) == u + Both(t, q, v, p, u)
  {
    ReplaceFront(t, p, u);
    ReplaceSkips(u, ReplaceAll(t, p, u), q, v);
    ReplaceSkips(p, t, q, v);
    ReplaceFront(ReplaceAll(t, q, v), p, u);
  }

  lemma CopiedTwice(s: string, p: string, u: string, q: string, v: string)
    requires s != "" && p != "" && q != "" && !Touches(u, q) && !(p <= s) && !(q <= s)
    ensures Both(s, p, u, q, v) == [s[0]] + Both(s[1..], p, u, q, v)
  {
    CopiedStart(s, p, u, q);
    CopyRune(s[0], ReplaceAll(s[1..], p, u), q, v);
  }

  // ---- placeholders that keep apart ----

  // No placeholder can begin within another.
  ghost predicate Apart(values: map<string, string>) {
    forall j, k :: Active(values, j) && Active(values, k) && j != k ==> Clear(Placeholder(j), Placeholder(k))
  }

  ghost predicate Untouched(values: map<string, string>) {
    forall j, k :: Active(values, j) && Active(values, k) && j != k ==> !Touches(values[j], Placeholder(k))
  }

  // Whatever braces keys and texts have: where placeholders keep apart and no value touches
  // the placeholder of another key, no text shows the order.
  lemma ApartIsOrderFree(msg: string, values: map<string, string>)
    requires Apart(values) && Untouched(values)
    ensures OrderFreeFor(msg, values)
  {
    forall o, p | IsOrderOf(o, values.Keys) && IsOrderOf(p, values.Keys)
      ensures ReplaceInOrder(msg, o, values) == ReplaceInOrder(msg, p, values)
    {
      ActiveSuffice(msg, o, values);
      ActiveSuffice(msg, p, values);
      ActiveDistinct(o, values);
      ActiveDistinct(p, values);
      AnyOrder(msg, ActiveOf(o, values), ActiveOf(p, values), values);
    }
  }

  lemma {:induction false} AnyOrder(msg: string, o: seq<string>, p: seq<string>, values: map<string, string>)
    requires Apart(values) && Untouched(values)
    requires forall k :: k in o ==> Active(values, k)
    requires NoRepeats(o) && NoRepeats(p) && forall k :: k in o <==> k in p
    ensures ReplaceInOrder(msg, o, values) == ReplaceInOrder(msg, p, values)
    decreases |o|
  {
    if o == [] {
      if p != [] {
        FirstIn(p);
      }
    } else {
      var k, rest := o[0], o[1..];
      assert o == [k] + rest && k in o;
      NoRepeatsCons(k, rest);
      var a, b := Around(p, k);
      ToFront(msg, a, k, values);
      OrderConcat(msg, a + [k], b, values);
      OrderConcat(ReplaceAll(msg, Placeholder(k), values[k]), a, b, values);
      assert forall x :: x in rest <==> x in a + b;
      AnyOrder(ReplaceAll(msg, Placeholder(k), values[k]), rest, a + b, values);
    }
  }

  lemma FirstIn(p: seq<string>)
    requires p != []
    ensures p[0] in p
  {
  }

  // The parts of an order before and behind one key.
  lemma Around(p: seq<string>, k: string) returns (a: seq<string>, b: seq<string>)
    requires NoRepeats(p) && k in p
    ensures p == a + [k] + b && NoRepeats(a + b)
    ensures forall x :: x in a + b <==> x in p && x != k
  {
    var i :| 0 <= i < |p| && p[i] == k;
    a, b := p[..i], p[i + 1..];
    forall x, y | 0 <= x < y < |a + b| ensures (a + b)[x] != (a + b)[y] {
      assert (a + b)[x] == p[if x < i then x else x + 1] && (a + b)[y] == p[if y < i then y else y + 1];
    }
    forall x ensures x in a + b <==> x in p && x != k {
      assert p == a + [k] + b;
    }
  }

  lemma {:induction false} ToFront(msg: string, a: seq<string>, k: string, values: map<string, string>)
    requires Apart(values) && Untouched(values)
    requires forall x :: x in a + [k] ==> Active(values, x)
    requires k !in a
    ensures k in values && forall x :: x in a ==> x in values
    ensures ReplaceInOrder(msg, a + [k], values) ==
            ReplaceInOrder(ReplaceAll(msg, Placeholder(k), values[k]), a, values)
    decreases |a|
  {
    assert k in a + [k] && forall x :: x in a ==> x in a + [k];
    if a == [] {
      assert (a + [k])[1..] == [] && (a + [k])[0] == k;
    } else {
      var j, next := a[0], ReplaceAll(msg, Placeholder(a[0]), values[a[0]]);
      assert (a + [k])[0] == j && (a + [k])[1..] == a[1..] + [k];
      assert Separate(Placeholder(j), values[j], Placeholder(k), values[k]);
      ToFront(next, a[1..], k, values);
      Commute(msg, Placeholder(j), values[j], Placeholder(k), values[k]);
    }
  }

  // ---- a value that makes a placeholder ----

  // No placeholder can begin within itself.
  ghost predicate Borderless(values: map<string, string>) {
    forall k :: Active(values, k) ==> Clear(Placeholder(k)[1..], Placeholder(k))
  }

  // The texts before m and from n on of a placeholder.
  predicate Cut(k: string, m: nat, n: nat) {
    m < |Placeholder(k)| && 0 < n <= |Placeholder(k)|
  }

  // The placeholder of j between two such parts of the one of k.
  function Between(k: string, m: nat, j: string, n: nat): string
    requires Cut(k, m, n)
  {
    Placeholder(k)[..m] + (Placeholder(j) + Placeholder(k)[n..])
  }

  // The part of k before the placeholder of j begins no placeholder.
  lemma NoneBefore(values: map<string, string>, j: string, k: string, x: string, m: nat, n: nat, i: nat)
    requires Apart(values) && Borderless(values) && Cut(k, m, n) && i < m
    requires Active(values, j) && Active(values, k) && Active(values, x) && j != k
    ensures !(Placeholder(x) <= Placeholder(k)[..m][i..] + (Placeholder(j) + Placeholder(k)[n..]))
  {
    var p, q, r := Placeholder(k), Placeholder(j), Placeholder(x);
    var a := p[..m][i..];
    assert a == p[i..m];
    if |r| <= |a| {
      assert !(r <= p[i..]);
      assert |r| <= |a| && x != k;
      assert (a + (q + p[n..]))[..|r|] == p[i..][..|r|];
    } else {
      assert Clear(r[1..], q) by {
        if x != j {
          ClearFrom(r, 1, q);
        }
      }
      if r <= a + (q + p[n..]) {
        ReachesIn(a, q, p[n..], r);
      }
    }
  }

  // The part behind it has none.
  lemma NoneBehind(values: map<string, string>, k: string, x: string, n: nat)
    requires Apart(values) && Borderless(values)
    requires Active(values, k) && Active(values, x) && 0 < n <= |Placeholder(k)|
    ensures Clear(Placeholder(k)[n..], Placeholder(x))
    ensures !Occurs(Placeholder(x), Placeholder(k)[n..])
  {
    if x == k {
      ClearFrom(Placeholder(k)[1..], n - 1, Placeholder(x));
      assert Placeholder(k)[1..][n - 1..] == Placeholder(k)[n..];
    } else {
      ClearFrom(Placeholder(k), n, Placeholder(x));
    }
    ClearHasNone(Placeholder(k)[n..], Placeholder(x));
  }

  lemma OnlyPlaceholder(values: map<string, string>, j: string, k: string, x: string, m: nat, n: nat)
    requires Apart(values) && Borderless(values) && Cut(k, m, n)
    requires Active(values, j) && Active(values, k) && Active(values, x) && j != k && x != j
    ensures !Occurs(Placeholder(x), Between(k, m, j, n))
  {
    var left, q, right := Placeholder(k)[..m], Placeholder(j), Placeholder(k)[n..];
    var msg := Between(k, m, j, n);
    NoneBehind(values, k, x, n);
    forall i | 0 <= i <= |msg| ensures !(Placeholder(x) <= msg[i..]) {
      if i < m {
        assert msg[i..] == left[i..] + (q + right);
        NoneBefore(values, j, k, x, m, n, i);
      } else if i < m + |q| {
        assert msg[i..] == q[i - m..] + right;
        ClearAt(q, right, Placeholder(x), i - m);
      } else {
        assert msg[i..] == right[i - m - |q|..];
      }
    }
  }

  // Where the value of j, so surrounded, makes the placeholder of k, the order shows.
  lemma OrderShowsBetween(values: map<string, string>, j: string, k: string, m: nat, n: nat)
    requires Apart(values) && Borderless(values) && Cut(k, m, n)
    requires Active(values, j) && Active(values, k) && j != k
    requires Occurs(Placeholder(k), Placeholder(k)[..m] + (values[j] + Placeholder(k)[n..]))
    ensures !OrderFreeFor(Between(k, m, j, n), values)
  {
    var left, right := Placeholder(k)[..m], Placeholder(k)[n..];
    forall x | Active(values, x) && x != j ensures !Occurs(Placeholder(x), Between(k, m, j, n)) {
      OnlyPlaceholder(values, j, k, x, m, n);
    }
    forall i | 0 <= i < |left| ensures !(Placeholder(j) <= left[i..] + (Placeholder(j) + right)) {
      NoneBefore(values, j, k, j, m, n, i);
    }
    NoneBehind(values, k, j, n);
    ReplacePast(left, Placeholder(j) + right, Placeholder(j), values[j]);
    ReplaceAtHole(j, values[j], right);
    ReplaceNone(right, Placeholder(j), values[j]);
    OrderShows(Between(k, m, j, n), values, j, k);
  }

  // A value that touches the placeholder makes it between two parts of it.
  lemma TouchMakes(v: string, k: string) returns (m: nat, n: nat)
    requires Touches(v, Placeholder(k))
    ensures Cut(k, m, n) && Occurs(Placeholder(k), Placeholder(k)[..m] + (v + Placeholder(k)[n..]))
    ensures !Clear(v, Placeholder(k)) ==> m == 0
  {
    var p := Placeholder(k);
    if !Clear(v, p) {
      var i :| 0 <= i < |v| && (v[i..] <= p || p <= v[i..]);
      m, n := 0, if p <= v[i..] then |p| else |v| - i;
      Makes(v, i, p, 0, n);
    } else if i :| 0 < i < |p| && Ends(v, p, i) {
      m, n := i, |p|;
      Makes(v, 0, p, m, n);
    } else {
      m :| 0 < m < |p| && Lies(v, p, m);
      n := m + |v|;
      Makes(v, 0, p, m, n);
    }
  }

  lemma Makes(v: string, i: nat, p: string, m: nat, n: nat)
    requires i <= |v| && m <= n <= |p| && (i == 0 || m == 0)
    requires (n == |p| ==> p[m..] <= v[i..]) && (n < |p| ==> v[i..] == p[m..n])
    ensures Occurs(p, p[..m] + (v + p[n..]))
  {
    var s := p[..m] + (v + p[n..]);
    assert s[i..][..|p|] == p;
    assert p <= s[i..];
  }

  // For placeholders that keep apart, from each other and from themselves: all texts are
  // free of the order exactly when no value touches the placeholder of another key.
  lemma OrderFreeIffUntouched(values: map<string, string>)
    requires Apart(values) && Borderless(values)
    ensures (forall msg :: OrderFreeFor(msg, values)) <==> Untouched(values)
  {
    if Untouched(values) {
      forall msg ensures OrderFreeFor(msg, values) {
        ApartIsOrderFree(msg, values);
      }
    } else {
      var j, k :| Active(values, j) && Active(values, k) && j != k && Touches(values[j], Placeholder(k));
      var m, n := TouchMakes(values[j], k);
      OrderShowsBetween(values, j, k, m, n);
    }
  }

  // Placeholders of keys without braces keep apart.
  lemma BraceFreeIsApart(values: map<string, string>)
    requires forall k :: k in values ==> BraceFree(k)
    ensures Apart(values) && Borderless(values)
  {
    forall j, k | j in values && k in values
      ensures Clear(Placeholder(j)[1..], Placeholder(k)) && (j != k ==> Clear(Placeholder(j), Placeholder(k)))
    {
      BraceFreeMeets(j, k);
    }
  }

  lemma BraceFreeMeets(j: string, k: string)
    requires BraceFree(j) && BraceFree(k)
    ensures Clear(Placeholder(j)[1..], Placeholder(k))
    ensures j != k ==> Clear(Placeholder(j), Placeholder(k))
  {
    var p, q := Placeholder(j), Placeholder(k);
    assert p[1..] == j + "}";
    FreeIsClear(p[1..], q);
    if j != k {
      forall i | 0 <= i < |p| ensures !(p[i..] <= q) && !(q <= p[i..]) {
        if i == 0 {
          assert p[0..] == p;
          NotBefore(j, k);
          NotBefore(k, j);
        } else {
          assert p[i..] == p[1..][i - 1..];
        }
      }
    }
  }

  // Of two different keys without closing braces, neither placeholder begins the other.
  lemma NotBefore(j: string, k: string)
    requires Free(j, '}') && Free(k, '}') && j != k
    ensures !(Placeholder(j) <= Placeholder(k))
  {
    if Placeholder(j) <= Placeholder(k) {
      assert Placeholder(k) + "" == Placeholder(k);
      MatchAtHole(k, j, "");
    }
  }

  // ---- templates of literals and holes ----

  // Literal text cannot begin a placeholder whose replacement changes anything.
  ghost predicate ReadyFor(ts: seq<Token>, values: map<string, string>) {
    forall i :: 0 <= i < |ts| ==>
      match ts[i]
      case Lit(text) => forall k :: Active(values, k) ==> Clear(text, Placeholder(k))
      case Hole(name) => BraceFree(name)
  }

  // For keys without braces: all templates are free of the order exactly when no value can
  // begin the placeholder of another key.
  lemma OrderFreeIffIndependent(values: map<string, string>)
    requires forall k :: k in values ==> BraceFree(k)
    ensures (forall ts :: ReadyFor(ts, values) ==> OrderFreeFor(Render(ts), values)) <==> Independent(values)
  {
    if Independent(values) {
      forall ts | ReadyFor(ts, values) ensures OrderFreeFor(Render(ts), values) {
        ReadyIsOrderFree(ts, values);
      }
    } else {
      var j, k :| Active(values, j) && Active(values, k) && j != k && !Clear(values[j], Placeholder(k));
      var ts := PlaceholderInValue(values, j, k);
      assert ReadyFor(ts, values);
    }
  }

  lemma ReadyIsOrderFree(ts: seq<Token>, values: map<string, string>)
    requires forall k :: k in values ==> BraceFree(k)
    requires Independent(values) && ReadyFor(ts, values)
    ensures OrderFreeFor(Render(ts), values)
  {
    forall o | IsOrderOf(o, values.Keys) ensures ReplaceInOrder(Render(ts), o, values) == Render(Fill(ts, values)) {
      assert Ready(ts, ActiveOf(o, values)) by {
        assert forall k :: k in ActiveOf(o, values) ==> Active(values, k);
      }
      OrderFree(ts, o, values);
    }
  }

  // A value that can begin the placeholder of another key has a template that shows it.
  lemma PlaceholderInValue(values: map<string, string>, j: string, k: string) returns (ts: seq<Token>)
    requires forall x :: x in values ==> BraceFree(x)
    requires Active(values, j) && Active(values, k) && j != k && !Clear(values[j], Placeholder(k))
    ensures ReadyFor(ts, values) && !OrderFreeFor(Render(ts), values)
  {
    BraceFreeIsApart(values);
    var m, n := TouchMakes(values[j], k);
    var right := Placeholder(k)[n..];
    ts := [Hole(j), Lit(right)];
    forall x | Active(values, x) ensures Clear(right, Placeholder(x)) {
      NoneBehind(values, k, x, n);
    }
    ReadyPair(values, j, right);
    RenderPair(Hole(j), Lit(right));
    assert Render(ts) == Between(k, m, j, n);
    OrderShowsBetween(values, j, k, m, n);
  }

  lemma ReadyPair(values: map<string, string>, j: string, right: string)
    requires BraceFree(j) && forall x :: Active(values, x) ==> Clear(right, Placeholder(x))
    ensures ReadyFor([Hole(j), Lit(right)], values)
  {
  }

  lemma RenderPair(t: Token, u: Token)
    ensures Render([t, u]) == Show(t) + Show(u)
  {
    assert [t, u][1..] == [u] && [u][1..] == [];
    assert Render([u]) == Show(u) + "";
  }
}

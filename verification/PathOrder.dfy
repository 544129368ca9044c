// Paths, their last elements, and the stable sort that orders them.
module PathOrder {
  import opened Text

  // filepath.Base
  function Base(path: string): string {
    if path == "" then "."
    else
      var t := TrimRight(path, c => c == '/');
      if t == "" then "/" else AfterLastSlash(t)
  }

  function AfterLastSlash(s: string): string {
    if Free(s, '/') then s else AfterLastSlash(s[1..])
  }

  lemma {:induction false} TrimmedOf(s: string, space: char -> bool) returns (rest: string)
    ensures s == TrimRight(s, space) + rest && Blank(rest, space)
    ensures TrimRight(s, space) != "" ==> !space(TrimRight(s, space)[|TrimRight(s, space)| - 1])
    decreases |s|
  {
    if s != "" && space(s[|s| - 1]) {
      var front, last := s[..|s| - 1], s[|s| - 1];
      rest := TrimmedOf(front, space);
      rest := rest + [last];
      assert s == front + [last];
    } else {
      rest := "";
    }
  }

  lemma {:induction false} LastPart(s: string) returns (dir: string)
    ensures s == dir + AfterLastSlash(s) && Free(AfterLastSlash(s), '/')
    ensures dir == "" || dir[|dir| - 1] == '/'
  {
    if Free(s, '/') {
      dir := "";
    } else {
      dir := LastPart(s[1..]);
      dir := [s[0]] + dir;
      assert s == [s[0]] + s[1..];
      if |dir| == 1 {
        assert forall i :: 0 < i < |s| ==> s[i] == AfterLastSlash(s[1..])[i - 1];
      }
    }
  }

  // "." for the empty path, "/" for slashes alone, and else what stands between the last
  // slash and the slashes at the end.
  lemma BaseIs(path: string) returns (dir: string, slashes: string)
    ensures path == "" ==> Base(path) == "."
    ensures path != "" && (forall i :: 0 <= i < |path| ==> path[i] == '/') ==> Base(path) == "/"
    ensures (exists i :: 0 <= i < |path| && path[i] != '/') ==>
              && path == dir + Base(path) + slashes
              && Base(path) != "" && Free(Base(path), '/')
              && (dir == "" || dir[|dir| - 1] == '/')
              && forall i :: 0 <= i < |slashes| ==> slashes[i] == '/'
  {
    var t := TrimRight(path, c => c == '/');
    slashes := TrimmedOf(path, c => c == '/');
    dir := LastPart(t);
    assert path == t + slashes;
    if t != "" {
      assert path[|t| - 1] == t[|t| - 1] != '/';
    }
  }

  // ---- order ----

  predicate Le(a: string, b: string) {
    a == "" || (b != "" && (a[0] < b[0] || (a[0] == b[0] && Le(a[1..], b[1..]))))
  }

  // The first difference is at i, and a has the lesser rune there.
  predicate LessAt(a: string, b: string, i: nat) {
    i < |a| && i < |b| && a[..i] == b[..i] && a[i] < b[i]
  }

  lemma LessStart(a: string, b: string, i: nat)
    requires a != "" && b != ""
    ensures LessAt(a, b, i) ==> a[0] <= b[0]
  {
    if i > 0 && LessAt(a, b, i) {
      assert a[..i][0] == b[..i][0];
    }
  }

  lemma LessTail(a: string, b: string, i: nat)
    requires a != "" && b != "" && a[0] == b[0]
    ensures LessAt(a, b, i + 1) <==> LessAt(a[1..], b[1..], i)
  {
    if i < |a| - 1 && i < |b| - 1 {
      assert a[..i + 1] == [a[0]] + a[1..][..i] && b[..i + 1] == [b[0]] + b[1..][..i];
      assert a[..i + 1][1..] == a[1..][..i] && b[..i + 1][1..] == b[1..][..i];
    }
  }

  // Rune by rune, the first difference decides; a text comes before its continuations.
  lemma {:induction false} LeIs(a: string, b: string)
    ensures Le(a, b) <==> a <= b || exists i: nat :: LessAt(a, b, i)
  {
    if a != "" && b != "" {
      assert a == [a[0]] + a[1..] && b == [b[0]] + b[1..];
      if a[0] == b[0] {
        LeIs(a[1..], b[1..]);
        assert a <= b <==> a[1..] <= b[1..];
        if i: nat :| LessAt(a[1..], b[1..], i) {
          LessTail(a, b, i);
        }
        if i: nat :| LessAt(a, b, i) {
          LessTail(a, b, i - 1);
        }
      } else if a[0] < b[0] {
        assert LessAt(a, b, 0);
      } else {
        forall i: nat ensures LessAt(a, b, i) ==> a[0] <= b[0] {
          LessStart(a, b, i);
        }
      }
    }
  }

  lemma {:induction false} LeTotal(a: string, b: string)
    ensures Le(a, b) || Le(b, a)
  {
    if a != "" && b != "" && a[0] == b[0] {
      LeTotal(a[1..], b[1..]);
    }
  }

  lemma {:induction false} LeAntisymmetric(a: string, b: string)
    requires Le(a, b) && Le(b, a)
    ensures a == b
  {
    if a != "" && b != "" {
      LeAntisymmetric(a[1..], b[1..]);
      assert a == [a[0]] + a[1..] && b == [b[0]] + b[1..];
    }
  }

  lemma {:induction false} LeTransitive(a: string, b: string, c: string)
    requires Le(a, b) && Le(b, c)
    ensures Le(a, c)
  {
    if a != "" && b[0] == a[0] && c[0] == b[0] {
      LeTransitive(a[1..], b[1..], c[1..]);
    }
  }

  // The two comparisons in use: whole paths, and last path elements.
  datatype SortKey = ByPath | ByBase

  function KeyOf(k: SortKey, path: string): string {
    match k
    case ByPath => path
    case ByBase => Base(path)
  }

  ghost predicate Ordered(k: SortKey, s: seq<string>) {
    forall i, j :: 0 <= i < j < |s| ==> Le(KeyOf(k, s[i]), KeyOf(k, s[j]))
  }

  // The elements with the given key, in order.
  function WithKey(k: SortKey, s: seq<string>, b: string): seq<string> {
    if s == [] then []
    else (if KeyOf(k, s[0]) == b then [s[0]] else []) + WithKey(k, s[1..], b)
  }

  function Insert(k: SortKey, x: string, s: seq<string>): seq<string> {
    if s == [] || Le(KeyOf(k, x), KeyOf(k, s[0])) then [x] + s else [s[0]] + Insert(k, x, s[1..])
  }

  function StableSort(k: SortKey, s: seq<string>): seq<string> {
    if s == [] then [] else Insert(k, s[0], StableSort(k, s[1..]))
  }

  // Both lists have the same elements with each key, in the same order.
  ghost predicate SameClasses(k: SortKey, s: seq<string>, t: seq<string>) {
    forall b :: WithKey(k, s, b) == WithKey(k, t, b)
  }

  // An element more on both sides.
  lemma CountBoth(y: string, t: seq<string>, x: string, s: seq<string>)
    requires multiset(t) == multiset{x} + multiset(s)
    ensures multiset([y] + t) == multiset{x} + multiset([y] + s)
  {
  }

  lemma {:induction false} InsertAdds(k: SortKey, x: string, s: seq<string>)
    ensures multiset(Insert(k, x, s)) == multiset{x} + multiset(s)
  {
    if !(s == [] || Le(KeyOf(k, x), KeyOf(k, s[0]))) {
      InsertAdds(k, x, s[1..]);
      CountBoth(s[0], Insert(k, x, s[1..]), x, s[1..]);
      assert s == [s[0]] + s[1..];
    }
  }

  lemma {:induction false} InsertOrders(k: SortKey, x: string, s: seq<string>)
    requires Ordered(k, s)
    ensures Ordered(k, Insert(k, x, s))
  {
    var r := Insert(k, x, s);
    if s == [] || Le(KeyOf(k, x), KeyOf(k, s[0])) {
      forall j | 0 < j < |r| ensures Le(KeyOf(k, x), KeyOf(k, r[j])) {
        if j > 1 {
          LeTransitive(KeyOf(k, x), KeyOf(k, s[0]), KeyOf(k, s[j - 1]));
        }
      }
    } else {
      var t := Insert(k, x, s[1..]);
      InsertOrders(k, x, s[1..]);
      LeTotal(KeyOf(k, x), KeyOf(k, s[0]));
      forall j | 0 <= j < |t| ensures Le(KeyOf(k, s[0]), KeyOf(k, t[j])) {
        InsertMember(k, x, s[1..], j);
      }
    }
  }

  lemma InsertMember(k: SortKey, x: string, s: seq<string>, j: nat)
    requires j < |Insert(k, x, s)|
    ensures Insert(k, x, s)[j] == x || Insert(k, x, s)[j] in s
  {
    var t := Insert(k, x, s);
    InsertAdds(k, x, s);
    assert t[j] in multiset(t);
    assert t[j] == x || t[j] in multiset(s);
  }

  lemma {:induction false} InsertClass(k: SortKey, x: string, s: seq<string>, b: string)
    ensures WithKey(k, Insert(k, x, s), b) == (if KeyOf(k, x) == b then [x] else []) + WithKey(k, s, b)
  {
    if s == [] || Le(KeyOf(k, x), KeyOf(k, s[0])) {
      assert Insert(k, x, s)[1..] == s;
    } else {
      InsertClass(k, x, s[1..], b);
      LeReflexive(KeyOf(k, x));
    }
  }

  lemma {:induction false} LeReflexive(a: string)
    ensures Le(a, a)
  {
    if a != "" {
      LeReflexive(a[1..]);
    }
  }

  // Sorting orders the list, keeps every element, and keeps equal keys in order.
  lemma {:induction false} StableSortKeeps(k: SortKey, s: seq<string>)
    ensures Ordered(k, StableSort(k, s))
    ensures multiset(StableSort(k, s)) == multiset(s)
    ensures SameClasses(k, StableSort(k, s), s)
  {
    if s != [] {
      var t := StableSort(k, s[1..]);
      StableSortKeeps(k, s[1..]);
      InsertOrders(k, s[0], t);
      InsertAdds(k, s[0], t);
      assert s == [s[0]] + s[1..];
      forall b ensures WithKey(k, StableSort(k, s), b) == WithKey(k, s, b) {
        InsertClass(k, s[0], t, b);
      }
    }
  }

  lemma {:induction false} ClassMember(k: SortKey, s: seq<string>, b: string) returns (j: nat)
    requires WithKey(k, s, b) != []
    ensures j < |s| && KeyOf(k, s[j]) == b
  {
    if KeyOf(k, s[0]) == b {
      j := 0;
    } else {
      j := ClassMember(k, s[1..], b);
      j := j + 1;
    }
  }

  lemma LeastHead(k: SortKey, s: seq<string>, b: string)
    requires Ordered(k, s) && WithKey(k, s, b) != []
    ensures Le(KeyOf(k, s[0]), b)
  {
    var j := ClassMember(k, s, b);
    LeReflexive(b);
  }

  lemma HeadClass(k: SortKey, s: seq<string>)
    requires s != []
    ensures WithKey(k, s, KeyOf(k, s[0])) != [] && WithKey(k, s, KeyOf(k, s[0]))[0] == s[0]
  {
  }

  lemma SameFirst(k: SortKey, s: seq<string>, t: seq<string>)
    requires Ordered(k, s) && Ordered(k, t) && SameClasses(k, s, t) && s != []
    ensures t != [] && s[0] == t[0]
  {
    var b := KeyOf(k, s[0]);
    HeadClass(k, s);
    assert WithKey(k, s, b) == WithKey(k, t, b);
    LeastHead(k, t, b);
    HeadClass(k, t);
    var c := KeyOf(k, t[0]);
    assert WithKey(k, s, c) == WithKey(k, t, c);
    LeastHead(k, s, c);
    LeAntisymmetric(b, c);
  }

  lemma SameRest(k: SortKey, s: seq<string>, t: seq<string>)
    requires SameClasses(k, s, t) && s != [] && t != [] && s[0] == t[0]
    ensures SameClasses(k, s[1..], t[1..])
  {
    forall b ensures WithKey(k, s[1..], b) == WithKey(k, t[1..], b) {
      assert WithKey(k, s, b) == WithKey(k, t, b);
      SameRemainder(if KeyOf(k, s[0]) == b then [s[0]] else [], WithKey(k, s[1..], b), WithKey(k, t[1..], b));
    }
  }

  // Order and classes leave no choice: any stable sort gives this list.
  lemma {:induction false} StableOrderIsUnique(k: SortKey, s: seq<string>, t: seq<string>)
    requires Ordered(k, s) && Ordered(k, t) && SameClasses(k, s, t)
    ensures s == t
  {
    if s == [] {
      if t != [] {
        SameFirst(k, t, s);
      }
    } else {
      SameFirst(k, s, t);
      SameRest(k, s, t);
      StableOrderIsUnique(k, s[1..], t[1..]);
      assert s == [s[0]] + s[1..] && t == [t[0]] + t[1..];
    }
  }

  // ---- the library's stable sort, in place ----

  lemma {:induction false} WithKeyConcat(k: SortKey, s: seq<string>, t: seq<string>, b: string)
    ensures WithKey(k, s + t, b) == WithKey(k, s, b) + WithKey(k, t, b)
  {
    if s == [] {
      assert s + t == t;
    } else {
      assert (s + t)[1..] == s[1..] + t;
      WithKeyConcat(k, s[1..], t, b);
      Regroup(if KeyOf(k, s[0]) == b then [s[0]] else [], WithKey(k, s[1..], b), WithKey(k, t, b));
    }
  }

  lemma SwapKeepsClass(k: SortKey, x: string, y: string, b: string)
    requires KeyOf(k, x) != KeyOf(k, y)
    ensures WithKey(k, [x, y], b) == WithKey(k, [y, x], b)
  {
    assert [x, y][1..] == [y] && [y, x][1..] == [x];
  }

  lemma SwapKeepsClasses(k: SortKey, p: seq<string>, x: string, y: string, q: seq<string>)
    requires KeyOf(k, x) != KeyOf(k, y)
    ensures SameClasses(k, p + [x, y] + q, p + [y, x] + q)
  {
    var u, v := p + [x, y], p + [y, x];
    forall b ensures WithKey(k, u + q, b) == WithKey(k, v + q, b) {
      WithKeyConcat(k, u, q, b);
      WithKeyConcat(k, p, [x, y], b);
      WithKeyConcat(k, v, q, b);
      WithKeyConcat(k, p, [y, x], b);
      SwapKeepsClass(k, x, y, b);
    }
  }

  // The prefix below n is in order but for the element at j, which is less than
  // those after it.
  ghost predicate OrderedBut(k: SortKey, s: seq<string>, n: nat, j: nat)
    requires n <= |s|
  {
    && (forall p, q :: 0 <= p < q < n && p != j && q != j ==> Le(KeyOf(k, s[p]), KeyOf(k, s[q])))
    && (forall q :: j < q < n ==> Le(KeyOf(k, s[j]), KeyOf(k, s[q])))
  }

  lemma SwapDown(k: SortKey, s: seq<string>, n: nat, j: nat)
    requires 0 < j < n <= |s| && OrderedBut(k, s, n, j)
    requires !Le(KeyOf(k, s[j - 1]), KeyOf(k, s[j]))
    ensures var t := s[j - 1 := s[j]][j := s[j - 1]];
            OrderedBut(k, t, n, j - 1) && SameClasses(k, t, s)
  {
    var t := s[j - 1 := s[j]][j := s[j - 1]];
    LeTotal(KeyOf(k, s[j - 1]), KeyOf(k, s[j]));
    LeReflexive(KeyOf(k, s[j]));
    SwapKeepsClasses(k, s[..j - 1], s[j], s[j - 1], s[j + 1..]);
    assert s == s[..j - 1] + [s[j - 1], s[j]] + s[j + 1..];
    assert t == s[..j - 1] + [s[j], s[j - 1]] + s[j + 1..];
  }

  lemma Settled(k: SortKey, s: seq<string>, n: nat, j: nat)
    requires j < n <= |s| && OrderedBut(k, s, n, j)
    requires j > 0 ==> Le(KeyOf(k, s[j - 1]), KeyOf(k, s[j]))
    ensures Ordered(k, s[..n])
  {
    forall p | 0 <= p < j ensures Le(KeyOf(k, s[p]), KeyOf(k, s[j])) {
      if p < j - 1 {
        LeTransitive(KeyOf(k, s[p]), KeyOf(k, s[j - 1]), KeyOf(k, s[j]));
      }
    }
  }

  ghost predicate Sinking(k: SortKey, s: seq<string>, n: nat, j: nat, was: seq<string>) {
    n <= |s| && OrderedBut(k, s, n, j) && SameClasses(k, s, was)
  }

  lemma SinkStep(k: SortKey, s: seq<string>, t: seq<string>, n: nat, j: nat, was: seq<string>)
    requires 0 < j < n <= |s| && Sinking(k, s, n, j, was)
    requires !Le(KeyOf(k, s[j - 1]), KeyOf(k, s[j])) && t == s[j - 1 := s[j]][j := s[j - 1]]
    ensures Sinking(k, t, n, j - 1, was)
  {
    SwapDown(k, s, n, j);
  }

  method Swap(a: array<string>, j: nat)
    requires 0 < j < a.Length
    modifies a
    ensures a[..] == old(a[..])[j - 1 := old(a[j])][j := old(a[j - 1])]
  {
    a[j - 1], a[j] := a[j], a[j - 1];
  }

  // Moves the element at i down to its place.
  method Sink(k: SortKey, a: array<string>, i: nat)
    requires 0 < i < a.Length && Ordered(k, a[..i])
    modifies a
    ensures Ordered(k, a[..i + 1])
    ensures SameClasses(k, a[..], old(a[..]))
  {
    var j := i;
    while j > 0 && !Le(KeyOf(k, a[j - 1]), KeyOf(k, a[j]))
      invariant 0 <= j <= i < a.Length
      invariant Sinking(k, a[..], i + 1, j, old(a[..]))
    {
      ghost var s := a[..];
      Swap(a, j);
      SinkStep(k, s, a[..], i + 1, j, old(a[..]));
      j := j - 1;
    }
    Settled(k, a[..], i + 1, j);
    assert a[..][..i + 1] == a[..i + 1];
  }

  method SliceStable(k: SortKey, a: array<string>)
    modifies a
    ensures a[..] == StableSort(k, old(a[..]))
  {
    var i := 1;
    while i < a.Length
      invariant 1 <= i && (i <= a.Length || a.Length == 0)
      invariant i <= a.Length ==> Ordered(k, a[..i])
      invariant SameClasses(k, a[..], old(a[..]))
    {
      Sink(k, a, i);
      i := i + 1;
    }
    StableSortKeeps(k, old(a[..]));
    assert Ordered(k, a[..]) by {
      if a.Length > 0 {
        assert a[..i] == a[..];
      }
    }
    StableOrderIsUnique(k, a[..], StableSort(k, old(a[..])));
  }
}

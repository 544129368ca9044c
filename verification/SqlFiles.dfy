// Discovery of SQL files under the configured paths.
module SqlFiles {
  import opened Text
  import opened PathOrder

  // ---- the file system as far as discovery looks at it ----

  datatype Entry = Entry(name: string, isDir: bool)

  // A directory carries the text that joining puts before an entry's name.
  datatype Node = Absent | StatFails | File | ReadDirFails | Dir(prefix: string, entries: seq<Entry>)

  type FileSystem = map<string, Node>

  function Stat(fs: FileSystem, p: string): Node {
    if p in fs then fs[p] else Absent
  }

  predicate IsSql(name: string) {
    var low := ToLower(name);
    |low| >= 4 && low[|low| - 4..] == ".sql"
  }

  predicate Visible(e: Entry) {
    !("." <= e.name) && !e.isDir && IsSql(e.name)
  }

  function Listed(prefix: string, entries: seq<Entry>): seq<string> {
    if entries == [] then []
    else (if Visible(entries[0]) then [prefix + entries[0].name] else []) + Listed(prefix, entries[1..])
  }

  datatype Error = NotExist(path: string) | StatFailed(path: string) | ReadDirFailed(path: string)

  datatype Result = Collected(files: seq<string>, missing: seq<string>) | Failed(error: Error)

  function Problem(fs: FileSystem, p: string, strict: bool): Option<Error> {
    match Stat(fs, p)
    case Absent => if strict then Some(NotExist(p)) else None
    case StatFails => Some(StatFailed(p))
    case ReadDirFails => Some(ReadDirFailed(p))
    case _ => None
  }

  function FirstProblem(fs: FileSystem, paths: seq<string>, strict: bool): Option<Error> {
    if paths == [] then None
    else if Problem(fs, paths[0], strict).Some? then Problem(fs, paths[0], strict)
    else FirstProblem(fs, paths[1..], strict)
  }

  // What one path contributes, before the files of all paths are sorted.
  function Eligible(fs: FileSystem, p: string): seq<string> {
    match Stat(fs, p)
    case File => if IsSql(p) then [p] else []
    case Dir(prefix, entries) => StableSort(ByPath, Listed(prefix, entries))
    case _ => []
  }

  function AllEligible(fs: FileSystem, paths: seq<string>): seq<string> {
    if paths == [] then [] else Eligible(fs, paths[0]) + AllEligible(fs, paths[1..])
  }

  // The absent paths, in the caller's order.
  function AbsentPaths(fs: FileSystem, paths: seq<string>): seq<string> {
    if paths == [] then []
    else (if Stat(fs, paths[0]) == Absent then [paths[0]] else []) + AbsentPaths(fs, paths[1..])
  }

  function Collect(fs: FileSystem, paths: seq<string>, strict: bool): Result {
    match FirstProblem(fs, paths, strict)
    case Some(e) => Failed(e)
    case None => Collected(StableSort(ByBase, AllEligible(fs, paths)), AbsentPaths(fs, paths))
  }

  method Sorted(k: SortKey, s: seq<string>) returns (r: seq<string>)
    ensures r == StableSort(k, s)
  {
    var a := new string[|s|](i requires 0 <= i < |s| => s[i]);
    assert a[..] == s;
    SliceStable(k, a);
    r := a[..];
  }

  // What the first i paths gave, with what the others will give, is the whole.
  ghost predicate Gathered(fs: FileSystem, paths: seq<string>, strict: bool, i: nat, files: seq<string>,
                           missing: seq<string>) {
    && i <= |paths|
    && FirstProblem(fs, paths[i..], strict) == FirstProblem(fs, paths, strict)
    && files + AllEligible(fs, paths[i..]) == AllEligible(fs, paths)
    && missing + AbsentPaths(fs, paths[i..]) == AbsentPaths(fs, paths)
  }

  lemma GatherNone(fs: FileSystem, paths: seq<string>, strict: bool)
    ensures Gathered(fs, paths, strict, 0, [], [])
  {
    assert paths[0..] == paths;
  }

  lemma GatherOne(fs: FileSystem, paths: seq<string>, strict: bool, i: nat, files: seq<string>, missing: seq<string>)
    requires i < |paths| && Gathered(fs, paths, strict, i, files, missing)
    requires Problem(fs, paths[i], strict).None?
    ensures Gathered(fs, paths, strict, i + 1, files + Eligible(fs, paths[i]),
                     missing + if Stat(fs, paths[i]) == Absent then [paths[i]] else [])
  {
    var rest := paths[i..];
    assert rest[0] == paths[i] && rest[1..] == paths[i + 1..];
    Regroup(files, Eligible(fs, paths[i]), AllEligible(fs, rest[1..]));
    Regroup(missing, if Stat(fs, paths[i]) == Absent then [paths[i]] else [], AbsentPaths(fs, rest[1..]));
  }

  lemma GatherAll(fs: FileSystem, paths: seq<string>, strict: bool, files: seq<string>, missing: seq<string>)
    requires Gathered(fs, paths, strict, |paths|, files, missing)
    ensures Collect(fs, paths, strict) == Collected(StableSort(ByBase, files), missing)
  {
    assert files + [] == files && missing + [] == missing;
  }

  lemma GatherStops(fs: FileSystem, paths: seq<string>, strict: bool, i: nat, files: seq<string>, missing: seq<string>)
    requires i < |paths| && Gathered(fs, paths, strict, i, files, missing)
    requires Problem(fs, paths[i], strict).Some?
    ensures Collect(fs, paths, strict) == Failed(Problem(fs, paths[i], strict).value)
  {
  }

  method CollectSQLFiles(fs: FileSystem, paths: seq<string>, strict: bool) returns (r: Result)
    ensures r == Collect(fs, paths, strict)
  {
    var files, missing: seq<string> := [], [];
    var i := 0;
    GatherNone(fs, paths, strict);
    while i < |paths|
      invariant Gathered(fs, paths, strict, i, files, missing)
    {
      var p := paths[i];
      ghost var files', missing' := files, missing;
      if Problem(fs, p, strict).Some? {
        GatherStops(fs, paths, strict, i, files, missing);
      } else {
        GatherOne(fs, paths, strict, i, files, missing);
      }
      match Stat(fs, p) {
        case Absent =>
          if strict {
            return Failed(NotExist(p));
          }
          missing := missing + [p];
        case StatFails => return Failed(StatFailed(p));
        case File =>
          if IsSql(p) {
            files := files + [p];
          }
        case ReadDirFails => return Failed(ReadDirFailed(p));
        case Dir(prefix, entries) =>
          var local := ListDir(prefix, entries);
          local := Sorted(ByPath, local);
          files := files + local;
      }
      assert files == files' + Eligible(fs, p);
      assert missing == missing' + if Stat(fs, p) == Absent then [p] else [];
      i := i + 1;
    }
    GatherAll(fs, paths, strict, files, missing);
    files := Sorted(ByBase, files);
    r := Collected(files, missing);
  }

  lemma ListedNext(prefix: string, entries: seq<Entry>, i: nat, local: seq<string>)
    requires i < |entries|
    ensures local + Listed(prefix, entries[i..]) ==
            (if Visible(entries[i]) then local + [prefix + entries[i].name] else local) +
            Listed(prefix, entries[i + 1..])
  {
    assert entries[i..][1..] == entries[i + 1..];
    if Visible(entries[i]) {
      Regroup(local, [prefix + entries[i].name], Listed(prefix, entries[i + 1..]));
    } else {
      assert [] + Listed(prefix, entries[i + 1..]) == Listed(prefix, entries[i + 1..]);
    }
  }

  method ListDir(prefix: string, entries: seq<Entry>) returns (local: seq<string>)
    ensures local == Listed(prefix, entries)
  {
    local := [];
    var i := 0;
    while i < |entries|
      invariant 0 <= i <= |entries|
      invariant local + Listed(prefix, entries[i..]) == Listed(prefix, entries)
    {
      var e := entries[i];
      ListedNext(prefix, entries, i, local);
      if !("." <= e.name) && !e.isDir && IsSql(e.name) {
        local := local + [prefix + e.name];
      }
      i := i + 1;
    }
  }

  // ---- what a collection is ----

  // A name that ends in ".sql", in any case.
  predicate SqlSuffix(name: string) {
    && |name| >= 4 && name[|name| - 4] == '.'
    && name[|name| - 3] in {'s', 'S'} && name[|name| - 2] in {'q', 'Q'} && name[|name| - 1] in {'l', 'L'}
  }

  lemma SuffixIs(name: string)
    ensures IsSql(name) <==> SqlSuffix(name)
  {
    var low := ToLower(name);
    if |low| >= 4 {
      var end := low[|low| - 4..];
      assert end == [low[|low| - 4], low[|low| - 3], low[|low| - 2], low[|low| - 1]];
      assert end == ".sql" <==> end[0] == '.' && end[1] == 's' && end[2] == 'q' && end[3] == 'l';
    }
  }

  // What each kind of path gives by itself.
  lemma OnePath(fs: FileSystem, p: string, strict: bool)
    ensures var r := Collect(fs, [p], strict);
            match if p in fs then fs[p] else Absent
            case Absent => r == if strict then Failed(NotExist(p)) else Collected([], [p])
            case StatFails => r == Failed(StatFailed(p))
            case ReadDirFails => r == Failed(ReadDirFailed(p))
            case File => r == Collected(if SqlSuffix(p) then [p] else [], [])
            case Dir(_, _) => r.Collected? && r.missing == [] && multiset(r.files) == multiset(Eligible(fs, p))
  {
    SuffixIs(p);
    OneOnly(fs, p, strict);
    StableSortKeeps(ByBase, Eligible(fs, p));
    assert StableSort(ByBase, []) == [];
    assert [p][1..] == [] && StableSort(ByBase, [p]) == [p];
  }

  lemma OneOnly(fs: FileSystem, p: string, strict: bool)
    ensures FirstProblem(fs, [p], strict) == Problem(fs, p, strict)
    ensures AllEligible(fs, [p]) == Eligible(fs, p)
    ensures AbsentPaths(fs, [p]) == if Stat(fs, p) == Absent then [p] else []
  {
    assert [p][1..] == [] && [p][0] == p;
    assert FirstProblem(fs, [], strict) == None && AllEligible(fs, []) == [] && AbsentPaths(fs, []) == [];
    assert Eligible(fs, p) + [] == Eligible(fs, p);
  }

  lemma {:induction false} ProblemConcat(fs: FileSystem, p: seq<string>, q: seq<string>, strict: bool)
    ensures FirstProblem(fs, p + q, strict) ==
            if FirstProblem(fs, p, strict).Some? then FirstProblem(fs, p, strict) else FirstProblem(fs, q, strict)
    ensures AbsentPaths(fs, p + q) == AbsentPaths(fs, p) + AbsentPaths(fs, q)
  {
    if p == [] {
      assert p + q == q;
    } else {
      assert (p + q)[1..] == p[1..] + q;
      ProblemConcat(fs, p[1..], q, strict);
    }
  }

  // Of the paths in front and those behind: the first failure counts; without one, absent
  // paths and files of one last element come in that order, and no file is lost.
  lemma PathsInTurn(fs: FileSystem, p: seq<string>, q: seq<string>, strict: bool)
    ensures var r, a, b := Collect(fs, p + q, strict), Collect(fs, p, strict), Collect(fs, q, strict);
            if a.Failed? then r == a
            else if b.Failed? then r == b
            else
              && r.Collected? && r.missing == a.missing + b.missing
              && multiset(r.files) == multiset(a.files) + multiset(b.files)
              && forall x :: WithKey(ByBase, r.files, x) == WithKey(ByBase, a.files, x) + WithKey(ByBase, b.files, x)
  {
    ProblemConcat(fs, p, q, strict);
    EligibleConcat(fs, p, q);
    var a, b := AllEligible(fs, p), AllEligible(fs, q);
    StableSortKeeps(ByBase, a);
    StableSortKeeps(ByBase, b);
    StableSortKeeps(ByBase, a + b);
    forall x
      ensures WithKey(ByBase, StableSort(ByBase, a + b), x) ==
              WithKey(ByBase, StableSort(ByBase, a), x) + WithKey(ByBase, StableSort(ByBase, b), x)
    {
      assert WithKey(ByBase, StableSort(ByBase, a + b), x) == WithKey(ByBase, a + b, x);
      assert WithKey(ByBase, StableSort(ByBase, a), x) == WithKey(ByBase, a, x);
      assert WithKey(ByBase, StableSort(ByBase, b), x) == WithKey(ByBase, b, x);
      WithKeyConcat(ByBase, a, b, x);
    }
  }

  // It fails exactly when some path cannot be used.
  lemma {:induction false} FailsIffProblem(fs: FileSystem, paths: seq<string>, strict: bool)
    ensures Collect(fs, paths, strict).Failed? <==>
            exists p :: p in paths && (Stat(fs, p) in {StatFails, ReadDirFails} || (strict && Stat(fs, p) == Absent))
  {
    if paths != [] {
      FailsIffProblem(fs, paths[1..], strict);
      if Problem(fs, paths[0], strict).None? {
        forall i | 0 <= i < |paths|
          ensures Stat(fs, paths[i]) == if i == 0 then Stat(fs, paths[0]) else Stat(fs, paths[1..][i - 1])
        {
        }
      }
    }
  }

  // Sorted by last element, a permutation of the eligible files with multiplicity,
  // and with equal last elements in the order in which the paths gave them.
  lemma CollectedInOrder(fs: FileSystem, paths: seq<string>, strict: bool)
    requires Collect(fs, paths, strict).Collected?
    ensures var files := Collect(fs, paths, strict).files;
            && Ordered(ByBase, files)
            && (forall i, j :: 0 <= i < j < |files| ==> Le(Base(files[i]), Base(files[j])))
            && multiset(files) == multiset(AllEligible(fs, paths))
            && SameClasses(ByBase, files, AllEligible(fs, paths))
  {
    StableSortKeeps(ByBase, AllEligible(fs, paths));
  }

  lemma {:induction false} EligibleConcat(fs: FileSystem, p: seq<string>, q: seq<string>)
    ensures AllEligible(fs, p + q) == AllEligible(fs, p) + AllEligible(fs, q)
  {
    if p == [] {
      assert p + q == q;
    } else {
      assert (p + q)[1..] == p[1..] + q;
      EligibleConcat(fs, p[1..], q);
      Regroup(Eligible(fs, p[0]), AllEligible(fs, p[1..]), AllEligible(fs, q));
    }
  }

  // Files with one last element: those of earlier paths come first.
  lemma TiesFollowPaths(fs: FileSystem, p: seq<string>, q: seq<string>, strict: bool, b: string)
    requires Collect(fs, p + q, strict).Collected?
    ensures WithKey(ByBase, Collect(fs, p + q, strict).files, b) ==
            WithKey(ByBase, AllEligible(fs, p), b) + WithKey(ByBase, AllEligible(fs, q), b)
  {
    CollectedInOrder(fs, p + q, strict);
    EligibleConcat(fs, p, q);
    WithKeyConcat(ByBase, AllEligible(fs, p), AllEligible(fs, q), b);
  }

  // No other list meets that description.
  lemma CollectionIsUnique(fs: FileSystem, paths: seq<string>, strict: bool, files: seq<string>)
    requires Collect(fs, paths, strict).Collected?
    ensures files == Collect(fs, paths, strict).files <==>
            Ordered(ByBase, files) && SameClasses(ByBase, files, AllEligible(fs, paths))
  {
    CollectedInOrder(fs, paths, strict);
    if Ordered(ByBase, files) && SameClasses(ByBase, files, AllEligible(fs, paths)) {
      StableOrderIsUnique(ByBase, files, Collect(fs, paths, strict).files);
    }
  }

  lemma {:induction false} ListedMember(prefix: string, entries: seq<Entry>, f: string)
    ensures f in Listed(prefix, entries) <==> exists e :: e in entries && Visible(e) && f == prefix + e.name
  {
    if entries != [] {
      ListedMember(prefix, entries[1..], f);
      assert entries == [entries[0]] + entries[1..];
    }
  }

  // An entry that is no directory, not hidden, and ends in ".sql".
  predicate SqlEntry(e: Entry) {
    !e.isDir && (e.name == "" || e.name[0] != '.') && SqlSuffix(e.name)
  }

  lemma VisibleIs(e: Entry)
    ensures Visible(e) <==> SqlEntry(e)
  {
    SuffixIs(e.name);
    assert "." <= e.name <==> e.name != "" && e.name[0] == '.';
  }

  // The same file is listed once if its entry is.
  lemma {:induction false} ListedOnce(prefix: string, entries: seq<Entry>, f: string)
    requires NoRepeats(entries)
    ensures multiset(Listed(prefix, entries))[f] <= 1
  {
    if entries != [] {
      var e, rest := entries[0], entries[1..];
      assert entries == [e] + rest;
      NoRepeatsCons(e, rest);
      ListedOnce(prefix, rest, f);
      ListedMember(prefix, rest, f);
      if Visible(e) && prefix + e.name == f && f in Listed(prefix, rest) {
        var x :| x in rest && Visible(x) && f == prefix + x.name;
        SameRemainder(prefix, e.name, x.name);
      }
    }
  }

  // A directory contributes its visible SQL entries and nothing else, each once.
  lemma DirectoryFiles(fs: FileSystem, p: string, f: string)
    requires Stat(fs, p).Dir?
    ensures var Dir(prefix, entries) := Stat(fs, p);
            && (f in Eligible(fs, p) <==> exists e :: e in entries && SqlEntry(e) && f == prefix + e.name)
            && (NoRepeats(entries) ==> multiset(Eligible(fs, p))[f] <= 1)
  {
    var Dir(prefix, entries) := Stat(fs, p);
    StableSortKeeps(ByPath, Listed(prefix, entries));
    SameMembers(StableSort(ByPath, Listed(prefix, entries)), Listed(prefix, entries), f);
    ListedMember(prefix, entries, f);
    forall e: Entry ensures Visible(e) <==> SqlEntry(e) {
      VisibleIs(e);
    }
    if NoRepeats(entries) {
      ListedOnce(prefix, entries, f);
    }
  }

  lemma SameMembers(s: seq<string>, t: seq<string>, f: string)
    requires multiset(s) == multiset(t)
    ensures f in s <==> f in t
  {
    assert f in s <==> f in multiset(s);
    assert f in t <==> f in multiset(t);
  }

  // ---- the order of directory entries does not matter ----

  predicate SameEntries(d: Node, e: Node) {
    d == e || (d.Dir? && e.Dir? && d.prefix == e.prefix && multiset(d.entries) == multiset(e.entries))
  }

  ghost predicate SameButEntryOrder(fs: FileSystem, gs: FileSystem) {
    forall p :: SameEntries(Stat(fs, p), Stat(gs, p))
  }

  lemma {:induction false} ListedConcat(prefix: string, a: seq<Entry>, b: seq<Entry>)
    ensures Listed(prefix, a + b) == Listed(prefix, a) + Listed(prefix, b)
  {
    if a == [] {
      assert a + b == b;
    } else {
      assert (a + b)[1..] == a[1..] + b;
      ListedConcat(prefix, a[1..], b);
      Regroup(if Visible(a[0]) then [prefix + a[0].name] else [], Listed(prefix, a[1..]), Listed(prefix, b));
    }
  }

  lemma ListedMove(prefix: string, u: seq<Entry>, x: Entry, v: seq<Entry>)
    ensures multiset(Listed(prefix, u + [x] + v)) == multiset(Listed(prefix, [x])) + multiset(Listed(prefix, u + v))
  {
    ListedConcat(prefix, u, v);
    ListedConcat(prefix, u + [x], v);
    ListedConcat(prefix, u, [x]);
  }

  lemma ListedFirst(prefix: string, a: seq<Entry>)
    requires a != []
    ensures multiset(Listed(prefix, a)) == multiset(Listed(prefix, [a[0]])) + multiset(Listed(prefix, a[1..]))
  {
    ListedConcat(prefix, [a[0]], a[1..]);
    assert a == [a[0]] + a[1..];
  }

  // The entry at i taken out: the two parts around it hold all the others.
  lemma TakeOut(a: seq<Entry>, b: seq<Entry>, i: nat) returns (u: seq<Entry>, v: seq<Entry>)
    requires a != [] && i < |b| && b[i] == a[0] && multiset(a) == multiset(b)
    ensures b == u + [a[0]] + v && multiset(a[1..]) == multiset(u + v)
  {
    u, v := b[..i], b[i + 1..];
    assert b == u + [a[0]] + v;
    assert a == [a[0]] + a[1..];
    Cancel(a[0], multiset(a[1..]), multiset(u), multiset(v));
  }

  lemma Cancel(x: Entry, a: multiset<Entry>, u: multiset<Entry>, v: multiset<Entry>)
    requires multiset{x} + a == u + multiset{x} + v
    ensures a == u + v
  {
    assert a == multiset{x} + a - multiset{x};
    assert u + v == u + multiset{x} + v - multiset{x};
  }

  lemma {:induction false} ListedPermuted(prefix: string, a: seq<Entry>, b: seq<Entry>)
    requires multiset(a) == multiset(b)
    ensures multiset(Listed(prefix, a)) == multiset(Listed(prefix, b))
  {
    if a == [] {
      assert |multiset(b)| == 0;
    } else {
      assert a[0] in multiset(b);
      var i :| 0 <= i < |b| && b[i] == a[0];
      var u, v := TakeOut(a, b, i);
      ListedPermuted(prefix, a[1..], u + v);
      ListedFirst(prefix, a);
      ListedMove(prefix, u, a[0], v);
    }
  }

  lemma {:induction false} PathClass(s: seq<string>, b: string)
    ensures WithKey(ByPath, s, b) == seq(multiset(s)[b], _ => b)
  {
    if s != [] {
      PathClass(s[1..], b);
      assert s == [s[0]] + s[1..];
    }
  }

  lemma SortedPermutations(s: seq<string>, t: seq<string>)
    requires multiset(s) == multiset(t)
    ensures StableSort(ByPath, s) == StableSort(ByPath, t)
  {
    StableSortKeeps(ByPath, s);
    StableSortKeeps(ByPath, t);
    forall b ensures WithKey(ByPath, s, b) == WithKey(ByPath, t, b) {
      PathClass(s, b);
      PathClass(t, b);
    }
    StableOrderIsUnique(ByPath, StableSort(ByPath, s), StableSort(ByPath, t));
  }

  lemma {:induction false} EntryOrderIrrelevant(fs: FileSystem, gs: FileSystem, paths: seq<string>, strict: bool)
    requires SameButEntryOrder(fs, gs)
    ensures Collect(fs, paths, strict) == Collect(gs, paths, strict)
    ensures AllEligible(fs, paths) == AllEligible(gs, paths)
  {
    if paths != [] {
      EntryOrderIrrelevant(fs, gs, paths[1..], strict);
      OneDirectory(fs, gs, paths[0], strict);
    }
  }

  lemma OneDirectory(fs: FileSystem, gs: FileSystem, p: string, strict: bool)
    requires SameButEntryOrder(fs, gs)
    ensures Eligible(fs, p) == Eligible(gs, p) && Problem(fs, p, strict) == Problem(gs, p, strict)
    ensures Stat(fs, p) == Absent <==> Stat(gs, p) == Absent
  {
    var d, e := Stat(fs, p), Stat(gs, p);
    assert SameEntries(d, e);
    if d != e {
      SameListing(d.prefix, d.entries, e.entries);
    }
  }

  lemma SameListing(prefix: string, a: seq<Entry>, b: seq<Entry>)
    requires multiset(a) == multiset(b)
    ensures StableSort(ByPath, Listed(prefix, a)) == StableSort(ByPath, Listed(prefix, b))
  {
    ListedPermuted(prefix, a, b);
    SortedPermutations(Listed(prefix, a), Listed(prefix, b));
  }

  // ---- the sort key of a directory entry is its name ----

  lemma {:induction false} AfterSlash(prefix: string, name: string)
    requires Free(name, '/')
    requires prefix == "" || prefix[|prefix| - 1] == '/'
    ensures AfterLastSlash(prefix + name) == name
  {
    var s := prefix + name;
    if prefix == "" {
      assert s == name;
    } else {
      assert s[|prefix| - 1] == '/';
      assert s[1..] == prefix[1..] + name;
      AfterSlash(prefix[1..], name);
    }
  }

  lemma BaseOfEntry(prefix: string, name: string)
    requires name != "" && Free(name, '/')
    requires prefix == "" || prefix[|prefix| - 1] == '/'
    ensures Base(prefix + name) == name
  {
    AfterSlash(prefix, name);
    assert (prefix + name)[|prefix + name| - 1] == name[|name| - 1];
  }
}

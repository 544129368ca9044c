// Running the collected ClickHouse files, statement by statement, per instance.
module Migration {
  import opened Text
  import opened Utf8
  import opened SqlSplit
  import opened SqlFiles

  type Statement = seq<byte>

  datatype Stage = ReadFile | Open | Ping | Exec

  datatype Failure =
    | CollectFailed(instance: string, error: Error)
    | FileFailed(instance: string, file: string, stage: Stage)

  // One configured instance: migration or seed paths and whether to apply them.
  datatype Config = Config(apply: bool, paths: seq<string>, strict: bool)

  // The files on disk: what discovery sees, and the text of the readable ones.
  datatype Disk = Disk(fs: FileSystem, text: map<string, string>)

  function ScriptOf(disk: Disk, file: string): seq<Statement> {
    if file in disk.text then EncodeAll(Statements(disk.text[file])) else []
  }

  function ScriptsOf(disk: Disk, files: seq<string>): seq<Statement> {
    if files == [] then [] else ScriptOf(disk, files[0]) + ScriptsOf(disk, files[1..])
  }

  predicate Active(cfgs: map<string, Config>, started: set<string>, n: string) {
    n in cfgs && cfgs[n].apply && cfgs[n].paths != [] && n in started
  }

  function FilesOf(disk: Disk, cfg: Config): seq<string> {
    match Collect(disk.fs, cfg.paths, cfg.strict)
    case Collected(files, _) => files
    case Failed(_) => []
  }

  // All statements of the instance: its files in order, each split.
  function Plan(disk: Disk, cfgs: map<string, Config>, started: set<string>, n: string): seq<Statement> {
    if Active(cfgs, started, n) then ScriptsOf(disk, FilesOf(disk, cfgs[n])) else []
  }

  lemma {:induction false} ScriptsConcat(disk: Disk, a: seq<string>, b: seq<string>)
    ensures ScriptsOf(disk, a + b) == ScriptsOf(disk, a) + ScriptsOf(disk, b)
  {
    if a == [] {
      assert a + b == b;
    } else {
      assert (a + b)[1..] == a[1..] + b;
      ScriptsConcat(disk, a[1..], b);
    }
  }

  // The log grew by a beginning of what was to do, by all of it if so claimed.
  ghost predicate Ran(before: seq<Statement>, after: seq<Statement>, todo: seq<Statement>, all: bool) {
    && before <= after <= before + todo
    && (all ==> after == before + todo)
  }

  predicate Readable(disk: Disk, files: seq<string>) {
    forall f :: f in files ==> f in disk.text
  }

  // The instance has nothing to apply, or its files can all be found and read.
  predicate Usable(disk: Disk, cfgs: map<string, Config>, started: set<string>, n: string) {
    Active(cfgs, started, n) ==>
      && Collect(disk.fs, cfgs[n].paths, cfgs[n].strict).Collected?
      && Readable(disk, FilesOf(disk, cfgs[n]))
  }

  // The first i keys of the order are done, the others are not.
  ghost predicate Visited(order: seq<string>, i: nat, done: set<string>) {
    forall k :: 0 <= k < |order| ==> (order[k] in done <==> k < i)
  }

  lemma VisitNext(order: seq<string>, i: nat, done: set<string>, keys: set<string>)
    requires IsOrderOf(order, keys) && i < |order| && Visited(order, i, done)
    ensures order[i] in keys && order[i] !in done && Visited(order, i + 1, done + {order[i]})
  {
    assert order[i] in order;
  }

  lemma PrefixRan(base: seq<Statement>, stmts: seq<Statement>, i: nat)
    requires i <= |stmts|
    ensures Ran(base, base + stmts[..i], stmts, false)
    ensures i < |stmts| ==> base + stmts[..i] + [stmts[i]] == base + stmts[..i + 1] && base + stmts[..i] != base + stmts
  {
    if i < |stmts| {
      assert |base + stmts[..i]| < |base + stmts|;
    }
  }

  lemma ScriptsNext(disk: Disk, files: seq<string>, k: nat)
    requires k < |files|
    ensures ScriptsOf(disk, files[..k + 1]) == ScriptsOf(disk, files[..k]) + ScriptOf(disk, files[k])
  {
    ScriptsConcat(disk, files[..k], [files[k]]);
    assert files[..k + 1] == files[..k] + [files[k]];
    assert ScriptsOf(disk, [files[k]]) == ScriptOf(disk, files[k]) + [];
  }

  lemma ScriptsPrefix(disk: Disk, files: seq<string>, k: nat)
    requires k <= |files|
    ensures ScriptsOf(disk, files[..k]) <= ScriptsOf(disk, files)
  {
    ScriptsConcat(disk, files[..k], files[k..]);
    assert files == files[..k] + files[k..];
  }

  // The first k files have been read and run to their end, and nothing else.
  ghost predicate RanFiles(disk: Disk, files: seq<string>, k: nat, base: seq<Statement>, log: seq<Statement>)
    requires k <= |files|
  {
    Readable(disk, files[..k]) && log == base + ScriptsOf(disk, files[..k])
  }

  // One file more, run to its end or not.
  lemma {:induction false} RanOneMore(disk: Disk, files: seq<string>, k: nat, base: seq<Statement>, mid: seq<Statement>,
                   after: seq<Statement>, all: bool)
    requires k < |files| && RanFiles(disk, files, k, base, mid)
    requires Ran(mid, after, ScriptOf(disk, files[k]), all)
    ensures Ran(base, after, ScriptsOf(disk, files), false)
    ensures all && files[k] in disk.text ==> RanFiles(disk, files, k + 1, base, after)
  {
    ScriptsNext(disk, files, k);
    ScriptsPrefix(disk, files, k + 1);
    Within(base, ScriptsOf(disk, files[..k]), ScriptOf(disk, files[k]), after, ScriptsOf(disk, files));
  }

  lemma RanAllFiles(disk: Disk, files: seq<string>, base: seq<Statement>, log: seq<Statement>)
    requires RanFiles(disk, files, |files|, base, log)
    ensures Ran(base, log, ScriptsOf(disk, files), true) && Readable(disk, files)
  {
    assert files[..|files|] == files;
  }

  lemma Within(a: seq<Statement>, b: seq<Statement>, c: seq<Statement>, after: seq<Statement>, all: seq<Statement>)
    requires b + c <= all
    requires a + b <= after <= a + b + c
    ensures a <= after <= a + all
    ensures a + b + c == a + (b + c)
  {
  }

  lemma RanShort(before: seq<Statement>, after: seq<Statement>, p: seq<Statement>, q: seq<Statement>)
    requires Ran(before, after, p, false)
    ensures Ran(before, after, p + q, false)
  {
    assert before + (p + q) == before + p + q;
  }

  lemma RanAfter(before: seq<Statement>, p: seq<Statement>, mid: seq<Statement>, q: seq<Statement>,
                 after: seq<Statement>, all: bool)
    requires Ran(before, mid, p, true) && Ran(mid, after, q, all)
    ensures Ran(before, after, p + q, all)
  {
    assert before + (p + q) == before + p + q;
  }

  // ---- what was executed, file by file ----

  // The log grew by the statements of these files: between two cuts lies one file's script.
  ghost predicate CutInto(cuts: seq<nat>, before: seq<Statement>, after: seq<Statement>, text: map<string, string>,
                          files: seq<string>) {
    && before <= after
    && |cuts| == |files| + 1 && cuts[0] == |before| && cuts[|files|] == |after|
    && forall k :: 0 <= k < |files| ==> ScriptBetween(after, cuts[k], cuts[k + 1], text, files[k])
  }

  predicate ScriptBetween(log: seq<Statement>, lo: nat, hi: nat, text: map<string, string>, f: string) {
    f in text && lo <= hi <= |log| && log[lo..hi] == EncodeAll(Statements(text[f]))
  }

  ghost predicate InFileOrder(before: seq<Statement>, after: seq<Statement>, text: map<string, string>,
                              files: seq<string>) {
    exists cuts: seq<nat> :: CutInto(cuts, before, after, text, files)
  }

  // All files before f were executed, and f itself in part, or not at all if it is unreadable.
  ghost predicate StoppedIn(before: seq<Statement>, after: seq<Statement>, text: map<string, string>,
                            files: seq<string>, f: string) {
    exists k, mid :: 0 <= k < |files| && files[k] == f && StoppedAt(before, mid, after, text, files, k)
  }

  ghost predicate StoppedAt(before: seq<Statement>, mid: seq<Statement>, after: seq<Statement>,
                            text: map<string, string>, files: seq<string>, k: nat)
    requires k < |files|
  {
    && InFileOrder(before, mid, text, files[..k])
    && mid <= after <= mid + if files[k] in text then EncodeAll(Statements(text[files[k]])) else []
  }

  lemma NothingYet(log: seq<Statement>, text: map<string, string>)
    ensures InFileOrder(log, log, text, [])
  {
    assert CutInto([|log|], log, log, text, []);
  }

  lemma StillBetween(log: seq<Statement>, more: seq<Statement>, lo: nat, hi: nat, text: map<string, string>, f: string)
    requires ScriptBetween(log, lo, hi, text, f)
    ensures ScriptBetween(log + more, lo, hi, text, f)
  {
    assert (log + more)[lo..hi] == log[lo..hi];
  }

  lemma OneFileMore(before: seq<Statement>, mid: seq<Statement>, text: map<string, string>, files: seq<string>,
                    f: string)
    requires InFileOrder(before, mid, text, files) && f in text
    ensures InFileOrder(before, mid + EncodeAll(Statements(text[f])), text, files + [f])
  {
    var cuts: seq<nat> :| CutInto(cuts, before, mid, text, files);
    var script := EncodeAll(Statements(text[f]));
    var after := mid + script;
    var more: seq<nat> := cuts + [|after|];
    forall k | 0 <= k < |files| ensures ScriptBetween(after, cuts[k], cuts[k + 1], text, files[k]) {
      StillBetween(mid, script, cuts[k], cuts[k + 1], text, files[k]);
    }
    assert after[|mid|..|after|] == script;
    assert CutInto(more, before, after, text, files + [f]);
  }

  // The first k files are done.
  ghost predicate FilesDone(disk: Disk, files: seq<string>, k: nat, base: seq<Statement>, log: seq<Statement>) {
    k <= |files| && RanFiles(disk, files, k, base, log) && InFileOrder(base, log, disk.text, files[..k])
  }

  lemma FilesStart(disk: Disk, files: seq<string>, base: seq<Statement>)
    ensures FilesDone(disk, files, 0, base, base)
  {
    NothingYet(base, disk.text);
    assert base + [] == base;
  }

  lemma StopsInFile(disk: Disk, files: seq<string>, k: nat, base: seq<Statement>, mid: seq<Statement>,
                    after: seq<Statement>)
    requires k < |files| && InFileOrder(base, mid, disk.text, files[..k])
    requires mid <= after <= mid + ScriptOf(disk, files[k])
    ensures StoppedIn(base, after, disk.text, files, files[k])
  {
    assert StoppedAt(base, mid, after, disk.text, files, k);
  }

  lemma FileEnds(disk: Disk, files: seq<string>, k: nat, base: seq<Statement>, mid: seq<Statement>,
                 after: seq<Statement>)
    requires k < |files| && InFileOrder(base, mid, disk.text, files[..k])
    requires files[k] in disk.text && after == mid + ScriptOf(disk, files[k])
    ensures InFileOrder(base, after, disk.text, files[..k + 1])
  {
    OneFileMore(base, mid, disk.text, files[..k], files[k]);
    assert files[..k + 1] == files[..k] + [files[k]];
  }

  lemma NextFile(disk: Disk, files: seq<string>, k: nat, base: seq<Statement>, mid: seq<Statement>,
                 after: seq<Statement>, all: bool)
    requires k < |files| && FilesDone(disk, files, k, base, mid)
    requires Ran(mid, after, ScriptOf(disk, files[k]), all)
    ensures Ran(base, after, ScriptsOf(disk, files), false)
    ensures StoppedIn(base, after, disk.text, files, files[k])
    ensures all && files[k] in disk.text ==> FilesDone(disk, files, k + 1, base, after)
  {
    RanOneMore(disk, files, k, base, mid, after, all);
    StopsInFile(disk, files, k, base, mid, after);
    if all && files[k] in disk.text {
      FileEnds(disk, files, k, base, mid, after);
    }
  }

  lemma FilesEnd(disk: Disk, files: seq<string>, base: seq<Statement>, log: seq<Statement>)
    requires FilesDone(disk, files, |files|, base, log)
    ensures Ran(base, log, ScriptsOf(disk, files), true) && Readable(disk, files)
    ensures InFileOrder(base, log, disk.text, files)
  {
    RanAllFiles(disk, files, base, log);
    assert files[..|files|] == files;
  }

  // What came of one instance: it has nothing to apply if it did not ask for it, has no
  // paths, or was not started.
  ghost predicate Outcome(disk: Disk, cfgs: map<string, Config>, started: set<string>, n: string, err: Option<Failure>,
                          before: seq<Statement>, after: seq<Statement>)
  {
    if !(n in cfgs && cfgs[n].apply && |cfgs[n].paths| > 0 && n in started) then err.None? && after == before
    else
      match Collect(disk.fs, cfgs[n].paths, cfgs[n].strict)
      case Failed(e) => err == Some(CollectFailed(n, e)) && after == before
      case Collected(files, _) =>
        match err
        case None => InFileOrder(before, after, disk.text, files)
        case Some(f) => f.FileFailed? && f.instance == n && StoppedIn(before, after, disk.text, files, f.file)
  }

  // With a failure, the other instances are done whole or not at all.
  ghost predicate Progress(disk: Disk, cfgs: map<string, Config>, started: set<string>, n: string, err: Option<Failure>,
                           before: seq<Statement>, after: seq<Statement>)
  {
    if err.Some? && err.value.instance != n
    then after == before || Outcome(disk, cfgs, started, n, None, before, after)
    else Outcome(disk, cfgs, started, n, err, before, after)
  }

  // What each server has executed, in order.
  type Logs = map<string, seq<Statement>>

  function LogOf(logs: Logs, n: string): seq<Statement> {
    if n in logs then logs[n] else []
  }

  // Only the log of n changed.
  ghost predicate OnlyLogOf(n: string, before: Logs, after: Logs) {
    forall m :: m != n ==> LogOf(after, m) == LogOf(before, m)
  }

  // An instance in done was applied whole, any other not at all.
  ghost predicate AppliedAt(disk: Disk, cfgs: map<string, Config>, started: set<string>, done: set<string>, n: string,
                            before: Logs, after: Logs)
  {
    if n in done
    then Ran(LogOf(before, n), LogOf(after, n), Plan(disk, cfgs, started, n), true) && Usable(disk, cfgs, started, n)
    else LogOf(after, n) == LogOf(before, n)
  }

  ghost predicate Applied(disk: Disk, cfgs: map<string, Config>, started: set<string>, done: set<string>,
                          before: Logs, after: Logs) {
    forall n :: AppliedAt(disk, cfgs, started, done, n, before, after)
  }

  ghost predicate AllProgress(disk: Disk, cfgs: map<string, Config>, started: set<string>, err: Option<Failure>,
                              before: Logs, after: Logs) {
    forall n :: Progress(disk, cfgs, started, n, err, LogOf(before, n), LogOf(after, n))
  }

  ghost predicate DoneSoFar(disk: Disk, cfgs: map<string, Config>, started: set<string>, done: set<string>,
                            before: Logs, after: Logs) {
    forall n ::
      if n in done then Outcome(disk, cfgs, started, n, None, LogOf(before, n), LogOf(after, n))
      else LogOf(after, n) == LogOf(before, n)
  }

  lemma OneInstanceMore(disk: Disk, cfgs: map<string, Config>, started: set<string>, done: set<string>, n: string,
                        err: Option<Failure>, before: Logs, mid: Logs, after: Logs)
    requires n !in done && DoneSoFar(disk, cfgs, started, done, before, mid) && OnlyLogOf(n, mid, after)
    requires Outcome(disk, cfgs, started, n, err, LogOf(mid, n), LogOf(after, n))
    ensures err.None? ==> DoneSoFar(disk, cfgs, started, done + {n}, before, after)
    ensures err.Some? && err.value.instance == n ==> AllProgress(disk, cfgs, started, err, before, after)
  {
    forall m ensures m != n ==> LogOf(after, m) == LogOf(mid, m) {
    }
    assert LogOf(mid, n) == LogOf(before, n);
  }

  lemma AllInstances(disk: Disk, cfgs: map<string, Config>, started: set<string>, done: set<string>, order: seq<string>,
                     before: Logs, after: Logs)
    requires IsOrderOf(order, cfgs.Keys) && Visited(order, |order|, done)
    requires DoneSoFar(disk, cfgs, started, done, before, after)
    ensures AllProgress(disk, cfgs, started, None, before, after)
  {
    forall n ensures Progress(disk, cfgs, started, n, None, LogOf(before, n), LogOf(after, n)) {
      assert n in cfgs ==> n in order;
    }
  }

  // One instance more, and what that leaves every instance m with.
  lemma AppliedAtNext(disk: Disk, cfgs: map<string, Config>, started: set<string>, done: set<string>, n: string,
                      before: Logs, mid: Logs, after: Logs, all: bool, m: string)
    requires n !in done && AppliedAt(disk, cfgs, started, done, m, before, mid)
    requires if m == n then Ran(LogOf(mid, n), LogOf(after, n), Plan(disk, cfgs, started, n), all)
             else LogOf(after, m) == LogOf(mid, m)
    ensures all && Usable(disk, cfgs, started, n) ==> AppliedAt(disk, cfgs, started, done + {n}, m, before, after)
    ensures Ran(LogOf(before, m), LogOf(after, m), Plan(disk, cfgs, started, m), false)
  {
  }

  lemma AppliedOneMore(disk: Disk, cfgs: map<string, Config>, started: set<string>, done: set<string>, n: string,
                       before: Logs, mid: Logs, after: Logs, all: bool)
    requires n !in done && Applied(disk, cfgs, started, done, before, mid)
    requires OnlyLogOf(n, mid, after)
    requires Ran(LogOf(mid, n), LogOf(after, n), Plan(disk, cfgs, started, n), all)
    ensures all && Usable(disk, cfgs, started, n) ==> Applied(disk, cfgs, started, done + {n}, before, after)
    ensures forall m :: Ran(LogOf(before, m), LogOf(after, m), Plan(disk, cfgs, started, m), false)
  {
    forall m
      ensures all && Usable(disk, cfgs, started, n) ==> AppliedAt(disk, cfgs, started, done + {n}, m, before, after)
      ensures Ran(LogOf(before, m), LogOf(after, m), Plan(disk, cfgs, started, m), false)
    {
      AppliedAtNext(disk, cfgs, started, done, n, before, mid, after, all, m);
    }
  }

  lemma AppliedAll(disk: Disk, cfgs: map<string, Config>, started: set<string>, done: set<string>, order: seq<string>,
                   before: Logs, after: Logs)
    requires IsOrderOf(order, cfgs.Keys) && Visited(order, |order|, done)
    requires Applied(disk, cfgs, started, done, before, after)
    ensures forall n :: Ran(LogOf(before, n), LogOf(after, n), Plan(disk, cfgs, started, n), true)
    ensures forall n :: Usable(disk, cfgs, started, n)
  {
    forall n
      ensures Ran(LogOf(before, n), LogOf(after, n), Plan(disk, cfgs, started, n), true)
      ensures Usable(disk, cfgs, started, n)
    {
      assert AppliedAt(disk, cfgs, started, done, n, before, after);
      assert n in cfgs ==> n in order;
      assert n !in cfgs ==> Plan(disk, cfgs, started, n) == [];
    }
  }

  // The database servers of the stack: any call to one of them may fail, and each
  // server remembers the statements it has executed.
  class Servers {
    const fails: nat -> bool
    var calls: nat
    var logs: Logs
    ghost var failures: nat  // how many calls have failed

    constructor (fails: nat -> bool)
      ensures this.fails == fails && calls == 0 && logs == map[] && failures == 0
    {
      this.fails := fails;
      calls, logs, failures := 0, map[], 0;
    }

    method Call() returns (ok: bool)
      modifies this`calls, this`failures
      ensures calls == old(calls) + 1 && ok == !fails(old(calls))
      ensures failures == old(failures) + if ok then 0 else 1
    {
      ok := !fails(calls);
      calls := calls + 1;
      failures := failures + if ok then 0 else 1;
    }

    method Execute(n: string, stmt: Statement) returns (ok: bool)
      modifies this
      ensures failures == old(failures) + if ok then 0 else 1
      ensures calls == old(calls) + 1 && ok == !fails(old(calls))
      ensures logs == if ok then old(logs)[n := LogOf(old(logs), n) + [stmt]] else old(logs)
    {
      ok := Call();
      if ok {
        logs := logs[n := LogOf(logs, n) + [stmt]];
      }
    }

    // Opens, pings, and executes the statements of the script until one fails.
    method ExecClickHouseFile(n: string, script: string) returns (err: Option<Stage>)
      modifies this
      ensures Ran(LogOf(old(logs), n), LogOf(logs, n), EncodeAll(Statements(script)), err.None?)
      ensures err == Some(Exec) ==> LogOf(logs, n) != LogOf(old(logs), n) + EncodeAll(Statements(script))
      ensures err in {Some(Open), Some(Ping)} ==> LogOf(logs, n) == LogOf(old(logs), n)
      ensures OnlyLogOf(n, old(logs), logs)
      ensures err != Some(ReadFile)
      ensures failures == old(failures) + if err.None? then 0 else 1
      ensures StageOf(err, old(calls), LogOf(old(logs), n), LogOf(logs, n), EncodeAll(Statements(script)))
    {
      var ok := Call();
      if !ok {
        return Some(Open);
      }
      ok := Call();
      if !ok {
        return Some(Ping);
      }
      var stmts := SplitSQL(script);
      ok := ExecAll(n, stmts);
      err := if ok then None else Some(Exec);
    }

    // The number of the last call tells the stage: the first call opens, the second pings,
    // each further one executes the next statement.
    ghost predicate StageOf(err: Option<Stage>, first: nat, before: seq<Statement>, after: seq<Statement>,
                            stmts: seq<Statement>)
      reads this`calls
    {
      match err
      case None => calls == first + 2 + |stmts| && after == before + stmts
      case Some(Open) => calls == first + 1 && fails(first) && after == before
      case Some(Ping) => calls == first + 2 && fails(first + 1) && after == before
      case Some(Exec) =>
        first + 3 <= calls <= first + 2 + |stmts| && fails(calls - 1) && after == before + stmts[..calls - first - 3]
      case Some(ReadFile) => false
    }

    method ExecAll(n: string, stmts: seq<Statement>) returns (ok: bool)
      modifies this
      ensures ok ==> calls == old(calls) + |stmts|
      ensures !ok ==> old(calls) < calls <= old(calls) + |stmts| && fails(calls - 1)
      ensures !ok ==> LogOf(logs, n) == LogOf(old(logs), n) + stmts[..calls - old(calls) - 1]
      ensures Ran(LogOf(old(logs), n), LogOf(logs, n), stmts, ok)
      ensures !ok ==> LogOf(logs, n) != LogOf(old(logs), n) + stmts
      ensures OnlyLogOf(n, old(logs), logs)
      ensures failures == old(failures) + if ok then 0 else 1
    {
      ghost var base := LogOf(logs, n);
      var i := 0;
      while i < |stmts|
        invariant 0 <= i <= |stmts|
        invariant LogOf(logs, n) == base + stmts[..i] && calls == old(calls) + i
        invariant OnlyLogOf(n, old(logs), logs)
        invariant failures == old(failures)
      {
        PrefixRan(base, stmts, i);
        ok := Execute(n, stmts[i]);
        if !ok {
          return;
        }
        i := i + 1;
      }
      assert stmts[..i] == stmts;
      ok := true;
    }

    method ExecFile(disk: Disk, n: string, file: string) returns (err: Option<Stage>)
      modifies this
      ensures Ran(LogOf(old(logs), n), LogOf(logs, n), ScriptOf(disk, file), err.None?)
      ensures OnlyLogOf(n, old(logs), logs)
      ensures err == Some(ReadFile) <==> file !in disk.text
      ensures failures == old(failures) + if err in {None, Some(ReadFile)} then 0 else 1
    {
      if file !in disk.text {
        return Some(ReadFile);
      }
      err := ExecClickHouseFile(n, disk.text[file]);
    }

    // The files of one instance, in order, up to the first that fails.
    method ExecFiles(disk: Disk, n: string, files: seq<string>) returns (err: Option<Failure>)
      modifies this
      ensures Ran(LogOf(old(logs), n), LogOf(logs, n), ScriptsOf(disk, files), err.None?)
      ensures OnlyLogOf(n, old(logs), logs)
      ensures err.None? ==> failures == old(failures) && Readable(disk, files)
      ensures err.Some? ==> err.value.FileFailed? && err.value.instance == n && err.value.file in files
      ensures err.Some? ==> Blame(disk, err.value, old(failures))
      ensures err.None? ==> InFileOrder(LogOf(old(logs), n), LogOf(logs, n), disk.text, files)
      ensures err.Some? ==> StoppedIn(LogOf(old(logs), n), LogOf(logs, n), disk.text, files, err.value.file)
    {
      ghost var base := LogOf(logs, n);
      var i := 0;
      FilesStart(disk, files, base);
      while i < |files|
        invariant 0 <= i <= |files|
        invariant FilesDone(disk, files, i, base, LogOf(logs, n))
        invariant OnlyLogOf(n, old(logs), logs)
        invariant failures == old(failures)
      {
        ghost var mid := LogOf(logs, n);
        var e := ExecFile(disk, n, files[i]);
        NextFile(disk, files, i, base, mid, LogOf(logs, n), e.None?);
        if e.Some? {
          return Some(FileFailed(n, files[i], e.value));
        }
        i := i + 1;
      }
      FilesEnd(disk, files, base, LogOf(logs, n));
      err := None;
    }

    // A reported file failure names a file that cannot be read, or one failed call.
    ghost predicate Blame(disk: Disk, f: Failure, before: nat)
      reads this`failures
      requires f.FileFailed?
    {
      if f.stage == ReadFile then f.file !in disk.text && failures == before else failures == before + 1
    }

    // What a reported failure tells about the calls made since this many had failed.
    ghost predicate Cause(disk: Disk, cfgs: map<string, Config>, started: set<string>, f: Failure, before: nat)
      reads this`failures
    {
      Active(cfgs, started, f.instance) &&
      match f
      case CollectFailed(n, e) => Collect(disk.fs, cfgs[n].paths, cfgs[n].strict) == Failed(e) && failures == before
      case FileFailed(n, file, _) => file in FilesOf(disk, cfgs[n]) && Blame(disk, f, before)
    }

    method ApplyInstance(disk: Disk, cfgs: map<string, Config>, started: set<string>, n: string)
      returns (err: Option<Failure>)
      requires n in cfgs
      modifies this
      ensures Ran(LogOf(old(logs), n), LogOf(logs, n), Plan(disk, cfgs, started, n), err.None?)
      ensures OnlyLogOf(n, old(logs), logs)
      ensures err.None? ==> failures == old(failures) && Usable(disk, cfgs, started, n)
      ensures err.Some? ==> err.value.instance == n && Cause(disk, cfgs, started, err.value, old(failures))
      ensures Outcome(disk, cfgs, started, n, err, LogOf(old(logs), n), LogOf(logs, n))
    {
      var cfg := cfgs[n];
      if !cfg.apply || |cfg.paths| == 0 {
        return None;
      }
      if n !in started {
        return None;
      }
      var c := CollectSQLFiles(disk.fs, cfg.paths, cfg.strict);
      if c.Failed? {
        return Some(CollectFailed(n, c.error));
      }
      err := ExecFiles(disk, n, c.files);
    }

    // The instances in any order, up to the first failure.
    method ApplyClickHouse(disk: Disk, cfgs: map<string, Config>, started: set<string>, order: seq<string>)
      returns (err: Option<Failure>)
      requires IsOrderOf(order, cfgs.Keys)
      modifies this
      ensures forall n :: Ran(LogOf(old(logs), n), LogOf(logs, n), Plan(disk, cfgs, started, n), err.None?)
      ensures err.None? ==> failures == old(failures) && forall n :: Usable(disk, cfgs, started, n)
      ensures err.Some? ==> Cause(disk, cfgs, started, err.value, old(failures))
      ensures AllProgress(disk, cfgs, started, err, old(logs), logs)
    {
      ghost var done: set<string> := {};
      var i := 0;
      while i < |order|
        invariant 0 <= i <= |order|
        invariant Visited(order, i, done)
        invariant Applied(disk, cfgs, started, done, old(logs), logs)
        invariant DoneSoFar(disk, cfgs, started, done, old(logs), logs)
        invariant failures == old(failures)
      {
        var n := order[i];
        VisitNext(order, i, done, cfgs.Keys);
        ghost var mid := logs;
        err := ApplyInstance(disk, cfgs, started, n);
        AppliedOneMore(disk, cfgs, started, done, n, old(logs), mid, logs, err.None?);
        OneInstanceMore(disk, cfgs, started, done, n, err, old(logs), mid, logs);
        if err.Some? {
          return;
        }
        done := done + {n};
        i := i + 1;
      }
      AppliedAll(disk, cfgs, started, done, order, old(logs), logs);
      AllInstances(disk, cfgs, started, done, order, old(logs), logs);
      err := None;
    }

    // Seeds follow migrations, as in StartStack.
    method MigrateThenSeed(disk: Disk, migrations: map<string, Config>, seeds: map<string, Config>,
                           started: set<string>, order: seq<string>, seedOrder: seq<string>)
      returns (err: Option<Failure>)
      requires IsOrderOf(order, migrations.Keys) && IsOrderOf(seedOrder, seeds.Keys)
      modifies this
      ensures forall n :: Ran(LogOf(old(logs), n), LogOf(logs, n),
                Plan(disk, migrations, started, n) + Plan(disk, seeds, started, n), err.None?)
      ensures (err.Some? && AllProgress(disk, migrations, started, err, old(logs), logs)) ||
              exists mid :: AllProgress(disk, migrations, started, None, old(logs), mid) &&
                            AllProgress(disk, seeds, started, err, mid, logs)
    {
      ghost var before := logs;
      err := ApplyClickHouse(disk, migrations, started, order);
      ghost var mid := logs;
      forall n
        ensures Ran(LogOf(before, n), LogOf(mid, n),
                    Plan(disk, migrations, started, n) + Plan(disk, seeds, started, n), false)
      {
        RanShort(LogOf(before, n), LogOf(mid, n), Plan(disk, migrations, started, n), Plan(disk, seeds, started, n));
      }
      if err.Some? {
        return;
      }
      err := ApplyClickHouse(disk, seeds, started, seedOrder);
      forall n
        ensures Ran(LogOf(before, n), LogOf(logs, n),
                    Plan(disk, migrations, started, n) + Plan(disk, seeds, started, n), err.None?)
      {
        RanAfter(LogOf(before, n), Plan(disk, migrations, started, n), LogOf(mid, n),
                 Plan(disk, seeds, started, n), LogOf(logs, n), err.None?);
      }
    }
  }
}

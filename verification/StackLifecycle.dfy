// Starting a stack of containers family by family, setting it up, and undoing all of it
// when any call fails.
module StackLifecycle {
  import opened Text
  import opened EnvKeys

  // ---- containers ----

  // One container as the runtime sees it: how often its termination was issued, how
  // often that was refused, and whether it still runs.
  datatype Container = Container(issued: nat, refused: nat, live: bool)

  const RUNNING := Container(0, 0, true)

  // c was terminated once more, and is now e.
  predicate Ended(c: Container, e: Container) {
    || e == Container(c.issued + 1, c.refused, false)
    || e == Container(c.issued + 1, c.refused + 1, c.live)
  }

  // All containers ever started, in the order in which they were.
  type Containers = seq<Container>

  predicate Untouched(a: Containers, b: Containers) {
    |a| <= |b| && forall i :: 0 <= i < |a| ==> b[i] == a[i]
  }

  // Since a, containers were started and none was terminated.
  predicate Grown(a: Containers, b: Containers) {
    Untouched(a, b) && forall i :: |a| <= i < |b| ==> b[i] == RUNNING
  }

  // Every container started since a was terminated exactly once.
  predicate Undone(a: Containers, b: Containers) {
    Untouched(a, b) && forall i :: |a| <= i < |b| ==> Ended(RUNNING, b[i])
  }

  // As Undone, for a caller that asked to keep containers: they all run on, or all but the
  // last, which was terminated as its own start-up failed.
  predicate Kept(a: Containers, b: Containers, ended: bool) {
    && Untouched(a, b) && (ended ==> |a| < |b|)
    && forall i :: |a| <= i < |b| ==> if ended && i == |b| - 1 then Ended(RUNNING, b[i]) else b[i] == RUNNING
  }

  // What one instance that did not start leaves: its container, terminated, if it had one.
  predicate Left(a: Containers, b: Containers, ended: bool) {
    && |b| == |a| + (if ended then 1 else 0) && Untouched(a, b)
    && (ended ==> Ended(RUNNING, b[|a|]))
  }

  predicate Failed(a: Containers, b: Containers, keep: bool, ended: bool) {
    if keep then Kept(a, b, ended) else Undone(a, b)
  }

  // Exactly the containers ids were terminated, once each.
  predicate Stopped(a: Containers, b: Containers, ids: set<nat>) {
    |b| == |a| && forall i :: 0 <= i < |a| ==> if i in ids then Ended(a[i], b[i]) else b[i] == a[i]
  }

  predicate Closed(a: Containers, b: Containers, ids: set<nat>, keep: bool) {
    if keep then b == a else Stopped(a, b, ids)
  }

  predicate IsNew(a: Containers, b: Containers, i: nat) {
    |a| <= i < |b|
  }

  // The containers started between a and b.
  function Started(a: Containers, b: Containers): set<nat> {
    set i: nat | i < |b| && IsNew(a, b, i)
  }

  // Undoing after a failure: what ran since a, the failure itself, then the terminations.
  lemma UndoCloses(a: Containers, b: Containers, c: Containers, d: Containers, keep: bool, ended: bool)
    requires Grown(a, b) && Failed(b, c, keep, ended) && Closed(c, d, Started(a, b), keep)
    ensures Failed(a, d, keep, ended)
  {
    forall i | |a| <= i < |d| && !keep ensures Ended(RUNNING, d[i]) {
      assert (i in Started(a, b)) == (i < |b|);
    }
  }

  lemma UndoOne(a: Containers, b: Containers, c: Containers, d: Containers, keep: bool, ended: bool)
    requires Grown(a, b) && Left(b, c, ended) && Closed(c, d, Started(a, b), keep)
    ensures Failed(a, d, keep, ended)
  {
    UndoCloses(a, b, c, d, keep, ended);
  }

  lemma GrownTrans(a: Containers, b: Containers, c: Containers)
    requires Grown(a, b) && Grown(b, c)
    ensures Grown(a, c) && Started(a, c) == Started(a, b) + Started(b, c) && Started(a, b) !! Started(b, c)
  {
  }

  lemma StoppedBoth(a: Containers, b: Containers, c: Containers, s: set<nat>, t: set<nat>)
    requires Stopped(a, b, s) && Stopped(b, c, t) && s !! t
    ensures Stopped(a, c, s + t)
  {
  }

  // ---- the container runtime ----

  // No call from number lo up to hi failed.
  ghost predicate Clean(fails: nat -> bool, lo: nat, hi: nat) {
    lo <= hi && forall c :: lo <= c < hi ==> !fails(c)
  }

  // The first of the calls from number lo that failed.
  ghost predicate FirstFailure(fails: nat -> bool, lo: nat, at: nat) {
    Clean(fails, lo, at) && fails(at)
  }

  // What the fault says of the calls from number lo up to hi: the first that failed.
  ghost predicate Tracks(fails: nat -> bool, lo: nat, hi: nat, fault: Option<nat>) {
    match fault
    case None => Clean(fails, lo, hi)
    case Some(at) => at < hi && FirstFailure(fails, lo, at)
  }

  // Any call to the runtime, and any other call out of the process, may fail.
  class Docker {
    const fails: nat -> bool
    var calls: nat
    var containers: Containers
    var networks: nat  // how many were created
    var removals: nat  // how often removal of one was issued
    ghost var begun: nat  // the number of the call with which the present run began
    ghost var fault: Option<nat>  // the number of the first call that has failed since

    ghost predicate Valid()
      reads this
    {
      Tracks(fails, begun, calls, fault)
    }

    constructor (fails: nat -> bool)
      ensures this.fails == fails && calls == 0 && containers == [] && networks == 0 && removals == 0
      ensures Valid()
    {
      this.fails := fails;
      calls, containers, networks, removals := 0, [], 0, 0;
      begun, fault := 0, None;
    }

    ghost method Begin()
      modifies this`begun, this`fault
      ensures Valid() && begun == calls && fault == None
    {
      begun, fault := calls, None;
    }

    method Call() returns (ok: bool)
      requires Valid()
      modifies this`calls, this`fault
      ensures Valid()
      ensures calls == old(calls) + 1 && ok == !fails(old(calls))
      ensures fault == if ok || old(fault).Some? then old(fault) else Some(old(calls))
    {
      ok := !fails(calls);
      if !ok && fault.None? {
        fault := Some(calls);
      }
      calls := calls + 1;
    }

    // Calls made one after the other, up to the first that fails.
    method CallAll(n: nat) returns (ok: bool)
      requires Valid() && fault.None?
      modifies this`calls, this`fault
      ensures Valid() && old(calls) <= calls && ok == fault.None?
      ensures if ok then calls == old(calls) + n else old(calls) <= fault.value < old(calls) + n
    {
      for i := 0 to n
        invariant Valid() && fault.None? && calls == old(calls) + i
      {
        ok := Call();
        if !ok {
          return;
        }
      }
      ok := true;
    }

    // A failed run leaves nothing behind.
    method Run() returns (id: Option<nat>)
      requires Valid()
      modifies this`calls, this`fault, this`containers
      ensures Valid()
      ensures calls == old(calls) + 1 && id.Some? == !fails(old(calls))
      ensures fault == if id.Some? || old(fault).Some? then old(fault) else Some(old(calls))
      ensures containers == if id.Some? then old(containers) + [RUNNING] else old(containers)
      ensures id.Some? ==> id.value == |old(containers)|
    {
      var ok := Call();
      if !ok {
        return None;
      }
      id := Some(|containers|);
      containers := containers + [RUNNING];
    }

    method TerminateContainer(id: nat)
      requires Valid() && id < |containers|
      modifies this`calls, this`fault, this`containers
      ensures Valid() && (old(fault).Some? ==> fault == old(fault))
      ensures calls == old(calls) + 1
      ensures |containers| == |old(containers)| && Ended(old(containers)[id], containers[id])
      ensures containers == old(containers)[id := containers[id]]
      ensures containers[id].refused == old(containers)[id].refused <==> !fails(old(calls))
    {
      var ok := Call();
      var c := containers[id];
      containers := containers[id :=
        if ok then c.(issued := c.issued + 1, live := false)
        else c.(issued := c.issued + 1, refused := c.refused + 1)];
    }

    method CreateNetwork() returns (ok: bool)
      requires Valid()
      modifies this`calls, this`fault, this`networks
      ensures Valid()
      ensures calls == old(calls) + 1 && ok == !fails(old(calls))
      ensures fault == if ok || old(fault).Some? then old(fault) else Some(old(calls))
      ensures networks == old(networks) + if ok then 1 else 0
    {
      ok := Call();
      if ok {
        networks := networks + 1;
      }
    }

    method RemoveNetwork() returns (ok: bool)
      requires Valid()
      modifies this`calls, this`fault, this`removals
      ensures Valid() && (old(fault).Some? ==> fault == old(fault))
      ensures calls == old(calls) + 1 && ok == !fails(old(calls)) && removals == old(removals) + 1
    {
      ok := Call();
      removals := removals + 1;
    }
  }

  // ---- one family ----

  // The instances of one family, each with its container.
  type Instances = map<string, nat>

  ghost predicate Injective(m: Instances) {
    forall n, k :: n in m && k in m && n != k ==> m[n] != m[k]
  }

  lemma AddInstance(m: Instances, name: string, id: nat)
    requires Injective(m) && name !in m && id !in m.Values
    ensures Injective(m[name := id]) && m[name := id].Values == m.Values + {id}
  {
    var r := m[name := id];
    forall x | x in m.Values ensures x in r.Values {
      var n :| n in m && m[n] == x;
      assert r[n] == x;
    }
    assert r[name] == id;
  }

  // The first k of these instances have been started.
  ghost predicate StartedFirst(m: Instances, order: seq<string>, k: nat) {
    && (forall n :: n in m ==> n in order)
    && (forall i :: 0 <= i < |order| ==> (order[i] in m <==> i < k))
  }

  lemma StartedNext(m: Instances, order: seq<string>, k: nat, id: nat)
    requires NoRepeats(order) && k < |order| && StartedFirst(m, order, k)
    ensures order[k] !in m && StartedFirst(m[order[k] := id], order, k + 1)
  {
  }

  // Exactly these instances.
  ghost predicate HasNames(m: Instances, order: seq<string>) {
    forall n :: n in m <==> n in order
  }

  lemma StartedAll(m: Instances, order: seq<string>)
    requires StartedFirst(m, order, |order|)
    ensures HasNames(m, order)
  {
  }

  // One instance: its preparation, the run, and the lookups of its host and ports.  A
  // container is ended exactly when a lookup, a call after the first two, fails.
  method StartOne(d: Docker, lookups: nat) returns (id: Option<nat>)
    requires d.Valid() && d.fault.None?
    modifies d`calls, d`fault, d`containers
    ensures d.Valid() && d.calls >= old(d.calls) && id.Some? == d.fault.None?
    ensures id.Some? ==> id.value == |old(d.containers)| && d.containers == old(d.containers) + [RUNNING]
    ensures id.Some? ==> d.calls == old(d.calls) + 2 + lookups
    ensures id.None? ==> old(d.calls) <= d.fault.value < old(d.calls) + 2 + lookups
    ensures id.None? ==> Left(old(d.containers), d.containers, d.fault.value >= old(d.calls) + 2)
  {
    var ok := d.Call();
    if !ok {
      return None;
    }
    id := d.Run();
    if id.None? {
      return;
    }
    for i := 0 to lookups
      invariant id == Some(|old(d.containers)|) && d.containers == old(d.containers) + [RUNNING]
      invariant d.Valid() && d.fault.None? && d.calls == old(d.calls) + 2 + i
    {
      ok := d.Call();
      if !ok {
        d.TerminateContainer(id.value);
        return None;
      }
    }
  }

  // Terminates every container of the family, in any order, unless containers are kept.
  method TerminateFamily(d: Docker, m: Instances, keep: bool)
    requires d.Valid() && Injective(m) && forall id :: id in m.Values ==> id < |d.containers|
    modifies d`calls, d`fault, d`containers
    ensures d.Valid() && (old(d.fault).Some? ==> d.fault == old(d.fault))
    ensures d.calls >= old(d.calls) && Closed(old(d.containers), d.containers, m.Values, keep)
  {
    if keep {
      return;
    }
    var rest, done: set<nat> := m.Keys, {};
    while rest != {}
      invariant d.Valid() && (old(d.fault).Some? ==> d.fault == old(d.fault))
      invariant rest <= m.Keys && d.calls >= old(d.calls)
      invariant forall n :: n in m ==> (m[n] in done <==> n !in rest)
      invariant done <= m.Values && Stopped(old(d.containers), d.containers, done)
    {
      var n :| n in rest;
      assert m[n] in m.Values;
      d.TerminateContainer(m[n]);
      rest, done := rest - {n}, done + {m[n]};
    }
    assert done == m.Values;
  }

  // The calls of n instances.
  function Calls(n: nat, each: nat): nat {
    if n == 0 then 0 else Calls(n - 1, each) + each
  }

  // Which call of its instance the call at this offset is.
  function CallWithin(offset: nat, each: nat): nat
    requires each > 0
    decreases offset
  {
    if offset < each then offset else CallWithin(offset - each, each)
  }

  lemma {:induction false} CallsWithin(n: nat, each: nat, k: nat)
    requires k < each
    ensures CallWithin(Calls(n, each) + k, each) == k
  {
    if n > 0 {
      CallsWithin(n - 1, each, k);
    }
  }

  lemma {:induction false} CallsGrow(n: nat, m: nat, each: nat)
    requires n <= m
    ensures Calls(n, each) <= Calls(m, each)
  {
    if n < m {
      CallsGrow(n, m - 1, each);
    }
  }

  // The failing call at this offset is one of those n instances make, and ends a container.
  predicate FaultWithin(offset: int, n: nat, each: nat, ended: bool) {
    0 <= offset < Calls(n, each) && each > 0 && ended == (CallWithin(offset, each) >= 2)
  }

  lemma FaultIsWithin(k: nat, n: nat, each: nat, offset: nat)
    requires k < n && offset < each
    ensures FaultWithin(Calls(k, each) + offset, n, each, offset >= 2)
  {
    CallsWithin(k, each, offset);
    CallsGrow(k + 1, n, each);
  }

  // One instance more; if it does not start, those started so far are terminated.
  method StartNext(d: Docker, out: Instances, lookups: nat, keep: bool, ghost a: Containers)
    returns (id: Option<nat>, ghost ended: bool)
    requires d.Valid() && d.fault.None?
    requires Grown(a, d.containers) && Injective(out) && out.Values == Started(a, d.containers)
    modifies d`calls, d`fault, d`containers
    ensures d.Valid() && d.calls >= old(d.calls) && id.Some? == d.fault.None?
    ensures id.Some? ==> id.value == |old(d.containers)| && d.containers == old(d.containers) + [RUNNING]
    ensures id.Some? ==> d.calls == old(d.calls) + 2 + lookups
    ensures id.None? ==> old(d.calls) <= d.fault.value < old(d.calls) + 2 + lookups
    ensures id.None? ==> ended == (d.fault.value >= old(d.calls) + 2) && Failed(a, d.containers, keep, ended)
  {
    ghost var b := d.containers;
    id := StartOne(d, lookups);
    ended := id.None? && d.fault.value >= old(d.calls) + 2;
    if id.None? {
      ghost var c := d.containers;
      TerminateFamily(d, out, keep);
      UndoOne(a, b, c, d.containers, keep, ended);
    }
  }

  // Starts the instances of a family in the order in which its map is iterated; on a
  // failure those started so far are terminated.
  method StartFamily(d: Docker, order: seq<string>, lookups: nat, keep: bool)
    returns (res: Option<Instances>, ghost ended: bool)
    requires d.Valid() && d.fault.None? && NoRepeats(order)
    modifies d`calls, d`fault, d`containers
    ensures d.Valid() && d.calls >= old(d.calls) && res.Some? == d.fault.None?
    ensures res.Some? ==> Grown(old(d.containers), d.containers) && HasNames(res.value, order)
    ensures res.Some? ==> Injective(res.value) && res.value.Values == Started(old(d.containers), d.containers)
    ensures res.Some? ==> d.calls == old(d.calls) + Calls(|order|, 2 + lookups)
    ensures res.None? ==> FaultWithin(d.fault.value - old(d.calls), |order|, 2 + lookups, ended)
    ensures res.None? ==> Failed(old(d.containers), d.containers, keep, ended)
  {
    ghost var a := d.containers;
    ended := false;
    var out: Instances := map[];
    for i := 0 to |order|
      invariant StartedFirst(out, order, i)
      invariant d.Valid() && d.fault.None? && d.calls == old(d.calls) + Calls(i, 2 + lookups)
      invariant Grown(a, d.containers) && Injective(out) && out.Values == Started(a, d.containers)
    {
      ghost var b, first := d.containers, d.calls;
      var id;
      id, ended := StartNext(d, out, lookups, keep, a);
      if id.None? {
        FaultIsWithin(i, |order|, 2 + lookups, d.fault.value - first);
        return None, ended;
      }
      StartedNext(out, order, i, id.value);
      AddInstance(out, order[i], id.value);
      GrownTrans(a, b, d.containers);
      out := out[order[i] := id.value];
    }
    StartedAll(out, order);
    res := Some(out);
  }

  // ---- the stack ----

  const FAMILIES: nat := 6

  // The families in the order in which they are started.
  function NthFamily(k: nat): Family {
    if k == 0 then Postgres
    else if k == 1 then ClickHouse
    else if k == 2 then Redis
    else if k == 3 then Kafka
    else if k == 4 then HttpMock
    else LocalStack
  }

  // Host and ports (or endpoint, or broker list) read back from a running container.
  function Lookups(family: Family): nat {
    match family
    case ClickHouse => 3
    case Postgres | Redis | HttpMock => 2
    case Kafka | LocalStack => 1
  }

  datatype Phase =
    | PostgresMigrations | ClickHouseMigrations | PostgresSeeds | ClickHouseSeeds
    | FlushRedis | CreateTopics | Expectations | InitScripts

  const PHASES: nat := 8

  // The phases in the order in which they run.
  function NthPhase(k: nat): Phase {
    if k == 0 then PostgresMigrations
    else if k == 1 then ClickHouseMigrations
    else if k == 2 then PostgresSeeds
    else if k == 3 then ClickHouseSeeds
    else if k == 4 then FlushRedis
    else if k == 5 then CreateTopics
    else if k == 6 then Expectations
    else InitScripts
  }

  // The instance names of each family in the order in which its map is iterated, the calls
  // each phase makes, and whether to keep containers.
  datatype Options = Options(names: Family -> seq<string>, work: Phase -> nat, keep: bool) {
    ghost predicate Valid() {
      forall f :: NoRepeats(names(f))
    }
  }

  datatype StartError =
    | NoServiceConfigured
    | InvalidInstanceName
    | NetworkFailed
    | FamilyFailed(family: Family)
    | PhaseFailed(phase: Phase)

  function Validate(opts: Options): (r: Option<StartError>)
    ensures r.None? <==> (exists f :: opts.names(f) != []) && forall f, n :: n in opts.names(f) ==> ValidName(n)
    ensures r == Some(NoServiceConfigured) <==> forall f :: opts.names(f) == []
    ensures r.None? || r.value in {NoServiceConfigured, InvalidInstanceName}
  {
    if forall f :: opts.names(f) == [] then Some(NoServiceConfigured)
    else if forall f :: forall n | n in opts.names(f) :: ValidName(n) then None
    else Some(InvalidInstanceName)
  }

  // Every container of these families.
  function Held(fs: seq<Instances>): set<nat> {
    if fs == [] then {} else Held(fs[..|fs| - 1]) + fs[|fs| - 1].Values
  }

  // No two instances share a container.
  ghost predicate Distinct(fs: seq<Instances>) {
    fs == [] || (
      && Distinct(fs[..|fs| - 1]) && Injective(fs[|fs| - 1])
      && Held(fs[..|fs| - 1]) !! fs[|fs| - 1].Values)
  }

  lemma {:induction false} HeldPrefix(fs: seq<Instances>, k: nat)
    requires k <= |fs| && Distinct(fs)
    ensures Distinct(fs[..k]) && Held(fs[..k]) <= Held(fs)
    decreases |fs|
  {
    if k == |fs| {
      assert fs[..k] == fs;
    } else {
      var init := fs[..|fs| - 1];
      HeldPrefix(init, k);
      assert init[..k] == fs[..k];
    }
  }

  lemma HeldNext(fs: seq<Instances>, m: Instances)
    requires Distinct(fs) && Injective(m) && Held(fs) !! m.Values
    ensures Distinct(fs + [m]) && Held(fs + [m]) == Held(fs) + m.Values
  {
    assert (fs + [m])[..|fs|] == fs;
  }

  lemma HeldStep(fs: seq<Instances>, k: nat)
    requires k < |fs| && Distinct(fs)
    ensures Injective(fs[k]) && Held(fs[..k]) !! fs[k].Values
    ensures Held(fs[..k + 1]) == Held(fs[..k]) + fs[k].Values && Held(fs[..k + 1]) <= Held(fs)
  {
    HeldPrefix(fs, k + 1);
    assert fs[..k + 1][..k] == fs[..k];
  }

  // Each family has exactly the configured instances.
  ghost predicate NamesMatch(fs: seq<Instances>, names: Family -> seq<string>) {
    |fs| <= FAMILIES && forall k :: 0 <= k < |fs| ==> HasNames(fs[k], names(NthFamily(k)))
  }

  lemma NamesNext(fs: seq<Instances>, m: Instances, names: Family -> seq<string>)
    requires NamesMatch(fs, names) && |fs| < FAMILIES && HasNames(m, names(NthFamily(|fs|)))
    ensures NamesMatch(fs + [m], names)
  {
  }

  class Stack {
    // The resources of the families started so far, in the order of NthFamily.
    var families: seq<Instances>

    constructor ()
      ensures families == []
    {
      families := [];
    }

    method TerminateFamilies(d: Docker, keep: bool)
      requires d.Valid() && Distinct(families) && forall id :: id in Held(families) ==> id < |d.containers|
      modifies d`calls, d`fault, d`containers
      ensures d.Valid() && (old(d.fault).Some? ==> d.fault == old(d.fault))
      ensures d.calls >= old(d.calls) && Closed(old(d.containers), d.containers, Held(families), keep)
    {
      ghost var a := d.containers;
      for k := 0 to |families|
        invariant d.Valid() && (old(d.fault).Some? ==> d.fault == old(d.fault))
        invariant d.calls >= old(d.calls)
        invariant Closed(a, d.containers, Held(families[..k]), keep)
      {
        HeldStep(families, k);
        ghost var b := d.containers;
        TerminateFamily(d, families[k], keep);
        if !keep {
          StoppedBoth(a, b, d.containers, Held(families[..k]), families[k].Values);
        }
      }
      assert families[..|families|] == families;
    }

    // The inverse of every step that succeeded so far.
    method Undo(d: Docker, keep: bool)
      requires d.Valid() && Distinct(families) && forall id :: id in Held(families) ==> id < |d.containers|
      modifies d`calls, d`fault, d`containers, d`removals
      ensures d.Valid() && (old(d.fault).Some? ==> d.fault == old(d.fault))
      ensures d.calls >= old(d.calls) && Closed(old(d.containers), d.containers, Held(families), keep)
      ensures d.removals == old(d.removals) + if keep then 0 else 1
    {
      if keep {
        return;
      }
      TerminateFamilies(d, keep);
      var _ := d.RemoveNetwork();
    }

    // Ends a started stack.  Containers are kept if that was asked for in case of a
    // failure, but the network is removed all the same.
    method Cleanup(d: Docker, keep: bool) returns (ok: bool)
      requires d.Valid() && Distinct(families) && forall id :: id in Held(families) ==> id < |d.containers|
      modifies d`calls, d`fault, d`containers, d`removals
      ensures d.Valid() && (old(d.fault).Some? ==> d.fault == old(d.fault))
      ensures Closed(old(d.containers), d.containers, Held(families), keep)
      ensures d.removals == old(d.removals) + 1
      ensures d.calls > old(d.calls) && ok == !d.fails(d.calls - 1)
    {
      TerminateFamilies(d, keep);
      ok := d.RemoveNetwork();
    }
  }

  // ---- which error a failing call is reported as ----

  // The calls that family k makes, and those of the first k families.
  function FamilyCalls(opts: Options, k: nat): nat
    requires k < FAMILIES
  {
    Calls(|opts.names(NthFamily(k))|, 2 + Lookups(NthFamily(k)))
  }

  function CallsBefore(opts: Options, k: nat): nat
    requires k <= FAMILIES
  {
    if k == 0 then 0 else CallsBefore(opts, k - 1) + FamilyCalls(opts, k - 1)
  }

  // The calls made by the first k phases.
  function WorkBefore(work: Phase -> nat, k: nat): nat
    requires k <= PHASES
  {
    if k == 0 then 0 else WorkBefore(work, k - 1) + work(NthPhase(k - 1))
  }

  function AllCalls(opts: Options): nat {
    FamilyCalls(opts, 0) + FamilyCalls(opts, 1) + FamilyCalls(opts, 2)
    + FamilyCalls(opts, 3) + FamilyCalls(opts, 4) + FamilyCalls(opts, 5)
  }

  lemma AllCallsBefore(opts: Options)
    ensures CallsBefore(opts, FAMILIES) == AllCalls(opts)
  {
    assert CallsBefore(opts, 1) == CallsBefore(opts, 0) + FamilyCalls(opts, 0);
    assert CallsBefore(opts, 2) == CallsBefore(opts, 1) + FamilyCalls(opts, 1);
    assert CallsBefore(opts, 3) == CallsBefore(opts, 2) + FamilyCalls(opts, 2);
    assert CallsBefore(opts, 4) == CallsBefore(opts, 3) + FamilyCalls(opts, 3);
    assert CallsBefore(opts, 5) == CallsBefore(opts, 4) + FamilyCalls(opts, 4);
    assert CallsBefore(opts, 6) == CallsBefore(opts, 5) + FamilyCalls(opts, 5);
  }

  predicate InPhase(work: Phase -> nat, k: nat, offset: int)
    requires k < PHASES
  {
    WorkBefore(work, k) <= offset < WorkBefore(work, k + 1)
  }

  // The call at this offset is one of family k; only a lookup ends a container.
  predicate InFamily(opts: Options, k: nat, offset: int, ended: bool)
    requires k < FAMILIES
  {
    var f := NthFamily(k);
    FaultWithin(offset - CallsBefore(opts, k), |opts.names(f)|, 2 + Lookups(f), ended)
  }

  ghost predicate FamilyOfCall(opts: Options, offset: int, family: Family, ended: bool) {
    exists k: nat :: k < FAMILIES && NthFamily(k) == family && InFamily(opts, k, offset, ended)
  }

  ghost predicate PhaseOfCall(work: Phase -> nat, offset: int, phase: Phase) {
    exists k: nat :: k < PHASES && NthPhase(k) == phase && InPhase(work, k, offset)
  }

  // How a run is reported whose call at this offset is the first that fails, and whether
  // that ends the container which the call was about.
  ghost predicate Reported(opts: Options, offset: int, error: StartError, ended: bool) {
    match error
    case NetworkFailed => offset == 0 && !ended
    case FamilyFailed(f) => FamilyOfCall(opts, offset - 1, f, ended)
    case PhaseFailed(p) => PhaseOfCall(opts.work, offset - 1 - AllCalls(opts), p) && !ended
    case _ => false
  }

  lemma {:induction false} CallsBeforeGrow(opts: Options, k: nat, m: nat)
    requires k <= m <= FAMILIES
    ensures CallsBefore(opts, k) <= CallsBefore(opts, m)
  {
    if k < m {
      CallsBeforeGrow(opts, k, m - 1);
    }
  }

  lemma {:induction false} WorkBeforeGrows(work: Phase -> nat, k: nat, m: nat)
    requires k <= m <= PHASES
    ensures WorkBefore(work, k) <= WorkBefore(work, m)
  {
    if k < m {
      WorkBeforeGrows(work, k, m - 1);
    }
  }

  // Family k makes the calls of a stretch of its own.
  lemma FamilyStretch(opts: Options, k: nat, offset: int, ended: bool)
    requires k < FAMILIES && InFamily(opts, k, offset, ended)
    ensures CallsBefore(opts, k) <= offset < CallsBefore(opts, k + 1)
  {
  }

  lemma CallsWithinAll(opts: Options, k: nat)
    requires k <= FAMILIES
    ensures CallsBefore(opts, k) <= AllCalls(opts)
  {
    CallsBeforeGrow(opts, k, FAMILIES);
    AllCallsBefore(opts);
  }

  lemma OneFamily(opts: Options, offset: int, k: nat, m: nat)
    requires k < FAMILIES && m < FAMILIES
    requires CallsBefore(opts, k) <= offset < CallsBefore(opts, k + 1)
    requires CallsBefore(opts, m) <= offset < CallsBefore(opts, m + 1)
    ensures k == m && offset < AllCalls(opts)
  {
    CallsWithinAll(opts, k + 1);
    if k < m {
      CallsBeforeGrow(opts, k + 1, m);
    } else if m < k {
      CallsBeforeGrow(opts, m + 1, k);
    }
  }

  lemma OneFamilyOfCall(opts: Options, offset: int, f: Family, ended: bool, f': Family, ended': bool)
    requires FamilyOfCall(opts, offset, f, ended) && FamilyOfCall(opts, offset, f', ended')
    ensures f == f' && ended == ended' && 0 <= offset < AllCalls(opts)
  {
    var k: nat :| k < FAMILIES && NthFamily(k) == f && InFamily(opts, k, offset, ended);
    var m: nat :| m < FAMILIES && NthFamily(m) == f' && InFamily(opts, m, offset, ended');
    FamilyStretch(opts, k, offset, ended);
    FamilyStretch(opts, m, offset, ended');
    OneFamily(opts, offset, k, m);
  }

  lemma OnePhase(work: Phase -> nat, offset: int, k: nat, m: nat)
    requires k < PHASES && m < PHASES
    requires WorkBefore(work, k) <= offset < WorkBefore(work, k + 1)
    requires WorkBefore(work, m) <= offset < WorkBefore(work, m + 1)
    ensures k == m
  {
    if k < m {
      WorkBeforeGrows(work, k + 1, m);
    } else if m < k {
      WorkBeforeGrows(work, m + 1, k);
    }
  }

  lemma OnePhaseOfCall(work: Phase -> nat, offset: int, p: Phase, p': Phase)
    requires PhaseOfCall(work, offset, p) && PhaseOfCall(work, offset, p')
    ensures p == p' && offset >= 0
  {
    var k: nat :| k < PHASES && NthPhase(k) == p && InPhase(work, k, offset);
    var m: nat :| m < PHASES && NthPhase(m) == p' && InPhase(work, m, offset);
    OnePhase(work, offset, k, m);
  }

  lemma ReportStretch(opts: Options, offset: nat, e: StartError, ended: bool)
    requires Reported(opts, offset, e, ended)
    ensures match e
            case NetworkFailed => offset == 0
            case FamilyFailed(_) => 0 < offset <= AllCalls(opts)
            case PhaseFailed(_) => offset > AllCalls(opts)
            case _ => false
  {
    if e.FamilyFailed? {
      OneFamilyOfCall(opts, offset - 1, e.family, ended, e.family, ended);
    } else if e.PhaseFailed? {
      OnePhaseOfCall(opts.work, offset - 1 - AllCalls(opts), e.phase, e.phase);
    }
  }

  lemma OneFamilyReport(opts: Options, offset: nat, f: Family, ended: bool, f': Family, ended': bool)
    requires Reported(opts, offset, FamilyFailed(f), ended) && Reported(opts, offset, FamilyFailed(f'), ended')
    ensures f == f' && ended == ended'
  {
    OneFamilyOfCall(opts, offset - 1, f, ended, f', ended');
  }

  lemma OnePhaseReport(opts: Options, offset: nat, p: Phase, ended: bool, p': Phase, ended': bool)
    requires Reported(opts, offset, PhaseFailed(p), ended) && Reported(opts, offset, PhaseFailed(p'), ended')
    ensures p == p' && ended == ended'
  {
    OnePhaseOfCall(opts.work, offset - 1 - AllCalls(opts), p, p');
  }

  // The number of the first failing call leaves no choice of what to report.
  lemma OneReport(opts: Options, offset: nat, e: StartError, ended: bool, e': StartError, ended': bool)
    requires Reported(opts, offset, e, ended) && Reported(opts, offset, e', ended')
    ensures e == e' && ended == ended'
  {
    if e.FamilyFailed? && e'.FamilyFailed? {
      OneFamilyReport(opts, offset, e.family, ended, e'.family, ended');
    } else if e.PhaseFailed? && e'.PhaseFailed? {
      OnePhaseReport(opts, offset, e.phase, ended, e'.phase, ended');
    } else {
      ReportStretch(opts, offset, e, ended);
      ReportStretch(opts, offset, e', ended');
    }
  }

  // ---- the same in numbers ----

  // The number of the first failing call, counted from the start, for every error: one call
  // for the network, those of the families in their order, four for each instance of
  // PostgreSQL, Redis and HTTP mocks, five for ClickHouse, three for Kafka and LocalStack,
  // then those of the phases in theirs.  An instance is ended by a failure of its third call
  // or a later one.
  ghost predicate FailsAt(opts: Options, at: int, e: StartError, ended: bool) {
    var n, w := opts.names, opts.work;
    var clickHouse := 1 + 4 * |n(Postgres)|;
    var redis := clickHouse + 5 * |n(ClickHouse)|;
    var kafka := redis + 4 * |n(Redis)|;
    var httpMock := kafka + 3 * |n(Kafka)|;
    var localStack := httpMock + 4 * |n(HttpMock)|;
    var phases := localStack + 3 * |n(LocalStack)|;
    var seeds := phases + w(PostgresMigrations) + w(ClickHouseMigrations);
    var setUp := seeds + w(PostgresSeeds) + w(ClickHouseSeeds);
    match e
    case NetworkFailed => at == 0 && !ended
    case FamilyFailed(Postgres) => 1 <= at < clickHouse && ended == ((at - 1) % 4 >= 2)
    case FamilyFailed(ClickHouse) => clickHouse <= at < redis && ended == ((at - clickHouse) % 5 >= 2)
    case FamilyFailed(Redis) => redis <= at < kafka && ended == ((at - redis) % 4 >= 2)
    case FamilyFailed(Kafka) => kafka <= at < httpMock && ended == ((at - kafka) % 3 >= 2)
    case FamilyFailed(HttpMock) => httpMock <= at < localStack && ended == ((at - httpMock) % 4 >= 2)
    case FamilyFailed(LocalStack) => localStack <= at < phases && ended == ((at - localStack) % 3 >= 2)
    case PhaseFailed(PostgresMigrations) => !ended && phases <= at < phases + w(PostgresMigrations)
    case PhaseFailed(ClickHouseMigrations) => !ended && phases + w(PostgresMigrations) <= at < seeds
    case PhaseFailed(PostgresSeeds) => !ended && seeds <= at < seeds + w(PostgresSeeds)
    case PhaseFailed(ClickHouseSeeds) => !ended && seeds + w(PostgresSeeds) <= at < setUp
    case PhaseFailed(FlushRedis) => !ended && 0 <= at - setUp < w(FlushRedis)
    case PhaseFailed(CreateTopics) => !ended && 0 <= at - setUp - w(FlushRedis) < w(CreateTopics)
    case PhaseFailed(Expectations) =>
      !ended && 0 <= at - setUp - w(FlushRedis) - w(CreateTopics) < w(Expectations)
    case PhaseFailed(InitScripts) =>
      !ended && 0 <= at - setUp - w(FlushRedis) - w(CreateTopics) - w(Expectations) < w(InitScripts)
    case _ => false
  }

  lemma {:induction false} CallsAre(n: nat, each: nat)
    ensures Calls(n, each) == n * each
  {
    if n > 0 {
      CallsAre(n - 1, each);
    }
  }

  lemma {:induction false} CallWithinIs(offset: nat, each: nat)
    requires each in {3, 4, 5}
    ensures CallWithin(offset, each) == offset % each
    decreases offset
  {
    if offset >= each {
      CallWithinIs(offset - each, each);
      if each == 3 {
        assert offset % 3 == (offset - 3) % 3;
      } else if each == 4 {
        assert offset % 4 == (offset - 4) % 4;
      } else {
        assert offset % 5 == (offset - 5) % 5;
      }
    }
  }

  lemma FaultIs(offset: int, n: nat, each: nat, ended: bool)
    requires each in {3, 4, 5}
    ensures FaultWithin(offset, n, each, ended) <==> 0 <= offset < n * each && ended == (offset % each >= 2)
  {
    CallsAre(n, each);
    if offset >= 0 {
      CallWithinIs(offset, each);
    }
  }

  lemma CallsBeforeAre(opts: Options)
    ensures var n := opts.names;
            && CallsBefore(opts, 0) == 0
            && CallsBefore(opts, 1) == 4 * |n(Postgres)|
            && CallsBefore(opts, 2) == 4 * |n(Postgres)| + 5 * |n(ClickHouse)|
            && CallsBefore(opts, 3) == 4 * |n(Postgres)| + 5 * |n(ClickHouse)| + 4 * |n(Redis)|
            && CallsBefore(opts, 4) == 4 * |n(Postgres)| + 5 * |n(ClickHouse)| + 4 * |n(Redis)| + 3 * |n(Kafka)|
            && CallsBefore(opts, 5) == 4 * |n(Postgres)| + 5 * |n(ClickHouse)| + 4 * |n(Redis)| + 3 * |n(Kafka)|
                                       + 4 * |n(HttpMock)|
            && AllCalls(opts) == 4 * |n(Postgres)| + 5 * |n(ClickHouse)| + 4 * |n(Redis)| + 3 * |n(Kafka)|
                                 + 4 * |n(HttpMock)| + 3 * |n(LocalStack)|
  {
    FamilyCallsAre(opts);
    assert CallsBefore(opts, 1) == CallsBefore(opts, 0) + FamilyCalls(opts, 0);
    assert CallsBefore(opts, 2) == CallsBefore(opts, 1) + FamilyCalls(opts, 1);
    assert CallsBefore(opts, 3) == CallsBefore(opts, 2) + FamilyCalls(opts, 2);
    assert CallsBefore(opts, 4) == CallsBefore(opts, 3) + FamilyCalls(opts, 3);
    assert CallsBefore(opts, 5) == CallsBefore(opts, 4) + FamilyCalls(opts, 4);
  }

  lemma FamilyCallsAre(opts: Options)
    ensures FamilyCalls(opts, 0) == 4 * |opts.names(Postgres)|
    ensures FamilyCalls(opts, 1) == 5 * |opts.names(ClickHouse)|
    ensures FamilyCalls(opts, 2) == 4 * |opts.names(Redis)|
    ensures FamilyCalls(opts, 3) == 3 * |opts.names(Kafka)|
    ensures FamilyCalls(opts, 4) == 4 * |opts.names(HttpMock)|
    ensures FamilyCalls(opts, 5) == 3 * |opts.names(LocalStack)|
  {
    CallsAre(|opts.names(Postgres)|, 4);
    CallsAre(|opts.names(ClickHouse)|, 5);
    CallsAre(|opts.names(Redis)|, 4);
    CallsAre(|opts.names(Kafka)|, 3);
    CallsAre(|opts.names(HttpMock)|, 4);
    CallsAre(|opts.names(LocalStack)|, 3);
  }

  lemma WorkBeforeIs(w: Phase -> nat)
    ensures WorkBefore(w, 0) == 0
    ensures WorkBefore(w, 1) == w(PostgresMigrations)
    ensures WorkBefore(w, 2) == WorkBefore(w, 1) + w(ClickHouseMigrations)
    ensures WorkBefore(w, 3) == WorkBefore(w, 2) + w(PostgresSeeds)
    ensures WorkBefore(w, 4) == WorkBefore(w, 3) + w(ClickHouseSeeds)
    ensures WorkBefore(w, 5) == WorkBefore(w, 4) + w(FlushRedis)
    ensures WorkBefore(w, 6) == WorkBefore(w, 5) + w(CreateTopics)
    ensures WorkBefore(w, 7) == WorkBefore(w, 6) + w(Expectations)
    ensures WorkBefore(w, 8) == WorkBefore(w, 7) + w(InitScripts)
  {
  }

  // All calls of a start that succeeds.
  function EveryCall(opts: Options): nat {
    var n, w := opts.names, opts.work;
    1 + 4 * |n(Postgres)| + 5 * |n(ClickHouse)| + 4 * |n(Redis)| + 3 * |n(Kafka)| + 4 * |n(HttpMock)|
    + 3 * |n(LocalStack)|
    + w(PostgresMigrations) + w(ClickHouseMigrations) + w(PostgresSeeds) + w(ClickHouseSeeds)
    + w(FlushRedis) + w(CreateTopics) + w(Expectations) + w(InitScripts)
  }

  lemma EveryCallIs(opts: Options)
    ensures EveryCall(opts) == 1 + AllCalls(opts) + WorkBefore(opts.work, PHASES)
  {
    CallsBeforeAre(opts);
    WorkBeforeIs(opts.work);
  }

  // A family, or a phase, has one place.
  lemma FamilyPlace(opts: Options, offset: int, k: nat, ended: bool)
    requires k < FAMILIES
    ensures FamilyOfCall(opts, offset, NthFamily(k), ended) <==> InFamily(opts, k, offset, ended)
  {
    assert forall m: nat :: m < FAMILIES && NthFamily(m) == NthFamily(k) ==> m == k;
  }

  lemma PhasePlace(work: Phase -> nat, offset: int, k: nat)
    requires k < PHASES
    ensures PhaseOfCall(work, offset, NthPhase(k)) <==> InPhase(work, k, offset)
  {
    assert forall m: nat :: m < PHASES && NthPhase(m) == NthPhase(k) ==> m == k;
  }

  function PlaceOfFamily(f: Family): nat {
    match f
    case Postgres => 0
    case ClickHouse => 1
    case Redis => 2
    case Kafka => 3
    case HttpMock => 4
    case LocalStack => 5
  }

  function PlaceOfPhase(p: Phase): nat {
    match p
    case PostgresMigrations => 0
    case ClickHouseMigrations => 1
    case PostgresSeeds => 2
    case ClickHouseSeeds => 3
    case FlushRedis => 4
    case CreateTopics => 5
    case Expectations => 6
    case InitScripts => 7
  }

  // The call with which a family or a phase begins.
  function StartOf(opts: Options, f: Family): nat {
    var n := opts.names;
    match f
    case Postgres => 1
    case ClickHouse => 1 + 4 * |n(Postgres)|
    case Redis => 1 + 4 * |n(Postgres)| + 5 * |n(ClickHouse)|
    case Kafka => 1 + 4 * |n(Postgres)| + 5 * |n(ClickHouse)| + 4 * |n(Redis)|
    case HttpMock => 1 + 4 * |n(Postgres)| + 5 * |n(ClickHouse)| + 4 * |n(Redis)| + 3 * |n(Kafka)|
    case LocalStack =>
      1 + 4 * |n(Postgres)| + 5 * |n(ClickHouse)| + 4 * |n(Redis)| + 3 * |n(Kafka)| + 4 * |n(HttpMock)|
  }

  function PhaseStart(opts: Options, p: Phase): nat {
    1 + AllCalls(opts) + WorkBefore(opts.work, PlaceOfPhase(p))
  }

  lemma StartOfFamily(opts: Options, f: Family)
    ensures StartOf(opts, f) == 1 + CallsBefore(opts, PlaceOfFamily(f))
  {
    CallsBeforeAre(opts);
  }

  // Within a stretch of calls that begins here.
  predicate InStretch(at: int, start: int, n: nat, each: nat, ended: bool)
    requires each > 0
  {
    0 <= at - start < n * each && ended == ((at - start) % each >= 2)
  }

  lemma FaultInStretch(at: int, start: int, n: nat, each: nat, ended: bool)
    requires each in {3, 4, 5}
    ensures FaultWithin(at - start, n, each, ended) <==> InStretch(at, start, n, each, ended)
  {
    FaultIs(at - start, n, each, ended);
  }

  lemma FamilyInStretch(opts: Options, at: int, k: nat, ended: bool)
    requires k < FAMILIES
    ensures InFamily(opts, k, at - 1, ended) <==>
            InStretch(at, 1 + CallsBefore(opts, k), |opts.names(NthFamily(k))|, 2 + Lookups(NthFamily(k)), ended)
  {
    var start, each := 1 + CallsBefore(opts, k), 2 + Lookups(NthFamily(k));
    assert at - 1 - CallsBefore(opts, k) == at - start;
    FaultInStretch(at, start, |opts.names(NthFamily(k))|, each, ended);
  }

  lemma StretchReported(opts: Options, at: int, f: Family, ended: bool)
    ensures Reported(opts, at, FamilyFailed(f), ended) <==>
            InStretch(at, StartOf(opts, f), |opts.names(f)|, 2 + Lookups(f), ended)
  {
    var k := PlaceOfFamily(f);
    assert NthFamily(k) == f;
    FamilyPlace(opts, at - 1, k, ended);
    FamilyInStretch(opts, at, k, ended);
    StartOfFamily(opts, f);
  }

  lemma StretchFails(opts: Options, at: int, f: Family, ended: bool)
    ensures FailsAt(opts, at, FamilyFailed(f), ended) <==>
            InStretch(at, StartOf(opts, f), |opts.names(f)|, 2 + Lookups(f), ended)
  {
  }

  lemma PhaseReported(opts: Options, at: int, p: Phase, ended: bool)
    ensures Reported(opts, at, PhaseFailed(p), ended) <==>
            !ended && PhaseStart(opts, p) <= at < PhaseStart(opts, p) + opts.work(p)
  {
    var k := PlaceOfPhase(p);
    assert NthPhase(k) == p;
    PhasePlace(opts.work, at - 1 - AllCalls(opts), k);
  }

  lemma PhaseFails(opts: Options, at: int, p: Phase, ended: bool)
    ensures FailsAt(opts, at, PhaseFailed(p), ended) <==>
            !ended && PhaseStart(opts, p) <= at < PhaseStart(opts, p) + opts.work(p)
  {
    CallsBeforeAre(opts);
    WorkBeforeIs(opts.work);
  }

  // Which error is reported, family by family and phase by phase: seeds after migrations.
  lemma ReportedInOrder(opts: Options, at: int, e: StartError, ended: bool)
    ensures Reported(opts, at, e, ended) <==> FailsAt(opts, at, e, ended)
  {
    if e.FamilyFailed? {
      StretchReported(opts, at, e.family, ended);
      StretchFails(opts, at, e.family, ended);
    } else if e.PhaseFailed? {
      PhaseReported(opts, at, e.phase, ended);
      PhaseFails(opts, at, e.phase, ended);
    }
  }

  // One family more; if it does not start, everything that was started is undone.
  method StartNextFamily(d: Docker, opts: Options, stack: Stack, k: nat, ghost a: Containers)
    returns (m: Option<Instances>, ghost ended: bool)
    requires k < FAMILIES && opts.Valid() && d.Valid() && d.fault.None?
    requires Grown(a, d.containers)
    requires Distinct(stack.families) && Held(stack.families) == Started(a, d.containers)
    modifies d`calls, d`fault, d`containers, d`removals
    ensures d.Valid() && d.calls >= old(d.calls) && m.Some? == d.fault.None?
    ensures m.Some? ==> Grown(old(d.containers), d.containers) && HasNames(m.value, opts.names(NthFamily(k)))
    ensures m.Some? ==> Injective(m.value) && m.value.Values == Started(old(d.containers), d.containers)
    ensures m.Some? ==> d.calls == old(d.calls) + FamilyCalls(opts, k) && d.removals == old(d.removals)
    ensures m.None? ==> InFamily(opts, k, d.fault.value - old(d.calls) + CallsBefore(opts, k), ended)
    ensures m.None? ==> Failed(a, d.containers, opts.keep, ended)
    ensures m.None? ==> d.removals == old(d.removals) + if opts.keep then 0 else 1
  {
    ghost var b := d.containers;
    var f := NthFamily(k);
    m, ended := StartFamily(d, opts.names(f), Lookups(f), opts.keep);
    if m.None? {
      ghost var c := d.containers;
      stack.Undo(d, opts.keep);
      UndoCloses(a, b, c, d.containers, opts.keep, ended);
    }
  }

  // The families up to the first that does not start; on a failure, everything that was
  // started is undone.
  method StartFamilies(d: Docker, opts: Options, stack: Stack) returns (err: Option<StartError>, ghost ended: bool)
    requires opts.Valid() && d.Valid() && d.fault.None? && stack.families == []
    modifies d`calls, d`fault, d`containers, d`removals, stack
    ensures d.Valid() && d.calls >= old(d.calls) && err.None? == d.fault.None?
    ensures err.None? ==> Grown(old(d.containers), d.containers) && d.removals == old(d.removals)
    ensures err.None? ==> Distinct(stack.families) && Held(stack.families) == Started(old(d.containers), d.containers)
    ensures err.None? ==> NamesMatch(stack.families, opts.names) && |stack.families| == FAMILIES
    ensures err.None? ==> d.calls == old(d.calls) + AllCalls(opts)
    ensures err.Some? ==> err.value.FamilyFailed?
    ensures err.Some? ==> FamilyOfCall(opts, d.fault.value - old(d.calls), err.value.family, ended)
    ensures err.Some? ==> Failed(old(d.containers), d.containers, opts.keep, ended)
    ensures err.Some? ==> d.removals == old(d.removals) + if opts.keep then 0 else 1
  {
    ghost var a := d.containers;
    ended := false;
    for k := 0 to FAMILIES
      invariant d.Valid() && d.fault.None? && d.calls == old(d.calls) + CallsBefore(opts, k)
      invariant Grown(a, d.containers) && d.removals == old(d.removals)
      invariant Distinct(stack.families) && Held(stack.families) == Started(a, d.containers)
      invariant |stack.families| == k && NamesMatch(stack.families, opts.names)
    {
      ghost var b := d.containers;
      var m;
      m, ended := StartNextFamily(d, opts, stack, k, a);
      if m.None? {
        assert InFamily(opts, k, d.fault.value - old(d.calls), ended);
        return Some(FamilyFailed(NthFamily(k))), ended;
      }
      GrownTrans(a, b, d.containers);
      HeldNext(stack.families, m.value);
      NamesNext(stack.families, m.value, opts.names);
      stack.families := stack.families + [m.value];
    }
    AllCallsBefore(opts);
    err := None;
  }

  // The phases up to the first call that fails; the error names the phase of that call.
  method SetUp(d: Docker, opts: Options) returns (err: Option<StartError>)
    requires d.Valid() && d.fault.None?
    modifies d`calls, d`fault
    ensures d.Valid() && d.calls >= old(d.calls) && err.None? == d.fault.None?
    ensures err.None? ==> d.calls == old(d.calls) + WorkBefore(opts.work, PHASES)
    ensures err.Some? ==> err.value.PhaseFailed?
    ensures err.Some? ==> PhaseOfCall(opts.work, d.fault.value - old(d.calls), err.value.phase)
  {
    for k := 0 to PHASES
      invariant d.Valid() && d.fault.None? && d.calls == old(d.calls) + WorkBefore(opts.work, k)
    {
      var ok := d.CallAll(opts.work(NthPhase(k)));
      if !ok {
        assert InPhase(opts.work, k, d.fault.value - old(d.calls));
        return Some(PhaseFailed(NthPhase(k)));
      }
    }
    err := None;
  }

  datatype StartResult = Ok(stack: Stack) | Err(error: StartError)

  // The families, then the phases; on a failure everything that was started is undone.
  method Launch(d: Docker, opts: Options) returns (res: StartResult, ghost ended: bool)
    requires opts.Valid() && d.Valid() && d.fault.None?
    modifies d`calls, d`fault, d`containers, d`removals
    ensures d.Valid() && d.calls >= old(d.calls) && res.Ok? == d.fault.None?
    ensures res.Ok? ==> Grown(old(d.containers), d.containers) && d.removals == old(d.removals)
    ensures res.Ok? ==> d.calls == old(d.calls) + AllCalls(opts) + WorkBefore(opts.work, PHASES)
    ensures res.Ok? ==> fresh(res.stack) && Distinct(res.stack.families)
    ensures res.Ok? ==> Held(res.stack.families) == Started(old(d.containers), d.containers)
    ensures res.Ok? ==> |res.stack.families| == FAMILIES && NamesMatch(res.stack.families, opts.names)
    ensures res.Err? ==> old(d.calls) <= d.fault.value
    ensures res.Err? ==> Reported(opts, d.fault.value - old(d.calls) + 1, res.error, ended) && !res.error.NetworkFailed?
    ensures res.Err? ==> Failed(old(d.containers), d.containers, opts.keep, ended)
    ensures res.Err? ==> d.removals == old(d.removals) + if opts.keep then 0 else 1
  {
    ghost var a := d.containers;
    var stack := new Stack();
    var err;
    err, ended := StartFamilies(d, opts, stack);
    if err.Some? {
      OneFamilyOfCall(opts, d.fault.value - old(d.calls), err.value.family, ended, err.value.family, ended);
      return Err(err.value), ended;
    }
    ghost var b := d.containers;
    err := SetUp(d, opts);
    if err.Some? {
      ended := false;
      stack.Undo(d, opts.keep);
      UndoCloses(a, b, b, d.containers, opts.keep, ended);
      OnePhaseOfCall(opts.work, d.fault.value - old(d.calls) - AllCalls(opts), err.value.phase, err.value.phase);
      return Err(err.value), ended;
    }
    res := Ok(stack);
  }

  // The network, then everything in it; it is always created, as its default is to be enabled.
  method Provision(d: Docker, opts: Options) returns (res: StartResult, ghost ended: bool)
    requires opts.Valid() && d.Valid() && d.fault.None?
    modifies d`calls, d`fault, d`containers, d`networks, d`removals
    ensures d.Valid() && d.calls >= old(d.calls) && res.Ok? == d.fault.None?
    ensures res.Ok? ==> Grown(old(d.containers), d.containers) && d.removals == old(d.removals)
    ensures res.Ok? ==> d.calls == old(d.calls) + 1 + AllCalls(opts) + WorkBefore(opts.work, PHASES)
    ensures res.Ok? ==> fresh(res.stack) && Distinct(res.stack.families)
    ensures res.Ok? ==> Held(res.stack.families) == Started(old(d.containers), d.containers)
    ensures res.Ok? ==> |res.stack.families| == FAMILIES && NamesMatch(res.stack.families, opts.names)
    ensures res.Err? ==> Reported(opts, d.fault.value - old(d.calls), res.error, ended)
    ensures res.Err? ==> Failed(old(d.containers), d.containers, opts.keep, ended)
    ensures res == Err(NetworkFailed) ==> d.containers == old(d.containers)
    ensures d.networks == old(d.networks) + if res == Err(NetworkFailed) then 0 else 1
    ensures res.Err? ==> d.removals - old(d.removals) == if opts.keep then 0 else d.networks - old(d.networks)
  {
    ended := false;
    var ok := d.CreateNetwork();
    if !ok {
      return Err(NetworkFailed), ended;
    }
    res, ended := Launch(d, opts);
  }

  method StartStack(d: Docker, opts: Options) returns (res: StartResult, ghost ended: bool)
    requires opts.Valid() && d.Valid()
    modifies d`calls, d`fault, d`begun, d`containers, d`networks, d`removals
    ensures d.Valid() && d.begun == old(d.calls) && d.calls >= old(d.calls)
    ensures Validate(opts).Some? ==> res == Err(Validate(opts).value) && d.calls == old(d.calls)
    ensures Validate(opts).None? ==> res.Ok? == Clean(d.fails, old(d.calls), d.calls)
    ensures res.Ok? ==> Grown(old(d.containers), d.containers) && d.removals == old(d.removals)
    ensures res.Ok? ==> d.calls == old(d.calls) + 1 + AllCalls(opts) + WorkBefore(opts.work, PHASES)
    ensures res.Ok? ==> fresh(res.stack) && Distinct(res.stack.families)
    ensures res.Ok? ==> Held(res.stack.families) == Started(old(d.containers), d.containers)
    ensures res.Ok? ==> |res.stack.families| == FAMILIES && NamesMatch(res.stack.families, opts.names)
    ensures Validate(opts).None? && res.Err? ==> d.fault.Some? && FirstFailure(d.fails, old(d.calls), d.fault.value)
    ensures Validate(opts).None? && res.Err? ==> Reported(opts, d.fault.value - old(d.calls), res.error, ended)
    ensures res.Err? ==> Failed(old(d.containers), d.containers, opts.keep, ended)
    ensures d.networks == old(d.networks) ==> d.containers == old(d.containers)
    ensures d.networks ==
            old(d.networks) + if res.Ok? || res.error.FamilyFailed? || res.error.PhaseFailed? then 1 else 0
    ensures res.Err? ==> d.removals - old(d.removals) == if opts.keep then 0 else d.networks - old(d.networks)
  {
    d.Begin();
    ended := false;
    var invalid := Validate(opts);
    if invalid.Some? {
      return Err(invalid.value), ended;
    }
    res, ended := Provision(d, opts);
  }

  // A container that ran is terminated although the caller asked to keep containers: one
  // Postgres instance, whose second lookup, the call after the network, the container and
  // the first lookup, is the first to fail.
  lemma KeptButTerminated()
    ensures var opts := Options(f => if f == Postgres then ["db"] else [], _ => 0, true);
            var fails := c => c == 3;
            && opts.Valid() && Validate(opts).None? && FirstFailure(fails, 0, 3)
            && FailsAt(opts, 3, FamilyFailed(Postgres), true)
            && forall a, b :: Failed(a, b, opts.keep, true) ==> |a| < |b| && Ended(RUNNING, b[|b| - 1])
  {
    var opts := Options(f => if f == Postgres then ["db"] else [], _ => 0, true);
    assert opts.names(Postgres) == ["db"] && "db" in opts.names(Postgres);
  }

  // What a failed start leaves, container by container.
  lemma FailureLeaves(a: Containers, b: Containers, keep: bool, ended: bool)
    requires Failed(a, b, keep, ended)
    ensures |a| <= |b| && b[..|a|] == a
    ensures !keep ==> forall i :: |a| <= i < |b| ==> b[i].issued == 1 && b[i].live == (b[i].refused == 1)
    ensures keep ==> forall i :: |a| <= i < |b| - (if ended then 1 else 0) ==> b[i] == Container(0, 0, true)
    ensures keep && ended ==> |a| < |b| && b[|b| - 1].issued == 1 && b[|b| - 1].live == (b[|b| - 1].refused == 1)
  {
  }

  lemma {:induction false} HeldMember(fs: seq<Instances>, id: nat)
    ensures id in Held(fs) <==> exists k :: 0 <= k < |fs| && id in fs[k].Values
  {
    if fs != [] {
      HeldMember(fs[..|fs| - 1], id);
    }
  }

  // What a successful one does: every new container runs and is an instance of the stack.
  lemma SuccessLeaves(a: Containers, b: Containers, fs: seq<Instances>, id: nat)
    requires Grown(a, b) && Held(fs) == Started(a, b)
    ensures |a| <= |b| && b[..|a|] == a && (|a| <= id < |b| ==> b[id] == Container(0, 0, true))
    ensures |a| <= id < |b| <==> exists k :: 0 <= k < |fs| && id in fs[k].Values
  {
    HeldMember(fs, id);
    assert id in Started(a, b) <==> |a| <= id < |b|;
  }

  // The stack has the configured names, family by family.
  lemma StackNames(fs: seq<Instances>, names: Family -> seq<string>, n: string)
    requires NamesMatch(fs, names) && |fs| == FAMILIES
    ensures |fs| == 6
    ensures n in fs[0] <==> n in names(Postgres)
    ensures n in fs[1] <==> n in names(ClickHouse)
    ensures n in fs[2] <==> n in names(Redis)
    ensures n in fs[3] <==> n in names(Kafka)
    ensures n in fs[4] <==> n in names(HttpMock)
    ensures n in fs[5] <==> n in names(LocalStack)
  {
    assert HasNames(fs[0], names(NthFamily(0))) && HasNames(fs[1], names(NthFamily(1)));
    assert HasNames(fs[2], names(NthFamily(2))) && HasNames(fs[3], names(NthFamily(3)));
    assert HasNames(fs[4], names(NthFamily(4))) && HasNames(fs[5], names(NthFamily(5)));
  }

  // What is refused before any call: no instance at all, or a name that is not a lower-case
  // letter followed by lower-case letters, digits, '_' and '-'.
  lemma Refused(opts: Options)
    ensures Validate(opts) == Some(NoServiceConfigured) <==> forall f :: opts.names(f) == []
    ensures Validate(opts) == Some(InvalidInstanceName) <==>
            exists f, n :: n in opts.names(f) && (
              || n == "" || !('a' <= n[0] <= 'z')
              || exists i :: 0 <= i < |n| &&
                   !('a' <= n[i] <= 'z' || '0' <= n[i] <= '9' || n[i] == '_' || n[i] == '-'))
    ensures Validate(opts) in {None, Some(NoServiceConfigured), Some(InvalidInstanceName)}
  {
    if Validate(opts) == Some(InvalidInstanceName) {
      var f, n :| n in opts.names(f) && !ValidName(n);
      if n != "" && 'a' <= n[0] <= 'z' {
        var i :| 0 <= i < |n| && !NameChar(n[i]);
      }
    }
  }

  // Ending a stack terminates what starting it started, and whatever the runtime did not
  // refuse to terminate is gone.
  lemma CleanupLeavesNothing(a: Containers, b: Containers, c: Containers, fs: seq<Instances>)
    requires Grown(a, b) && Held(fs) == Started(a, b) && Closed(b, c, Held(fs), false)
    ensures Undone(a, c) && |c| == |b|
    ensures forall i :: |a| <= i < |c| ==> c[i].issued == 1 && (c[i].live <==> c[i].refused == 1)
  {
    UndoCloses(a, b, b, c, false, false);
  }
}

// The parallel readiness probe: goroutines, a mutex, a shared map, and a deadline.
module Readiness {
  import opened Text

  datatype CheckResult = CheckResult(ok: bool, error: string)

  datatype Response = Response(status: string, checks: map<string, CheckResult>)

  const PROBE_DEADLINE := 800  // milliseconds

  // The named pingers, the parent's deadline if it has one, and for each pinger the time
  // within which it returns once its context is cancelled.
  datatype Probe = Probe(names: seq<string>, parent: Option<nat>, lags: seq<nat>) {
    ghost predicate Valid() {
      |lags| == |names| && forall i, j :: 0 <= i < j < |names| ==> names[i] != names[j]
    }

    function Deadline(): nat {
      if parent.Some? && parent.value < PROBE_DEADLINE then parent.value else PROBE_DEADLINE
    }
  }

  // Where one goroutine is, with the outcome of its ping, an error text or none, and the
  // time at which the ping returned.
  datatype Phase =
    | Pinging
    | Returned(outcome: Option<string>, at: nat)
    | Locked(outcome: Option<string>, at: nat)
    | Recorded(outcome: Option<string>, at: nat)
    | Finished(outcome: Option<string>, at: nat)

  datatype State = State(
    phases: seq<Phase>,
    mutex: Option<nat>,
    checks: map<string, CheckResult>,
    groupError: Option<string>,
    cancelledAt: Option<nat>,
    now: nat)

  // Cancel is the expiry of the deadline or an earlier cancellation by the parent.
  datatype Step =
    | PingReturns(i: nat, outcome: Option<string>)
    | Lock(i: nat)
    | Record(i: nat)
    | Finish(i: nat)
    | Cancel
    | Tick(dt: nat)

  function Start(p: Probe): State {
    State(seq(|p.names|, _ => Pinging), None, map[], None, None, 0)
  }

  predicate Idle(s: State) {
    forall i :: 0 <= i < |s.phases| ==> s.phases[i].Pinging? || s.phases[i].Finished?
  }

  // When pinger i is due: the deadline fires in time, and a cancelled pinger returns in
  // its own time.
  function Due(p: Probe, s: State, i: nat): nat
    requires i < |p.lags|
  {
    match s.cancelledAt
    case None => p.Deadline()
    case Some(c) => c + p.lags[i]
  }

  // The clock does not pass the time at which some pinger that has not returned is due.
  predicate MayPass(p: Probe, s: State, dt: nat) {
    forall i :: 0 <= i < |s.phases| && s.phases[i].Pinging? ==> i < |p.lags| && s.now + dt <= Due(p, s, i)
  }

  predicate Enabled(p: Probe, s: State, step: Step) {
    match step
    case PingReturns(i, _) => i < |s.phases| && s.phases[i].Pinging?
    case Lock(i) => i < |s.phases| && s.phases[i].Returned? && s.mutex.None?
    case Record(i) => i < |s.phases| && i < |p.names| && s.phases[i].Locked?
    case Finish(i) => i < |s.phases| && s.phases[i].Recorded?
    case Cancel => s.cancelledAt.None? && s.now <= p.Deadline()
    case Tick(dt) => dt > 0 && Idle(s) && !Complete(s) && MayPass(p, s, dt)
  }

  function ResultOf(outcome: Option<string>): CheckResult {
    match outcome
    case Some(error) => CheckResult(false, error)
    case None => CheckResult(true, "")
  }

  // What a goroutine hands to the group: never an error.
  function Reported(outcome: Option<string>): Option<string> {
    None
  }

  function Apply(p: Probe, s: State, step: Step): State
    requires Enabled(p, s, step)
  {
    match step
    case PingReturns(i, outcome) => s.(phases := s.phases[i := Returned(outcome, s.now)])
    case Lock(i) => s.(phases := s.phases[i := Locked(s.phases[i].outcome, s.phases[i].at)], mutex := Some(i))
    case Record(i) =>
      s.(phases := s.phases[i := Recorded(s.phases[i].outcome, s.phases[i].at)],
         checks := s.checks[p.names[i] := ResultOf(s.phases[i].outcome)])
    case Finish(i) =>
      // The mutex is released; the group cancels its context on the first error reported.
      var err := Reported(s.phases[i].outcome);
      s.(phases := s.phases[i := Finished(s.phases[i].outcome, s.phases[i].at)],
         mutex := None,
         groupError := if s.groupError.None? then err else s.groupError,
         cancelledAt := if s.cancelledAt.None? && err.Some? then Some(s.now) else s.cancelledAt)
    case Cancel => s.(cancelledAt := Some(s.now))
    case Tick(dt) => s.(now := s.now + dt)
  }

  // g.Wait returns when every goroutine has.
  predicate Complete(s: State) {
    forall i :: 0 <= i < |s.phases| ==> s.phases[i].Finished?
  }

  // ---- runs ----

  predicate Legal(p: Probe, s: State, run: seq<Step>)
    decreases |run|
  {
    run != [] ==> Enabled(p, s, run[0]) && Legal(p, Apply(p, s, run[0]), run[1..])
  }

  function End(p: Probe, s: State, run: seq<Step>): State
    requires Legal(p, s, run)
    decreases |run|
  {
    if run == [] then s else End(p, Apply(p, s, run[0]), run[1..])
  }

  predicate Written(ph: Phase) {
    ph.Recorded? || ph.Finished?
  }

  // At most one goroutine is between taking and releasing the mutex.
  ghost predicate Exclusive(s: State) {
    && (s.mutex.Some? ==> s.mutex.value < |s.phases|)
    && forall i :: 0 <= i < |s.phases| ==> ((s.phases[i].Locked? || s.phases[i].Recorded?) <==> s.mutex == Some(i))
  }

  // The map has an entry for exactly those goroutines that have written theirs.
  ghost predicate Accounted(p: Probe, s: State)
    requires |s.phases| == |p.names|
  {
    && (forall n :: n in s.checks ==> n in p.names)
    && (forall i :: 0 <= i < |s.phases| ==> (p.names[i] in s.checks <==> Written(s.phases[i])))
    && (forall i :: 0 <= i < |s.phases| && Written(s.phases[i]) ==>
          s.checks[p.names[i]] == ResultOf(s.phases[i].outcome))
  }

  // Every pinger returned, or can still return, by the time at which it is due.
  ghost predicate InTime(p: Probe, s: State)
    requires |s.phases| == |p.lags|
  {
    && (if s.cancelledAt.Some? then s.cancelledAt.value <= p.Deadline() else s.now <= p.Deadline())
    && forall i :: 0 <= i < |s.phases| ==>
         if s.phases[i].Pinging? then s.now <= Due(p, s, i)
         else s.phases[i].at <= s.now && s.phases[i].at <= Due(p, s, i)
  }

  // No time has passed since the last ping returned, once all have.
  ghost predicate Latest(s: State) {
    || (exists i :: 0 <= i < |s.phases| && s.phases[i].Pinging?)
    || (exists i :: 0 <= i < |s.phases| && !s.phases[i].Pinging? && s.phases[i].at == s.now)
    || (s.phases == [] && s.now == 0)
  }

  ghost predicate Inv(p: Probe, s: State) {
    && |s.phases| == |p.names| == |p.lags|
    && Exclusive(s) && Accounted(p, s) && InTime(p, s) && Latest(s)
    && s.groupError.None?
  }

  lemma StartHolds(p: Probe)
    requires p.Valid()
    ensures Inv(p, Start(p))
  {
    assert |p.names| > 0 ==> Start(p).phases[0].Pinging?;
  }

  lemma StepExclusive(p: Probe, s: State, step: Step)
    requires Exclusive(s) && Enabled(p, s, step)
    ensures Exclusive(Apply(p, s, step))
  {
  }

  lemma StepAccounted(p: Probe, s: State, step: Step)
    requires p.Valid() && |s.phases| == |p.names| && Accounted(p, s) && Enabled(p, s, step)
    ensures Accounted(p, Apply(p, s, step))
  {
  }

  lemma StepInTime(p: Probe, s: State, step: Step)
    requires |s.phases| == |p.lags| && InTime(p, s) && Enabled(p, s, step)
    ensures InTime(p, Apply(p, s, step))
  {
  }

  // While the clock runs some ping has not returned; the last one returns now.
  lemma StepLatest(p: Probe, s: State, step: Step)
    requires Latest(s) && Enabled(p, s, step)
    ensures Latest(Apply(p, s, step))
  {
    var t := Apply(p, s, step);
    if step.Tick? {
      var i :| 0 <= i < |s.phases| && !s.phases[i].Finished?;
      assert t.phases[i].Pinging?;
    } else if step.PingReturns? {
      assert t.phases[step.i].at == t.now;
    } else if i :| 0 <= i < |s.phases| && s.phases[i].Pinging? {
      assert t.phases[i].Pinging?;
    } else if i :| 0 <= i < |s.phases| && !s.phases[i].Pinging? && s.phases[i].at == s.now {
      assert t.phases[i].at == t.now;
    }
  }

  lemma StepHolds(p: Probe, s: State, step: Step)
    requires p.Valid() && Inv(p, s) && Enabled(p, s, step)
    ensures Inv(p, Apply(p, s, step))
  {
    StepExclusive(p, s, step);
    StepAccounted(p, s, step);
    StepInTime(p, s, step);
    StepLatest(p, s, step);
  }

  // Every state of every run keeps the invariant.
  lemma {:induction false} RunHolds(p: Probe, s: State, run: seq<Step>)
    requires p.Valid() && Inv(p, s) && Legal(p, s, run)
    ensures Inv(p, End(p, s, run))
    decreases |run|
  {
    if run != [] {
      StepHolds(p, s, run[0]);
      RunHolds(p, Apply(p, s, run[0]), run[1..]);
    }
  }

  // ---- a failing pinger cancels nobody ----

  lemma {:induction false} OnlyCancelCancels(p: Probe, s: State, run: seq<Step>)
    requires Legal(p, s, run) && Cancel !in run
    ensures End(p, s, run).cancelledAt == s.cancelledAt
    decreases |run|
  {
    if run != [] {
      assert run[0] in run && forall x :: x in run[1..] ==> x in run;
      OnlyCancelCancels(p, Apply(p, s, run[0]), run[1..]);
    }
  }

  // ---- the response does not depend on the schedule ----

  // Every ping in the run ends with the outcome given for its pinger.
  predicate Follows(run: seq<Step>, outcomes: seq<Option<string>>) {
    forall k :: 0 <= k < |run| && run[k].PingReturns? ==> run[k].i < |outcomes| && run[k].outcome == outcomes[run[k].i]
  }

  predicate Carries(s: State, outcomes: seq<Option<string>>) {
    |s.phases| == |outcomes| &&
    forall i :: 0 <= i < |s.phases| && !s.phases[i].Pinging? ==> s.phases[i].outcome == outcomes[i]
  }

  lemma {:induction false} RunCarries(p: Probe, s: State, run: seq<Step>, outcomes: seq<Option<string>>)
    requires Legal(p, s, run) && Follows(run, outcomes) && Carries(s, outcomes)
    ensures Carries(End(p, s, run), outcomes)
    decreases |run|
  {
    if run != [] {
      assert Follows([run[0]], outcomes) by {
        assert run[0].PingReturns? ==> run[0].outcome == outcomes[run[0].i];
      }
      assert Follows(run[1..], outcomes) by {
        forall k | 0 <= k < |run[1..]| && run[1..][k].PingReturns?
          ensures run[1..][k].i < |outcomes| && run[1..][k].outcome == outcomes[run[1..][k].i]
        {
          assert run[1..][k] == run[k + 1];
        }
      }
      RunCarries(p, Apply(p, s, run[0]), run[1..], outcomes);
    }
  }

  // The checks that these outcomes deserve, whatever the order.
  ghost predicate ChecksOf(p: Probe, outcomes: seq<Option<string>>, checks: map<string, CheckResult>) {
    && |outcomes| == |p.names|
    && (forall n :: n in checks <==> n in p.names)
    && (forall i :: 0 <= i < |p.names| ==>
          && p.names[i] in checks
          && checks[p.names[i]] ==
             if outcomes[i].Some? then CheckResult(false, outcomes[i].value) else CheckResult(true, ""))
  }

  lemma CompleteChecks(p: Probe, s: State, outcomes: seq<Option<string>>)
    requires Inv(p, s) && Complete(s) && Carries(s, outcomes)
    ensures ChecksOf(p, outcomes, s.checks)
  {
    forall n | n in p.names ensures n in s.checks {
      var i :| 0 <= i < |p.names| && p.names[i] == n;
      assert s.phases[i].Finished?;
    }
  }

  // Every complete interleaving yields one entry for each configured name, determined by
  // that name's own pinger.
  lemma EveryRunAnswers(p: Probe, run: seq<Step>, outcomes: seq<Option<string>>)
    requires p.Valid() && |outcomes| == |p.names|
    requires Legal(p, Start(p), run) && Follows(run, outcomes) && Complete(End(p, Start(p), run))
    ensures ChecksOf(p, outcomes, End(p, Start(p), run).checks)
  {
    StartHolds(p);
    RunHolds(p, Start(p), run);
    RunCarries(p, Start(p), run, outcomes);
    CompleteChecks(p, End(p, Start(p), run), outcomes);
  }

  // So two complete interleavings with the same outcomes give the same checks.
  lemma ScheduleIndependence(p: Probe, run: seq<Step>, other: seq<Step>, outcomes: seq<Option<string>>)
    requires p.Valid() && |outcomes| == |p.names|
    requires Legal(p, Start(p), run) && Follows(run, outcomes) && Complete(End(p, Start(p), run))
    requires Legal(p, Start(p), other) && Follows(other, outcomes) && Complete(End(p, Start(p), other))
    ensures End(p, Start(p), run).checks == End(p, Start(p), other).checks
  {
    EveryRunAnswers(p, run, outcomes);
    EveryRunAnswers(p, other, outcomes);
    var a, b := End(p, Start(p), run).checks, End(p, Start(p), other).checks;
    forall n | n in a ensures a[n] == b[n] {
      var i :| 0 <= i < |p.names| && p.names[i] == n;
    }
  }

  // ---- termination and time ----

  function Left(ph: Phase): nat {
    match ph
    case Pinging => 4
    case Returned(_, _) => 3
    case Locked(_, _) => 2
    case Recorded(_, _) => 1
    case Finished(_, _) => 0
  }

  function LeftAll(phases: seq<Phase>): nat {
    if phases == [] then 0 else Left(phases[0]) + LeftAll(phases[1..])
  }

  lemma {:induction false} LeftUpdate(phases: seq<Phase>, i: nat, ph: Phase)
    requires i < |phases|
    ensures LeftAll(phases[i := ph]) == LeftAll(phases) - Left(phases[i]) + Left(ph)
  {
    if i == 0 {
      assert phases[i := ph][1..] == phases[1..];
    } else {
      LeftUpdate(phases[1..], i - 1, ph);
      assert phases[i := ph][1..] == phases[1..][i - 1 := ph];
    }
  }

  // Goroutine steps still to take, and whether the cancellation is still to come.
  function StepsLeft(s: State): nat {
    LeftAll(s.phases) + if s.cancelledAt.None? then 1 else 0
  }

  function MaxLag(lags: seq<nat>): (m: nat)
    ensures forall i :: 0 <= i < |lags| ==> lags[i] <= m
  {
    if lags == [] then 0
    else
      var m := MaxLag(lags[1..]);
      assert forall i :: 0 < i < |lags| ==> lags[i] == lags[1..][i - 1];
      if lags[0] > m then lags[0] else m
  }

  function TimeLeft(p: Probe, s: State): int {
    p.Deadline() + MaxLag(p.lags) - s.now
  }

  // Every step but the clock's uses up one of the steps left; the clock uses up time.
  lemma StepProgresses(p: Probe, s: State, step: Step)
    requires p.Valid() && Inv(p, s) && Enabled(p, s, step)
    ensures var t := Apply(p, s, step);
            if step.Tick? then StepsLeft(t) == StepsLeft(s) && 0 <= TimeLeft(p, t) < TimeLeft(p, s)
            else StepsLeft(t) == StepsLeft(s) - 1 && TimeLeft(p, t) == TimeLeft(p, s)
  {
    match step {
      case PingReturns(i, outcome) => LeftUpdate(s.phases, i, Apply(p, s, step).phases[i]);
      case Lock(i) => LeftUpdate(s.phases, i, Apply(p, s, step).phases[i]);
      case Record(i) => LeftUpdate(s.phases, i, Apply(p, s, step).phases[i]);
      case Finish(i) => LeftUpdate(s.phases, i, Apply(p, s, step).phases[i]);
      case Cancel =>
      case Tick(dt) =>
        var i :| 0 <= i < |s.phases| && !s.phases[i].Finished?;
        assert s.phases[i].Pinging? && s.now + dt <= Due(p, s, i);
    }
  }

  // Until every goroutine has returned, one of them can take a step.
  lemma NoDeadlock(p: Probe, s: State, outcomes: seq<Option<string>>) returns (step: Step)
    requires Inv(p, s) && !Complete(s) && |outcomes| == |p.names|
    ensures Enabled(p, s, step) && Follows([step], outcomes) && !step.Tick? && !step.Cancel?
  {
    if s.mutex.Some? {
      var i := s.mutex.value;
      step := if s.phases[i].Locked? then Record(i) else Finish(i);
    } else {
      var i :| 0 <= i < |s.phases| && !s.phases[i].Finished?;
      step := if s.phases[i].Pinging? then PingReturns(i, outcomes[i]) else Lock(i);
    }
  }

  // A run from the start has at most four steps for each pinger and one cancellation,
  // besides the clock's, and lasts no longer than the deadline and the longest lag.
  lemma {:induction false} RunLength(p: Probe, s: State, run: seq<Step>)
    requires p.Valid() && Inv(p, s) && Legal(p, s, run)
    ensures Moves(run) + StepsLeft(End(p, s, run)) == StepsLeft(s)
    ensures TimeLeft(p, s) >= 0 ==> TimeLeft(p, End(p, s, run)) >= 0
    decreases |run|
  {
    if run != [] {
      StepProgresses(p, s, run[0]);
      StepHolds(p, s, run[0]);
      RunLength(p, Apply(p, s, run[0]), run[1..]);
    }
  }

  function Moves(run: seq<Step>): nat {
    if run == [] then 0 else (if run[0].Tick? then 0 else 1) + Moves(run[1..])
  }

  lemma {:induction false} LeftAtStart(n: nat)
    ensures LeftAll(seq(n, _ => Pinging)) == 4 * n
  {
    if n > 0 {
      LeftAtStart(n - 1);
      assert seq(n, _ => Pinging)[1..] == seq(n - 1, _ => Pinging);
    }
  }

  // The probe finishes when the last ping returns, which is no later than that pinger's own
  // lag after the cancellation, or the earlier of the parent's deadline and 800 ms without
  // one; by then all entries are in.
  lemma ProbeBound(p: Probe, run: seq<Step>)
    requires p.Valid() && Legal(p, Start(p), run)
    ensures Moves(run) <= 4 * |p.names| + 1
    ensures var s := End(p, Start(p), run);
            && s.now <= p.Deadline() + MaxLag(p.lags) <= 800 + MaxLag(p.lags)
            && (Complete(s) ==>
                  && (forall n :: n in s.checks <==> n in p.names)
                  && |s.phases| == |p.lags|
                  && (forall i :: 0 <= i < |s.phases| ==> s.phases[i].at <= s.now)
                  && (s.cancelledAt.Some? ==>
                        forall i :: 0 <= i < |s.phases| ==> s.phases[i].at <= s.cancelledAt.value + p.lags[i])
                  && (s.cancelledAt.None? ==>
                        forall i :: 0 <= i < |s.phases| ==> s.phases[i].at <= 800)
                  && (s.cancelledAt.None? && p.parent.Some? ==>
                        forall i :: 0 <= i < |s.phases| ==> s.phases[i].at <= p.parent.value)
                  && (p.names != [] ==> exists i :: 0 <= i < |s.phases| && s.phases[i].at == s.now))
  {
    var s := End(p, Start(p), run);
    StartHolds(p);
    RunLength(p, Start(p), run);
    RunHolds(p, Start(p), run);
    LeftAtStart(|p.names|);
    if Complete(s) {
      CompleteChecks(p, s, seq(|p.names|, i requires 0 <= i < |p.names| => s.phases[i].outcome));
    }
  }

  // ---- how late it can be ----

  lemma {:induction false} Then(p: Probe, s: State, run: seq<Step>, more: seq<Step>)
    requires Legal(p, s, run) && Legal(p, End(p, s, run), more)
    ensures Legal(p, s, run + more) && End(p, s, run + more) == End(p, End(p, s, run), more)
    decreases |run|
  {
    if run == [] {
      assert run + more == more;
    } else {
      assert (run + more)[1..] == run[1..] + more;
      Then(p, Apply(p, s, run[0]), run[1..], more);
    }
  }

  lemma FollowsBoth(run: seq<Step>, more: seq<Step>, outcomes: seq<Option<string>>)
    requires Follows(run, outcomes) && Follows(more, outcomes)
    ensures Follows(run + more, outcomes)
  {
    var all := run + more;
    forall k | 0 <= k < |all| && all[k].PingReturns?
      ensures all[k].i < |outcomes| && all[k].outcome == outcomes[all[k].i]
    {
      assert all[k] == if k < |run| then run[k] else more[k - |run|];
    }
  }

  // Goroutine i from its ping to its end, at once.
  function AllOf(i: nat, outcome: Option<string>): seq<Step> {
    [PingReturns(i, outcome), Lock(i), Record(i), Finish(i)]
  }

  lemma OneFinishes(p: Probe, s: State, i: nat, outcome: Option<string>)
    requires |s.phases| == |p.names| && i < |s.phases| && s.phases[i].Pinging? && s.mutex.None?
    ensures Legal(p, s, AllOf(i, outcome))
    ensures var t := End(p, s, AllOf(i, outcome));
            && t.phases == s.phases[i := Finished(outcome, s.now)] && t.mutex.None?
            && t.now == s.now && t.cancelledAt == s.cancelledAt
  {
    var run := AllOf(i, outcome);
    var s1 := Apply(p, s, run[0]);
    var s2 := Apply(p, s1, run[1]);
    var s3 := Apply(p, s2, run[2]);
    var s4 := Apply(p, s3, run[3]);
    assert run[1..] == [Lock(i), Record(i), Finish(i)];
    assert run[1..][1..] == [Record(i), Finish(i)];
    assert run[1..][1..][1..] == [Finish(i)];
    assert run[1..][1..][1..][1..] == [];
    assert Legal(p, s3, [Finish(i)]) && End(p, s3, [Finish(i)]) == s4;
    assert Legal(p, s2, [Record(i), Finish(i)]) && End(p, s2, [Record(i), Finish(i)]) == s4;
    assert s4.phases == s.phases[i := Finished(outcome, s.now)];
  }

  // All goroutines before n but i have finished, the others ping.
  predicate OnlyLeft(p: Probe, s: State, i: nat, n: nat) {
    && |s.phases| == |p.names| && i < |s.phases| && n <= |s.phases| && s.mutex.None?
    && forall x :: 0 <= x < |s.phases| ==> if x < n && x != i then s.phases[x].Finished? else s.phases[x].Pinging?
  }

  lemma {:induction false} OthersFinish(p: Probe, s: State, i: nat, n: nat, outcomes: seq<Option<string>>)
    returns (run: seq<Step>)
    requires OnlyLeft(p, s, i, n) && |outcomes| == |p.names|
    ensures Legal(p, s, run) && Follows(run, outcomes)
    ensures var t := End(p, s, run);
            OnlyLeft(p, t, i, |p.names|) && t.now == s.now && t.cancelledAt == s.cancelledAt
    decreases |p.names| - n
  {
    if n == |p.names| {
      run := [];
    } else if n == i {
      run := OthersFinish(p, s, i, n + 1, outcomes);
    } else {
      var one := AllOf(n, outcomes[n]);
      OneFinishes(p, s, n, outcomes[n]);
      var rest := OthersFinish(p, End(p, s, one), i, n + 1, outcomes);
      Then(p, s, one, rest);
      FollowsBoth(one, rest, outcomes);
      run := one + rest;
    }
  }

  // The clock, if it has to move at all.
  function Wait(dt: nat): seq<Step> {
    if dt > 0 then [Tick(dt)] else []
  }

  lemma Waits(p: Probe, s: State, dt: nat)
    requires dt > 0 ==> Enabled(p, s, Tick(dt))
    ensures Legal(p, s, Wait(dt)) && End(p, s, Wait(dt)) == s.(now := s.now + dt)
  {
    assert [Tick(dt)][1..] == [];
    assert s.(now := s.now + 0) == s;
  }

  lemma Expires(p: Probe)
    requires p.Valid() && p.names != []
    ensures var run, s := Wait(p.Deadline()) + [Cancel], Start(p);
            && Legal(p, s, run)
            && End(p, s, run) == s.(now := p.Deadline(), cancelledAt := Some(p.Deadline()))
  {
    var s := Start(p);
    assert s.phases[0].Pinging?;
    Waits(p, s, p.Deadline());
    var t := End(p, s, Wait(p.Deadline()));
    assert [Cancel][1..] == [];
    assert Legal(p, t, [Cancel]) && End(p, t, [Cancel]) == Apply(p, t, Cancel);
    Then(p, s, Wait(p.Deadline()), [Cancel]);
  }

  lemma LastFinishes(p: Probe, s: State, i: nat, outcome: Option<string>)
    requires |p.lags| == |p.names| && OnlyLeft(p, s, i, |p.names|) && s.cancelledAt == Some(s.now)
    ensures var run := Wait(p.lags[i]) + AllOf(i, outcome);
            && Legal(p, s, run) && Complete(End(p, s, run)) && End(p, s, run).now == s.now + p.lags[i]
  {
    assert s.phases[i].Pinging?;
    Waits(p, s, p.lags[i]);
    var t := End(p, s, Wait(p.lags[i]));
    OneFinishes(p, t, i, outcome);
    Then(p, s, Wait(p.lags[i]), AllOf(i, outcome));
  }

  // Any pinger can keep the probe for its own lag after the deadline, whatever the pings find.
  lemma LateRun(p: Probe, i: nat, outcomes: seq<Option<string>>) returns (run: seq<Step>)
    requires p.Valid() && i < |p.names| && |outcomes| == |p.names|
    ensures Legal(p, Start(p), run) && Follows(run, outcomes) && Complete(End(p, Start(p), run))
    ensures End(p, Start(p), run).now == p.Deadline() + p.lags[i]
  {
    var first := Wait(p.Deadline()) + [Cancel];
    Expires(p);
    var s := End(p, Start(p), first);
    var second := OthersFinish(p, s, i, 0, outcomes);
    var t := End(p, s, second);
    var third := Wait(p.lags[i]) + AllOf(i, outcomes[i]);
    LastFinishes(p, t, i, outcomes[i]);
    Then(p, s, second, third);
    Then(p, Start(p), first, second + third);
    FollowsBoth(second, third, outcomes);
    FollowsBoth(first, second + third, outcomes);
    run := first + (second + third);
  }

  lemma {:induction false} SomeMaxLag(lags: seq<nat>) returns (i: nat)
    requires lags != []
    ensures i < |lags| && lags[i] == MaxLag(lags)
  {
    if |lags| == 1 || lags[0] > MaxLag(lags[1..]) {
      i := 0;
    } else {
      var k := SomeMaxLag(lags[1..]);
      i := k + 1;
    }
  }

  // The probe is over by a given time, however it is scheduled, exactly when for each pinger
  // its lag fits into that time behind 800 ms, or behind the parent's deadline if that is
  // earlier.
  lemma OverBy(p: Probe, outcomes: seq<Option<string>>, time: nat)
    requires p.Valid() && |outcomes| == |p.names|
    ensures (forall run :: Legal(p, Start(p), run) && Follows(run, outcomes) && Complete(End(p, Start(p), run)) ==>
               End(p, Start(p), run).now <= time) <==>
            forall i :: 0 <= i < |p.lags| ==>
              (if p.parent.Some? && p.parent.value < 800 then p.parent.value else 800) + p.lags[i] <= time
  {
    if p.names == [] {
      forall run | Legal(p, Start(p), run) ensures End(p, Start(p), run).now <= time {
        StartHolds(p);
        RunHolds(p, Start(p), run);
      }
    } else {
      var i := SomeMaxLag(p.lags);
      forall run | Legal(p, Start(p), run) && p.Deadline() + p.lags[i] <= time
        ensures End(p, Start(p), run).now <= time
      {
        ProbeBound(p, run);
      }
      var run := LateRun(p, i, outcomes);
    }
  }

  // ---- the whole call ----

  predicate AllOk(checks: map<string, CheckResult>) {
    forall n :: n in checks ==> checks[n].ok
  }

  function Respond(checks: map<string, CheckResult>): (Response, nat) {
    if AllOk(checks) then (Response("ready", checks), 200) else (Response("not_ready", checks), 503)
  }

  // The loop over the recorded checks, in any order, up to the first failure.
  method Summarize(checks: map<string, CheckResult>, order: seq<string>) returns (resp: Response, statusCode: nat)
    requires forall n :: n in order <==> n in checks
    ensures (resp, statusCode) == Respond(checks)
    ensures resp.checks == checks
    ensures resp.status == "ready" && statusCode == 200 <==> forall n :: n in checks ==> checks[n].ok
    ensures resp.status == "not_ready" && statusCode == 503 <==> exists n :: n in checks && !checks[n].ok
  {
    resp, statusCode := Response("ready", checks), 200;
    var i := 0;
    while i < |order|
      invariant 0 <= i <= |order|
      invariant forall k :: 0 <= k < i ==> checks[order[k]].ok
    {
      assert order[i] in order;
      if !checks[order[i]].ok {
        resp := resp.(status := "not_ready");
        statusCode := 503;
        return;
      }
      i := i + 1;
    }
  }

  // What these outcomes deserve: each name its own, and 200 and "ready" exactly for none
  // that failed.
  ghost predicate Deserved(p: Probe, outcomes: seq<Option<string>>, resp: Response, statusCode: nat) {
    && ChecksOf(p, outcomes, resp.checks)
    && (resp.status == "ready" && statusCode == 200 <==> forall i :: 0 <= i < |outcomes| ==> outcomes[i].None?)
    && (resp.status == "not_ready" && statusCode == 503 <==> exists i :: 0 <= i < |outcomes| && outcomes[i].Some?)
  }

  lemma ChecksDeserve(p: Probe, checks: map<string, CheckResult>, outcomes: seq<Option<string>>)
    requires ChecksOf(p, outcomes, checks)
    ensures Deserved(p, outcomes, Respond(checks).0, Respond(checks).1)
  {
    if AllOk(checks) {
      forall i | 0 <= i < |outcomes| ensures outcomes[i].None? {
        assert checks[p.names[i]].ok;
      }
    } else {
      var n :| n in checks && !checks[n].ok;
      var i :| 0 <= i < |p.names| && p.names[i] == n;
      assert outcomes[i].Some?;
    }
  }

  // Every complete interleaving is answered so.
  lemma EveryRunResponds(p: Probe, run: seq<Step>, outcomes: seq<Option<string>>)
    requires p.Valid() && |outcomes| == |p.names|
    requires Legal(p, Start(p), run) && Follows(run, outcomes) && Complete(End(p, Start(p), run))
    ensures var r := Respond(End(p, Start(p), run).checks);
            && Deserved(p, outcomes, r.0, r.1)
            && forall i :: 0 <= i < |outcomes| ==>
                 && p.names[i] in r.0.checks
                 && r.0.checks[p.names[i]] ==
                    if outcomes[i].Some? then CheckResult(false, outcomes[i].value) else CheckResult(true, "")
  {
    EveryRunAnswers(p, run, outcomes);
    ChecksDeserve(p, End(p, Start(p), run).checks, outcomes);
  }

  // The probe, its goroutines scheduled as in any complete run.
  method RunChecks(p: Probe, outcomes: seq<Option<string>>, run: seq<Step>, order: seq<string>)
    returns (resp: Response, statusCode: nat)
    requires p.Valid() && |outcomes| == |p.names|
    requires Legal(p, Start(p), run) && Follows(run, outcomes) && Complete(End(p, Start(p), run))
    requires forall n :: n in order <==> n in p.names
    ensures Deserved(p, outcomes, resp, statusCode)
    ensures forall i :: 0 <= i < |outcomes| ==>
              && p.names[i] in resp.checks
              && resp.checks[p.names[i]] ==
                 if outcomes[i].Some? then CheckResult(false, outcomes[i].value) else CheckResult(true, "")
  {
    var s := Start(p);
    var k := 0;
    assert run[0..] == run;
    while k < |run|
      invariant 0 <= k <= |run|
      invariant Legal(p, s, run[k..]) && End(p, s, run[k..]) == End(p, Start(p), run)
    {
      assert run[k..][0] == run[k] && run[k..][1..] == run[k + 1..];
      s := Apply(p, s, run[k]);
      k := k + 1;
    }
    EveryRunAnswers(p, run, outcomes);
    ChecksDeserve(p, s.checks, outcomes);
    resp, statusCode := Summarize(s.checks, order);
  }
}

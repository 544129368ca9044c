// Concurrent calls for one key, each split into reading the clock, the atomic
// load-or-store, and the separate store that replaces an expired entry.
module RateRace {
  import opened Text
  import RateLimit

  datatype Phase = Start | Timed | Replacing | Done(granted: bool)

  datatype State = State(phases: seq<Phase>, entry: Option<int>)

  // What does not change: the time that each call reads, and the cooldown.
  datatype Calls = Calls(times: seq<int>, cooldown: int) {
    function Expiry(i: nat): int
      requires i < |times|
    {
      times[i] + cooldown
    }
  }

  function Initial(c: Calls, entry: Option<int>): State {
    State(seq(|c.times|, _ => Start), entry)
  }

  // The next step of call i; a finished call takes none.
  function Step(c: Calls, s: State, i: nat): (r: State)
    requires |s.phases| == |c.times|
    ensures |r.phases| == |c.times|
  {
    if i >= |c.times| then s
    else
      match s.phases[i]
      case Start => s.(phases := s.phases[i := Timed])
      case Timed =>
        if s.entry.None? then State(s.phases[i := Done(true)], Some(c.Expiry(i)))
        else if c.times[i] < s.entry.value then s.(phases := s.phases[i := Done(false)])
        else s.(phases := s.phases[i := Replacing])
      case Replacing => State(s.phases[i := Done(true)], Some(c.Expiry(i)))
      case Done(_) => s
  }

  // The steps of the calls in the order in which the scheduler lets them.
  function Run(c: Calls, s: State, schedule: seq<nat>): (r: State)
    requires |s.phases| == |c.times|
    ensures |r.phases| == |c.times|
    decreases |schedule|
  {
    if schedule == [] then s else Run(c, Step(c, s, schedule[0]), schedule[1..])
  }

  predicate Complete(s: State) {
    forall i :: 0 <= i < |s.phases| ==> s.phases[i].Done?
  }

  predicate OneGranted(s: State) {
    exists w :: 0 <= w < |s.phases| && OnlyGrant(s, w)
  }

  predicate OnlyGrant(s: State, w: nat) {
    w < |s.phases| && s.phases[w] == Done(true) &&
    forall i :: 0 <= i < |s.phases| && i != w ==> s.phases[i] != Done(true)
  }

  // Nothing stored and no call past its clock reading.
  predicate Waiting(s: State) {
    s.entry.None? && forall i :: 0 <= i < |s.phases| ==> s.phases[i] in {Start, Timed}
  }

  // Call w won: its entry is stored, and no other call has been or can be granted.
  predicate Won(c: Calls, s: State, w: nat)
    requires |s.phases| == |c.times|
  {
    && w < |c.times|
    && s.entry == Some(c.Expiry(w))
    && s.phases[w] == Done(true)
    && forall i :: 0 <= i < |c.times| && i != w ==> s.phases[i] in {Start, Timed, Done(false)}
  }

  // Every call but w reads a time before the expiry that w would store.
  predicate Early(c: Calls, w: nat)
    requires w < |c.times|
  {
    forall i :: 0 <= i < |c.times| && i != w ==> c.times[i] < c.Expiry(w)
  }

  predicate AllEarly(c: Calls) {
    forall w :: 0 <= w < |c.times| ==> Early(c, w)
  }

  lemma {:induction false} WonStays(c: Calls, s: State, w: nat, schedule: seq<nat>)
    requires |s.phases| == |c.times| && Won(c, s, w) && Early(c, w)
    ensures Won(c, Run(c, s, schedule), w)
    decreases |schedule|
  {
    if schedule != [] {
      WonStays(c, Step(c, s, schedule[0]), w, schedule[1..]);
    }
  }

  // Each run either still waits, or the first call to store has won.
  lemma {:induction false} WaitingOrWon(c: Calls, s: State, schedule: seq<nat>)
    requires |s.phases| == |c.times| && Waiting(s)
    requires AllEarly(c)
    ensures Waiting(Run(c, s, schedule)) || exists w :: 0 <= w < |c.times| && Won(c, Run(c, s, schedule), w)
    decreases |schedule|
  {
    if schedule != [] {
      var i, t := schedule[0], Step(c, s, schedule[0]);
      if Waiting(t) {
        WaitingOrWon(c, t, schedule[1..]);
      } else {
        assert Won(c, t, i);
        WonStays(c, t, i, schedule[1..]);
      }
    }
  }

  // The stored entry never changes after the first store, and its call alone is granted,
  // in every continuation of every run in which the others read the clock in time.
  lemma FirstStoreIsFinal(c: Calls, before: seq<nat>, w: nat, after: seq<nat>)
    requires w < |c.times| && Early(c, w)
    requires var s := Run(c, Initial(c, None), before); Waiting(s) && s.phases[w] == Timed
    ensures var s := Run(c, Initial(c, None), before + [w] + after);
            s.entry == Some(c.Expiry(w)) && OnlyGrant(s, w)
  {
    var s := Run(c, Initial(c, None), before);
    RunConcat(c, Initial(c, None), before + [w], after);
    RunConcat(c, Initial(c, None), before, [w]);
    assert Run(c, s, [w]) == Step(c, s, w);
    assert Won(c, Step(c, s, w), w);
    WonStays(c, Step(c, s, w), w, after);
  }

  lemma {:induction false} RunConcat(c: Calls, s: State, p: seq<nat>, q: seq<nat>)
    requires |s.phases| == |c.times|
    ensures Run(c, s, p + q) == Run(c, Run(c, s, p), q)
    decreases |p|
  {
    if p == [] {
      assert p + q == q;
    } else {
      assert (p + q)[1..] == p[1..] + q;
      RunConcat(c, Step(c, s, p[0]), p[1..], q);
    }
  }

  lemma {:induction false} DoneStays(c: Calls, s: State, schedule: seq<nat>, i: nat)
    requires |s.phases| == |c.times| && i < |c.times| && s.phases[i].Done?
    ensures Run(c, s, schedule).phases[i] == s.phases[i]
    decreases |schedule|
  {
    if schedule != [] {
      DoneStays(c, Step(c, s, schedule[0]), schedule[1..], i);
    }
  }

  // Every run can be finished.
  lemma {:induction false} Finish(c: Calls, s: State, n: nat) returns (schedule: seq<nat>)
    requires |s.phases| == |c.times| && n <= |c.times|
    requires forall i :: n <= i < |c.times| ==> s.phases[i].Done?
    ensures Complete(Run(c, s, schedule))
    decreases n
  {
    if n == 0 {
      schedule := [];
    } else {
      var i := n - 1;
      var t := Step(c, Step(c, Step(c, s, i), i), i);
      assert Run(c, s, [i, i, i]) == t by {
        Thrice(c, s, i);
      }
      var rest := Finish(c, t, i);
      RunConcat(c, s, [i, i, i], rest);
      schedule := [i, i, i] + rest;
    }
  }

  lemma Thrice(c: Calls, s: State, i: nat)
    requires |s.phases| == |c.times|
    ensures Run(c, s, [i, i, i]) == Step(c, Step(c, Step(c, s, i), i), i)
  {
    var s1 := Step(c, s, i);
    var s2 := Step(c, s1, i);
    assert [i, i, i][1..] == [i, i] && [i, i][1..] == [i] && [i][1..] == [];
    assert Run(c, s2, [i]) == Step(c, s2, i);
    assert Run(c, s1, [i, i]) == Run(c, s2, [i]);
  }

  // ---- a call run alone is the atomic call ----

  // What the store has for the key.
  function EntryOf(store: RateLimit.Store, key: string): Option<int> {
    if key in store then Some(store[key]) else None
  }

  lemma AloneIsAtomic(c: Calls, s: State, i: nat, store: RateLimit.Store, key: string)
    requires |s.phases| == |c.times| && i < |c.times| && s.phases[i] == Start
    requires key in store <==> s.entry.Some?
    requires key in store ==> s.entry == Some(store[key])
    ensures var (left, answer) := RateLimit.Serve(store, c.cooldown, key, c.times[i]);
            var t := Run(c, s, [i, i, i]);
            && t.phases == s.phases[i := Done(answer.allowed)]
            && key in left && t.entry == Some(left[key])
  {
    Thrice(c, s, i);
    var t := Run(c, s, [i, i, i]);
    var (left, answer) := RateLimit.Serve(store, c.cooldown, key, c.times[i]);
    assert t.phases == s.phases[i := Done(answer.allowed)];
  }

  // All of these calls, one after the other.
  function InTurn(order: seq<nat>): seq<nat> {
    if order == [] then [] else [order[0], order[0], order[0]] + InTurn(order[1..])
  }

  function AsOps(c: Calls, key: string, order: seq<nat>): (ops: seq<RateLimit.Op>)
    requires forall k :: 0 <= k < |order| ==> order[k] < |c.times|
    ensures |ops| == |order| && forall k :: 0 <= k < |order| ==> ops[k] == RateLimit.Allow(key, c.times[order[k]])
  {
    if order == [] then [] else [RateLimit.Allow(key, c.times[order[0]])] + AsOps(c, key, order[1..])
  }

  // None of these calls has begun.
  ghost predicate Fresh(c: Calls, s: State, order: seq<nat>)
    requires |s.phases| == |c.times|
  {
    NoRepeats(order) && forall k :: 0 <= k < |order| ==> order[k] < |c.times| && s.phases[order[k]] == Start
  }

  lemma RestFresh(c: Calls, s: State, t: State, order: seq<nat>, p: Phase)
    requires |s.phases| == |c.times| && order != [] && Fresh(c, s, order)
    requires t.phases == s.phases[order[0] := p]
    ensures Fresh(c, t, order[1..])
  {
    var rest := order[1..];
    assert forall k :: 0 <= k < |rest| ==> rest[k] == order[k + 1] && rest[k] != order[0];
  }

  // Calls that do not overlap get the answers of the atomic limiter.
  lemma {:induction false} InTurnIsAtomic(c: Calls, s: State, order: seq<nat>, store: RateLimit.Store, key: string,
                                          k: nat)
    requires |s.phases| == |c.times| && Fresh(c, s, order) && EntryOf(store, key) == s.entry && k < |order|
    ensures var answers := RateLimit.Answers(AsOps(c, key, order), store, c.cooldown);
            k < |answers| && Run(c, s, InTurn(order)).phases[order[k]] == Done(answers[k].allowed)
    decreases |order|
  {
    var i := order[0];
    var (left, answer) := RateLimit.Serve(store, c.cooldown, key, c.times[i]);
    AloneIsAtomic(c, s, i, store, key);
    FirstInTurn(c, s, order);
    FirstAnswer(c, order, store, key);
    if k > 0 {
      var t := Run(c, s, [i, i, i]);
      RestFresh(c, s, t, order, Done(answer.allowed));
      InTurnIsAtomic(c, t, order[1..], left, key, k - 1);
    }
  }

  lemma FirstInTurn(c: Calls, s: State, order: seq<nat>)
    requires |s.phases| == |c.times| && order != [] && order[0] < |c.times|
    requires Run(c, s, [order[0], order[0], order[0]]).phases[order[0]].Done?
    ensures var t := Run(c, s, [order[0], order[0], order[0]]);
            && Run(c, s, InTurn(order)) == Run(c, t, InTurn(order[1..]))
            && Run(c, s, InTurn(order)).phases[order[0]] == t.phases[order[0]]
  {
    var i, rest := order[0], order[1..];
    RunConcat(c, s, [i, i, i], InTurn(rest));
    DoneStays(c, Run(c, s, [i, i, i]), InTurn(rest), i);
  }

  lemma FirstAnswer(c: Calls, order: seq<nat>, store: RateLimit.Store, key: string)
    requires order != [] && forall k :: 0 <= k < |order| ==> order[k] < |c.times|
    ensures var (left, answer) := RateLimit.Serve(store, c.cooldown, key, c.times[order[0]]);
            RateLimit.Answers(AsOps(c, key, order), store, c.cooldown) ==
            [answer] + RateLimit.Answers(AsOps(c, key, order[1..]), left, c.cooldown)
  {
    assert AsOps(c, key, order)[1..] == AsOps(c, key, order[1..]);
  }

  // ---- the entry is that of the last call to store ----

  // At step n the call that steps is granted, and stores.
  predicate StoresAt(c: Calls, s: State, schedule: seq<nat>, n: nat)
    requires |s.phases| == |c.times| && n < |schedule|
  {
    var before, after := Run(c, s, schedule[..n]), Run(c, s, schedule[..n + 1]);
    var w := schedule[n];
    w < |c.times| && before.phases[w] != Done(true) && after.phases[w] == Done(true)
  }

  predicate LastToStore(c: Calls, s: State, schedule: seq<nat>, n: nat)
    requires |s.phases| == |c.times|
  {
    && n < |schedule| && StoresAt(c, s, schedule, n)
    && forall m :: n < m < |schedule| ==> !StoresAt(c, s, schedule, m)
  }

  lemma StoredEarlier(c: Calls, s: State, front: seq<nat>, w: nat, m: nat)
    requires |s.phases| == |c.times| && m < |front|
    ensures StoresAt(c, s, front + [w], m) == StoresAt(c, s, front, m)
  {
    var schedule := front + [w];
    assert schedule[..m] == front[..m] && schedule[..m + 1] == front[..m + 1];
  }

  lemma StepStores(c: Calls, s: State, front: seq<nat>, w: nat)
    requires |s.phases| == |c.times|
    ensures var t := Run(c, s, front + [w]);
            if StoresAt(c, s, front + [w], |front|) then w < |c.times| && t.entry == Some(c.times[w] + c.cooldown)
            else t.entry == Run(c, s, front).entry
  {
    var schedule, u := front + [w], Run(c, s, front);
    assert schedule[..|front|] == front && schedule[..|front| + 1] == schedule;
    RunConcat(c, s, front, [w]);
    assert [w][1..] == [] && Run(c, u, [w]) == Step(c, u, w);
  }

  lemma StillLast(c: Calls, s: State, front: seq<nat>, w: nat, n: nat)
    requires |s.phases| == |c.times| && LastToStore(c, s, front, n)
    requires !StoresAt(c, s, front + [w], |front|)
    ensures LastToStore(c, s, front + [w], n)
  {
    StoredEarlier(c, s, front, w, n);
    forall m | n < m < |front + [w]| ensures !StoresAt(c, s, front + [w], m) {
      if m < |front| {
        StoredEarlier(c, s, front, w, m);
      }
    }
  }

  predicate NoneStores(c: Calls, s: State, schedule: seq<nat>)
    requires |s.phases| == |c.times|
  {
    forall m :: 0 <= m < |schedule| ==> !StoresAt(c, s, schedule, m)
  }

  lemma StillNone(c: Calls, s: State, front: seq<nat>, w: nat)
    requires |s.phases| == |c.times| && NoneStores(c, s, front)
    requires !StoresAt(c, s, front + [w], |front|)
    ensures NoneStores(c, s, front + [w])
  {
    forall m | 0 <= m < |front + [w]| ensures !StoresAt(c, s, front + [w], m) {
      if m < |front| {
        StoredEarlier(c, s, front, w, m);
      }
    }
  }

  // After any run the entry is the expiry of the call that stored last; if none did, the one
  // with which the run began.
  lemma {:induction false} EntryOfLastStore(c: Calls, s: State, schedule: seq<nat>) returns (last: Option<nat>)
    requires |s.phases| == |c.times|
    ensures last.None? ==> NoneStores(c, s, schedule) && Run(c, s, schedule).entry == s.entry
    ensures last.Some? ==>
              && LastToStore(c, s, schedule, last.value) && schedule[last.value] < |c.times|
              && Run(c, s, schedule).entry == Some(c.times[schedule[last.value]] + c.cooldown)
    decreases |schedule|
  {
    if schedule == [] {
      last := None;
    } else {
      var n := |schedule| - 1;
      var front, w := schedule[..n], schedule[n];
      assert schedule == front + [w];
      last := EntryOfLastStore(c, s, front);
      StepStores(c, s, front, w);
      if StoresAt(c, s, schedule, n) {
        last := Some(n);
      } else if last.Some? {
        StillLast(c, s, front, w, last.value);
      } else {
        StillNone(c, s, front, w);
      }
    }
  }

  // ---- runs that the clock allows ----

  // No call reads the clock before one that read an earlier time.
  predicate ByClock(c: Calls, s: State, schedule: seq<nat>)
    requires |s.phases| == |c.times|
    decreases |schedule|
  {
    schedule != [] ==> InOrder(c, s, schedule[0]) && ByClock(c, Step(c, s, schedule[0]), schedule[1..])
  }

  predicate InOrder(c: Calls, s: State, i: nat)
    requires |s.phases| == |c.times|
  {
    i < |c.times| && s.phases[i] == Start ==>
      forall j :: 0 <= j < |c.times| && s.phases[j] != Start ==> c.times[j] <= c.times[i]
  }

  lemma {:induction false} ByClockConcat(c: Calls, s: State, p: seq<nat>, q: seq<nat>)
    requires |s.phases| == |c.times|
    requires ByClock(c, s, p) && ByClock(c, Run(c, s, p), q)
    ensures ByClock(c, s, p + q)
    decreases |p|
  {
    if p == [] {
      assert p + q == q;
    } else {
      assert (p + q)[1..] == p[1..] + q;
      ByClockConcat(c, Step(c, s, p[0]), p[1..], q);
    }
  }

  predicate AllRead(s: State) {
    forall i :: 0 <= i < |s.phases| ==> s.phases[i] != Start
  }

  lemma {:induction false} ReadIsByClock(c: Calls, s: State, schedule: seq<nat>)
    requires |s.phases| == |c.times| && AllRead(s)
    ensures ByClock(c, s, schedule)
    decreases |schedule|
  {
    if schedule != [] {
      ReadIsByClock(c, Step(c, s, schedule[0]), schedule[1..]);
    }
  }

  function Unread(s: State): set<nat> {
    set i: nat | i < |s.phases| && s.phases[i] == Start
  }

  // The calls have read the clock in time order so far.
  ghost predicate Reading(c: Calls, s: State) {
    && |s.phases| == |c.times|
    && (forall i :: 0 <= i < |s.phases| ==> s.phases[i] in {Start, Timed})
    && (forall i, j :: 0 <= i < |s.phases| && 0 <= j < |s.phases| && s.phases[i] == Timed && s.phases[j] == Start ==>
          c.times[i] <= c.times[j])
  }

  lemma {:induction false} Earliest(c: Calls, calls: set<nat>) returns (m: nat)
    requires calls != {} && forall i :: i in calls ==> i < |c.times|
    ensures m in calls && forall i :: i in calls ==> c.times[m] <= c.times[i]
    decreases |calls|
  {
    var first :| first in calls;
    m := first;
    var rest := calls - {first};
    if rest != {} {
      var r := Earliest(c, rest);
      m := if c.times[r] < c.times[first] then r else first;
      assert forall i :: i in calls ==> i == first || i in rest;
    } else {
      assert forall i :: i in calls ==> i == first || i in rest;
    }
  }

  // All calls can read the clock, in time order, before any of them goes on.
  lemma {:induction false} ReadAll(c: Calls, s: State) returns (schedule: seq<nat>)
    requires Reading(c, s)
    ensures ByClock(c, s, schedule)
    ensures Run(c, s, schedule) == State(seq(|c.times|, _ => Timed), s.entry)
    decreases |Unread(s)|
  {
    if Unread(s) == {} {
      schedule := [];
      forall i | 0 <= i < |s.phases| ensures s.phases[i] == Timed {
        assert i !in Unread(s);
      }
      assert s.phases == seq(|c.times|, _ => Timed);
    } else {
      var m := Earliest(c, Unread(s));
      var t := Step(c, s, m);
      forall i | 0 <= i < |t.phases| && t.phases[i] == Start ensures c.times[m] <= c.times[i] {
        assert i in Unread(s);
      }
      assert Unread(t) == Unread(s) - {m};
      var rest := ReadAll(c, t);
      schedule := [m] + rest;
    }
  }

  // Whatever comes after all calls have read the clock can follow such a beginning, and
  // the run can be finished.
  lemma Continue(c: Calls, entry: Option<int>, middle: seq<nat>) returns (schedule: seq<nat>)
    ensures ByClock(c, Initial(c, entry), schedule)
    ensures var s := Run(c, State(seq(|c.times|, _ => Timed), entry), middle);
            var r := Run(c, Initial(c, entry), schedule);
            Complete(r) && forall i :: 0 <= i < |c.times| && s.phases[i].Done? ==> r.phases[i] == s.phases[i]
  {
    var start, read := Initial(c, entry), State(seq(|c.times|, _ => Timed), entry);
    var front := ReadAll(c, start);
    var s := Run(c, read, middle);
    var rest := Finish(c, s, |c.times|);
    RunConcat(c, read, middle, rest);
    RunConcat(c, start, front, middle + rest);
    ReadIsByClock(c, read, middle + rest);
    ByClockConcat(c, start, front, middle + rest);
    schedule := front + (middle + rest);
    forall i | 0 <= i < |c.times| && s.phases[i].Done? ensures Run(c, s, rest).phases[i] == s.phases[i] {
      DoneStays(c, s, rest, i);
    }
  }

  // ---- an absent key ----

  // A call that reads a time at or after the expiry stored by another is granted too.
  lemma LateCallIsGranted(c: Calls, i: nat, j: nat) returns (schedule: seq<nat>)
    requires i < |c.times| && j < |c.times| && i != j
    requires c.times[i] >= c.Expiry(j)
    ensures ByClock(c, Initial(c, None), schedule)
    ensures var s := Run(c, Initial(c, None), schedule);
            Complete(s) && s.phases[i] == Done(true) && s.phases[j] == Done(true)
  {
    var s := State(seq(|c.times|, _ => Timed), None);
    var middle := [j, i, i];
    var t := Step(c, s, j);
    assert middle[1..] == [i, i] && [i, i][1..] == [i];
    assert Run(c, Step(c, t, i), [i]) == Step(c, Step(c, t, i), i);
    assert Run(c, t, [i, i]) == Step(c, Step(c, t, i), i);
    schedule := Continue(c, None, middle);
  }

  // Every finished run that the clock allows grants exactly one call.
  ghost predicate AlwaysOne(c: Calls, entry: Option<int>) {
    forall schedule :: ByClock(c, Initial(c, entry), schedule) && Complete(Run(c, Initial(c, entry), schedule)) ==>
      OneGranted(Run(c, Initial(c, entry), schedule))
  }

  lemma AbsentKeyOneWinner(c: Calls, schedule: seq<nat>)
    requires |c.times| > 0 && Complete(Run(c, Initial(c, None), schedule))
    requires AllEarly(c)
    ensures OneGranted(Run(c, Initial(c, None), schedule))
  {
    var s := Run(c, Initial(c, None), schedule);
    WaitingOrWon(c, Initial(c, None), schedule);
    assert !Waiting(s) by {
      assert s.phases[0].Done?;
    }
    var w :| 0 <= w < |c.times| && Won(c, s, w);
    assert OnlyGrant(s, w);
  }

  // From an absent key, every finished run grants exactly one call if and only if no call
  // reads a time at or after the expiry that another would store; then even the runs that
  // no clock allows do.
  lemma AbsentKeyGrantsOne(c: Calls)
    requires |c.times| > 0
    ensures AlwaysOne(c, None) <==> AllEarly(c)
    ensures AllEarly(c) <==> forall schedule ::
              Complete(Run(c, Initial(c, None), schedule)) ==> OneGranted(Run(c, Initial(c, None), schedule))
  {
    if AllEarly(c) {
      forall schedule | Complete(Run(c, Initial(c, None), schedule))
        ensures OneGranted(Run(c, Initial(c, None), schedule))
      {
        AbsentKeyOneWinner(c, schedule);
      }
    } else {
      var j :| 0 <= j < |c.times| && !Early(c, j);
      var i :| 0 <= i < |c.times| && i != j && c.times[i] >= c.Expiry(j);
      var schedule := LateCallIsGranted(c, i, j);
      var s := Run(c, Initial(c, None), schedule);
      assert !OneGranted(s) by {
        forall w | 0 <= w < |s.phases| ensures !OnlyGrant(s, w) {
          assert i != w || j != w;
        }
      }
    }
  }

  // ---- a stored key ----

  predicate Granted(s: State, i: nat) {
    i < |s.phases| && s.phases[i] == Done(true)
  }

  predicate AtMostOneGranted(s: State) {
    forall i, j :: 0 <= i < j < |s.phases| ==> !(Granted(s, i) && Granted(s, j))
  }

  predicate SomeGranted(s: State) {
    exists w :: 0 <= w < |s.phases| && Granted(s, w)
  }

  // Only calls that read a time at or after the expiry get to replace the entry; the entry
  // never expires sooner than it did, and later only once a call has been granted.
  predicate Stored(c: Calls, s: State, expiry: int) {
    && |s.phases| == |c.times|
    && s.entry.Some? && s.entry.value >= expiry
    && (s.entry.value > expiry ==> SomeGranted(s))
    && (forall i :: 0 <= i < |s.phases| && s.phases[i] in {Replacing, Done(true)} ==> c.times[i] >= expiry)
    && (forall i :: 0 <= i < |s.phases| && s.phases[i] == Done(false) && c.times[i] >= expiry ==> SomeGranted(s))
  }

  lemma StoredStep(c: Calls, s: State, expiry: int, i: nat)
    requires c.cooldown >= 0 && Stored(c, s, expiry)
    ensures Stored(c, Step(c, s, i), expiry)
  {
    var t := Step(c, s, i);
    if SomeGranted(s) {
      var w :| 0 <= w < |s.phases| && Granted(s, w);
      assert Granted(t, w);
    }
    if i < |c.times| && s.phases[i] == Replacing {
      assert Granted(t, i);
    }
  }

  lemma {:induction false} StoredRun(c: Calls, s: State, expiry: int, schedule: seq<nat>)
    requires c.cooldown >= 0 && Stored(c, s, expiry)
    ensures Stored(c, Run(c, s, schedule), expiry)
    decreases |schedule|
  {
    if schedule != [] {
      StoredStep(c, s, expiry, schedule[0]);
      StoredRun(c, Step(c, s, schedule[0]), expiry, schedule[1..]);
    }
  }

  // Two calls that read a time at or after the expiry can both find the entry expired
  // before either replaces it.
  lemma BothReplace(c: Calls, expiry: int, i: nat, j: nat) returns (schedule: seq<nat>)
    requires i < |c.times| && j < |c.times| && i != j
    requires c.times[i] >= expiry && c.times[j] >= expiry
    ensures ByClock(c, Initial(c, Some(expiry)), schedule)
    ensures var s := Run(c, Initial(c, Some(expiry)), schedule); Complete(s) && Granted(s, i) && Granted(s, j)
  {
    var s := State(seq(|c.times|, _ => Timed), Some(expiry));
    var middle := [i, j, i, j];
    var s1 := Step(c, s, i);
    var s2 := Step(c, s1, j);
    var s3 := Step(c, s2, i);
    assert middle[1..] == [j, i, j] && [j, i, j][1..] == [i, j] && [i, j][1..] == [j];
    assert Run(c, s3, [j]) == Step(c, s3, j);
    assert Run(c, s2, [i, j]) == Run(c, s3, [j]);
    assert Run(c, s1, [j, i, j]) == Run(c, s2, [i, j]);
    schedule := Continue(c, Some(expiry), middle);
  }

  ghost predicate AlwaysAtMostOne(c: Calls, entry: Option<int>) {
    forall schedule :: ByClock(c, Initial(c, entry), schedule) && Complete(Run(c, Initial(c, entry), schedule)) ==>
      AtMostOneGranted(Run(c, Initial(c, entry), schedule))
  }

  predicate NoTwoLate(c: Calls, expiry: int) {
    forall i, j :: 0 <= i < j < |c.times| ==> !(c.times[i] >= expiry && c.times[j] >= expiry)
  }

  // From a stored entry, every finished run grants some call exactly when some call reads a
  // time at or after its expiry.
  lemma StoredKeyGrantsSome(c: Calls, expiry: int, schedule: seq<nat>)
    requires c.cooldown >= 0 && Complete(Run(c, Initial(c, Some(expiry)), schedule))
    ensures SomeGranted(Run(c, Initial(c, Some(expiry)), schedule)) <==>
            exists i :: 0 <= i < |c.times| && c.times[i] >= expiry
  {
    var s := Run(c, Initial(c, Some(expiry)), schedule);
    StoredRun(c, Initial(c, Some(expiry)), expiry, schedule);
    if i :| 0 <= i < |c.times| && c.times[i] >= expiry {
      assert s.phases[i].Done?;
      assert s.phases[i] == Done(true) ==> Granted(s, i);
    }
    if w :| 0 <= w < |s.phases| && Granted(s, w) {
      assert c.times[w] >= expiry;
    }
  }

  // And every finished run grants at most one exactly when no two calls read such a time:
  // the check and the update are not one step.
  lemma StoredKeyGrantsAtMostOne(c: Calls, expiry: int)
    requires c.cooldown >= 0
    ensures AlwaysAtMostOne(c, Some(expiry)) <==> NoTwoLate(c, expiry)
    ensures NoTwoLate(c, expiry) <==> forall schedule :: AtMostOneGranted(Run(c, Initial(c, Some(expiry)), schedule))
  {
    if i, j :| 0 <= i < j < |c.times| && c.times[i] >= expiry && c.times[j] >= expiry {
      var schedule := BothReplace(c, expiry, i, j);
      assert !AtMostOneGranted(Run(c, Initial(c, Some(expiry)), schedule));
    } else {
      forall schedule ensures AtMostOneGranted(Run(c, Initial(c, Some(expiry)), schedule)) {
        StoredRun(c, Initial(c, Some(expiry)), expiry, schedule);
      }
    }
  }

  // ---- the cooldown between grants ----

  predicate Close(c: Calls, i: nat, j: nat)
    requires i < |c.times| && j < |c.times|
  {
    -c.cooldown < c.times[i] - c.times[j] < c.cooldown
  }

  // All grants are at least the cooldown apart.
  predicate WindowKept(c: Calls, s: State)
    requires |s.phases| == |c.times|
  {
    forall i, j :: 0 <= i < j < |s.phases| && Granted(s, i) && Granted(s, j) ==> !Close(c, i, j)
  }

  // Every finished run that the clock allows keeps them so.
  ghost predicate AlwaysKept(c: Calls, entry: Option<int>) {
    forall schedule :: ByClock(c, Initial(c, entry), schedule) && Complete(Run(c, Initial(c, entry), schedule)) ==>
      WindowKept(c, Run(c, Initial(c, entry), schedule))
  }

  predicate NoTwoLateClose(c: Calls, expiry: int) {
    forall i, j :: 0 <= i < j < |c.times| && c.times[i] >= expiry && c.times[j] >= expiry ==> !Close(c, i, j)
  }

  // From a stored entry, one grant per cooldown is what callers get exactly when no two
  // calls that read a time at or after its expiry are closer than the cooldown; then even
  // the runs that no clock allows keep to it.
  lemma StoredKeyKeepsWindow(c: Calls, expiry: int)
    requires c.cooldown >= 0
    ensures AlwaysKept(c, Some(expiry)) <==> NoTwoLateClose(c, expiry)
    ensures NoTwoLateClose(c, expiry) <==> forall schedule :: WindowKept(c, Run(c, Initial(c, Some(expiry)), schedule))
  {
    if NoTwoLateClose(c, expiry) {
      forall schedule ensures WindowKept(c, Run(c, Initial(c, Some(expiry)), schedule)) {
        StoredRun(c, Initial(c, Some(expiry)), expiry, schedule);
      }
    } else {
      var i, j :| 0 <= i < j < |c.times| && c.times[i] >= expiry && c.times[j] >= expiry && Close(c, i, j);
      var schedule := BothReplace(c, expiry, i, j);
      assert !WindowKept(c, Run(c, Initial(c, Some(expiry)), schedule));
    }
  }

  // Call w stored first: only calls that read a time at or after the expiry it stored get to
  // replace its entry.
  predicate StoredBy(c: Calls, s: State, w: nat)
    requires |s.phases| == |c.times|
  {
    && w < |c.times|
    && s.entry.Some? && s.entry.value >= c.Expiry(w)
    && s.phases[w] == Done(true)
    && forall i :: 0 <= i < |s.phases| && i != w && s.phases[i] in {Replacing, Done(true)} ==> c.times[i] >= c.Expiry(w)
  }

  lemma {:induction false} StoredByStays(c: Calls, s: State, w: nat, schedule: seq<nat>)
    requires c.cooldown >= 0 && |s.phases| == |c.times| && StoredBy(c, s, w)
    ensures StoredBy(c, Run(c, s, schedule), w)
    decreases |schedule|
  {
    if schedule != [] {
      StoredByStays(c, Step(c, s, schedule[0]), w, schedule[1..]);
    }
  }

  lemma {:induction false} WaitingOrStored(c: Calls, s: State, schedule: seq<nat>)
    requires c.cooldown >= 0 && |s.phases| == |c.times| && Waiting(s)
    ensures Waiting(Run(c, s, schedule)) || exists w :: 0 <= w < |c.times| && StoredBy(c, Run(c, s, schedule), w)
    decreases |schedule|
  {
    if schedule != [] {
      var i, t := schedule[0], Step(c, s, schedule[0]);
      if Waiting(t) {
        WaitingOrStored(c, t, schedule[1..]);
      } else {
        assert StoredBy(c, t, i);
        StoredByStays(c, t, i, schedule[1..]);
      }
    }
  }

  // Calls g and h read times at or after the expiry that another call, f, would store.
  predicate BothAfter(c: Calls, f: nat, g: nat, h: nat)
    requires f < |c.times| && g < |c.times| && h < |c.times|
  {
    f != g && f != h && c.times[g] >= c.Expiry(f) && c.times[h] >= c.Expiry(f)
  }

  // No two calls closer than the cooldown both come after the expiry a third would store.
  predicate NoThreeClose(c: Calls) {
    forall f, g, h :: 0 <= f < |c.times| && 0 <= g < h < |c.times| && BothAfter(c, f, g, h) ==> !Close(c, g, h)
  }

  lemma AbsentRunKeeps(c: Calls, schedule: seq<nat>)
    requires c.cooldown >= 0 && NoThreeClose(c)
    ensures WindowKept(c, Run(c, Initial(c, None), schedule))
  {
    var s := Run(c, Initial(c, None), schedule);
    WaitingOrStored(c, Initial(c, None), schedule);
    if !Waiting(s) {
      var w :| 0 <= w < |c.times| && StoredBy(c, s, w);
      forall i, j | 0 <= i < j < |s.phases| && Granted(s, i) && Granted(s, j) ensures !Close(c, i, j) {
        assert i != w ==> c.times[i] >= c.Expiry(w);
        assert j != w ==> c.times[j] >= c.Expiry(w);
        assert i != w && j != w ==> BothAfter(c, w, i, j);
      }
    }
  }

  lemma ThreeGrants(c: Calls, f: nat, g: nat, h: nat) returns (schedule: seq<nat>)
    requires f < |c.times| && g < |c.times| && h < |c.times| && g != h && BothAfter(c, f, g, h)
    ensures ByClock(c, Initial(c, None), schedule)
    ensures var s := Run(c, Initial(c, None), schedule); Complete(s) && Granted(s, g) && Granted(s, h)
  {
    var s := State(seq(|c.times|, _ => Timed), None);
    var middle := [f, g, h, g, h];
    var s1 := Step(c, s, f);
    var s2 := Step(c, s1, g);
    var s3 := Step(c, s2, h);
    var s4 := Step(c, s3, g);
    assert middle[1..] == [g, h, g, h] && [g, h, g, h][1..] == [h, g, h];
    assert [h, g, h][1..] == [g, h] && [g, h][1..] == [h];
    assert Run(c, s4, [h]) == Step(c, s4, h);
    assert Run(c, s3, [g, h]) == Run(c, s4, [h]);
    assert Run(c, s2, [h, g, h]) == Run(c, s3, [g, h]);
    assert Run(c, s1, [g, h, g, h]) == Run(c, s2, [h, g, h]);
    schedule := Continue(c, None, middle);
  }

  // From an absent key, one grant per cooldown is what callers get exactly when that is so.
  lemma AbsentKeyKeepsWindow(c: Calls)
    requires c.cooldown >= 0
    ensures AlwaysKept(c, None) <==> NoThreeClose(c)
    ensures NoThreeClose(c) <==> forall schedule :: WindowKept(c, Run(c, Initial(c, None), schedule))
  {
    if NoThreeClose(c) {
      forall schedule ensures WindowKept(c, Run(c, Initial(c, None), schedule)) {
        AbsentRunKeeps(c, schedule);
      }
    } else {
      var f, g, h :| 0 <= f < |c.times| && 0 <= g < h < |c.times| && BothAfter(c, f, g, h) && Close(c, g, h);
      var schedule := ThreeGrants(c, f, g, h);
      assert !WindowKept(c, Run(c, Initial(c, None), schedule));
    }
  }

  // Two calls that read the same time, granted both.
  lemma ExpiredKeyCanGrantTwo(now: int, expiry: int, cooldown: int)
    requires expiry <= now && cooldown > 0
    ensures var c := Calls([now, now], cooldown);
            var s := Run(c, Initial(c, Some(expiry)), [0, 1, 0, 1, 0, 1]);
            s.phases == [Done(true), Done(true)] && !WindowKept(c, s)
  {
    var c := Calls([now, now], cooldown);
    var s := Initial(c, Some(expiry));
    RunConcat(c, s, [0, 1], [0, 1, 0, 1]);
    assert Run(c, s, [0, 1]).phases == [Timed, Timed];
    var t := Run(c, s, [0, 1]);
    RunConcat(c, t, [0, 1], [0, 1]);
    assert Run(c, t, [0, 1]).phases == [Replacing, Replacing];
    assert [0, 1] + [0, 1, 0, 1] == [0, 1, 0, 1, 0, 1];
    assert [0, 1] + [0, 1] == [0, 1, 0, 1];
    var u := Run(c, s, [0, 1, 0, 1, 0, 1]);
    assert u.phases == [Done(true), Done(true)];
    assert Granted(u, 0) && Granted(u, 1) && Close(c, 0, 1);
  }
}

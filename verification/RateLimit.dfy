// The keyed rate limiter over a clock, with every call a single step.
module RateLimit {
  // The expiry of each key's entry.
  type Store = map<string, int>

  datatype Answer = Answer(allowed: bool, retryAfter: int)

  function Expired(store: Store, key: string, now: int): bool {
    key !in store || !(now < store[key])
  }

  class Limiter {
    const cooldown: int
    var store: Store

    constructor (cooldown: int)
      ensures this.cooldown == cooldown && store == map[]
    {
      this.cooldown := cooldown;
      store := map[];
    }

    method Allow(key: string, now: int) returns (allowed: bool, retryAfter: int)
      modifies this
      ensures (store, Answer(allowed, retryAfter)) == Serve(old(store), cooldown, key, now)
      ensures allowed <==> key !in old(store) || now >= old(store)[key]
      ensures allowed ==> retryAfter == 0 && store == old(store)[key := now + cooldown]
      ensures !allowed ==> retryAfter == old(store)[key] - now && store == old(store)
    {
      var newEntry := now + cooldown;
      if key !in store {
        store := store[key := newEntry];
        return true, 0;
      }
      var e := store[key];
      if now < e {
        return false, e - now;
      }
      store := store[key := newEntry];
      return true, 0;
    }

    // Whenever it comes, the next call for the key is granted; calls for the others are
    // answered as before.
    method Reset(key: string)
      modifies this
      ensures store == old(store) - {key}
      ensures forall now :: Serve(store, cooldown, key, now).1 == Answer(true, 0)
      ensures forall k, now :: k != key ==> Serve(store, cooldown, k, now).1 == Serve(old(store), cooldown, k, now).1
    {
      store := store - {key};
    }

    // One pass of the background eviction, over the keys in any order.
    method Cleanup(now: int, order: seq<string>)
      requires forall k :: k in order <==> k in store
      modifies this
      ensures store == map k | k in old(store) && !(now > old(store)[k]) :: old(store)[k]
      ensures store == EvictAll(old(store), order, now)
    {
      var i := 0;
      ghost var was := store;
      assert order[0..] == order;
      while i < |order|
        invariant 0 <= i <= |order|
        invariant EvictAll(store, order[i..], now) == EvictAll(was, order, now)
        invariant forall k :: k in store <==> k in was && !(k in order[..i] && now > was[k])
        invariant forall k :: k in store ==> store[k] == was[k]
      {
        var key := order[i];
        assert order[i..][1..] == order[i + 1..];
        assert order[..i + 1] == order[..i] + [key];
        if key in store && now > store[key] {
          store := store - {key};
        }
        i := i + 1;
      }
      assert order[..i] == order;
    }
  }

  // The answer to one call and the store after it.
  function Serve(store: Store, cooldown: int, key: string, now: int): (Store, Answer) {
    if Expired(store, key, now) then (store[key := now + cooldown], Answer(true, 0))
    else (store, Answer(false, store[key] - now))
  }

  function EvictOne(store: Store, key: string, captured: int): Store {
    if key in store && captured > store[key] then store - {key} else store
  }

  function EvictAll(store: Store, order: seq<string>, captured: int): Store {
    if order == [] then store else EvictAll(EvictOne(store, order[0], captured), order[1..], captured)
  }

  // ---- runs ----

  datatype Op = Allow(key: string, at: int) | Reset(key: string) | Evict(key: string, captured: int)

  function Next(store: Store, cooldown: int, op: Op): Store {
    match op
    case Allow(key, at) => Serve(store, cooldown, key, at).0
    case Reset(key) => store - {key}
    case Evict(key, captured) => EvictOne(store, key, captured)
  }

  // The answers of the calls in a run.
  function Answers(ops: seq<Op>, store: Store, cooldown: int): seq<Answer>
    decreases |ops|
  {
    if ops == [] then []
    else
      (if ops[0].Allow? then [Serve(store, cooldown, ops[0].key, ops[0].at).1] else [])
      + Answers(ops[1..], Next(store, cooldown, ops[0]), cooldown)
  }

  function WithoutEvictions(ops: seq<Op>): seq<Op> {
    if ops == [] then []
    else (if ops[0].Evict? then [] else [ops[0]]) + WithoutEvictions(ops[1..])
  }

  // Every later call happens at or after this time.
  predicate Before(time: int, ops: seq<Op>) {
    forall i :: 0 <= i < |ops| && ops[i].Allow? ==> time <= ops[i].at
  }

  // The clock never goes back; the evictor may use a time it read any while ago.
  predicate Timely(ops: seq<Op>) {
    forall i :: 0 <= i < |ops| ==>
      match ops[i]
      case Allow(_, at) => Before(at, ops[i + 1..])
      case Evict(_, captured) => Before(captured, ops[i + 1..])
      case Reset(_) => true
  }

  lemma TimelyTail(ops: seq<Op>)
    requires ops != [] && Timely(ops)
    ensures Timely(ops[1..])
  {
    var rest := ops[1..];
    forall i | 0 <= i < |rest|
      ensures match rest[i]
              case Allow(_, at) => Before(at, rest[i + 1..])
              case Evict(_, captured) => Before(captured, rest[i + 1..])
              case Reset(_) => true
    {
      assert ops[i + 1] == rest[i] && rest[i + 1..] == ops[i + 2..];
    }
  }

  // ---- eviction is invisible ----

  // The evicting store lacks only entries that no later call will find alive.
  ghost predicate Shadows(evicting: Store, keeping: Store, ops: seq<Op>) {
    && (forall k :: k in evicting ==> k in keeping && evicting[k] == keeping[k])
    && (forall k :: k in keeping && k !in evicting ==> Before(keeping[k], ops))
  }

  // The step of a limiter that never evicts.
  function KeptNext(store: Store, cooldown: int, op: Op): Store {
    if op.Evict? then store else Next(store, cooldown, op)
  }

  lemma ShadowStep(evicting: Store, keeping: Store, cooldown: int, ops: seq<Op>)
    requires ops != [] && Timely(ops) && Shadows(evicting, keeping, ops)
    ensures var op := ops[0];
            && Shadows(Next(evicting, cooldown, op), KeptNext(keeping, cooldown, op), ops[1..])
            && (op.Allow? ==> Serve(evicting, cooldown, op.key, op.at).1 == Serve(keeping, cooldown, op.key, op.at).1)
  {
    forall k | k in keeping && k !in evicting ensures Before(keeping[k], ops[1..]) {
      assert Before(keeping[k], ops);
      forall i | 0 <= i < |ops[1..]| && ops[1..][i].Allow? ensures keeping[k] <= ops[1..][i].at {
        assert ops[i + 1] == ops[1..][i];
      }
    }
    match ops[0] {
      case Allow(key, at) =>
        if key in keeping && key !in evicting {
          assert Before(keeping[key], ops);
        }
      case Reset(key) =>
      case Evict(key, captured) =>
        if key in evicting && captured > evicting[key] {
          assert Before(captured, ops[1..]);
        }
    }
  }

  lemma {:induction false} EvictionIsShadowed(evicting: Store, keeping: Store, cooldown: int, ops: seq<Op>)
    requires Timely(ops) && Shadows(evicting, keeping, ops)
    ensures Answers(ops, evicting, cooldown) == Answers(WithoutEvictions(ops), keeping, cooldown)
    decreases |ops|
  {
    if ops != [] {
      var op := ops[0];
      var more := WithoutEvictions(ops[1..]);
      ShadowStep(evicting, keeping, cooldown, ops);
      TimelyTail(ops);
      EvictionIsShadowed(Next(evicting, cooldown, op), KeptNext(keeping, cooldown, op), cooldown, ops[1..]);
      assert !op.Evict? ==> WithoutEvictions(ops)[1..] == more;
      assert op.Evict? ==> WithoutEvictions(ops) == more;
    }
  }

  // Evictions anywhere change no answer.
  lemma EvictionIsInvisible(ops: seq<Op>, cooldown: int)
    requires Timely(ops)
    ensures Answers(ops, map[], cooldown) == Answers(WithoutEvictions(ops), map[], cooldown)
  {
    EvictionIsShadowed(map[], map[], cooldown, ops);
  }

  // ---- the window ----

  // The store before the nth step of a run from the empty store.
  function StoreAt(ops: seq<Op>, cooldown: int, n: nat): Store
    requires n <= |ops|
  {
    if n == 0 then map[] else Next(StoreAt(ops, cooldown, n - 1), cooldown, ops[n - 1])
  }

  function AnswerAt(ops: seq<Op>, cooldown: int, n: nat): Answer
    requires n < |ops| && ops[n].Allow?
  {
    Serve(StoreAt(ops, cooldown, n), cooldown, ops[n].key, ops[n].at).1
  }

  predicate Granted(ops: seq<Op>, cooldown: int, n: nat)
    requires n < |ops|
  {
    ops[n].Allow? && AnswerAt(ops, cooldown, n).allowed
  }

  predicate NoReset(ops: seq<Op>, key: string, i: nat, j: nat)
    requires i <= j <= |ops|
  {
    forall n :: i <= n < j ==> ops[n] != Reset(key)
  }

  // From step n on, the key is blocked until the given time, or no call comes before it.
  predicate BlockedUntil(ops: seq<Op>, cooldown: int, key: string, n: nat, time: int)
    requires n <= |ops|
  {
    var store := StoreAt(ops, cooldown, n);
    (key in store && store[key] >= time) || Before(time, ops[n..])
  }

  lemma BeforeLater(time: int, ops: seq<Op>, i: nat, j: nat)
    requires i <= j <= |ops| && Before(time, ops[i..])
    ensures Before(time, ops[j..])
  {
    forall n | 0 <= n < |ops[j..]| && ops[j..][n].Allow? ensures time <= ops[j..][n].at {
      assert ops[j..][n] == ops[i..][j - i + n];
    }
  }

  lemma {:induction false} StaysBlocked(ops: seq<Op>, cooldown: int, key: string, i: nat, n: nat, t: int)
    requires Timely(ops) && i < n <= |ops| && NoReset(ops, key, i, n)
    requires ops[i] == Allow(key, t) && Granted(ops, cooldown, i)
    ensures BlockedUntil(ops, cooldown, key, n, t + cooldown)
    decreases n
  {
    if n > i + 1 {
      var m := n - 1;
      StaysBlocked(ops, cooldown, key, i, m, t);
      if Before(t + cooldown, ops[m..]) {
        BeforeLater(t + cooldown, ops, m, n);
      } else {
        match ops[m] {
          case Allow(k, at) =>
            assert Before(t, ops[i + 1..]);
            assert ops[m] == ops[i + 1..][m - i - 1];
          case Reset(k) =>
          case Evict(k, captured) =>
            assert Before(captured, ops[m + 1..]);
        }
      }
    }
  }

  // Two grants of one key with no reset between are at least the cooldown apart.
  lemma WindowExclusion(ops: seq<Op>, cooldown: int, key: string, i: nat, j: nat, t: int, u: int)
    requires Timely(ops) && i < j < |ops| && NoReset(ops, key, i, j)
    requires ops[i] == Allow(key, t) && Granted(ops, cooldown, i)
    requires ops[j] == Allow(key, u) && Granted(ops, cooldown, j)
    ensures u - t >= cooldown
  {
    StaysBlocked(ops, cooldown, key, i, j, t);
    assert ops[j] == ops[j..][0];
  }

  // No entry outlives the cooldown counted from any later call.
  lemma {:induction false} ExpiryBound(ops: seq<Op>, cooldown: int, n: nat, key: string)
    requires Timely(ops) && n <= |ops|
    requires key in StoreAt(ops, cooldown, n)
    ensures Before(StoreAt(ops, cooldown, n)[key] - cooldown, ops[n..])
  {
    if n > 0 {
      var was := StoreAt(ops, cooldown, n - 1);
      if ops[n - 1].Allow? && ops[n - 1].key == key && Expired(was, key, ops[n - 1].at) {
        assert Before(ops[n - 1].at, ops[n - 1 + 1..]);
      } else {
        ExpiryBound(ops, cooldown, n - 1, key);
        BeforeLater(was[key] - cooldown, ops, n - 1, n);
      }
    }
  }

  // A refusal names a positive wait no longer than the cooldown.
  lemma RefusalRange(ops: seq<Op>, cooldown: int, n: nat)
    requires Timely(ops) && n < |ops| && ops[n].Allow? && !Granted(ops, cooldown, n)
    ensures 0 < AnswerAt(ops, cooldown, n).retryAfter <= cooldown
  {
    ExpiryBound(ops, cooldown, n, ops[n].key);
    assert ops[n..][0] == ops[n];
  }

  predicate NoGrant(ops: seq<Op>, cooldown: int, key: string, i: nat, j: nat)
    requires i <= j <= |ops|
  {
    forall n :: i <= n < j && ops[n].Allow? && ops[n].key == key ==> !Granted(ops, cooldown, n)
  }

  // Until the next grant the entry is as it was, or evicted after its expiry.
  lemma {:induction false} EntryUntilGrant(ops: seq<Op>, cooldown: int, key: string, i: nat, n: nat, expiry: int)
    requires Timely(ops) && i <= n <= |ops|
    requires NoReset(ops, key, i, n) && NoGrant(ops, cooldown, key, i, n)
    requires key in StoreAt(ops, cooldown, i) && StoreAt(ops, cooldown, i)[key] == expiry
    ensures var store := StoreAt(ops, cooldown, n);
            if key in store then store[key] == expiry else Before(expiry, ops[n..])
    decreases n
  {
    if n > i {
      var m := n - 1;
      EntryUntilGrant(ops, cooldown, key, i, m, expiry);
      if key !in StoreAt(ops, cooldown, m) {
        BeforeLater(expiry, ops, m, n);
      }
      match ops[m] {
        case Allow(k, at) => assert k == key ==> !Granted(ops, cooldown, m);
        case Reset(k) =>
        case Evict(k, captured) =>
          assert Before(captured, ops[m + 1..]);
      }
    }
  }

  // The wait named by a refusal is exact: with no reset and no grant since, a call is
  // granted if and only if that wait has passed, and is otherwise told what is left.
  lemma RefusalIsExact(ops: seq<Op>, cooldown: int, key: string, i: nat, j: nat, t: int, u: int)
    requires Timely(ops) && i < j < |ops|
    requires NoReset(ops, key, i, j) && NoGrant(ops, cooldown, key, i, j)
    requires ops[i] == Allow(key, t) && ops[j] == Allow(key, u)
    ensures var free := t + AnswerAt(ops, cooldown, i).retryAfter;
            && (Granted(ops, cooldown, j) <==> u >= free)
            && (u < free ==> AnswerAt(ops, cooldown, j).retryAfter == free - u)
  {
    assert !Granted(ops, cooldown, i);
    var expiry := StoreAt(ops, cooldown, i)[key];
    EntryUntilGrant(ops, cooldown, key, i, j, expiry);
    assert ops[j..][0] == ops[j];
  }

  // No grant can come before that wait has passed.
  lemma NoEarlyGrant(ops: seq<Op>, cooldown: int, key: string, i: nat, j: nat, t: int)
    requires Timely(ops) && i < j <= |ops| && NoReset(ops, key, i, j)
    requires ops[i] == Allow(key, t) && !Granted(ops, cooldown, i)
    requires forall n :: i < n < j && ops[n].Allow? && ops[n].key == key ==>
               ops[n].at < t + AnswerAt(ops, cooldown, i).retryAfter
    ensures NoGrant(ops, cooldown, key, i, j)
    decreases j
  {
    if j > i + 1 {
      NoEarlyGrant(ops, cooldown, key, i, j - 1, t);
      if ops[j - 1].Allow? && ops[j - 1].key == key {
        RefusalIsExact(ops, cooldown, key, i, j - 1, t, ops[j - 1].at);
      }
    }
  }

  // ---- resets ----

  predicate NoAllow(ops: seq<Op>, key: string, i: nat, j: nat)
    requires i <= j <= |ops|
  {
    forall n :: i <= n < j ==> !(ops[n].Allow? && ops[n].key == key)
  }

  lemma {:induction false} StaysForgotten(ops: seq<Op>, cooldown: int, key: string, i: nat, n: nat)
    requires i < n <= |ops| && ops[i] == Reset(key) && NoAllow(ops, key, i, n)
    ensures key !in StoreAt(ops, cooldown, n)
    decreases n
  {
    if n > i + 1 {
      StaysForgotten(ops, cooldown, key, i, n - 1);
    }
  }

  // The first call for a key after its reset is granted, at any time and whatever else
  // happens in between.
  lemma ResetGrantsNext(ops: seq<Op>, cooldown: int, key: string, i: nat, j: nat, t: int)
    requires i < j < |ops| && NoAllow(ops, key, i, j)
    requires ops[i] == Reset(key) && ops[j] == Allow(key, t)
    ensures Granted(ops, cooldown, j)
  {
    StaysForgotten(ops, cooldown, key, i, j);
  }
}

/**
 The fixed-window rate limiter over Redis counters that expire. A call is one atomic step;
 time is a natural number, and a counter is alive strictly before its expiry.
 */
module RateLimiter {
  import opened Text

  /** A counter, and the time at which it expires if it does. */
  datatype Counter = Counter(count: nat, expiry: Option<nat>)

  type Store = map<string, Counter>

  predicate Alive(store: Store, key: string, now: nat) {
    key in store && (store[key].expiry.Some? ==> now < store[key].expiry.value)
  }

  function Used(store: Store, key: string, now: nat): nat {
    if Alive(store, key, now) then store[key].count else 0
  }

  /** INCR starts a counter at 1 without an expiry, and keeps the expiry of a live one. */
  function AfterIncr(store: Store, key: string, now: nat): Store {
    store[key := Counter(Used(store, key, now) + 1, if Alive(store, key, now) then store[key].expiry else None)]
  }

  /** EXPIRE with a window that is not positive deletes the key. */
  function AfterExpire(store: Store, key: string, seconds: int, now: nat): Store
    requires key in store
  {
    if seconds > 0 then store[key := Counter(store[key].count, Some(now + seconds))] else store - {key}
  }

  function AfterCheck(store: Store, key: string, window: int, now: nat): Store {
    var counted := AfterIncr(store, key, now);
    if Used(store, key, now) == 0 then AfterExpire(counted, key, window, now) else counted
  }

  predicate Admits(store: Store, key: string, limit: int, now: nat) {
    Used(store, key, now) < limit
  }

  function Remaining(store: Store, key: string, limit: int, now: nat): nat {
    if limit > Used(store, key, now) then limit - Used(store, key, now) else 0
  }

  class RedisRateLimiter {
    var redis: Store

    constructor ()
      ensures redis == map[]
    {
      redis := map[];
    }

    method CheckLimit(key: string, limit: int, windowSeconds: int, now: nat) returns (ok: bool)
      modifies this
      ensures ok <==> old(Admits(redis, key, limit, now))
      ensures redis == AfterCheck(old(redis), key, windowSeconds, now)
    {
      redis := AfterIncr(redis, key, now);
      var current := redis[key].count;
      if current == 1 {
        redis := AfterExpire(redis, key, windowSeconds, now);
      }
      return current <= limit;
    }

    method GetRemainingAttempts(key: string, limit: int, now: nat) returns (remaining: nat)
      ensures remaining == Remaining(redis, key, limit, now)
    {
      var used := if Alive(redis, key, now) then redis[key].count else 0;
      remaining := if limit - used > 0 then limit - used else 0;
    }

    method ResetLimit(key: string)
      modifies this
      ensures redis == old(redis) - {key}
      ensures forall limit, now :: Remaining(redis, key, limit, now) == if limit > 0 then limit else 0
    {
      redis := redis - {key};
    }
  }

  /** The remaining attempts predict the next answer, and every admitted call costs one of them. */
  lemma RemainingPredicts(store: Store, key: string, limit: int, window: int, now: nat)
    ensures Admits(store, key, limit, now) <==> Remaining(store, key, limit, now) > 0
    ensures var left := Remaining(store, key, limit, now);
            window > 0 ==>
              Remaining(AfterCheck(store, key, window, now), key, limit, now) == if left > 0 then left - 1 else 0
  {
  }

  // ----- runs over all keys

  datatype Op = Check(key: string, limit: int, window: int, now: nat) | Reset(key: string, now: nat)

  function Apply(store: Store, op: Op): Store {
    match op
    case Check(key, _, window, now) => AfterCheck(store, key, window, now)
    case Reset(key, _) => store - {key}
  }

  /** The store after the first n operations of a run that starts empty. */
  function StoreAt(ops: seq<Op>, n: nat): Store
    requires n <= |ops|
  {
    if n == 0 then map[] else Apply(StoreAt(ops, n - 1), ops[n - 1])
  }

  predicate IsCheckOf(op: Op, key: string) {
    op.Check? && op.key == key
  }

  predicate Accepted(ops: seq<Op>, i: nat)
    requires i < |ops| && ops[i].Check?
  {
    Admits(StoreAt(ops, i), ops[i].key, ops[i].limit, ops[i].now)
  }

  /** Accepted calls for a key with lo <= time < hi, among the first n operations. */
  function AcceptedIn(ops: seq<Op>, key: string, lo: int, hi: int, n: nat): nat
    requires n <= |ops|
  {
    if n == 0 then 0
    else
      AcceptedIn(ops, key, lo, hi, n - 1)
      + if IsCheckOf(ops[n - 1], key) && lo <= ops[n - 1].now < hi && Accepted(ops, n - 1) then 1 else 0
  }

  /** Time does not run backwards. */
  predicate Chronological(ops: seq<Op>) {
    forall i, j :: 0 <= i < j < |ops| ==> ops[i].now <= ops[j].now
  }

  /** No check of the key asks for a larger limit or a shorter window. */
  predicate Policy(ops: seq<Op>, key: string, limit: int, window: int) {
    forall i :: 0 <= i < |ops| && IsCheckOf(ops[i], key) ==> ops[i].limit <= limit && ops[i].window >= window
  }

  /** Resets of the key with lo <= time < hi, among the first n operations. */
  function ResetsIn(ops: seq<Op>, key: string, lo: int, hi: int, n: nat): nat
    requires n <= |ops|
  {
    if n == 0 then 0
    else
      ResetsIn(ops, key, lo, hi, n - 1)
      + if ops[n - 1].Reset? && ops[n - 1].key == key && lo <= ops[n - 1].now < hi then 1 else 0
  }

  /** A check that finds no live counter starts a lifetime of its key. */
  predicate Starts(ops: seq<Op>, key: string, i: nat)
    requires i < |ops|
  {
    IsCheckOf(ops[i], key) && Used(StoreAt(ops, i), key, ops[i].now) == 0
  }

  /** The latest start of a lifetime of the key among the first n operations. */
  function LastStart(ops: seq<Op>, key: string, n: nat): (r: Option<nat>)
    requires n <= |ops|
    ensures r.Some? ==> r.value < n && Starts(ops, key, r.value)
  {
    if n == 0 then None else if Starts(ops, key, n - 1) then Some(n - 1) else LastStart(ops, key, n - 1)
  }

  function Min(a: int, b: int): int {
    if a <= b then a else b
  }

  /** Nothing is counted in an interval that has not begun. */
  lemma {:induction false} NothingYet(ops: seq<Op>, key: string, lo: int, hi: int, n: nat)
    requires n <= |ops|
    requires forall i :: 0 <= i < n && ops[i].Check? ==> ops[i].now < lo
    ensures AcceptedIn(ops, key, lo, hi, n) == 0
  {
    if n > 0 { NothingYet(ops, key, lo, hi, n - 1); }
  }

  /** What a number of resets adds to the bound. */
  function Extra(resets: nat, limit: nat): nat {
    if resets == 0 then 0 else limit + Extra(resets - 1, limit)
  }

  lemma {:induction false} ExtraIsProduct(resets: nat, limit: nat)
    ensures Extra(resets, limit) == resets * limit
  {
    if resets > 0 { ExtraIsProduct(resets - 1, limit); }
  }

  /**
   How the accepted calls of an interval relate to the latest lifetime of the key. One that started
   before the interval adds less than limit, and one that started inside it lasts to the end of the
   interval, unless it is reset.
   */
  ghost predicate CountInvariant(ops: seq<Op>, key: string, limit: nat, window: int, lo: int, hi: int, n: nat)
    requires n <= |ops|
  {
    var store, total := StoreAt(ops, n), AcceptedIn(ops, key, lo, hi, n);
    var extra, f := Extra(ResetsIn(ops, key, lo, hi, n), limit), LastStart(ops, key, n);
    && total <= 2 * limit - 1 + extra
    && if f.None? then key !in store && total == 0
       else
         var start := ops[f.value].now;
         if key in store then
           && store[key].expiry.Some? && store[key].count >= 1 && store[key].expiry.value >= start + window
           && (start < lo ==> total <= Min(limit, store[key].count) - 1)
           && (lo <= start < hi ==> total <= limit - 1 + extra + Min(limit, store[key].count))
         else total <= limit - 1 + extra || (n > 0 && ops[n - 1].now >= hi)
  }

  lemma CountAfterOther(ops: seq<Op>, key: string, limit: nat, window: int, lo: int, hi: int, n: nat)
    requires Chronological(ops) && limit >= 1 && n < |ops| && !IsCheckOf(ops[n], key)
    requires CountInvariant(ops, key, limit, window, lo, hi, n)
    ensures CountInvariant(ops, key, limit, window, lo, hi, n + 1)
  {
  }

  lemma CountAfterCheck(ops: seq<Op>, key: string, limit: nat, window: int, lo: int, hi: int, n: nat)
    requires Chronological(ops) && Policy(ops, key, limit, window) && n < |ops| && IsCheckOf(ops[n], key)
    requires limit >= 1 && window >= 1 && hi <= lo + window
    requires CountInvariant(ops, key, limit, window, lo, hi, n)
    ensures CountInvariant(ops, key, limit, window, lo, hi, n + 1)
  {
    hide Extra;
    if ops[n].now < lo {
      NothingYet(ops, key, lo, hi, n + 1);
    }
  }

  lemma {:induction false} CountInvariantHolds(ops: seq<Op>, key: string, limit: nat, window: int, lo: int, hi: int, n: nat)
    requires Chronological(ops) && Policy(ops, key, limit, window)
    requires limit >= 1 && window >= 1 && hi <= lo + window && n <= |ops|
    ensures CountInvariant(ops, key, limit, window, lo, hi, n)
  {
    if n > 0 {
      hide CountInvariant;
      CountInvariantHolds(ops, key, limit, window, lo, hi, n - 1);
      if IsCheckOf(ops[n - 1], key) {
        CountAfterCheck(ops, key, limit, window, lo, hi, n - 1);
      } else {
        CountAfterOther(ops, key, limit, window, lo, hi, n - 1);
      }
    }
  }

  lemma {:induction false} NothingAccepted(ops: seq<Op>, key: string, limit: int, window: int, lo: int, hi: int, n: nat)
    requires Policy(ops, key, limit, window) && limit <= 0 && n <= |ops|
    ensures AcceptedIn(ops, key, lo, hi, n) == 0
  {
    if n > 0 { NothingAccepted(ops, key, limit, window, lo, hi, n - 1); }
  }

  /**
   The sliding guarantee of the fixed window: a half-open interval as long as the window has at most
   2 * limit - 1 accepted calls for a key, and limit more for every reset of the key in it, whatever
   happens to the other keys.
   */
  lemma SlidingGuarantee(ops: seq<Op>, key: string, limit: int, window: int, lo: int)
    requires Chronological(ops) && Policy(ops, key, limit, window) && window >= 1
    ensures var resets := ResetsIn(ops, key, lo, lo + window, |ops|);
            AcceptedIn(ops, key, lo, lo + window, |ops|) <= if limit >= 1 then 2 * limit - 1 + resets * limit else 0
  {
    if limit >= 1 {
      CountInvariantHolds(ops, key, limit, window, lo, lo + window, |ops|);
      ExtraIsProduct(ResetsIn(ops, key, lo, lo + window, |ops|), limit);
    } else {
      NothingAccepted(ops, key, limit, window, lo, lo + window, |ops|);
    }
  }

  // ----- the bound is reached

  /** One call at time 0, the rest of the first lifetime just before it ends, and a full second lifetime at once. */
  function TwoLifetimes(key: string, limit: nat, window: nat): (ops: seq<Op>)
    requires limit >= 1 && window >= 1
    ensures |ops| == 2 * limit
  {
    seq(2 * limit, i => Check(key, limit, window, if i == 0 then 0 else if i < limit then window - 1 else window))
  }

  /** A reset and as many calls as the limit allows, all at once. */
  function Round(key: string, limit: nat, window: nat): (ops: seq<Op>)
    ensures |ops| == 1 + limit && ops[0] == Reset(key, window)
    ensures forall i :: 0 < i < |ops| ==> ops[i] == Check(key, limit, window, window)
  {
    [Reset(key, window)] + seq(limit, i => Check(key, limit, window, window))
  }

  function Burst(key: string, limit: nat, window: nat, resets: nat): seq<Op>
    requires limit >= 1 && window >= 1
  {
    if resets == 0 then TwoLifetimes(key, limit, window) else Burst(key, limit, window, resets - 1) + Round(key, limit, window)
  }

  lemma {:induction false} TwoLifetimesState(key: string, limit: nat, window: nat, n: nat)
    requires limit >= 1 && window >= 1 && n <= 2 * limit
    ensures StoreAt(TwoLifetimes(key, limit, window), n)
         == if n == 0 then map[] else if n <= limit then map[key := Counter(n, Some(window))]
            else map[key := Counter(n - limit, Some(2 * window))]
  {
    if n > 0 { TwoLifetimesState(key, limit, window, n - 1); }
  }

  lemma {:induction false} TwoLifetimesCount(key: string, limit: nat, window: nat, n: nat)
    requires limit >= 1 && window >= 2 && n <= 2 * limit
    ensures AcceptedIn(TwoLifetimes(key, limit, window), key, window - 1, 2 * window - 1, n) == if n == 0 then 0 else n - 1
    ensures ResetsIn(TwoLifetimes(key, limit, window), key, window - 1, 2 * window - 1, n) == 0
  {
    if n > 0 {
      TwoLifetimesCount(key, limit, window, n - 1);
      hide StoreAt;
      TwoLifetimesState(key, limit, window, n - 1);
    }
  }

  /** What later operations cannot change. */
  lemma {:induction false} PrefixCounts(ops: seq<Op>, more: seq<Op>, key: string, lo: int, hi: int, n: nat)
    requires n <= |ops|
    ensures StoreAt(ops + more, n) == StoreAt(ops, n)
    ensures AcceptedIn(ops + more, key, lo, hi, n) == AcceptedIn(ops, key, lo, hi, n)
    ensures ResetsIn(ops + more, key, lo, hi, n) == ResetsIn(ops, key, lo, hi, n)
  {
    if n > 0 { PrefixCounts(ops, more, key, lo, hi, n - 1); }
  }

  lemma {:induction false} RoundState(ops: seq<Op>, key: string, limit: nat, window: nat, j: nat)
    requires window >= 2 && j <= limit
    ensures StoreAt(ops + Round(key, limit, window), |ops| + 1 + j)
         == (if j == 0 then StoreAt(ops, |ops|) - {key} else StoreAt(ops, |ops|)[key := Counter(j, Some(2 * window))])
  {
    var all := ops + Round(key, limit, window);
    if j == 0 {
      PrefixCounts(ops, Round(key, limit, window), key, 0, 0, |ops|);
      assert all[|ops|] == Reset(key, window);
    } else {
      assert all[|ops| + j] == Check(key, limit, window, window);
      RoundState(ops, key, limit, window, j - 1);
    }
  }

  /** After a reset the whole limit is accepted once more. */
  lemma {:induction false} RoundCount(ops: seq<Op>, key: string, limit: nat, window: nat, j: nat)
    requires window >= 2 && j <= limit
    ensures var all, n := ops + Round(key, limit, window), |ops| + 1 + j;
            && AcceptedIn(all, key, window - 1, 2 * window - 1, n) == AcceptedIn(ops, key, window - 1, 2 * window - 1, |ops|) + j
            && ResetsIn(all, key, window - 1, 2 * window - 1, n) == ResetsIn(ops, key, window - 1, 2 * window - 1, |ops|) + 1
  {
    hide StoreAt;
    var all := ops + Round(key, limit, window);
    if j == 0 {
      PrefixCounts(ops, Round(key, limit, window), key, window - 1, 2 * window - 1, |ops|);
      assert all[|ops|] == Reset(key, window);
    } else {
      assert all[|ops| + j] == Check(key, limit, window, window);
      RoundState(ops, key, limit, window, j - 1);
      RoundCount(ops, key, limit, window, j - 1);
    }
  }

  lemma {:induction false} BurstShape(key: string, limit: nat, window: nat, resets: nat)
    requires limit >= 1 && window >= 2
    ensures var ops := Burst(key, limit, window, resets);
            Chronological(ops) && Policy(ops, key, limit, window) && forall i :: 0 <= i < |ops| ==> ops[i].now <= window
  {
    if resets > 0 { BurstShape(key, limit, window, resets - 1); }
  }

  lemma {:induction false} BurstCount(key: string, limit: nat, window: nat, resets: nat)
    requires limit >= 1 && window >= 2
    ensures var ops := Burst(key, limit, window, resets);
            && ResetsIn(ops, key, window - 1, 2 * window - 1, |ops|) == resets
            && AcceptedIn(ops, key, window - 1, 2 * window - 1, |ops|) == 2 * limit - 1 + Extra(resets, limit)
  {
    hide StoreAt, AcceptedIn, ResetsIn, TwoLifetimes, Round;
    if resets == 0 {
      TwoLifetimesCount(key, limit, window, 2 * limit);
    } else {
      BurstCount(key, limit, window, resets - 1);
      RoundCount(Burst(key, limit, window, resets - 1), key, limit, window, limit);
    }
  }

  /** For windows of at least two time units the guarantee cannot be improved, whatever the number of resets. */
  lemma GuaranteeIsSharp(key: string, limit: nat, window: nat, resets: nat)
    requires limit >= 1 && window >= 2
    ensures var ops := Burst(key, limit, window, resets);
            && Chronological(ops) && Policy(ops, key, limit, window)
            && ResetsIn(ops, key, window - 1, 2 * window - 1, |ops|) == resets
            && AcceptedIn(ops, key, window - 1, 2 * window - 1, |ops|) == 2 * limit - 1 + resets * limit
  {
    BurstShape(key, limit, window, resets);
    BurstCount(key, limit, window, resets);
    ExtraIsProduct(resets, limit);
  }

  // ----- one lifetime

  /** Call i belongs to the lifetime of the key that started with call f. */
  predicate InLifetime(ops: seq<Op>, key: string, f: nat, i: nat)
    requires i < |ops|
  {
    IsCheckOf(ops[i], key) && LastStart(ops, key, i + 1) == Some(f)
  }

  function LifetimeCalls(ops: seq<Op>, key: string, f: nat, n: nat): nat
    requires n <= |ops|
  {
    if n == 0 then 0 else LifetimeCalls(ops, key, f, n - 1) + if InLifetime(ops, key, f, n - 1) then 1 else 0
  }

  function LifetimeAccepted(ops: seq<Op>, key: string, f: nat, n: nat): nat
    requires n <= |ops|
  {
    if n == 0 then 0
    else LifetimeAccepted(ops, key, f, n - 1) + if InLifetime(ops, key, f, n - 1) && Accepted(ops, n - 1) then 1 else 0
  }

  /** Every check of the key uses the same limit. */
  predicate OneLimit(ops: seq<Op>, key: string, limit: int) {
    forall i :: 0 <= i < |ops| && IsCheckOf(ops[i], key) ==> ops[i].limit == limit
  }

  lemma {:induction false} LifetimeInvariant(ops: seq<Op>, key: string, limit: int, f: nat, n: nat)
    requires OneLimit(ops, key, limit) && n <= |ops|
    ensures var store, calls := StoreAt(ops, n), LifetimeCalls(ops, key, f, n);
            && LifetimeAccepted(ops, key, f, n) == Min(if limit > 0 then limit else 0, calls)
            && (n <= f ==> calls == 0)
            && (key in store ==> store[key].count >= 1 && LastStart(ops, key, n).Some?)
            && (key in store && LastStart(ops, key, n) == Some(f) ==> calls == store[key].count)
  {
    if n > 0 { LifetimeInvariant(ops, key, limit, f, n - 1); }
  }

  /** Every lifetime of a key accepts exactly as many of its calls as the limit allows, however it ends. */
  lemma LifetimeAcceptsLimit(ops: seq<Op>, key: string, limit: int, f: nat)
    requires OneLimit(ops, key, limit)
    ensures LifetimeAccepted(ops, key, f, |ops|) == Min(if limit > 0 then limit else 0, LifetimeCalls(ops, key, f, |ops|))
  {
    LifetimeInvariant(ops, key, limit, f, |ops|);
  }

  /** Without a positive window nothing is ever limited: EXPIRE deletes the counter at once. */
  lemma {:induction false} NoWindowNoLimit(ops: seq<Op>, key: string, n: nat)
    requires n <= |ops| && forall i :: 0 <= i < |ops| && IsCheckOf(ops[i], key) ==> ops[i].window <= 0
    ensures key !in StoreAt(ops, n)
    ensures n < |ops| && IsCheckOf(ops[n], key) ==> (Accepted(ops, n) <==> ops[n].limit >= 1)
  {
    if n > 0 { NoWindowNoLimit(ops, key, n - 1); }
  }
}

/** The failed-attempt counter of one key: when it locks, and how long a lock lasts. */
module Lockout {
  import opened Base
  import opened Model
  import opened Effects

  datatype Policy = Policy(max: U32, window: I64, lockout: I64)

  /** Lockout is on (max above zero), the window is positive, and neither a clock value nor a counter overflows. */
  ghost predicate Plausible(p: Policy, ts: seq<I64>) {
    && p.max >= 1 && p.window > 0 && p.lockout >= 0
    && (forall i :: 0 <= i < |ts| ==> 0 <= ts[i] && ts[i] + p.lockout <= I64_MAX)
    && (forall i, j :: 0 <= i <= j < |ts| ==> ts[i] <= ts[j])
    && (forall n {:trigger CounterFits(p, ts, n)} :: 1 <= n <= |ts| ==> CounterFits(p, ts, n))
  }

  /** The window of the n-th failure counts fewer failures than its 32-bit counter holds. */
  ghost predicate CounterFits(p: Policy, ts: seq<I64>, n: nat)
    requires 1 <= n <= |ts|
  {
    n - Opener(p, ts, n) < 0xFFFF_FFFF
  }

  /** The stored record after the first n failures of a key that had none. */
  ghost function RecordAfter(p: Policy, ts: seq<I64>, n: nat): Option<LockoutRecord>
    requires n <= |ts|
  {
    if n == 0 then None
    else Some(LockStep(RecordAfter(p, ts, n - 1), ts[n - 1], p.max, p.window, p.lockout))
  }

  /** Failure i is one that writes a lock. */
  ghost predicate SetsLock(p: Policy, ts: seq<I64>, i: nat)
    requires i < |ts|
  {
    RecordAfter(p, ts, i + 1).value.failures >= p.max
  }

  /** The failure that opened the window in which the n-th failure was counted. */
  ghost function Opener(p: Policy, ts: seq<I64>, n: nat): (s: nat)
    requires 1 <= n <= |ts|
    ensures s < n
  {
    if n == 1 then 0
    else
      var s := Opener(p, ts, n - 1);
      if ts[n - 1] - ts[s] >= p.window then n - 1 else s
  }

  /** One step in plain arithmetic, where nothing overflows. */
  lemma PlainStep(r: LockoutRecord, now: I64, p: Policy)
    requires p.lockout >= 0 && 0 <= r.windowStart <= now && now + p.lockout <= I64_MAX && r.failures < 0xFFFF_FFFF
    ensures var next := LockStep(Some(r), now, p.max, p.window, p.lockout);
            var reset := now - r.windowStart >= p.window;
            && next.failures == (if reset then 1 else r.failures + 1)
            && next.windowStart == (if reset then now else r.windowStart)
            && (next.failures >= p.max ==> next.lockedUntil == Some(now + p.lockout))
  {
    assert Wrap64(now - r.windowStart) == now - r.windowStart;
    assert Wrap64(now + p.lockout) == now + p.lockout;
  }

  lemma FirstStep(now: I64, p: Policy)
    requires p.window > 0 && p.lockout >= 0 && 0 <= now && now + p.lockout <= I64_MAX
    ensures var next := LockStep(None, now, p.max, p.window, p.lockout);
            && next.failures == 1 && next.windowStart == now
            && (1 >= p.max ==> next.lockedUntil == Some(now + p.lockout))
  {
    assert Wrap64(now - now) == 0;
    assert Wrap64(now + p.lockout) == now + p.lockout;
  }

  /** The record counts the failures since the window opened. */
  lemma {:induction false} RecordMeansWindow(p: Policy, ts: seq<I64>, n: nat)
    requires Plausible(p, ts) && 1 <= n <= |ts|
    ensures var r, s := RecordAfter(p, ts, n).value, Opener(p, ts, n);
            r.failures == n - s && r.windowStart == ts[s] && ts[n - 1] - ts[s] < p.window
    ensures SetsLock(p, ts, n - 1) ==> RecordAfter(p, ts, n).value.lockedUntil == Some(ts[n - 1] + p.lockout)
  {
    if n == 1 {
      assert RecordAfter(p, ts, 0) == None;
      FirstStep(ts[0], p);
    } else {
      RecordMeansWindow(p, ts, n - 1);
      assert CounterFits(p, ts, n - 1);
      PlainStep(RecordAfter(p, ts, n - 1).value, ts[n - 1], p);
    }
  }

  lemma LocksIff(p: Policy, ts: seq<I64>, i: nat)
    requires Plausible(p, ts) && i < |ts|
    ensures SetsLock(p, ts, i) <==> i + 1 - Opener(p, ts, i + 1) >= p.max
    ensures ts[i] - ts[Opener(p, ts, i + 1)] < p.window
  {
    RecordMeansWindow(p, ts, i + 1);
  }

  /** Every lock is preceded by max failures inside one window. */
  lemma EveryLockIsEarned(p: Policy, ts: seq<I64>, i: nat)
    requires Plausible(p, ts) && i < |ts|
    ensures SetsLock(p, ts, i) ==> i + 1 >= p.max && ts[i] - ts[i + 1 - p.max] < p.window
  {
    LocksIff(p, ts, i);
  }

  /** A window stays open for every failure that comes before its end. */
  lemma {:induction false} WindowStays(p: Policy, ts: seq<I64>, s: nat, n: nat)
    requires Plausible(p, ts) && s < n <= |ts| && Opener(p, ts, s + 1) == s && ts[n - 1] - ts[s] < p.window
    ensures Opener(p, ts, n) == s
  {
    if n > s + 1 {
      WindowStays(p, ts, s, n - 1);
    }
  }

  lemma {:induction false} OpenerOpens(p: Policy, ts: seq<I64>, n: nat)
    requires 1 <= n <= |ts|
    ensures Opener(p, ts, Opener(p, ts, n) + 1) == Opener(p, ts, n)
  {
    if n > 1 {
      OpenerOpens(p, ts, n - 1);
    }
  }

  /** Either the window of failure i is still open at n, or another opened in between. */
  lemma {:induction false} OpenerSince(p: Policy, ts: seq<I64>, i: nat, n: nat)
    requires i < n <= |ts|
    ensures Opener(p, ts, n) == Opener(p, ts, i + 1) || i < Opener(p, ts, n)
  {
    if n > i + 1 {
      OpenerSince(p, ts, i, n - 1);
    }
  }

  /** The number of failures in an interval shorter than the window that cannot pass without a lock. */
  function Threshold(p: Policy): nat {
    if p.max <= 1 then 1 else if p.window == 1 then p.max else 2 * p.max - 2
  }

  /** Two failures that each open a window are at least a window apart. */
  lemma {:induction false} OpeningsApart(p: Policy, ts: seq<I64>, q: nat, s: nat)
    requires Plausible(p, ts) && q < s < |ts| && Opener(p, ts, q + 1) == q && Opener(p, ts, s + 1) == s
    ensures ts[s] - ts[q] >= p.window
  {
    if ts[s] - ts[q] < p.window { WindowStays(p, ts, q, s + 1); }
  }

  /** In a short interval, the window before the last one is that of the first failure. */
  lemma {:induction false} OneOpening(p: Policy, ts: seq<I64>, i: nat, j: nat)
    requires Plausible(p, ts) && i <= j < |ts| && ts[j] - ts[i] < p.window && Opener(p, ts, j + 1) > i
    ensures Opener(p, ts, Opener(p, ts, j + 1)) == Opener(p, ts, i + 1) < i
  {
    var s := Opener(p, ts, j + 1);
    var q := Opener(p, ts, s);
    OpenerOpens(p, ts, j + 1);
    OpenerOpens(p, ts, s);
    OpeningsApart(p, ts, q, s);
    OpenerSince(p, ts, i, s);
  }

  /** In a window of one second no interval shorter than it meets two windows. */
  lemma OneSecondWindow(p: Policy, ts: seq<I64>, i: nat, j: nat)
    requires Plausible(p, ts) && p.window == 1 && i <= j < |ts| && ts[j] - ts[i] < p.window
    ensures Opener(p, ts, j + 1) <= i
  {
    if Opener(p, ts, j + 1) > i {
      OneOpening(p, ts, i, j);
      LocksIff(p, ts, i);
      var s, q := Opener(p, ts, j + 1), Opener(p, ts, i + 1);
      OpenerOpens(p, ts, j + 1);
      OpenerOpens(p, ts, i + 1);
      OpeningsApart(p, ts, q, s);
    }
  }

  lemma AcrossTwoWindows(p: Policy, ts: seq<I64>, i: nat, j: nat)
    requires Plausible(p, ts) && i <= j < |ts| && ts[j] - ts[i] < p.window && Opener(p, ts, j + 1) > i
    requires j - i + 1 >= 2 * p.max - 2
    ensures SetsLock(p, ts, Opener(p, ts, j + 1) - 1) || SetsLock(p, ts, j)
  {
    var s := Opener(p, ts, j + 1);
    OneOpening(p, ts, i, j);
    LocksIff(p, ts, j);
    LocksIff(p, ts, s - 1);
  }

  /** Any interval shorter than the window that holds this many failures holds one that locks. */
  lemma {:induction false} SlidingBound(p: Policy, ts: seq<I64>, i: nat, j: nat)
    requires Plausible(p, ts) && i <= j < |ts| && ts[j] - ts[i] < p.window && j - i + 1 >= Threshold(p)
    ensures exists k :: i <= k <= j && SetsLock(p, ts, k)
  {
    var s := Opener(p, ts, j + 1);
    if s <= i || p.window == 1 {
      if p.window == 1 { OneSecondWindow(p, ts, i, j); }
      LocksIff(p, ts, j);
      assert SetsLock(p, ts, j);
    } else {
      AcrossTwoWindows(p, ts, i, j);
      assert SetsLock(p, ts, s - 1) || SetsLock(p, ts, j);
    }
  }

  // ----- the bound cannot be improved -----

  /** One failure, max - 2 just before the window ends, max - 1 just after; in a one-second window max - 1 at once. */
  function Straddle(p: Policy): (ts: seq<I64>)
    requires p.max >= 2 && p.window >= 1
    ensures |ts| == if p.window == 1 then p.max - 1 else 2 * p.max - 2
  {
    if p.window == 1 then seq(p.max - 1, _ => 0)
    else [0] + seq(p.max - 2, _ => p.window - 1) + seq(p.max - 1, _ => p.window)
  }

  lemma {:induction false} StraddleOpener(p: Policy, n: nat)
    requires p.max >= 2 && p.window >= 1 && 1 <= n <= |Straddle(p)|
    ensures Opener(p, Straddle(p), n) == if n < p.max then 0 else p.max - 1
  {
    if n > 1 {
      StraddleOpener(p, n - 1);
    }
  }

  lemma StraddleIsPlausible(p: Policy)
    requires p.max >= 2 && p.window >= 1 && p.lockout >= 0 && p.window + p.lockout <= I64_MAX
    ensures Plausible(p, Straddle(p))
  {
    var ts := Straddle(p);
    assert forall i :: 0 <= i < |ts| ==>
      ts[i] == if i == 0 || p.window == 1 then 0 else if i < p.max - 1 then p.window - 1 else p.window;
    forall n | 1 <= n <= |ts| ensures CounterFits(p, ts, n) { StraddleOpener(p, n); }
  }

  /** One failure fewer than the threshold can pass unlocked, for every policy whose times fit the clock. */
  lemma BoundIsTight(p: Policy)
    requires p.max >= 2 && p.window >= 1 && p.lockout >= 0 && p.window + p.lockout <= I64_MAX
    ensures var ts := Straddle(p);
            var i, j := if p.window == 1 then 0 else 1, |ts| - 1;
            && Plausible(p, ts) && i <= j && ts[j] - ts[i] < p.window && j - i + 1 == Threshold(p) - 1
            && forall k :: 0 <= k < |ts| ==> !SetsLock(p, ts, k)
  {
    var ts := Straddle(p);
    StraddleIsPlausible(p);
    forall k | 0 <= k < |ts| ensures !SetsLock(p, ts, k) {
      LocksIff(p, ts, k);
      StraddleOpener(p, k + 1);
    }
  }

  // ----- how long a lock lasts -----

  /** check_key refuses at this time. */
  ghost predicate LockedAt(t: Tables, key: string, now: I64) {
    key in t.lockouts && t.lockouts[key].lockedUntil.Some? && t.lockouts[key].lockedUntil.value > now
  }

  ghost predicate LockedUntil(t: Tables, key: string, until: I64) {
    key in t.lockouts && t.lockouts[key].lockedUntil.Some? && t.lockouts[key].lockedUntil.value >= until
  }

  predicate FailureOf(c: Command, key: string) {
    c.RecordAuthFailure? && c.key == key
  }

  /** This failure of the key writes a lock that ends before `until`. */
  predicate Shortens(t: Tables, c: Command, key: string, until: I64) {
    && FailureOf(c, key) && Wrap64(c.now + c.lockoutSecs) < until
    && LockStep(Lookup(t.lockouts, key), c.now, c.max, c.windowSecs, c.lockoutSecs).failures >= c.max
  }

  /** A command keeps a lock exactly unless it is a failure that writes an earlier end. */
  lemma StepKeepsLockIff(t: Tables, node: U64, c: Command, key: string, until: I64)
    requires LockedUntil(t, key, until)
    ensures LockedUntil(Apply(t, node, c).0, key, until) <==> !Shortens(t, c, key, until)
  {
    if !c.RecordAuthFailure? { LockoutsUntouched(t, node, c); }
  }

  lemma LockoutsUntouched(t: Tables, node: U64, c: Command)
    requires !c.RecordAuthFailure?
    ensures Apply(t, node, c).0.lockouts == t.lockouts
  {
  }

  /** No command of the run shortens the lock. */
  ghost predicate NoneShortens(t: Tables, node: U64, cs: seq<Command>, key: string, until: I64) {
    forall i :: 0 <= i < |cs| ==> !Shortens(Run(t, node, cs[..i]), cs[i], key, until)
  }

  /** Once locked, a key stays locked to the end, whatever commands follow, restores included. */
  lemma {:induction false} LockHolds(t: Tables, node: U64, cs: seq<Command>, key: string, until: I64)
    requires LockedUntil(t, key, until) && NoneShortens(t, node, cs, key, until)
    ensures LockedUntil(Run(t, node, cs), key, until)
  {
    if cs != [] {
      var init := cs[..|cs| - 1];
      assert forall i :: 0 <= i < |init| ==> init[..i] == cs[..i] && init[i] == cs[i];
      LockHolds(t, node, init, key, until);
      StepKeepsLockIff(Run(t, node, init), node, cs[|cs| - 1], key, until);
    }
  }

  /** One lockout length and a clock that does not go back never shorten a lock. */
  lemma SteadyClockNeverShortens(t: Tables, node: U64, cs: seq<Command>, key: string, lockout: I64, at: I64)
    requires lockout >= 0 && at + lockout <= I64_MAX
    requires forall i :: 0 <= i < |cs| && FailureOf(cs[i], key) ==>
               at <= cs[i].now && cs[i].lockoutSecs == lockout && cs[i].now + lockout <= I64_MAX
    ensures NoneShortens(t, node, cs, key, at + lockout)
  {
  }

  /** The failure that locks at time t bars the key for every moment of [t, t + lockout). */
  lemma LockLastsItsTime(t: Tables, node: U64, key: string, p: Policy, at: I64, cs: seq<Command>, now: I64)
    requires p.lockout >= 0 && at + p.lockout <= I64_MAX && now < at + p.lockout
    requires LockStep(Lookup(t.lockouts, key), at, p.max, p.window, p.lockout).failures >= p.max
    requires NoneShortens(AuthFailureEffect(t, key, at, p.max, p.window, p.lockout).0, node, cs, key, at + p.lockout)
    ensures LockedAt(Run(AuthFailureEffect(t, key, at, p.max, p.window, p.lockout).0, node, cs), key, now)
  {
    var locked := AuthFailureEffect(t, key, at, p.max, p.window, p.lockout).0;
    LockHolds(locked, node, cs, key, at + p.lockout);
  }

  /** The table row of a key after a run of its failures is the record the bounds speak about. */
  lemma {:induction false} RowIsRecord(t: Tables, node: U64, key: string, p: Policy, ts: seq<I64>, cs: seq<Command>)
    requires key !in t.lockouts && |cs| == |ts|
    requires forall i :: 0 <= i < |cs| ==> cs[i] == RecordAuthFailure(key, ts[i], p.max, p.window, p.lockout)
    ensures Lookup(Run(t, node, cs).lockouts, key) == RecordAfter(p, ts, |ts|)
  {
    if cs != [] {
      var n := |cs| - 1;
      RowIsRecord(t, node, key, p, ts[..n], cs[..n]);
      RecordOfPrefix(p, ts, n);
    }
  }

  lemma {:induction false} RecordOfPrefix(p: Policy, ts: seq<I64>, n: nat)
    requires n <= |ts|
    ensures RecordAfter(p, ts[..n], n) == RecordAfter(p, ts, n)
  {
    PrefixStep(p, ts, n, n);
  }

  lemma {:induction false} PrefixStep(p: Policy, ts: seq<I64>, n: nat, k: nat)
    requires k <= n <= |ts|
    ensures RecordAfter(p, ts[..n], k) == RecordAfter(p, ts, k)
  {
    if k > 0 { PrefixStep(p, ts, n, k - 1); }
  }

  // ----- whole runs -----

  /** Failures of the key are recorded under one lockout length, with a clock that does not go back. */
  ghost predicate Steady(cs: seq<Command>, key: string, lockout: I64) {
    && lockout >= 0
    && (forall i :: 0 <= i < |cs| && FailureOf(cs[i], key) ==> cs[i].lockoutSecs == lockout && cs[i].now + lockout <= I64_MAX)
    && (forall i, j :: 0 <= i < j < |cs| && FailureOf(cs[i], key) && FailureOf(cs[j], key) ==> cs[i].now <= cs[j].now)
  }

  /** Command i of the run is a failure that writes a lock. */
  ghost predicate Locks(t: Tables, node: U64, cs: seq<Command>, i: nat, key: string)
    requires i < |cs|
  {
    var c := cs[i];
    FailureOf(c, key) &&
    LockStep(Lookup(Run(t, node, cs[..i]).lockouts, key), c.now, c.max, c.windowSecs, c.lockoutSecs).failures >= c.max
  }

  lemma LockIsSet(t: Tables, node: U64, c: Command, key: string)
    requires FailureOf(c, key) && c.lockoutSecs >= 0 && c.now + c.lockoutSecs <= I64_MAX
    requires LockStep(Lookup(t.lockouts, key), c.now, c.max, c.windowSecs, c.lockoutSecs).failures >= c.max
    ensures LockedUntil(Apply(t, node, c).0, key, c.now + c.lockoutSecs)
  {
  }

  /** The lock stands right after the failure that writes it. */
  lemma LockStands(t: Tables, node: U64, cs: seq<Command>, key: string, lockout: I64, i: nat)
    requires i < |cs| && Steady(cs, key, lockout) && Locks(t, node, cs, i, key)
    ensures LockedUntil(Run(t, node, cs[..i + 1]), key, cs[i].now + lockout)
  {
    var before := Run(t, node, cs[..i]);
    assert cs[..i + 1][..i] == cs[..i];
    RejectionChangesNothing(before, node, cs[i]);
    LockIsSet(before, node, cs[i], key);
  }

  /**
   * One lockout length and a clock that does not go back: whatever commands a run holds, after a failure that locks
   * at time t the key is barred at every later point of the run, for every moment of [t, t + lockout).
   */
  lemma LockedThroughout(t: Tables, node: U64, cs: seq<Command>, key: string, lockout: I64, i: nat, j: nat, now: I64)
    requires i < j <= |cs| && Steady(cs, key, lockout) && Locks(t, node, cs, i, key) && now < cs[i].now + lockout
    ensures LockedAt(Run(t, node, cs[..j]), key, now)
  {
    var locked, rest := Run(t, node, cs[..i + 1]), cs[i + 1..j];
    assert cs[..i + 1] + rest == cs[..j];
    RunSplits(t, node, cs[..i + 1], rest);
    LockStands(t, node, cs, key, lockout, i);
    SteadyClockNeverShortens(locked, node, rest, key, lockout, cs[i].now);
    LockHolds(locked, node, rest, key, cs[i].now + lockout);
  }

  // ----- a clock that goes back -----

  /** Failures at one moment: each is counted, and the one that reaches the maximum locks. */
  lemma {:induction false} AllAtOnce(p: Policy, at: I64, n: nat)
    requires 1 <= n <= p.max < 0xFFFF_FFFF && p.window > 0 && p.lockout >= 0 && 0 <= at && at + p.lockout <= I64_MAX
    ensures var r := RecordAfter(p, seq(p.max, _ => at), n).value;
            && r.failures == n && r.windowStart == at
            && r.lockedUntil == if n == p.max then Some(at + p.lockout) else None
  {
    var ts := seq(p.max, _ => at);
    if n == 1 {
      assert RecordAfter(p, ts, 0) == None;
      FirstStep(at, p);
    } else {
      AllAtOnce(p, at, n - 1);
      PlainStep(RecordAfter(p, ts, n - 1).value, at, p);
    }
  }

  /**
   * The failing run: `max` failures at one moment lock the key, and one more that is recorded with a clock a second
   * behind opens it in the last second of the lock.
   */
  lemma EarlierClockShortensLock(t: Tables, node: U64, key: string, p: Policy, at: I64)
    requires key !in t.lockouts && 1 <= p.max < 0xFFFF_FFFF && p.window > 0 && p.lockout > 0
    requires 0 < at && at + p.lockout <= I64_MAX
    ensures var cs := seq(p.max, _ => RecordAuthFailure(key, at, p.max, p.window, p.lockout));
            var late := RecordAuthFailure(key, at - 1, p.max, p.window, p.lockout);
            && LockedAt(Run(t, node, cs), key, at + p.lockout - 1)
            && !LockedAt(Run(t, node, cs + [late]), key, at + p.lockout - 1)
  {
    var cs := seq(p.max, _ => RecordAuthFailure(key, at, p.max, p.window, p.lockout));
    var late := RecordAuthFailure(key, at - 1, p.max, p.window, p.lockout);
    RowIsRecord(t, node, key, p, seq(p.max, _ => at), cs);
    AllAtOnce(p, at, p.max);
    assert (cs + [late])[..|cs|] == cs;
    OneBehind(Run(t, node, cs), node, key, p, at);
  }

  lemma OneBehind(t: Tables, node: U64, key: string, p: Policy, at: I64)
    requires 1 <= p.max < 0xFFFF_FFFF && p.window > 0 && p.lockout > 0 && 0 < at && at + p.lockout <= I64_MAX
    requires key in t.lockouts && t.lockouts[key] == LockoutRecord(p.max, at, Some(at + p.lockout))
    ensures !LockedAt(Apply(t, node, RecordAuthFailure(key, at - 1, p.max, p.window, p.lockout)).0, key, at + p.lockout - 1)
  {
    assert Wrap64(at - 1 - at) == -1 && Wrap64(at - 1 + p.lockout) == at - 1 + p.lockout;
  }
}

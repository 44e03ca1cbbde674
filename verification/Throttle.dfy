/** The login throttle: after `free` failures of a key each attempt must wait, twice as long each time, up to a
    ceiling. */
module Throttle {
  import opened Wrappers

  type Table = map<string, (nat, real)>

  /** The constructor's three settings. */
  datatype Limits = Limits(free: nat, base: real, max: real)

  const DEFAULTS: Limits := Limits(5, 2.0, 300.0)

  function Pow2(k: nat): real {
    if k == 0 then 1.0 else 2.0 * Pow2(k - 1)
  }

  function MinReal(a: real, b: real): real {
    if a < b then a else b
  }

  /** How long after failure number `count` the next attempt must wait. */
  function Delay(l: Limits, count: nat): real
    requires l.free <= count
  {
    MinReal(l.max, l.base * Pow2(count - l.free))
  }

  /** From 2 ** 1024 on, the integer power no longer converts to a float and Python raises OverflowError. */
  const FLOAT_EXPONENT_LIMIT: nat := 1024

  function Entry(t: Table, key: string): (nat, real) {
    if key in t then t[key] else (0, 0.0)
  }

  /** None is the OverflowError. */
  function Wait(l: Limits, t: Table, key: string, now: real): Option<real> {
    var (count, last) := Entry(t, key);
    if count < l.free then Some(0.0)
    else if count - l.free >= FLOAT_EXPONENT_LIMIT then None
    else
      var left := last + Delay(l, count) - now;
      Some(if left < 0.0 then 0.0 else left)
  }

  function Fail(t: Table, key: string, now: real): Table {
    t[key := (Entry(t, key).0 + 1, now)]
  }

  class LoginThrottle {
    const limits: Limits
    var failures: Table

    constructor (limits: Limits)
      ensures this.limits == limits && failures == map[]
    {
      this.limits, failures := limits, map[];
    }

    method WaitSeconds(key: string, now: real) returns (seconds: Option<real>)
      ensures seconds == Wait(limits, failures, key, now)
    {
      var (count, last) := if key in failures then failures[key] else (0, 0.0);
      if count < limits.free {
        return Some(0.0);
      }
      if count - limits.free >= FLOAT_EXPONENT_LIMIT {
        return None;
      }
      var delay := MinReal(limits.max, limits.base * Pow2(count - limits.free));
      var left := last + delay - now;
      seconds := Some(if left < 0.0 then 0.0 else left);
    }

    method Failed(key: string, now: real)
      modifies this
      ensures failures == Fail(old(failures), key, now)
      ensures failures == old(failures)[key := (1 + if key in old(failures) then old(failures)[key].0 else 0, now)]
    {
      var (count, _) := if key in failures then failures[key] else (0, 0.0);
      failures := failures[key := (count + 1, now)];
    }

    method Succeeded(key: string)
      modifies this
      ensures failures == old(failures) - {key}
    {
      failures := failures - {key};
    }
  }

  /** The seconds returned are exactly those to wait: no attempt is free before them, and every one is after them. */
  lemma WaitIsExact(l: Limits, t: Table, key: string, now: real, at: real)
    requires Wait(l, t, key, now).Some? && now <= at
    ensures 0.0 <= Wait(l, t, key, now).value
    ensures Wait(l, t, key, at) == Some(0.0) <==> now + Wait(l, t, key, now).value <= at
  {
    hide Delay;
  }

  /** Before the free failures are used up nobody waits; a key nobody failed is free. */
  lemma FreeAttempts(l: Limits, t: Table, key: string, now: real)
    requires Entry(t, key).0 < l.free
    ensures Wait(l, t, key, now) == Some(0.0)
  {
  }

  // ---- Whole runs --------------------------------------------------------------------------

  datatype Event = Failure(key: string, at: real) | Success(key: string, at: real)

  function After(t: Table, run: seq<Event>): Table {
    if run == [] then t
    else
      var n := |run| - 1;
      match run[n]
      case Failure(key, at) => Fail(After(t, run[..n]), key, at)
      case Success(key, _) => After(t, run[..n]) - {key}
  }

  /** The callers' discipline: a failure is recorded only when the wait was over. */
  predicate Disciplined(l: Limits, t: Table, run: seq<Event>) {
    run == [] ||
    var n := |run| - 1;
    Disciplined(l, t, run[..n])
    && (run[n].Failure? ==> Wait(l, After(t, run[..n]), run[n].key, run[n].at) == Some(0.0))
  }

  predicate NeverSucceeds(run: seq<Event>, key: string) {
    forall i :: 0 <= i < |run| ==> !(run[i].Success? && run[i].key == key)
  }

  /** When the key failed. */
  function FailureTimes(run: seq<Event>, key: string): seq<real> {
    if run == [] then []
    else
      var n := |run| - 1;
      FailureTimes(run[..n], key) + if run[n].Failure? && run[n].key == key then [run[n].at] else []
  }

  predicate WaitedOut(l: Limits, times: seq<real>) {
    forall i :: 0 < i < |times| && l.free <= i ==> times[i - 1] + Delay(l, i) <= times[i]
  }

  lemma FailureWaits(l: Limits, t: Table, key: string, at: real)
    requires Wait(l, t, key, at) == Some(0.0) && l.free <= Entry(t, key).0
    ensures Entry(t, key).0 < l.free + FLOAT_EXPONENT_LIMIT && Entry(t, key).1 + Delay(l, Entry(t, key).0) <= at
  {
    hide Delay;
  }

  lemma WaitedOutAppend(l: Limits, times: seq<real>, at: real)
    requires WaitedOut(l, times)
    requires times != [] && l.free <= |times| ==> times[|times| - 1] + Delay(l, |times|) <= at
    ensures WaitedOut(l, times + [at])
  {
    hide Delay;
  }

  /** Whatever other keys do in between, the i-th further failure waits out the i-th delay, and the count says how
      many there were. */
  lemma {:induction false} FailuresSpaced(l: Limits, t: Table, run: seq<Event>, key: string)
    requires key !in t && Disciplined(l, t, run) && NeverSucceeds(run, key)
    ensures var times := FailureTimes(run, key);
      && WaitedOut(l, times) && |times| <= l.free + FLOAT_EXPONENT_LIMIT
      && Entry(After(t, run), key) == (|times|, if times == [] then 0.0 else times[|times| - 1])
  {
    hide Delay, Wait, WaitedOut;
    if run == [] {
      NeverFailed(l);
    } else {
      var n := |run| - 1;
      assert NeverSucceeds(run[..n], key);
      FailuresSpaced(l, t, run[..n], key);
      if run[n].Failure? && run[n].key == key {
        var times := FailureTimes(run[..n], key);
        if l.free <= |times| {
          FailureWaits(l, After(t, run[..n]), key, run[n].at);
        }
        WaitedOutAppend(l, times, run[n].at);
      } else {
        assert FailureTimes(run, key) == FailureTimes(run[..n], key);
      }
    }
  }

  lemma NeverFailed(l: Limits)
    ensures WaitedOut(l, [])
  {
  }

  /** The delays from the free-th failure to the n-th. */
  function DelaySum(l: Limits, n: nat): real
    requires l.free <= n
  {
    if n == l.free then 0.0 else DelaySum(l, n - 1) + Delay(l, n - 1)
  }

  lemma {:induction false} SpacedSums(l: Limits, times: seq<real>, n: nat)
    requires WaitedOut(l, times) && 1 <= l.free <= n <= |times|
    ensures times[l.free - 1] + DelaySum(l, n) <= times[n - 1]
    decreases n
  {
    if n > l.free {
      SpacedSums(l, times, n - 1);
    }
    hide Delay;
  }

  /** The n-th failure of a key comes at least the sum of the delays after the free-th. */
  lemma ThrottleBound(l: Limits, t: Table, run: seq<Event>, key: string, n: nat)
    requires key !in t && Disciplined(l, t, run) && NeverSucceeds(run, key)
    requires 1 <= l.free <= n <= |FailureTimes(run, key)|
    ensures FailureTimes(run, key)[l.free - 1] + DelaySum(l, n) <= FailureTimes(run, key)[n - 1]
  {
    FailuresSpaced(l, t, run, key);
    SpacedSums(l, FailureTimes(run, key), n);
  }

  lemma DefaultPowers()
    ensures Pow2(0) == 1.0 && Pow2(1) == 2.0 && Pow2(2) == 4.0 && Pow2(3) == 8.0
    ensures Pow2(4) == 16.0 && Pow2(5) == 32.0 && Pow2(6) == 64.0 && Pow2(7) == 128.0
  {
    assert Pow2(2) == 4.0;
    assert Pow2(4) == 16.0;
    assert Pow2(6) == 64.0;
  }

  lemma {:induction false} PowersGrow(k: nat)
    requires 8 <= k
    ensures 256.0 <= Pow2(k)
    decreases k
  {
    DefaultPowers();
    if k > 8 {
      PowersGrow(k - 1);
    }
  }

  lemma FirstThirteen()
    ensures DelaySum(DEFAULTS, 13) == 510.0
  {
    DefaultPowers();
    assert DelaySum(DEFAULTS, 6) == 2.0;
    assert DelaySum(DEFAULTS, 7) == 6.0;
    assert DelaySum(DEFAULTS, 8) == 14.0;
    assert DelaySum(DEFAULTS, 9) == 30.0;
    assert DelaySum(DEFAULTS, 10) == 62.0;
    assert DelaySum(DEFAULTS, 11) == 126.0;
    assert DelaySum(DEFAULTS, 12) == 254.0;
  }

  /** With the defaults: 510 seconds for the first eight delays, then 300 for every further failure. */
  lemma {:induction false} DefaultSum(n: nat)
    requires 13 <= n
    ensures DelaySum(DEFAULTS, n) == 510.0 + 300.0 * (n - 13) as real
    decreases n
  {
    if n == 13 {
      FirstThirteen();
    } else {
      DefaultSum(n - 1);
      PowersGrow(n - 1 - 5);
    }
  }

  /** With the defaults, the n-th wrong guess at one key comes no sooner than 510 + 300 (n - 13) seconds after the
      fifth. */
  lemma DefaultBound(run: seq<Event>, key: string, n: nat)
    requires Disciplined(DEFAULTS, map[], run) && NeverSucceeds(run, key) && 13 <= n <= |FailureTimes(run, key)|
    ensures FailureTimes(run, key)[4] + 510.0 + 300.0 * (n - 13) as real <= FailureTimes(run, key)[n - 1]
  {
    ThrottleBound(DEFAULTS, map[], run, key, n);
    DefaultSum(n);
  }

  /** A guesser who waits exactly as told. */
  function SteadyTime(l: Limits, start: real, i: nat): real {
    if i < l.free then start else start + DelaySum(l, i + 1)
  }

  function SteadyRun(l: Limits, key: string, start: real, n: nat): seq<Event> {
    if n == 0 then [] else SteadyRun(l, key, start, n - 1) + [Failure(key, SteadyTime(l, start, n - 1))]
  }

  lemma SteadyStep(l: Limits, start: real, i: nat)
    requires 1 <= l.free <= i
    ensures SteadyTime(l, start, i) == SteadyTime(l, start, i - 1) + Delay(l, i)
  {
    hide Delay;
    assert DelaySum(l, l.free) == 0.0;
  }

  lemma SteadyWait(l: Limits, t: Table, key: string, start: real, i: nat)
    requires 1 <= l.free && i < l.free + FLOAT_EXPONENT_LIMIT
    requires Entry(t, key) == (i, if i == 0 then 0.0 else SteadyTime(l, start, i - 1))
    ensures Wait(l, t, key, SteadyTime(l, start, i)) == Some(0.0)
  {
    hide Delay, SteadyTime;
    if l.free <= i {
      SteadyStep(l, start, i);
    }
  }

  lemma LastEvent(run: seq<Event>, e: Event, t: Table, key: string)
    ensures (run + [e])[..|run|] == run
    ensures e.Failure? ==> After(t, run + [e]) == Fail(After(t, run), e.key, e.at)
    ensures e.Failure? && e.key == key ==> FailureTimes(run + [e], key) == FailureTimes(run, key) + [e.at]
  {
    assert (run + [e])[..|run|] == run;
  }

  lemma DisciplinedAppend(l: Limits, t: Table, run: seq<Event>, e: Event)
    requires Disciplined(l, t, run) && e.Failure? && Wait(l, After(t, run), e.key, e.at) == Some(0.0)
    ensures Disciplined(l, t, run + [e])
  {
    assert (run + [e])[..|run|] == run;
    hide Wait, After;
  }

  /** The bound is exact: waiting no longer than told is allowed, and meets it with equality. */
  lemma {:induction false} BoundIsTight(l: Limits, key: string, start: real, n: nat)
    requires 1 <= l.free && n <= l.free + FLOAT_EXPONENT_LIMIT
    ensures var run := SteadyRun(l, key, start, n);
      && Disciplined(l, map[], run) && |FailureTimes(run, key)| == n
      && (forall i :: 0 <= i < n ==> FailureTimes(run, key)[i] == SteadyTime(l, start, i))
      && Entry(After(map[], run), key) == (n, if n == 0 then 0.0 else SteadyTime(l, start, n - 1))
    decreases n
  {
    hide SteadyTime, Disciplined, Wait, After, FailureTimes;
    if n == 0 {
      NothingYet(l, key);
    } else {
      BoundIsTight(l, key, start, n - 1);
      var before, e := SteadyRun(l, key, start, n - 1), Failure(key, SteadyTime(l, start, n - 1));
      SteadyWait(l, After(map[], before), key, start, n - 1);
      DisciplinedAppend(l, map[], before, e);
      LastEvent(before, e, map[], key);
    }
  }

  lemma NothingYet(l: Limits, key: string)
    ensures Disciplined(l, map[], []) && After(map[], []) == map[] && FailureTimes([], key) == []
  {
  }

  // ---- The lockout -----------------------------------------------------------------------------

  /** What the routes do: a failure or a success of a key is recorded only after its wait was over. */
  predicate AskFirst(l: Limits, t: Table, run: seq<Event>) {
    run == [] ||
    var n := |run| - 1;
    AskFirst(l, t, run[..n]) && Wait(l, After(t, run[..n]), run[n].key, run[n].at) == Some(0.0)
  }

  ghost predicate Locked(l: Limits, t: Table, key: string) {
    key in t && forall now :: Wait(l, t, key, now) == None
  }

  lemma LockedIff(l: Limits, t: Table, key: string)
    ensures Locked(l, t, key) <==> l.free + FLOAT_EXPONENT_LIMIT <= Entry(t, key).0
  {
    hide Delay;
    if Entry(t, key).0 < l.free + FLOAT_EXPONENT_LIMIT {
      assert Wait(l, t, key, 0.0) != None;
    }
  }

  /** Once a key is locked nobody who asks first ever changes its entry again, whatever they try and however long they
      wait. */
  lemma {:induction false} LockedForEver(l: Limits, t: Table, run: seq<Event>, key: string)
    requires Locked(l, t, key) && AskFirst(l, t, run)
    ensures Locked(l, After(t, run), key) && After(t, run)[key] == t[key]
  {
    LockedIff(l, t, key);
    if run == [] {
    } else {
      var n := |run| - 1;
      LockedForEver(l, t, run[..n], key);
      assert run[n].key != key;
      LockedIff(l, After(t, run), key);
    }
    hide Wait;
  }

  lemma {:induction false} SteadyAsksFirst(l: Limits, key: string, start: real, n: nat)
    requires Disciplined(l, map[], SteadyRun(l, key, start, n))
    ensures AskFirst(l, map[], SteadyRun(l, key, start, n))
    decreases n
  {
    hide Wait, After, SteadyTime;
    if n == 0 {
    } else {
      var before := SteadyRun(l, key, start, n - 1);
      assert SteadyRun(l, key, start, n)[..|before|] == before;
      SteadyAsksFirst(l, key, start, n - 1);
    }
  }

  /** A guesser who always waits as told locks the key with failure number free + 1024, and it stays locked until a
      restart. */
  lemma GuesserLocksKey(l: Limits, key: string, start: real, later: seq<Event>)
    requires 1 <= l.free
    requires AskFirst(l, After(map[], SteadyRun(l, key, start, l.free + FLOAT_EXPONENT_LIMIT)), later)
    ensures var guesses := SteadyRun(l, key, start, l.free + FLOAT_EXPONENT_LIMIT);
      var t := After(map[], guesses);
      AskFirst(l, map[], guesses) && Locked(l, t, key) && Locked(l, After(t, later), key)
  {
    var n := l.free + FLOAT_EXPONENT_LIMIT;
    BoundIsTight(l, key, start, n);
    SteadyAsksFirst(l, key, start, n);
    LockedIff(l, After(map[], SteadyRun(l, key, start, n)), key);
    LockedForEver(l, After(map[], SteadyRun(l, key, start, n)), later, key);
    hide AskFirst, Locked, After, SteadyRun, Disciplined, Entry;
  }
}

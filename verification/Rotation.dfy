/** Which generation a scheduled verification picks next, and why the rotation is fair. */
module Rotation {
  import opened Wrappers

  /** One second-resolution check time per verified generation; a generation is named by when it was taken. */
  type Results = map<int, int>

  /** The sort key: never checked before checked; then the older generation, or the longer-ago check. */
  predicate KeyLess(a: int, b: int, results: Results) {
    if a !in results then (b in results || a < b)
    else b in results && results[a] < results[b]
  }

  /** min(snaps, key=...): the first of the least. */
  function Pick(snaps: seq<int>, results: Results): (p: Option<int>)
    ensures p.None? <==> snaps == []
    ensures p.Some? ==> p.value in snaps && forall s :: s in snaps ==> !KeyLess(s, p.value, results)
  {
    if snaps == [] then None
    else
      var n := |snaps| - 1;
      var best := Pick(snaps[..n], results);
      assert snaps == snaps[..n] + [snaps[n]];
      if best.None? || KeyLess(snaps[n], best.value, results) then Some(snaps[n]) else best
  }

  /** What the pick is: the oldest generation never checked, or, when all were, one whose check lies longest back. */
  lemma PickIs(snaps: seq<int>, results: Results)
    requires snaps != []
    ensures var p := Pick(snaps, results).value;
      && p in snaps
      && (p !in results ==> forall s :: s in snaps && s !in results ==> p <= s)
      && (p in results ==> forall s :: s in snaps ==> s in results && results[p] <= results[s])
  {
    var p := Pick(snaps, results).value;
    assert forall s :: s in snaps ==> !KeyLess(s, p, results);
  }

  /** save_result: the row of the generation is inserted or overwritten. */
  function Save(results: Results, name: int, checkedAt: int): Results {
    results[name := checkedAt]
  }

  /** Repeated pick-and-save over a fixed list, one check per time. */
  function Picks(snaps: seq<int>, results: Results, times: seq<int>): seq<int>
    requires snaps != []
    decreases |times|
  {
    if times == [] then []
    else
      var p := Pick(snaps, results).value;
      [p] + Picks(snaps, Save(results, p, times[0]), times[1..])
  }

  predicate Increasing(times: seq<int>) {
    forall i, j :: 0 <= i < j < |times| ==> times[i] < times[j]
  }

  /** Every stored check of a listed generation is older than `t`. */
  predicate CheckedBefore(snaps: seq<int>, results: Results, t: int) {
    forall s :: s in snaps && s in results ==> results[s] < t
  }

  /** The generations in `done` were checked from `since` on, all others before, or never. */
  predicate RoundSoFar(snaps: seq<int>, results: Results, done: set<int>, since: int) {
    && (forall s :: s in done ==> s in results && since <= results[s])
    && (forall s :: s in snaps && s !in done && s in results ==> results[s] < since)
  }

  /** While some generation of the round is left, the pick is one of those. */
  lemma PickIsNew(snaps: seq<int>, results: Results, done: set<int>, since: int)
    requires snaps != [] && RoundSoFar(snaps, results, done, since)
    requires done <= Elements(snaps) && |done| < |Elements(snaps)|
    ensures Pick(snaps, results).value in snaps && Pick(snaps, results).value !in done
  {
    var p := Pick(snaps, results).value;
    assert (forall s :: s in Elements(snaps) ==> s in done) ==> Elements(snaps) == done;
    var s :| s in Elements(snaps) && s !in done;
    assert s in snaps && !KeyLess(s, p, results);
  }

  /** The generations already checked in this round have later checks than all others, so every further pick is new. */
  lemma {:induction false} PicksAvoid(snaps: seq<int>, results: Results, times: seq<int>, done: set<int>, since: int)
    requires snaps != [] && forall i :: 0 <= i < |times| ==> since <= times[i]
    requires done <= Elements(snaps) && |times| + |done| <= |Elements(snaps)|
    requires RoundSoFar(snaps, results, done, since)
    ensures var ps := Picks(snaps, results, times);
      |ps| == |times| && |Elements(ps)| == |ps| && Elements(ps) !! done && Elements(ps) <= Elements(snaps)
    decreases |times|
  {
    hide KeyLess, Pick;
    if times == [] {
    } else {
      PickIsNew(snaps, results, done, since);
      var p := Pick(snaps, results).value;
      var results' := Save(results, p, times[0]);
      assert RoundSoFar(snaps, results', done + {p}, since);
      PicksAvoid(snaps, results', times[1..], done + {p}, since);
      var rest := Picks(snaps, results', times[1..]);
      assert Elements([p] + rest) == {p} + Elements(rest);
    }
  }

  lemma SameSize<T>(A: set<T>, B: set<T>)
    requires A <= B && |A| == |B|
    ensures A == B
  {
    assert B == A + (B - A);
  }

  /** From any results stored before the first pick, n consecutive picks out of n generations check every one of them
      exactly once. */
  lemma FullRound(snaps: seq<int>, results: Results, times: seq<int>)
    requires snaps != [] && times != [] && |Elements(snaps)| == |times| && Increasing(times)
    requires CheckedBefore(snaps, results, times[0])
    ensures var ps := Picks(snaps, results, times);
      |ps| == |times| && Elements(ps) == Elements(snaps) && forall i, j :: 0 <= i < j < |ps| ==> ps[i] != ps[j]
  {
    PicksAvoid(snaps, results, times, {}, times[0]);
    var ps := Picks(snaps, results, times);
    SameSize(Elements(ps), Elements(snaps));
    AllDifferent(ps);
  }

  lemma {:induction false} AllDifferent(xs: seq<int>)
    ensures |Elements(xs)| <= |xs|
    ensures |Elements(xs)| == |xs| ==> forall i, j :: 0 <= i < j < |xs| ==> xs[i] != xs[j]
  {
    if xs == [] {
    } else {
      var n := |xs| - 1;
      AllDifferent(xs[..n]);
      assert xs == xs[..n] + [xs[n]];
      assert Elements(xs) == Elements(xs[..n]) + {xs[n]};
      assert xs[n] in xs[..n] ==> Elements(xs) == Elements(xs[..n]);
      if |Elements(xs)| == |xs| {
        assert forall i :: 0 <= i < n ==> xs[i] == xs[..n][i];
      }
    }
  }

  // ---- Never-checked generations first -------------------------------------------------------

  function Unchecked(snaps: seq<int>, results: Results): set<int> {
    set s | s in snaps && s !in results
  }

  lemma PickIsOldestUnchecked(snaps: seq<int>, results: Results)
    requires snaps != [] && Unchecked(snaps, results) != {}
    ensures var p := Pick(snaps, results).value;
      p in Unchecked(snaps, results) && forall s :: s in Unchecked(snaps, results) ==> p <= s
  {
    var p, U := Pick(snaps, results).value, Unchecked(snaps, results);
    assert (forall s :: s !in U) ==> U == {};
    var s :| s in U;
    assert !KeyLess(s, p, results);
    assert forall s :: s in U ==> !KeyLess(s, p, results);
  }

  /** The oldest of U, in ascending order. */
  predicate AreOldest(ps: seq<int>, U: set<int>) {
    && Increasing(ps) && (forall i :: 0 <= i < |ps| ==> ps[i] in U)
    && forall s, i :: s in U && s !in ps && 0 <= i < |ps| ==> ps[i] < s
  }

  lemma OldestFirst(p: int, rest: seq<int>, U: set<int>)
    requires p in U && (forall s :: s in U ==> p <= s) && AreOldest(rest, U - {p})
    ensures AreOldest([p] + rest, U)
  {
    var ps := [p] + rest;
    forall i, j | 0 <= i < j < |ps| ensures ps[i] < ps[j] {
      assert ps[j] == rest[j - 1] && rest[j - 1] in U - {p};
    }
    forall s, i | s in U && s !in ps && 0 <= i < |ps| ensures ps[i] < s {
      assert s != p by { assert ps[0] == p; }
      assert s !in rest by { assert forall k :: 0 <= k < |rest| ==> ps[k + 1] == rest[k]; }
      if i > 0 {
        assert ps[i] == rest[i - 1];
      }
    }
  }

  /** As long as some generation was never checked, the picks are the never-checked ones, oldest first. */
  lemma {:induction false} NeverCheckedFirst(snaps: seq<int>, results: Results, times: seq<int>)
    requires snaps != [] && |times| <= |Unchecked(snaps, results)|
    ensures |Picks(snaps, results, times)| == |times|
      && AreOldest(Picks(snaps, results, times), Unchecked(snaps, results))
    decreases |times|
  {
    hide KeyLess, Pick;
    if times == [] {
    } else {
      PickIsOldestUnchecked(snaps, results);
      var p := Pick(snaps, results).value;
      var results' := Save(results, p, times[0]);
      assert Unchecked(snaps, results') == Unchecked(snaps, results) - {p};
      NeverCheckedFirst(snaps, results', times[1..]);
      OldestFirst(p, Picks(snaps, results', times[1..]), Unchecked(snaps, results));
    }
    hide AreOldest;
  }
}

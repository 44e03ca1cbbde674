/** What holds of retention over whole histories of generations. */
module RetentionLaws {
  import opened Wrappers
  import opened Calendar
  import opened Retention

  // ---- The buckets -------------------------------------------------------------------------

  /** Daily buckets are local days, weekly buckets run from Monday 00:00 to Sunday 23:59 local time. */
  lemma BucketsAreDaysAndWeeks(t: int, u: int, off: int)
    ensures BucketKey(t, off, Daily) == BucketKey(u, off, Daily) <==> DayOf(t + off) == DayOf(u + off)
    ensures BucketKey(t, off, Weekly) == BucketKey(u, off, Weekly) <==> DayOf(t + off) / 7 == DayOf(u + off) / 7
  {
    var a, b := DayOf(t + off), DayOf(u + off);
    CivilOrder(a, b);
    IsoWeekIsMondayToSunday(a, b);
    assert BucketKey(t, off, Daily) == BucketKey(u, off, Daily) <==> CivilOf(a) == CivilOf(b) by {
      if BucketKey(t, off, Daily) == BucketKey(u, off, Daily) {
        assert BucketKey(t, off, Daily)[0] == CivilOf(b).year && BucketKey(t, off, Daily)[1] == CivilOf(b).month;
        assert BucketKey(t, off, Daily)[2] == CivilOf(b).day;
      }
    }
    assert BucketKey(t, off, Weekly) == BucketKey(u, off, Weekly) <==> IsoWeekOf(a) == IsoWeekOf(b) by {
      if BucketKey(t, off, Weekly) == BucketKey(u, off, Weekly) {
        assert BucketKey(t, off, Weekly)[0] == IsoWeekOf(b).0 && BucketKey(t, off, Weekly)[1] == IsoWeekOf(b).1;
      }
    }
  }

  lemma MonthKeyIs(t: int, u: int, off: int)
    ensures var c, d := CivilOf(DayOf(t + off)), CivilOf(DayOf(u + off));
      BucketKey(t, off, Monthly) == BucketKey(u, off, Monthly) <==> c.year == d.year && c.month == d.month
  {
    hide CivilOf, DayOf;
    var d := CivilOf(DayOf(u + off));
    if BucketKey(t, off, Monthly) == BucketKey(u, off, Monthly) {
      assert BucketKey(t, off, Monthly)[0] == d.year && BucketKey(t, off, Monthly)[1] == d.month;
    }
  }

  lemma YearKeyIs(t: int, u: int, off: int)
    ensures var c, d := CivilOf(DayOf(t + off)), CivilOf(DayOf(u + off));
      BucketKey(t, off, Yearly) == BucketKey(u, off, Yearly) <==> c.year == d.year
  {
    hide CivilOf, DayOf;
    var d := CivilOf(DayOf(u + off));
    if BucketKey(t, off, Yearly) == BucketKey(u, off, Yearly) {
      assert BucketKey(t, off, Yearly)[0] == d.year;
    }
  }

  /** Monthly and yearly buckets are the months and years of the local calendar. */
  lemma BucketsAreMonthsAndYears(t: int, u: int, off: int)
    ensures var a, b := DayOf(t + off), DayOf(u + off);
      && (BucketKey(t, off, Monthly) == BucketKey(u, off, Monthly)
          <==> exists y, m :: InMonth(a, y, m) && InMonth(b, y, m))
      && (BucketKey(t, off, Yearly) == BucketKey(u, off, Yearly)
          <==> exists y :: YearStart(y) <= a < YearStart(y + 1) && YearStart(y) <= b < YearStart(y + 1))
  {
    hide BucketKey, CivilOf, YearStart, InMonth, DayOf;
    MonthKeyIs(t, u, off);
    YearKeyIs(t, u, off);
    SameMonthIff(DayOf(t + off), DayOf(u + off));
    SameYearIff(DayOf(t + off), DayOf(u + off));
  }

  lemma SameMonthIff(a: int, b: int)
    ensures CivilOf(a).year == CivilOf(b).year && CivilOf(a).month == CivilOf(b).month
       <==> exists y, m :: InMonth(a, y, m) && InMonth(b, y, m)
  {
    MonthIs(a, CivilOf(a).year, CivilOf(a).month);
    MonthIs(b, CivilOf(b).year, CivilOf(b).month);
    hide CivilOf, InMonth;
    if y, m :| InMonth(a, y, m) && InMonth(b, y, m) {
      MonthIs(a, y, m);
      MonthIs(b, y, m);
    }
  }

  lemma SameYearIff(a: int, b: int)
    ensures CivilOf(a).year == CivilOf(b).year
       <==> exists y :: YearStart(y) <= a < YearStart(y + 1) && YearStart(y) <= b < YearStart(y + 1)
  {
    YearIs(a, CivilOf(a).year);
    YearIs(b, CivilOf(b).year);
    assert CivilOf(a).year == YearOf(a) && CivilOf(b).year == YearOf(b);
    hide CivilOf, YearStart, YearOf;
    if y :| YearStart(y) <= a < YearStart(y + 1) && YearStart(y) <= b < YearStart(y + 1) {
      YearIs(a, y);
      YearIs(b, y);
    }
  }

  // ---- One rule ----------------------------------------------------------------------------

  lemma {:induction false} OldestIn(A: set<int>) returns (m: int)
    requires A != {}
    ensures m in A && forall u :: u in A ==> m <= u
  {
    assert (forall u :: u !in A) ==> A == {};
    var a :| a in A;
    m := a;
    assert forall u :: u in A ==> u == a || u in A - {a};
    if A - {a} != {} {
      var k := OldestIn(A - {a});
      m := if k < a then k else a;
    }
  }

  /** The kept generations newer than w: they stand for at least the first n buckets, and number at most n. */
  lemma {:induction false} Leaders(S: set<int>, w: int, n: nat, key: int -> Key)
    ensures Min(n, |Keys(Newer(S, w), key)|) <= |Keys(Newer(S, w) * KeptSet(S, n, key), key)|
    ensures |Newer(S, w) * KeptSet(S, n, key)| <= Min(n, |Keys(Newer(S, w), key)|)
    decreases |Newer(S, w)|
  {
    hide Keys, KeptSet;
    if Newer(S, w) != {} {
      var u := OldestIn(Newer(S, w));
      assert Newer(S, w) == Newer(S, u) + {u};
      Leaders(S, u, n, key);
      LeadersStep(S, u, n, key);
    } else {
      LeadersOfNone(S, n, key);
    }
  }

  lemma LeadersOfNone(S: set<int>, n: nat, key: int -> Key)
    ensures Keys({}, key) == {} && {} * KeptSet(S, n, key) == {}
  {
  }

  /** What one more generation at the old end adds to the three counts. */
  lemma LeadersStep(S: set<int>, u: int, n: nat, key: int -> Key)
    requires u in S
    ensures var N, K := Newer(S, u), KeptSet(S, n, key);
      if u in K then
        && |Keys(N + {u}, key)| == |Keys(N, key)| + 1 && |Keys(N, key)| < n
        && |Keys((N + {u}) * K, key)| == |Keys(N * K, key)| + 1
        && |(N + {u}) * K| == |N * K| + 1
      else
        && |Keys((N + {u}) * K, key)| == |Keys(N * K, key)| && |(N + {u}) * K| == |N * K|
        && |Keys(N, key)| <= |Keys(N + {u}, key)|
        && (|Keys(N + {u}, key)| == |Keys(N, key)|
          || (|Keys(N + {u}, key)| == |Keys(N, key)| + 1 && n <= |Keys(N, key)|))
  {
    var N, K := Newer(S, u), KeptSet(S, n, key);
    KeysOfAdded(N, u, key);
    if u in K {
      assert (N + {u}) * K == N * K + {u};
      KeysOfAdded(N * K, u, key);
      KeysMonotone(N * K, N, key);
    } else {
      assert (N + {u}) * K == N * K;
      assert key(u) in Keys(N, key) ==> Keys(N + {u}, key) == Keys(N, key);
    }
  }

  lemma KeysOfAdded(A: set<int>, u: int, key: int -> Key)
    ensures Keys(A + {u}, key) == Keys(A, key) + {key(u)}
  {
    assert forall v :: v in A ==> key(v) in Keys(A, key);
    assert u in A + {u};
  }

  lemma KeysMonotone(A: set<int>, B: set<int>, key: int -> Key)
    requires A <= B
    ensures Keys(A, key) <= Keys(B, key) && |Keys(A, key)| <= |Keys(B, key)|
  {
    SubsetSize(Keys(A, key), Keys(B, key));
  }

  /** Removing generations the rule does not keep changes nothing for the rule. */
  lemma KeptOfBetween(S: set<int>, T: set<int>, n: int, key: int -> Key, t: int)
    requires KeptSet(S, n, key) <= T <= S
    ensures KeptBy(T, t, n, key) <==> KeptBy(S, t, n, key)
  {
    if KeptBy(S, t, n, key) {
      KeysMonotone(Newer(T, t), Newer(S, t), key);
    } else if KeptBy(T, t, n, key) {
      var w := NewestOfBucket(S, t, key);
      assert w in S && (w == t || w !in T) && !KeptBy(S, w, n, key);
      assert Newer(S, w) <= Newer(S, t);
      Leaders(S, w, n, key);
      assert Newer(S, w) * KeptSet(S, n, key) <= Newer(T, t);
      KeysMonotone(Newer(S, w) * KeptSet(S, n, key), Newer(T, t), key);
      assert false;
    }
  }

  lemma NewestOfBucket(S: set<int>, t: int, key: int -> Key) returns (w: int)
    requires t in S
    ensures w in S && t <= w && key(w) == key(t) && key(w) !in Keys(Newer(S, w), key)
    decreases |Newer(S, t)|
  {
    if key(t) in Keys(Newer(S, t), key) {
      var u :| u in Newer(S, t) && key(u) == key(t);
      assert Newer(S, u) < Newer(S, t);
      ProperSubsetSize(Newer(S, u), Newer(S, t));
      w := NewestOfBucket(S, u, key);
    } else {
      w := t;
    }
  }

  lemma ProperSubsetSize<T>(A: set<T>, B: set<T>)
    requires A < B
    ensures |A| < |B|
  {
    assert B == A + (B - A) && B - A != {};
  }

  /** A generation added anywhere in time is at most one more generation to keep. */
  lemma KeptOfAdded(S: set<int>, x: int, n: int, key: int -> Key, t: int)
    requires KeptBy(S + {x}, t, n, key) && t != x
    ensures KeptBy(S, t, n, key)
  {
    KeysMonotone(Newer(S, t), Newer(S + {x}, t), key);
  }

  // ---- The whole policy --------------------------------------------------------------------

  lemma SurvivesIff(S: set<int>, pinned: set<int>, p: Policy, off: int, t: int)
    ensures t in Survivors(S, pinned, p, off) <==>
      t in S && (|| t in pinned || IsNewest(S, t)
                 || RuleKeeps(S, t, p, off, Latest) || RuleKeeps(S, t, p, off, Daily) || RuleKeeps(S, t, p, off, Weekly)
                 || RuleKeeps(S, t, p, off, Monthly) || RuleKeeps(S, t, p, off, Yearly))
  {
    hide RuleKeeps, IsNewest;
  }

  lemma RuleSurvives(S: set<int>, pinned: set<int>, p: Policy, off: int, rule: Reason)
    ensures KeptSet(S, Count(p, rule), Bucketing(off, rule)) <= Survivors(S, pinned, p, off)
  {
    forall t | t in KeptSet(S, Count(p, rule), Bucketing(off, rule)) ensures t in Survivors(S, pinned, p, off) {
      assert RuleKeeps(S, t, p, off, rule);
      assert 0 < Count(p, rule);
      SurvivesIff(S, pinned, p, off, t);
    }
  }

  lemma SurvivorsContainNewest(S: set<int>, pinned: set<int>, p: Policy, off: int, t: int)
    requires IsNewest(S, t)
    ensures t in Survivors(S, pinned, p, off)
  {
    SurvivesIff(S, pinned, p, off, t);
  }

  /** Re-planning any set between the survivors and the whole gives every survivor the very same labels. */
  lemma ReasonsOfBetween(S: set<int>, T: set<int>, pinned: set<int>, p: Policy, off: int, t: int)
    requires Survivors(S, pinned, p, off) <= T <= S && t in T
    ensures ReasonsOf(T, pinned, t, p, off) == ReasonsOf(S, pinned, t, p, off)
  {
    RuleOfBetween(S, T, pinned, p, off, t, Latest);
    RuleOfBetween(S, T, pinned, p, off, t, Daily);
    RuleOfBetween(S, T, pinned, p, off, t, Weekly);
    RuleOfBetween(S, T, pinned, p, off, t, Monthly);
    RuleOfBetween(S, T, pinned, p, off, t, Yearly);
    NewestOfBetween(S, T, pinned, p, off, t);
    hide RuleKeeps, IsNewest, Survivors;
  }

  lemma RuleOfBetween(S: set<int>, T: set<int>, pinned: set<int>, p: Policy, off: int, t: int, rule: Reason)
    requires Survivors(S, pinned, p, off) <= T <= S
    ensures RuleKeeps(T, t, p, off, rule) <==> RuleKeeps(S, t, p, off, rule)
  {
    RuleSurvives(S, pinned, p, off, rule);
    KeptOfBetween(S, T, Count(p, rule), Bucketing(off, rule), t);
  }

  lemma NewestOfBetween(S: set<int>, T: set<int>, pinned: set<int>, p: Policy, off: int, t: int)
    requires Survivors(S, pinned, p, off) <= T <= S && t in T
    ensures IsNewest(T, t) <==> IsNewest(S, t)
  {
    var m := NewestIn(S);
    SurvivorsContainNewest(S, pinned, p, off, m);
    OneNewest(S, t, m);
    assert t < m ==> m in Newer(T, t);
    assert m < t ==> t in Newer(S, m);
    assert Newer(T, t) <= Newer(S, t);
  }

  lemma NewestIn(S: set<int>) returns (m: int)
    requires S != {}
    ensures IsNewest(S, m)
    decreases |S|
  {
    assert (forall u :: u !in S) ==> S == {};
    var t :| t in S;
    if Newer(S, t) == {} {
      m := t;
    } else {
      ProperSubsetSize(Newer(S, t), S);
      m := NewestIn(Newer(S, t));
      assert Newer(S, m) == {};
    }
  }

  /** Applying retention again removes nothing more, from any set it could have left behind. */
  lemma SurvivorsOfBetween(S: set<int>, T: set<int>, pinned: set<int>, p: Policy, off: int)
    requires Survivors(S, pinned, p, off) <= T <= S
    ensures Survivors(T, pinned, p, off) == Survivors(S, pinned, p, off)
  {
    forall t | t in T ensures ReasonsOf(T, pinned, t, p, off) == ReasonsOf(S, pinned, t, p, off) {
      ReasonsOfBetween(S, T, pinned, p, off, t);
    }
    hide ReasonsOf;
  }

  lemma SurvivorsOfAdded(S: set<int>, x: int, pinned: set<int>, p: Policy, off: int)
    ensures Survivors(S + {x}, pinned, p, off) <= Survivors(S, pinned, p, off) + {x}
  {
    forall t | t in Survivors(S + {x}, pinned, p, off) && t != x ensures t in Survivors(S, pinned, p, off) {
      SurvivesIff(S + {x}, pinned, p, off, t);
      SurvivesIff(S, pinned, p, off, t);
      RuleOfAdded(S, x, p, off, t, Latest);
      RuleOfAdded(S, x, p, off, t, Daily);
      RuleOfAdded(S, x, p, off, t, Weekly);
      RuleOfAdded(S, x, p, off, t, Monthly);
      RuleOfAdded(S, x, p, off, t, Yearly);
      assert IsNewest(S + {x}, t) ==> IsNewest(S, t) by {
        assert Newer(S, t) <= Newer(S + {x}, t);
      }
      hide RuleKeeps, IsNewest, Survivors;
    }
  }

  lemma RuleOfAdded(S: set<int>, x: int, p: Policy, off: int, t: int, rule: Reason)
    requires t != x
    ensures RuleKeeps(S + {x}, t, p, off, rule) ==> RuleKeeps(S, t, p, off, rule)
  {
    if RuleKeeps(S + {x}, t, p, off, rule) {
      KeptOfAdded(S, x, Count(p, rule), Bucketing(off, rule), t);
    }
  }

  // ---- Histories ---------------------------------------------------------------------------

  /** What is left when every backup is followed by retention at once, as a run does. */
  function Incremental(history: seq<int>, pinned: set<int>, p: Policy, off: int): set<int> {
    if history == [] then {}
    else
      var n := |history| - 1;
      Survivors(Incremental(history[..n], pinned, p, off) + {history[n]}, pinned, p, off)
  }

  /** Pruning after every backup keeps exactly what one plan over the full history keeps, in whatever order the clock
      ran. */
  lemma {:induction false} IncrementalIsBatch(history: seq<int>, pinned: set<int>, p: Policy, off: int)
    ensures Incremental(history, pinned, p, off) == Survivors(Elements(history), pinned, p, off)
  {
    hide Survivors;
    if history == [] {
      SurvivorsOfNone(Elements(history), pinned, p, off);
    } else {
      var n := |history| - 1;
      IncrementalIsBatch(history[..n], pinned, p, off);
      StepIsBatch(Elements(history[..n]), history[n], pinned, p, off);
      ElementsOfLonger(history[..n], history[n]);
      assert history == history[..n] + [history[n]];
    }
  }

  lemma SurvivorsOfNone(S: set<int>, pinned: set<int>, p: Policy, off: int)
    requires S == {}
    ensures Survivors(S, pinned, p, off) == {}
  {
  }

  lemma ElementsOfLonger(history: seq<int>, x: int)
    ensures Elements(history + [x]) == Elements(history) + {x}
  {
  }

  lemma StepIsBatch(S: set<int>, x: int, pinned: set<int>, p: Policy, off: int)
    ensures Survivors(Survivors(S, pinned, p, off) + {x}, pinned, p, off) == Survivors(S + {x}, pinned, p, off)
  {
    SurvivorsOfAdded(S, x, pinned, p, off);
    SurvivorsOfBetween(S + {x}, Survivors(S, pinned, p, off) + {x}, pinned, p, off);
  }

  // ---- Larger policies and the size of what is left -----------------------------------------

  predicate AtMost(p: Policy, q: Policy) {
    p.last <= q.last && p.daily <= q.daily && p.weekly <= q.weekly && p.monthly <= q.monthly && p.yearly <= q.yearly
  }

  lemma LargerPolicyKeepsMore(S: set<int>, pinned: set<int>, p: Policy, q: Policy, off: int)
    requires AtMost(p, q)
    ensures Survivors(S, pinned, p, off) <= Survivors(S, pinned, q, off)
  {
    forall t | t in Survivors(S, pinned, p, off) ensures t in Survivors(S, pinned, q, off) {
      SurvivesIff(S, pinned, p, off, t);
      SurvivesIff(S, pinned, q, off, t);
    }
  }

  function Positive(n: int): nat {
    if n < 0 then 0 else n
  }

  function Total(p: Policy): nat {
    Positive(p.last) + Positive(p.daily) + Positive(p.weekly) + Positive(p.monthly) + Positive(p.yearly)
  }

  lemma KeptSetSize(S: set<int>, n: int, key: int -> Key)
    ensures |KeptSet(S, n, key)| <= Positive(n)
  {
    if n <= 0 {
      assert KeptSet(S, n, key) == {};
    } else if S != {} {
      var w := OldestIn(S);
      Leaders(S, w - 1, n, key);
      assert Newer(S, w - 1) == S;
      assert S * KeptSet(S, n, key) == KeptSet(S, n, key);
    }
  }

  function KeptByRule(S: set<int>, p: Policy, off: int, rule: Reason): set<int> {
    KeptSet(S, Count(p, rule), Bucketing(off, rule))
  }

  /** However long the history, the unpinned survivors number at most the sum of the positive counts, or one. */
  lemma SurvivorsBounded(S: set<int>, pinned: set<int>, p: Policy, off: int)
    ensures |Survivors(S, pinned, p, off) - pinned| <= if Total(p) == 0 then 1 else Total(p)
  {
    hide Survivors, KeptByAny, IsNewest;
    var U := Survivors(S, pinned, p, off) - pinned;
    if S == {} {
      SurvivorsOfNone(S, pinned, p, off);
    } else {
      var m := NewestIn(S);
      SurvivorsCovered(S, pinned, p, off, m);
      KeptByAnySize(S, p, off);
      if Total(p) > 0 {
        NewestIsKept(S, p, off, m);
        assert KeptByAny(S, p, off) + {m} == KeptByAny(S, p, off);
      }
      SubsetSize(U, KeptByAny(S, p, off) + {m});
    }
  }

  function KeptByAny(S: set<int>, p: Policy, off: int): set<int> {
    KeptByRule(S, p, off, Latest) + KeptByRule(S, p, off, Daily) + KeptByRule(S, p, off, Weekly)
    + KeptByRule(S, p, off, Monthly) + KeptByRule(S, p, off, Yearly)
  }

  lemma KeptByAnySize(S: set<int>, p: Policy, off: int)
    ensures |KeptByAny(S, p, off)| <= Total(p)
  {
    KeptSetSize(S, p.last, Bucketing(off, Latest));
    KeptSetSize(S, p.daily, Bucketing(off, Daily));
    KeptSetSize(S, p.weekly, Bucketing(off, Weekly));
    KeptSetSize(S, p.monthly, Bucketing(off, Monthly));
    KeptSetSize(S, p.yearly, Bucketing(off, Yearly));
    hide KeptSet;
  }

  lemma SurvivorsCovered(S: set<int>, pinned: set<int>, p: Policy, off: int, m: int)
    requires IsNewest(S, m)
    ensures Survivors(S, pinned, p, off) - pinned <= KeptByAny(S, p, off) + {m}
  {
    forall t | t in Survivors(S, pinned, p, off) - pinned ensures t in KeptByAny(S, p, off) + {m} {
      SurvivesIff(S, pinned, p, off, t);
      OneNewest(S, t, m);
      hide KeptBy, IsNewest, Bucketing;
    }
  }

  lemma NewestIsKept(S: set<int>, p: Policy, off: int, m: int)
    requires IsNewest(S, m) && Total(p) > 0
    ensures m in KeptByAny(S, p, off)
  {
    NewestKeptBy(S, m, p.last, Bucketing(off, Latest));
    NewestKeptBy(S, m, p.daily, Bucketing(off, Daily));
    NewestKeptBy(S, m, p.weekly, Bucketing(off, Weekly));
    NewestKeptBy(S, m, p.monthly, Bucketing(off, Monthly));
    NewestKeptBy(S, m, p.yearly, Bucketing(off, Yearly));
    hide KeptBy, IsNewest;
  }

  lemma NewestKeptBy(S: set<int>, m: int, n: int, key: int -> Key)
    requires IsNewest(S, m)
    ensures KeptBy(S, m, n, key) <==> 0 < n
  {
    assert Keys(Newer(S, m), key) == {};
  }

  lemma OneNewest(S: set<int>, t: int, m: int)
    requires IsNewest(S, m)
    ensures IsNewest(S, t) ==> t == m
  {
    assert t in S && t < m ==> m in Newer(S, t);
    assert t in S && m < t ==> t in Newer(S, m);
  }

  /** A pinned generation is never removed. */
  lemma PinnedSurvive(S: set<int>, pinned: set<int>, p: Policy, off: int)
    ensures S * pinned <= Survivors(S, pinned, p, off)
  {
    forall t | t in S * pinned ensures t in Survivors(S, pinned, p, off) {
      SurvivesIff(S, pinned, p, off, t);
    }
  }

  // ---- The labels in plain words ---------------------------------------------------------------

  function Groups<T(==)>(S: set<int>, group: int -> T): set<T> {
    set u | u in S :: group(u)
  }

  lemma InKeys(A: set<int>, key: int -> Key, t: int)
    ensures key(t) in Keys(A, key) <==> exists u :: u in A && key(u) == key(t)
  {
  }

  lemma InGroups<T>(A: set<int>, group: int -> T, t: int)
    ensures group(t) in Groups(A, group) <==> exists u :: u in A && group(u) == group(t)
  {
  }

  lemma GroupsOfAdded<T>(A: set<int>, u: int, group: int -> T)
    ensures Groups(A + {u}, group) == Groups(A, group) + {group(u)}
  {
    assert forall v :: v in A ==> group(v) in Groups(A, group);
    assert u in A + {u};
  }

  lemma {:induction false} AlikeSizes<T>(A: set<int>, key: int -> Key, group: int -> T)
    requires forall u, v :: key(u) == key(v) <==> group(u) == group(v)
    ensures |Keys(A, key)| == |Groups(A, group)|
    decreases |A|
  {
    if A == {} {
      assert Keys(A, key) == {} && Groups(A, group) == {};
    } else {
      assert (forall u :: u !in A) ==> A == {};
      var a :| a in A;
      var B := A - {a};
      assert A == B + {a};
      AlikeSizes(B, key, group);
      KeysOfAdded(B, a, key);
      GroupsOfAdded(B, a, group);
      InKeys(B, key, a);
      InGroups(B, group, a);
      hide Keys, Groups;
      if u :| u in B && key(u) == key(a) {
        assert group(u) == group(a);
        assert Keys(B, key) + {key(a)} == Keys(B, key) && Groups(B, group) + {group(a)} == Groups(B, group);
      } else {
        assert forall u :: u in B ==> key(u) != key(a) && group(u) != group(a);
        assert key(a) !in Keys(B, key) && group(a) !in Groups(B, group);
      }
    }
  }

  /** A rule whose buckets are these groups keeps t: no newer generation of t's group, and fewer than n groups among
      the newer ones. */
  lemma KeptByGroups<T>(S: set<int>, t: int, n: int, key: int -> Key, group: int -> T)
    requires forall u, v :: key(u) == key(v) <==> group(u) == group(v)
    ensures KeptBy(S, t, n, key) <==>
      && t in S && (forall u :: u in S && t < u ==> group(u) != group(t))
      && |Groups(Newer(S, t), group)| < n
  {
    AlikeSizes(Newer(S, t), key, group);
    InKeys(Newer(S, t), key, t);
    hide Keys, Groups;
  }

  lemma {:induction false} SoleGroups(A: set<int>)
    ensures |Groups(A, (t: int) => t)| == |A|
  {
    assert Groups(A, (t: int) => t) == A by {
      assert forall t :: t in A ==> ((u: int) => u)(t) == t;
    }
  }

  function LocalDay(off: int): int -> int {
    (t: int) => DayOf(t + off)
  }

  function LocalWeek(off: int): int -> int {
    (t: int) => DayOf(t + off) / 7
  }

  function LocalMonth(off: int): int -> (int, int) {
    (t: int) => (CivilOf(DayOf(t + off)).year, CivilOf(DayOf(t + off)).month)
  }

  function LocalYear(off: int): int -> int {
    (t: int) => CivilOf(DayOf(t + off)).year
  }

  /** The newest generation of its group, with fewer than n different groups among the newer ones. */
  predicate Leads<T(==)>(S: set<int>, t: int, n: int, group: int -> T) {
    t in S && (forall u :: u in S && t < u ==> group(u) != group(t)) && |Groups(Newer(S, t), group)| < n
  }

  lemma DaysAndWeeksLead(S: set<int>, t: int, p: Policy, off: int)
    ensures RuleKeeps(S, t, p, off, Daily) <==> Leads(S, t, p.daily, LocalDay(off))
    ensures RuleKeeps(S, t, p, off, Weekly) <==> Leads(S, t, p.weekly, LocalWeek(off))
  {
    forall u, v {
      BucketsAreDaysAndWeeks(u, v, off);
    }
    hide BucketKey, DayOf, KeptBy;
    KeptByGroups(S, t, p.daily, Bucketing(off, Daily), LocalDay(off));
    KeptByGroups(S, t, p.weekly, Bucketing(off, Weekly), LocalWeek(off));
  }

  lemma KeysOfDates(t: int, u: int, off: int)
    ensures BucketKey(t, off, Monthly) == BucketKey(u, off, Monthly) <==> LocalMonth(off)(t) == LocalMonth(off)(u)
    ensures BucketKey(t, off, Yearly) == BucketKey(u, off, Yearly) <==> LocalYear(off)(t) == LocalYear(off)(u)
  {
    BucketsAreMonthsAndYears(t, u, off);
    SameMonthIff(DayOf(t + off), DayOf(u + off));
    SameYearIff(DayOf(t + off), DayOf(u + off));
    hide BucketKey, CivilOf, DayOf, YearStart, InMonth;
  }

  lemma MonthsAndYearsLead(S: set<int>, t: int, p: Policy, off: int)
    ensures RuleKeeps(S, t, p, off, Monthly) <==> Leads(S, t, p.monthly, LocalMonth(off))
    ensures RuleKeeps(S, t, p, off, Yearly) <==> Leads(S, t, p.yearly, LocalYear(off))
  {
    forall u, v {
      KeysOfDates(u, v, off);
    }
    hide BucketKey, LocalMonth, LocalYear, KeptBy;
    KeptByGroups(S, t, p.monthly, Bucketing(off, Monthly), LocalMonth(off));
    KeptByGroups(S, t, p.yearly, Bucketing(off, Yearly), LocalYear(off));
  }

  lemma LatestLeads(S: set<int>, t: int, p: Policy, off: int)
    ensures RuleKeeps(S, t, p, off, Latest) <==> t in S && |Newer(S, t)| < p.last
  {
    KeptByGroups(S, t, p.last, Bucketing(off, Latest), (u: int) => u);
    SoleGroups(Newer(S, t));
    hide KeptBy;
  }

  function Place(r: Reason): int {
    match r
    case Pinned => 0
    case Latest => 1
    case Daily => 2
    case Weekly => 3
    case Monthly => 4
    case Yearly => 5
    case Newest => 6
  }

  function Three(a: bool, b: bool, c: bool, x: Reason, y: Reason, z: Reason): seq<Reason> {
    (if a then [x] else []) + (if b then [y] else []) + (if c then [z] else [])
  }

  predicate InPlaces(tags: seq<Reason>) {
    forall i, j :: 0 <= i < j < |tags| ==> Place(tags[i]) < Place(tags[j])
  }

  lemma ThreeTags(a: bool, b: bool, c: bool, x: Reason, y: Reason, z: Reason)
    requires Place(x) < Place(y) < Place(z)
    ensures var tags := Three(a, b, c, x, y, z);
      && (forall r :: r in tags <==> (r == x && a) || (r == y && b) || (r == z && c))
      && (tags == [] <==> !a && !b && !c) && InPlaces(tags)
  {
    hide Place;
  }

  lemma JoinTags(early: seq<Reason>, late: seq<Reason>)
    requires InPlaces(early) && InPlaces(late) && forall r, q :: r in early && q in late ==> Place(r) < Place(q)
    ensures InPlaces(early + late) && forall r :: r in early + late <==> r in early || r in late
    ensures early + late == [] <==> early == [] && late == []
  {
    hide Place;
  }

  lemma SplitTags(pinned: bool, latest: bool, daily: bool, weekly: bool, monthly: bool, yearly: bool)
    ensures Tags(pinned, latest, daily, weekly, monthly, yearly)
         == Three(pinned, latest, daily, Pinned, Latest, Daily)
            + Three(weekly, monthly, yearly, Weekly, Monthly, Yearly)
  {
  }

  lemma TagsAre(pinned: bool, latest: bool, daily: bool, weekly: bool, monthly: bool, yearly: bool)
    ensures var tags := Tags(pinned, latest, daily, weekly, monthly, yearly);
      && (Pinned in tags <==> pinned) && (Latest in tags <==> latest) && (Daily in tags <==> daily)
      && (Weekly in tags <==> weekly) && (Monthly in tags <==> monthly) && (Yearly in tags <==> yearly)
      && Newest !in tags && (tags == [] <==> !pinned && !latest && !daily && !weekly && !monthly && !yearly)
      && InPlaces(tags)
  {
    hide Tags, Three, InPlaces;
    ThreeTags(pinned, latest, daily, Pinned, Latest, Daily);
    ThreeTags(weekly, monthly, yearly, Weekly, Monthly, Yearly);
    SplitTags(pinned, latest, daily, weekly, monthly, yearly);
    JoinTags(Three(pinned, latest, daily, Pinned, Latest, Daily),
      Three(weekly, monthly, yearly, Weekly, Monthly, Yearly));
  }

  /** Exactly which labels a generation gets, in which order: by the marker, the number of newer generations, and
      the local days, Monday weeks, months and years; "newest" stands for the newest one that no other label keeps. */
  lemma LabelsAre(S: set<int>, pinned: set<int>, t: int, p: Policy, off: int)
    ensures var labels := ReasonsOf(S, pinned, t, p, off);
      && (Pinned in labels <==> t in pinned)
      && (Latest in labels <==> t in S && |Newer(S, t)| < p.last)
      && (Daily in labels <==> Leads(S, t, p.daily, LocalDay(off)))
      && (Weekly in labels <==> Leads(S, t, p.weekly, LocalWeek(off)))
      && (Monthly in labels <==> Leads(S, t, p.monthly, LocalMonth(off)))
      && (Yearly in labels <==> Leads(S, t, p.yearly, LocalYear(off)))
      && (Newest in labels <==> t in S && (forall u :: u in S ==> u <= t) && labels == [Newest])
      && (labels == [] ==> t !in S || exists u :: u in S && t < u)
      && InPlaces(labels)
  {
    hide RuleKeeps, Leads, Tags, Place, Groups;
    LatestLeads(S, t, p, off);
    DaysAndWeeksLead(S, t, p, off);
    MonthsAndYearsLead(S, t, p, off);
    TagsAre(t in pinned, RuleKeeps(S, t, p, off, Latest), RuleKeeps(S, t, p, off, Daily),
            RuleKeeps(S, t, p, off, Weekly), RuleKeeps(S, t, p, off, Monthly), RuleKeeps(S, t, p, off, Yearly));
    NewestIff(S, t);
  }

  lemma NewestIff(S: set<int>, t: int)
    ensures IsNewest(S, t) <==> t in S && forall u :: u in S ==> u <= t
  {
    assert forall u :: u in S && t < u ==> u in Newer(S, t);
  }
}

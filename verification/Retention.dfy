/**
 Which generations a retention policy keeps. A generation is named by the second it was taken,
 so a device's generations are a set of instants; plan_retention walks them newest first.
 */
module Retention {
  import opened Calendar

  datatype Policy = Policy(last: int, daily: int, weekly: int, monthly: int, yearly: int)
  datatype Snapshot = Snapshot(takenAt: int, pinned: bool)
  datatype Reason = Pinned | Latest | Daily | Weekly | Monthly | Yearly | Newest

  type Key = seq<int>

  /** The count a policy gives a rule. */
  function Count(p: Policy, rule: Reason): int {
    match rule
    case Latest => p.last
    case Daily => p.daily
    case Weekly => p.weekly
    case Monthly => p.monthly
    case Yearly => p.yearly
    case _ => 0
  }

  /** The bucket of an instant in the zone `off` seconds east of UTC. */
  function BucketKey(t: int, off: int, rule: Reason): Key {
    var day := DayOf(t + off);
    var c := CivilOf(day);
    match rule
    case Daily => [c.year, c.month, c.day]
    case Weekly => var (y, w) := IsoWeekOf(day); [y, w]
    case Monthly => [c.year, c.month]
    case Yearly => [c.year]
    case _ => [t]
  }

  /** The bucketing of one rule; "keep the last n" is the rule whose buckets hold one instant each. */
  function Bucketing(off: int, rule: Reason): int -> Key {
    (t: int) => BucketKey(t, off, rule)
  }

  // ---- What a rule keeps, said without the walk --------------------------------------------

  function Newer(S: set<int>, t: int): set<int> {
    set u | u in S && t < u
  }

  function Keys(S: set<int>, key: int -> Key): set<Key> {
    set u | u in S :: key(u)
  }

  /** t is the newest of its bucket, and fewer than n distinct buckets lie among the newer ones. */
  predicate KeptBy(S: set<int>, t: int, n: int, key: int -> Key) {
    t in S && key(t) !in Keys(Newer(S, t), key) && |Keys(Newer(S, t), key)| < n
  }

  function KeptSet(S: set<int>, n: int, key: int -> Key): set<int> {
    set t | t in S && KeptBy(S, t, n, key)
  }

  predicate RuleKeeps(S: set<int>, t: int, p: Policy, off: int, rule: Reason) {
    KeptBy(S, t, Count(p, rule), Bucketing(off, rule))
  }

  predicate IsNewest(S: set<int>, t: int) {
    t in S && Newer(S, t) == {}
  }

  /** The labels in the order the source appends them. */
  function Tags(pinned: bool, latest: bool, daily: bool, weekly: bool, monthly: bool, yearly: bool): seq<Reason> {
    (if pinned then [Pinned] else [])
    + (if latest then [Latest] else [])
    + (if daily then [Daily] else [])
    + (if weekly then [Weekly] else [])
    + (if monthly then [Monthly] else [])
    + (if yearly then [Yearly] else [])
  }

  function RuleLabels(S: set<int>, pinned: set<int>, t: int, p: Policy, off: int): seq<Reason> {
    Tags(t in pinned, RuleKeeps(S, t, p, off, Latest), RuleKeeps(S, t, p, off, Daily),
         RuleKeeps(S, t, p, off, Weekly), RuleKeeps(S, t, p, off, Monthly), RuleKeeps(S, t, p, off, Yearly))
  }

  /** The exact label list of one generation; an empty list means it is removed. */
  function ReasonsOf(S: set<int>, pinned: set<int>, t: int, p: Policy, off: int): seq<Reason> {
    var rs := RuleLabels(S, pinned, t, p, off);
    if rs == [] && IsNewest(S, t) then [Newest] else rs
  }

  function Survivors(S: set<int>, pinned: set<int>, p: Policy, off: int): set<int> {
    set t | t in S && ReasonsOf(S, pinned, t, p, off) != []
  }

  // ---- The walk itself ---------------------------------------------------------------------

  predicate NewestFirst(snaps: seq<Snapshot>) {
    forall i, j :: 0 <= i < j < |snaps| ==> snaps[j].takenAt < snaps[i].takenAt
  }

  function Times(snaps: seq<Snapshot>): set<int> {
    set s | s in snaps :: s.takenAt
  }

  function PinnedTimes(snaps: seq<Snapshot>): set<int> {
    set s | s in snaps && s.pinned :: s.takenAt
  }

  lemma NewerIsPrefix(snaps: seq<Snapshot>, i: nat)
    requires NewestFirst(snaps) && i < |snaps|
    ensures Newer(Times(snaps), snaps[i].takenAt) == Times(snaps[..i])
  {
    forall u ensures u in Newer(Times(snaps), snaps[i].takenAt) <==> u in Times(snaps[..i]) {
      if u in Newer(Times(snaps), snaps[i].takenAt) {
        var s :| s in snaps && s.takenAt == u;
        var j :| 0 <= j < |snaps| && snaps[j] == s;
        assert j < i;
        assert snaps[..i][j] == s;
      }
      if u in Times(snaps[..i]) {
        var s :| s in snaps[..i] && s.takenAt == u;
        var j :| 0 <= j < i && snaps[..i][j] == s;
        assert snaps[j] == s;
      }
    }
  }

  /** The buckets the walk has met before it reaches position i. */
  function SeenKeys(snaps: seq<Snapshot>, i: nat, key: int -> Key): set<Key>
    requires i <= |snaps|
  {
    if i == 0 then {} else SeenKeys(snaps, i - 1, key) + {key(snaps[i - 1].takenAt)}
  }

  predicate WalkKeeps(snaps: seq<Snapshot>, i: nat, count: int, key: int -> Key)
    requires i < |snaps|
  {
    key(snaps[i].takenAt) !in SeenKeys(snaps, i, key) && |SeenKeys(snaps, i, key)| < count
  }

  lemma {:induction false} SeenKeysAreNewer(snaps: seq<Snapshot>, i: nat, key: int -> Key)
    requires i <= |snaps|
    ensures SeenKeys(snaps, i, key) == Keys(Times(snaps[..i]), key)
  {
    if i == 0 {
    } else {
      SeenKeysAreNewer(snaps, i - 1, key);
      assert snaps[..i] == snaps[..i - 1] + [snaps[i - 1]];
      assert Times(snaps[..i]) == Times(snaps[..i - 1]) + {snaps[i - 1].takenAt};
      assert snaps[i - 1].takenAt in Times(snaps[..i]);
    }
  }

  /** Deciding on the way down the list agrees with looking at everything newer. */
  lemma WalkIsKeptBy(snaps: seq<Snapshot>, i: nat, count: int, key: int -> Key)
    requires NewestFirst(snaps) && i < |snaps|
    ensures WalkKeeps(snaps, i, count, key) <==> KeptBy(Times(snaps), snaps[i].takenAt, count, key)
  {
    NewerIsPrefix(snaps, i);
    SeenKeysAreNewer(snaps, i, key);
    assert snaps[i].takenAt in Times(snaps);
  }

  lemma {:induction false} SeenKeysGrow(snaps: seq<Snapshot>, i: nat, j: nat, key: int -> Key)
    requires i <= j <= |snaps|
    ensures |SeenKeys(snaps, i, key)| <= |SeenKeys(snaps, j, key)|
    decreases j
  {
    if i < j {
      SeenKeysGrow(snaps, i, j - 1, key);
      SubsetSize(SeenKeys(snaps, j - 1, key), SeenKeys(snaps, j, key));
    }
  }

  lemma {:induction false} SubsetSize<T>(A: set<T>, B: set<T>)
    requires A <= B
    ensures |A| <= |B|
  {
    assert B == A + (B - A);
  }

  function WalkLabel(snaps: seq<Snapshot>, i: nat, count: int, key: int -> Key, rule: Reason): seq<Reason>
    requires i < |snaps|
  {
    if WalkKeeps(snaps, i, count, key) then [rule] else []
  }

  /** One pass of the period loop: appends `rule` to exactly the generations the rule keeps. */
  method MarkPeriod(snaps: seq<Snapshot>, reasons: seq<seq<Reason>>, rule: Reason, count: int, key: int -> Key)
    returns (marked: seq<seq<Reason>>)
    requires |reasons| == |snaps|
    ensures |marked| == |snaps|
    ensures forall i :: 0 <= i < |snaps| ==> marked[i] == reasons[i] + WalkLabel(snaps, i, count, key, rule)
  {
    marked := reasons;
    if count <= 0 {
      return;
    }
    var seen: set<Key>, kept, i := {}, 0, 0;
    while i < |snaps| && kept < count
      invariant 0 <= i <= |snaps| && |marked| == |snaps|
      invariant seen == SeenKeys(snaps, i, key) && kept == |seen| <= count
      invariant forall j :: 0 <= j < i ==> marked[j] == reasons[j] + WalkLabel(snaps, j, count, key, rule)
      invariant forall j :: i <= j < |snaps| ==> marked[j] == reasons[j]
    {
      var k := key(snaps[i].takenAt);
      if k !in seen {
        seen := seen + {k};
        marked := marked[i := marked[i] + [rule]];
        kept := kept + 1;
      }
      i := i + 1;
    }
    forall j | i <= j < |snaps| ensures WalkLabel(snaps, j, count, key, rule) == [] {
      SeenKeysGrow(snaps, i, j, key);
    }
  }

  /** "Keep the last n" looks only at the position. */
  lemma {:induction false} LatestIsRank(snaps: seq<Snapshot>, i: nat, p: Policy, off: int)
    requires NewestFirst(snaps) && i < |snaps|
    ensures RuleKeeps(Times(snaps), snaps[i].takenAt, p, off, Latest) <==> i < p.last
  {
    WalkIsKeptBy(snaps, i, p.last, Bucketing(off, Latest));
    InstantKeys(snaps, i, Bucketing(off, Latest));
  }

  lemma {:induction false} InstantKeys(snaps: seq<Snapshot>, i: nat, key: int -> Key)
    requires NewestFirst(snaps) && i <= |snaps| && forall t :: key(t) == [t]
    ensures |SeenKeys(snaps, i, key)| == i
    ensures forall k :: k in SeenKeys(snaps, i, key) ==> k != [] && snaps[i - 1].takenAt <= k[0]
  {
    if i == 0 {
    } else {
      InstantKeys(snaps, i - 1, key);
      var k := key(snaps[i - 1].takenAt);
      assert k == [snaps[i - 1].takenAt];
      assert i > 1 ==> snaps[i - 1].takenAt < snaps[i - 2].takenAt;
      assert k !in SeenKeys(snaps, i - 1, key);
      hide NewestFirst;
    }
  }

  /** The labels of every generation; the walk agrees with ReasonsOf label for label. */
  method PlanRetention(snaps: seq<Snapshot>, p: Policy, off: int) returns (plan: seq<(Snapshot, seq<Reason>)>)
    requires NewestFirst(snaps)
    ensures |plan| == |snaps|
    ensures forall i :: 0 <= i < |snaps| ==>
      plan[i] == (snaps[i], ReasonsOf(Times(snaps), PinnedTimes(snaps), snaps[i].takenAt, p, off))
  {
    hide ReasonsOf, Times, PinnedTimes, WalkKeeps, Bucketing, NewestFirst, WalkLabel, WalkLabels, Tags;
    if snaps == [] {
      return [];
    }
    var r0 := MarkPinned(snaps);
    var r1 := MarkLatest(snaps, r0, p.last);
    var r2 := MarkPeriod(snaps, r1, Daily, p.daily, Bucketing(off, Daily));
    var r3 := MarkPeriod(snaps, r2, Weekly, p.weekly, Bucketing(off, Weekly));
    var r4 := MarkPeriod(snaps, r3, Monthly, p.monthly, Bucketing(off, Monthly));
    var reasons := MarkPeriod(snaps, r4, Yearly, p.yearly, Bucketing(off, Yearly));
    forall j | 0 <= j < |snaps| ensures reasons[j] == WalkLabels(snaps, j, p, off) {
      PassesAreLabels(snaps, j, p, off, [r0[j], r1[j], r2[j], r3[j], r4[j], reasons[j]]);
    }
    if reasons[0] == [] {
      reasons := reasons[0 := reasons[0] + [Newest]];
    }
    plan := seq(|snaps|, i requires 0 <= i < |snaps| && |reasons| == |snaps| => (snaps[i], reasons[i]));
    forall j | 0 <= j < |snaps|
      ensures reasons[j] == ReasonsOf(Times(snaps), PinnedTimes(snaps), snaps[j].takenAt, p, off)
    {
      WalkIsReasons(snaps, j, p, off);
    }
  }

  /** The labels the passes leave at position i. */
  function WalkLabels(snaps: seq<Snapshot>, i: nat, p: Policy, off: int): seq<Reason>
    requires i < |snaps|
  {
    Tags(snaps[i].pinned, i < p.last,
         WalkKeeps(snaps, i, p.daily, Bucketing(off, Daily)), WalkKeeps(snaps, i, p.weekly, Bucketing(off, Weekly)),
         WalkKeeps(snaps, i, p.monthly, Bucketing(off, Monthly)), WalkKeeps(snaps, i, p.yearly, Bucketing(off, Yearly)))
  }

  /** What each pass has appended at position i, one after another. */
  lemma PassesAreLabels(snaps: seq<Snapshot>, i: nat, p: Policy, off: int, passes: seq<seq<Reason>>)
    requires i < |snaps| && |passes| == 6
    requires passes[0] == if snaps[i].pinned then [Pinned] else []
    requires passes[1] == passes[0] + if i < p.last then [Latest] else []
    requires passes[2] == passes[1] + WalkLabel(snaps, i, p.daily, Bucketing(off, Daily), Daily)
    requires passes[3] == passes[2] + WalkLabel(snaps, i, p.weekly, Bucketing(off, Weekly), Weekly)
    requires passes[4] == passes[3] + WalkLabel(snaps, i, p.monthly, Bucketing(off, Monthly), Monthly)
    requires passes[5] == passes[4] + WalkLabel(snaps, i, p.yearly, Bucketing(off, Yearly), Yearly)
    ensures passes[5] == WalkLabels(snaps, i, p, off)
  {
    hide WalkKeeps, Bucketing;
  }

  lemma WalkIsReasons(snaps: seq<Snapshot>, i: nat, p: Policy, off: int)
    requires NewestFirst(snaps) && i < |snaps|
    ensures ReasonsOf(Times(snaps), PinnedTimes(snaps), snaps[i].takenAt, p, off)
         == if WalkLabels(snaps, i, p, off) == [] && i == 0 then [Newest] else WalkLabels(snaps, i, p, off)
  {
    RuleLabelsAreWalk(snaps, i, p, off);
    NewestIsFirst(snaps, i);
  }

  lemma RuleLabelsAreWalk(snaps: seq<Snapshot>, i: nat, p: Policy, off: int)
    requires NewestFirst(snaps) && i < |snaps|
    ensures RuleLabels(Times(snaps), PinnedTimes(snaps), snaps[i].takenAt, p, off) == WalkLabels(snaps, i, p, off)
  {
    hide RuleKeeps, WalkKeeps, Times, PinnedTimes;
    LatestIsRank(snaps, i, p, off);
    RuleIsWalk(snaps, i, p, off, Daily);
    RuleIsWalk(snaps, i, p, off, Weekly);
    RuleIsWalk(snaps, i, p, off, Monthly);
    RuleIsWalk(snaps, i, p, off, Yearly);
    PinnedByTime(snaps, i);
  }

  lemma RuleIsWalk(snaps: seq<Snapshot>, i: nat, p: Policy, off: int, rule: Reason)
    requires NewestFirst(snaps) && i < |snaps|
    ensures RuleKeeps(Times(snaps), snaps[i].takenAt, p, off, rule)
       <==> WalkKeeps(snaps, i, Count(p, rule), Bucketing(off, rule))
  {
    WalkIsKeptBy(snaps, i, Count(p, rule), Bucketing(off, rule));
  }

  method MarkPinned(snaps: seq<Snapshot>) returns (reasons: seq<seq<Reason>>)
    ensures |reasons| == |snaps|
    ensures forall i :: 0 <= i < |snaps| ==> reasons[i] == if snaps[i].pinned then [Pinned] else []
  {
    reasons := seq(|snaps|, i => []);
    var i := 0;
    while i < |snaps|
      invariant 0 <= i <= |snaps| && |reasons| == |snaps|
      invariant forall j :: 0 <= j < |snaps| ==> reasons[j] == if j < i && snaps[j].pinned then [Pinned] else []
    {
      if snaps[i].pinned {
        reasons := reasons[i := reasons[i] + [Pinned]];
      }
      i := i + 1;
    }
  }

  method MarkLatest(snaps: seq<Snapshot>, reasons: seq<seq<Reason>>, count: int)
    returns (marked: seq<seq<Reason>>)
    requires |reasons| == |snaps|
    ensures |marked| == |snaps|
    ensures forall i :: 0 <= i < |snaps| ==> marked[i] == reasons[i] + if i < count then [Latest] else []
  {
    marked := reasons;
    if count > 0 {
      var i := 0;
      while i < |snaps| && i < count
        invariant 0 <= i <= |snaps| && i <= count && |marked| == |snaps|
        invariant forall j :: 0 <= j < |snaps| ==> marked[j] == reasons[j] + if j < i then [Latest] else []
      {
        marked := marked[i := marked[i] + [Latest]];
        i := i + 1;
      }
    }
  }

  lemma PinnedByTime(snaps: seq<Snapshot>, i: nat)
    requires NewestFirst(snaps) && i < |snaps|
    ensures snaps[i].takenAt in PinnedTimes(snaps) <==> snaps[i].pinned
  {
    if snaps[i].takenAt in PinnedTimes(snaps) {
      var s :| s in snaps && s.pinned && s.takenAt == snaps[i].takenAt;
    }
  }

  lemma NewestIsFirst(snaps: seq<Snapshot>, i: nat)
    requires NewestFirst(snaps) && i < |snaps|
    ensures IsNewest(Times(snaps), snaps[i].takenAt) <==> i == 0
  {
    NewerIsPrefix(snaps, i);
    if i > 0 {
      assert snaps[..i][0].takenAt in Times(snaps[..i]);
    }
  }
}

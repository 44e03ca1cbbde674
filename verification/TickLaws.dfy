/** Whole runs of ticks for one device: the tick feeds its own stamps and attempts back into the next decision. */
module TickLaws {
  import opened Wrappers
  import opened Calendar
  import opened Schedule
  import opened ScheduleLaws
  import opened Ticker

  // ---- Scheduled starts --------------------------------------------------------------------

  /** A run row was inserted: by a tick that decided so at `now`, or by anyone else. Either way `startedAt` is
      stamped. */
  datatype Attempt =
    | Scheduled(view: DeviceView, now: int, reachable: bool, charging: Option<bool>, lead: int, startedAt: int)
    | Manual(startedAt: int)

  /** MAX(started_at) after one more attempt. */
  function Later(last: Option<int>, startedAt: int): Option<int> {
    if last.Some? && startedAt < last.value then last else Some(startedAt)
  }

  function LastAttempt(initial: Option<int>, run: seq<Attempt>): Option<int> {
    if run == [] then initial
    else Later(LastAttempt(initial, run[..|run| - 1]), run[|run| - 1].startedAt)
  }

  /** The tick read the last attempt from the table, decided to start, and the row was stamped no earlier than
      `now`. */
  predicate Follows(last: Option<int>, window: string, off: int, a: Attempt) {
    a.Scheduled? ==>
      && a.view.lastAttemptAt == last && a.view.windowStart == Some(window) && a.now <= a.startedAt
      && var r := Decide(a.view, a.now, off, a.reachable, a.charging, a.lead);
         r.Ok? && r.value.startBackup
  }

  predicate AllManual(run: seq<Attempt>) {
    forall i :: 0 <= i < |run| ==> run[i].Manual?
  }

  /** A tick reads the last attempt and inserts its row later; manual attempts may land in between. */
  predicate AttemptRun(initial: Option<int>, window: string, off: int, run: seq<Attempt>) {
    run == [] ||
    var n := |run| - 1;
    AttemptRun(initial, window, off, run[..n])
    && exists m :: 0 <= m <= n && AllManual(run[m..n]) && Follows(LastAttempt(initial, run[..m]), window, off, run[n])
  }

  lemma {:induction false} PrefixOfRun(initial: Option<int>, window: string, off: int, run: seq<Attempt>, m: nat)
    requires AttemptRun(initial, window, off, run) && m <= |run|
    ensures AttemptRun(initial, window, off, run[..m])
  {
    hide Follows, AllManual;
    if m < |run| {
      assert run[..|run| - 1][..m] == run[..m];
      PrefixOfRun(initial, window, off, run[..|run| - 1], m);
    } else {
      assert run[..m] == run;
    }
  }

  /** The local times of the scheduled starts that fall in the window occurrence beginning at w. */
  function StartsIn(run: seq<Attempt>, start: int, off: int, w: int): seq<int> {
    if run == [] then []
    else
      var n := |run| - 1;
      StartsIn(run[..n], start, off, w)
      + if run[n].Scheduled? && LastStart(run[n].now + off, start) == w then [run[n].now + off] else []
  }

  lemma OffsetsAfter(elapsed: int)
    requires 0 <= elapsed
    ensures FirstOffsetAfter(elapsed, RETRY_OFFSETS) ==
      (if elapsed < 30 * MINUTE then Some(30 * MINUTE) else if elapsed < 60 * MINUTE then Some(60 * MINUTE)
       else if elapsed < 120 * MINUTE then Some(120 * MINUTE) else None)
  {
    assert RETRY_OFFSETS[1..] == [30 * MINUTE, 60 * MINUTE, 120 * MINUTE];
    assert [30 * MINUTE, 60 * MINUTE, 120 * MINUTE][1..] == [60 * MINUTE, 120 * MINUTE];
    assert [60 * MINUTE, 120 * MINUTE][1..] == [120 * MINUTE];
    assert FirstOffsetAfter(elapsed, [120 * MINUTE]) == if elapsed < 120 * MINUTE then Some(120 * MINUTE) else None;
    assert FirstOffsetAfter(elapsed, [60 * MINUTE, 120 * MINUTE])
        == if elapsed < 60 * MINUTE then Some(60 * MINUTE) else FirstOffsetAfter(elapsed, [120 * MINUTE]);
    assert FirstOffsetAfter(elapsed, RETRY_OFFSETS)
      == FirstOffsetAfter(elapsed, [30 * MINUTE, 60 * MINUTE, 120 * MINUTE]);
  }

  /** A scheduled start falls within the length of the window that began last, on a retry mark, of a device that is
      due, reachable and, where that is asked for, charging. */
  lemma StartMeansSlot(last: Option<int>, window: string, off: int, a: Attempt)
    requires Follows(last, window, off, a) && a.Scheduled?
    ensures ParseHhmm(window).Ok? && a.view.windowEnd.Some? && ParseHhmm(a.view.windowEnd.value).Ok?
    ensures var start, end := ParseHhmm(window).value, ParseHhmm(a.view.windowEnd.value).value;
      var w := LastStart(a.now + off, start);
      && w <= a.now + off < w + OpenFor(start, end) && a.now + off <= a.startedAt + off
      && AttemptAllowed(a.now + off, w, Shift(last, off))
      && a.reachable && LongAgo(a.view.lastSuccessAt, a.now, 3600 * a.view.intervalHours)
      && (a.view.onlyWhenCharging ==> a.charging == Some(true))
  {
    hide ParseHhmm, Inside, NoticeDue, LastStart, AttemptAllowed;
    assert SlotOpen(a.view, a.now, off, true);
    ParsedInDay(window);
    ParsedInDay(a.view.windowEnd.value);
    WindowArithmetic(a.now + off, ParseHhmm(window).value, ParseHhmm(a.view.windowEnd.value).value);
    LengthIs(ParseHhmm(window).value, ParseHhmm(a.view.windowEnd.value).value);
    DueIs(a.view, a.now);
  }

  /** At most four starts in the occurrence w, the k-th not before the k-th offset, and the last attempt no earlier
      than the last of them. */
  predicate StartsInOrder(starts: seq<int>, lastLocal: Option<int>, w: int) {
    && |starts| <= 4
    && (forall k :: 0 <= k < |starts| ==> w + RETRY_OFFSETS[k] <= starts[k])
    && (|starts| > 0 ==> lastLocal.Some? && w + RETRY_OFFSETS[|starts| - 1] <= lastLocal.value)
  }

  lemma StartsAppend(starts: seq<int>, lastLocal: Option<int>, w: int, nowLocal: int, startedLocal: int)
    requires StartsInOrder(starts, lastLocal, w) && AttemptAllowed(nowLocal, w, lastLocal)
      && w <= nowLocal <= startedLocal
    ensures StartsInOrder(starts + [nowLocal], Later(lastLocal, startedLocal), w)
  {
    assert forall k :: 0 <= k < 4 ==> 0 <= RETRY_OFFSETS[k];
    if lastLocal.Some? && w <= lastLocal.value {
      OffsetsAfter(lastLocal.value - w);
    }
  }

  predicate NotBefore(a: Option<int>, b: Option<int>) {
    a.Some? ==> b.Some? && a.value <= b.value
  }

  lemma StartsKept(starts: seq<int>, a: Option<int>, b: Option<int>, w: int)
    requires StartsInOrder(starts, a, w) && NotBefore(a, b)
    ensures StartsInOrder(starts, b, w)
  {
  }

  /** Manual attempts add no scheduled start and only move the last attempt forward. */
  lemma {:induction false} ManualKeepsStarts(initial: Option<int>, run: seq<Attempt>, m: nat, start: int, off: int,
        w: int)
    requires m <= |run| && AllManual(run[m..])
    ensures StartsIn(run, start, off, w) == StartsIn(run[..m], start, off, w)
    ensures NotBefore(LastAttempt(initial, run[..m]), LastAttempt(initial, run))
  {
    if m < |run| {
      var n := |run| - 1;
      assert run[..n][m..] == run[m..][..n - m] && run[..n][..m] == run[..m] && run[n] == run[m..][n - m];
      ManualKeepsStarts(initial, run[..n], m, start, off, w);
    } else {
      assert run[..m] == run;
    }
    hide LastStart;
  }

  lemma LaterNotBefore(seen: Option<int>, last: Option<int>, startedAt: int, off: int)
    requires NotBefore(seen, last)
    ensures NotBefore(Shift(seen, off), Shift(Later(last, startedAt), off))
    ensures NotBefore(Later(Shift(seen, off), startedAt + off), Shift(Later(last, startedAt), off))
  {
  }

  /** What a scheduled attempt adds to the starts at its reading. */
  lemma ScheduledKeepsOrder(seen: Option<int>, last: Option<int>, window: string, off: int, a: Attempt,
        starts: seq<int>, w: int)
    requires ParseHhmm(window).Ok? && a.Scheduled? && Follows(seen, window, off, a) && NotBefore(seen, last)
    requires StartsInOrder(starts, Shift(seen, off), w)
    ensures LastStart(a.now + off, ParseHhmm(window).value) == w ==>
      StartsInOrder(starts + [a.now + off], Shift(Later(last, a.startedAt), off), w)
    ensures StartsInOrder(starts, Shift(Later(last, a.startedAt), off), w)
  {
    hide ParseHhmm, LastStart, Follows, AttemptAllowed, StartsInOrder, NotBefore, Shift, Later;
    StartMeansSlot(seen, window, off, a);
    LaterNotBefore(seen, last, a.startedAt, off);
    if LastStart(a.now + off, ParseHhmm(window).value) == w {
      StartsAppend(starts, Shift(seen, off), w, a.now + off, a.startedAt + off);
      StartsKept(starts + [a.now + off], Later(Shift(seen, off), a.startedAt + off),
        Shift(Later(last, a.startedAt), off), w);
    }
    StartsKept(starts, Shift(seen, off), Shift(Later(last, a.startedAt), off), w);
  }

  lemma ScheduledCase(initial: Option<int>, window: string, off: int, run: seq<Attempt>, m: nat, w: int)
    requires ParseHhmm(window).Ok? && m < |run|
    requires var n := |run| - 1;
      && run[n].Scheduled? && AllManual(run[m..n]) && Follows(LastAttempt(initial, run[..m]), window, off, run[n])
    requires StartsInOrder(StartsIn(run[..m], ParseHhmm(window).value, off, w),
      Shift(LastAttempt(initial, run[..m]), off), w)
    ensures StartsInOrder(StartsIn(run, ParseHhmm(window).value, off, w), Shift(LastAttempt(initial, run), off), w)
  {
    hide ParseHhmm, LastStart, Follows, AttemptAllowed, StartsInOrder, Shift, AllManual, NotBefore, Later;
    var n := |run| - 1;
    var start, last := ParseHhmm(window).value, LastAttempt(initial, run[..n]);
    assert run[..n][..m] == run[..m] && run[..n][m..] == run[m..n];
    ManualKeepsStarts(initial, run[..n], m, start, off, w);
    ScheduledKeepsOrder(LastAttempt(initial, run[..m]), last, window, off, run[n], StartsIn(run[..m], start, off, w),
      w);
    assert StartsIn(run[..n], start, off, w) + [] == StartsIn(run[..n], start, off, w);
  }

  /** Over every run of ticks, with any manual attempts mixed in, also between a tick's reading and its insert, and
      whatever the clock does, a window occurrence sees at most four scheduled starts, and the k-th is never before
      the k-th offset. */
  lemma {:induction false} AtMostFourStarts(initial: Option<int>, window: string, off: int, run: seq<Attempt>, w: int)
    requires ParseHhmm(window).Ok? && AttemptRun(initial, window, off, run)
    ensures StartsInOrder(StartsIn(run, ParseHhmm(window).value, off, w), Shift(LastAttempt(initial, run), off), w)
  {
    hide ParseHhmm, LastStart, Follows, AttemptAllowed, StartsInOrder, Shift, AllManual;
    if run == [] {
      NoStarts(Shift(initial, off), w);
    } else {
      var n := |run| - 1;
      var start, last := ParseHhmm(window).value, LastAttempt(initial, run[..n]);
      if run[n].Scheduled? {
        var m :| 0 <= m <= n && AllManual(run[m..n]) && Follows(LastAttempt(initial, run[..m]), window, off, run[n]);
        assert run[..n][..m] == run[..m];
        PrefixOfRun(initial, window, off, run[..n], m);
        AtMostFourStarts(initial, window, off, run[..m], w);
        ScheduledCase(initial, window, off, run, m, w);
      } else {
        AtMostFourStarts(initial, window, off, run[..n], w);
        LaterNotBefore(last, last, run[n].startedAt, off);
        assert StartsIn(run[..n], start, off, w) + [] == StartsIn(run[..n], start, off, w);
        StartsKept(StartsIn(run[..n], start, off, w), Shift(last, off), Shift(Later(last, run[n].startedAt), off), w);
      }
    }
  }

  lemma NoStarts(lastLocal: Option<int>, w: int)
    ensures StartsInOrder([], lastLocal, w)
  {
  }

  // ---- Nudges, overdue alerts and notices ----------------------------------------------------

  /** Everything a tick sees of the device except the three stamps, which come from the ticks before. */
  datatype Look = Look(base: DeviceView, now: int, reachable: bool, charging: Option<bool>, lead: int)

  function ViewAt(l: Look, s: Stamps): DeviceView {
    l.base.(lastNudgeAt := s.nudge, lastOverdueAlertAt := s.overdue, lastWindowNoticeAt := s.notice)
  }

  function DecisionAt(l: Look, s: Stamps, off: int): Result<Decision, ValueError> {
    LazyDecide(ViewAt(l, s), l.now, off, l.reachable, l.charging, l.lead)
  }

  function StampsAfter(initial: Stamps, run: seq<Look>, off: int): Stamps {
    if run == [] then initial
    else
      var n := |run| - 1;
      var s := StampsAfter(initial, run[..n], off);
      Stamped(s, ViewAt(run[n], s), run[n].now, off, DecisionAt(run[n], s, off))
  }

  /** The decision of the last tick of a non-empty run. */
  function LastDecision(initial: Stamps, run: seq<Look>, off: int): Result<Decision, ValueError>
    requires run != []
  {
    var n := |run| - 1;
    DecisionAt(run[n], StampsAfter(initial, run[..n], off), off)
  }

  function Nudges(initial: Stamps, run: seq<Look>, off: int): seq<int> {
    if run == [] then []
    else
      var n, r := |run| - 1, LastDecision(initial, run, off);
      Nudges(initial, run[..n], off) + if r.Ok? && r.value.nudge then [run[n].now] else []
  }

  function Overdues(initial: Stamps, run: seq<Look>, off: int): seq<int> {
    if run == [] then []
    else
      var n, r := |run| - 1, LastDecision(initial, run, off);
      Overdues(initial, run[..n], off) + if r.Ok? && r.value.overdue then [run[n].now] else []
  }

  /** When each notice went out, and for which occurrence. */
  function Notices(initial: Stamps, run: seq<Look>, start: int, off: int): seq<(int, int)> {
    if run == [] then []
    else
      var n, r := |run| - 1, LastDecision(initial, run, off);
      Notices(initial, run[..n], start, off)
      + if r.Ok? && r.value.notice then [(run[n].now, NoticeIdentity(start, run[n].now, off))] else []
  }

  predicate Apart(times: seq<int>, gap: int) {
    forall i, j :: 0 <= i < j < |times| ==> times[i] + gap * (j - i) <= times[j]
  }

  lemma ApartAppend(times: seq<int>, gap: int, t: int)
    requires Apart(times, gap) && (times != [] ==> times[|times| - 1] + gap <= t)
    ensures Apart(times + [t], gap)
  {
    var all := times + [t];
    forall i, j | 0 <= i < j < |all| ensures all[i] + gap * (j - i) <= all[j] {
      if j == |times| && i < |times| - 1 {
        assert times[i] + gap * (|times| - 1 - i) <= times[|times| - 1];
        assert gap * (j - i) == gap * (|times| - 1 - i) + gap;
      }
    }
  }

  lemma NudgeFact(l: Look, s: Stamps, off: int)
    requires DecisionAt(l, s, off).Ok? && DecisionAt(l, s, off).value.nudge
    ensures s.nudge.Some? ==> s.nudge.value + l.base.intervalHours * HOUR <= l.now
  {
    hide InWindow, Due, SlotOpen, OverdueSpan, NoticeDue;
  }

  lemma OverdueFact(l: Look, s: Stamps, off: int)
    requires DecisionAt(l, s, off).Ok? && DecisionAt(l, s, off).value.overdue
    ensures s.overdue.Some? ==> s.overdue.value + OVERDUE_ALERT_COOLDOWN <= l.now
  {
    hide InWindow, Due, SlotOpen, OverdueSpan, NoticeDue;
  }

  /** Nudges are at least the interval apart, over every run of ticks. */
  lemma {:induction false} NudgesApart(initial: Stamps, run: seq<Look>, off: int, hours: int)
    requires forall i :: 0 <= i < |run| ==> run[i].base.intervalHours == hours
    ensures Apart(Nudges(initial, run, off), hours * HOUR)
    ensures var ns := Nudges(initial, run, off);
      StampsAfter(initial, run, off).nudge == if ns == [] then initial.nudge else Some(ns[|ns| - 1])
  {
    hide DecisionAt, Apart;
    if run == [] {
      assert Apart([], hours * HOUR) by { NoneApart(hours * HOUR); }
    } else {
      var n := |run| - 1;
      var s := StampsAfter(initial, run[..n], off);
      NudgesApart(initial, run[..n], off, hours);
      if LastDecision(initial, run, off).Ok? && LastDecision(initial, run, off).value.nudge {
        NudgeFact(run[n], s, off);
        ApartAppend(Nudges(initial, run[..n], off), hours * HOUR, run[n].now);
      } else {
        assert Nudges(initial, run, off) == Nudges(initial, run[..n], off);
      }
    }
  }

  lemma NoneApart(gap: int)
    ensures Apart([], gap)
  {
  }

  /** Overdue alerts are at least 24 hours apart, over every run of ticks. */
  lemma {:induction false} OverduesApart(initial: Stamps, run: seq<Look>, off: int)
    ensures Apart(Overdues(initial, run, off), OVERDUE_ALERT_COOLDOWN)
    ensures var os := Overdues(initial, run, off);
      StampsAfter(initial, run, off).overdue == if os == [] then initial.overdue else Some(os[|os| - 1])
  {
    hide DecisionAt, Apart;
    if run == [] {
      NoneApart(OVERDUE_ALERT_COOLDOWN);
    } else {
      var n := |run| - 1;
      var s := StampsAfter(initial, run[..n], off);
      OverduesApart(initial, run[..n], off);
      if LastDecision(initial, run, off).Ok? && LastDecision(initial, run, off).value.overdue {
        OverdueFact(run[n], s, off);
        ApartAppend(Overdues(initial, run[..n], off), OVERDUE_ALERT_COOLDOWN, run[n].now);
      } else {
        assert Overdues(initial, run, off) == Overdues(initial, run[..n], off);
      }
    }
  }

  lemma OverdueIgnoresNudges(l: Look, s: Stamps, t: Stamps, off: int)
    requires s.overdue == t.overdue
    ensures DecisionAt(l, s, off).Ok? <==> DecisionAt(l, t, off).Ok?
    ensures DecisionAt(l, s, off).Ok? ==> DecisionAt(l, s, off).value.overdue == DecisionAt(l, t, off).value.overdue
  {
    hide InWindow, SlotOpen, NoticeDue;
  }

  /** The overdue sequence is the same whatever nudges and notices were ever sent. */
  lemma {:induction false} OverduesIndependent(a: Stamps, b: Stamps, run: seq<Look>, off: int)
    requires a.overdue == b.overdue
    ensures Overdues(a, run, off) == Overdues(b, run, off)
    ensures StampsAfter(a, run, off).overdue == StampsAfter(b, run, off).overdue
  {
    hide DecisionAt;
    if run == [] {
    } else {
      var n := |run| - 1;
      OverduesIndependent(a, b, run[..n], off);
      OverdueIgnoresNudges(run[n], StampsAfter(a, run[..n], off), StampsAfter(b, run[..n], off), off);
    }
  }

  lemma NoticeFact(l: Look, s: Stamps, off: int, window: string)
    requires l.base.windowStart == Some(window) && DecisionAt(l, s, off).Ok? && DecisionAt(l, s, off).value.notice
    ensures ParseHhmm(window).Ok?
    ensures var id := NoticeIdentity(ParseHhmm(window).value, l.now, off);
      && s.notice != Some(id) && l.now < id <= l.now + l.lead * MINUTE
      && Stamped(s, ViewAt(l, s), l.now, off, DecisionAt(l, s, off)).notice == Some(id)
  {
    hide SlotOpen, OverdueSpan, Due, ParseHhmm;
    var start := ParseHhmm(window).value;
    assert NoticeDue(ViewAt(l, s), l.now, off, false, l.lead);
    assert l.base.windowEnd.Some? && ParseHhmm(l.base.windowEnd.value).Ok?;
    ParsedInDay(window);
    ParsedInDay(l.base.windowEnd.value);
    WindowArithmetic(l.now + off, start, ParseHhmm(l.base.windowEnd.value).value);
  }

  lemma ParsedInDay(s: string)
    requires ParseHhmm(s).Ok?
    ensures 0 <= ParseHhmm(s).value < DAY
  {
  }

  /** Notices go out strictly before their occurrence, at most the lead ahead, for ever later occurrences, one each. */
  predicate NoticesInOrder(ns: seq<(int, int)>, lead: int) {
    && (forall i :: 0 <= i < |ns| ==> ns[i].0 < ns[i].1 <= ns[i].0 + lead * MINUTE)
    && (forall i, j :: 0 <= i < j < |ns| ==> ns[i].1 < ns[j].1)
  }

  lemma NoticesAppend(ns: seq<(int, int)>, lead: int, n: (int, int))
    requires NoticesInOrder(ns, lead) && n.0 < n.1 <= n.0 + lead * MINUTE
    requires ns != [] ==> ns[|ns| - 1].1 < n.1
    ensures NoticesInOrder(ns + [n], lead)
  {
    assert forall i :: 0 <= i < |ns| - 1 ==> ns[i].1 < ns[|ns| - 1].1;
  }

  /** Each window occurrence gets at most one notice, over every run of ticks whose clock does not run backwards. */
  lemma {:induction false} OneNoticePerOccurrence(initial: Stamps, run: seq<Look>, off: int, window: string, lead: int)
    requires ParseHhmm(window).Ok?
    requires forall i :: 0 <= i < |run| ==> run[i].base.windowStart == Some(window) && run[i].lead == lead
    requires forall i, j :: 0 <= i < j < |run| ==> run[i].now <= run[j].now
    ensures var ns := Notices(initial, run, ParseHhmm(window).value, off);
      && NoticesInOrder(ns, lead)
      && (ns != [] ==> StampsAfter(initial, run, off).notice == Some(ns[|ns| - 1].1)
                       && ns[|ns| - 1].1 <= NoticeIdentity(ParseHhmm(window).value, run[|run| - 1].now, off))
  {
    hide DecisionAt, NoticesInOrder, ParseHhmm, NoticeIdentity;
    var start := ParseHhmm(window).value;
    if run == [] {
      assert NoticesInOrder([], lead) by { NoNotices(lead); }
    } else {
      var n := |run| - 1;
      var s := StampsAfter(initial, run[..n], off);
      var ns := Notices(initial, run[..n], start, off);
      OneNoticePerOccurrence(initial, run[..n], off, window, lead);
      if n > 0 {
        assert run[..n][n - 1] == run[n - 1];
        IdentityMonotone(window, run[n - 1].now, run[n].now, off);
      }
      if LastDecision(initial, run, off).Ok? && LastDecision(initial, run, off).value.notice {
        NoticeFact(run[n], s, off, window);
        NoticesAppend(ns, lead, (run[n].now, NoticeIdentity(start, run[n].now, off)));
      } else {
        assert Notices(initial, run, start, off) == ns;
      }
    }
  }

  lemma NoNotices(lead: int)
    ensures NoticesInOrder([], lead)
  {
  }

  lemma IdentityMonotone(window: string, a: int, b: int, off: int)
    requires ParseHhmm(window).Ok? && a <= b
    ensures NoticeIdentity(ParseHhmm(window).value, a, off) <= NoticeIdentity(ParseHhmm(window).value, b, off)
  {
    NextStartMonotone(a + off, b + off, ParseHhmm(window).value);
  }
}

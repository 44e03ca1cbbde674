/** What one decision says, in plain arithmetic on instants, and what one tick does with the decisions. */
module ScheduleLaws {
  import opened Wrappers
  import opened Calendar
  import opened Schedule
  import opened Ticker

  // ---- The words of the rules --------------------------------------------------------------

  /** No such moment on record, or it lies at least that many seconds back. */
  predicate LongAgo(last: Option<int>, now: int, seconds: int) {
    last.None? || last.value + seconds <= now
  }

  /** No attempt yet in the window occurrence that began at w, or now is past the first of the marks 30, 60 and 120
      minutes after w that the last attempt had not reached. */
  predicate MarkReached(now: int, w: int, last: Option<int>) {
    || last.None? || last.value < w
    || (last.value < w + 1800 && w + 1800 <= now)
    || (w + 1800 <= last.value < w + 3600 && w + 3600 <= now)
    || (w + 3600 <= last.value < w + 7200 && w + 7200 <= now)
  }

  /** How long a window is open, by its two clock times. */
  function OpenFor(start: int, end: int): int {
    if start == end then 86400 else if start < end then end - start else end + 86400 - start
  }

  /** The success to measure from, or the moment the device was added, lies that many days back. */
  predicate LongWithoutSuccess(d: DeviceView, now: int) {
    if d.lastSuccessAt.Some? then d.lastSuccessAt.value + 86400 * d.overdueDays <= now
    else d.addedAt.Some? && d.addedAt.value + 86400 * d.overdueDays <= now
  }

  /** w is when the window last opened, by the local clock, and next is when it opens next, both as UTC instants. */
  predicate Opens(now: int, off: int, start: int, w: int, next: int) {
    && (w + off) % 86400 == start && w <= now < w + 86400
    && (next + off) % 86400 == start && now <= next < now + 86400
  }

  predicate HasWindow(d: DeviceView, start: int, end: int) {
    && d.windowStart.Some? && ParseHhmm(d.windowStart.value) == Ok(start)
    && d.windowEnd.Some? && ParseHhmm(d.windowEnd.value) == Ok(end)
  }

  // ---- The pieces --------------------------------------------------------------------------

  lemma SameClockSameDay(a: int, b: int, clock: int)
    requires a % DAY == clock && b % DAY == clock && -DAY < a - b < DAY
    ensures a == b
  {
    assert a == DAY * (a / DAY) + clock && b == DAY * (b / DAY) + clock;
  }

  /** There is always one such pair of instants, and one only. */
  lemma OpensOnce(now: int, off: int, start: int) returns (w: int, next: int)
    requires 0 <= start < DAY
    ensures Opens(now, off, start, w, next)
    ensures forall v, m :: Opens(now, off, start, v, m) ==> v == w && m == next
  {
    w, next := LastStart(now + off, start) - off, NextStart(now + off, start) - off;
    WindowArithmetic(now + off, start, start);
    forall v, m | Opens(now, off, start, v, m) ensures v == w && m == next {
      OpensMeans(now, off, start, start, v, m);
    }
  }

  lemma OpensMeans(now: int, off: int, start: int, end: int, w: int, next: int)
    requires 0 <= start < DAY && 0 <= end < DAY && Opens(now, off, start, w, next)
    ensures LastStart(now + off, start) == w + off && NoticeIdentity(start, now, off) == next
    ensures Inside((now + off) % DAY, start, end) <==> now < w + OpenFor(start, end)
  {
    WindowArithmetic(now + off, start, end);
    SameClockSameDay(LastStart(now + off, start), w + off, start);
    SameClockSameDay(NextStart(now + off, start), next + off, start);
    LengthIs(start, end);
    hide LastStart, NextStart, Inside, WindowLength;
  }

  lemma LengthIs(start: int, end: int)
    requires 0 <= start < DAY && 0 <= end < DAY
    ensures WindowLength(start, end) == OpenFor(start, end)
  {
    if end < start {
      ClockOfShift(-1, end - start + DAY);
    }
  }

  lemma OffsetsAre(elapsed: int)
    requires 0 <= elapsed
    ensures FirstOffsetAfter(elapsed, RETRY_OFFSETS) ==
      if elapsed < 1800 then Some(1800) else if elapsed < 3600 then Some(3600)
      else if elapsed < 7200 then Some(7200) else None
  {
    var o3 := [120 * MINUTE];
    var o2 := [60 * MINUTE] + o3;
    var o1 := [30 * MINUTE] + o2;
    assert RETRY_OFFSETS[1..] == o1 && o1[1..] == o2 && o2[1..] == o3 && o3[1..] == [];
    assert FirstOffsetAfter(elapsed, o3) == if elapsed < 7200 then Some(7200) else None;
    assert FirstOffsetAfter(elapsed, o2) == if elapsed < 3600 then Some(3600) else FirstOffsetAfter(elapsed, o3);
    assert FirstOffsetAfter(elapsed, o1) == if elapsed < 1800 then Some(1800) else FirstOffsetAfter(elapsed, o2);
    assert FirstOffsetAfter(elapsed, RETRY_OFFSETS) == FirstOffsetAfter(elapsed, o1);
  }

  lemma AllowedIff(now: int, off: int, w: int, last: Option<int>)
    ensures AttemptAllowed(now + off, w + off, Shift(last, off)) <==> MarkReached(now, w, last)
  {
    if last.Some? && w <= last.value {
      OffsetsAre(last.value - w);
    }
    hide FirstOffsetAfter;
  }

  lemma ParsedClock(s: string)
    requires ParseHhmm(s).Ok?
    ensures 0 <= ParseHhmm(s).value < DAY
  {
  }

  lemma WindowIs(d: DeviceView, now: int, off: int, start: int, end: int, w: int, next: int)
    requires HasWindow(d, start, end) && Opens(now, off, start, w, next)
    ensures InWindow(now + off, d.windowStart, d.windowEnd) == Ok(now < w + OpenFor(start, end))
  {
    ParsedClock(d.windowStart.value);
    ParsedClock(d.windowEnd.value);
    OpensMeans(now, off, start, end, w, next);
    hide ParseHhmm, Inside, OpenFor, Opens, LastStart, NoticeIdentity;
  }

  lemma SlotIs(d: DeviceView, now: int, off: int, start: int, end: int, w: int, next: int, inside: bool)
    requires HasWindow(d, start, end) && Opens(now, off, start, w, next)
    ensures SlotOpen(d, now, off, inside) <==> inside && MarkReached(now, w, d.lastAttemptAt)
  {
    ParsedClock(d.windowStart.value);
    ParsedClock(d.windowEnd.value);
    OpensMeans(now, off, start, end, w, next);
    AllowedIff(now, off, w, d.lastAttemptAt);
    hide ParseHhmm, Inside, OpenFor, Opens, LastStart, NoticeIdentity, MarkReached, AttemptAllowed, Shift;
  }

  lemma NoticeIs(d: DeviceView, now: int, off: int, start: int, end: int, w: int, next: int, inside: bool, lead: int)
    requires HasWindow(d, start, end) && Opens(now, off, start, w, next)
    ensures NoticeDue(d, now, off, inside, lead) <==>
      && LongAgo(d.lastSuccessAt, now, 3600 * d.intervalHours) && !inside
      && next <= now + 60 * lead && d.lastWindowNoticeAt != Some(next)
  {
    ParsedClock(d.windowStart.value);
    ParsedClock(d.windowEnd.value);
    OpensMeans(now, off, start, end, w, next);
    DueIs(d, now);
    assert now <= next;
    hide ParseHhmm, Inside, OpenFor, Opens, LastStart, NoticeIdentity, Due, LongAgo;
  }

  lemma DueIs(d: DeviceView, now: int)
    ensures Due(d, now) <==> LongAgo(d.lastSuccessAt, now, 3600 * d.intervalHours)
    ensures Stale(d.lastNudgeAt, now, d.intervalHours * HOUR) <==> LongAgo(d.lastNudgeAt, now, 3600 * d.intervalHours)
    ensures Stale(d.lastOverdueAlertAt, now, OVERDUE_ALERT_COOLDOWN) <==> LongAgo(d.lastOverdueAlertAt, now, 86400)
    ensures OverdueSpan(d, now) <==> LongWithoutSuccess(d, now)
  {
  }

  // ---- The decision ------------------------------------------------------------------------

  /** A device with a readable window: exactly when each of the four flags is raised. */
  lemma DecideIff(d: DeviceView, now: int, off: int, reachable: bool, charging: Option<bool>, lead: int,
                  start: int, end: int, w: int, next: int)
    requires HasWindow(d, start, end) && Opens(now, off, start, w, next)
    ensures var r := Decide(d, now, off, reachable, charging, lead);
      var due := LongAgo(d.lastSuccessAt, now, 3600 * d.intervalHours);
      && r.Ok?
      && (r.value.startBackup <==>
            && !d.running && due && reachable && now < w + OpenFor(start, end)
            && (d.onlyWhenCharging ==> charging == Some(true)) && MarkReached(now, w, d.lastAttemptAt))
      && (r.value.nudge <==>
            !d.running && due && !r.value.startBackup && LongAgo(d.lastNudgeAt, now, 3600 * d.intervalHours))
      && (r.value.overdue <==>
            !d.running && LongWithoutSuccess(d, now) && LongAgo(d.lastOverdueAlertAt, now, 86400))
      && (r.value.notice <==>
            && !d.running && due && w + OpenFor(start, end) <= now
            && next <= now + 60 * lead && d.lastWindowNoticeAt != Some(next))
  {
    WindowIs(d, now, off, start, end, w, next);
    SlotIs(d, now, off, start, end, w, next, now < w + OpenFor(start, end));
    NoticeIs(d, now, off, start, end, w, next, now < w + OpenFor(start, end), lead);
    DueIs(d, now);
    hide InWindow, SlotOpen, NoticeDue, Due, Stale, OverdueSpan, LongAgo, MarkReached, OpenFor, Opens, HasWindow,
      LongWithoutSuccess, Reason;
  }

  /** The first condition that stops a start. */
  function MainText(running: bool, due: bool, start: bool, reachable: bool, inside: bool, mark: bool): string {
    if running then "A backup is already running for this device."
    else if !due then "Last backup is within the interval; nothing due."
    else if start then "Due, reachable, inside the window and charging requirement met; starting the backup."
    else if !reachable then "Due, but the device is not reachable."
    else if !inside then "Due, but outside the scheduled window."
    else if !mark then "Due, inside the window, but the next scheduled attempt has not arrived yet."
    else "Due, but charging is required and the device is not confirmed to be charging."
  }

  lemma MainTextIs(due: bool, start: bool, reachable: bool, inside: bool, mark: bool, open: bool, chargingOk: bool)
    requires (start <==> due && reachable && inside && chargingOk && open) && (open <==> inside && mark)
    ensures Reason(due, start, reachable, inside, open, chargingOk)
         == MainText(false, due, start, reachable, inside, mark)
  {
  }

  /** Every message that goes out, in this order. */
  function Sent(overdue: bool, nudge: bool, notice: bool): string {
    (if overdue then " Overdue alert is due." else "")
    + (if nudge then " Sending a reminder." else "")
    + (if notice then " Sending the pre-attempt notice." else "")
  }

  lemma SentIs(overdue: bool, nudge: bool, notice: bool)
    ensures Messages(overdue, nudge, notice) == Sent(overdue, nudge, notice)
  {
  }

  /** A running device raises nothing. */
  lemma RunningSaysSo(d: DeviceView, now: int, off: int, reachable: bool, charging: Option<bool>, lead: int)
    requires d.running
    ensures var r := Decide(d, now, off, reachable, charging, lead);
      && r.Ok? && !r.value.startBackup && !r.value.nudge && !r.value.overdue && !r.value.notice
      && r.value.reason == MainText(true, false, false, reachable, false, false)
  {
  }

  /** The text names the first condition that stops a start, and then every message that goes out. */
  lemma ReasonIff(d: DeviceView, now: int, off: int, reachable: bool, charging: Option<bool>, lead: int,
                  start: int, end: int, w: int, next: int)
    requires HasWindow(d, start, end) && Opens(now, off, start, w, next) && !d.running
    ensures var r := Decide(d, now, off, reachable, charging, lead);
      && r.Ok?
      && r.value.reason ==
           MainText(false, LongAgo(d.lastSuccessAt, now, 3600 * d.intervalHours), r.value.startBackup, reachable,
                    now < w + OpenFor(start, end), MarkReached(now, w, d.lastAttemptAt))
           + Sent(r.value.overdue, r.value.nudge, r.value.notice)
  {
    hide InWindow, SlotOpen, NoticeDue, Due, Stale, OverdueSpan, LongAgo, MarkReached, OpenFor, Opens, HasWindow,
      LongWithoutSuccess, Reason, MainText, ChargingOk, Messages, Sent;
    WindowIs(d, now, off, start, end, w, next);
    var inside := now < w + OpenFor(start, end);
    SlotIs(d, now, off, start, end, w, next, inside);
    DueIs(d, now);
    var due, open, ok := Due(d, now), SlotOpen(d, now, off, inside), ChargingOk(d, charging);
    MainTextIs(due, due && reachable && inside && ok && open, reachable, inside,
      MarkReached(now, w, d.lastAttemptAt), open, ok);
    var v := Decide(d, now, off, reachable, charging, lead).value;
    SentIs(v.overdue, v.nudge, v.notice);
  }

  /** Without a window nothing ever starts and no notice is sent; reminders and overdue alerts go out all the same. */
  lemma NoWindowNeverStarts(d: DeviceView, now: int, off: int, reachable: bool, charging: Option<bool>, lead: int)
    requires d.windowStart == None && d.windowEnd == None
    ensures var r := Decide(d, now, off, reachable, charging, lead);
      && r.Ok? && !r.value.startBackup && !r.value.notice
      && (r.value.nudge <==>
            && !d.running && LongAgo(d.lastSuccessAt, now, 3600 * d.intervalHours)
            && LongAgo(d.lastNudgeAt, now, 3600 * d.intervalHours))
      && (r.value.overdue <==>
            !d.running && LongWithoutSuccess(d, now) && LongAgo(d.lastOverdueAlertAt, now, 86400))
  {
    hide Reason;
  }

  /** A device is skipped exactly when no backup of it runs and its window has one bound alone or a malformed one. */
  lemma SkippedIff(d: DeviceView, now: int, off: int, reachable: bool, charging: Option<bool>, lead: int)
    ensures Decide(d, now, off, reachable, charging, lead).Err? <==>
      && !d.running
      && (d.windowStart.Some? != d.windowEnd.Some?
          || (d.windowStart.Some? && d.windowEnd.Some?
              && (ParseHhmm(d.windowStart.value).Err? || ParseHhmm(d.windowEnd.value).Err?)))
  {
    hide ParseHhmm, Due, SlotOpen, OverdueSpan, NoticeDue, Reason, Stale, ChargingOk, Inside;
  }

  /** What is an HH:MM time: two runs of digits around one colon, at most 23 and 59. */
  lemma ParseOkIff(text: string)
    ensures ParseHhmm(text).Ok? <==>
      exists h, m :: text == h + ":" + m && AllDigits(h) && AllDigits(m) && Value(h) <= 23 && Value(m) <= 59
    ensures ParseHhmm(text).Ok? ==>
      exists h, m :: text == h + ":" + m && AllDigits(h) && AllDigits(m)
        && ParseHhmm(text).value == 3600 * Value(h) + 60 * Value(m)
  {
    if ParseHhmm(text).Ok? {
      var i := ColonAt(text);
      var h, m := text[..i], text[i + 1..];
      assert text == h + ":" + m;
      hide Value, ColonAt, AllDigits;
    }
    if h, m :| text == h + ":" + m && AllDigits(h) && AllDigits(m) && Value(h) <= 23 && Value(m) <= 59 {
      DigitsHaveNoColon(h);
      ParseParts(h, m);
    }
    hide ParseHhmm, Value, AllDigits;
  }

  lemma DigitsHaveNoColon(s: string)
    requires AllDigits(s)
    ensures ':' !in s
  {
  }

  // ---- One tick ----------------------------------------------------------------------------

  function Known(charging: map<string, bool>, udid: string): Option<bool> {
    if udid in charging then Some(charging[udid]) else None
  }

  /** The tick decides each device as if it had asked for the charging state every time. */
  lemma TickDecides(d: DeviceView, now: int, off: int, seen: set<string>, charging: map<string, bool>, lead: int)
    ensures DecisionOf(d, now, off, seen, charging, lead)
         == Decide(d, now, off, d.udid in seen, Known(charging, d.udid), lead)
  {
    LazyProbeIsExact(d, now, off, d.udid in seen, Known(charging, d.udid), lead);
    hide LazyDecide, Decide, Probes;
  }

  predicate Starts(d: DeviceView, now: int, off: int, seen: set<string>, charging: map<string, bool>, lead: int) {
    var r := Decide(d, now, off, d.udid in seen, Known(charging, d.udid), lead);
    r.Ok? && r.value.startBackup
  }

  /** The udids of the views at the given positions, in their order. */
  predicate Positions(views: seq<DeviceView>, udids: seq<string>, at: seq<nat>) {
    && |at| == |udids| && (forall k :: 0 <= k < |at| ==> at[k] < |views| && views[at[k]].udid == udids[k])
    && (forall j, k :: 0 <= j < k < |at| ==> at[j] < at[k])
  }

  lemma PositionsGrow(views: seq<DeviceView>, udids: seq<string>, at: seq<nat>)
    requires views != [] && Positions(views[..|views| - 1], udids, at)
    ensures var n := |views| - 1;
      && Positions(views, udids, at) && Positions(views, udids + [views[n].udid], at + [n])
      && (forall k :: k in at ==> k < n)
  {
  }

  /** A tick starts exactly the devices whose decision says so, in the order of the views: `at` lists their
      positions. */
  lemma {:induction false} StartsIff(views: seq<DeviceView>, now: int, off: int, seen: set<string>,
                                     charging: map<string, bool>, lead: int)
    returns (at: seq<nat>)
    ensures Positions(views, AllStarts(views, now, off, seen, charging, lead), at)
    ensures forall i :: 0 <= i < |views| ==> (i in at <==> Starts(views[i], now, off, seen, charging, lead))
  {
    hide Starts, DecisionOf, Positions, AllStarts;
    if views == [] {
      at := [];
      NoPositions(now, off, seen, charging, lead);
    } else {
      var n := |views| - 1;
      at := StartsIff(views[..n], now, off, seen, charging, lead);
      TickStarts(views[n], now, off, seen, charging, lead);
      PositionsGrow(views, AllStarts(views[..n], now, off, seen, charging, lead), at);
      assert forall i :: 0 <= i < n ==> views[..n][i] == views[i];
      var before := AllStarts(views[..n], now, off, seen, charging, lead);
      assert views[..n + 1] == views && before + [] == before;
      StartsAppended(views, n, now, off, seen, charging, lead);
      if Starts(views[n], now, off, seen, charging, lead) {
        at := at + [n];
      }
    }
  }

  lemma NoPositions(now: int, off: int, seen: set<string>, charging: map<string, bool>, lead: int)
    ensures Positions([], [], []) && AllStarts([], now, off, seen, charging, lead) == []
  {
  }

  lemma TickStarts(d: DeviceView, now: int, off: int, seen: set<string>, charging: map<string, bool>, lead: int)
    ensures var r := DecisionOf(d, now, off, seen, charging, lead);
      Starts(d, now, off, seen, charging, lead) <==> r.Ok? && r.value.startBackup
  {
    TickDecides(d, now, off, seen, charging, lead);
    hide Decide, DecisionOf;
  }

  /** The nearest number of minutes, an even one at a half. */
  predicate Nearest(minutes: int, seconds: int) {
    -30 <= 60 * minutes - seconds <= 30 && (60 * minutes - seconds in {-30, 30} ==> minutes % 2 == 0)
  }

  lemma RoundsToNearest(seconds: int)
    ensures Nearest(RoundMinutes(seconds), seconds)
    ensures 0 <= seconds ==> 0 <= RoundMinutes(seconds)
  {
    assert seconds == 60 * (seconds / 60) + seconds % 60;
  }

  function Rank(a: Alert): int {
    match a
    case Overdue(_, _) => 0
    case Nudge(_, _) => 1
    case Upcoming(_, _) => 2
  }

  lemma ThreeAlerts(udid: string, text: string, minutes: int, overdue: bool, nudge: bool, notice: bool,
                    alerts: seq<Alert>)
    requires alerts == (if overdue then [Overdue(udid, text)] else []) + (if nudge then [Nudge(udid, text)] else [])
                       + (if notice then [Upcoming(udid, minutes)] else [])
    ensures forall t :: Overdue(udid, t) in alerts <==> overdue && t == text
    ensures forall t :: Nudge(udid, t) in alerts <==> nudge && t == text
    ensures forall m :: Upcoming(udid, m) in alerts <==> notice && m == minutes
    ensures forall i, j :: 0 <= i < j < |alerts| ==> Rank(alerts[i]) < Rank(alerts[j])
    ensures forall a :: a in alerts ==> a.udid == udid
  {
  }

  lemma AlertsOfFlags(d: DeviceView, now: int, off: int, v: Decision, start: int, end: int, w: int, next: int)
    requires HasWindow(d, start, end) && Opens(now, off, start, w, next)
    ensures AlertsOf(d, now, off, Ok(v))
         == (if v.overdue then [Overdue(d.udid, v.reason)] else [])
            + (if v.nudge then [Nudge(d.udid, v.reason)] else [])
            + (if v.notice then [Upcoming(d.udid, RoundMinutes(next - now))] else [])
  {
    ParsedClock(d.windowStart.value);
    ParsedClock(d.windowEnd.value);
    OpensMeans(now, off, start, end, w, next);
    RoundsToNearest(next - now);
    assert 0 <= next - now;
    hide ParseHhmm, NoticeIdentity, RoundMinutes, Inside, LastStart, OpenFor, Nearest;
  }

  /** One decision raises an alert for each of its flags: overdue, reminder, and the notice with the minutes left. */
  lemma AlertsOfOne(d: DeviceView, now: int, off: int, v: Decision, start: int, end: int, w: int, next: int)
    requires HasWindow(d, start, end) && Opens(now, off, start, w, next)
    ensures var alerts := AlertsOf(d, now, off, Ok(v));
      && (forall text :: Overdue(d.udid, text) in alerts <==> v.overdue && text == v.reason)
      && (forall text :: Nudge(d.udid, text) in alerts <==> v.nudge && text == v.reason)
      && (forall m :: Upcoming(d.udid, m) in alerts <==> v.notice && Nearest(m, next - now))
      && (forall a :: a in alerts ==> a.udid == d.udid)
      && (forall i, j :: 0 <= i < j < |alerts| ==> Rank(alerts[i]) < Rank(alerts[j]))
  {
    hide AlertsOf, RoundMinutes, Nearest, Rank, HasWindow, Opens;
    AlertsOfFlags(d, now, off, v, start, end, w, next);
    var m := RoundMinutes(next - now);
    ThreeAlerts(d.udid, v.reason, m, v.overdue, v.nudge, v.notice, AlertsOf(d, now, off, Ok(v)));
    RoundsToNearest(next - now);
    var left := next - now;
    forall n ensures Nearest(n, left) <==> n == m {
      if Nearest(n, left) {
        NearestIsOne(m, n, left);
      }
    }
  }

  lemma NearestIsOne(m: int, n: int, seconds: int)
    requires Nearest(m, seconds) && Nearest(n, seconds)
    ensures m == n
  {
    assert -60 <= 60 * (m - n) <= 60;
  }

  /** A device without a window gets no notice; one that is skipped gets nothing. */
  lemma AlertsWithoutWindow(d: DeviceView, now: int, off: int, reachable: bool, charging: Option<bool>, lead: int)
    ensures var r := Decide(d, now, off, reachable, charging, lead);
      && (r.Err? ==> AlertsOf(d, now, off, r) == [])
      && (r.Ok? && d.windowStart == None && d.windowEnd == None ==>
            AlertsOf(d, now, off, r) == (if r.value.overdue then [Overdue(d.udid, r.value.reason)] else [])
                                       + (if r.value.nudge then [Nudge(d.udid, r.value.reason)] else []))
  {
    if d.windowStart == None && d.windowEnd == None {
      NoWindowNeverStarts(d, now, off, reachable, charging, lead);
    }
    hide Decide;
  }

  /** All alerts of a tick are those of its decisions, device after device in the order of the views. */
  lemma {:induction false} AlertsIff(views: seq<DeviceView>, now: int, off: int, seen: set<string>,
                                     charging: map<string, bool>, lead: int, a: Alert)
    ensures a in AllAlerts(views, now, off, seen, charging, lead) <==>
      exists i :: 0 <= i < |views| &&
        a in AlertsOf(views[i], now, off,
                      Decide(views[i], now, off, views[i].udid in seen, Known(charging, views[i].udid), lead))
    decreases |views|
  {
    hide AlertsOf, Decide, DecisionOf;
    if views == [] {
    } else {
      var n := |views| - 1;
      AlertsIff(views[..n], now, off, seen, charging, lead, a);
      TickDecides(views[n], now, off, seen, charging, lead);
      assert forall i :: 0 <= i < n ==> views[..n][i] == views[i];
    }
  }

  /** The cooldown stamps after a decision: each message stamps this tick, a notice the occurrence it announces. */
  lemma StampsIff(s: Stamps, d: DeviceView, now: int, off: int, reachable: bool, charging: Option<bool>, lead: int,
                  start: int, end: int, w: int, next: int)
    requires HasWindow(d, start, end) && Opens(now, off, start, w, next)
    ensures var r := Decide(d, now, off, reachable, charging, lead);
      && r.Ok?
      && Stamped(s, d, now, off, r) == Stamps(if r.value.nudge then Some(now) else s.nudge,
                                             if r.value.overdue then Some(now) else s.overdue,
                                             if r.value.notice then Some(next) else s.notice)
  {
    DecideIff(d, now, off, reachable, charging, lead, start, end, w, next);
    ParsedClock(d.windowStart.value);
    ParsedClock(d.windowEnd.value);
    OpensMeans(now, off, start, end, w, next);
    hide Decide, ParseHhmm, NoticeIdentity, OpenFor, LongAgo, MarkReached, LongWithoutSuccess;
  }
}

/** The pure decision logic of scheduled backups, in whole seconds and with a fixed zone offset. */
module Schedule {
  import opened Wrappers
  import opened Calendar
  import Timestamps

  const MINUTE: int := 60
  const HOUR: int := 3600

  /** First attempt at the window start, then retries at +30, +60 and +120 minutes. */
  const RETRY_OFFSETS: seq<int> := [0, 30 * MINUTE, 60 * MINUTE, 120 * MINUTE]
  const OVERDUE_ALERT_COOLDOWN: int := 24 * HOUR

  datatype ValueError = MalformedTime(value: string) | HalfWindow

  // ---- "HH:MM" -----------------------------------------------------------------------------

  predicate AllDigits(s: string) {
    s != "" && forall i :: 0 <= i < |s| ==> '0' <= s[i] <= '9'
  }

  function Value(s: string): nat
    requires forall i :: 0 <= i < |s| ==> '0' <= s[i] <= '9'
  {
    if s == "" then 0 else 10 * Value(s[..|s| - 1]) + (s[|s| - 1] as int - '0' as int)
  }

  function ColonAt(s: string): (i: nat)
    ensures i <= |s| && (i < |s| ==> s[i] == ':') && ':' !in s[..i]
  {
    if s == "" then 0 else if s[0] == ':' then 0 else 1 + ColonAt(s[1..])
  }

  predicate IsClock(h: string, m: string) {
    AllDigits(h) && AllDigits(m) && Value(h) <= 23 && Value(m) <= 59
  }

  /** The second of the day a clock time names. */
  function ParseHhmm(value: string): (r: Result<int, ValueError>)
    ensures r.Ok? ==> 0 <= r.value < DAY && r.value % MINUTE == 0
  {
    var i := ColonAt(value);
    if i == |value| then Err(MalformedTime(value))
    else
      var h, m := value[..i], value[i + 1..];
      if !IsClock(h, m) then Err(MalformedTime(value)) else Ok(Value(h) * HOUR + Value(m) * MINUTE)
  }

  /** The "HH:MM" text of a whole minute of the day. */
  function Clock(t: int): string {
    Timestamps.Pad(2, t / HOUR) + ":" + Timestamps.Pad(2, t % HOUR / MINUTE)
  }

  lemma TwoDigits(n: int)
    requires 0 <= n < 100
    ensures var s := Timestamps.Pad(2, n);
      |s| == 2 && AllDigits(s) && Value(s) == n && ':' !in s
  {
    var s := Timestamps.Pad(2, n);
    assert Timestamps.Pad(0, n / 10 / 10) == "" && Timestamps.Pad(1, n / 10) == [Timestamps.Digit(n / 10 % 10)];
    assert s == [Timestamps.Digit(n / 10), Timestamps.Digit(n % 10)];
    DigitIsChar(n / 10);
    DigitIsChar(n % 10);
    assert s[..1] == [s[0]] && s[..1][..0] == "";
    assert Value(s[..1]) == n / 10;
  }

  lemma DigitIsChar(d: int)
    requires 0 <= d < 10
    ensures Timestamps.Digit(d) as int == '0' as int + d
  {
  }

  lemma {:induction false} ColonAfter(a: string, b: string)
    requires ':' !in a
    ensures ColonAt(a + ":" + b) == |a|
  {
    if a == "" {
      assert a + ":" + b == ":" + b;
    } else {
      assert (a + ":" + b)[1..] == a[1..] + ":" + b;
      ColonAfter(a[1..], b);
    }
  }

  lemma CutAtColon(h: string, m: string)
    ensures var text := h + ":" + m;
      |h| < |text| && text[..|h|] == h && text[|h| + 1..] == m
  {
  }

  lemma ParseAtColon(text: string)
    requires var i := ColonAt(text); i < |text| && IsClock(text[..i], text[i + 1..])
    ensures var i := ColonAt(text);
      ParseHhmm(text) == Ok(Value(text[..i]) * HOUR + Value(text[i + 1..]) * MINUTE)
  {
    hide Value, ColonAt;
  }

  lemma ParseParts(h: string, m: string)
    requires IsClock(h, m) && ':' !in h
    ensures ParseHhmm(h + ":" + m) == Ok(Value(h) * HOUR + Value(m) * MINUTE)
  {
    hide *;
    ColonAfter(h, m);
    CutAtColon(h, m);
    ParseAtColon(h + ":" + m);
  }

  lemma MinuteOfDay(t: int)
    requires 0 <= t < DAY && t % MINUTE == 0
    ensures 0 <= t / HOUR <= 23 && 0 <= t % HOUR / MINUTE <= 59
    ensures t == t / HOUR * HOUR + t % HOUR / MINUTE * MINUTE
  {
    assert t == t / HOUR * HOUR + t % HOUR;
    assert t % HOUR % MINUTE == 0 by {
      assert t % HOUR == MINUTE * (t / MINUTE - t / HOUR * 60);
    }
  }

  lemma TwoDigitsAreClock(h: int, m: int)
    requires 0 <= h <= 23 && 0 <= m <= 59
    ensures var hs, ms := Timestamps.Pad(2, h), Timestamps.Pad(2, m);
      IsClock(hs, ms) && ':' !in hs && Value(hs) == h && Value(ms) == m
  {
    TwoDigits(h);
    TwoDigits(m);
    hide AllDigits, Value, Timestamps.Pad;
  }

  lemma ParseTwoDigits(h: int, m: int)
    requires 0 <= h <= 23 && 0 <= m <= 59
    ensures ParseHhmm(Timestamps.Pad(2, h) + ":" + Timestamps.Pad(2, m)) == Ok(h * HOUR + m * MINUTE)
  {
    hide *;
    TwoDigitsAreClock(h, m);
    ParseParts(Timestamps.Pad(2, h), Timestamps.Pad(2, m));
  }

  lemma ClockText(t: int)
    ensures Clock(t) == Timestamps.Pad(2, t / HOUR) + ":" + Timestamps.Pad(2, t % HOUR / MINUTE)
  {
    hide Timestamps.Pad;
  }

  /** Every whole minute of the day is read back from its text. */
  lemma ClockRoundTrip(t: int)
    requires 0 <= t < DAY && t % MINUTE == 0
    ensures ParseHhmm(Clock(t)) == Ok(t)
  {
    hide ParseHhmm, Clock, Timestamps.Pad;
    MinuteOfDay(t);
    ParseTwoDigits(t / HOUR, t % HOUR / MINUTE);
    ClockText(t);
  }

  // ---- Windows -----------------------------------------------------------------------------

  /** The clock-time comparison, on seconds of the day. */
  predicate Inside(clock: int, start: int, end: int) {
    if start == end then true
    else if start < end then start <= clock < end
    else clock >= start || clock < end
  }

  function InWindow(nowLocal: int, start: Option<string>, end: Option<string>): Result<bool, ValueError> {
    match (start, end)
    case (None, None) => Ok(false)
    case (Some(s), Some(e)) =>
      var st, et := ParseHhmm(s), ParseHhmm(e);
      if st.Err? then Err(st.error)
      else if et.Err? then Err(et.error)
      else Ok(Inside(nowLocal % DAY, st.value, et.value))
    case _ => Err(HalfWindow)
  }

  function LastStart(nowLocal: int, start: int): int {
    var candidate := nowLocal - nowLocal % DAY + start;
    if candidate > nowLocal then candidate - DAY else candidate
  }

  function NextStart(nowLocal: int, start: int): int {
    var candidate := nowLocal - nowLocal % DAY + start;
    if candidate < nowLocal then candidate + DAY else candidate
  }

  /** The UTC instant of the next, or current, window occurrence. */
  function NoticeIdentity(start: int, now: int, off: int): int {
    NextStart(now + off, start) - off
  }

  function FirstOffsetAfter(elapsed: int, offsets: seq<int>): Option<int> {
    if offsets == [] then None
    else if offsets[0] > elapsed then Some(offsets[0])
    else FirstOffsetAfter(elapsed, offsets[1..])
  }

  function AttemptAllowed(nowLocal: int, windowStartAt: int, lastAttemptLocal: Option<int>): bool {
    if lastAttemptLocal.None? || lastAttemptLocal.value < windowStartAt then true
    else match FirstOffsetAfter(lastAttemptLocal.value - windowStartAt, RETRY_OFFSETS)
      case Some(offset) => nowLocal >= windowStartAt + offset
      case None => false
  }

  // ---- The decision ------------------------------------------------------------------------

  datatype DeviceView = DeviceView(
    udid: string, intervalHours: int, windowStart: Option<string>, windowEnd: Option<string>, onlyWhenCharging: bool,
    overdueDays: int, addedAt: Option<int>, lastSuccessAt: Option<int>, lastAttemptAt: Option<int>,
    lastNudgeAt: Option<int>, lastOverdueAlertAt: Option<int>, lastWindowNoticeAt: Option<int>, running: bool)

  datatype Decision = Decision(startBackup: bool, nudge: bool, overdue: bool, reason: string, notice: bool)

  predicate Stale(last: Option<int>, now: int, threshold: int) {
    last.None? || now - last.value >= threshold
  }

  predicate Due(d: DeviceView, now: int) {
    Stale(d.lastSuccessAt, now, d.intervalHours * HOUR)
  }

  function Shift(t: Option<int>, off: int): Option<int> {
    if t.None? then None else Some(t.value + off)
  }

  /** Whether the retry schedule lets the device start now; false outside the window. */
  predicate SlotOpen(d: DeviceView, now: int, off: int, inside: bool) {
    && inside && d.windowStart.Some? && ParseHhmm(d.windowStart.value).Ok?
    && AttemptAllowed(now + off, LastStart(now + off, ParseHhmm(d.windowStart.value).value),
      Shift(d.lastAttemptAt, off))
  }

  predicate ChargingOk(d: DeviceView, charging: Option<bool>) {
    !d.onlyWhenCharging || charging == Some(true)
  }

  predicate OverdueSpan(d: DeviceView, now: int) {
    if d.lastSuccessAt.Some? then now - d.lastSuccessAt.value >= d.overdueDays * DAY
    else d.addedAt.Some? && now - d.addedAt.value >= d.overdueDays * DAY
  }

  /** Seconds until the next occurrence, compared exactly where the source divides by 60. */
  predicate NoticeDue(d: DeviceView, now: int, off: int, inside: bool, lead: int) {
    && Due(d, now) && !inside && d.windowStart.Some? && d.windowEnd.Some? && ParseHhmm(d.windowStart.value).Ok?
    && var next := NoticeIdentity(ParseHhmm(d.windowStart.value).value, now, off);
       0 <= next - now <= lead * MINUTE && d.lastWindowNoticeAt != Some(next)
  }

  function Reason(due: bool, start: bool, reachable: bool, inside: bool, slotOpen: bool, chargingOk: bool): string {
    if !due then "Last backup is within the interval; nothing due."
    else if start then "Due, reachable, inside the window and charging requirement met; starting the backup."
    else if !reachable then "Due, but the device is not reachable."
    else if !inside then "Due, but outside the scheduled window."
    else if !slotOpen then "Due, inside the window, but the next scheduled attempt has not arrived yet."
    else if !chargingOk then "Due, but charging is required and the device is not confirmed to be charging."
    else "Due, but blocked."
  }

  function Messages(overdue: bool, nudge: bool, notice: bool): string {
    (if overdue then " Overdue alert is due." else "")
    + (if nudge then " Sending a reminder." else "")
    + (if notice then " Sending the pre-attempt notice." else "")
  }

  function Decide(d: DeviceView, now: int, off: int, reachable: bool, charging: Option<bool>,
        lead: int): Result<Decision, ValueError> {
    if d.running then Ok(Decision(false, false, false, "A backup is already running for this device.", false))
    else
      var window := InWindow(now + off, d.windowStart, d.windowEnd);
      if window.Err? then Err(window.error)
      else
        var due, inside := Due(d, now), window.value;
        var chargingOk, slotOpen := ChargingOk(d, charging), SlotOpen(d, now, off, inside);
        var start := due && reachable && inside && chargingOk && slotOpen;
        var nudge := due && !start && Stale(d.lastNudgeAt, now, d.intervalHours * HOUR);
        var overdue := OverdueSpan(d, now) && Stale(d.lastOverdueAlertAt, now, OVERDUE_ALERT_COOLDOWN);
        var notice := NoticeDue(d, now, off, inside, lead);
        var reason := Reason(due, start, reachable, inside, slotOpen, chargingOk) + Messages(overdue, nudge, notice);
        Ok(Decision(start, nudge, overdue, reason, notice))
  }

  // ---- Window arithmetic -------------------------------------------------------------------

  function WindowLength(start: int, end: int): int {
    if start == end then DAY else (end - start) % DAY
  }

  /** Same-day, midnight-crossing and equal bounds alike: inside means within the length of the last start, outside
      means between that end and the next start. */
  lemma WindowArithmetic(nowLocal: int, start: int, end: int)
    requires 0 <= start < DAY && 0 <= end < DAY
    ensures var last, next := LastStart(nowLocal, start), NextStart(nowLocal, start);
      && last % DAY == start && next % DAY == start && last <= nowLocal <= next && nowLocal < last + DAY
      && next == (if last == nowLocal then last else last + DAY)
      && 0 < WindowLength(start, end) <= DAY
      && (Inside(nowLocal % DAY, start, end) <==> nowLocal < last + WindowLength(start, end))
      && (!Inside(nowLocal % DAY, start, end) ==> last + WindowLength(start, end) <= nowLocal < next)
  {
    var day := nowLocal - nowLocal % DAY;
    assert day == DAY * (nowLocal / DAY);
    ClockOfShift(nowLocal / DAY, start);
    ClockOfShift(nowLocal / DAY - 1, start);
    ClockOfShift(nowLocal / DAY + 1, start);
    assert start < end ==> WindowLength(start, end) == end - start;
    assert end < start ==> WindowLength(start, end) == end - start + DAY by {
      if end < start {
        ClockOfShift(-1, end - start + DAY);
      }
    }
  }

  lemma ClockOfShift(days: int, clock: int)
    requires 0 <= clock < DAY
    ensures (DAY * days + clock) % DAY == clock
  {
  }

  /** The next occurrence only moves forward. */
  lemma NextStartMonotone(a: int, b: int, start: int)
    requires a <= b && 0 <= start < DAY
    ensures NextStart(a, start) <= NextStart(b, start)
  {
    assert a - a % DAY == DAY * (a / DAY) && b - b % DAY == DAY * (b / DAY);
    assert a / DAY <= b / DAY;
  }
}

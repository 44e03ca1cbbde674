/** The tick: the lease that lets one worker run it, and the pass over the devices that acts on each decision. */
module Ticker {
  import opened Wrappers
  import opened Timestamps
  import opened Schedule

  // ---- The lease ---------------------------------------------------------------------------

  /** The settings row 'tick_lease', which every worker compares and replaces as text. */
  class Lease {
    var value: string

    constructor ()
      ensures value == "1970-01-01T00:00:00Z"
    {
      value := "1970-01-01T00:00:00Z";
    }

    method Acquire(now: int, interval: int) returns (acquired: bool)
      modifies this
      ensures acquired <==> LeaseFree(old(value), now, interval)
      ensures value == if acquired then Iso(now) else old(value)
    {
      acquired := TextLess(value, Iso(now - interval));
      if acquired {
        value := Iso(now);
      }
    }
  }

  predicate LeaseFree(value: string, now: int, interval: int) {
    TextLess(value, Iso(now - interval))
  }

  /** The instants at which a run of attempts, by any workers, acquires the lease. */
  function Acquisitions(value: string, attempts: seq<int>, interval: int): seq<int>
    decreases |attempts|
  {
    hide *;
    if attempts == [] then []
    else if LeaseFree(value, attempts[0], interval)
    then [attempts[0]] + Acquisitions(Iso(attempts[0]), attempts[1..], interval)
    else Acquisitions(value, attempts[1..], interval)
  }

  predicate MoreThanApart(times: seq<int>, gap: int) {
    forall i :: 0 <= i < |times| - 1 ==> times[i] + gap < times[i + 1]
  }

  predicate InRange(attempts: seq<int>, interval: int) {
    forall i :: 0 <= i < |attempts| ==> FourDigitYear(attempts[i]) && FourDigitYear(attempts[i] - interval)
  }

  /** Successive acquisitions lie strictly more than the interval apart, whoever asks and whatever the clocks do. */
  lemma {:induction false} LeaseSpacing(last: int, attempts: seq<int>, interval: int)
    requires FourDigitYear(last) && InRange(attempts, interval)
    ensures MoreThanApart([last] + Acquisitions(Iso(last), attempts, interval), interval)
    decreases |attempts|
  {
    hide Iso, FourDigitYear;
    if attempts == [] {
    } else {
      var now := attempts[0];
      assert FourDigitYear(now) && FourDigitYear(now - interval);
      assert InRange(attempts[1..], interval);
      IsoOrder(last, now - interval);
      if LeaseFree(Iso(last), now, interval) {
        LeaseSpacing(now, attempts[1..], interval);
        var rest := [now] + Acquisitions(Iso(now), attempts[1..], interval);
        assert [last] + Acquisitions(Iso(last), attempts, interval) == [last] + rest;
        assert forall i :: 0 < i < |rest| ==> ([last] + rest)[i] == rest[i - 1];
      } else {
        LeaseSpacing(last, attempts[1..], interval);
        assert Acquisitions(Iso(last), attempts, interval) == Acquisitions(Iso(last), attempts[1..], interval);
      }
    }
  }

  /** The lease is never lost: an attempt more than the interval after the last acquisition always succeeds. */
  lemma LeaseIsFreeAfterInterval(last: int, now: int, interval: int)
    requires FourDigitYear(last) && FourDigitYear(now) && FourDigitYear(now - interval)
    ensures Acquisitions(Iso(last), [now], interval) == (if last + interval < now then [now] else [])
  {
    hide Iso, FourDigitYear;
    IsoOrder(last, now - interval);
    assert [now][1..] == [];
  }

  // ---- The charging probe ------------------------------------------------------------------

  /** Whether the optimistic pass asks the device for its charging state. */
  predicate Probes(d: DeviceView, now: int, off: int, reachable: bool, lead: int) {
    d.onlyWhenCharging
    && var optimistic := Decide(d, now, off, reachable, Some(true), lead);
       optimistic.Ok? && optimistic.value.startBackup
  }

  /** The decision of the tick: `charging` is what a probe would say. */
  function LazyDecide(d: DeviceView, now: int, off: int, reachable: bool, charging: Option<bool>,
        lead: int): Result<Decision, ValueError> {
    Decide(d, now, off, reachable, if Probes(d, now, off, reachable, lead) then charging else None, lead)
  }

  /** Probing only when needed gives the identical decision, reason text included, to always probing, and it probes
      exactly when the answer decides the outcome. */
  lemma LazyProbeIsExact(d: DeviceView, now: int, off: int, reachable: bool, charging: Option<bool>, lead: int)
    ensures LazyDecide(d, now, off, reachable, charging, lead) == Decide(d, now, off, reachable, charging, lead)
    ensures Probes(d, now, off, reachable, lead)
       <==> Decide(d, now, off, reachable, Some(true), lead) != Decide(d, now, off, reachable, Some(false), lead)
  {
    ChargingMattersOnlyAtStart(d, now, off, reachable, charging, lead);
    ChargingMattersOnlyAtStart(d, now, off, reachable, Some(false), lead);
  }

  lemma ChargingMattersOnlyAtStart(d: DeviceView, now: int, off: int, reachable: bool, charging: Option<bool>,
        lead: int)
    ensures !Probes(d, now, off, reachable, lead) ==>
      && Decide(d, now, off, reachable, charging, lead) == Decide(d, now, off, reachable, None, lead)
      && Decide(d, now, off, reachable, charging, lead) == Decide(d, now, off, reachable, Some(true), lead)
    ensures Probes(d, now, off, reachable, lead) && charging != Some(true) ==>
      var r := Decide(d, now, off, reachable, charging, lead); r.Ok? && !r.value.startBackup
  {
    if !Probes(d, now, off, reachable, lead) {
      UnprobedIsOptimistic(d, now, off, reachable, charging, lead);
      UnprobedIsOptimistic(d, now, off, reachable, None, lead);
    } else if charging != Some(true) {
      ProbedNeedsCharging(d, now, off, reachable, charging, lead);
    }
    hide Decide, Probes;
  }

  /** Without a probe every other condition already failed, or charging does not matter: any answer gives the
      optimistic one. */
  lemma UnprobedIsOptimistic(d: DeviceView, now: int, off: int, reachable: bool, charging: Option<bool>, lead: int)
    requires !Probes(d, now, off, reachable, lead)
    ensures Decide(d, now, off, reachable, charging, lead) == Decide(d, now, off, reachable, Some(true), lead)
  {
    hide InWindow, Due, SlotOpen, OverdueSpan, Stale, NoticeDue;
  }

  lemma ProbedNeedsCharging(d: DeviceView, now: int, off: int, reachable: bool, charging: Option<bool>, lead: int)
    requires Probes(d, now, off, reachable, lead) && charging != Some(true)
    ensures var r := Decide(d, now, off, reachable, charging, lead); r.Ok? && !r.value.startBackup
  {
    hide InWindow, Due, SlotOpen, OverdueSpan, Stale, NoticeDue, Reason;
  }

  // ---- The pass over the devices -----------------------------------------------------------

  datatype Stamps = Stamps(nudge: Option<int>, overdue: Option<int>, notice: Option<int>)

  datatype Alert =
    | Overdue(udid: string, reason: string)
    | Nudge(udid: string, reason: string)
    | Upcoming(udid: string, minutes: int)

  /** The three cooldown stamps after a decision; an alert stamps the attempt, not the arrival. */
  function Stamped(s: Stamps, d: DeviceView, now: int, off: int, r: Result<Decision, ValueError>): Stamps {
    if r.Err? then s
    else
      Stamps(if r.value.nudge then Some(now) else s.nudge,
             if r.value.overdue then Some(now) else s.overdue,
             if r.value.notice && d.windowStart.Some? && ParseHhmm(d.windowStart.value).Ok?
             then Some(NoticeIdentity(ParseHhmm(d.windowStart.value).value, now, off)) else s.notice)
  }

  /** round() halves to even, as Python's does, on seconds over 60. */
  function RoundMinutes(seconds: int): int {
    var q, r := seconds / 60, seconds % 60;
    if r < 30 || (r == 30 && q % 2 == 0) then q else q + 1
  }

  function AlertsOf(d: DeviceView, now: int, off: int, r: Result<Decision, ValueError>): seq<Alert> {
    if r.Err? then []
    else
      (if r.value.overdue then [Overdue(d.udid, r.value.reason)] else [])
      + (if r.value.nudge then [Nudge(d.udid, r.value.reason)] else [])
      + (if r.value.notice && d.windowStart.Some? && ParseHhmm(d.windowStart.value).Ok?
         then var m := RoundMinutes(NoticeIdentity(ParseHhmm(d.windowStart.value).value, now, off) - now);
              [Upcoming(d.udid, if m < 0 then 0 else m)] else [])
  }

  /** One row per device. */
  predicate OneViewEach(views: seq<DeviceView>) {
    forall i, j :: 0 <= i < j < |views| ==> views[i].udid != views[j].udid
  }

  function DecisionOf(d: DeviceView, now: int, off: int, seen: set<string>, charging: map<string, bool>,
        lead: int): Result<Decision, ValueError> {
    LazyDecide(d, now, off, d.udid in seen, if d.udid in charging then Some(charging[d.udid]) else None, lead)
  }

  function AllAlerts(views: seq<DeviceView>, now: int, off: int, seen: set<string>, charging: map<string, bool>,
        lead: int): seq<Alert> {
    if views == [] then []
    else
      var d := views[|views| - 1];
      AllAlerts(views[..|views| - 1], now, off, seen, charging, lead)
      + AlertsOf(d, now, off, DecisionOf(d, now, off, seen, charging, lead))
  }

  function AllStarts(views: seq<DeviceView>, now: int, off: int, seen: set<string>, charging: map<string, bool>,
        lead: int): seq<string> {
    if views == [] then []
    else
      var d := views[|views| - 1];
      var r := DecisionOf(d, now, off, seen, charging, lead);
      AllStarts(views[..|views| - 1], now, off, seen, charging, lead)
      + if r.Ok? && r.value.startBackup then [d.udid] else []
  }

  predicate HasView(views: seq<DeviceView>, udid: string) {
    exists i :: 0 <= i < |views| && views[i].udid == udid
  }

  lemma ViewAppended(views: seq<DeviceView>, i: nat)
    requires OneViewEach(views) && i < |views|
    ensures !HasView(views[..i], views[i].udid)
    ensures forall u :: HasView(views[..i + 1], u) <==> HasView(views[..i], u) || u == views[i].udid
  {
    assert views[..i + 1][i] == views[i];
    assert forall j :: 0 <= j < i ==> views[..i + 1][j] == views[..i][j];
  }

  lemma AlertsAppended(views: seq<DeviceView>, i: nat, now: int, off: int, seen: set<string>,
        charging: map<string, bool>, lead: int)
    requires i < |views|
    ensures AllAlerts(views[..i + 1], now, off, seen, charging, lead)
         == AllAlerts(views[..i], now, off, seen, charging, lead)
            + AlertsOf(views[i], now, off, DecisionOf(views[i], now, off, seen, charging, lead))
  {
    assert views[..i + 1][..i] == views[..i];
    hide AlertsOf, DecisionOf;
  }

  lemma StartsAppended(views: seq<DeviceView>, i: nat, now: int, off: int, seen: set<string>,
        charging: map<string, bool>, lead: int)
    requires i < |views|
    ensures var r := DecisionOf(views[i], now, off, seen, charging, lead);
      AllStarts(views[..i + 1], now, off, seen, charging, lead)
      == AllStarts(views[..i], now, off, seen, charging, lead)
         + if r.Ok? && r.value.startBackup then [views[i].udid] else []
  {
    assert views[..i + 1][..i] == views[..i];
    hide DecisionOf;
  }

  lemma NoViews(views: seq<DeviceView>, now: int, off: int, seen: set<string>, charging: map<string, bool>, lead: int)
    ensures AllAlerts(views[..0], now, off, seen, charging, lead) == []
      && AllStarts(views[..0], now, off, seen, charging, lead) == []
    ensures forall u :: !HasView(views[..0], u)
  {
  }

  class TickState {
    var stamps: map<string, Stamps>

    constructor (stamps: map<string, Stamps>)
      ensures this.stamps == stamps
    {
      this.stamps := stamps;
    }

    /** One tick: a device with a malformed window is skipped, every other one is decided and its alerts stamped. */
    method Tick(views: seq<DeviceView>, now: int, off: int, seen: set<string>, charging: map<string, bool>, lead: int)
      returns (decisions: map<string, Decision>, starts: seq<string>, alerts: seq<Alert>)
      requires OneViewEach(views) && forall i :: 0 <= i < |views| ==> views[i].udid in stamps
      modifies this
      ensures stamps.Keys == old(stamps.Keys)
      ensures forall i :: 0 <= i < |views| ==>
        var r := DecisionOf(views[i], now, off, seen, charging, lead);
        && stamps[views[i].udid] == Stamped(old(stamps)[views[i].udid], views[i], now, off, r)
        && (views[i].udid in decisions <==> r.Ok?)
        && (r.Ok? ==> decisions[views[i].udid] == r.value)
      ensures forall u :: !HasView(views, u) ==> u !in decisions && (u in stamps ==> stamps[u] == old(stamps)[u])
      ensures starts == AllStarts(views, now, off, seen, charging, lead)
      ensures alerts == AllAlerts(views, now, off, seen, charging, lead)
    {
      hide DecisionOf, Stamped, AlertsOf, AllAlerts, AllStarts, HasView;
      decisions, starts, alerts := map[], [], [];
      NoViews(views, now, off, seen, charging, lead);
      var i := 0;
      while i < |views|
        invariant 0 <= i <= |views| && stamps.Keys == old(stamps.Keys)
        invariant forall j :: 0 <= j < i ==>
          var r := DecisionOf(views[j], now, off, seen, charging, lead);
          && stamps[views[j].udid] == Stamped(old(stamps)[views[j].udid], views[j], now, off, r)
          && (views[j].udid in decisions <==> r.Ok?)
          && (r.Ok? ==> decisions[views[j].udid] == r.value)
        invariant forall u :: !HasView(views[..i], u) ==>
          u !in decisions && (u in stamps ==> stamps[u] == old(stamps)[u])
        invariant starts == AllStarts(views[..i], now, off, seen, charging, lead)
        invariant alerts == AllAlerts(views[..i], now, off, seen, charging, lead)
      {
        var d := views[i];
        var r := DecisionOf(d, now, off, seen, charging, lead);
        if r.Ok? {
          decisions := decisions[d.udid := r.value];
          if r.value.startBackup {
            starts := starts + [d.udid];
          }
        }
        stamps := stamps[d.udid := Stamped(stamps[d.udid], d, now, off, r)];
        alerts := alerts + AlertsOf(d, now, off, r);
        AlertsAppended(views, i, now, off, seen, charging, lead);
        StartsAppended(views, i, now, off, seen, charging, lead);
        ViewAppended(views, i);
        i := i + 1;
      }
      assert views[..i] == views;
    }
  }
}

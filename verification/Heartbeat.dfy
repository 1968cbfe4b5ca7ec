/**
 The controller's connection watchdog (control_service.rs): a reader task that notes activity, and a task that wakes
 once a second, pings a silent server and gives up on a dead one.  Times are in nanoseconds.
 */
module Heartbeat {
  import opened Options

  const SECOND: int := 1_000_000_000

  /** The activity time after a read that tests it at t and, if it is stale, overwrites it at u. */
  function Stamp(lastActive: int, t: int, u: int): int {
    if t - lastActive >= SECOND then u else lastActive
  }

  predicate Silent(lastActive: int, t: int) {
    t - lastActive >= 5 * SECOND
  }

  predicate Dead(lastActive: int, t: int) {
    t - lastActive > 15 * SECOND
  }

  class ActivityTime {
    var lastActive: int

    constructor (now: int)
      ensures lastActive == now
    {
      lastActive := now;
    }

    /** The reader task after a read: what is stored lags the read by less than a second. */
    method OnRead(t: int, u: int)
      requires t <= u
      modifies this
      ensures lastActive == Stamp(old(lastActive), t, u)
      ensures old(lastActive) <= t ==> old(lastActive) <= lastActive && t - SECOND < lastActive <= u
      ensures lastActive == old(lastActive) || lastActive - old(lastActive) >= SECOND
    {
      if t - lastActive >= SECOND {
        lastActive := u;
      }
    }
  }

  datatype Phase = Sleeping | Deciding | Pinging

  datatype State = State(
    now: int,
    lastActive: int,
    lastRead: int,          // the time of the last read that was noted, at first that of the connection
    phase: Phase,
    checked: int,           // the time of the tick under way or the last one
    rested: int,            // the time at which the last tick was over, at first that of the connection
    due: int,               // the time by which the tick under way or the next one is over
    pinged: Option<int>,    // the first ping since the last read
    closed: bool)

  datatype Event =
      /** Bytes came in at t and were noted at u; ticks may fall between the two. */
    | Read(t: int, u: int)
    | Check(t: int)
    | Decided(t: int)
    | Ping(t: int)

  function Start(now: int, gap: int): State {
    State(now, now, now, Sleeping, now, now, now + gap, None, false)
  }

  function Time(e: Event): int {
    if e.Read? then e.u else e.t
  }

  /**
   What can happen: time does not run backwards, the ping task gets on in its order and sleeps at least a second before
   each tick, and, as long as it is not closed, each tick is over at most gap after the one before it began.
   */
  predicate Possible(s: State, e: Event) {
    && !s.closed && s.now <= Time(e) <= s.due
    && match e
       case Read(t, u) => s.lastRead <= t <= u && (t - s.lastActive < SECOND ==> t == u)
       case Check(t) => s.phase == Sleeping && t >= s.rested + SECOND
       case Decided(_) => s.phase == Deciding
       case Ping(_) => s.phase == Pinging
  }

  /** The peer answers a ping within the given time: an event later than that finds a read since the ping. */
  predicate Answered(s: State, e: Event, within: int) {
    s.pinged.Some? ==> Time(e) <= s.pinged.value + within
  }

  function Next(s: State, e: Event, gap: int): State {
    match e
    case Read(t, u) =>
      s.(now := u, lastActive := Stamp(s.lastActive, t, u), lastRead := t, pinged := None)
    case Check(t) =>
      if Silent(s.lastActive, t) then s.(now := t, phase := Deciding, checked := t)
      else s.(now := t, checked := t, rested := t, due := t + gap)
    case Decided(t) =>
      if Dead(s.lastActive, t) then s.(now := t, closed := true) else s.(now := t, phase := Pinging)
    case Ping(t) =>
      s.(now := t, phase := Sleeping, rested := t, due := s.checked + gap,
         pinged := if s.pinged.None? then Some(t) else s.pinged)
  }

  predicate Run(s: State, events: seq<Event>, gap: int)
    decreases |events|
  {
    events == [] || (Possible(s, events[0]) && Run(Next(s, events[0], gap), events[1..], gap))
  }

  predicate AllAnswered(s: State, events: seq<Event>, gap: int, within: int)
    decreases |events|
  {
    || events == []
    || (Answered(s, events[0], within) && AllAnswered(Next(s, events[0], gap), events[1..], gap, within))
  }

  function After(s: State, events: seq<Event>, gap: int): State
    decreases |events|
  {
    if events == [] then s else After(Next(s, events[0], gap), events[1..], gap)
  }

  /** The activity time lags the last read by less than a second, the present by no more than the deadline allows. */
  predicate Fresh(s: State, gap: int) {
    && s.lastActive <= s.now && s.lastRead <= s.now && s.lastRead - SECOND < s.lastActive
    && s.checked <= s.now && s.due <= s.checked + gap
    && s.due <= s.lastActive + 15 * SECOND + gap
    && (s.phase == Pinging ==> s.checked <= s.lastActive + 15 * SECOND)
  }

  lemma FreshStep(s: State, e: Event, gap: int)
    requires 0 <= gap && Fresh(s, gap) && Possible(s, e)
    ensures Fresh(Next(s, e, gap), gap)
  {
  }

  lemma {:induction false} FreshRun(s: State, events: seq<Event>, gap: int)
    requires 0 <= gap && Fresh(s, gap) && Run(s, events, gap)
    ensures Fresh(After(s, events, gap), gap)
    decreases |events|
  {
    if events != [] {
      FreshStep(s, events[0], gap);
      FreshRun(Next(s, events[0], gap), events[1..], gap);
    }
  }

  lemma {:induction false} ClosedMeansDead(s: State, events: seq<Event>, gap: int)
    requires 0 <= gap && Fresh(s, gap) && Run(s, events, gap)
    requires s.closed ==> Dead(s.lastActive, s.now)
    ensures After(s, events, gap).closed ==> Dead(After(s, events, gap).lastActive, After(s, events, gap).now)
    decreases |events|
  {
    if events != [] {
      FreshStep(s, events[0], gap);
      ClosedMeansDead(Next(s, events[0], gap), events[1..], gap);
    }
  }

  /**
   In every timed run the activity time lags the last noted read by less than a second, a ping timeout means more than
   fourteen seconds without one, and a dead server is noticed one tick after fifteen seconds.
   */
  lemma TimeoutMeansSilence(start: int, events: seq<Event>, gap: int)
    requires 0 <= gap && Run(Start(start, gap), events, gap)
    ensures
      var s := After(Start(start, gap), events, gap);
      && s.lastRead < s.lastActive + SECOND
      && (s.closed ==> s.now - s.lastRead > 14 * SECOND)
      && s.now <= s.lastActive + 15 * SECOND + gap
  {
    FreshRun(Start(start, gap), events, gap);
    ClosedMeansDead(Start(start, gap), events, gap);
    NowDue(Start(start, gap), events, gap);
  }

  lemma {:induction false} NowDue(s: State, events: seq<Event>, gap: int)
    requires 0 <= gap && Fresh(s, gap) && s.now <= s.due && Run(s, events, gap)
    ensures After(s, events, gap).now <= After(s, events, gap).due
    decreases |events|
  {
    if events != [] {
      FreshStep(s, events[0], gap);
      NowDue(Next(s, events[0], gap), events[1..], gap);
    }
  }

  /** The stored time moves only in steps of at least a second: in every run two different ones are that far apart. */
  lemma {:induction false} StampsApart(s: State, events: seq<Event>, gap: int)
    requires Run(s, events, gap)
    ensures
      var s' := After(s, events, gap);
      s'.lastActive == s.lastActive || s'.lastActive >= s.lastActive + SECOND
    decreases |events|
  {
    if events != [] {
      StampsApart(Next(s, events[0], gap), events[1..], gap);
    }
  }

  // ----- When a peer that answers is given up -----

  /**
   Ticks up to gap apart and answers that take up to within are slow enough together: the ping can come so late and the
   ticks until its answer can reach so far that fifteen seconds are exceeded.  A tick takes at least a second, so there
   are at most within / SECOND ticks between a ping and its answer.
   */
  predicate TooSlow(gap: int, within: int)
    requires within >= 0
  {
    && gap >= SECOND && gap + within >= 10 * SECOND + 2
    && (within / SECOND + 1) * gap >= 10 * SECOND + 2
  }

  /**
   A ping goes out before the server has been silent for five seconds and one tick; n checks later, at least n seconds
   have passed, and the ticks reach at most so far.
   */
  predicate PingsInTime(s: State, gap: int, n: nat) {
    && !s.closed && s.rested <= s.now
    && match s.pinged
       case None => s.due < s.lastActive + 5 * SECOND + gap
       case Some(p) =>
         && p < s.lastActive + 5 * SECOND + gap
         && (if s.phase == Sleeping then s.rested >= p + n * SECOND else s.checked >= p + n * SECOND)
         && s.due < s.lastActive + 5 * SECOND + (if s.phase == Sleeping then n + 2 else n + 1) * gap
  }

  /** The number of checks since the first ping after an event. */
  function Checks(s: State, e: Event, n: nat): nat {
    if s.pinged.None? then 0 else if e.Check? then n + 1 else n
  }

  lemma CheckStep(s: State, t: int, gap: int, n: nat)
    requires 0 <= gap && Fresh(s, gap) && PingsInTime(s, gap, n) && Possible(s, Check(t)) && s.pinged.Some?
    ensures PingsInTime(Next(s, Check(t), gap), gap, n + 1)
  {
    assert (n + 1) * SECOND == n * SECOND + SECOND;
    assert (n + 1 + 2) * gap == (n + 2) * gap + gap && (n + 1 + 1) * gap == (n + 2) * gap;
  }

  lemma PingStep(s: State, t: int, gap: int, n: nat)
    requires 0 <= gap && Fresh(s, gap) && PingsInTime(s, gap, n) && Possible(s, Ping(t))
    ensures PingsInTime(Next(s, Ping(t), gap), gap, if s.pinged.None? then 0 else n)
  {
    assert (n + 2) * gap == (n + 1) * gap + gap;
  }

  /** n ticks that reach far enough before the answer is due. */
  lemma ReachTooSlow(gap: int, within: int, n: nat)
    requires 0 <= within && gap >= SECOND && gap + within >= 10 * SECOND + 2
    requires n * SECOND <= within && (n + 1) * gap >= 10 * SECOND + 2
    ensures TooSlow(gap, within)
  {
    var k := within / SECOND;
    assert n <= k;
    assert (k - n) * gap >= 0;
    assert (k + 1) * gap == (n + 1) * gap + (k - n) * gap;
  }

  /** A decision to give up falls before the answer is due and into the tick under way. */
  lemma DecisionStep(s: State, t: int, gap: int, within: int, n: nat)
    requires 0 <= within && gap >= SECOND
    requires Fresh(s, gap) && PingsInTime(s, gap, n) && Possible(s, Decided(t)) && Answered(s, Decided(t), within)
    ensures Dead(s.lastActive, t) ==> TooSlow(gap, within)
  {
    if Dead(s.lastActive, t) {
      if s.pinged.None? {
        ReachTooSlow(gap, within, 0);
      } else {
        assert gap + within >= 10 * SECOND + 2;
        ReachTooSlow(gap, within, n);
      }
    }
  }

  lemma AliveStep(s: State, e: Event, gap: int, within: int, n: nat)
    requires 0 <= within && !TooSlow(gap, within) && gap >= SECOND
    requires Fresh(s, gap) && PingsInTime(s, gap, n) && Possible(s, e) && Answered(s, e, within)
    ensures PingsInTime(Next(s, e, gap), gap, Checks(s, e, n))
  {
    match e
    case Read(_, _) =>
    case Check(t) =>
      if s.pinged.Some? {
        CheckStep(s, t, gap, n);
      }
    case Decided(t) => DecisionStep(s, t, gap, within, n);
    case Ping(t) => PingStep(s, t, gap, n);
  }

  lemma {:induction false} AliveRun(s: State, events: seq<Event>, gap: int, within: int, n: nat)
    requires 0 <= within && !TooSlow(gap, within) && gap >= SECOND
    requires Fresh(s, gap) && PingsInTime(s, gap, n) && Run(s, events, gap) && AllAnswered(s, events, gap, within)
    ensures !After(s, events, gap).closed
    decreases |events|
  {
    if events != [] {
      FreshStep(s, events[0], gap);
      AliveStep(s, events[0], gap, within, n);
      AliveRun(Next(s, events[0], gap), events[1..], gap, within, Checks(s, events[0], n));
    }
  }

  /** If the next tick would have to be over before the sleep is, there is no next tick. */
  lemma {:induction false} NoTick(s: State, events: seq<Event>, gap: int)
    requires !s.closed && s.phase == Sleeping && s.due < s.rested + SECOND && Run(s, events, gap)
    ensures !After(s, events, gap).closed
    decreases |events|
  {
    if events != [] {
      NoTick(Next(s, events[0], gap), events[1..], gap);
    }
  }

  /**
   If ticks follow each other within gap, every ping is answered within the given time, and the two are not too slow
   together, the connection is never given up.
   */
  lemma AnsweredNeverTimesOut(start: int, events: seq<Event>, gap: int, within: int)
    requires 0 <= within && !TooSlow(gap, within)
    requires Run(Start(start, gap), events, gap) && AllAnswered(Start(start, gap), events, gap, within)
    ensures !After(Start(start, gap), events, gap).closed
  {
    if gap >= SECOND {
      AliveRun(Start(start, gap), events, gap, within, 0);
    } else {
      NoTick(Start(start, gap), events, gap);
    }
  }

  /** A run from s in which every ping is answered in time and which is nevertheless given up. */
  ghost predicate GivesUp(s: State, events: seq<Event>, gap: int, within: int) {
    Run(s, events, gap) && AllAnswered(s, events, gap, within) && After(s, events, gap).closed
  }

  lemma Before(s: State, e: Event, rest: seq<Event>, gap: int, within: int)
    requires Possible(s, e) && Answered(s, e, within) && GivesUp(Next(s, e, gap), rest, gap, within)
    ensures GivesUp(s, [e] + rest, gap, within)
  {
    assert ([e] + rest)[1..] == rest;
  }

  lemma Last(s: State, e: Event, gap: int, within: int)
    requires Possible(s, e) && Answered(s, e, within) && Next(s, e, gap).closed
    ensures GivesUp(s, [e], gap, within)
  {
    assert [e][1..] == [];
  }

  /** Between ticks, the last of which is just over. */
  predicate Between(s: State, gap: int) {
    && !s.closed && s.phase == Sleeping && s.now == s.checked == s.rested && s.due == s.checked + gap
  }

  /** The same a tick at t later that only looks, or that pings. */
  function TickedAt(s: State, t: int, gap: int, pinged: Option<int>): State {
    s.(now := t, checked := t, rested := t, due := t + gap, pinged := pinged)
  }

  /** The tick that gives up: after fifteen seconds and before any answer is due. */
  lemma FinalTick(s: State, t: int, gap: int, within: int) returns (events: seq<Event>)
    requires Between(s, gap) && s.now + SECOND <= t <= s.due && Dead(s.lastActive, t)
    requires s.pinged.Some? ==> t <= s.pinged.value + within
    ensures GivesUp(s, events, gap, within)
  {
    var s1 := Next(s, Check(t), gap);
    Last(s1, Decided(t), gap, within);
    Before(s, Check(t), [Decided(t)], gap, within);
    events := [Check(t)] + [Decided(t)];
  }

  /** A tick at t that pings, and what follows it. */
  lemma PingingTick(s: State, t: int, rest: seq<Event>, gap: int, within: int) returns (events: seq<Event>)
    requires Between(s, gap) && s.now + SECOND <= t <= s.due && Silent(s.lastActive, t) && !Dead(s.lastActive, t)
    requires s.pinged.Some? ==> t <= s.pinged.value + within
    requires GivesUp(TickedAt(s, t, gap, if s.pinged.None? then Some(t) else s.pinged), rest, gap, within)
    ensures GivesUp(s, events, gap, within)
  {
    var s1 := Next(s, Check(t), gap);
    var s2 := Next(s1, Decided(t), gap);
    Before(s2, Ping(t), rest, gap, within);
    Before(s1, Decided(t), [Ping(t)] + rest, gap, within);
    Before(s, Check(t), [Decided(t)] + ([Ping(t)] + rest), gap, within);
    events := [Check(t)] + ([Decided(t)] + ([Ping(t)] + rest));
  }

  /** A tick at t that finds no silence, and what follows it. */
  lemma QuietTick(s: State, t: int, rest: seq<Event>, gap: int, within: int) returns (events: seq<Event>)
    requires Between(s, gap) && s.now + SECOND <= t <= s.due && !Silent(s.lastActive, t) && s.pinged.None?
    requires GivesUp(TickedAt(s, t, gap, None), rest, gap, within)
    ensures GivesUp(s, events, gap, within)
  {
    Before(s, Check(t), rest, gap, within);
    events := [Check(t)] + rest;
  }

  /** n steps between a second and gap can cover reach within left. */
  predicate Feasible(reach: int, left: int, gap: int, n: nat) {
    reach <= left && n * SECOND <= left && reach <= n * gap
  }

  /** The shortest first step that leaves the rest feasible. */
  lemma FirstStep(reach: int, left: int, gap: int, n: nat) returns (d: int)
    requires gap >= SECOND && n >= 1 && Feasible(reach, left, gap, n) && reach > gap
    ensures SECOND <= d <= gap && d <= left && n >= 2 && Feasible(reach - d, left - d, gap, n - 1)
  {
    var m, x := n - 1, (n - 1) * gap;
    assert n * gap == x + gap && n * SECOND == m * SECOND + SECOND;
    assert m * (gap - SECOND) >= 0 && m * (gap - SECOND) == x - m * SECOND;
    assert m >= 1 by {
      assert m == 0 ==> x == 0;
    }
    assert m * SECOND >= SECOND;
    d := if reach - x < SECOND then SECOND else reach - x;
  }

  /**
   After a ping, n ticks can reach past the fifteenth second and need not take longer than the answer: their spacing is
   between a second and gap, chosen so that the last one does both.
   */
  lemma {:induction false} TicksGoOn(s: State, gap: int, within: int, n: nat) returns (events: seq<Event>)
    requires gap >= SECOND && n >= 1 && Between(s, gap) && s.pinged.Some?
    requires Silent(s.lastActive, s.now) && !Dead(s.lastActive, s.now)
    requires Feasible(s.lastActive + 15 * SECOND + 1 - s.now, s.pinged.value + within - s.now, gap, n)
    ensures GivesUp(s, events, gap, within)
    decreases n
  {
    var reach, left := s.lastActive + 15 * SECOND + 1 - s.now, s.pinged.value + within - s.now;
    if reach <= gap {
      assert n * SECOND >= SECOND;
      events := FinalTick(s, s.now + (if reach < SECOND then SECOND else reach), gap, within);
    } else {
      var d := FirstStep(reach, left, gap, n);
      var s' := TickedAt(s, s.now + d, gap, s.pinged);
      var rest := TicksGoOn(s', gap, within, n - 1);
      events := PingingTick(s, s.now + d, rest, gap, within);
    }
  }

  /** From a tick that just missed the fifth second: a ping as late as can be, and the ticks after it. */
  lemma JustMissed(s: State, gap: int, within: int) returns (events: seq<Event>)
    requires within >= 0 && TooSlow(gap, within)
    requires Between(s, gap) && s.pinged.None? && s.now == s.lastActive + 5 * SECOND - 1
    ensures GivesUp(s, events, gap, within)
  {
    if s.lastActive + 15 * SECOND + 1 <= s.due {
      events := FinalTick(s, s.lastActive + 15 * SECOND + 1, gap, within);
    } else {
      var n := within / SECOND;
      assert (n + 1) * gap == n * gap + gap;
      var rest := TicksGoOn(TickedAt(s, s.due, gap, Some(s.due)), gap, within, n);
      events := PingingTick(s, s.due, rest, gap, within);
    }
  }

  /** n ticks a second apart that all find no silence, the last of which just misses the fifth second. */
  lemma {:induction false} QuietTicks(s: State, gap: int, within: int, n: nat) returns (events: seq<Event>)
    requires within >= 0 && TooSlow(gap, within) && n <= 5
    requires Between(s, gap) && s.pinged.None? && s.now == s.lastActive + (5 - n) * SECOND - 1
    ensures GivesUp(s, events, gap, within)
    decreases n
  {
    if n == 0 {
      events := JustMissed(s, gap, within);
    } else {
      var t := s.now + SECOND;
      var rest := QuietTicks(TickedAt(s, t, gap, None), gap, within, n - 1);
      events := QuietTick(s, t, rest, gap, within);
    }
  }

  /**
   The run that gives up: a tick a second after the start, a read one nanosecond later, so that the fifth tick after it
   just misses the fifth second of silence.
   */
  lemma SlowRun(start: int, gap: int, within: int) returns (events: seq<Event>)
    requires within >= 0 && TooSlow(gap, within)
    ensures GivesUp(Start(start, gap), events, gap, within)
  {
    var s0 := Start(start, gap);
    var t := start + SECOND;
    var s1 := TickedAt(s0, t, gap, None);
    var s2 := Next(s1, Read(t + 1, t + 1), gap);
    var s3 := TickedAt(s2, t + SECOND, gap, None);
    var rest := QuietTicks(s3, gap, within, 4);
    Before(s2, Check(t + SECOND), rest, gap, within);
    Before(s1, Read(t + 1, t + 1), [Check(t + SECOND)] + rest, gap, within);
    events := QuietTick(s0, t, [Read(t + 1, t + 1)] + ([Check(t + SECOND)] + rest), gap, within);
  }

  /** A peer that answers every ping within the given time can be given up exactly if ticks and answers are too slow. */
  lemma GivenUpIff(start: int, gap: int, within: int)
    requires within >= 0
    ensures (exists events :: GivesUp(Start(start, gap), events, gap, within)) <==> TooSlow(gap, within)
  {
    if TooSlow(gap, within) {
      var events := SlowRun(start, gap, within);
    } else {
      forall events ensures !GivesUp(Start(start, gap), events, gap, within) {
        if Run(Start(start, gap), events, gap) && AllAnswered(Start(start, gap), events, gap, within) {
          AnsweredNeverTimesOut(start, events, gap, within);
        }
      }
    }
  }

  /** With ticks of one second a peer is safe exactly as long as its answers take less than ten seconds. */
  lemma OneSecondTicks(start: int, within: int)
    requires within >= 0
    ensures (exists events :: GivesUp(Start(start, 1_000_000_000), events, 1_000_000_000, within))
       <==> within >= 10_000_000_000
  {
    GivenUpIff(start, SECOND, within);
  }

  /** One such run: ticks six seconds apart, an answer due after five. */
  lemma SlowTicksTimeOut()
    ensures
      var gap, within := 6 * SECOND, 5 * SECOND;
      var t0, t1, t2 := 49 * SECOND / 10, 109 * SECOND / 10, 159 * SECOND / 10;
      var events := [Check(t0)] + ([Check(t1)] + ([Decided(t1)] + ([Ping(t1)] + ([Check(t2)] + [Decided(t2)]))));
      GivesUp(Start(0, gap), events, gap, within)
  {
    var gap, within := 6 * SECOND, 5 * SECOND;
    var t0, t1, t2 := 49 * SECOND / 10, 109 * SECOND / 10, 159 * SECOND / 10;
    var s1 := Next(Start(0, gap), Check(t0), gap);
    var s2 := Next(s1, Check(t1), gap);
    var s3 := Next(s2, Decided(t1), gap);
    var s4 := Next(s3, Ping(t1), gap);
    var s5 := Next(s4, Check(t2), gap);
    var e4 := [Check(t2)] + [Decided(t2)];
    Last(s5, Decided(t2), gap, within);
    Before(s4, Check(t2), [Decided(t2)], gap, within);
    Before(s3, Ping(t1), e4, gap, within);
    Before(s2, Decided(t1), [Ping(t1)] + e4, gap, within);
    Before(s1, Check(t1), [Decided(t1)] + ([Ping(t1)] + e4), gap, within);
    Before(Start(0, gap), Check(t0), [Check(t1)] + ([Decided(t1)] + ([Ping(t1)] + e4)), gap, within);
  }
}

/** The thread that renews the lock before its lease runs out, with every delay made explicit.  All
    times are in nanoseconds; the clock that the thread looks at moves in steps of several of them. */
module LockKeeper {
  import opened Wrappers

  /** The step of the coarse clock. */
  type Grain = g: nat | 0 < g witness 1

  /** The two settings of the striper, how late a wake-up (including the wait for the mutex) can be,
      how long a lock request can take from sending to reply, and the step of the clock. */
  datatype Timing = Timing(interval: nat, timeout: nat, late: nat, rtt: nat, grain: Grain)

  /** What the clock says at time `now`. */
  function Reading(t: Timing, now: int): int {
    now - now % t.grain
  }

  datatype Phase =
    | Waiting(from: int)                 // in wait_for(), since `from`
    | Renewing(sent: int, landed: bool)  // the renewal was sent; the OSD has handled it or not
    | Stopped                            // the renewal failed; the striper counts as blocklisted

  /** `applied` is when the OSD last granted or renewed the lease, `answered` is when its answer was there
      and `renewed`, which is last_renewal, what the clock said then. */
  datatype Keeper = Keeper(now: int, applied: int, answered: int, renewed: int, phase: Phase)

  datatype Event = Tick(ns: nat) | Wake | Land | Reply

  /** The lock request of lock(), handled at `applied`, has just been answered, within `rtt`.  The keeper counts
      as waiting, since then if it is about to be started or since before if it was running; that lock() still
      holds the mutex, for the rest of a recovery and for open(), is part of how late its next wake-up is. */
  predicate JustLocked(t: Timing, k: Keeper) {
    && k.applied <= k.now <= k.applied + t.rtt && k.answered == k.now && k.renewed == Reading(t, k.now)
    && k.phase.Waiting? && k.phase.from <= k.now <= k.phase.from + t.interval + t.late
  }

  predicate Enabled(t: Timing, k: Keeper, e: Event) {
    match e
    case Tick(ns) =>
      (match k.phase
       case Waiting(from) => k.now + ns <= from + t.interval + t.late
       case Renewing(sent, _) => k.now + ns <= sent + t.rtt
       case Stopped => true)
    // a wait may end early: by its time, by a notification, or for no reason
    case Wake => k.phase.Waiting?
    case Land => k.phase.Renewing? && !k.phase.landed
    case Reply => k.phase.Renewing? && k.phase.landed
  }

  predicate Lapsed(t: Timing, k: Keeper) {
    k.applied + t.timeout < k.now
  }

  function Next(t: Timing, k: Keeper, e: Event): Keeper
    requires Enabled(t, k, e)
  {
    match e
    case Tick(ns) => k.(now := k.now + ns)
    case Wake =>
      if Reading(t, k.now) - k.renewed >= t.interval then k.(phase := Renewing(k.now, false))
      else k.(phase := Waiting(k.now))
    case Land =>
      if Lapsed(t, k) then k.(phase := Stopped)
      else k.(applied := k.now, phase := Renewing(k.phase.sent, true))
    case Reply => k.(answered := k.now, renewed := Reading(t, k.now), phase := Waiting(k.now))
  }

  function Run(t: Timing, k: Keeper, es: seq<Event>): Option<Keeper>
    decreases |es|
  {
    if es == [] then Some(k)
    else if Enabled(t, k, es[0]) then Run(t, Next(t, k, es[0]), es[1..])
    else None
  }

  /** Somewhere in the run a renewal reaches the OSD after the lease has run out. */
  predicate LandsLate(t: Timing, k: Keeper, es: seq<Event>)
    decreases |es|
  {
    es != [] && Enabled(t, k, es[0]) && ((es[0].Land? && Lapsed(t, k)) || LandsLate(t, Next(t, k, es[0]), es[1..]))
  }

  lemma {:induction false} StoppedStays(t: Timing, k: Keeper, es: seq<Event>)
    requires k.phase.Stopped? && Run(t, k, es).Some?
    ensures Run(t, k, es).value.phase.Stopped?
    decreases |es|
  {
    if es != [] { StoppedStays(t, Next(t, k, es[0]), es[1..]); }
  }

  /** The keeper stops, and for good, exactly if a renewal comes too late; a lease that has run out is never
      renewed. */
  lemma {:induction false} StopsExactly(t: Timing, k: Keeper, es: seq<Event>)
    requires !k.phase.Stopped? && Run(t, k, es).Some?
    ensures Run(t, k, es).value.phase.Stopped? <==> LandsLate(t, k, es)
    ensures Lapsed(t, k) ==> Lapsed(t, Run(t, k, es).value) && Run(t, k, es).value.applied == k.applied
    decreases |es|
  {
    if es != [] {
      var n := Next(t, k, es[0]);
      if n.phase.Stopped? {
        StoppedStays(t, n, es[1..]);
        StoppedLapsed(t, n, es[1..]);
      } else {
        StopsExactly(t, n, es[1..]);
      }
    }
  }

  lemma {:induction false} StoppedLapsed(t: Timing, k: Keeper, es: seq<Event>)
    requires k.phase.Stopped? && Lapsed(t, k) && Run(t, k, es).Some?
    ensures Lapsed(t, Run(t, k, es).value) && Run(t, k, es).value.applied == k.applied
    decreases |es|
  {
    if es != [] { StoppedLapsed(t, Next(t, k, es[0]), es[1..]); }
  }

  /** How long after a renewal the keeper can wake up and still find it too early for the next: the last
      step of the clock that is too early, and all of that step. */
  function Slip(t: Timing): nat {
    if t.interval == 0 then 0 else t.grain * ((t.interval - 1) / t.grain) + t.grain - 1
  }

  /** The exact condition on the settings: two intervals, the first of them as far as the clock can stretch
      it, the lateness and two round trips fit into the lease. */
  predicate Ample(t: Timing) {
    Slip(t) + t.interval + t.late + 2 * t.rtt <= t.timeout
  }

  predicate OnTime(t: Timing, k: Keeper) {
    match k.phase
    case Waiting(from) =>
      k.applied <= k.answered <= k.applied + t.rtt && k.renewed == Reading(t, k.answered)
      && from <= k.answered + Slip(t) && k.now <= from + t.interval + t.late
    case Renewing(sent, landed) =>
      if landed then sent <= k.applied <= k.now <= sent + t.rtt
      else k.answered <= k.applied + t.rtt && sent <= k.answered + Slip(t) + t.interval + t.late && sent <= k.now <= sent + t.rtt
    case Stopped => false
  }

  lemma MulMono(g: nat, a: int, b: int)
    requires a <= b
    ensures g * a <= g * b
  {
  }

  lemma DivMono(g: Grain, a: int, b: int)
    requires a <= b
    ensures a / g <= b / g
  {
    var x, y := a / g, b / g;
    assert a == g * x + a % g && b == g * y + b % g;
    assert g * x < g * (y + 1) by { assert g * (y + 1) == g * y + g; }
    Cancel(g, x, y + 1);
  }

  lemma Cancel(g: Grain, x: int, y: int)
    ensures g * x < g * y ==> x < y
  {
    if y <= x { MulMono(g, y, x); }
  }

  lemma DivExact(g: Grain, d: int, r: nat)
    requires r < g
    ensures (g * d + r) / g == d
  {
    var x := (g * d + r) / g;
    assert g * d + r == g * x + (g * d + r) % g;
    assert g * x < g * (d + 1) by { assert g * (d + 1) == g * d + g; }
    assert g * d < g * (x + 1) by { assert g * (x + 1) == g * x + g; }
    Cancel(g, x, d + 1);
    Cancel(g, d, x + 1);
  }

  lemma StepsBelow(g: Grain, d: int, m: nat)
    requires g * d <= m
    ensures g * d <= g * (m / g)
  {
    DivMono(g, g * d, m);
    DivExact(g, d, 0);
    MulMono(g, d, m / g);
  }

  lemma StepsWithin(g: Grain, m: nat, now: nat)
    requires now <= g * (m / g) + (g - 1)
    ensures g * (now / g) <= m
  {
    var q, x := m / g, now / g;
    assert g * q <= m;
    assert x <= q by {
      DivMono(g, now, g * q + (g - 1));
      DivExact(g, q, g - 1);
    }
    MulMono(g, x, q);
  }

  lemma ReadingSteps(t: Timing, now: int)
    ensures Reading(t, now) == t.grain * (now / t.grain) && Reading(t, now) <= now < Reading(t, now) + t.grain
  {
  }

  /** Who finds it too early for the next renewal does so before the slip is over ... */
  lemma EarlyBound(t: Timing, now: int, answered: int)
    requires Reading(t, now) - Reading(t, answered) < t.interval
    ensures t.interval > 0 ==> now <= answered + Slip(t)
  {
    hide Reading;
    ReadingSteps(t, now);
    ReadingSteps(t, answered);
    if t.interval > 0 {
      var d := now / t.grain - answered / t.grain;
      assert t.grain * d == t.grain * (now / t.grain) - t.grain * (answered / t.grain);
      StepsBelow(t.grain, d, t.interval - 1);
    }
  }

  /** ... and can do so as long as it lasts, if the clock has just moved on. */
  lemma EarlyExact(t: Timing, now: nat)
    requires t.interval > 0 && now <= Slip(t)
    ensures Reading(t, now) - Reading(t, 0) < t.interval
  {
    hide Reading;
    ReadingSteps(t, now);
    ReadingSteps(t, 0);
    StepsWithin(t.grain, t.interval - 1, now);
  }

  lemma ReadingGrows(t: Timing, a: int, b: int)
    requires a <= b
    ensures Reading(t, a) <= Reading(t, b)
  {
    hide Reading;
    ReadingSteps(t, a);
    ReadingSteps(t, b);
    DivMono(t.grain, a, b);
    MulMono(t.grain, a / t.grain, b / t.grain);
  }

  lemma StepOnTime(t: Timing, k: Keeper, e: Event)
    requires Ample(t) && OnTime(t, k) && Enabled(t, k, e)
    ensures OnTime(t, Next(t, k, e)) && !Lapsed(t, Next(t, k, e))
  {
    hide Reading;
    if e.Wake? {
      if k.answered <= k.now { ReadingGrows(t, k.answered, k.now); }
      if Reading(t, k.now) - k.renewed < t.interval { EarlyBound(t, k.now, k.answered); }
    }
  }

  lemma {:induction false} RunOnTime(t: Timing, k: Keeper, es: seq<Event>)
    requires Ample(t) && OnTime(t, k) && !Lapsed(t, k) && Run(t, k, es).Some?
    ensures !Lapsed(t, Run(t, k, es).value) && !Run(t, k, es).value.phase.Stopped?
    decreases |es|
  {
    if es != [] {
      StepOnTime(t, k, es[0]);
      RunOnTime(t, Next(t, k, es[0]), es[1..]);
    }
  }

  /** Waking up again and again, each time too early. */
  function Dawdle(n: nat): seq<Event> {
    if n == 0 then [] else [Tick(1), Wake] + Dawdle(n - 1)
  }

  lemma {:induction false} DawdleRun(t: Timing, k: Keeper, n: nat, rest: seq<Event>)
    requires t.interval > 0 && 0 <= k.now && k.now + n <= Slip(t) && k.phase == Waiting(k.now) && k.renewed == Reading(t, 0)
    ensures Run(t, k, Dawdle(n) + rest) == Run(t, k.(now := k.now + n, phase := Waiting(k.now + n)), rest)
    decreases n
  {
    hide Reading, Slip;
    if n == 0 {
      assert Dawdle(0) + rest == rest;
    } else {
      var es := Dawdle(n) + rest;
      var tail := Dawdle(n - 1) + rest;
      assert es == [Tick(1), Wake] + tail && es[1..] == [Wake] + tail && es[1..][1..] == tail;
      var k1 := Next(t, k, Tick(1));
      EarlyExact(t, k.now + 1);
      var k2 := Next(t, k1, Wake);
      assert Run(t, k, es) == Run(t, k1, es[1..]) == Run(t, k2, tail);
      DawdleRun(t, k2, n - 1, rest);
    }
  }

  /** Worst case: the keeper wakes up too early as long as it can, then as late as it may, and every request
      takes as long as it may. */
  lemma WorstCase(t: Timing) returns (k: Keeper, es: seq<Event>)
    ensures JustLocked(t, k) && Run(t, k, es).Some?
    ensures Lapsed(t, Run(t, k, es).value) <==> !Ample(t)
  {
    hide Reading, Dawdle;
    assert Reading(t, 0) <= 0 by { ReadingSteps(t, 0); }
    k := Keeper(0, -(t.rtt as int), 0, Reading(t, 0), Waiting(0));
    var late := [Tick(t.interval + t.late), Wake, Tick(t.rtt)];
    var k' := k.(now := Slip(t), phase := Waiting(Slip(t)));
    if t.interval == 0 {
      es := late;
    } else {
      es := Dawdle(Slip(t)) + late;
      DawdleRun(t, k, Slip(t), late);
    }
    LateRenewal(t, k');
  }

  /** A wait that ends as late as it may, and the renewal after it that takes as long as it may. */
  lemma LateRenewal(t: Timing, k: Keeper)
    requires k.phase == Waiting(k.now) && k.now == Slip(t) && k.renewed == Reading(t, 0)
    ensures var r := Run(t, k, [Tick(t.interval + t.late), Wake, Tick(t.rtt)]);
            r.Some? && r.value.now == k.now + t.interval + t.late + t.rtt && r.value.applied == k.applied
  {
    hide Reading;
    var es := [Tick(t.interval + t.late), Wake, Tick(t.rtt)];
    var k1 := Next(t, k, es[0]);
    LateEnough(t, k1.now);
    var k2 := Next(t, k1, es[1]);
    var k3 := Next(t, k2, es[2]);
    assert Run(t, k2, es[2..]) == Run(t, k3, es[2..][1..]) == Some(k3);
    assert Run(t, k1, es[1..]) == Run(t, k2, es[1..][1..]);
  }

  lemma LateEnough(t: Timing, now: int)
    requires Slip(t) + t.interval <= now
    ensures Reading(t, now) - Reading(t, 0) >= t.interval
  {
    hide Reading;
    ReadingSteps(t, now);
    ReadingSteps(t, 0);
    if t.interval == 0 {
      ReadingGrows(t, 0, now);
    } else {
      MulMono(t.grain, 0, (t.interval - 1) / t.grain);
    }
  }

  ghost predicate NeverLapses(t: Timing) {
    forall k, es :: JustLocked(t, k) && Run(t, k, es).Some? ==> !Lapsed(t, Run(t, k, es).value)
  }

  /** The lease never runs out while the file is locked, over all runs of the keeper, if and only if
      the settings are ample. */
  lemma LeaseBoundExact(t: Timing)
    ensures NeverLapses(t) <==> Ample(t)
  {
    if Ample(t) {
      forall k, es | JustLocked(t, k) && Run(t, k, es).Some? ensures !Lapsed(t, Run(t, k, es).value) {
        RunOnTime(t, k, es);
      }
    } else {
      var k, es := WorstCase(t);
    }
  }

  const SECOND: nat := 1_000_000_000

  lemma SlipDivides(t: Timing)
    requires t.interval > 0 && t.interval % t.grain == 0
    ensures Slip(t) == t.interval - 1
  {
    var n := t.interval / t.grain;
    assert t.interval == t.grain * n && t.grain * n == t.grain * (n - 1) + t.grain;
    DivExact(t.grain, n - 1, t.grain - 1);
  }

  /** With the settings as shipped, and a clock whose step divides two seconds, the keeper and the cluster may
      waste 26 seconds and a nanosecond between them, and no more. */
  lemma DefaultsExact(late: nat, rtt: nat, grain: Grain)
    requires 2 * SECOND % grain == 0
    ensures NeverLapses(Timing(2 * SECOND, 30 * SECOND, late, rtt, grain)) <==> late + 2 * rtt <= 26 * SECOND + 1
  {
    hide NeverLapses, Slip;
    var t := Timing(2 * SECOND, 30 * SECOND, late, rtt, grain);
    SlipDivides(t);
    LeaseBoundExact(t);
  }
}

/** The wedding countdown: the time left until a fixed instant, split into days, hours,
    minutes and seconds, each shown zero-padded; at or after the instant every field shows
    "00" and the once-a-second timer is cleared. "Now" is an input. */
module Countdown {
  import opened Decimal

  /** 2025-10-15T11:00:00+07:00 in milliseconds since the Unix epoch. */
  const Target: int := 1760500800000

  const MsPerDay: nat := 86400000
  const MsPerHour: nat := 3600000
  const MsPerMinute: nat := 60000
  const MsPerSecond: nat := 1000

  datatype Parts = Parts(days: nat, hours: nat, minutes: nat, seconds: nat)

  /** The milliseconds a breakdown stands for. */
  function Millis(p: Parts): nat {
    p.days * MsPerDay + p.hours * MsPerHour + p.minutes * MsPerMinute + p.seconds * MsPerSecond
  }

  /** Every unit below the day stays under the next unit. */
  predicate Normal(p: Parts) {
    p.hours < 24 && p.minutes < 60 && p.seconds < 60
  }

  /** The successive floor divisions and remainders of `tick` on a positive difference. */
  function Split(diff: int): (p: Parts)
    requires diff > 0
    ensures Normal(p)
    ensures Millis(p) <= diff < Millis(p) + MsPerSecond
  {
    var days := diff / MsPerDay;
    var afterDays := diff % MsPerDay;
    var hours := afterDays / MsPerHour;
    var afterHours := afterDays % MsPerHour;
    var minutes := afterHours / MsPerMinute;
    var afterMinutes := afterHours % MsPerMinute;
    Parts(days, hours, minutes, afterMinutes / MsPerSecond)
  }

  function Seconds(p: Parts): nat {
    ((p.days * 24 + p.hours) * 60 + p.minutes) * 60 + p.seconds
  }

  /** Equal totals in a mixed radix with digits below the base have equal digits. */
  lemma RadixDigit(a: int, x: int, b: int, y: int, base: nat)
    requires base == 24 || base == 60
    requires 0 <= x < base && 0 <= y < base && a * base + x == b * base + y
    ensures a == b && x == y
  {
    if base == 24 {
      assert a * 24 + x == b * 24 + y;
    } else {
      assert a * 60 + x == b * 60 + y;
    }
  }

  lemma SecondsOfParts(p: Parts, q: Parts)
    requires Normal(p) && Normal(q) && Seconds(p) == Seconds(q)
    ensures p == q
  {
    RadixDigit((p.days * 24 + p.hours) * 60 + p.minutes, p.seconds,
               (q.days * 24 + q.hours) * 60 + q.minutes, q.seconds, 60);
    RadixDigit(p.days * 24 + p.hours, p.minutes, q.days * 24 + q.hours, q.minutes, 60);
    RadixDigit(p.days, p.hours, q.days, q.hours, 24);
  }

  /** The breakdown is the only normal one whose milliseconds lie within the last second
      before `diff`: days are not capped, the other units are. */
  lemma SplitUnique(diff: int, p: Parts)
    requires diff > 0
    requires Normal(p) && Millis(p) <= diff < Millis(p) + MsPerSecond
    ensures Split(diff) == p
  {
    var q := Split(diff);
    assert Millis(p) == 1000 * Seconds(p);
    assert Millis(q) == 1000 * Seconds(q);
    SecondsOfParts(p, q);
  }

  /** What `tick` computes from `target - now`: all zero once the target is reached. */
  function Breakdown(diff: int): (p: Parts)
    ensures Normal(p)
    ensures diff <= 0 ==> p == Parts(0, 0, 0, 0)
    ensures diff > 0 ==> Millis(p) <= diff < Millis(p) + MsPerSecond
  {
    if diff <= 0 then Parts(0, 0, 0, 0) else Split(diff)
  }

  /** What the four fields show. */
  datatype Face = Face(days: string, hours: string, minutes: string, seconds: string)

  const Zeros: Face := Face("00", "00", "00", "00")

  predicate Shown(f: Face) {
    AllDigits(f.days) && AllDigits(f.hours) && AllDigits(f.minutes) && AllDigits(f.seconds)
  }

  /** The breakdown a face reads back as. */
  function Read(f: Face): Parts
    requires Shown(f)
  {
    Parts(Value(f.days), Value(f.hours), Value(f.minutes), Value(f.seconds))
  }

  /** The four `textContent` writes: each part through `pad`. */
  function Show(p: Parts): (f: Face)
    ensures Shown(f)
    ensures |f.days| >= 2 && |f.hours| >= 2 && |f.minutes| >= 2 && |f.seconds| >= 2
  {
    Face(Pad(p.days), Pad(p.hours), Pad(p.minutes), Pad(p.seconds))
  }

  /** Reading the fields back gives the breakdown that was shown. */
  lemma ShowRead(p: Parts)
    ensures Read(Show(p)) == p
  {
    PadValue(p.days);
    PadValue(p.hours);
    PadValue(p.minutes);
    PadValue(p.seconds);
  }

  /** The terminal clamp writes "00" into every field. */
  lemma ShowZero()
    ensures Show(Parts(0, 0, 0, 0)) == Zeros
  {
  }

  /** Before the target the fields read back as the exact breakdown of the time left, and
      from the target on they all show "00". */
  lemma RenderExact(diff: int)
    ensures diff <= 0 ==> Show(Breakdown(diff)) == Zeros
    ensures diff > 0 ==> Read(Show(Breakdown(diff))) == Split(diff)
    ensures Normal(Read(Show(Breakdown(diff))))
    ensures diff > 0 ==> Millis(Read(Show(Breakdown(diff)))) <= diff < Millis(Read(Show(Breakdown(diff)))) + MsPerSecond
  {
    ShowRead(Breakdown(diff));
  }

  /** One day, two hours, three minutes and four seconds before the target. */
  lemma RenderExample()
    ensures Show(Breakdown(Target - (Target - (MsPerDay + 2 * MsPerHour + 3 * MsPerMinute + 4 * MsPerSecond))))
         == Face("01", "02", "03", "04")
  {
    var diff := MsPerDay + 2 * MsPerHour + 3 * MsPerMinute + 4 * MsPerSecond;
    SplitUnique(diff, Parts(1, 2, 3, 4));
  }

  datatype Timer = Running | Stopped

  /** The breakdown the fields show, and whether the once-a-second interval is still
      installed. */
  datatype Clock = Clock(shown: Parts, timer: Timer) {
    function Fields(): Face {
      Show(shown)
    }
  }

  /** One firing of the interval. Once the interval is cleared it never fires again, so a
      stopped clock is left as it is. */
  function Tick(c: Clock, now: int): (c': Clock)
    ensures c.timer == Stopped ==> c' == c
    ensures c.timer == Running ==> c'.shown == Breakdown(Target - now)
    ensures c.timer == Running ==> (c'.timer == Stopped <==> now >= Target)
  {
    match c.timer
    case Stopped => c
    case Running =>
      var diff := Target - now;
      if diff <= 0 then Clock(Parts(0, 0, 0, 0), Stopped) else Clock(Split(diff), Running)
  }

  /** Successive firings at the given instants. */
  function Run(c: Clock, nows: seq<int>): Clock
    decreases |nows|
  {
    if nows == [] then c else Run(Tick(c, nows[0]), nows[1..])
  }

  /** `initCountdown` with the interval handle bound before the first tick: that tick runs at
      once, and the interval is left running only while the target is ahead. */
  function Start(now: int): (c: Clock)
    ensures c.shown == Breakdown(Target - now)
    ensures c.timer == Stopped <==> now >= Target
    ensures c.timer == Stopped ==> c.Fields() == Zeros
  {
    Tick(Clock(Parts(0, 0, 0, 0), Running), now)
  }

  /** After the timer is cleared, later ticks change nothing. */
  lemma {:induction false} StoppedIsFinal(c: Clock, nows: seq<int>)
    requires c.timer == Stopped
    ensures Run(c, nows) == c
    decreases |nows|
  {
    if nows != [] {
      StoppedIsFinal(Tick(c, nows[0]), nows[1..]);
    }
  }

  /** Once any tick falls at or after the target, the clock ends stopped showing "00". */
  lemma {:induction false} TargetStops(c: Clock, nows: seq<int>, i: nat)
    requires i < |nows| && nows[i] >= Target
    ensures Run(c, nows).timer == Stopped
    ensures Run(c, nows).Fields() == (if c.timer == Stopped then c.Fields() else Zeros)
    decreases |nows|
  {
    if c.timer == Stopped {
      StoppedIsFinal(c, nows);
    } else if i == 0 {
      StoppedIsFinal(Tick(c, nows[0]), nows[1..]);
    } else {
      TargetStops(Tick(c, nows[0]), nows[1..], i - 1);
    }
  }

  /** While every tick is before the target the clock keeps running, and what it shows
      depends only on the latest tick. */
  lemma {:induction false} RunningBeforeTarget(c: Clock, nows: seq<int>)
    requires c.timer == Running && nows != []
    requires forall i :: 0 <= i < |nows| ==> nows[i] < Target
    ensures Run(c, nows) == Tick(c, nows[|nows| - 1])
    ensures Run(c, nows).timer == Running
    decreases |nows|
  {
    var next := Tick(c, nows[0]);
    var rest := nows[1..];
    if rest != [] {
      assert forall i :: 0 <= i < |rest| ==> rest[i] == nows[i + 1];
      RunningBeforeTarget(next, rest);
      assert rest[|rest| - 1] == nows[|nows| - 1];
    }
  }

  /** How `initCountdown` ends as written. */
  datatype InitOutcome = Installed(clock: Clock) | ReferenceError(face: Face)

  /** `initCountdown` as written: the first `tick()` runs before `const timer` is
      initialised, so when that tick already finds the target reached, its
      `clearInterval(timer)` reads the binding in its temporal dead zone and throws, after the
      fields were set to "00" and before the interval is installed. */
  function InitAsWritten(now: int): (r: InitOutcome)
    ensures r.ReferenceError? <==> now >= Target
    ensures r.ReferenceError? ==> r.face == Zeros
    ensures r.Installed? ==> r.clock == Start(now)
  {
    if Target - now <= 0 then ReferenceError(Zeros) else Installed(Clock(Split(Target - now), Running))
  }

  /** The first load at the target instant throws instead of stopping cleanly. */
  lemma InitAsWrittenThrowsAtTarget()
    ensures InitAsWritten(Target) == ReferenceError(Zeros)
    ensures Start(Target) == Clock(Parts(0, 0, 0, 0), Stopped) && Start(Target).Fields() == Zeros
  {
  }
}

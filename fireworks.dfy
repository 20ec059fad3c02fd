/** The firework canvas's bookkeeping: the live particles, the fading trail points and the
    time of the last burst, as updated once per animation frame. Positions, velocities,
    hues, sizes and all drawing are left out; what remains is how the two arrays grow,
    age and are swept, and when a new burst may start. Frame times and the random draws
    of a burst are inputs. Float arithmetic is modelled by exact reals. */
module Fireworks {
  import opened Filtering

  /** Particles in one burst. */
  const BurstSize: nat := 48
  /** A burst needs strictly more than this many time units since the last one. */
  const SpawnGap: real := 950.0
  /** A burst needs strictly fewer live particles than this. */
  const LiveLimit: nat := 520
  /** Per-frame multiplier of a trail point's alpha. */
  const Fade: real := 0.92
  /** Trail points whose alpha falls below this are dropped. */
  const MinAlpha: real := 0.03
  /** Lifetimes are `70 + Math.random() * 30`. */
  const MinLifetime: real := 70.0
  const LifetimeSpread: real := 30.0

  /** Most particles there can be right after a spawn decision. */
  const Capacity: nat := LiveLimit - 1 + BurstSize

  datatype Particle = Particle(life: int, max: real)
  datatype TrailPoint = TrailPoint(alpha: real)

  /** What the particle sweep keeps: it splices out `life >= max`. */
  predicate Live(p: Particle) {
    (p.life as real) < p.max
  }

  /** What the trail sweep keeps: it splices out `alpha < 0.03`. */
  predicate Visible(tp: TrailPoint) {
    tp.alpha >= MinAlpha
  }

  /** A particle one frame older: `p.life++`. */
  function Older(p: Particle): Particle {
    p.(life := p.life + 1)
  }

  /** A trail point one frame fainter: `tr.alpha *= 0.92`. */
  function Fainter(tp: TrailPoint): TrailPoint {
    tp.(alpha := tp.alpha * Fade)
  }

  /** The alpha a particle is drawn with: `1 - p.life / p.max`. */
  function Alpha(p: Particle): real
    requires p.max > 0.0
  {
    1.0 - (p.life as real) / p.max
  }

  function Aged(ps: seq<Particle>): (r: seq<Particle>)
    ensures |r| == |ps|
  {
    seq(|ps|, i requires 0 <= i < |ps| => Older(ps[i]))
  }

  function Faded(ts: seq<TrailPoint>): (r: seq<TrailPoint>)
    ensures |r| == |ts|
  {
    seq(|ts|, i requires 0 <= i < |ts| => Fainter(ts[i]))
  }

  predicate Positive(ps: seq<Particle>) {
    forall i :: 0 <= i < |ps| ==> ps[i].max > 0.0
  }

  /** The trail point each particle leaves where it is drawn. */
  function Echoes(ps: seq<Particle>): (r: seq<TrailPoint>)
    requires Positive(ps)
    ensures |r| == |ps|
  {
    seq(|ps|, i requires 0 <= i < |ps| => TrailPoint(Alpha(ps[i])))
  }

  /** The random draws of one burst are `BurstSize` numbers in [0, 1). */
  predicate Rolls(rolls: seq<real>) {
    |rolls| == BurstSize && forall i :: 0 <= i < |rolls| ==> 0.0 <= rolls[i] < 1.0
  }

  /** The particles one `spawnFirework` call pushes. */
  function Burst(rolls: seq<real>): (r: seq<Particle>)
    requires Rolls(rolls)
    ensures |r| == BurstSize
    ensures forall i :: 0 <= i < |r| ==> r[i].life == 0 && MinLifetime <= r[i].max < MinLifetime + LifetimeSpread
  {
    seq(BurstSize, i requires 0 <= i < BurstSize => Particle(0, MinLifetime + rolls[i] * LifetimeSpread))
  }

  /** The spawn condition of `update`. */
  predicate ShouldSpawn(t: real, lastSpawn: real, live: nat) {
    t - lastSpawn > SpawnGap && live < LiveLimit
  }

  datatype State = State(particles: seq<Particle>, trails: seq<TrailPoint>, lastSpawn: real)

  /** What holds between frames: particles were born at age 0 with a lifetime in [70, 100)
      and have not yet expired, the particle count is within what one spawn can reach, and
      every trail point is still visible. */
  predicate Good(s: State) {
    |s.particles| <= Capacity &&
    (forall i :: 0 <= i < |s.particles| ==>
       0 <= s.particles[i].life && MinLifetime <= s.particles[i].max < MinLifetime + LifetimeSpread &&
       Live(s.particles[i])) &&
    (forall i :: 0 <= i < |s.trails| ==> Visible(s.trails[i]))
  }

  /** One call of `update(t)`: age every particle and leave a trail point for it, fade and
      sweep the trail, sweep out expired particles, then maybe spawn a burst. */
  function Step(s: State, t: real, rolls: seq<real>): State
    requires Positive(s.particles) && Rolls(rolls)
  {
    var aged := Aged(s.particles);
    var trails := Filter(Faded(s.trails + Echoes(aged)), Visible);
    var live := Filter(aged, Live);
    if ShouldSpawn(t, s.lastSpawn, |live|) then State(live + Burst(rolls), trails, t)
    else State(live, trails, s.lastSpawn)
  }

  /** A frame keeps the between-frames invariant; in particular the count never passes
      519 + 48 right after a spawn decision. */
  lemma StepKeepsGood(s: State, t: real, rolls: seq<real>)
    requires Good(s) && Rolls(rolls)
    ensures Good(Step(s, t, rolls))
  {
    var aged := Aged(s.particles);
    var live := Filter(aged, Live);
    assert forall i :: 0 <= i < |aged| ==> aged[i] == Older(s.particles[i]);
    forall i | 0 <= i < |live|
      ensures 0 <= live[i].life && MinLifetime <= live[i].max < MinLifetime + LifetimeSpread
    {
      var j :| 0 <= j < |aged| && aged[j] == live[i];
    }
  }

  /** Every particle left after a frame is either an older survivor or one of a burst spawned
      in that frame, and the newborn ones (life 0) are exactly the last 48 when a burst was
      spawned and none otherwise. */
  lemma StepNewborns(s: State, t: real, rolls: seq<real>)
    requires Good(s) && Rolls(rolls)
    ensures var s' := Step(s, t, rolls);
      forall i :: 0 <= i < |s'.particles| ==>
        (s'.particles[i].life == 0 <==> s'.lastSpawn != s.lastSpawn && i >= |s'.particles| - BurstSize)
  {
    var aged := Aged(s.particles);
    var live := Filter(aged, Live);
    assert forall i :: 0 <= i < |aged| ==> aged[i].life >= 1;
    assert forall i :: 0 <= i < |live| ==> live[i].life >= 1 by {
      forall i | 0 <= i < |live| ensures live[i].life >= 1 {
        var j :| 0 <= j < |aged| && aged[j] == live[i];
      }
    }
  }

  /** The particle array grows only by a spawn, and a spawn needs more than 950 time units
      since the previous one and fewer than 520 live particles; it then records `t`. Conversely,
      whenever the gate is open after the sweeps, a whole burst is appended behind the
      survivors and `t` recorded; when it is closed, only the survivors remain. */
  lemma StepSpawnGate(s: State, t: real, rolls: seq<real>)
    requires Good(s) && Rolls(rolls)
    ensures var s' := Step(s, t, rolls);
      (|s'.particles| > |s.particles| || s'.lastSpawn != s.lastSpawn) ==>
        t - s.lastSpawn > SpawnGap && |s'.particles| - BurstSize < LiveLimit && s'.lastSpawn == t
    ensures var s' := Step(s, t, rolls);
      t - s.lastSpawn <= SpawnGap ==> |s'.particles| <= |s.particles| && s'.lastSpawn == s.lastSpawn
    ensures var s' := Step(s, t, rolls); var live := Filter(Aged(s.particles), Live);
      ShouldSpawn(t, s.lastSpawn, |live|) ==> s'.particles == live + Burst(rolls) && s'.lastSpawn == t
    ensures var s' := Step(s, t, rolls); var live := Filter(Aged(s.particles), Live);
      !ShouldSpawn(t, s.lastSpawn, |live|) ==> s'.particles == live && s'.lastSpawn == s.lastSpawn
  {
  }

  /** The expiry sweep keeps exactly the aged particles that have not reached their lifetime,
      each as often as before and in their original order; the trail keeps exactly the faded
      points that are still visible. */
  lemma StepSweeps(s: State, t: real, rolls: seq<real>, p: Particle, tp: TrailPoint)
    requires Good(s) && Rolls(rolls)
    ensures var s' := Step(s, t, rolls); var aged := Aged(s.particles);
      multiset(s'.particles[..|Filter(aged, Live)|])[p] == if Live(p) then multiset(aged)[p] else 0
    ensures var s' := Step(s, t, rolls); var trail := Faded(s.trails + Echoes(Aged(s.particles)));
      multiset(s'.trails)[tp] == if Visible(tp) then multiset(trail)[tp] else 0
  {
    var aged := Aged(s.particles);
    var s' := Step(s, t, rolls);
    assert s'.particles[..|Filter(aged, Live)|] == Filter(aged, Live);
    FilterMultiset(aged, Live, p);
    FilterMultiset(Faded(s.trails + Echoes(aged)), Visible, tp);
  }

  /** A particle's alpha falls with every frame of age and is at most 0 once its life has
      reached its lifetime. */
  lemma AlphaFalls(p: Particle)
    requires p.max > 0.0
    ensures Alpha(Older(p)) < Alpha(p)
    ensures (p.life as real) >= p.max ==> Alpha(p) <= 0.0
  {
    assert (p.life + 1) as real / p.max == (p.life as real) / p.max + 1.0 / p.max;
    if (p.life as real) >= p.max {
      assert (p.life as real) / p.max >= p.max / p.max;
    }
  }

  /** One step of the backward trail sweep at position `i`: fading the point there and
      keeping or splicing it leaves the kept faded points of `start[i..]` behind `start[..i]`. */
  lemma TrailStep(start: seq<TrailPoint>, i: nat, cur: seq<TrailPoint>)
    requires i < |start| && cur == start[..i + 1] + Filter(Faded(start)[i + 1..], Visible)
    ensures i < |cur| && cur[i] == start[i]
    ensures var next := cur[i := Fainter(cur[i])];
      if Visible(Fainter(cur[i])) then next == start[..i] + Filter(Faded(start)[i..], Visible)
      else next[..i] + next[i + 1..] == start[..i] + Filter(Faded(start)[i..], Visible)
  {
    var done := Filter(Faded(start)[i + 1..], Visible);
    assert start[..i + 1] == start[..i] + [start[i]];
    ReplaceAt(start[..i], start[i], Fainter(start[i]), done);
    SweepStep(start[..i], Faded(start), i, Visible);
  }

  /** The state `initFireworks` keeps in its closure. */
  class Scene {
    var particles: seq<Particle>
    var trails: seq<TrailPoint>
    var lastSpawn: real

    function Snapshot(): State
      reads this
    {
      State(particles, trails, lastSpawn)
    }

    ghost predicate Valid()
      reads this
    {
      Good(Snapshot())
    }

    /** `const particles = []; const trails = []; let lastSpawn = 0;` */
    constructor ()
      ensures Valid() && Snapshot() == State([], [], 0.0)
    {
      particles := [];
      trails := [];
      lastSpawn := 0.0;
    }

    /** `spawnFirework`: push one burst of 48 particles, each starting at life 0. */
    method SpawnFirework(rolls: seq<real>)
      requires Rolls(rolls)
      modifies this`particles
      ensures particles == old(particles) + Burst(rolls)
    {
      var i := 0;
      while i < BurstSize
        invariant 0 <= i <= BurstSize
        invariant particles == old(particles) + Burst(rolls)[..i]
      {
        particles := particles + [Particle(0, MinLifetime + rolls[i] * LifetimeSpread)];
        assert Burst(rolls)[..i + 1] == Burst(rolls)[..i] + [Burst(rolls)[i]];
        i := i + 1;
      }
      assert Burst(rolls)[..BurstSize] == Burst(rolls);
    }

    /** The `forEach` of `update`: every particle gets one frame older and pushes a trail
        point with the alpha it is drawn with. */
    method AgeAll()
      requires Positive(particles)
      modifies this`particles, this`trails
      ensures particles == Aged(old(particles))
      ensures trails == old(trails) + Echoes(Aged(old(particles)))
    {
      var i := 0;
      while i < |particles|
        invariant 0 <= i <= |particles| == |old(particles)|
        invariant particles[..i] == Aged(old(particles))[..i]
        invariant particles[i..] == old(particles)[i..]
        invariant Positive(particles)
        invariant trails == old(trails) + Echoes(Aged(old(particles)))[..i]
      {
        var p := Older(particles[i]);
        particles := particles[i := p];
        trails := trails + [TrailPoint(Alpha(p))];
        assert Echoes(Aged(old(particles)))[..i + 1]
            == Echoes(Aged(old(particles)))[..i] + [Echoes(Aged(old(particles)))[i]];
        i := i + 1;
      }
      assert particles == particles[..i];
      assert Echoes(Aged(old(particles)))[..i] == Echoes(Aged(old(particles)));
    }

    /** The trail loop of `update`, run from the back: fade each point, splice it out when
        its alpha has fallen below 0.03. */
    method SweepTrails()
      modifies this`trails
      ensures trails == Filter(Faded(old(trails)), Visible)
    {
      ghost var start := old(trails);
      var i := |trails| - 1;
      while i >= 0
        invariant -1 <= i < |start|
        invariant trails == start[..i + 1] + Filter(Faded(start)[i + 1..], Visible)
      {
        TrailStep(start, i, trails);
        var tr := Fainter(trails[i]);
        trails := trails[i := tr];
        if tr.alpha < MinAlpha {
          trails := trails[..i] + trails[i + 1..];
        }
        i := i - 1;
      }
      assert start[..0] == [] && Faded(start)[0..] == Faded(start);
    }

    /** The particle loop of `update`, run from the back: splice out each particle whose
        life has reached its lifetime. */
    method SweepParticles()
      modifies this`particles
      ensures particles == Filter(old(particles), Live)
    {
      ghost var start := old(particles);
      var i := |particles| - 1;
      while i >= 0
        invariant -1 <= i < |start|
        invariant particles == start[..i + 1] + Filter(start[i + 1..], Live)
      {
        assert start[..i + 1] == start[..i] + [start[i]];
        SweepStep(start[..i], start, i, Live);
        assert particles[i] == start[i];
        if (particles[i].life as real) >= particles[i].max {
          particles := particles[..i] + particles[i + 1..];
        }
        i := i - 1;
      }
      assert start[..0] == [] && start[0..] == start;
    }

    /** `update(t)` with the draws a burst would use. */
    method Update(t: real, rolls: seq<real>)
      requires Valid() && Rolls(rolls)
      modifies this
      ensures Snapshot() == Step(old(Snapshot()), t, rolls)
      ensures Valid()
    {
      ghost var before := Snapshot();
      AgeAll();
      SweepTrails();
      SweepParticles();
      if t - lastSpawn > SpawnGap && |particles| < LiveLimit {
        SpawnFirework(rolls);
        lastSpawn := t;
      }
      StepKeepsGood(before, t, rolls);
    }
  }
}

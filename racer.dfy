/** The desert racer's simulation as values: one `World` record holds everything
    the game keeps at module level, and each engine callback (the per-frame
    update and the two spawn timers) is a function from the old world to the
    new one. Keyboard state is the `Keys` of the frame; `Math.random` is a
    stream `draw` of reals in [0, 1). The class `Game` in module DesertRacer runs the same
    steps in place and is proved to agree with these functions. */
module Racer {
  import RoadLines

  // The car: a 120 x 72 sprite whose centre stays at y = 600 - 140.
  const CarStartX := 400
  const CarY := 460
  const CarHalfWidth := 60
  const CarHalfHeight := 36
  const CarMinX := 60
  const CarMaxX := 740
  const SteerStep := 5

  // Scrolling: the background and the road-line phase advance together.
  const ScrollSpeed := 2

  // Cacti (50 x 80) and boosters (30 x 30) both fall 4 per frame.
  const FallSpeed := 4
  const CactusStartY := -80
  const CactusMaxX := 750
  const CactusHalfWidth := 25
  const CactusHalfHeight := 40
  const BoosterStartY := -30
  const BoosterMaxX := 770
  const BoosterHalfSize := 15

  // Dust: a trail while steering, a burst on a crash.
  const DustSpawnRate := 5
  const DustLife := 30
  const DustOffsetY := 72
  const BurstCount := 20
  const BurstLife := 40
  const BurstSpread := 30
  const BurstOffsetY := 36
  /** Each burst particle draws two offsets, x first. */
  const DrawsPerBurst := 2 * BurstCount

  const CactusReward := 10
  const BoosterReward := 50

  /** A cactus or booster: only its centre changes after it is spawned. */
  datatype Sprite = Sprite(x: int, y: int)

  /** A dust particle with its remaining life in frames. */
  datatype Particle = Particle(x: int, y: int, life: int)

  /** One frame's input: steering keys held, and whether the pause key went down this frame. */
  datatype Keys = Keys(left: bool, right: bool, pausePressed: bool)

  /** An axis-aligned bounding box, edges included. */
  datatype Rect = Rect(left: int, top: int, right: int, bottom: int)

  /** Everything the game keeps between callbacks. `pauseShown` and `finalShown` are the
      visibility of the two overlay texts, `finalScore` the score the final text shows,
      `tileY` the background's tile offset, and `freezes` the number of delayed
      scene freezes scheduled so far. */
  datatype World = World(
    carX: int,
    score: int,
    paused: bool,
    pauseShown: bool,
    backgroundY: int,
    tileY: int,
    lineY: int,
    dustTimer: int,
    dust: seq<Particle>,
    cacti: seq<Sprite>,
    boosters: seq<Sprite>,
    roadMarks: seq<int>,
    finalShown: bool,
    finalScore: int,
    freezes: nat)

  /** `random(min, max)`: floor(u * (max - min + 1)) + min for the next draw u in [0, 1). */
  function Random(min: int, max: int, u: real): (r: int)
    requires min <= max && 0.0 <= u < 1.0
    ensures min <= r <= max
  {
    var span := (max - min + 1) as real;
    assert 0.0 <= u * span < span by {
      assert span * (1.0 - u) > 0.0;
    }
    (u * span).Floor + min
  }

  /** Every integer of the range is some draw's result. */
  lemma RandomCovers(min: int, max: int, v: int)
    requires min <= v <= max
    ensures exists u: real :: 0.0 <= u < 1.0 && Random(min, max, u) == v
  {
    var span := (max - min + 1) as real;
    var u := (v - min) as real / span;
    assert u * span == (v - min) as real;
    assert Random(min, max, u) == v;
  }

  /** A stream of `Math.random` results. */
  ghost predicate DrawsValid(draw: nat -> real)
  {
    forall k: nat :: 0.0 <= draw(k) < 1.0
  }

  // ---------------------------------------------------------------- geometry

  function Box(cx: int, cy: int, halfWidth: int, halfHeight: int): Rect
  {
    Rect(cx - halfWidth, cy - halfHeight, cx + halfWidth, cy + halfHeight)
  }

  /** Rectangle intersection: the boxes overlap unless one lies wholly to a side of the other. */
  predicate Intersects(a: Rect, b: Rect)
  {
    !(a.right < b.left || a.bottom < b.top || a.left > b.right || a.top > b.bottom)
  }

  function CarBox(carX: int): Rect { Box(carX, CarY, CarHalfWidth, CarHalfHeight) }
  function CactusBox(c: Sprite): Rect { Box(c.x, c.y, CactusHalfWidth, CactusHalfHeight) }
  function BoosterBox(b: Sprite): Rect { Box(b.x, b.y, BoosterHalfSize, BoosterHalfSize) }

  predicate HitsCactus(carX: int, c: Sprite) { Intersects(CarBox(carX), CactusBox(c)) }
  predicate HitsBooster(carX: int, b: Sprite) { Intersects(CarBox(carX), BoosterBox(b)) }

  /** A sprite that has left the screen can no longer touch the car, so removal on exit
      and the overlap test that follows it never both apply to one sprite. */
  lemma OffscreenNeverHits(carX: int, s: Sprite)
    requires s.y > RoadLines.ScreenHeight
    ensures !HitsCactus(carX, s) && !HitsBooster(carX, s)
  {
  }

  // ------------------------------------------------------------ pause toggle

  /** A just-pressed pause key flips `paused` and shows the overlay exactly when paused. */
  function TogglePause(w: World, pressed: bool): (r: World)
    ensures r.paused == (w.paused != pressed)
    ensures pressed ==> r.pauseShown == r.paused
    ensures !pressed ==> r == w
    ensures r.(paused := w.paused, pauseShown := w.pauseShown) == w
  {
    if pressed then w.(paused := !w.paused, pauseShown := !w.paused) else w
  }

  // --------------------------------------------------------- scroll, steering

  /** A scroll phase advances by the scroll speed and restarts at 0 on reaching the
      screen height; for the even phases the game reaches this is addition modulo 600. */
  function Scroll(phase: int): (r: int)
    requires 0 <= phase < RoadLines.ScreenHeight
    ensures 0 <= r < RoadLines.ScreenHeight
    ensures phase % 2 == 0 ==> r % 2 == 0 && r == (phase + ScrollSpeed) % RoadLines.ScreenHeight
  {
    var next := phase + ScrollSpeed;
    if next >= RoadLines.ScreenHeight then 0 else next
  }

  predicate OnRoad(x: int)
  {
    CarMinX <= x <= CarMaxX && x % SteerStep == 0
  }

  /** Left moves the car 5 to the left unless it is at the left limit, then right moves it
      5 to the right unless it is at the right limit. */
  function Steer(x: int, left: bool, right: bool): (r: int)
    ensures OnRoad(x) ==> OnRoad(r)
    ensures left && right && OnRoad(x) ==> r == if x == CarMinX then x + SteerStep else x
    ensures !left && !right ==> r == x
    ensures left && !right ==> r == if x > CarMinX then x - SteerStep else x
    ensures right && !left ==> r == if x < CarMaxX then x + SteerStep else x
  {
    var afterLeft := if left && x > CarMinX then x - SteerStep else x;
    if right && afterLeft < CarMaxX then afterLeft + SteerStep else afterLeft
  }

  // ---------------------------------------------------------------- dust

  /** The dust timer after one running frame, and whether it fired a trail particle. */
  function TickDustTimer(timer: int, steering: bool): (r: (int, bool))
    requires 0 <= timer < DustSpawnRate
    ensures 0 <= r.0 < DustSpawnRate
    ensures r.1 <==> steering && timer == DustSpawnRate - 1
    ensures !steering ==> r.0 == timer
    ensures steering && !r.1 ==> r.0 == timer + 1
    ensures r.1 ==> r.0 == 0
  {
    if steering then
      var t := timer + 1;
      if t >= DustSpawnRate then (0, true) else (t, false)
    else (timer, false)
  }

  /** A particle one frame later: moved down with the road and one frame less to live. */
  function Aged(p: Particle): Particle
  {
    p.(y := p.y + ScrollSpeed, life := p.life - 1)
  }

  /** The dust pass: every particle ages, and those out of life are removed. */
  function StepDust(ds: seq<Particle>): seq<Particle>
  {
    if |ds| == 0 then []
    else
      var last := Aged(ds[|ds| - 1]);
      StepDust(ds[..|ds| - 1]) + (if last.life <= 0 then [] else [last])
  }

  lemma {:induction false} StepDustMembers(ds: seq<Particle>)
    ensures |StepDust(ds)| <= |ds|
    ensures forall q :: q in StepDust(ds) ==> q.life > 0 && exists p :: p in ds && q == Aged(p)
    ensures forall p :: p in ds && Aged(p).life > 0 ==> Aged(p) in StepDust(ds)
  {
    if |ds| > 0 {
      var front := ds[..|ds| - 1];
      StepDustMembers(front);
      assert ds == front + [ds[|ds| - 1]];
    }
  }

  /** Every particle aged by one frame, in order, before any is removed. */
  function AgedAll(ds: seq<Particle>): (r: seq<Particle>)
    ensures |r| == |ds| && forall i :: 0 <= i < |ds| ==> r[i] == Aged(ds[i])
  {
    if |ds| == 0 then [] else AgedAll(ds[..|ds| - 1]) + [Aged(ds[|ds| - 1])]
  }

  /** One step of a filtering pass, counted: appending `a` to the input adds one copy of it to
      the output exactly when `keep(a)`. */
  lemma CountsStep<T>(out: seq<T>, outFront: seq<T>, all: seq<T>, allFront: seq<T>,
                      base: multiset<T>, a: T, keep: T -> bool)
    requires out == outFront + (if keep(a) then [a] else [])
    requires all == allFront + [a]
    requires forall s :: multiset(outFront)[s] == base[s] + if keep(s) then multiset(allFront)[s] else 0
    ensures forall s :: multiset(out)[s] == base[s] + if keep(s) then multiset(all)[s] else 0
  {
    var tail := if keep(a) then [a] else [];
    assert multiset(out) == multiset(outFront) + multiset(tail);
    assert multiset(all) == multiset(allFront) + multiset{a};
    forall s ensures multiset(out)[s] == base[s] + if keep(s) then multiset(all)[s] else 0 {
      if s == a {
        assert multiset(tail)[s] == if keep(a) then 1 else 0;
      } else {
        assert multiset(tail)[s] == 0;
      }
    }
  }

  /** The dust pass keeps each aged particle that still has life as many times as it
      occurs, and no other. */
  lemma {:induction false} StepDustCounts(ds: seq<Particle>)
    ensures forall q :: multiset(StepDust(ds))[q] == if q.life > 0 then multiset(AgedAll(ds))[q] else 0
  {
    if |ds| > 0 {
      var front := ds[..|ds| - 1];
      StepDustCounts(front);
      StepDustStep(ds);
      CountsStep(StepDust(ds), StepDust(front), AgedAll(ds), AgedAll(front), multiset{},
                 Aged(ds[|ds| - 1]), (q: Particle) => q.life > 0);
    }
  }

  /** The last particle, aged, is kept iff it still has life. */
  lemma StepDustStep(ds: seq<Particle>)
    requires |ds| > 0
    ensures var a := Aged(ds[|ds| - 1]);
            StepDust(ds) == StepDust(ds[..|ds| - 1]) + if a.life > 0 then [a] else []
  {
  }

  /** The crash particle i of a burst whose draws start at `base`. */
  function BurstParticle(carX: int, draw: nat -> real, base: nat, i: nat): Particle
    requires DrawsValid(draw)
  {
    Particle(carX + Random(-BurstSpread, BurstSpread, draw(base + 2 * i)),
             CarY + BurstOffsetY + Random(-BurstSpread, BurstSpread, draw(base + 2 * i + 1)),
             BurstLife)
  }

  predicate InBurst(carX: int, p: Particle)
  {
    p.life == BurstLife
    && carX - BurstSpread <= p.x <= carX + BurstSpread
    && CarY + BurstOffsetY - BurstSpread <= p.y <= CarY + BurstOffsetY + BurstSpread
  }

  /** The twenty particles one crash adds around the car's centre. */
  function Burst(carX: int, draw: nat -> real, base: nat): (r: seq<Particle>)
    requires DrawsValid(draw)
    ensures |r| == BurstCount
    ensures forall p :: p in r ==> InBurst(carX, p)
  {
    seq(BurstCount, i requires 0 <= i < BurstCount => BurstParticle(carX, draw, base, i))
  }

  // ---------------------------------------------------------- cacti, boosters

  function Fall(s: Sprite): Sprite
  {
    s.(y := s.y + FallSpeed)
  }

  /** What the cactus pass has built so far: the cacti kept, the score, the crash
      particles added, the final text's state and the crashes seen. */
  datatype CactusPass = CactusPass(
    kept: seq<Sprite>, score: int, burst: seq<Particle>, finalShown: bool, finalScore: int, hits: nat)

  /** One cactus: it falls; past the bottom it is removed for 10 points; touching the car
      it sets off a burst, shows the final score and schedules a freeze. */
  function CactusStep(acc: CactusPass, c: Sprite, carX: int, draw: nat -> real): CactusPass
    requires DrawsValid(draw)
  {
    var m := Fall(c);
    var a := if m.y > RoadLines.ScreenHeight then acc.(score := acc.score + CactusReward)
             else acc.(kept := acc.kept + [m]);
    if HitsCactus(carX, m) then
      a.(burst := a.burst + Burst(carX, draw, DrawsPerBurst * a.hits),
         finalShown := true, finalScore := a.score, hits := a.hits + 1)
    else a
  }

  /** The pass over one more cactus is one more step. */
  lemma CactiPassExtend(cs: seq<Sprite>, i: nat, carX: int, init: CactusPass, draw: nat -> real)
    requires DrawsValid(draw) && i < |cs|
    ensures CactiPass(cs[..i + 1], carX, init, draw) == CactusStep(CactiPass(cs[..i], carX, init, draw), cs[i], carX, draw)
  {
    assert cs[..i + 1][..i] == cs[..i];
  }

  function CactiPass(cs: seq<Sprite>, carX: int, init: CactusPass, draw: nat -> real): CactusPass
    requires DrawsValid(draw)
  {
    if |cs| == 0 then init
    else CactusStep(CactiPass(cs[..|cs| - 1], carX, init, draw), cs[|cs| - 1], carX, draw)
  }

  /** How many of the cacti leave the screen this frame. */
  function CountExits(cs: seq<Sprite>): nat
  {
    if |cs| == 0 then 0
    else CountExits(cs[..|cs| - 1]) + if Fall(cs[|cs| - 1]).y > RoadLines.ScreenHeight then 1 else 0
  }

  /** How many of the cacti touch the car at `carX` after falling. */
  function CountHits(cs: seq<Sprite>, carX: int): nat
  {
    if |cs| == 0 then 0
    else CountHits(cs[..|cs| - 1], carX) + if HitsCactus(carX, Fall(cs[|cs| - 1])) then 1 else 0
  }

  /** Score, crashes and final text after the cactus pass. */
  lemma {:induction false} CactiPassScore(cs: seq<Sprite>, carX: int, init: CactusPass, draw: nat -> real)
    requires DrawsValid(draw)
    ensures CactiPass(cs, carX, init, draw).score == init.score + CactusReward * CountExits(cs)
    ensures CactiPass(cs, carX, init, draw).hits == init.hits + CountHits(cs, carX)
    ensures CactiPass(cs, carX, init, draw).finalShown == (init.finalShown || CountHits(cs, carX) > 0)
    ensures CountHits(cs, carX) == 0 ==> CactiPass(cs, carX, init, draw).finalScore == init.finalScore
    ensures CountHits(cs, carX) > 0 ==> init.score <= CactiPass(cs, carX, init, draw).finalScore
    ensures init.finalScore <= init.score ==>
              CactiPass(cs, carX, init, draw).finalScore <= CactiPass(cs, carX, init, draw).score
  {
    if |cs| > 0 {
      CactiPassScore(cs[..|cs| - 1], carX, init, draw);
    }
  }

  /** Each crash appends twenty burst particles after what was there. */
  lemma {:induction false} CactiPassBurst(cs: seq<Sprite>, carX: int, init: CactusPass, draw: nat -> real)
    requires DrawsValid(draw)
    ensures |CactiPass(cs, carX, init, draw).burst| == |init.burst| + BurstCount * CountHits(cs, carX)
    ensures CactiPass(cs, carX, init, draw).burst[..|init.burst|] == init.burst
    ensures forall k :: |init.burst| <= k < |CactiPass(cs, carX, init, draw).burst| ==>
              InBurst(carX, CactiPass(cs, carX, init, draw).burst[k])
  {
    if |cs| > 0 {
      var front := cs[..|cs| - 1];
      CactiPassBurst(front, carX, init, draw);
      var before := CactiPass(front, carX, init, draw);
      var after := CactiPass(cs, carX, init, draw);
      if HitsCactus(carX, Fall(cs[|cs| - 1])) {
        var b := Burst(carX, draw, DrawsPerBurst * before.hits);
        assert after.burst == before.burst + b;
        forall k | |init.burst| <= k < |after.burst| ensures InBurst(carX, after.burst[k]) {
          if k >= |before.burst| {
            assert after.burst[k] == b[k - |before.burst|];
            assert b[k - |before.burst|] in b;
          } else {
            assert after.burst[k] == before.burst[k];
          }
        }
      }
    }
  }

  /** A cactus stays exactly when it is still on screen after falling; the kept list grows
      by the cacti that did not leave. */
  lemma {:induction false} CactiPassKept(cs: seq<Sprite>, carX: int, init: CactusPass, draw: nat -> real)
    requires DrawsValid(draw)
    ensures |CactiPass(cs, carX, init, draw).kept| == |init.kept| + |cs| - CountExits(cs)
    ensures forall c :: c in cs && Fall(c).y <= RoadLines.ScreenHeight ==> Fall(c) in CactiPass(cs, carX, init, draw).kept
    ensures forall s :: s in CactiPass(cs, carX, init, draw).kept ==>
              s in init.kept || (s.y <= RoadLines.ScreenHeight && exists c :: c in cs && s == Fall(c))
  {
    if |cs| > 0 {
      var front, c := cs[..|cs| - 1], cs[|cs| - 1];
      CactiPassKept(front, carX, init, draw);
      assert cs == front + [c];
      var before := CactiPass(front, carX, init, draw);
      var after := CactiPass(cs, carX, init, draw);
      assert after.kept == if Fall(c).y > RoadLines.ScreenHeight then before.kept else before.kept + [Fall(c)];
      forall s | s in after.kept
        ensures s in init.kept || (s.y <= RoadLines.ScreenHeight && exists c' :: c' in cs && s == Fall(c'))
      {
        if s in before.kept {
          if !(s in init.kept) {
            var c' :| c' in front && s == Fall(c');
            assert c' in cs;
          }
        } else {
          assert s == Fall(c);
        }
      }
    }
  }

  /** Every sprite moved down one fall, in order, before any is removed. */
  function FallAll(ss: seq<Sprite>): (r: seq<Sprite>)
    ensures |r| == |ss| && forall i :: 0 <= i < |ss| ==> r[i] == Fall(ss[i])
  {
    if |ss| == 0 then [] else FallAll(ss[..|ss| - 1]) + [Fall(ss[|ss| - 1])]
  }

  /** The cactus pass appends each fallen cactus still on screen as many times as it
      occurs, and no other. */
  lemma {:induction false} CactiPassKeptCounts(cs: seq<Sprite>, carX: int, init: CactusPass, draw: nat -> real)
    requires DrawsValid(draw)
    ensures forall s :: multiset(CactiPass(cs, carX, init, draw).kept)[s] ==
              multiset(init.kept)[s] + if s.y <= RoadLines.ScreenHeight then multiset(FallAll(cs))[s] else 0
  {
    if |cs| > 0 {
      var front := cs[..|cs| - 1];
      CactiPassKeptCounts(front, carX, init, draw);
      CactiPassKeptStep(cs, carX, init, draw);
      CountsStep(CactiPass(cs, carX, init, draw).kept, CactiPass(front, carX, init, draw).kept,
                 FallAll(cs), FallAll(front), multiset(init.kept), Fall(cs[|cs| - 1]),
                 (t: Sprite) => t.y <= RoadLines.ScreenHeight);
    }
  }

  /** The last cactus visited adds its fallen self to the kept list iff it is still on screen. */
  lemma CactiPassKeptStep(cs: seq<Sprite>, carX: int, init: CactusPass, draw: nat -> real)
    requires DrawsValid(draw) && |cs| > 0
    ensures var m := Fall(cs[|cs| - 1]);
            CactiPass(cs, carX, init, draw).kept ==
            CactiPass(cs[..|cs| - 1], carX, init, draw).kept + if m.y <= RoadLines.ScreenHeight then [m] else []
  {
  }

  /** What the booster pass has built so far: the boosters kept and the score. */
  datatype BoosterPass = BoosterPass(kept: seq<Sprite>, score: int)

  /** One booster: it falls; past the bottom it is removed; touching the car it is
      collected for 50 points and removed. */
  function BoosterStep(acc: BoosterPass, b: Sprite, carX: int): BoosterPass
  {
    var m := Fall(b);
    if HitsBooster(carX, m) then acc.(score := acc.score + BoosterReward)
    else if m.y > RoadLines.ScreenHeight then acc
    else acc.(kept := acc.kept + [m])
  }

  function BoostersPass(bs: seq<Sprite>, carX: int, init: BoosterPass): BoosterPass
  {
    if |bs| == 0 then init
    else BoosterStep(BoostersPass(bs[..|bs| - 1], carX, init), bs[|bs| - 1], carX)
  }

  /** How many boosters the car at `carX` collects this frame. */
  function CountCollected(bs: seq<Sprite>, carX: int): nat
  {
    if |bs| == 0 then 0
    else CountCollected(bs[..|bs| - 1], carX) + if HitsBooster(carX, Fall(bs[|bs| - 1])) then 1 else 0
  }

  /** Boosters score 50 each when collected; a booster stays exactly when it neither
      touches the car nor leaves the screen. */
  lemma {:induction false} BoostersPassSpec(bs: seq<Sprite>, carX: int, init: BoosterPass)
    ensures BoostersPass(bs, carX, init).score == init.score + BoosterReward * CountCollected(bs, carX)
    ensures forall b :: b in bs && Fall(b).y <= RoadLines.ScreenHeight && !HitsBooster(carX, Fall(b)) ==>
              Fall(b) in BoostersPass(bs, carX, init).kept
    ensures forall s :: s in BoostersPass(bs, carX, init).kept ==>
              s in init.kept || (s.y <= RoadLines.ScreenHeight && !HitsBooster(carX, s) && exists b :: b in bs && s == Fall(b))
  {
    if |bs| > 0 {
      var front := bs[..|bs| - 1];
      BoostersPassSpec(front, carX, init);
      assert bs == front + [bs[|bs| - 1]];
    }
  }

  /** The booster pass appends each fallen booster that is on screen and not touching the
      car as many times as it occurs, and no other. */
  lemma {:induction false} BoostersPassKeptCounts(bs: seq<Sprite>, carX: int, init: BoosterPass)
    ensures forall s :: multiset(BoostersPass(bs, carX, init).kept)[s] ==
              multiset(init.kept)[s] +
              if s.y <= RoadLines.ScreenHeight && !HitsBooster(carX, s) then multiset(FallAll(bs))[s] else 0
  {
    if |bs| > 0 {
      var front := bs[..|bs| - 1];
      BoostersPassKeptCounts(front, carX, init);
      BoostersPassKeptStep(bs, carX, init);
      CountsStep(BoostersPass(bs, carX, init).kept, BoostersPass(front, carX, init).kept,
                 FallAll(bs), FallAll(front), multiset(init.kept), Fall(bs[|bs| - 1]),
                 (t: Sprite) => t.y <= RoadLines.ScreenHeight && !HitsBooster(carX, t));
    }
  }

  /** The last booster visited adds its fallen self to the kept list iff it is on screen and
      not touching the car. */
  lemma BoostersPassKeptStep(bs: seq<Sprite>, carX: int, init: BoosterPass)
    requires |bs| > 0
    ensures var m := Fall(bs[|bs| - 1]);
            BoostersPass(bs, carX, init).kept ==
            BoostersPass(bs[..|bs| - 1], carX, init).kept + if m.y <= RoadLines.ScreenHeight && !HitsBooster(carX, m) then [m] else []
  {
  }

  // -------------------------------------------------------------- the frame

  /** Both scroll phases advance; the tile position follows the background phase. */
  function ScrollStage(w: World): World
    requires 0 <= w.backgroundY < RoadLines.ScreenHeight && 0 <= w.lineY < RoadLines.ScreenHeight
  {
    var bg := Scroll(w.backgroundY);
    w.(backgroundY := bg, tileY := bg, lineY := Scroll(w.lineY))
  }

  /** The car steers. */
  function SteerStage(w: World, keys: Keys): World
  {
    w.(carX := Steer(w.carX, keys.left, keys.right))
  }

  /** While a steering key is held the dust timer counts, dropping a trail particle behind
      the car every fifth frame. */
  function TrailStage(w: World, keys: Keys): World
    requires 0 <= w.dustTimer < DustSpawnRate
  {
    var tick := TickDustTimer(w.dustTimer, keys.left || keys.right);
    w.(dustTimer := tick.0,
       dust := if tick.1 then w.dust + [Particle(w.carX, CarY + DustOffsetY, DustLife)] else w.dust)
  }

  /** The start of a running frame: scroll, steer, then the trail. */
  function ScrollAndSteer(w: World, keys: Keys): World
    requires 0 <= w.backgroundY < RoadLines.ScreenHeight && 0 <= w.lineY < RoadLines.ScreenHeight
    requires 0 <= w.dustTimer < DustSpawnRate
  {
    TrailStage(SteerStage(ScrollStage(w), keys), keys)
  }

  /** The trail: the start of a running frame adds a particle exactly when a steering key
      is held and the timer was at 4; it is one particle, behind the car in its new
      position, with life 30, and the timer restarts at 0. Otherwise the timer counts up
      only while steering. */
  lemma TrailDust(w: World, keys: Keys)
    requires 0 <= w.backgroundY < RoadLines.ScreenHeight && 0 <= w.lineY < RoadLines.ScreenHeight
    requires 0 <= w.dustTimer < DustSpawnRate
    ensures var r := ScrollAndSteer(w, keys);
            var fired := (keys.left || keys.right) && w.dustTimer == DustSpawnRate - 1;
            && (fired ==> r.dust == w.dust + [Particle(r.carX, CarY + DustOffsetY, DustLife)] && r.dustTimer == 0)
            && (!fired ==> r.dust == w.dust && r.dustTimer == if keys.left || keys.right then w.dustTimer + 1 else w.dustTimer)
            && 0 <= r.dustTimer < DustSpawnRate
  {
  }

  /** The dust pass as a step of the world. */
  function DustStage(w: World): World
  {
    w.(dust := StepDust(w.dust))
  }

  /** The cactus pass starts from nothing kept, no burst, no crash, and the world's score
      and final text. */
  function CactusStart(w: World): CactusPass
  {
    CactusPass([], w.score, [], w.finalShown, w.finalScore, 0)
  }

  /** The cactus pass as a step of the world: the burst particles join the dust after the
      dust pass has run, and each crash schedules one freeze. */
  function CactusStage(w: World, draw: nat -> real): World
    requires DrawsValid(draw)
  {
    var cp := CactiPass(w.cacti, w.carX, CactusStart(w), draw);
    w.(cacti := cp.kept, score := cp.score, dust := w.dust + cp.burst, finalShown := cp.finalShown,
       finalScore := cp.finalScore, freezes := w.freezes + cp.hits)
  }

  /** The booster pass as a step of the world. */
  function BoosterStage(w: World): World
  {
    var bp := BoostersPass(w.boosters, w.carX, BoosterPass([], w.score));
    w.(boosters := bp.kept, score := bp.score)
  }

  /** The running part of a frame: its four stages in the source's order. */
  function Advance(w: World, keys: Keys, draw: nat -> real): World
    requires DrawsValid(draw)
    requires 0 <= w.backgroundY < RoadLines.ScreenHeight && 0 <= w.lineY < RoadLines.ScreenHeight
    requires 0 <= w.dustTimer < DustSpawnRate
  {
    BoosterStage(CactusStage(DustStage(ScrollAndSteer(w, keys)), draw))
  }

  /** One call of the frame update: pause toggle, the running part unless paused, and the
      road marks rebuilt from the line phase in every case. */
  function Frame(w: World, keys: Keys, draw: nat -> real): World
    requires DrawsValid(draw)
    requires 0 <= w.backgroundY < RoadLines.ScreenHeight && 0 <= w.lineY < RoadLines.ScreenHeight
    requires 0 <= w.dustTimer < DustSpawnRate
  {
    var t := TogglePause(w, keys.pausePressed);
    var r := if t.paused then t else Advance(t, keys, draw);
    r.(roadMarks := RoadLines.RoadMarks(r.lineY))
  }

  /** The cactus timer's callback: one cactus above the screen unless paused. */
  function SpawnCactus(w: World, u: real): World
    requires 0.0 <= u < 1.0
  {
    if w.paused then w else w.(cacti := w.cacti + [Sprite(Random(0, CactusMaxX, u), CactusStartY)])
  }

  /** The booster timer's callback: one booster above the screen unless paused. */
  function SpawnBooster(w: World, u: real): World
    requires 0.0 <= u < 1.0
  {
    if w.paused then w else w.(boosters := w.boosters + [Sprite(Random(0, BoosterMaxX, u), BoosterStartY)])
  }

  // ------------------------------------------------------------ invariants

  /** What holds of every world the game can reach. */
  ghost predicate Inv(w: World)
  {
    && OnRoad(w.carX)
    && 0 <= w.backgroundY < RoadLines.ScreenHeight && w.backgroundY % 2 == 0
    && w.tileY == w.backgroundY && w.lineY == w.backgroundY
    && 0 <= w.dustTimer < DustSpawnRate
    && 0 <= w.score && w.score % CactusReward == 0
    && w.pauseShown == w.paused
    && w.finalShown == (w.freezes > 0)
    && 0 <= w.finalScore <= w.score
    && DustAlive(w.dust)
    && CactiInPlay(w.cacti)
    && BoostersInPlay(w.boosters)
  }

  /** No particle outlives its exit condition, and none lives longer than a burst particle. */
  ghost predicate DustAlive(ds: seq<Particle>)
  {
    forall p :: p in ds ==> 0 < p.life <= BurstLife
  }

  /** Cacti are spawned in [0, 750] at -80 and removed once below the screen. */
  ghost predicate CactiInPlay(cs: seq<Sprite>)
  {
    forall c :: c in cs ==> 0 <= c.x <= CactusMaxX && CactusStartY <= c.y <= RoadLines.ScreenHeight
  }

  /** Boosters are spawned in [0, 770] at -30 and removed once below the screen. */
  ghost predicate BoostersInPlay(bs: seq<Sprite>)
  {
    forall b :: b in bs ==> 0 <= b.x <= BoosterMaxX && BoosterStartY <= b.y <= RoadLines.ScreenHeight
  }

  /** The state the scene starts from: car at 400, everything else zero or empty. */
  function Initial(): (w: World)
    ensures Inv(w)
    ensures w.carX == CarStartX && w.score == 0 && !w.paused
  {
    World(CarStartX, 0, false, false, 0, 0, 0, 0, [], [], [], [], false, 0, 0)
  }

  /** After the dust pass and a crash burst, every particle still has life in (0, 40]. */
  lemma DustStaysAlive(trail: seq<Particle>, burst: seq<Particle>, carX: int)
    requires forall p :: p in trail ==> 0 < p.life <= BurstLife + 1
    requires forall k :: 0 <= k < |burst| ==> InBurst(carX, burst[k])
    ensures DustAlive(StepDust(trail) + burst)
  {
    StepDustMembers(trail);
    forall p | p in StepDust(trail) + burst ensures 0 < p.life <= BurstLife {
      if p in StepDust(trail) {
        var q :| q in trail && p == Aged(q);
      } else {
        var k :| 0 <= k < |burst| && burst[k] == p;
      }
    }
  }

  /** Every field after the running part of a frame, in terms of the two passes. */
  lemma AdvanceParts(w: World, keys: Keys, draw: nat -> real)
    requires DrawsValid(draw)
    requires 0 <= w.backgroundY < RoadLines.ScreenHeight && 0 <= w.lineY < RoadLines.ScreenHeight
    requires 0 <= w.dustTimer < DustSpawnRate
    ensures var x := Steer(w.carX, keys.left, keys.right);
            var cp := CactiPass(w.cacti, x, CactusStart(w), draw);
            var bp := BoostersPass(w.boosters, x, BoosterPass([], cp.score));
            var r := Advance(w, keys, draw);
            && r.carX == x && r.cacti == cp.kept && r.boosters == bp.kept && r.score == bp.score
            && r.dust == StepDust(ScrollAndSteer(w, keys).dust) + cp.burst
            && r.finalShown == cp.finalShown && r.finalScore == cp.finalScore && r.freezes == w.freezes + cp.hits
            && r.backgroundY == Scroll(w.backgroundY) && r.tileY == r.backgroundY && r.lineY == Scroll(w.lineY)
            && r.dustTimer == TickDustTimer(w.dustTimer, keys.left || keys.right).0
            && r.paused == w.paused && r.pauseShown == w.pauseShown && r.roadMarks == w.roadMarks
  {
    var s1 := ScrollAndSteer(w, keys);
    var s2 := DustStage(s1);
    assert s2.cacti == w.cacti && s2.boosters == w.boosters && s2.carX == Steer(w.carX, keys.left, keys.right);
    assert CactusStart(s2) == CactusStart(w);
  }

  /** The collections of a running frame keep their bounds. */
  lemma AdvanceKeepsEntitiesInPlay(w: World, keys: Keys, draw: nat -> real)
    requires DrawsValid(draw) && Inv(w)
    ensures DustAlive(Advance(w, keys, draw).dust)
    ensures CactiInPlay(Advance(w, keys, draw).cacti)
    ensures BoostersInPlay(Advance(w, keys, draw).boosters)
  {
    var x := Steer(w.carX, keys.left, keys.right);
    var cp := CactiPass(w.cacti, x, CactusStart(w), draw);
    AdvanceParts(w, keys, draw);
    assert DustAlive(Advance(w, keys, draw).dust) by {
      CactiPassBurst(w.cacti, x, CactusStart(w), draw);
      DustStaysAlive(ScrollAndSteer(w, keys).dust, cp.burst, x);
    }
    assert CactiInPlay(Advance(w, keys, draw).cacti) by {
      CactiPassKept(w.cacti, x, CactusStart(w), draw);
    }
    assert BoostersInPlay(Advance(w, keys, draw).boosters) by {
      BoostersPassSpec(w.boosters, x, BoosterPass([], cp.score));
    }
  }

  /** The score of a running frame rises by exactly 10 per cactus leaving and 50 per booster
      collected, and stays at least the final text's. */
  lemma AdvanceScore(w: World, keys: Keys, draw: nat -> real)
    requires DrawsValid(draw) && Inv(w)
    ensures var r, x := Advance(w, keys, draw), Steer(w.carX, keys.left, keys.right);
            && r.score == w.score + CactusReward * CountExits(w.cacti) + BoosterReward * CountCollected(w.boosters, x)
            && 0 <= r.finalScore <= r.score && r.finalShown == (r.freezes > 0)
  {
    var x := Steer(w.carX, keys.left, keys.right);
    var cp := CactiPass(w.cacti, x, CactusStart(w), draw);
    AdvanceParts(w, keys, draw);
    CactiPassScore(w.cacti, x, CactusStart(w), draw);
    BoostersPassSpec(w.boosters, x, BoosterPass([], cp.score));
  }

  lemma AdvancePreservesInv(w: World, keys: Keys, draw: nat -> real)
    requires DrawsValid(draw) && Inv(w)
    ensures Inv(Advance(w, keys, draw))
  {
    var r := Advance(w, keys, draw);
    AdvanceParts(w, keys, draw);
    assert OnRoad(r.carX) && 0 <= r.dustTimer < DustSpawnRate;
    assert 0 <= r.backgroundY < RoadLines.ScreenHeight && r.backgroundY % 2 == 0 && r.lineY == r.backgroundY;
    AdvanceKeepsEntitiesInPlay(w, keys, draw);
    AdvanceScore(w, keys, draw);
    var exits, collected := CountExits(w.cacti), CountCollected(w.boosters, r.carX);
    assert r.score == w.score + CactusReward * (exits + 5 * collected);
  }

  /** The frame update keeps every invariant. */
  lemma FramePreservesInv(w: World, keys: Keys, draw: nat -> real)
    requires DrawsValid(draw) && Inv(w)
    ensures Inv(Frame(w, keys, draw))
  {
    var t := TogglePause(w, keys.pausePressed);
    if !t.paused {
      AdvancePreservesInv(t, keys, draw);
    }
  }

  /** Pause: the flag flips on a press, the overlay follows it, and a paused frame only
      rebuilds the road marks. */
  lemma PausedFrameFreezesGame(w: World, keys: Keys, draw: nat -> real)
    requires DrawsValid(draw) && Inv(w)
    ensures Frame(w, keys, draw).paused == (w.paused != keys.pausePressed)
    ensures Frame(w, keys, draw).pauseShown == Frame(w, keys, draw).paused
    ensures Frame(w, keys, draw).roadMarks == RoadLines.RoadMarks(Frame(w, keys, draw).lineY)
    ensures Frame(w, keys, draw).paused ==>
              Frame(w, keys, draw) == w.(paused := true, pauseShown := true, roadMarks := RoadLines.RoadMarks(w.lineY))
  {
  }

  /** The score of a running frame rises by exactly 10 per cactus leaving the screen and
      50 per booster collected by the car in its new position; a paused frame keeps it. */
  lemma FrameScore(w: World, keys: Keys, draw: nat -> real)
    requires DrawsValid(draw) && Inv(w)
    ensures var x := Steer(w.carX, keys.left, keys.right);
            Frame(w, keys, draw).score ==
              if w.paused != keys.pausePressed then w.score
              else w.score + CactusReward * CountExits(w.cacti) + BoosterReward * CountCollected(w.boosters, x)
    ensures Frame(w, keys, draw).score >= w.score
  {
    var t := TogglePause(w, keys.pausePressed);
    if !t.paused {
      AdvanceScore(t, keys, draw);
    }
  }

  /** Every cactus touching the car in a running frame schedules one more freeze, shows the
      final text and adds twenty particles of life 40 within 30 of the car's centre; the
      crash does not pause the game. */
  lemma FrameCrash(w: World, keys: Keys, draw: nat -> real)
    requires DrawsValid(draw) && Inv(w)
    requires w.paused == keys.pausePressed
    ensures var x := Steer(w.carX, keys.left, keys.right);
            var hits := CountHits(w.cacti, x);
            var r := Frame(w, keys, draw);
            && !r.paused
            && r.freezes == w.freezes + hits
            && r.finalShown == (w.finalShown || hits > 0)
            && (hits > 0 ==> w.score <= r.finalScore)
            && |r.dust| >= BurstCount * hits
            && (forall k :: |r.dust| - BurstCount * hits <= k < |r.dust| ==> InBurst(x, r.dust[k]))
  {
    var t := TogglePause(w, keys.pausePressed);
    var x := Steer(w.carX, keys.left, keys.right);
    var cp := CactiPass(w.cacti, x, CactusStart(t), draw);
    AdvanceParts(t, keys, draw);
    CactiPassScore(w.cacti, x, CactusStart(t), draw);
    CactiPassBurst(w.cacti, x, CactusStart(t), draw);
    var r := Frame(w, keys, draw);
    assert r.dust == StepDust(ScrollAndSteer(t, keys).dust) + cp.burst;
    EndsInBurst(StepDust(ScrollAndSteer(t, keys).dust), cp.burst, x);
  }

  /** Particles appended after a trail keep their burst bounds at the end of the list. */
  lemma EndsInBurst(trail: seq<Particle>, burst: seq<Particle>, x: int)
    requires forall k :: 0 <= k < |burst| ==> InBurst(x, burst[k])
    ensures forall k :: |trail| <= k < |trail + burst| ==> InBurst(x, (trail + burst)[k])
  {
    forall k | |trail| <= k < |trail + burst| ensures InBurst(x, (trail + burst)[k]) {
      assert (trail + burst)[k] == burst[k - |trail|];
    }
  }

  /** The spawn timers add one sprite above the screen, within the horizontal range,
      unless the game is paused; nothing else changes. */
  lemma SpawnAddsOne(w: World, u: real)
    requires 0.0 <= u < 1.0
    ensures w.paused ==> SpawnCactus(w, u) == w && SpawnBooster(w, u) == w
    ensures !w.paused ==>
              var c := SpawnCactus(w, u);
              |c.cacti| == |w.cacti| + 1 && c.cacti[..|w.cacti|] == w.cacti && c == w.(cacti := c.cacti)
              && c.cacti[|w.cacti|].y == CactusStartY && 0 <= c.cacti[|w.cacti|].x <= CactusMaxX
    ensures !w.paused ==>
              var b := SpawnBooster(w, u);
              |b.boosters| == |w.boosters| + 1 && b.boosters[..|w.boosters|] == w.boosters && b == w.(boosters := b.boosters)
              && b.boosters[|w.boosters|].y == BoosterStartY && 0 <= b.boosters[|w.boosters|].x <= BoosterMaxX
  {
  }

  lemma SpawnPreservesInv(w: World, u: real)
    requires 0.0 <= u < 1.0 && Inv(w)
    ensures Inv(SpawnCactus(w, u)) && Inv(SpawnBooster(w, u))
  {
  }

  // ------------------------------------------------------------ whole runs

  /** What the engine can call: a frame, or one of the two spawn timers with its draw. */
  datatype Event =
    | Tick(keys: Keys, draw: nat -> real)
    | CactusTimer(u: real)
    | BoosterTimer(u: real)

  ghost predicate EventValid(e: Event)
  {
    match e
    case Tick(_, draw) => DrawsValid(draw)
    case CactusTimer(u) => 0.0 <= u < 1.0
    case BoosterTimer(u) => 0.0 <= u < 1.0
  }

  /** The world after a sequence of engine callbacks. */
  function Replay(w: World, es: seq<Event>): (r: World)
    requires Inv(w) && forall i :: 0 <= i < |es| ==> EventValid(es[i])
    ensures Inv(r)
  {
    if |es| == 0 then w
    else
      var before := Replay(w, es[..|es| - 1]);
      var e := es[|es| - 1];
      assert EventValid(e);
      match e
      case Tick(keys, draw) => FramePreservesInv(before, keys, draw); Frame(before, keys, draw)
      case CactusTimer(u) => SpawnPreservesInv(before, u); SpawnCactus(before, u)
      case BoosterTimer(u) => SpawnPreservesInv(before, u); SpawnBooster(before, u)
  }

  /** For every sequence of inputs and timer ticks from the start, the car stays within
      [60, 740], both scroll phases stay in [0, 600), the dust timer below 5, and the score
      never goes down. */
  lemma {:induction false} ReplayFromStart(es: seq<Event>, n: nat)
    requires forall i :: 0 <= i < |es| ==> EventValid(es[i])
    requires n <= |es|
    ensures var r := Replay(Initial(), es);
            CarMinX <= r.carX <= CarMaxX && 0 <= r.backgroundY < RoadLines.ScreenHeight && r.lineY == r.backgroundY
            && 0 <= r.dustTimer < DustSpawnRate
            && Replay(Initial(), es[..n]).score <= r.score
    decreases |es|
  {
    if n < |es| {
      var front := es[..|es| - 1];
      assert es[..n] == front[..n];
      ReplayFromStart(front, n);
      var before := Replay(Initial(), front);
      match es[|es| - 1]
      case Tick(keys, draw) => FrameScore(before, keys, draw);
      case CactusTimer(u) =>
      case BoosterTimer(u) =>
    } else {
      assert es[..n] == es;
    }
  }
}

/** The game as the source runs it: the module-level variables become the fields
    of one `Game` object, and the frame update and the two spawn timers become
    methods that change those fields step by step. Each method is proved to end
    in the world that the matching function of module Racer computes, so every
    lemma proved there holds of the running game, and `Valid()` (the invariant
    `Racer.Inv`) holds after the constructor and after every engine callback
    (`Update`, `SpawnCactus`, `SpawnBooster`). */
module DesertRacer {
  import opened Racer
  import RoadLines

  class Game {
    var carX: int
    var score: int
    var paused: bool
    var pauseShown: bool
    var backgroundY: int
    var tileY: int
    var lineY: int
    var dustTimer: int
    var dust: seq<Particle>
    var cacti: seq<Sprite>
    var boosters: seq<Sprite>
    var roadMarks: seq<int>
    var finalShown: bool
    var finalScore: int
    var freezes: nat

    /** The fields as one value. */
    function Snapshot(): World
      reads this
    {
      World(carX, score, paused, pauseShown, backgroundY, tileY, lineY, dustTimer,
            dust, cacti, boosters, roadMarks, finalShown, finalScore, freezes)
    }

    ghost predicate Valid()
      reads this
    {
      Inv(Snapshot())
    }

    /** The values the module-level variables start with, and the car at x = 400. */
    constructor ()
      ensures Snapshot() == Initial()
      ensures Valid()
    {
      carX := CarStartX;
      score := 0;
      paused := false;
      pauseShown := false;
      backgroundY := 0;
      tileY := 0;
      lineY := 0;
      dustTimer := 0;
      dust := [];
      cacti := [];
      boosters := [];
      roadMarks := [];
      finalShown := false;
      finalScore := 0;
      freezes := 0;
    }

    /** One frame: the pause toggle, the running part unless paused, and the road marks. */
    method Update(keys: Keys, draw: nat -> real)
      requires Valid() && DrawsValid(draw)
      modifies this
      ensures Snapshot() == Frame(old(Snapshot()), keys, draw)
      ensures Valid()
    {
      ghost var w := Snapshot();
      if keys.pausePressed {
        paused := !paused;
        pauseShown := paused;
      }
      ghost var t := Snapshot();
      assert t == TogglePause(w, keys.pausePressed);
      if !paused {
        Advance(keys, draw);
      }
      ghost var a := Snapshot();
      RebuildRoadLines();
      assert Snapshot() == a.(roadMarks := RoadLines.RoadMarks(a.lineY));
      FramePreservesInv(w, keys, draw);
    }

    /** The running part of a frame: scroll, steer, trail dust, then the dust, cactus and
        booster passes. */
    method Advance(keys: Keys, draw: nat -> real)
      requires DrawsValid(draw)
      requires 0 <= backgroundY < RoadLines.ScreenHeight && 0 <= lineY < RoadLines.ScreenHeight
      requires 0 <= dustTimer < DustSpawnRate
      modifies this
      ensures Snapshot() == Racer.Advance(old(Snapshot()), keys, draw)
    {
      ScrollRoad();
      SteerCar(keys);
      DropTrail(keys);
      MoveDust();
      MoveCacti(draw);
      MoveBoosters();
    }

    /** Both scroll phases advance by 2 and restart at 0 on reaching 600. */
    method ScrollRoad()
      requires 0 <= backgroundY < RoadLines.ScreenHeight && 0 <= lineY < RoadLines.ScreenHeight
      modifies this`backgroundY, this`tileY, this`lineY
      ensures Snapshot() == ScrollStage(old(Snapshot()))
    {
      backgroundY := backgroundY + ScrollSpeed;
      if backgroundY >= RoadLines.ScreenHeight {
        backgroundY := 0;
      }
      tileY := backgroundY;
      lineY := lineY + ScrollSpeed;
      if lineY >= RoadLines.ScreenHeight {
        lineY := 0;
      }
    }

    /** The car moves 5 per held key, within [60, 740]. */
    method SteerCar(keys: Keys)
      modifies this`carX
      ensures Snapshot() == SteerStage(old(Snapshot()), keys)
    {
      if keys.left && carX > CarMinX {
        carX := carX - SteerStep;
      }
      if keys.right && carX < CarMaxX {
        carX := carX + SteerStep;
      }
    }

    /** While steering, every fifth frame drops a trail particle behind the car. */
    method DropTrail(keys: Keys)
      requires 0 <= dustTimer < DustSpawnRate
      modifies this`dustTimer, this`dust
      ensures Snapshot() == TrailStage(old(Snapshot()), keys)
    {
      if keys.left || keys.right {
        dustTimer := dustTimer + 1;
        if dustTimer >= DustSpawnRate {
          SpawnDust(carX, CarY + DustOffsetY, DustLife);
          dustTimer := 0;
        }
      }
    }

    /** Adds one particle at (x, y) with the given life. */
    method SpawnDust(x: int, y: int, life: int)
      modifies this`dust
      ensures dust == old(dust) + [Particle(x, y, life)]
    {
      dust := dust + [Particle(x, y, life)];
    }

    /** The dust pass of a running frame: each particle moves down 2 and loses one life,
        and is removed when its life reaches 0. */
    method MoveDust()
      modifies this`dust
      ensures Snapshot() == DustStage(old(Snapshot()))
    {
      var all := dust;
      var kept: seq<Particle> := [];
      for i := 0 to |all|
        invariant kept == StepDust(all[..i])
      {
        var p := all[i];
        p := p.(y := p.y + ScrollSpeed);
        p := p.(life := p.life - 1);
        if p.life > 0 {
          kept := kept + [p];
        }
        assert all[..i + 1][..i] == all[..i];
      }
      assert all[..|all|] == all;
      dust := kept;
    }

    /** The cactus pass of a running frame: each cactus falls 4; one below the screen is
        removed for 10 points; one touching the car adds a burst of twenty particles,
        shows the final score and schedules a freeze. */
    method MoveCacti(draw: nat -> real)
      requires DrawsValid(draw)
      modifies this`cacti, this`score, this`dust, this`finalShown, this`finalScore, this`freezes
      ensures Snapshot() == CactusStage(old(Snapshot()), draw)
    {
      ghost var w := Snapshot();
      var all := cacti;
      ghost var init := CactusStart(w);
      ghost var acc := init;
      var kept: seq<Sprite> := [];
      var hits: nat := 0;
      for i := 0 to |all|
        invariant acc == CactiPass(all[..i], carX, init, draw)
        invariant Tracks(acc, kept, hits, old(dust), old(freezes))
      {
        CactiPassExtend(all, i, carX, init, draw);
        kept, hits := VisitCactus(all[i], draw, kept, hits, acc, old(dust), old(freezes));
        acc := CactusStep(acc, all[i], carX, draw);
      }
      assert all[..|all|] == all;
      cacti := kept;
      assert acc == CactiPass(w.cacti, w.carX, CactusStart(w), draw);
      assert Snapshot() == w.(cacti := acc.kept, score := acc.score, dust := w.dust + acc.burst,
                              finalShown := acc.finalShown, finalScore := acc.finalScore,
                              freezes := w.freezes + acc.hits);
    }

    /** The fields the cactus pass changes agree with `acc`, given the dust and the freeze
        count it started from. */
    ghost predicate Tracks(acc: CactusPass, kept: seq<Sprite>, hits: nat, dust0: seq<Particle>, freezes0: nat)
      reads this
    {
      && kept == acc.kept && score == acc.score && dust == dust0 + acc.burst
      && finalShown == acc.finalShown && finalScore == acc.finalScore
      && hits == acc.hits && freezes == freezes0 + hits
    }

    /** The pass's callback for one cactus. `kept` collects the cacti that stay, and `hits`
        counts the crashes seen so far this frame, which fixes the draws this crash uses;
        `acc` is the pass so far, as `Racer.CactiPass` builds it. */
    method VisitCactus(cactus: Sprite, draw: nat -> real, kept: seq<Sprite>, hits: nat,
                       ghost acc: CactusPass, ghost dust0: seq<Particle>, ghost freezes0: nat)
      returns (kept': seq<Sprite>, hits': nat)
      requires DrawsValid(draw)
      requires Tracks(acc, kept, hits, dust0, freezes0)
      modifies this`score, this`dust, this`finalShown, this`finalScore, this`freezes
      ensures Tracks(CactusStep(acc, cactus, carX, draw), kept', hits', dust0, freezes0)
    {
      var c := cactus.(y := cactus.y + FallSpeed);
      ghost var a := if c.y > RoadLines.ScreenHeight then acc.(score := acc.score + CactusReward)
                     else acc.(kept := acc.kept + [c]);
      kept', hits' := kept, hits;
      if c.y > RoadLines.ScreenHeight {
        score := score + CactusReward;
      } else {
        kept' := kept' + [c];
      }
      assert Tracks(a, kept', hits', dust0, freezes0);
      if HitsCactus(carX, c) {
        ghost var burst := Burst(carX, draw, DrawsPerBurst * hits);
        SpawnBurst(draw, DrawsPerBurst * hits);
        assert dust == dust0 + (a.burst + burst);
        finalScore := score;
        finalShown := true;
        freezes := freezes + 1;
        hits' := hits' + 1;
      }
    }

    /** The crash burst: twenty particles of life 40 around the car's centre, each at
        offsets drawn from [-30, 30], x first, starting with draw `base`. */
    method SpawnBurst(draw: nat -> real, base: nat)
      requires DrawsValid(draw)
      modifies this`dust
      ensures dust == old(dust) + Burst(carX, draw, base)
    {
      var next := base;
      for j := 0 to BurstCount
        invariant dust == old(dust) + Burst(carX, draw, base)[..j]
        invariant next == base + 2 * j
      {
        var dx := Random(-BurstSpread, BurstSpread, draw(next));
        var dy := Random(-BurstSpread, BurstSpread, draw(next + 1));
        next := next + 2;
        SpawnDust(carX + dx, CarY + BurstOffsetY + dy, BurstLife);
      }
      assert Burst(carX, draw, base)[..BurstCount] == Burst(carX, draw, base);
    }

    /** The booster pass of a running frame: each booster falls 4; one below the screen is
        removed; one touching the car is removed for 50 points. */
    method MoveBoosters()
      modifies this`boosters, this`score
      ensures Snapshot() == BoosterStage(old(Snapshot()))
    {
      var all := boosters;
      ghost var init := BoosterPass([], score);
      var kept: seq<Sprite> := [];
      for i := 0 to |all|
        invariant var p := BoostersPass(all[..i], carX, init);
                  kept == p.kept && score == p.score
      {
        assert all[..i + 1][..i] == all[..i];
        var b := all[i];
        b := b.(y := b.y + FallSpeed);
        var destroyed := false;
        if b.y > RoadLines.ScreenHeight {
          destroyed := true;
        }
        if HitsBooster(carX, b) {
          score := score + BoosterReward;
          destroyed := true;
        }
        if !destroyed {
          kept := kept + [b];
        }
      }
      assert all[..|all|] == all;
      boosters := kept;
    }

    /** Throws away every road mark and draws the marks of the current line phase anew. */
    method RebuildRoadLines()
      modifies this`roadMarks
      ensures roadMarks == RoadLines.RoadMarks(lineY)
    {
      roadMarks := [];
      var i := RoadLines.FirstSlot;
      while i < RoadLines.SlotEnd
        invariant roadMarks + RoadLines.MarksFrom(lineY, i) == RoadLines.RoadMarks(lineY)
        decreases RoadLines.SlotEnd - i
      {
        var y := lineY + i - RoadLines.ScreenHeight;
        if 0 <= y <= RoadLines.ScreenHeight {
          roadMarks := roadMarks + [y];
        }
        i := i + RoadLines.Pitch;
      }
    }

    /** The cactus timer's callback. */
    method SpawnCactus(u: real)
      requires Valid() && 0.0 <= u < 1.0
      modifies this`cacti
      ensures Snapshot() == Racer.SpawnCactus(old(Snapshot()), u)
      ensures Valid()
    {
      if !paused {
        var c := Sprite(Random(0, CactusMaxX, u), CactusStartY);
        cacti := cacti + [c];
      }
      SpawnPreservesInv(old(Snapshot()), u);
    }

    /** The booster timer's callback. */
    method SpawnBooster(u: real)
      requires Valid() && 0.0 <= u < 1.0
      modifies this`boosters
      ensures Snapshot() == Racer.SpawnBooster(old(Snapshot()), u)
      ensures Valid()
    {
      if !paused {
        var b := Sprite(Random(0, BoosterMaxX, u), BoosterStartY);
        boosters := boosters + [b];
      }
      SpawnPreservesInv(old(Snapshot()), u);
    }
  }
}

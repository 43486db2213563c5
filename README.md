# Desert racer: the per-frame simulation

The game is a small Phaser scene, `game.js`. A car moves left and right at the bottom of
a scrolling desert road. Cacti and boosters fall towards it, and a dust trail follows it
while it steers. This project models what the scene does on its own:

- the frame update `update`, with pause toggling, scrolling, steering, the dust trail, the
  dust, cactus and booster passes, and the road-mark rebuild;
- the two spawn-timer callbacks `spawnCactus` and `spawnBooster`;
- the particle constructor `spawnDust` and the helper `random`.

It then proves what those promise.

The project has three modules:

- `RoadLines` (`road_lines.dfy`) holds the road-mark regeneration loop as a function of the
  line phase `lineY`. It adds an independent closed form, an evenly spaced run, and proves
  the two equal. From that it derives how many marks there are, where they are, and which
  positions carry one.
- `Racer` (`racer.dfy`) holds the whole game state as one `World` value. Each engine
  callback is a function from the old world to the new one, built from the same stages in
  the same order as the source. Its lemmas state the game's properties:
  - the invariant `Inv`, kept by every frame and every spawn;
  - the exact score change of a frame;
  - what a crash does;
  - what a paused frame leaves alone;
  - properties of whole runs of frames and timer ticks from the initial state.
- `DesertRacer` (`game.dfy`) holds the class `Game`. Its fields are the scene's module-level
  variables, and its methods change them step by step as `game.js` does. The `forEach`
  passes become loops, and the burst loop and the road-mark loop are kept. Each method is
  proved to end in the world that the matching `Racer` function computes. Every `Racer`
  lemma therefore applies to the running object, and `Valid()` holds after the
  constructor and after every engine callback (`Update`, `SpawnCactus`, `SpawnBooster`).

Inputs from outside the scene are parameters:

- The keyboard state of a frame is a `Keys` value. `pausePressed` is the
  `JustDown` of the P key, so pausing is edge-triggered.
- `Math.random` is a stream `draw: nat -> real` of values in [0, 1).
- A spawn timer's single random value is a `real` `u`.

Crash number h of a frame (counting from 0) takes its values from draws 40h onwards:
particle i uses draw 40h + 2i for its x offset and the next draw for its y offset.

Two behaviours of the code worth stating:

- **A crash is not guarded.** Nothing stops a second crash: every frame in which a cactus
  overlaps the car spawns a new burst, rewrites the final text and schedules one more
  freeze. The model counts the scheduled freezes in `freezes`, and `FrameCrash` states
  that every overlapping cactus adds one.
- **Timer periods.** The cactus timer fires every 1000/25 = 40 ms and the booster timer
  every 1000/50 = 20 ms. Timer periods are outside the model.

The marks are not strictly periodic in the phase. At phase 0 the loop's last slot ends at
y = 540, so the half-visible mark at y = 600, which phase 60 draws, is missing.
`RoadMarksShape` states this: there are 11 marks when the phase is a non-zero multiple of
60, and 10 otherwise.

## Model

| member | source | states |
|---|---|---|
| `RoadLines.MarksFromIsRun` | game.js:166-172 | from any slot offset on, the loop creates exactly the evenly spaced run from the first on-screen candidate to the lowest reachable on-screen slot |
| `RoadLines.RoadMarksShape` | game.js:166-172 | for every reachable phase: 11 marks if the phase is a non-zero multiple of 60, else 10; mark k is at phase mod 60 + 60k; all lie in [0, 600]; consecutive marks are 60 apart |
| `RoadLines.RoadMarksMembers` | game.js:166-172 | y carries a mark iff 0 <= y <= 600, y <= phase + 540 and y differs from the phase by a multiple of 60 |
| `DesertRacer.Game.RebuildRoadLines` | game.js:161-172 | after the teardown and the loop, the marks are exactly `RoadMarks(lineY)`, a function of the line phase alone |
| `Racer.Random` | game.js:200-202 | `random(min, max)` lies in [min, max] for every draw in [0, 1) |
| `Racer.RandomCovers` | game.js:200-202 | every integer of [min, max] is produced by some draw in [0, 1) |
| `Racer.TogglePause` | game.js:90-93 | a just-pressed pause key flips `paused`, and the overlay shows exactly when paused; otherwise nothing changes; no other field is touched |
| `Racer.Scroll` | game.js:96-104 | a scroll phase stays in [0, 600); from an even phase it is (phase + 2) mod 600 and still even |
| `Racer.Steer` | game.js:106-111 | a car on the road (x in [60, 740], a multiple of 5) stays on it; left alone moves 5 left unless at 60, right alone moves 5 right unless at 740, neither leaves x unchanged; with both held a car on the road stays put, except at 60, where the skipped left step lets the right step move it to 65 (at 740 it goes to 735 and back) |
| `Racer.TickDustTimer` | game.js:113-119 | the timer stays in [0, 5); it fires iff a steering key is held and the timer was 4, then restarts at 0; it counts only while steering |
| `Racer.TrailDust` | game.js:113-119 | the start of a running frame adds one particle at (new car x, 532) with life 30 exactly when the timer fires, and no particle otherwise |
| `Racer.StepDustMembers` | game.js:121-127 | the dust pass keeps no more particles than it had; every kept particle has moved down 2, lost one life and still has life > 0; every particle that survives ageing is kept |
| `Racer.StepDustCounts` | game.js:121-127 | counted with multiplicity, the dust after the pass is exactly the aged particles (each moved down 2 with one life less) whose life is still positive, as many times as each occurs |
| `Racer.Burst` | game.js:137-139 | a crash adds exactly 20 particles, each with life 40 and within 30 of (car x, 496) on both axes |
| `Racer.OffscreenNeverHits` | game.js:131-153 | a cactus or booster removed for leaving the screen cannot also overlap the car in the same visit |
| `Racer.CactiPassScore` | game.js:129-146 | the cactus pass adds exactly 10 per cactus leaving the screen; it counts one crash per overlapping cactus; the final text shows iff it showed before or a cactus overlaps; the final score is at least the score before the pass and at most the score after it |
| `Racer.CactiPassBurst` | game.js:136-145 | the pass appends exactly 20 particles per overlapping cactus after the existing ones, all within the burst area |
| `Racer.CactiPassKept` | game.js:129-135 | a cactus stays, moved down 4, iff it is still on screen; the number kept is the number visited minus those that left |
| `Racer.CactiPassKeptCounts` | game.js:129-135 | counted with multiplicity, the pass appends to the kept list exactly the fallen cacti still on screen, each as many times as it occurs among the fallen cacti, and keeps what was there |
| `Racer.BoostersPassSpec` | game.js:148-158 | the booster pass adds exactly 50 per booster touching the car; a booster stays, moved down 4, iff it neither touches the car nor leaves the screen |
| `Racer.BoostersPassKeptCounts` | game.js:148-158 | counted with multiplicity, the pass appends exactly the fallen boosters that are on screen and not touching the car, each as many times as it occurs, and keeps what was there |
| `Racer.Initial` | game.js:25-50 | the starting state satisfies the invariant, with the car at x = 400, a score of 0 and the game not paused |
| `Racer.AdvanceScore` | game.js:129-157 | the running part of a frame adds exactly 10 per exiting cactus plus 50 per collected booster, keeps the final score within [0, score], and shows the final text iff a freeze has been scheduled |
| `Racer.AdvanceKeepsEntitiesInPlay` | game.js:121-158 | after the running part every particle has life in (0, 40] and every cactus and booster stays in its spawn column between its start height and the bottom of the screen |
| `Racer.FramePreservesInv` | game.js:89-173 | every frame keeps the invariant `Inv` (listed after this table) |
| `Racer.PausedFrameFreezesGame` | game.js:90-172 | the pause flag flips iff the key was just pressed and the overlay follows it; a paused frame changes nothing but the road marks, which are rebuilt from the unchanged line phase |
| `Racer.FrameScore` | game.js:129-157 | a running frame raises the score by exactly 10 per cactus leaving the screen plus 50 per booster touching the car in its new position; a paused frame keeps the score; it never decreases |
| `Racer.FrameCrash` | game.js:136-145 | in a running frame each overlapping cactus schedules one more freeze without pausing, the final text shows iff a crash has happened, it shows at least the score before the frame, and the last 20 particles per crash are burst particles |
| `Racer.SpawnAddsOne` | game.js:175-191 | while paused a spawn changes nothing; otherwise it appends exactly one cactus (x in [0, 750], y = -80) or booster (x in [0, 770], y = -30) and changes nothing else |
| `Racer.SpawnPreservesInv` | game.js:175-191 | both spawn callbacks keep the invariant |
| `Racer.Replay` | game.js:74-89 | any sequence of frames and timer callbacks from a state satisfying the invariant ends in one satisfying it |
| `Racer.ReplayFromStart` | game.js:89-173 | after any run from the initial state the car is in [60, 740], the phases are in [0, 600) and equal, the dust timer is below 5, and the score is at least that of every earlier point of the run |
| `DesertRacer.Game.constructor` | game.js:25-50 | the object starts in the initial state, which satisfies the invariant |
| `DesertRacer.Game.Update` | game.js:89-173 | the in-place frame ends in `Frame(old state)` and keeps the invariant |
| `DesertRacer.Game.Advance` | game.js:95-159 | the running part of a frame, done in place, ends in `Racer.Advance(old state)` |
| `DesertRacer.Game.ScrollRoad` | game.js:96-104 | the in-place scroll ends in `ScrollStage`: both phases advance as `Scroll` says and the tile position equals the background phase |
| `DesertRacer.Game.SteerCar` | game.js:106-111 | the in-place steering ends in `SteerStage`: the car moves as `Steer` says and nothing else changes |
| `DesertRacer.Game.DropTrail` | game.js:113-119 | the in-place timer update ends in `TrailStage`: the timer moves as `TickDustTimer` says and the trail particle is appended when it fires |
| `DesertRacer.Game.SpawnDust` | game.js:193-198 | one particle with the given position and life is appended to the dust |
| `DesertRacer.Game.MoveDust` | game.js:121-127 | the loop ends in `DustStage` of the old world: the dust becomes `StepDust` of the old dust and nothing else changes |
| `DesertRacer.Game.MoveCacti` | game.js:129-146 | the loop ends in `CactusStage` of the old world: cacti, score, dust, final text and freezes as `CactiPass` computes them, everything else unchanged |
| `DesertRacer.Game.VisitCactus` | game.js:130-145 | one visit of the callback advances the fields it changes by exactly one `CactusStep`: the cactus falls 4, is removed for 10 points past the bottom, and on overlap a burst is appended, the final score is set to the current score and a freeze is scheduled |
| `DesertRacer.Game.SpawnBurst` | game.js:137-139 | the 20-step loop appends exactly `Burst(carX, draw, base)` |
| `DesertRacer.Game.MoveBoosters` | game.js:148-158 | the loop ends in `BoosterStage` of the old world: boosters and score as `BoostersPass` computes them, everything else unchanged |
| `DesertRacer.Game.SpawnCactus` | game.js:175-181 | the in-place callback ends in `Racer.SpawnCactus(old state)` and keeps the invariant |
| `DesertRacer.Game.SpawnBooster` | game.js:183-191 | the in-place callback ends in `Racer.SpawnBooster(old state)` and keeps the invariant |

The invariant `Racer.Inv`:

- the car is on the road;
- the background phase is even and in [0, 600);
- the tile position and the line phase both equal the background phase;
- the dust timer is in [0, 5);
- the score is a non-negative multiple of 10;
- the pause overlay shows iff paused;
- the final text shows iff a freeze has been scheduled;
- the final score is in [0, score];
- every particle has life in (0, 40];
- every cactus and booster lies in its spawn column, between its start height and the
  bottom of the screen.

## Left out

- Asset loading, the Phaser configuration, sprite sizes as drawn, text styles and the score
  text are not modelled. The score text always shows `score`, and the final text is modelled
  by the score it shows.
- Keyboard polling is not modelled: each frame receives `left`, `right` and the pause key's
  just-pressed state as booleans.
- Timer scheduling is not modelled (`time.addEvent` with 40 ms and 20 ms periods). The spawn
  callbacks are events in any order, as `Replay` allows.
- The delayed `scene.pause()` after 3000 ms is recorded only as the count `freezes`. The
  model does not stop frames after the freeze fires, because that depends on the engine's
  clock. For the same reason, "the score stays fixed once frozen" is not stated.
- `Math.random` is an abstract stream of draws. The size draw inside `spawnDust` and a
  particle's radius, colour and alpha are not modelled. Because of that, the draws a burst
  particle uses are fixed by a per-crash index rather than by the engine's single global
  sequence.
- Objects destroyed during a `forEach` are modelled as removed from the list. The pass is
  modelled to visit every element that was there when it started. The effect of Phaser's
  in-place removal on the iteration is not modelled.
- The road-mark teardown at game.js:161-165 is modelled as removing every mark. The source
  destroys marks while iterating `this.children.list` with `forEach`, so a mark could be
  skipped and survive. "The marks depend only on `lineY`" (`RebuildRoadLines`) holds
  because the model's teardown is complete. Marks are modelled by their y position only;
  x = 400, the width and the height are constant.
- Car–sprite overlap assumes `getBounds()` gives the centred display rectangle (car 120 × 72,
  cactus 50 × 80, booster 30 × 30). It assumes `RectangleToRectangle` counts touching edges as
  overlap. `setCollideWorldBounds` is not modelled; the steering limits already keep the car
  inside.
- `Racer.FrameCrash`: states that the final score is at least the score before the frame,
  not that it equals the running score at the last overlapping cactus. That exact value is
  part of one `CactusStep`, which `DesertRacer.Game.VisitCactus` is proved to follow.

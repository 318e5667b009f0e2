# LlamaBox physics, modelled in Dafny

LlamaBox is a toy in which a click spawns a llama emoji. The llama is launched
from a box, flies on a gravity arc, bounces with energy loss and settles on
the ground. This project models the physics core of that toy:

- `physics.dfy`, module `Physics` (from `src/utils/physics.js`). It holds the
  fixed constants, the `Llama` record and the launch velocity. It also holds
  the one-frame update `Step`. That update is a two-state machine (flying,
  resting). It does gravity, then position, then rotation (semi-implicit
  Euler), then a ground clamp, a bounce rule with damping, friction and a
  bounce budget, and two ways to come to rest.
- `ticker.dfy`, module `Ticker` (from `src/hooks/usePhysics.js`). It holds the
  pure part of one animation frame: the frame length from two clock readings,
  capped at 2; the update mapped over the ordered collection; and the
  "some llama is not resting" test that starts the loop.
- `settling.dfy`, module `Settling`. It holds properties of repeated frames.
  Rest stays rest, and the bounce budget never grows. At the nominal frame
  length, every llama comes to rest after finitely many frames.

Numbers are exact `real`s. `y` grows downwards, so "on or above the ground"
is `y <= ground`. The record's `bounceCount` may be absent; the update then
reads it as `MaxBounces` (4), and `Budget` gives that reading. The fields the
update never reads (`id` and any others) are the type parameter `E`. Every
return of `updateLlamaPhysics` spreads the input record, so they pass through.

Several behaviours a reader might expect are not in the code. The model
follows the code:

- The launch velocity has no guard against a click exactly on the box. The
  code divides by the distance unguarded. `InitialVelocity` therefore
  requires a positive distance, and the square root is a parameter
  `distance` with `distance * distance == dx * dx + dy * dy`.
- The frame length has no lower cap, only `Math.min(..., 2)`. A clock that
  goes back gives a negative frame (`Ticker.NoLowerCap`).
- A resting llama is not always on the ground. The airborne stop rests a
  llama wherever it is (`Physics.AirborneRestAboveGround`).
- The bounce budget stays non-negative only if it started non-negative.
- The resting branches keep the bounce count the record came in with. So a
  bounce followed at once by the airborne stop is not charged
  (`Physics.BounceThenStopKeepsCount`).

## Model

| member | source | states |
|---|---|---|
| Physics.InitialVelocity | src/utils/physics.js:15-29 | vy is always -15. vx times the distance equals dx times 8, so the aim is recoverable. vx lies in [-8, 8] and has the sign of dx; vx is 0 exactly when dx is 0. The distance must be positive. |
| Physics.AimHasBaseSpeed | src/utils/physics.js:17-23 | vx is the x part of an aim vector of length exactly 8 along the line from the box to the click. |
| Physics.StraightUpLaunch | src/utils/physics.js:15-29 | A click straight above the box at (500,500) gives velocity (0, -15). |
| Physics.DiagonalLaunch | src/utils/physics.js:15-29 | A click at (3,4) from a box at the origin gives velocity (4.8, -15). |
| Physics.Step | src/utils/physics.js:34-97 | A resting llama comes back identical. A moving one ends at or above the ground, tagged resting or flying. If it comes to rest it has zero velocity. A flying outcome has abs(vx) or abs(vy) at least 0.5. The bounce budget never grows and stays non-negative; it drops, by exactly one, only on a landing that had a bounce to spend. The passthrough fields are unchanged. |
| Physics.StepKeepsSound | src/utils/physics.js:34-97 | The record invariant survives every step. Resting means zero velocity, flying means not stopped, and the budget is non-negative. |
| Physics.GroundClamp | src/utils/physics.js:42-53 | If the integrated y reaches or passes the ground, the output y is exactly the ground; otherwise it is that integrated y. x and the rotation move by the pre-step vx. |
| Physics.LandingRests | src/utils/physics.js:52-66 | A landing with abs(vy) < 0.5 or no budget left rests on the ground. It has zero velocity and the bounce count it came in with. |
| Physics.BounceOutcome | src/utils/physics.js:68-71 | A bounce that does not trip the airborne stop sets vy to -abs(vy')*0.6, so vy <= 0 and abs(vy) is damped. vx becomes vx*0.85, one bounce is spent and the llama flies on from the ground. |
| Physics.BounceThenStopKeepsCount | src/utils/physics.js:68-84 | A bounce that leaves both speeds below 0.5 rests on the ground, and the old bounce count is kept. |
| Physics.AirborneRestAboveGround | src/utils/physics.js:74-85 | The airborne stop can rest a llama 100 units above the ground. |
| Physics.FreeFlight | src/utils/physics.js:42-49 | A frame with no ground contact that does not stop the llama keeps vx, adds gravity to vy, moves x, y and the rotation, and writes back the bounce count unspent (lines 87-95). |
| Physics.AirborneStop | src/utils/physics.js:74-85 | A frame with no ground contact whose speeds both fall below 0.5 rests the llama at the height reached, with zero velocity and the bounce count it came in with. |
| Physics.SettleAfterLastBounce | src/utils/physics.js:52-72 | With budget 1, a bounce leaves a flying llama with budget 0. A landing in the very next frame then rests it on the ground, for any ground and frame length. |
| Ticker.DeltaTime | src/hooks/usePhysics.js:21 | The frame length is at most 2 and at most elapsed/16, and it is one of the two. |
| Ticker.NominalFrame | src/hooks/usePhysics.js:21 | 16 elapsed milliseconds make exactly one nominal frame. |
| Ticker.NoLowerCap | src/hooks/usePhysics.js:21 | A clock that goes back gives a negative frame length. |
| Ticker.Tick | src/hooks/usePhysics.js:26 | Length and order are kept. Element i of the result is Step of element i. |
| Ticker.HasActive | src/hooks/usePhysics.js:13 | True exactly when some llama in the collection is not resting. |
| Ticker.Animate | src/hooks/usePhysics.js:20-27 | The frame length is exactly `DeltaTime(now, last)`, so at most 2, and every llama is advanced by it, in order. |
| Ticker.QuiescentTickIsIdentity | src/hooks/usePhysics.js:13-17 | When no llama is active, a frame would change nothing. So not starting the loop loses nothing. |
| Ticker.TickKeepsLlamas | src/hooks/usePhysics.js:26 | A frame keeps each llama's record invariant and passthrough fields. No bounce budget grows. |
| Ticker.TickKeepsAboveGround | src/hooks/usePhysics.js:26 | Every llama that was moving ends at or above the ground it was advanced against. |
| Settling.RunRestIsAbsorbing | src/utils/physics.js:35-37 | A resting llama is unchanged by any sequence of frames. |
| Settling.RunKeepsBudget | src/utils/physics.js:40-71 | Over any sequence of frames, the budget never grows and never goes negative from a non-negative start. The record invariant and the passthrough fields survive. |
| Settling.NominalStepProgress | src/utils/physics.js:42-95 | A nominal frame that leaves a llama flying spends a bounce, uses up upward speed, or brings it closer to the ground. |
| Settling.NoBudgetLandingRests | src/utils/physics.js:52-65 | With no budget left, the next landing after any frames in the air rests the llama on the ground with zero velocity. |
| Settling.LastBounceThenRests | src/utils/physics.js:52-72 | With budget 1, a bounce leaves budget 0. The next ground contact after any frames in the air, with any grounds and frame lengths, then rests the llama on the ground. |
| Settling.EventuallyRests | src/utils/physics.js:34-97 | At frame length 1 and a fixed ground, every llama comes to rest after finitely many frames. |

## Left out

- The frame scheduler is not modelled: `requestAnimationFrame`, `cancelAnimationFrame`, the effect's re-run and cleanup, and the refs (src/hooks/usePhysics.js:8-11, 29-40). They are browser and React plumbing. The clock readings `now` and `last` are parameters.
- `Date.now()` is not modelled; it is replaced by the integer parameters of `Ticker.DeltaTime`.
- IEEE-754 rounding, NaN and the precision of `Math.sqrt` are not modelled. Numbers are exact reals, and the square root is the parameter `distance`.
- Physics.InitialVelocity: requires a positive distance, because the code divides by it unguarded. The click-on-the-box case gives NaN in `calculateInitialVelocity` and is not modelled.
- The default `deltaTime = 1` of the update is not modelled separately. The loop always passes a frame length, and `Settling.Settle` uses 1.
- The state tag is modelled as resting, flying, or one other tag (`Spawning`). The code only compares the tag with `'resting'`, so every other string behaves like `Spawning`.
- `bounceCount` is modelled as an integer when present. A fractional or non-numeric count is not modelled.
- Settling.EventuallyRests: is proved for frame length 1 and a fixed ground only. With shrinking frame lengths or a moving ground, a llama need not ever land.
- The "behind the box" z-order of `src/components/Llama.jsx` is not modelled. It is presentation that reads window globals.
- `Ground.jsx`, `Box.jsx`, `ResetButton.jsx` and `App.jsx` are not modelled. They are UI without logic.
- Spawn, reset and the id counter are not modelled, because no code in the repository implements them.

# Black Pool / Block Loop timing game — a Dafny model

The repository is a browser reflex game. A marker runs clockwise around the
inner rectangle of a board, and the player acts while it is inside a
highlighted zone. "Black Pool" (src/app/blackpool) adds a wager: a stake is
debited from a local points ledger at the start of a round, the game pauses
at the scores 10, 20, 30 and 40, and there the player can cash out the stake
times 1, 2, 5 or 10. "Block Loop" (src/app/jogo) is the older page: no stakes,
no milestones and no ledger.

The model follows the source file by file:

- `geometry.dfy` — module `Geometry`, from `src/app/blackpool/lib/geometry.ts`. It holds
  `clamp`, `randRange`, `tToXY` and `isHit` as pure functions over exact reals. `x - Math.floor(x)`
  is `Frac`.
- `zone_overlay.dfy` — module `ZoneOverlay`, from `src/app/blackpool/components/ZoneOverlay.tsx`.
  `norm` and the wrap split are functions. `segmentForEdge` is a method with a loop over the at most two
  zone intervals, and it is proved against the fold `Enclosing`. `ZoneSegments` makes the four per-edge calls.
- `game_rules.dfy` — module `GameRules`. It holds the arithmetic that both pages repeat: `randomizeZone`'s
  zone, the speed growth of `onHit`, and the frame update of `step`, with JavaScript's truncating `% 1`
  written out as `JsRem1`.
- `user_points.dfy` — module `UserPointsProvider`, from `src/app/providers/UserPointsProvider.tsx`.
  `trim`/`slice` and `awardScorePoints` are functions. Class `UserPoints` holds the `user` state, with
  methods `Login`, `AddPoints`, `SetPoints` and `Reset`.
- `black_pool.dfy` — module `BlackPool`, from `src/app/blackpool/page.tsx`. `multiplierFor` and
  `canContinue` are functions. Class `BlackPoolGame` holds the page's state fields and debits and credits
  a `UserPoints` ledger. `Valid()` is its invariant: the score stays at most 40 and below 40 while playing,
  a pause is always at a milestone, a round in progress always has its stake recorded, the stake
  selector is open only in `idle`, and the speed stays in [0.25, 2]. The handlers that are buttons of a
  dialogue require the phase in which the page draws that dialogue: `StartGame` and `SubmitStake` the
  open stake selector in `idle`, `HandleCashOut` and `HandleContinue` a pause. Two client methods replay
  a won round and a lost round.
- `block_loop.dfy` — module `BlockLoop`, from `src/app/jogo/page.tsx`. Class `BlockLoopGame` is the
  three-phase, stake-free state machine.
- `wrappers.dfy` — the `Option` type used for the source's `null`s.

`src/app/jogo/page.tsx` repeats `clamp`, `randRange`, `tToXY` and `isHit` (lines 7-59), `segmentForEdge`
and its four calls (lines 393-436), and `randomizeZone` (lines 174-178). Apart from comments, these are
identical to the Black Pool versions. The model defines each of them once, and `BlockLoop` imports those
definitions, so "the copies agree on all inputs" holds by construction.

Each handler's setter calls become sequential field updates. `Math.random()` draws and frame timestamps
are method parameters. The draws are required to lie in [0, 1). A frame timestamp is required to be
no smaller than the previous one, which the browser guarantees for animation frames.

Points where the code does what a reader might not expect:

- `startGame` takes `min(stake, balance)` and does nothing when there is no profile or when that amount
  is not positive. It does not reject a stake above the balance.
- `step` does not clamp `dt`.
- `tToXY` has no guard against a degenerate board. The model's lemmas assume `W > 0` and `H > 0`,
  and the function itself computes for any board.
- The zone is closed at both ends, not half-open.
- The stake-free page awards no points on a miss. It has no ledger at all.
- `RestartAnimation` models React re-running the animation effect whenever the phase or the speed changes.
  The effect's cleanup resets `lastTsRef`. The environment triggers this event; the handlers do not.

## Model

| member | source | states |
|---|---|---|
| Geometry.Frac | src/app/blackpool/lib/geometry.ts:29-31 | `x - floor(x)` lies in [0, 1) and differs from `x` by a whole number |
| Geometry.FracOfUnit | src/app/blackpool/lib/geometry.ts:29-31 | a value already in [0, 1) is left unchanged by the reduction |
| Geometry.FracShift | src/app/blackpool/lib/geometry.ts:18 | adding a whole number of laps does not change the fractional part |
| Geometry.Clamp | src/app/blackpool/lib/geometry.ts:1-3 | for `a <= b` the result lies in [a, b]; it is `n` when `n` is in range, `a` below, `b` above |
| Geometry.RandRange | src/app/blackpool/lib/geometry.ts:5-7 | with a draw in [0, 1), the value lies in [a, b), below `b` whenever `a < b` |
| Geometry.ArcInRange | src/app/blackpool/lib/geometry.ts:15-18 | on a non-degenerate board the arc length `frac(t) * P` lies in [0, P) |
| Geometry.PointAtOnBoundary | src/app/blackpool/lib/geometry.ts:19-25 | every arc length in [0, P) is placed on the rectangle's boundary and can be read back from the point |
| Geometry.TToXY | src/app/blackpool/lib/geometry.ts:9-26 | on a board with `W, H > 0` every position maps to a point of the interior boundary: `x` in [inset, inset+W], `y` in [inset, inset+H], and one coordinate on a side |
| Geometry.TToXYRoundTrip | src/app/blackpool/lib/geometry.ts:9-26 | the clockwise arc length read back from the returned point equals the arc length walked |
| Geometry.TToXYInjective | src/app/blackpool/lib/geometry.ts:9-26 | two positions in [0, 1) that give the same point are equal |
| Geometry.TToXYOrigin | src/app/blackpool/lib/geometry.ts:18-19 | position 0 is the top-left interior corner (inset, inset) |
| Geometry.PointAtCorners | src/app/blackpool/lib/geometry.ts:19-24 | arc lengths exactly at W, W+H and 2W+H are placed by the earlier edge, at the shared corner |
| Geometry.TToXYPeriodic | src/app/blackpool/lib/geometry.ts:18 | `tToXY(t + k)` equals `tToXY(t)` for every whole `k` |
| Geometry.IsHit | src/app/blackpool/lib/geometry.ts:28-34 | `t` is a hit exactly when its clockwise distance from `start` is at most the clockwise distance from `start` to `end`, all three taken modulo 1 |
| Geometry.IsHitEndpoints | src/app/blackpool/lib/geometry.ts:32-33 | the zone contains both of its ends, whether or not it wraps |
| Geometry.IsHitPlain | src/app/blackpool/lib/geometry.ts:29-32 | for `start <= end` a hit holds iff `start <= frac(t) <= end` |
| Geometry.IsHitWrapping | src/app/blackpool/lib/geometry.ts:33 | for `start > end` a hit holds iff `frac(t) >= start` or `frac(t) <= end` |
| Geometry.IsHitWrapExamples | src/app/blackpool/lib/geometry.ts:33 | `isHit(0.95, 0.9, 0.1)` holds and `isHit(0.5, 0.9, 0.1)` does not |
| Geometry.IsHitPeriodic | src/app/blackpool/lib/geometry.ts:28-31 | shifting `t`, `start` or `end` by whole laps leaves the verdict unchanged |
| ZoneOverlay.Norm | src/app/blackpool/components/ZoneOverlay.tsx:22-25 | for `P > 0` the normalised arc length lies in [0, P) |
| ZoneOverlay.ZoneIntervals | src/app/blackpool/components/ZoneOverlay.tsx:28-34 | the zone splits into one interval exactly when `sA <= sB` and into two otherwise |
| ZoneOverlay.ZoneIntervalsCover | src/app/blackpool/components/ZoneOverlay.tsx:28-34 | the intervals cover exactly [sA, sB], or everything from sA on and up to sB when the zone wraps |
| ZoneOverlay.ZoneIntervalsMatchIsHit | src/app/blackpool/components/ZoneOverlay.tsx:22-34 | a position lies in one of the projected intervals iff `isHit` accepts it, so the highlight matches the hit test |
| ZoneOverlay.Clip | src/app/blackpool/components/ZoneOverlay.tsx:37-38 | the cut piece lies inside both the zone interval and the edge span |
| ZoneOverlay.ClipExact | src/app/blackpool/components/ZoneOverlay.tsx:37-38 | a point lies in the cut piece exactly when it lies in both the zone interval and the edge span |
| ZoneOverlay.Widen | src/app/blackpool/components/ZoneOverlay.tsx:38-43 | a piece of positive length widens the running span to the smallest span holding both, each end coming from one of them; any other piece leaves it unchanged |
| ZoneOverlay.Enclosing | src/app/blackpool/components/ZoneOverlay.tsx:35-44 | the merged span lies inside the edge span and has positive length, and there is none exactly when no interval overlaps the edge with positive length; a single touching point does not count |
| ZoneOverlay.EnclosingCovers | src/app/blackpool/components/ZoneOverlay.tsx:40-42 | the span encloses every cut piece of positive length |
| ZoneOverlay.EnclosingCoversZone | src/app/blackpool/components/ZoneOverlay.tsx:36-44 | the span covers every point of the edge that lies in a zone interval whose cut piece has positive length, so it covers every part of the zone on that edge |
| ZoneOverlay.EnclosingTight | src/app/blackpool/components/ZoneOverlay.tsx:40-42 | the span is the smallest such: each of its ends is an end of some cut piece |
| ZoneOverlay.EnclosingOrderFree | src/app/blackpool/components/ZoneOverlay.tsx:36-44 | visiting the two wrap intervals in either order gives the same span |
| ZoneOverlay.SegmentForEdge | src/app/blackpool/components/ZoneOverlay.tsx:16-47 | the loop computes the fold `Enclosing`, moved to edge-local coordinates; a result satisfies `0 <= lo < hi <= edgeLen`; it is absent iff no interval overlaps the edge |
| ZoneOverlay.EdgesTile | src/app/blackpool/components/ZoneOverlay.tsx:49-52 | each edge starts where the previous one ends, the last ends at P, and every arc length in [0, P] is on some edge |
| ZoneOverlay.ZoneSegments | src/app/blackpool/components/ZoneOverlay.tsx:12-52 | the four segments are the per-edge spans for the four rows of `Edges`, whose tiling `EdgesTile` proves, each within its edge |
| GameRules.Max | src/app/blackpool/page.tsx:167 | `Math.max` of two scores is one of them and at least both |
| GameRules.Min | src/app/blackpool/page.tsx:129 | `Math.min` of stake and balance is one of them and at most both |
| GameRules.RandomZone | src/app/blackpool/page.tsx:144-148 | the new zone starts at the draw, its end lies in [0, 1), and its clockwise length `(end - start) mod 1` equals the drawn length in [0.06, 0.1) |
| GameRules.ZoneLengthOfShift | src/app/jogo/page.tsx:174-178 | for `start` in [0, 1) and `len` in (0, 1), the zone from `start` to `(start + len) % 1` has length `len` |
| GameRules.RandomZoneHitAtStart | src/app/jogo/page.tsx:174-178 | a freshly drawn zone contains its start and its end |
| GameRules.NextSpeed | src/app/blackpool/page.tsx:161 | the speed after a hit lies in [0, 2], never decreases from a speed in [0, 2], and is either the cap or `v * 1.08` |
| GameRules.SpeedAfterClosedForm | src/app/jogo/page.tsx:183 | after `n` hits from 0.25 the speed is `0.25 * 1.08^n` capped at 2.0 |
| GameRules.Trunc | src/app/blackpool/page.tsx:89 | the rounding toward zero behind JavaScript's `%`: the whole number at or below a non-negative value and within 1 of it, and at or above a negative value and within 1 of it |
| GameRules.JsRem1 | src/app/blackpool/page.tsx:89 | `x % 1` keeps the sign of `x`, lies in [0, 1) for `x >= 0` and in (-1, 0] otherwise, and differs from `x` by a whole number |
| GameRules.FrameSeconds | src/app/blackpool/page.tsx:84-86 | the first frame after (re)subscription has `dt = 0`; otherwise `dt` is the elapsed milliseconds divided by 1000 |
| GameRules.Advance | src/app/blackpool/page.tsx:89 | from a position `>= 0`, a non-negative step lands in [0, 1) |
| GameRules.AdvanceStill | src/app/jogo/page.tsx:123-127 | a frame with `dt = 0` leaves a position in [0, 1) where it is |
| GameRules.AdvanceModLaps | src/app/blackpool/page.tsx:89 | the stepped position equals `t + speed*dt` modulo whole laps, so the hit test sees it unchanged |
| UserPointsProvider.TrimStartSpec | src/app/providers/UserPointsProvider.tsx:56 | dropping leading white space keeps a suffix; everything dropped is white space |
| UserPointsProvider.TrimEndSpec | src/app/providers/UserPointsProvider.tsx:56 | dropping trailing white space keeps a prefix; everything dropped is white space |
| UserPointsProvider.Trim | src/app/providers/UserPointsProvider.tsx:56 | `trim` keeps a contiguous slice that neither starts nor ends with white space, and only white space is cut off |
| UserPointsProvider.TrimEmptyIff | src/app/providers/UserPointsProvider.tsx:56-57 | the trimmed name is empty exactly when the name is all white space |
| UserPointsProvider.TrimIdempotent | src/app/providers/UserPointsProvider.tsx:56 | trimming twice is trimming once |
| UserPointsProvider.NormalizeName | src/app/providers/UserPointsProvider.tsx:56 | the stored name is the first `min(40, |trimmed|)` characters of the trimmed name |
| UserPointsProvider.NormalizeNameEmptyIff | src/app/providers/UserPointsProvider.tsx:56-57 | `login` ignores a name exactly when it is all white space |
| UserPointsProvider.NormalizeNameTrimmed | src/app/providers/UserPointsProvider.tsx:56 | a stored name never starts with white space, and one of at most 40 characters is fully trimmed |
| UserPointsProvider.Apply | src/app/providers/UserPointsProvider.tsx:88 | the new balance `max(0, points + delta)` is never negative: it equals the sum when that is non-negative and 0 otherwise |
| UserPointsProvider.ApplyExact | src/app/providers/UserPointsProvider.tsx:88 | credits are added exactly, a debit of at most the balance is taken exactly, and a debit undoes the equal credit |
| UserPointsProvider.AwardScorePoints | src/app/providers/UserPointsProvider.tsx:126-130 | the award is non-negative; for a non-negative score it is the score's floor, for a negative score 0 |
| UserPointsProvider.AwardScorePointsWhole | src/app/providers/UserPointsProvider.tsx:126-130 | on a whole non-negative score the award is the score itself |
| UserPointsProvider.UserPoints.Balance | src/app/providers/UserPointsProvider.tsx:8 | the balance of a valid ledger is never negative |
| UserPointsProvider.UserPoints.constructor | src/app/providers/UserPointsProvider.tsx:28 | the ledger starts with no profile |
| UserPointsProvider.UserPoints.Login | src/app/providers/UserPointsProvider.tsx:53-80 | an all-white-space name changes nothing; otherwise a new profile gets the name and 100 points, and an existing one changes only its name |
| UserPointsProvider.UserPoints.AddPoints | src/app/providers/UserPointsProvider.tsx:82-94 | a zero delta or a missing profile changes nothing; otherwise only the balance changes, to `max(0, points + delta)` |
| UserPointsProvider.UserPoints.SetPoints | src/app/providers/UserPointsProvider.tsx:96-107 | without a profile nothing changes; otherwise only the balance changes, to `max(0, value)` |
| UserPointsProvider.UserPoints.Reset | src/app/providers/UserPointsProvider.tsx:109-112 | the profile is gone |
| BlackPool.MultiplierFor | src/app/blackpool/page.tsx:254-261 | 10 maps to 1, 20 to 2, 30 to 5, 40 to 10, and every other score to none |
| BlackPool.IsMilestone | src/app/blackpool/page.tsx:154 | the positive scores that pause the game are exactly 10, 20, 30 and 40 |
| BlackPool.PausesArePayable | src/app/blackpool/page.tsx:150-161 | a positive score pauses the game exactly when it has a multiplier |
| BlackPool.CanContinue | src/app/blackpool/page.tsx:263-265 | at a milestone, continuing is allowed exactly when a further milestone with a payout lies ahead |
| BlackPool.ContinueAtMilestones | src/app/blackpool/page.tsx:263-265 | at a milestone, continuing is allowed exactly when it is not 40 |
| BlackPool.MultiplierIncreasing | src/app/blackpool/page.tsx:254-261 | a later milestone pays a strictly larger multiplier |
| BlackPool.StakeFor | src/app/blackpool/page.tsx:128-130 | a stake is taken exactly when there is a profile and both stake and balance are positive; it is `min(stake, balance)` |
| BlackPool.Prize | src/app/blackpool/page.tsx:268-271 | a prize exists exactly when there is a stake and a multiplier, and it is at least the stake |
| BlackPool.BlackPoolGame.constructor | src/app/blackpool/page.tsx:32-73 | the page starts `idle` at score 0, best 0, position 0, speed 0.25, zone [0.1, 0.16], stake 10, and no round stake |
| BlackPool.BlackPoolGame.SelectStake | src/app/blackpool/page.tsx:746-760 | only the selected stake changes |
| BlackPool.BlackPoolGame.RandomizeZone | src/app/blackpool/page.tsx:144-148 | only the zone changes, to the drawn one |
| BlackPool.BlackPoolGame.StartGame | src/app/blackpool/page.tsx:127-142 | called from the open stake selector in `idle`; with no profile or a non-positive `min(stake, balance)` nothing changes; otherwise exactly that amount is debited, it is recorded as the round stake, and play starts at score 0 and speed 0.25 with a new zone and position |
| BlackPool.BlackPoolGame.OnHit | src/app/blackpool/page.tsx:150-163 | the score rises by exactly 1; the game pauses iff the new score is a multiple of 10 and at most 40; the speed grows under its cap; a new zone is drawn |
| BlackPool.BlackPoolGame.OnMiss | src/app/blackpool/page.tsx:165-169 | the phase becomes `gameover` and best becomes `max(best, score)`; the ledger is untouched |
| BlackPool.BlackPoolGame.HandleAction | src/app/blackpool/page.tsx:171-196 | `idle` only opens the stake selector; `playing` is a hit or a miss by `isHit`; `paused` changes nothing; `gameover` goes to `idle` |
| BlackPool.BlackPoolGame.PressMainButton | src/app/blackpool/page.tsx:355-364 | playing gives up as a miss; `idle` opens the stake selector; `gameover` goes to `idle` with it open |
| BlackPool.BlackPoolGame.HandleCashOut | src/app/blackpool/page.tsx:267-276 | called while paused; without a stake or a multiplier nothing changes, otherwise exactly `stake * multiplier` is credited, the round ends and best is updated; a paused round always ends in `gameover` |
| BlackPool.BlackPoolGame.HandleContinue | src/app/blackpool/page.tsx:278-282 | called while paused; refused at 40 with no change, so the round stays paused until cash-out; otherwise only the dialogue closes and play resumes |
| BlackPool.BlackPoolGame.SubmitStake | src/app/blackpool/page.tsx:774-778 | the stake form ignores a submission with a balance below 10 and otherwise behaves exactly as `startGame` |
| BlackPool.BlackPoolGame.CancelStake | src/app/blackpool/page.tsx:810 | the cancel button closes the stake selector and changes nothing else |
| BlackPool.BlackPoolGame.Step | src/app/blackpool/page.tsx:83-92 | the timestamp is recorded; the position moves to `(t + speed*dt) % 1` only while playing and stays in [0, 1) |
| BlackPool.BlackPoolGame.RestartAnimation | src/app/blackpool/page.tsx:96-101 | only the previous frame timestamp is forgotten |
| BlackPool.MilestoneRound | src/app/blackpool/page.tsx:127-282 | a click opens the stake selector; balance 100 and a stake of 20 give 80; ten hits pause at 10; cash-out gives balance 100, `gameover` and best 10 |
| BlackPool.LostRound | src/app/blackpool/page.tsx:127-196 | balance 100 and a stake of 10 give 90; a miss gives `gameover`; a further action leaves the balance at 90 |
| BlockLoop.BlockLoopGame.constructor | src/app/jogo/page.tsx:89-99 | the page starts `idle` at score 0, best 0, position 0, speed 0.25 and zone [0.1, 0.16] |
| BlockLoop.BlockLoopGame.RandomizeZone | src/app/jogo/page.tsx:174-178 | only the zone changes, to the drawn one |
| BlockLoop.BlockLoopGame.StartGame | src/app/jogo/page.tsx:165-172 | play starts at score 0 and speed 0.25 with a new zone and position; nothing else changes |
| BlockLoop.BlockLoopGame.OnHit | src/app/jogo/page.tsx:180-185 | the score rises by 1, the speed grows under its cap, a new zone is drawn, and the phase stays: no pause |
| BlockLoop.BlockLoopGame.OnMiss | src/app/jogo/page.tsx:187-190 | the phase becomes `gameover` and best becomes `max(best, score)` |
| BlockLoop.BlockLoopGame.HandleAction | src/app/jogo/page.tsx:192-208 | `idle` starts a round at once; `playing` is a hit or a miss by `isHit`; `gameover` goes to `idle` |
| BlockLoop.BlockLoopGame.PressMainButton | src/app/jogo/page.tsx:248 | playing gives up as a miss; any other phase starts a round |
| BlockLoop.BlockLoopGame.Step | src/app/jogo/page.tsx:120-131 | the timestamp is recorded; the position moves only while playing and stays in [0, 1) |
| BlockLoop.BlockLoopGame.RestartAnimation | src/app/jogo/page.tsx:133-138 | only the previous frame timestamp is forgotten |
| BlockLoop.FiveHitsThenMiss | src/app/jogo/page.tsx:180-207 | from `idle`, five hits keep playing at score 5 and speed `SpeedAfter(5)`; a miss then gives `gameover` with best 5 |
| BlockLoop.MissOpposite | src/app/jogo/page.tsx:174-178 | a shortest zone drawn half a lap away from `t` does not contain `t` |

## Left out

- Rendering: JSX, CSS gradients, modals, button styling and copy. This includes how `ZoneOverlay` mirrors the bottom and left segments for drawing, and `src/app/page.tsx` and `src/app/components/HeroVideo.tsx`.
- Viewport sizing and resize handling (`src/app/blackpool/page.tsx:44-60`, `src/app/jogo/page.tsx:70-86`). These are layout over `window`; the board size is a parameter.
- Persistence: `usePersistentState`, the provider's local-storage load and `persist`, and the best-score load and save of the stake-free page. This is I/O; `best` and `user` are plain fields.
- The provider's `loading` flag and the unused `reason` argument of `addPoints`/`setPoints`. Neither affects the state.
- The `createdAt` and `lastUpdatedAt` timestamps. They are wall-clock time.
- `requestAnimationFrame` scheduling and teardown, keyboard and pointer listeners, `isPrimary`, and the modal check that swallows pointer events on the board. These are browser scheduling and input wiring. Only the frame arithmetic is modelled, and `RestartAnimation` stands for the effect's re-run.
- The empty `visibilitychange` handler. It does nothing.
- The Clerk sign-in, the effect that logs a Clerk user into the ledger, and `src/middleware.ts`. These are foreign library calls.
- The disabled states of buttons: the stake form's button for a stake below 10 or above the balance, and the main button below 10 points. These are presentation-layer gating; the handlers they call are modelled with their own guards.
- BlackPool.BlackPoolGame.SelectStake: stakes and balances are integers. The input can also produce a fractional number, and a text that is not a number is ignored; the model does not cover either.
- UserPointsProvider.NormalizeName: counts Unicode scalar values. JavaScript's `slice(0, 40)` counts UTF-16 code units, so a name with characters outside the Basic Multilingual Plane is cut at a different place.
- IEEE-754 rounding. Positions, zones and speeds are exact reals, and `NaN` does not occur.
- React batching and stale closures. Each handler's setters run as sequential field updates, so `onMiss` reads the score as it is at the call.

# Water-drop game: session engine

A Dafny model of the game-session engine of a browser minigame. Drops fall
over a play area. The player clicks good drops to score and loses points on
bad drops and bombs. The timer starts at 30 and counts down once a second;
the session ends on the first tick that finds it at 0, 31 ticks after the
start, and it is won with a final score of 20 or more.

With the page taken away, the script is a small state machine driven by
single-threaded callbacks. Each callback runs to completion before the next.
The model has four modules:

- `Scoring` (scoring.dfy): the clamp that `setScore` applies (`max(0, val)`)
  and the capped score-bar percentage of `updateScoreBar`.
- `Drops` (drops.dfy): the three drop kinds and the score change for
  clicking each one. It also holds the eviction that `createDrop` performs at
  the cap of 15, the batch a spawn appends (a good drop, a bad drop and,
  on a random draw, a bomb) and the removal of one drop by its own handler.
- `Engine` (engine.dfy): the script's globals as one `Session` value. Each
  callback (`Start`, `Reset`, `Tick`, `Spawn`, `Catch`, `Expire`) is a
  function from the old session to the new one. The module also has the
  invariant `Valid`, a `Step`/`Run` semantics over event sequences, and the
  lemmas.
- `Game` (game.dfy): class `WaterDropGame`, whose fields are the script's
  globals. Its methods update them in place, with the script's removal loops
  kept as loops. Each callback method is proved to reach the session that
  the matching `Engine` function computes; the helpers `UpdateScoreBar`,
  `RemoveAllDrops` and `EvictOldest` state only the field they change. The
  event methods that require `Valid()` also keep it. `StartGame` and
  `CountdownTick` keep it whenever it held before. After `ResetGame` it holds exactly when no stray createDrop
  interval was live.

Modelling choices:

- Each interval handle is a boolean: it is true while the handle holds a
  live interval. `startGame` assigns `dropMaker` without clearing it first
  (script.js:107). The field `strayDropMakers` therefore counts createDrop
  intervals whose handle was overwritten, because such an interval keeps
  firing and nothing can clear it. The invariant keeps this count at 0: the
  start guard means a start only runs when no createDrop interval is live.
  This is what makes "exactly one interval of each kind" a real statement.
- The environment may run an interval callback only while an interval of
  that kind is live. It may run a drop handler only for a drop still in the
  document, because a removed element receives no more events. `Enabled`
  states these rules, and the methods' `requires` clauses state the same.
  `CreateDrop`, `ClickDrop` and `DropAnimationEnd` also require `Valid()`,
  the invariant every method keeps from page load on.
- Randomness is passed in as parameters: `bomb` says whether the bomb drop
  is appended, and `pick` is the message index (below 5, the pool size).
- Each drop element gets an identity `id` from a counter. Three elements
  are created per `createDrop` call, even when the bomb is not appended. Live
  drops are kept in document order, which is creation order.
- Score and timer are the text of page elements, read back with `parseInt`.
  The script only ever writes integers there, so both are modelled as `int`.
- `Math.round(score / 30 * 100)` is modelled as `(20 * score + 3) / 6` over
  the integers. The exact value `10 * score / 3` has a fractional part of 0,
  1/3 or 2/3. It is never near one half, so floating-point error cannot
  change the rounding.
- index.html is not part of this model. The page is assumed to show score 0,
  timer 30 and an empty bar when the script loads.

Behaviour of script.js worth knowing:

- **Drop count.** At 15 or more live drops `createDrop` evicts the oldest
  `count - 14` and then appends two or three drops, so up to 17 drops can be
  live after a spawn (script.js:166-172, 213-218). The model proves the
  bound of 17 (`MaxLiveDrops`).
- **Bomb click.** A bomb click costs 5 points through the clamp and does not
  end the session (script.js:252-256).
- **Repeated events on one drop.** Each handler removes its own element, and
  a removed element gets no further events, so no "collected" flag is needed.
- **Expiry.** An expired drop never costs points (script.js:228-238).
- **Round length.** `startGame` shows 30 (script.js:113), a tick only counts
  down while the timer is above 0 (script.js:123-124), and only a tick that
  finds 0 ends the session (script.js:125-134). So the session ends on the
  31st tick after a start; for the second the timer shows 0, drops still
  spawn and clicks still count (`SessionEndsOnTick31`).
- **Fixed parameters.** There are no difficulty profiles and no milestones:
  the win score is 20, the timer starts at 30 and the cap is 15.

## Model

| member | source | states |
|---|---|---|
| Scoring.Clamp | script.js:35-40 | the stored score is never negative, never below the requested value, and equals it unless that value is negative (then 0) |
| Scoring.ScoreBarPercent | script.js:25-31 | the bar percent is at most 100, exactly 100 from score 30 on, non-negative for non-negative scores, and below the cap within half a percent of score/30 (Math.round) |
| Scoring.ScoreBarFullExactly | script.js:25-31 | for any score setScore can store the bar lies in 0..100 and is full if and only if the score is at least 30 |
| Scoring.ScoreBarMonotone | script.js:29 | a higher score never shows a shorter bar |
| Drops.ClickDelta | script.js:240-256 | a click is worth exactly +1 for a good drop (the only positive change), -1 for a bad drop and -5 for a bomb |
| Drops.EvictCount | script.js:166-172 | the eviction loop runs count-14 times once 15 drops are live, leaving 14, and not at all below 15 |
| Drops.Evict | script.js:166-173 | eviction leaves fewer than 15 drops, keeps a list of under 15 as is, and what it keeps is the newest drops in their original order |
| Drops.NewDrops | script.js:156-218 | a spawn appends a good drop then a bad drop, plus a bomb exactly when the draw passes, with consecutive fresh identities |
| Drops.SpawnedShape | script.js:166-218 | after a spawn at most 17 drops are live, the survivors of eviction come first in their old order, and the new batch follows |
| Drops.SpawnedInOrder | script.js:167-218 | a spawn keeps the live drops in creation (document) order, with every identity below the advanced counter |
| Drops.RemoveAtExactlyOne | script.js:228-256 | a handler removes exactly its own drop, as a multiset and by position, and the others keep their order |
| Drops.RemoveAtInOrder | script.js:228-256 | after a removal the list stays in creation order and no remaining drop has the removed drop's identity |
| Engine.SetScore | script.js:35-40 | setScore stores the clamped value, redraws the bar from it, and changes nothing else |
| Engine.StartGuard | script.js:94-121 | a start while a game runs changes nothing; a start from a valid idle session leaves a valid running game with exactly one interval of each kind, score 0, empty bar and timer 30 |
| Engine.ResetFromAnyState | script.js:71-92 | from any session a reset leaves a running game with both handles set, no drops, score 0, empty bar and timer 30; its createDrop interval adds to any stray ones, so the invariant holds afterwards exactly when there were none |
| Engine.TickCountsDown | script.js:121-124 | a tick with time left decrements the timer by exactly 1, reports no outcome, changes nothing else and keeps the invariant |
| Engine.TickEndsSession | script.js:125-152 | a tick at 0 clears both intervals and the flag, reports Win exactly when the final score is at least 20, requests confetti only on a win, and leaves score 0, timer 0 and no drops |
| Engine.SpawnEffect | script.js:156-218 | createDrop keeps the newest min(count,14) drops in order once the cap is hit, appends good, bad and the drawn bomb, leaves at most 17 live and changes nothing else |
| Engine.SpawnKeepsValid | script.js:156-218 | a spawn while a createDrop interval is live keeps the session invariant |
| Engine.CatchEffect | script.js:240-256 | a click removes exactly that drop, keeps the others in order, sets the score to clamp(score + delta) and changes nothing else; on a valid session the caught drop is gone and the invariant holds |
| Engine.PenaltyFloorsAtZero | script.js:240-256 | a bad click at score 0 or 1, or a bomb click at score 0..5, leaves the score at 0 |
| Engine.ExpireEffect | script.js:227-238 | an expired drop is removed, the others keep their order and the score is untouched |
| Engine.StepKeepsValid | script.js:71-257 | every callback the browser can deliver keeps the session invariant |
| Engine.RunKeepsValid | script.js:71-257 | every sequence of callbacks from a valid session keeps the invariant |
| Engine.EveryRunFromLoad | script.js:1-257 | from page load, whatever happens: score never negative, bar in 0..100, timer in 0..30, at most 17 drops, gameRunning exactly when both intervals are live, no interval live while it is false, never more than one createDrop interval |
| Game.WaterDropGame.constructor | script.js:1-23 | the loaded page: no game, no intervals, score 0, timer 30, no drops; the invariant holds |
| Game.WaterDropGame.UpdateScoreBar | script.js:25-32 | the bar shows the capped, rounded percentage of the score |
| Game.WaterDropGame.SetScore | script.js:35-40 | the fields become the session setScore computes: the clamped score and its bar |
| Game.WaterDropGame.RemoveAllDrops | script.js:83-86 | the removal loop leaves no live drop |
| Game.WaterDropGame.StartGame | script.js:94-154 | the fields become Start of the old session; the invariant is kept |
| Game.WaterDropGame.ResetGame | script.js:71-92 | the fields become Reset of the old session; the invariant holds afterwards exactly when no stray createDrop interval was live |
| Game.WaterDropGame.CountdownTick | script.js:121-153 | the fields and the report become Tick of the old session; the invariant is kept |
| Game.WaterDropGame.EvictOldest | script.js:166-173 | the in-place loop removes exactly the drops Evict drops |
| Game.WaterDropGame.CreateDrop | script.js:156-218 | the fields become Spawn of the old session; the invariant is kept |
| Game.WaterDropGame.ClickDrop | script.js:240-256 | the fields become Catch of the old session; the invariant is kept |
| Game.WaterDropGame.DropAnimationEnd | script.js:227-238 | the fields become Expire of the old session; the invariant is kept |
| Engine.TicksCountDown | script.js:121-124 | while the countdown interval is live, n ticks with at least n seconds shown only take n off the timer and change nothing else |
| Engine.SessionEndsOnTick31 | script.js:113-134 | a session started from a valid idle page is still running after 30 ticks with timer 0, and the next tick ends it |
| Game.WaterDropGame.AppendNewDrops | script.js:211-218 | the drops become the old ones followed by a good drop, a bad drop and, when drawn, a bomb, with fresh consecutive identities |
| Engine.Start | script.js:94-121 | startGame as a function of the session; its properties are stated by StartGuard |
| Engine.Reset | script.js:71-92 | resetGame as a function of the session; its properties are stated by ResetFromAnyState |
| Engine.Tick | script.js:121-153 | the countdown callback as a function of the session; its properties are stated by TickCountsDown and TickEndsSession |
| Engine.Spawn | script.js:156-218 | createDrop as a function of the session; its properties are stated by SpawnEffect and SpawnKeepsValid |
| Engine.Catch | script.js:240-256 | the click handlers as a function of the session; their properties are stated by CatchEffect |
| Engine.Expire | script.js:227-238 | the animationend handlers as a function of the session; their properties are stated by ExpireEffect |
| Drops.Spawned | script.js:166-218 | the live drops after createDrop; stated by SpawnedShape and SpawnedInOrder |
| Drops.RemoveAt | script.js:228-256 | the live drops after one handler removes its element; stated by RemoveAtExactlyOne and RemoveAtInOrder |

## Left out

- confetti.js (canvas drawing, animation frames, floating-point particle motion): only the request for confetti on a win is modelled, as the `confetti` flag of the tick report. The `typeof launchConfetti === 'function'` check is not modelled.
- Touch and scroll handling (script.js:49-68) and the `mousedown`/`dragstart` listeners (script.js:96-98, 220-225): event plumbing over pointer coordinates, with no effect on game state. The extra listeners each `startGame` call adds are not modelled either.
- Drop size, horizontal position and fall duration (script.js:176-207): random floating-point styling that does not affect game state.
- Sound playback (`try { sounds.*.play() } catch {}`): a fail-silent foreign call with no state effect.
- Message texts and `alert` (script.js:9-22, 139-145): the tick reports the outcome, the drawn message index and the final score instead.
- Interval timing: each interval is a flag (plus the stray createDrop count), and nothing models when a callback fires.
- Clicks and expiries name a drop by its position in the live list at that moment, not by an element reference.
- The initial text of index.html: index.html is not part of this model.

# Timing minigame core, modelled in Dafny

The repository is a browser minigame built on Phaser. Two near-identical scene
scripts, `include/js/common.js` and `include/js/common3.js`, hold its game logic.
A clock runs from 0. The player stops it by touching a button and tries to hit a
random target time between 3 and 9 seconds. The stop is compared with the target
digit by digit, and that comparison gives a *stage* from 0 to 4. The stage then
decides which candies are released: fail, normal or rare, worth 1, 10 and 30
points. A countdown follows, during which the candies can be collected. In
`common3.js` monsters fall from the sky. Two monsters that collide merge into a
bigger one, touching a monster ends the game, and the countdown leads to a next
level that keeps the score.

The model has one module per component:

- `Config` holds the shared constants and the `Variant` choice. `Classic` is
  `common.js` and `Levels` is `common3.js`.
- `TimeFormat` renders whole milliseconds the way `toFixed(3)` does, and reads
  them back.
- `Accuracy` models `checkResult`. It gives the per-character matched/unmatched
  annotation as `seq<(char, bool)>`, plus the stage. `Resolve` is the declarative
  definition. `CheckResult` is the script's loop, proved equal to it.
- `Rewards` covers `probTable` (exact reals), the threshold draw `getCandyType`,
  `SCORE_MAP` and the number of candies released.
- `Countdown` models `startStageTimer`, with the remaining time in hundredths of
  a second.
- `Monsters` covers the monster–monster collider, the body-circle arithmetic,
  `spawnMonster` and the recycling done in `update`. Scale is kept in tenths.
- `Game` holds the round record and one `Event` per engine callback, timer run
  or button click. `Step` gives the scene's reaction to each event, and `Valid`
  is the invariant that reachable rounds keep.

The random draws are parameters: `Math.random()` for the target and for each
candy. So are the frame deltas, in whole milliseconds.

Behaviour of the code that is easy to misread (the model follows the code):

- A monster hit does not remove the countdown event (`common3.js:251-261`). The
  countdown keeps running on the scene clock, which `physics.pause()` does not
  stop. When it expires, `nextGame` still fires and turns "gameover" into
  "nextlevel", with the score kept (`MonsterHitThenCountdownExpiry`).
- The stage has no explicit cap at 4. It stays at or below 4 only because the
  target string has five characters (`Accuracy.StageBound`, `Game.StageOf`).
- A merged-away monster and an eaten candy are disabled, not destroyed. They stay
  in their groups, and `update` still recycles disabled monsters.

## Model

| member | source | states |
|---|---|---|
| TimeFormat.FormatMillis | include/js/common3.js:264-265 | `toFixed(3)` of a whole number of milliseconds has the shape digits-point-three-digits. It has exactly 5 characters below ten seconds and 6 from ten to a hundred seconds, which is the "10.000" case. |
| TimeFormat.MillisRoundTrip | include/js/common3.js:264 | Parsing the rendered time gives back the same milliseconds, so `parseFloat(x).toFixed(3)` re-renders the target unchanged. |
| TimeFormat.FormatInjective | include/js/common3.js:264-265 | Two clock values render to the same string exactly when they are equal. |
| TimeFormat.DecimalRoundTrip | include/js/common3.js:264-265 | Reading back the decimal text of the whole seconds gives the same number. |
| Accuracy.PrefixLen | include/js/common3.js:269-270 | The common-prefix length: every position before it matches, and the position at it does not (reading past either string's end is a mismatch, like `undefined`). |
| Accuracy.Resolve | include/js/common3.js:263-277 | The annotation has the stopped time's characters in order. Character i is shown matched iff every position 0..i matches the target. The stage is 0 when the first character is unmatched, and otherwise the index of the last matched character. It is 0 or below the target's length. |
| Accuracy.CheckResult | include/js/common.js:175-187 | The `correct`-flag loop produces exactly the annotation and stage of the declarative definition. |
| Accuracy.MatchedIsPrefix | include/js/common3.js:269-276 | Matched characters form a prefix: after one unmatched character, no later one is matched, even where the strings coincide. |
| Accuracy.MismatchBoundsStage | include/js/common3.js:270-276 | An unmatched character at a position i > 0 means the stage is below i. |
| Accuracy.StageBound | include/js/common3.js:269-272 | Against a five-character target the stage is at most 4, so it selects a row of the probability table. |
| Accuracy.ExampleLastDigitOff | include/js/common.js:179-187 | Target 5.123 stopped at 5.129 gives `5.12` matched, `9` unmatched, stage 3. |
| Accuracy.ExampleFirstDigitOff | include/js/common.js:179-187 | Target 5.123 stopped at 6.123 gives stage 0, with every character unmatched even though `.123` coincides. |
| Accuracy.ExampleLongStop | include/js/common3.js:265-276 | A six-character stop "10.000" against a five-character target gives six annotated characters and stage 0. |
| Accuracy.StageMeasuresCloseness | include/js/common3.js:263-277 | Below ten seconds, stage >= 1 iff the whole seconds agree, >= 2 iff the tenths agree, >= 3 iff the hundredths agree, and = 4 iff the stop equals the target to the millisecond. |
| Rewards.ProbTable | include/js/common3.js:10-16 | Each row's three masses sum to 1. Fail has the whole mass exactly at stage 0, and rare exactly at stage 4. |
| Rewards.CandyType | include/js/common3.js:284-290 | `getCandyType` gives fail iff the draw is below the fail mass, and rare iff it is at least fail plus normal. For a draw in [0, 1) the kind it returns always has positive mass in the row. |
| Rewards.ProbTableIsDistribution | include/js/common.js:197-203 | Every row of the table has entries in [0, 1] that sum to 1. |
| Rewards.ProbTableShiftsTowardRare | include/js/common3.js:10-16 | From stage 0 to 4, the fail mass never rises and the rare mass never falls. |
| Rewards.DrawLandsInItsInterval | include/js/common3.js:284-290 | For r in [0, 1), the kind drawn is k iff r lies in k's interval (fail first, then normal, then rare), and that interval's width is k's table mass. |
| Rewards.ZeroMassNeverDrawn | include/js/common.js:205-207 | A kind with mass 0 in the row is never drawn. So stage 0 gives only fail candies and stage 4 only rare ones. |
| Rewards.KeyScore | include/js/common3.js:9 | `SCORE_MAP[key] \|\| 0` is positive exactly for the three candy texture keys, and 0 for any other texture key. |
| Rewards.KindScores | include/js/common.js:166-167 | Fail, normal and rare candies are worth 1, 10 and 30 points. |
| Rewards.TimerSpawn | include/js/common3.js:291-295 | A timer event with `repeat: n` creates n + 1 candies, the i-th typed by the i-th draw. |
| Rewards.TimerSpawnReleasesCandyTotal | include/js/common3.js:7 | `repeat: CANDY_TOTAL - 1` releases exactly 20 candies. |
| Rewards.LoopSpawn | include/js/common.js:196-207 | The `for` loop creates exactly `total = 10` candies, the i-th typed by the threshold rule on its own draw. |
| Rewards.SpawnAtExtremes | include/js/common3.js:10-16 | For draws in [0, 1), a whole batch at stage 0 is fail candies and a whole batch at stage 4 is rare candies. |
| Countdown.StartHundredths | include/js/common.js:222 | The starting value of `startStageTimer` in hundredths: always 1000 (`TIMER_DURATION`) in `common3.js` (line 312). In `common.js` it is 1000 + 100 · stage for stages 0 to 3 and 2000 at stage 4, never below 1000. |
| Countdown.StartValues | include/js/common.js:222 | `common3.js` starts at `TIMER_DURATION` whatever the stage. `common.js` starts from `{0:10, 1:11, 2:12, 3:13, 4:20}[stage]`, which rises strictly with the stage. |
| Countdown.Tick | include/js/common3.js:317-325 | A removed event never runs. A run never leaves a negative value. It expires exactly when the value reaches 0 or below, and then it is clamped to 0 and removed. A run that does not expire lowers the value by exactly 0.01 s and keeps the event scheduled. |
| Countdown.RunTicks | include/js/common.js:224-236 | Over any number of runs, the expiry callback fires at most once, only for a scheduled event, and the value never goes negative. |
| Countdown.ExpiresOnceAfterStartTicks | include/js/common3.js:311-326 | Started at R hundredths, the event is still running with R − n left after n < R runs. After R or more runs it is at 0, removed, and has fired exactly once. |
| Monsters.Merge | include/js/common3.js:144-159 | The monster with the larger or equal scale keeps its state and grows by 0.1. The other is disabled and keeps its scale. The larger scale rises by 0.1 and the scale sum by exactly 0.1. Positions are untouched. |
| Monsters.MergeSurvivor | include/js/common3.js:146-153 | For two enabled monsters, the first survives iff its scale is at least the second's, so ties go to the first. The survivor's scale grows by one step. |
| Monsters.ActiveCountUpdate | include/js/common3.js:156 | Disabling one monster changes the count of enabled monsters by that monster only. |
| Monsters.MergeAt | include/js/common3.js:144-159 | A collision of monsters i and j puts the merge result at those two positions: i survives and grows iff its scale is at least j's, otherwise j does, and the loser is disabled. Every other monster is unchanged. If both were enabled, exactly one fewer monster is enabled. |
| Monsters.BodyCircle | include/js/common3.js:162-165 | The circle is centred in the frame on both axes, fits inside it, and touches the shorter sides. |
| Monsters.BodyCircleIsLargest | include/js/common3.js:178-181 | Any circle centred in the frame and inside it is no larger than the body circle. |
| Monsters.Recycle | include/js/common3.js:207-214 | After the pass, no monster is below `GAME_HEIGHT - 50`. Those that were are at y = −100 with vertical speed 0, the others are unchanged, and scale and enabled state are kept. |
| Monsters.RecycleIdempotent | include/js/common3.js:208-213 | A second recycling pass changes nothing. |
| Monsters.SpawnMonster | include/js/common3.js:172-189 | One enabled monster of scale 0.1 is added, every monster of the group is moved to y = −100, and the enabled count rises by one. |
| Monsters.MovingKeepsActiveCount | include/js/common3.js:184-187 | Moving monsters does not change how many are enabled. |
| Game.Update | include/js/common3.js:195-214 | The clock advances by the frame delta only while not stopped. It stops, shows "gameover" and installs retry exactly when it reaches 10 s, and that frame returns before recycling. Every other frame recycles the monsters and changes nothing else but the clock. Once stopped, the clock and the state are frozen. |
| Game.StageOf | include/js/common3.js:263-268 | The stage `checkResult` derives from the rendered target and clock is a row of the table (0 to 4). |
| Game.HitButton | include/js/common3.js:233-243 | The first touch stops the round, shows "star", keeps the score and clock, appends exactly `CandyTotal` candies typed by the stage, and starts the countdown for that stage. Nothing else changes: not the monsters, not the physics pause, not the installed handlers. A touch on a stopped round changes nothing. |
| Game.CollectCandy | include/js/common3.js:245-249 | Collecting adds exactly the candy's `SCORE_MAP` points and disables it. Every other candy and every other field is unchanged. The score never decreases. |
| Game.EatCandy | include/js/common3.js:168 | A live monster overlapping a candy disables that candy. Nothing else changes, the score included. |
| Game.HitMonster | include/js/common3.js:251-261 | Touching a live monster stops the round, pauses physics, shows "gameover" and installs retry. The countdown event is left exactly as it was, and so are the clock, the candies and the monsters. |
| Game.CollideMonsters | include/js/common3.js:144-166 | A collision of two distinct live monsters changes only the monster group, by the merge of those two. The one with the larger or equal scale stays enabled and the other is disabled, so one fewer monster is enabled. |
| Game.MoveMonster | include/js/common3.js:175-183 | While physics runs, the engine's new height and vertical speed of an enabled monster replace its old ones. Every other monster and field is unchanged, and so is the enabled count. A disabled or paused monster does not move. |
| Game.FallenMonsterIsRecycled | include/js/common3.js:207-213 | A monster moved below `GAME_HEIGHT - 50` is back at y = −100 with vertical speed 0 after the next frame that does not end the game, with its scale and enabled state kept. |
| Game.CountdownTick | include/js/common3.js:317-325 | Without a scheduled countdown nothing happens. The run that brings it to 0 removes it and runs `nextGame` (`common3.js`) or `endGame` (`common.js`). Earlier runs only lower it by 0.01 s. |
| Game.NextClick | include/js/common3.js:336-345 | From "nextlevel", next keeps the score, restarts the clock at 0 on the new target, clears `stopped`, resumes physics and clears the candies. It runs `spawnMonster` on the group, which adds one enabled monster. The countdown and the installed handlers are unchanged. |
| Game.RetryClick | include/js/common3.js:360-365 | From "gameover", retry restarts the scene. The score and clock are back at 0 with the new target, no countdown is scheduled, and no candies or monsters remain. The installed handlers are unchanged. |
| Game.SetupGame | include/js/common3.js:72-79 | `setupGame` sets the new target and puts the clock at 0. The score goes to 0 only when asked to reset, and is otherwise kept. Nothing else changes. |
| Game.EndGame | include/js/common3.js:349-358 | `endGame` pauses physics, shows "gameover" and installs retry (through `setupRetry`; `common.js:239-251` installs it inline). Nothing else changes. |
| Game.NextGame | include/js/common3.js:329-347 | `nextGame` pauses physics, shows "nextlevel" and installs next. Nothing else changes. |
| Game.BeginIsValid | include/js/common.js:43-61 | The first round satisfies the invariant, with score 0 and clock 0. |
| Game.StepPreservesValid | include/js/common3.js:195-365 | Every event keeps the invariant. "playing" is shown iff the round is not stopped. A running clock is below 10 s. A scheduled countdown belongs to a stopped round. "nextlevel" and "gameover" always have their handler installed. |
| Game.StopIsIdempotent | include/js/common.js:149-162 | A second touch of the stop button returns the same round as the first touch did. |
| Game.ScoreOnlyResetByRetry | include/js/common3.js:72-79 | No event lowers the score except retry, which sets it to 0. Next keeps it unchanged. |
| Game.CountdownFiresOnce | include/js/common3.js:314-326 | With R hundredths left, the first R − 1 runs change only the countdown value. The R-th run fires the expiry callback once, and later runs change nothing. |
| Game.InertWithoutCountdown | include/js/common3.js:321 | Once the countdown event is removed, further runs change nothing. |
| Game.MonsterHitThenCountdownExpiry | include/js/common3.js:251-261 | After a monster hit during the countdown, the round shows "gameover". When the countdown runs out it shows "nextlevel" with next installed and the score kept. |
| Game.PerfectStop | include/js/common.js:172-222 | A stop on the target's exact millisecond reaches stage 4. `common3.js` then releases only rare candies, and `common.js` starts the 20 s countdown. |
| Game.WrongSecondStop | include/js/common.js:172-222 | A stop in a different second from the target reaches stage 0. Only fail candies are released and the countdown starts at 10 s. |

## Left out

- Rendering, sprites, animations, asset loading, player movement (`handlePlayerMovement`) and the player's texture and tint changes: engine and presentation glue.
- Arcade physics: gravity, bounce, candy motion, horizontal monster motion, launch angles and positions, and collision detection itself. Collisions, overlaps and a monster's new height and vertical speed are events the engine delivers, and only while physics runs. The model does not compute the heights; it takes them as event parameters.
- `Math.random` and `Phaser.Math.Between`: their values are event parameters.
- Rewards.KeyScore: only texture keys are modelled. A key inherited from `Object.prototype`, such as `toString`, would make `SCORE_MAP[key] || 0` a function, but no texture in the game has such a key.
- Floating point: the clock is in whole milliseconds and the countdown in whole hundredths. The drift of repeated `remaining -= 0.01` and `currentTime += delta / 1000` is not modelled, and neither is a stop rendered as "10.000" from a clock just under ten seconds. `Accuracy.Resolve` itself handles strings of any length.
- Game.HitButton: the candies of `common3.js` arrive one every 100 ms. The model adds the whole batch at once, keeping the count and the order of the draws.
- The DOM text of score, clock, annotation and countdown: only the `data-state` label is kept.
- The page stylesheet that shows the retry and next buttons: the model assumes it shows retry under "gameover" and next under "nextlevel", the only states that install them.
- `common.js` destroys the stop button in `hitButton`, and `common3.js` creates a new one on next: the button has no state in the model, because `stopped` already makes a second touch a no-op.
- `MenuScene`: its start button is `Game.Begin`.

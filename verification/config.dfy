/** Constants shared by the two game scripts.

    The repository ships two near-identical scene scripts. `include/js/common.js`
    plays a single round without monsters; `include/js/common3.js` plays a chain of
    levels with monsters. The model keeps one core and selects the differences
    with a `Variant`. */
module Config {

  /** Which scene script is being modelled. */
  datatype Variant =
    | Classic   // include/js/common.js: one round, 10 candies, stage-dependent countdown, no monsters
    | Levels    // include/js/common3.js: levels, 20 candies, fixed countdown, monsters

  /** `GAME_HEIGHT`, in pixels. */
  const GameHeight: int := 720

  /** `TIMER_DURATION` (common3.js) and the literal `10` (common.js), in seconds. */
  const TimerDurationSeconds: nat := 10

  /** The same duration on the clock, which the model keeps in whole milliseconds. */
  const TimerDurationMs: nat := TimerDurationSeconds * 1000

  /** The highest stage: the probability table has a row for each of 0 to 4. */
  const MaxStage: nat := 4

  /** How many candies one press of the stop button releases. */
  function CandyTotal(v: Variant): nat {
    match v
    case Classic => 10   // `const total = 10` and a `for` loop
    case Levels => 20    // `CANDY_TOTAL`, released as `repeat: CANDY_TOTAL - 1`
  }
}

/** Candy typing and scoring: `probTable`, `getCandyType`, `SCORE_MAP` and the
    candy count of `spawnCandies`.

    Each candy is typed by one uniform draw `r` from [0, 1) against the row of the
    probability table chosen by the stage: below the fail mass it is a fail candy,
    below fail plus normal a normal candy, otherwise a rare candy. The random draws
    are parameters; the table is kept as exact reals. */
module Rewards {
  import opened Config

  datatype CandyKind = Fail | Normal | Rare

  /** One row of the probability table. */
  datatype Probs = Probs(fail: real, normal: real, rare: real)

  /** `probTable[stage]`. */
  function ProbTable(stage: nat): (p: Probs)
    requires stage <= MaxStage
    ensures p.fail + p.normal + p.rare == 1.0
    ensures stage == 0 <==> p.fail == 1.0
    ensures stage == MaxStage <==> p.rare == 1.0
  {
    if stage == 0 then Probs(1.0, 0.0, 0.0)
    else if stage == 1 then Probs(0.5, 0.4, 0.1)
    else if stage == 2 then Probs(0.2, 0.5, 0.3)
    else if stage == 3 then Probs(0.0, 0.3, 0.7)
    else Probs(0.0, 0.0, 1.0)
  }

  /** The probability a table row gives to one kind. */
  function Mass(p: Probs, k: CandyKind): real {
    match k
    case Fail => p.fail
    case Normal => p.normal
    case Rare => p.rare
  }

  /** `getCandyType`: the threshold rule on one draw `r`. */
  function CandyType(stage: nat, r: real): (k: CandyKind)
    requires stage <= MaxStage
    ensures 0.0 <= r < 1.0 ==> Mass(ProbTable(stage), k) > 0.0
    ensures k == Fail <==> r < ProbTable(stage).fail
    ensures k == Rare <==> r >= ProbTable(stage).fail + ProbTable(stage).normal
  {
    var p := ProbTable(stage);
    if r < p.fail then Fail
    else if r < p.fail + p.normal then Normal
    else Rare
  }

  /** Every row is a probability distribution over the three kinds. */
  lemma ProbTableIsDistribution(stage: nat)
    requires stage <= MaxStage
    ensures var p := ProbTable(stage);
            && 0.0 <= p.fail <= 1.0 && 0.0 <= p.normal <= 1.0 && 0.0 <= p.rare <= 1.0
            && p.fail + p.normal + p.rare == 1.0
  {
  }

  /** A better stage never raises the fail mass and never lowers the rare mass. */
  lemma ProbTableShiftsTowardRare(s: nat, t: nat)
    requires s <= t <= MaxStage
    ensures ProbTable(t).fail <= ProbTable(s).fail
    ensures ProbTable(s).rare <= ProbTable(t).rare
  {
  }

  /** Where each kind's draws start in [0, 1): fail first, then normal, then rare. */
  function Lower(stage: nat, k: CandyKind): real
    requires stage <= MaxStage
  {
    var p := ProbTable(stage);
    match k
    case Fail => 0.0
    case Normal => p.fail
    case Rare => p.fail + p.normal
  }

  /** The threshold rule gives each kind exactly the draws of an interval whose
      width is that kind's mass in the table, so a uniform draw yields each kind
      with the probability the table states. */
  lemma DrawLandsInItsInterval(stage: nat, r: real, k: CandyKind)
    requires stage <= MaxStage
    requires 0.0 <= r < 1.0
    ensures CandyType(stage, r) == k <==> Lower(stage, k) <= r < Lower(stage, k) + Mass(ProbTable(stage), k)
  {
    ProbTableIsDistribution(stage);
  }

  /** A kind whose mass is zero is never drawn: stage 0 always gives fail candies
      and stage 4 always gives rare ones. */
  lemma ZeroMassNeverDrawn(stage: nat, r: real, k: CandyKind)
    requires stage <= MaxStage
    requires 0.0 <= r < 1.0
    requires Mass(ProbTable(stage), k) == 0.0
    ensures CandyType(stage, r) != k
  {
    DrawLandsInItsInterval(stage, r, k);
  }

  /** The texture key a candy of each kind is created with. */
  function KindKey(k: CandyKind): string {
    match k
    case Fail => "candy_fail"
    case Normal => "candy_normal"
    case Rare => "candy_rare"
  }

  /** `SCORE_MAP[key] || 0` for a texture key: the candy keys score, any other
      texture key scores 0. */
  function KeyScore(key: string): (points: nat)
    ensures points > 0 <==> exists k: CandyKind :: key == KindKey(k)
  {
    if key == KindKey(Fail) then 1
    else if key == KindKey(Normal) then 10
    else if key == KindKey(Rare) then 30
    else 0
  }

  /** The points of the three candy kinds, rising with their rarity. */
  lemma KindScores()
    ensures KeyScore(KindKey(Fail)) == 1
    ensures KeyScore(KindKey(Normal)) == 10
    ensures KeyScore(KindKey(Rare)) == 30
  {
  }

  /** The kinds of a batch of candies, one per draw, each typed by its own draw. */
  function SpawnKinds(stage: nat, draws: seq<real>): seq<CandyKind>
    requires stage <= MaxStage
  {
    seq(|draws|, i requires 0 <= i < |draws| => CandyType(stage, draws[i]))
  }

  /** The `time.addEvent({repeat: n})` spawner of common3.js: the callback runs once
      and then `n` more times, each run creating one candy from the next draw. */
  function TimerSpawn(stage: nat, draws: seq<real>, repeat: nat): (kinds: seq<CandyKind>)
    requires stage <= MaxStage
    requires |draws| == repeat + 1
    ensures |kinds| == repeat + 1
    ensures kinds == SpawnKinds(stage, draws)
    decreases repeat
  {
    if repeat == 0 then [CandyType(stage, draws[0])]
    else
      var later := TimerSpawn(stage, draws[1..], repeat - 1);
      var kinds := [CandyType(stage, draws[0])] + later;
      assert forall i :: 1 <= i < |kinds| ==> kinds[i] == later[i - 1] == CandyType(stage, draws[i]);
      kinds
  }

  /** With `repeat: CANDY_TOTAL - 1` the timer releases exactly `CANDY_TOTAL` candies. */
  lemma TimerSpawnReleasesCandyTotal(stage: nat, draws: seq<real>)
    requires stage <= MaxStage
    requires |draws| == CandyTotal(Levels)
    ensures |TimerSpawn(stage, draws, CandyTotal(Levels) - 1)| == 20
  {
  }

  /** The `for (let i = 0; i < total; i++)` spawner of common.js. */
  method LoopSpawn(stage: nat, draws: seq<real>) returns (kinds: seq<CandyKind>)
    requires stage <= MaxStage
    requires |draws| == CandyTotal(Classic)
    ensures |kinds| == 10
    ensures kinds == SpawnKinds(stage, draws)
  {
    var total := CandyTotal(Classic);
    kinds := [];
    for i := 0 to total
      invariant |kinds| == i
      invariant forall j :: 0 <= j < i ==> kinds[j] == CandyType(stage, draws[j])
    {
      var rand := draws[i];
      var p := ProbTable(stage);
      var kind := if rand < p.fail then Fail else if rand < p.fail + p.normal then Normal else Rare;
      kinds := kinds + [kind];
    }
  }

  /** At the extreme stages a whole batch is uniform: all fail at stage 0, all rare
      at stage 4, whatever the draws in [0, 1). */
  lemma SpawnAtExtremes(draws: seq<real>)
    requires forall i :: 0 <= i < |draws| ==> 0.0 <= draws[i] < 1.0
    ensures forall i :: 0 <= i < |draws| ==> SpawnKinds(0, draws)[i] == Fail
    ensures forall i :: 0 <= i < |draws| ==> SpawnKinds(MaxStage, draws)[i] == Rare
  {
  }
}

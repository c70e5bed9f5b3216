/** The round state machine of `GameScene`, shared by both scene scripts.

    A round is one immutable record; every engine callback, timer run and button
    click is an `Event`, and `Step` is the scene's reaction to it. The physics engine
    reports collisions and overlaps only while the physics world runs, so those
    events change nothing while `paused`. Timer events belong to the scene clock,
    which `physics.pause()` does not stop, so countdown ticks still arrive then.

    The retry and next handlers are installed on page buttons (`onclick`) and stay
    installed; a click reaches them only while the page shows the button, which the
    page does by the state label: retry under "gameover", next under "nextlevel". */
module Game {
  import opened Config
  import opened TimeFormat
  import opened Accuracy
  import opened Rewards
  import opened Countdown
  import opened Monsters

  /** The `data-state` label of the page. */
  datatype GameState = Playing | Star | GameOver | NextLevel

  datatype Candy = Candy(kind: CandyKind, active: bool)

  datatype Round = Round(
    targetMs: nat,        // the target time, in milliseconds
    currentMs: nat,       // the running clock, in milliseconds
    score: nat,
    stopped: bool,
    state: GameState,
    paused: bool,         // the physics world is paused
    countdown: Timer,     // `this.timerEvent`
    candies: seq<Candy>,
    monsters: seq<Monster>,
    nextArmed: bool,      // `nextBtn.onclick` is installed
    retryArmed: bool)     // `retryBtn.onclick` is installed

  /** `(Math.random() * 6 + 3).toFixed(3)` lies between 3.000 and 9.000. */
  predicate ValidTarget(ms: nat) {
    3000 <= ms <= 9000
  }

  datatype Event =
    | Frame(deltaMs: nat)                         // `update(time, delta)`
    | ButtonHit(draws: seq<real>)                 // player touches the stop button
    | CandyHit(candy: nat)                        // player overlaps a candy
    | MonsterEatsCandy(monster: nat, candy: nat)  // a monster overlaps a candy
    | MonsterHit(monster: nat)                    // player overlaps a monster
    | MonsterCollide(first: nat, second: nat)     // two monsters collide
    | MonsterMoved(monster: nat, y: int, vy: int) // the engine moves a monster (gravity, bounce)
    | CountdownTick                               // one run of the countdown event
    | NextClick(targetMs: nat)                    // next button, with the new target draw
    | RetryClick(targetMs: nat)                   // retry button, with the new target draw

  /** What the random draws of an event satisfy: one `Math.random()` in [0, 1) per
      candy, and target times in range. */
  predicate EventOk(v: Variant, e: Event) {
    match e
    case ButtonHit(draws) =>
      |draws| == CandyTotal(v) && forall i :: 0 <= i < |draws| ==> 0.0 <= draws[i] < 1.0
    case NextClick(t) => ValidTarget(t)
    case RetryClick(t) => ValidTarget(t)
    case _ => true
  }

  /** The round right after the start button: `create()` with `setupGame()`. */
  function Begin(targetMs: nat): Round
    requires ValidTarget(targetMs)
  {
    Round(targetMs, 0, 0, false, Playing, false, Idle, [], [], false, false)
  }

  /** `setupGame(resetScore)`: a new target, the clock back to zero, and the score
      reset only when asked. */
  function SetupGame(r: Round, targetMs: nat, resetScore: bool): (r': Round)
    ensures r'.targetMs == targetMs && r'.currentMs == 0
    ensures resetScore ==> r'.score == 0
    ensures !resetScore ==> r'.score == r.score
    ensures r' == r.(targetMs := r'.targetMs, currentMs := r'.currentMs, score := r'.score)
  {
    r.(targetMs := targetMs, currentMs := 0, score := if resetScore then 0 else r.score)
  }

  /** `endGame`: physics paused, "gameover" shown, retry installed. */
  function EndGame(r: Round): (r': Round)
    ensures r'.paused && r'.state == GameOver && r'.retryArmed
    ensures r' == r.(paused := r'.paused, state := r'.state, retryArmed := r'.retryArmed)
  {
    r.(paused := true, state := GameOver, retryArmed := true)
  }

  /** `nextGame` (common3.js): physics paused, "nextlevel" shown, next installed. */
  function NextGame(r: Round): (r': Round)
    ensures r'.paused && r'.state == NextLevel && r'.nextArmed
    ensures r' == r.(paused := r'.paused, state := r'.state, nextArmed := r'.nextArmed)
  {
    r.(paused := true, state := NextLevel, nextArmed := true)
  }

  /** `update`: the clock runs only while not stopped and ends the game at ten
      seconds, returning before the monster recycling of that frame; every other
      frame recycles the monsters that fell below the line. */
  function Update(r: Round, deltaMs: nat): (r': Round)
    ensures r.stopped ==> r'.stopped && r'.currentMs == r.currentMs && r'.state == r.state
    ensures !r.stopped ==> r'.currentMs == r.currentMs + deltaMs
    ensures r'.stopped <==> r.stopped || r.currentMs + deltaMs >= TimerDurationMs
    ensures !r.stopped && r'.stopped ==> r'.state == GameOver && r'.paused && r'.retryArmed
    ensures r'.score == r.score && r'.countdown == r.countdown && r'.candies == r.candies
    ensures r'.targetMs == r.targetMs && r'.nextArmed == r.nextArmed
    ensures |r'.monsters| == |r.monsters|
    ensures r.stopped ==> r' == r.(monsters := Recycle(r.monsters))
    ensures !r'.stopped ==> r' == r.(currentMs := r'.currentMs, monsters := Recycle(r.monsters))
    ensures !r.stopped && r'.stopped ==>
              r' == r.(currentMs := r'.currentMs, stopped := true, paused := true,
                       state := GameOver, retryArmed := true)
  {
    if !r.stopped then
      var t := r.currentMs + deltaMs;
      if t >= TimerDurationMs then EndGame(r.(currentMs := t, stopped := true))
      else r.(currentMs := t, monsters := Recycle(r.monsters))
    else
      r.(monsters := Recycle(r.monsters))
  }

  /** The stage `checkResult` derives from the target and the clock. */
  function StageOf(r: Round): (stage: nat)
    requires ValidTarget(r.targetMs)
    ensures stage <= MaxStage
  {
    Resolve(FormatMillis(r.targetMs), FormatMillis(r.currentMs)).stage
  }

  /** `hitButton`: the first touch stops the clock, resolves the stage, releases the
      candies and starts the countdown; any later touch does nothing. */
  function HitButton(v: Variant, r: Round, draws: seq<real>): (r': Round)
    requires ValidTarget(r.targetMs)
    requires |draws| == CandyTotal(v)
    ensures r.stopped ==> r' == r
    ensures !r.stopped ==>
              && r'.stopped && r'.state == Star
              && r'.countdown == StartTimer(v, StageOf(r))
              && |r'.candies| == |r.candies| + CandyTotal(v)
              && r'.candies[..|r.candies|] == r.candies
              && (forall i :: 0 <= i < CandyTotal(v) ==>
                    r'.candies[|r.candies| + i] == Candy(CandyType(StageOf(r), draws[i]), true))
              && r'.score == r.score && r'.currentMs == r.currentMs && r'.targetMs == r.targetMs
              && r' == r.(stopped := true, state := Star, candies := r'.candies, countdown := r'.countdown)
  {
    if r.stopped then r
    else
      var stage := StageOf(r);
      var kinds := SpawnKinds(stage, draws);
      var released := seq(|kinds|, i requires 0 <= i < |kinds| => Candy(kinds[i], true));
      r.(stopped := true, state := Star, candies := r.candies + released, countdown := StartTimer(v, stage))
  }

  /** The player can pick candy `i` up: the engine reports the overlap. */
  predicate Collectable(r: Round, i: nat) {
    !r.paused && i < |r.candies| && r.candies[i].active
  }

  /** `collectCandy`: the candy's points by its texture key are added and the candy
      is disabled. */
  function CollectCandy(r: Round, i: nat): (r': Round)
    ensures r'.score >= r.score
    ensures Collectable(r, i) ==>
              && r'.score == r.score + KeyScore(KindKey(r.candies[i].kind))
              && |r'.candies| == |r.candies| && !r'.candies[i].active
              && r'.candies[i].kind == r.candies[i].kind
              && (forall k :: 0 <= k < |r.candies| && k != i ==> r'.candies[k] == r.candies[k])
              && r' == r.(score := r'.score, candies := r'.candies)
    ensures !Collectable(r, i) ==> r' == r
  {
    if Collectable(r, i) then
      r.(score := r.score + KeyScore(KindKey(r.candies[i].kind)),
         candies := r.candies[i := r.candies[i].(active := false)])
    else r
  }

  /** Monster `m` is enabled and the engine reports its contacts. */
  predicate MonsterLive(v: Variant, r: Round, m: nat) {
    v == Levels && !r.paused && m < |r.monsters| && r.monsters[m].active
  }

  /** The monster–candy overlap of common3.js: the candy is disabled and scores nothing. */
  function EatCandy(v: Variant, r: Round, m: nat, c: nat): (r': Round)
    ensures r'.score == r.score
    ensures MonsterLive(v, r, m) && c < |r.candies| ==> r'.candies == r.candies[c := r.candies[c].(active := false)]
    ensures r' == r.(candies := r'.candies)
    ensures !(MonsterLive(v, r, m) && c < |r.candies|) ==> r' == r
  {
    if MonsterLive(v, r, m) && c < |r.candies| then
      r.(candies := r.candies[c := r.candies[c].(active := false)])
    else r
  }

  /** `hitMonster`: the game is over at once. The countdown event is left scheduled. */
  function HitMonster(v: Variant, r: Round, m: nat): (r': Round)
    ensures MonsterLive(v, r, m) ==>
              && r'.stopped && r'.paused && r'.state == GameOver && r'.retryArmed
              && r'.countdown == r.countdown
              && r'.score == r.score
              && r' == r.(stopped := r'.stopped, paused := r'.paused, state := r'.state,
                          retryArmed := r'.retryArmed)
    ensures !MonsterLive(v, r, m) ==> r' == r
  {
    if MonsterLive(v, r, m) then
      r.(stopped := true, paused := true, state := GameOver, retryArmed := true)
    else r
  }

  /** The monster–monster collider: of two enabled monsters the one with the larger
      or equal scale survives and grows, the other is disabled. */
  function CollideMonsters(v: Variant, r: Round, i: nat, j: nat): (r': Round)
    ensures MonsterLive(v, r, i) && MonsterLive(v, r, j) && i != j ==>
              && |r'.monsters| == |r.monsters|
              && ActiveCount(r'.monsters) + 1 == ActiveCount(r.monsters)
              && r'.monsters == MergeAt(r.monsters, i, j)
              && (r'.monsters[i].active <==> r.monsters[i].scale >= r.monsters[j].scale)
              && (r'.monsters[j].active <==> r.monsters[i].scale < r.monsters[j].scale)
              && r' == r.(monsters := r'.monsters)
    ensures !(MonsterLive(v, r, i) && MonsterLive(v, r, j) && i != j) ==> r' == r
  {
    if MonsterLive(v, r, i) && MonsterLive(v, r, j) && i != j then
      r.(monsters := MergeAt(r.monsters, i, j))
    else r
  }

  /** The physics step moves an enabled monster while the world runs; a disabled
      body and a paused world stay where they are. */
  function MoveMonster(v: Variant, r: Round, m: nat, y: int, vy: int): (r': Round)
    ensures MonsterLive(v, r, m) ==>
              && |r'.monsters| == |r.monsters|
              && r'.monsters[m] == r.monsters[m].(y := y, vy := vy)
              && (forall k :: 0 <= k < |r.monsters| && k != m ==> r'.monsters[k] == r.monsters[k])
              && ActiveCount(r'.monsters) == ActiveCount(r.monsters)
              && r' == r.(monsters := r'.monsters)
    ensures !MonsterLive(v, r, m) ==> r' == r
  {
    if MonsterLive(v, r, m) then
      var moved := r.monsters[m].(y := y, vy := vy);
      ActiveCountUpdate(r.monsters, m, moved);
      r.(monsters := r.monsters[m := moved])
    else r
  }

  /** What the expiry callback does: `nextGame` in common3.js, `endGame` in common.js. */
  function Expire(v: Variant, r: Round): Round {
    match v
    case Levels => NextGame(r)
    case Classic => EndGame(r)
  }

  /** One run of the countdown event. */
  function CountdownTick(v: Variant, r: Round): (r': Round)
    ensures !r.countdown.active ==> r' == r
    ensures r.countdown.active && r.countdown.remaining <= 1 ==> r' == Expire(v, r.(countdown := Idle))
    ensures r.countdown.active && r.countdown.remaining > 1 ==>
              r' == r.(countdown := Timer(r.countdown.remaining - 1, true))
  {
    var t := Tick(r.countdown);
    var r1 := r.(countdown := t.timer);
    if t.expired then Expire(v, r1) else r1
  }

  /** The next button of common3.js: the score is kept, the clock restarts on a new
      target and one more monster joins. */
  function NextClick(v: Variant, r: Round, targetMs: nat): (r': Round)
    requires ValidTarget(targetMs)
    ensures v == Levels && r.nextArmed && r.state == NextLevel ==>
              && r'.score == r.score
              && r'.currentMs == 0 && r'.targetMs == targetMs
              && !r'.stopped && !r'.paused && r'.state == Playing
              && r'.candies == []
              && |r'.monsters| == |r.monsters| + 1
              && ActiveCount(r'.monsters) == ActiveCount(r.monsters) + 1
              && r'.monsters == SpawnMonster(r.monsters)
              && r' == r.(targetMs := targetMs, currentMs := 0, stopped := false, state := Playing,
                          paused := false, candies := [], monsters := r'.monsters)
    ensures !(v == Levels && r.nextArmed && r.state == NextLevel) ==> r' == r
  {
    if v == Levels && r.nextArmed && r.state == NextLevel then
      SetupGame(r, targetMs, false).(
        state := Playing, paused := false, candies := [], stopped := false,
        monsters := SpawnMonster(r.monsters))
    else r
  }

  /** The retry button: the scene restarts, so `setupGame()` zeroes the score, the
      old countdown event is gone and no candy or monster remains. */
  function RetryClick(r: Round, targetMs: nat): (r': Round)
    requires ValidTarget(targetMs)
    ensures r.retryArmed && r.state == GameOver ==>
              && r'.score == 0 && r'.currentMs == 0 && r'.targetMs == targetMs
              && !r'.stopped && !r'.paused && r'.state == Playing
              && !r'.countdown.active && r'.candies == [] && r'.monsters == []
              && r' == r.(targetMs := targetMs, currentMs := 0, score := 0, stopped := false,
                          state := Playing, paused := false, countdown := Idle,
                          candies := [], monsters := [])
    ensures !(r.retryArmed && r.state == GameOver) ==> r' == r
  {
    if r.retryArmed && r.state == GameOver then
      SetupGame(r, targetMs, true).(
        stopped := false, state := Playing, paused := false, countdown := Idle,
        candies := [], monsters := [])
    else r
  }

  /** The scene's reaction to one event. */
  function Step(v: Variant, r: Round, e: Event): Round
    requires ValidTarget(r.targetMs)
    requires EventOk(v, e)
  {
    match e
    case Frame(d) => Update(r, d)
    case ButtonHit(draws) => HitButton(v, r, draws)
    case CandyHit(c) => CollectCandy(r, c)
    case MonsterEatsCandy(m, c) => EatCandy(v, r, m, c)
    case MonsterHit(m) => HitMonster(v, r, m)
    case MonsterCollide(i, j) => CollideMonsters(v, r, i, j)
    case MonsterMoved(m, y, vy) => MoveMonster(v, r, m, y, vy)
    case CountdownTick => CountdownTick(v, r)
    case NextClick(t) => NextClick(v, r, t)
    case RetryClick(t) => RetryClick(r, t)
  }

  /** The facts every reachable round keeps. */
  predicate Valid(v: Variant, r: Round) {
    && ValidTarget(r.targetMs)
    && r.countdown.remaining >= 0
    && (r.countdown.active ==> r.countdown.remaining >= 1 && r.stopped)
    && (!r.stopped ==> r.currentMs < TimerDurationMs)
    && (r.state == Playing <==> !r.stopped)
    && (r.paused ==> r.stopped)
    && (r.state == NextLevel ==> r.nextArmed && !r.countdown.active)
    && (r.state == GameOver ==> r.retryArmed)
    && (v == Classic ==> r.monsters == [] && !r.nextArmed && r.state != NextLevel)
  }

  /** The first round is valid. */
  lemma BeginIsValid(v: Variant, targetMs: nat)
    requires ValidTarget(targetMs)
    ensures Valid(v, Begin(targetMs))
    ensures Begin(targetMs).score == 0 && Begin(targetMs).currentMs == 0
  {
  }

  /** Every event keeps a valid round valid. */
  lemma StepPreservesValid(v: Variant, r: Round, e: Event)
    requires Valid(v, r)
    requires EventOk(v, e)
    ensures Valid(v, Step(v, r, e))
  {
    match e
    case Frame(d) =>
      if v == Classic {
        assert Update(r, d).monsters == [];
      }
    case ButtonHit(draws) =>
    case CandyHit(c) =>
    case MonsterEatsCandy(m, c) =>
    case MonsterHit(m) =>
    case MonsterCollide(i, j) =>
    case MonsterMoved(m, y, vy) =>
    case CountdownTick =>
    case NextClick(t) =>
    case RetryClick(t) =>
  }

  /** Stopping is idempotent: a second touch of the button changes nothing, whatever
      draws it would have made. */
  lemma StopIsIdempotent(v: Variant, r: Round, first: seq<real>, second: seq<real>)
    requires ValidTarget(r.targetMs)
    requires |first| == CandyTotal(v) && |second| == CandyTotal(v)
    ensures HitButton(v, HitButton(v, r, first), second) == HitButton(v, r, first)
  {
  }

  /** The score never goes down, except through retry, which sets it to zero; the
      next button keeps it as it is. */
  lemma ScoreOnlyResetByRetry(v: Variant, r: Round, e: Event)
    requires ValidTarget(r.targetMs)
    requires EventOk(v, e)
    ensures !e.RetryClick? ==> Step(v, r, e).score >= r.score
    ensures e.NextClick? ==> Step(v, r, e).score == r.score
    ensures e.RetryClick? && r.retryArmed && r.state == GameOver ==> Step(v, r, e).score == 0
  {
  }

  /** `n` runs of the countdown event. */
  function Ticks(v: Variant, r: Round, n: nat): Round
    decreases n
  {
    if n == 0 then r else Ticks(v, CountdownTick(v, r), n - 1)
  }

  /** A running countdown with `R` hundredths left leaves the round alone except for
      its own value for the first `R - 1` runs; the `R`-th run fires the expiry
      callback, once, and later runs do nothing. */
  lemma {:induction false} CountdownFiresOnce(v: Variant, r: Round, n: nat)
    requires r.countdown.active && r.countdown.remaining >= 1
    ensures n < r.countdown.remaining ==>
              Ticks(v, r, n) == r.(countdown := Timer(r.countdown.remaining - n, true))
    ensures n >= r.countdown.remaining ==> Ticks(v, r, n) == Expire(v, r.(countdown := Idle))
    decreases n
  {
    if n > 0 {
      var next := CountdownTick(v, r);
      if r.countdown.remaining == 1 {
        InertWithoutCountdown(v, next, n - 1);
      } else {
        CountdownFiresOnce(v, next, n - 1);
        assert next.(countdown := Idle) == r.(countdown := Idle);
        assert next.(countdown := Timer(next.countdown.remaining - (n - 1), true))
            == r.(countdown := Timer(r.countdown.remaining - n, true));
      }
    }
  }

  /** Without a scheduled countdown, countdown runs change nothing. */
  lemma {:induction false} InertWithoutCountdown(v: Variant, r: Round, n: nat)
    requires !r.countdown.active
    ensures Ticks(v, r, n) == r
    decreases n
  {
    if n > 0 {
      InertWithoutCountdown(v, CountdownTick(v, r), n - 1);
    }
  }

  /** A monster the engine moves below the line is back at the top, with no
      vertical speed, after the next frame that does not end the game. */
  lemma FallenMonsterIsRecycled(v: Variant, r: Round, m: nat, y: int, vy: int, deltaMs: nat)
    requires MonsterLive(v, r, m)
    requires y > RecycleLine
    requires r.stopped || r.currentMs + deltaMs < TimerDurationMs
    ensures var r' := Update(MoveMonster(v, r, m, y, vy), deltaMs);
            && r'.monsters[m].y == RespawnY && r'.monsters[m].vy == 0
            && r'.monsters[m].scale == r.monsters[m].scale && r'.monsters[m].active
  {
  }

  /** A monster hit does not cancel the countdown of common3.js: the round shows
      "gameover", and when the countdown runs out `nextGame` still fires and turns
      it into "nextlevel" with the next button installed and the score kept. */
  lemma MonsterHitThenCountdownExpiry(r: Round, m: nat)
    requires Valid(Levels, r)
    requires r.countdown.active
    requires MonsterLive(Levels, r, m)
    ensures HitMonster(Levels, r, m).state == GameOver
    ensures var after := Ticks(Levels, HitMonster(Levels, r, m), r.countdown.remaining);
            after.state == NextLevel && after.nextArmed && after.score == r.score && after.stopped
  {
    var g := HitMonster(Levels, r, m);
    CountdownFiresOnce(Levels, g, r.countdown.remaining);
  }

  /** A stop on the very millisecond of the target reaches stage 4: common3.js
      releases only rare candies and common.js gives the longest countdown. */
  lemma PerfectStop(v: Variant, r: Round, draws: seq<real>)
    requires ValidTarget(r.targetMs)
    requires !r.stopped && r.currentMs == r.targetMs
    requires |draws| == CandyTotal(v)
    requires forall i :: 0 <= i < |draws| ==> 0.0 <= draws[i] < 1.0
    ensures var r' := HitButton(v, r, draws);
            && (forall i :: |r.candies| <= i < |r'.candies| ==> r'.candies[i].kind == Rare)
            && r'.countdown == Timer(if v == Levels then 1000 else 2000, true)
  {
    StageMeasuresCloseness(r.targetMs, r.currentMs);
    SpawnAtExtremes(draws);
    var r' := HitButton(v, r, draws);
    forall i | |r.candies| <= i < |r'.candies| ensures r'.candies[i].kind == Rare {
      assert r'.candies[|r.candies| + (i - |r.candies|)] == Candy(CandyType(MaxStage, draws[i - |r.candies|]), true);
    }
  }

  /** A stop in a different second from the target reaches stage 0: only fail
      candies, and the shortest countdown. */
  lemma WrongSecondStop(v: Variant, r: Round, draws: seq<real>)
    requires ValidTarget(r.targetMs)
    requires !r.stopped && r.currentMs < TimerDurationMs
    requires r.currentMs / 1000 != r.targetMs / 1000
    requires |draws| == CandyTotal(v)
    requires forall i :: 0 <= i < |draws| ==> 0.0 <= draws[i] < 1.0
    ensures var r' := HitButton(v, r, draws);
            && (forall i :: |r.candies| <= i < |r'.candies| ==> r'.candies[i].kind == Fail)
            && r'.countdown == Timer(1000, true)
  {
    StageMeasuresCloseness(r.targetMs, r.currentMs);
    SpawnAtExtremes(draws);
    var r' := HitButton(v, r, draws);
    forall i | |r.candies| <= i < |r'.candies| ensures r'.candies[i].kind == Fail {
      assert r'.candies[|r.candies| + (i - |r.candies|)] == Candy(CandyType(0, draws[i - |r.candies|]), true);
    }
  }
}

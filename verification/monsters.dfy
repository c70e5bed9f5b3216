/** Monsters of common3.js: the monster–monster collider callback, the circular
    body recomputation, spawning and the recycling done in `update`.

    Scale is kept in whole tenths (a spawned monster has scale 0.1, so 1 here) and
    positions in whole pixels. A monster that loses a merge is disabled, not removed:
    it stays in the group, which is why recycling still walks over it. */
module Monsters {
  import opened Config

  datatype Monster = Monster(scale: nat, active: bool, y: int, vy: int)

  /** `setScale(0.1)` on a new monster. */
  const SpawnScale: nat := 1
  /** The `+ 0.1` a merge adds to the survivor's scale. */
  const GrowthStep: nat := 1
  /** Where new and recycled monsters are placed. */
  const RespawnY: int := -100
  /** The vertical part of `setVelocity(..., 20)` on a new monster. */
  const SpawnVy: int := 20
  /** Monsters lower than this are recycled: `GAME_HEIGHT - 50`. */
  const RecycleLine: int := GameHeight - 50

  datatype Pair = Pair(first: Monster, second: Monster)

  function Max(a: nat, b: nat): nat {
    if a >= b then a else b
  }

  /** The collider callback for monsters `m1` and `m2`: the one with the larger or
      equal scale survives and grows by one step, the other is disabled. */
  function Merge(m1: Monster, m2: Monster): (r: Pair)
    ensures m1.scale >= m2.scale ==> r.first.active == m1.active && !r.second.active
    ensures m1.scale < m2.scale ==> !r.first.active && r.second.active == m2.active
    ensures m1.scale >= m2.scale ==> r.first.scale == m1.scale + GrowthStep && r.second.scale == m2.scale
    ensures m1.scale < m2.scale ==> r.first.scale == m1.scale && r.second.scale == m2.scale + GrowthStep
    ensures Max(r.first.scale, r.second.scale) == Max(m1.scale, m2.scale) + GrowthStep
    ensures r.first.scale + r.second.scale == m1.scale + m2.scale + GrowthStep
    ensures r.first.y == m1.y && r.first.vy == m1.vy && r.second.y == m2.y && r.second.vy == m2.vy
  {
    if m1.scale >= m2.scale then
      Pair(m1.(scale := m1.scale + GrowthStep), m2.(active := false))
    else
      Pair(m1.(active := false), m2.(scale := m2.scale + GrowthStep))
  }

  /** The survivor is the first monster exactly when its scale is at least the
      second's, so a tie goes to the first argument. */
  lemma MergeSurvivor(m1: Monster, m2: Monster)
    requires m1.active && m2.active
    ensures Merge(m1, m2).first.active <==> m1.scale >= m2.scale
    ensures Merge(m1, m2).second.active <==> m1.scale < m2.scale
    ensures Merge(m1, m2).first.active ==> Merge(m1, m2).first.scale == m1.scale + GrowthStep
    ensures Merge(m1, m2).second.active ==> Merge(m1, m2).second.scale == m2.scale + GrowthStep
  {
  }

  /** How many monsters are still enabled. */
  function ActiveCount(ms: seq<Monster>): nat
    decreases |ms|
  {
    if |ms| == 0 then 0 else ActiveCount(ms[..|ms| - 1]) + (if ms[|ms| - 1].active then 1 else 0)
  }

  /** Replacing one monster changes the enabled count only by that monster. */
  lemma {:induction false} ActiveCountUpdate(ms: seq<Monster>, i: nat, m: Monster)
    requires i < |ms|
    ensures ActiveCount(ms[i := m]) + (if ms[i].active then 1 else 0) == ActiveCount(ms) + (if m.active then 1 else 0)
    decreases |ms|
  {
    var last := |ms| - 1;
    if i < last {
      assert ms[i := m][..last] == ms[..last][i := m];
      ActiveCountUpdate(ms[..last], i, m);
    } else {
      assert ms[i := m][..last] == ms[..last];
    }
  }

  /** A collision between monsters `i` and `j` of the group. */
  function MergeAt(ms: seq<Monster>, i: nat, j: nat): (r: seq<Monster>)
    requires i < |ms| && j < |ms| && i != j
    ensures |r| == |ms|
    ensures forall k :: 0 <= k < |ms| && k != i && k != j ==> r[k] == ms[k]
    ensures r[i] == Merge(ms[i], ms[j]).first && r[j] == Merge(ms[i], ms[j]).second
    ensures ms[i].scale >= ms[j].scale ==> r[i].scale == ms[i].scale + GrowthStep && !r[j].active
    ensures ms[i].scale < ms[j].scale ==> r[j].scale == ms[j].scale + GrowthStep && !r[i].active
    ensures ms[i].active && ms[j].active ==> ActiveCount(r) + 1 == ActiveCount(ms)
  {
    var p := Merge(ms[i], ms[j]);
    var r := ms[i := p.first][j := p.second];
    ActiveCountUpdate(ms, i, p.first);
    ActiveCountUpdate(ms[i := p.first], j, p.second);
    r
  }

  /** The circle `body.setCircle(radius, offsetX, offsetY)` is given. */
  datatype Circle = Circle(radius: real, offsetX: real, offsetY: real)

  /** radius = min(width, height) / 2 with the offsets that centre the circle. */
  function BodyCircle(width: nat, height: nat): (c: Circle)
    ensures 2.0 * c.offsetX + 2.0 * c.radius == width as real
    ensures 2.0 * c.offsetY + 2.0 * c.radius == height as real
    ensures c.offsetX >= 0.0 && c.offsetY >= 0.0
    ensures c.offsetX == 0.0 || c.offsetY == 0.0
  {
    var radius := (if width <= height then width else height) as real / 2.0;
    var offsetX := (width as real - radius * 2.0) / 2.0;
    var offsetY := (height as real - radius * 2.0) / 2.0;
    Circle(radius, offsetX, offsetY)
  }

  /** The circle is the largest centred one: any circle centred in the frame and
      inside it is no larger. */
  lemma BodyCircleIsLargest(width: nat, height: nat, c: Circle)
    requires 2.0 * c.offsetX + 2.0 * c.radius == width as real
    requires 2.0 * c.offsetY + 2.0 * c.radius == height as real
    requires c.offsetX >= 0.0 && c.offsetY >= 0.0
    ensures c.radius <= BodyCircle(width, height).radius
  {
  }

  /** One monster of the `update` loop: below the line it goes back to the top with
      no vertical speed. */
  function RecycleOne(m: Monster): Monster {
    if m.y > RecycleLine then m.(y := RespawnY, vy := 0) else m
  }

  /** The recycling pass of `update`, over every monster of the group. */
  function Recycle(ms: seq<Monster>): (r: seq<Monster>)
    ensures |r| == |ms|
    ensures forall i :: 0 <= i < |ms| ==> r[i].y <= RecycleLine
    ensures forall i :: 0 <= i < |ms| ==> r[i].scale == ms[i].scale && r[i].active == ms[i].active
    ensures forall i :: 0 <= i < |ms| && ms[i].y <= RecycleLine ==> r[i] == ms[i]
    ensures forall i :: 0 <= i < |ms| && ms[i].y > RecycleLine ==> r[i].y == RespawnY && r[i].vy == 0
  {
    seq(|ms|, i requires 0 <= i < |ms| => RecycleOne(ms[i]))
  }

  /** A second recycling pass in the same frame changes nothing. */
  lemma RecycleIdempotent(ms: seq<Monster>)
    ensures Recycle(Recycle(ms)) == Recycle(ms)
  {
  }

  /** `spawnMonster`: a new monster of scale 0.1 is added and then every monster of
      the group, old ones included, is moved to the top. */
  function SpawnMonster(ms: seq<Monster>): (r: seq<Monster>)
    ensures |r| == |ms| + 1
    ensures r[|ms|] == Monster(SpawnScale, true, RespawnY, SpawnVy)
    ensures forall i :: 0 <= i < |r| ==> r[i].y == RespawnY
    ensures forall i :: 0 <= i < |ms| ==> r[i] == ms[i].(y := RespawnY)
    ensures ActiveCount(r) == ActiveCount(ms) + 1
  {
    var all := ms + [Monster(SpawnScale, true, RespawnY, SpawnVy)];
    var r := seq(|all|, i requires 0 <= i < |all| => all[i].(y := RespawnY));
    assert r[..|ms|] == seq(|ms|, i requires 0 <= i < |ms| => ms[i].(y := RespawnY));
    MovingKeepsActiveCount(ms, RespawnY);
    r
  }

  /** Moving monsters leaves the enabled count alone. */
  lemma {:induction false} MovingKeepsActiveCount(ms: seq<Monster>, y: int)
    ensures ActiveCount(seq(|ms|, i requires 0 <= i < |ms| => ms[i].(y := y))) == ActiveCount(ms)
    decreases |ms|
  {
    if |ms| > 0 {
      var moved := seq(|ms|, i requires 0 <= i < |ms| => ms[i].(y := y));
      var init := ms[..|ms| - 1];
      assert moved[..|ms| - 1] == seq(|init|, i requires 0 <= i < |init| => init[i].(y := y));
      MovingKeepsActiveCount(init, y);
    }
  }
}

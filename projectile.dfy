/**
  `Projectile`: a pooled object with an active flag and a lifetime that
  counts down by the frame time on every `Update` and switches the object off
  once it is used up. Movement is not modelled.
 */
module Projectiles {
  import opened ArTypes

  /** The part of a projectile that `Init` and `Update` change. */
  datatype Life = Life(lifeTime: real, active: bool)

  /** One `Update`: subtract the frame time, switch off when nothing is left. */
  function Aged(l: Life, dt: Delta): (r: Life)
    ensures r.lifeTime == l.lifeTime - dt
    ensures r.active <==> l.active && r.lifeTime > 0.0
  {
    var left := l.lifeTime - dt;
    Life(left, if left <= 0.0 then false else l.active)
  }

  /**
    Successive `Update`s with the given frame times. Unity calls `Update` only
    on an active object, so the frames after the switch-off have no
    counterpart in the source, which leaves `lifeTime` where it was; the
    difference cannot be seen, since `Init` resets `lifeTime` before the next use.
   */
  function Lived(l: Life, dts: seq<Delta>): Life
    decreases |dts|
  {
    if dts == [] then l else Lived(Aged(l, dts[0]), dts[1..])
  }

  function Total(dts: seq<Delta>): (t: real)
    ensures t >= 0.0
    decreases |dts|
  {
    if dts == [] then 0.0 else dts[0] + Total(dts[1..])
  }

  /**
    After any frames the lifetime is the start value less their total time,
    and the object is still active exactly when it was and that remainder is
    positive (or no frame has passed).
   */
  lemma {:induction false} LifetimeIsBudget(l: Life, dts: seq<Delta>)
    ensures Lived(l, dts).lifeTime == l.lifeTime - Total(dts)
    ensures Lived(l, dts).active <==> l.active && (dts == [] || l.lifeTime - Total(dts) > 0.0)
    decreases |dts|
  {
    if dts != [] {
      LifetimeIsBudget(Aged(l, dts[0]), dts[1..]);
    }
  }

  /** A deactivated projectile is never switched on again by `Update`. */
  lemma {:induction false} InactiveStaysInactive(l: Life, dts: seq<Delta>)
    requires !l.active
    ensures !Lived(l, dts).active
    decreases |dts|
  {
    if dts != [] {
      InactiveStaysInactive(Aged(l, dts[0]), dts[1..]);
    }
  }

  class Projectile {
    /** `_maxLifeTime`, a serialized field (5 by default). */
    const maxLifeTime: real
    var lifeTime: real
    var active: bool

    ghost function State(): Life
      reads this
    {
      Life(lifeTime, active)
    }

    /** A pool instance: `Instantiate` of the prefab followed by `SetActive(false)`. */
    constructor (maxLife: real)
      ensures maxLifeTime == maxLife
      ensures State() == Life(0.0, false)
    {
      maxLifeTime := maxLife;
      lifeTime := 0.0;
      active := false;
    }

    /** A full lifetime and an active object, whatever the state before. */
    method Init()
      modifies this
      ensures State() == Life(maxLifeTime, true)
    {
      lifeTime := maxLifeTime;
      active := true;
    }

    method Update(dt: Delta)
      modifies this
      ensures State() == Aged(old(State()), dt)
    {
      lifeTime := lifeTime - dt;
      if lifeTime <= 0.0 {
        active := false;
      }
    }
  }
}

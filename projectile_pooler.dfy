/**
  `ProjectilePooler`: a list of projectile instances that grows by a fixed
  batch whenever every pooled instance is in use. `GetGameObject` hands out
  the first inactive instance; it grows the pool and retries once, and throws
  when even the retry finds nothing.
 */
module Pooling {
  import opened ArTypes
  import opened Projectiles

  /** What `GetGameObject` produces: an instance, or the exception it throws. */
  datatype Fetch = Fetched(projectile: Projectile) | FetchFailed(fault: Fault)

  /** The index of the first inactive instance, or `|ps|` when every one is active. */
  ghost function FirstInactive(ps: seq<Projectile>): (k: nat)
    reads ps
    ensures k <= |ps|
    ensures forall i :: 0 <= i < k ==> ps[i].active
    ensures k < |ps| ==> !ps[k].active
    decreases |ps|
  {
    if ps == [] then 0 else if !ps[0].active then 0 else 1 + FirstInactive(ps[1..])
  }

  /** The number of instances `IncreasePool` adds: its `for` loop runs `_batchAmount` times, or not at all. */
  function BatchSize(batchAmount: int): (n: nat)
    ensures batchAmount > 0 ==> n == batchAmount
    ensures batchAmount <= 0 ==> n == 0
  {
    if batchAmount > 0 then batchAmount else 0
  }

  class ProjectilePooler {
    /** `_batchAmount`, a serialized field (10 by default). */
    const batchAmount: int
    /** The `_maxLifeTime` of the prefab handed to `Init`, which every instance copies. */
    var prefabLifeTime: real
    var pool: seq<Projectile>

    constructor (batch: int)
      ensures batchAmount == batch && pool == []
    {
      batchAmount := batch;
      prefabLifeTime := 0.0;
      pool := [];
    }

    /** Append `_batchAmount` new inactive instances of the prefab. */
    method IncreasePool()
      modifies this
      ensures prefabLifeTime == old(prefabLifeTime)
      ensures |pool| == |old(pool)| + BatchSize(batchAmount)
      ensures pool[..|old(pool)|] == old(pool)
      ensures forall i :: |old(pool)| <= i < |pool| ==>
                fresh(pool[i]) && !pool[i].active && pool[i].maxLifeTime == prefabLifeTime
    {
      var i := 0;
      while i < batchAmount
        invariant 0 <= i <= BatchSize(batchAmount)
        invariant prefabLifeTime == old(prefabLifeTime)
        invariant |pool| == |old(pool)| + i
        invariant pool[..|old(pool)|] == old(pool)
        invariant forall j :: |old(pool)| <= j < |pool| ==>
                    fresh(pool[j]) && !pool[j].active && pool[j].maxLifeTime == prefabLifeTime
      {
        var instance := new Projectile(prefabLifeTime);
        pool := pool + [instance];
        i := i + 1;
      }
    }

    /** `Init(prefab)`: a fresh pool holding one batch of inactive instances. */
    method Init(prefabMaxLifeTime: real)
      modifies this
      ensures prefabLifeTime == prefabMaxLifeTime
      ensures |pool| == BatchSize(batchAmount)
      ensures forall i :: 0 <= i < |pool| ==>
                fresh(pool[i]) && !pool[i].active && pool[i].maxLifeTime == prefabMaxLifeTime
    {
      pool := [];
      prefabLifeTime := prefabMaxLifeTime;
      IncreasePool();
    }

    /** The `foreach` of `GetGameObject`: the position of the first inactive instance, `|pool|` if none. */
    method SearchInactive() returns (k: nat)
      ensures k == FirstInactive(pool)
    {
      k := 0;
      while k < |pool|
        invariant 0 <= k <= |pool|
        invariant forall j :: 0 <= j < k ==> pool[j].active
      {
        if !pool[k].active {
          return;
        }
        k := k + 1;
      }
    }

    /**
      The first inactive instance if there is one, with the pool unchanged;
      otherwise (first call only) grow the pool by a batch and retry once.
      No instance is activated, none is removed, and the old entries keep
      their places.
     */
    method GetGameObject(hasAlreadyAdded: bool) returns (r: Fetch)
      modifies this
      decreases if hasAlreadyAdded then 0 else 1
      ensures prefabLifeTime == old(prefabLifeTime)
      ensures |pool| >= |old(pool)| && pool[..|old(pool)|] == old(pool)
      ensures forall i :: |old(pool)| <= i < |pool| ==>
                fresh(pool[i]) && !pool[i].active && pool[i].maxLifeTime == prefabLifeTime
      ensures old(FirstInactive(pool)) < |old(pool)| ==>
                pool == old(pool) && r == Fetched(old(pool)[old(FirstInactive(pool))])
      ensures old(FirstInactive(pool)) == |old(pool)| && !hasAlreadyAdded && batchAmount > 0 ==>
                |pool| == |old(pool)| + batchAmount && r == Fetched(pool[|old(pool)|])
      ensures old(FirstInactive(pool)) == |old(pool)| && (hasAlreadyAdded || batchAmount <= 0) ==>
                pool == old(pool) && r == FetchFailed(NoInactiveProjectile)
    {
      var k := SearchInactive();
      if k < |pool| {
        return Fetched(pool[k]);
      }
      if hasAlreadyAdded {
        return FetchFailed(NoInactiveProjectile);
      }
      IncreasePool();
      r := GetGameObject(true);
    }

    /** `OnDestroy`: the instances are destroyed and the list cleared. */
    method OnDestroy()
      modifies this
      ensures pool == []
      ensures prefabLifeTime == old(prefabLifeTime)
    {
      pool := [];
    }
  }
}

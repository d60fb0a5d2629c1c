/**
 * ScGemPoolService: one FIFO queue of inactive instances per prefab, and the prefab each
 * instance was made from. Prefabs and instances are identified by numbers; creating an
 * instance (Object.Instantiate) takes the next unused instance number.
 */
module GemPool {
  import opened Options

  /** The numbers lo, lo+1, ..., lo+n-1, in order. */
  function Range(lo: nat, n: nat): (r: seq<nat>)
    ensures |r| == n
    ensures forall i :: 0 <= i < n ==> r[i] == lo + i
  {
    if n == 0 then [] else Range(lo, n - 1) + [lo + n - 1]
  }

  /** `m` with the instances lo .. lo+n-1 registered as made from `prefab`. */
  function Registered(m: map<nat, nat>, lo: nat, n: nat, prefab: nat): map<nat, nat> {
    if n == 0 then m else Registered(m, lo, n - 1, prefab)[lo + n - 1 := prefab]
  }

  /** Prewarm's registrations: the new instances map to the prefab and nothing else changes. */
  lemma {:induction false} RegisteredMembers(m: map<nat, nat>, lo: nat, n: nat, prefab: nat, i: nat)
    requires forall j :: j in m ==> j < lo
    ensures i in Registered(m, lo, n, prefab) <==> i in m || lo <= i < lo + n
    ensures i in m ==> Registered(m, lo, n, prefab)[i] == m[i]
    ensures lo <= i < lo + n ==> Registered(m, lo, n, prefab)[i] == prefab
  {
    if n > 0 {
      RegisteredMembers(m, lo, n - 1, prefab, i);
    }
  }

  /** The queue of a prefab in `pools`; a prefab without an entry has an empty one. */
  function QueueOf(pools: map<nat, seq<nat>>, prefab: nat): seq<nat> {
    if prefab in pools then pools[prefab] else []
  }

  /**
   * Every known instance was created by the pool (its number is below `nextId`), every
   * active instance is known, and every queued instance sits in its own prefab's queue.
   */
  ghost predicate PoolValid(pools: map<nat, seq<nat>>, instanceToPrefab: map<nat, nat>, nextId: nat, active: set<nat>) {
    (forall i :: i in instanceToPrefab ==> i < nextId)
    && active <= instanceToPrefab.Keys
    && (forall p, k :: p in pools && 0 <= k < |pools[p]| ==>
          pools[p][k] in instanceToPrefab && instanceToPrefab[pools[p][k]] == p)
  }

  /** No pooled instance is active and no queue holds an instance twice. */
  ghost predicate PoolSound(pools: map<nat, seq<nat>>, active: set<nat>) {
    (forall p, k :: p in pools && 0 <= k < |pools[p]| ==> pools[p][k] !in active)
    && (forall p, j, k :: p in pools && 0 <= j < k < |pools[p]| ==> pools[p][j] != pools[p][k])
  }

  /** Prewarm's first step: giving a prefab its (possibly empty) queue keeps the invariants. */
  lemma TouchQueue(pools: map<nat, seq<nat>>, instanceToPrefab: map<nat, nat>, nextId: nat, active: set<nat>, prefab: nat)
    requires PoolValid(pools, instanceToPrefab, nextId, active)
    ensures var pools' := pools[prefab := QueueOf(pools, prefab)];
      PoolValid(pools', instanceToPrefab, nextId, active)
      && (PoolSound(pools, active) ==> PoolSound(pools', active))
  {
  }

  /** Prewarm's step: a new inactive instance at the back of its prefab's queue. */
  lemma EnqueueFresh(pools: map<nat, seq<nat>>, instanceToPrefab: map<nat, nat>, nextId: nat, active: set<nat>, prefab: nat)
    requires PoolValid(pools, instanceToPrefab, nextId, active)
    ensures var pools' := pools[prefab := QueueOf(pools, prefab) + [nextId]];
      PoolValid(pools', instanceToPrefab[nextId := prefab], nextId + 1, active)
      && (PoolSound(pools, active) ==> PoolSound(pools', active))
  {
    var q := QueueOf(pools, prefab);
    assert forall k :: 0 <= k < |q| ==> q[k] in instanceToPrefab;
  }

  /** Get's first case: the front of a non-empty queue was not active, and stays out of every queue. */
  lemma TakeFront(pools: map<nat, seq<nat>>, instanceToPrefab: map<nat, nat>, nextId: nat, active: set<nat>, prefab: nat)
    requires PoolValid(pools, instanceToPrefab, nextId, active)
    requires |QueueOf(pools, prefab)| > 0
    ensures var q := QueueOf(pools, prefab);
      var pools' := pools[prefab := q[1..]];
      PoolValid(pools', instanceToPrefab, nextId, active + {q[0]})
      && instanceToPrefab[q[0]] == prefab
      && (PoolSound(pools, active) ==> PoolSound(pools', active + {q[0]}) && q[0] !in active)
  {
    var q := QueueOf(pools, prefab);
    var pools' := pools[prefab := q[1..]];
    assert prefab in pools;
    if PoolSound(pools, active) {
      forall p, k | p in pools' && 0 <= k < |pools'[p]|
        ensures pools'[p][k] != q[0]
      {
        if p == prefab {
          assert pools'[p][k] == q[k + 1];
        } else {
          assert instanceToPrefab[pools'[p][k]] == p;
        }
      }
    }
  }

  /** Get's second case: a newly instantiated object is active and in no queue. */
  lemma InstantiateActive(pools: map<nat, seq<nat>>, instanceToPrefab: map<nat, nat>, nextId: nat, active: set<nat>, prefab: nat)
    requires PoolValid(pools, instanceToPrefab, nextId, active)
    ensures var pools' := pools[prefab := QueueOf(pools, prefab)];
      PoolValid(pools', instanceToPrefab[nextId := prefab], nextId + 1, active + {nextId})
      && nextId !in active
      && (PoolSound(pools, active) ==> PoolSound(pools', active + {nextId}))
  {
  }

  /** Release of an active instance: it goes to the back of its prefab's queue, inactive. */
  lemma ReturnActive(pools: map<nat, seq<nat>>, instanceToPrefab: map<nat, nat>, nextId: nat, active: set<nat>, gem: nat)
    requires PoolValid(pools, instanceToPrefab, nextId, active)
    requires gem in instanceToPrefab
    ensures var prefab := instanceToPrefab[gem];
      var pools' := pools[prefab := QueueOf(pools, prefab) + [gem]];
      PoolValid(pools', instanceToPrefab, nextId, active - {gem})
      && (PoolSound(pools, active) && gem in active ==> PoolSound(pools', active - {gem}))
  {
  }

  class Pool {
    /** _gemPools: prefab -> queue of pooled instances, front first. */
    var pools: map<nat, seq<nat>>
    /** _instanceToPrefab */
    var instanceToPrefab: map<nat, nat>
    /** The instances whose game object is active. */
    var active: set<nat>
    /** The instances Release destroyed because their prefab was unknown. */
    var destroyed: set<nat>
    /** The number the next instantiated object receives. */
    var nextId: nat

    function Queue(prefab: nat): seq<nat>
      reads this
    {
      QueueOf(pools, prefab)
    }

    ghost predicate Valid()
      reads this
    {
      PoolValid(pools, instanceToPrefab, nextId, active)
    }

    ghost predicate Sound()
      reads this
    {
      PoolSound(pools, active)
    }

    constructor ()
      ensures Valid() && Sound()
      ensures pools == map[] && instanceToPrefab == map[] && active == {} && destroyed == {}
    {
      pools := map[];
      instanceToPrefab := map[];
      active := {};
      destroyed := {};
      nextId := 0;
    }

    /** Create `count` inactive instances of `prefab` and queue them (none when count <= 0). */
    method Prewarm(prefab: nat, count: int)
      requires Valid()
      modifies this
      ensures Valid()
      ensures old(Sound()) ==> Sound()
      ensures var n := if count > 0 then count else 0;
        nextId == old(nextId) + n
        && pools == old(pools)[prefab := old(Queue(prefab)) + Range(old(nextId), n)]
      ensures instanceToPrefab == Registered(old(instanceToPrefab), old(nextId), nextId - old(nextId), prefab)
      ensures active == old(active) && destroyed == old(destroyed)
    {
      hide PoolValid, PoolSound;
      ghost var wasSound := Sound();
      ghost var pools0, queue0, id0, map0 := pools, Queue(prefab), nextId, instanceToPrefab;
      // The queue is shared with _gemPools; it is written back once it is complete.
      var pool := Queue(prefab);
      TouchQueue(pools, instanceToPrefab, nextId, active, prefab);
      assert pool + Range(id0, 0) == pool;
      var i := 0;
      while i < count
        invariant 0 <= i && (i <= count || i == 0)
        invariant nextId == id0 + i
        invariant pool == queue0 + Range(id0, i)
        invariant instanceToPrefab == Registered(map0, id0, i, prefab)
        invariant PoolValid(pools0[prefab := pool], instanceToPrefab, nextId, active)
        invariant wasSound ==> PoolSound(pools0[prefab := pool], active)
        invariant pools == pools0 && active == old(active) && destroyed == old(destroyed)
      {
        var gem := nextId;
        ghost var before: map<nat, seq<nat>> := pools0[prefab := pool];
        EnqueueFresh(before, instanceToPrefab, nextId, active, prefab);
        assert before[prefab := pool + [gem]] == pools0[prefab := pool + [gem]];
        nextId := nextId + 1;
        instanceToPrefab := instanceToPrefab[gem := prefab];
        assert queue0 + Range(id0, i + 1) == (queue0 + Range(id0, i)) + [gem];
        pool := pool + [gem];
        i := i + 1;
      }
      pools := pools[prefab := pool];
    }

    /** Take the front instance of the prefab's queue, or instantiate a new one; it becomes active. */
    method Get(prefab: nat) returns (gem: nat)
      requires Valid()
      modifies this
      ensures Valid()
      ensures gem in instanceToPrefab && instanceToPrefab[gem] == prefab
      ensures active == old(active) + {gem} && destroyed == old(destroyed)
      ensures |old(Queue(prefab))| > 0 ==>
        gem == old(Queue(prefab))[0]
        && pools == old(pools)[prefab := old(Queue(prefab))[1..]]
        && instanceToPrefab == old(instanceToPrefab) && nextId == old(nextId)
      ensures |old(Queue(prefab))| == 0 ==>
        gem == old(nextId) && nextId == old(nextId) + 1
        && pools == old(pools)[prefab := []]
        && instanceToPrefab == old(instanceToPrefab)[gem := prefab]
      ensures old(Sound()) ==> Sound() && gem !in old(active)
    {
      var pool := Queue(prefab);
      if |pool| > 0 {
        TakeFront(pools, instanceToPrefab, nextId, active, prefab);
        gem := pool[0];
        pools := pools[prefab := pool[1..]];
      } else {
        InstantiateActive(pools, instanceToPrefab, nextId, active, prefab);
        pools := pools[prefab := pool];
        gem := nextId;
        nextId := nextId + 1;
        instanceToPrefab := instanceToPrefab[gem := prefab];
      }
      active := active + {gem};
    }

    /** Get; the world position the caller passes is presentation and is not modelled. */
    method Spawn(prefab: nat) returns (gem: nat)
      requires Valid()
      modifies this
      ensures Valid()
      ensures gem in instanceToPrefab && instanceToPrefab[gem] == prefab
      ensures active == old(active) + {gem} && destroyed == old(destroyed)
      ensures |old(Queue(prefab))| > 0 ==>
        gem == old(Queue(prefab))[0]
        && pools == old(pools)[prefab := old(Queue(prefab))[1..]]
        && instanceToPrefab == old(instanceToPrefab) && nextId == old(nextId)
      ensures |old(Queue(prefab))| == 0 ==>
        gem == old(nextId) && nextId == old(nextId) + 1
        && pools == old(pools)[prefab := []]
        && instanceToPrefab == old(instanceToPrefab)[gem := prefab]
      ensures nextId >= old(nextId)
      ensures forall i :: i in old(instanceToPrefab) ==> i in instanceToPrefab && instanceToPrefab[i] == old(instanceToPrefab[i])
      ensures old(Sound()) ==> Sound() && gem !in old(active)
    {
      gem := Get(prefab);
    }

    /**
     * Return an instance to its prefab's queue and deactivate it. Null is ignored; an
     * instance of unknown prefab is destroyed instead.
     */
    method Release(gem: Option<nat>)
      requires Valid()
      modifies this
      ensures Valid()
      ensures nextId == old(nextId) && instanceToPrefab == old(instanceToPrefab)
      ensures gem.None? ==>
        pools == old(pools) && active == old(active) && destroyed == old(destroyed)
      ensures gem.Some? && gem.value !in old(instanceToPrefab) ==>
        pools == old(pools) && active == old(active) && destroyed == old(destroyed) + {gem.value}
      ensures gem.Some? && gem.value in old(instanceToPrefab) ==>
        var prefab := old(instanceToPrefab[gem.value]);
        pools == old(pools)[prefab := old(Queue(prefab)) + [gem.value]]
        && active == old(active) - {gem.value} && destroyed == old(destroyed)
      ensures old(Sound()) && gem.Some? && gem.value in old(active) ==> Sound()
    {
      if gem.None? {
        return;
      }
      if gem.value !in instanceToPrefab {
        destroyed := destroyed + {gem.value};
        return;
      }
      var prefab := instanceToPrefab[gem.value];
      var pool := Queue(prefab);
      ReturnActive(pools, instanceToPrefab, nextId, active, gem.value);
      active := active - {gem.value};
      pools := pools[prefab := pool + [gem.value]];
    }
  }
}

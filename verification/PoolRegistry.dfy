/** `ThreadLocalPoolRegistry` of `include/quant/memory.h`. Every operation holds the mutex
    throughout, so a run is a sequence of these calls. */
module PoolRegistry {
  import opened Common
  import opened Alignment

  type Thread = nat

  /** The identity of a pool on the heap. */
  type Pool = nat

  datatype PoolEntry = PoolEntry(pool: Pool, generation: nat)

  class Registry {
    var pools: map<Thread, PoolEntry>
    var owners: map<Thread, Pool>
    var generations: map<Thread, nat>

    /** The pools allocated and not yet deleted. */
    ghost var live: set<Pool>

    /** `active_generation_[tid]`, which is 0 until first stored. */
    function Generation(tid: Thread): nat
      reads this
    {
      if tid in generations then generations[tid] else 0
    }

    /** Each thread with an entry owns that pool alone and the entry is current; nothing else
        is allocated. */
    ghost predicate Valid()
      reads this
    {
      && pools.Keys == owners.Keys
      && (forall t | t in pools :: pools[t] == PoolEntry(owners[t], Generation(t)))
      && (forall t, u | t in owners && u in owners && owners[t] == owners[u] :: t == u)
      && (forall p :: p in live <==> exists t :: t in owners && owners[t] == p)
    }

    constructor ()
      ensures Valid() && owners == map[] && live == {}
    {
      pools, owners, generations, live := map[], map[], map[], {};
    }

    /** `unused` is what `new MemoryPool` would return. The branch for an entry of an older
        generation is never reached: a release that moves the generation on erases the entry. */
    method GetOrCreatePool(tid: Thread, unused: Pool) returns (pool: Pool)
      requires Valid() && unused !in live
      modifies this
      ensures Valid() && owners == old(owners)[tid := pool] && pool in live
      ensures tid in old(owners) ==> pool == old(owners[tid]) && live == old(live)
      ensures tid !in old(owners) ==> pool == unused && live == old(live) + {unused}
      ensures forall t :: Generation(t) == old(Generation(t))
    {
      if tid in pools {
        if pools[tid].generation == Generation(tid) {
          return pools[tid].pool;
        }
        assert false;
      }
      pool := unused;
      live := live + {pool};
      generations := generations[tid := Generation(tid)];
      pools := pools[tid := PoolEntry(pool, generations[tid])];
      owners := owners[tid := pool];
      assert owners[tid] == pool;
      assert forall t | t in old(owners) :: owners[t] == old(owners[t]);
    }

    /** What `get_or_create_pool` last gave this thread, until it is released. */
    method GetPool(tid: Thread) returns (r: Option<Pool>)
      requires Valid()
      ensures r == if tid in owners then Some(owners[tid]) else None
      ensures r.Some? ==> r.value in live
    {
      if tid in pools && pools[tid].generation == Generation(tid) {
        return Some(pools[tid].pool);
      }
      return None;
    }

    /** Deletes the thread's own pool, once, and no other thread's. */
    method ReleasePool(tid: Thread)
      requires Valid()
      modifies this
      ensures Valid() && owners == old(owners) - {tid}
      ensures live == old(live) - (if tid in old(owners) then {old(owners[tid])} else {})
      ensures Generation(tid) == (old(Generation(tid)) + 1) % WORD
      ensures forall t | t != tid :: Generation(t) == old(Generation(t))
    {
      if tid in owners {
        assert owners[tid] in live;
        live := live - {owners[tid]};
        owners := owners - {tid};
      }
      pools := pools - {tid};
      generations := generations[tid := (Generation(tid) + 1) % WORD];
      assert forall t | t in owners :: owners[t] == old(owners[t]);
    }
  }
}

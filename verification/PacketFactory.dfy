/** The packet factory: registered create functions and one ring of ready
    objects for each pair. */
module PacketFactory {
  import opened Packets
  import opened PacketObjects
  import opened CircularBuffers
  import opened Pools

  type Ring = CircularBuffer<PacketObject?>

  class PacketMethodFactory {
    var methods: map<string, PacketClass>
    var allocationMethods: map<Pair, PacketClass>
    var creationPool: map<Pair, Ring>

    /** The books of each pool, all objects made for pools, and the objects that
        represent the pools. */
    ghost var pools: map<Pair, Pool>
    ghost var made: set<PacketObject>
    ghost var Repr: set<object>

    ghost predicate Valid()
      reads `creationPool, `pools, `Repr, Repr
    {
      Apart() && pools.Keys == creationPool.Keys && RingsOk()
    }

    /** No ring or buffer serves two pools, and none is a packet. */
    ghost predicate Apart()
      reads `creationPool, `Repr
    {
      && (forall p {:trigger creationPool[p]} :: p in creationPool ==> creationPool[p] in Repr && creationPool[p].buf in Repr)
      && (forall p, q {:trigger creationPool[p], creationPool[q]} :: p in creationPool && q in creationPool && p != q ==>
            creationPool[p] != creationPool[q] && creationPool[p].buf != creationPool[q].buf)
      && (forall o: PacketObject :: o in Repr ==> false)
      && this !in Repr
    }

    ghost predicate RingsOk()
      requires Apart() && pools.Keys == creationPool.Keys
      reads `creationPool, `pools, `Repr, Repr
    {
      forall p {:trigger creationPool[p]} :: p in creationPool ==> RingOk(creationPool[p], pools[p])
    }

    static ghost predicate RingOk(ring: Ring, pool: Pool)
      reads ring, ring.buf
    {
      ring.Valid() && ring.maxSize == POOL_SIZE && ring.none == null && pool.free == ring.Contents()
    }

    /** The factory by value. */
    ghost function View(): Ledger
      reads this
    {
      Ledger(methods, allocationMethods, pools, made)
    }

    constructor ()
      ensures Valid() && View() == EMPTY && Repr == {}
    {
      methods, allocationMethods, creationPool := map[], map[], map[];
      pools, made, Repr := map[], {}, {};
    }

    method Register(name: string, pair: Pair, create: PacketClass) returns (success: bool)
      requires Valid()
      modifies `methods, `allocationMethods
      ensures Valid()
      ensures (View(), success) == Registered(old(View()), name, pair, create)
      ensures allocationMethods == if pair in old(allocationMethods) then old(allocationMethods)
                                   else old(allocationMethods)[pair := create]
      ensures methods == if name in old(methods) then old(methods) else old(methods)[name := create]
      ensures success <==> pair !in old(allocationMethods) || name !in old(methods)
    {
      success := false;
      if pair !in allocationMethods {
        allocationMethods := allocationMethods[pair := create];
        success := true;
      }
      if name !in methods {
        methods := methods[name := create];
        success := true;
      }
    }

    method Create(pair: Pair) returns (o: PacketObject?)
      requires Valid()
      modifies `pools, Repr
      ensures Valid()
      ensures (View(), o) == Created(old(View()), pair)
    {
      if pair !in creationPool {
        return null;
      }
      o := TakeFrom(pair);
    }

    /** The object made to learn its class is dropped again. */
    method CreateByName(name: string) returns (o: PacketObject?)
      requires Valid()
      modifies `pools, Repr
      ensures Valid()
      ensures (View(), o) == CreatedByName(old(View()), name)
      ensures name in methods ==> (View(), o) == Created(old(View()), methods[name].ClassPair())
      ensures name !in methods ==> o == null
    {
      if name !in methods {
        return null;
      }
      var temp := new PacketObject(methods[name]);
      o := Create(temp.kind.ClassPair());
    }

    /** `it->second->get()` */
    method TakeFrom(pair: Pair) returns (o: PacketObject?)
      requires Valid() && pair in creationPool
      modifies `pools, Repr
      ensures Valid()
      ensures o == Taken(old(pools)[pair]).1 && pools == old(pools)[pair := Taken(old(pools)[pair]).0]
    {
      ghost var pool;
      o, pool := GetFrom(creationPool[pair], pools[pair]);
      Book(pair, pool);
    }

    static method GetFrom(ring: Ring, ghost pool: Pool) returns (o: PacketObject?, ghost pool': Pool)
      requires RingOk(ring, pool)
      modifies ring, ring.buf
      ensures RingOk(ring, pool') && (pool', o) == Taken(pool)
    {
      o := ring.Get();
      pool' := Taken(pool).0;
    }

    /** Enters the new state of one pool into the books. */
    ghost method Book(pair: Pair, pool: Pool)
      requires Apart() && pools.Keys == creationPool.Keys && pair in creationPool
      requires RingOk(creationPool[pair], pool)
      requires forall p :: p in creationPool && p != pair ==> RingOk(creationPool[p], pools[p])
      modifies `pools
      ensures Valid() && pools == old(pools)[pair := pool]
    {
      pools := pools[pair := pool];
    }

    method Release(o: PacketObject) returns (ok: bool)
      requires Valid()
      modifies `pools, Repr
      ensures Valid() && Bounded(old(View()))
      ensures (View(), ok) == Released(old(View()), o)
    {
      RingsBounded();
      var pair := o.kind.ClassPair();
      if pair !in creationPool {
        return false;
      }
      ReturnTo(pair, o);
      ok := true;
    }

    lemma RingsBounded()
      requires Valid()
      ensures Bounded(View())
    {
      forall p | p in creationPool ensures |pools[p].free| <= POOL_SIZE { assert RingOk(creationPool[p], pools[p]); }
    }

    /** `it->second->put(std::move(data))` */
    method ReturnTo(pair: Pair, o: PacketObject)
      requires Valid() && pair in creationPool
      requires |pools[pair].free| <= POOL_SIZE
      modifies `pools, Repr
      ensures Valid()
      ensures pools == old(pools)[pair := Returned(old(pools)[pair], o)]
    {
      ghost var pool := PutInto(creationPool[pair], pools[pair], o);
      Book(pair, pool);
    }

    static method PutInto(ring: Ring, ghost pool: Pool, o: PacketObject) returns (ghost pool': Pool)
      requires RingOk(ring, pool) && |pool.free| <= POOL_SIZE
      modifies ring, ring.buf
      ensures RingOk(ring, pool') && pool' == Returned(pool, o)
    {
      ring.Put(o);
      pool' := Returned(pool, o);
    }

    method Shutdown()
      requires Valid()
      modifies this
      ensures Valid() && View() == Emptied(old(View()))
    {
      methods, allocationMethods, creationPool := map[], map[], map[];
      pools, Repr := map[], {};
    }

    method IsPoolAlreadyAllocated(pair: Pair) returns (found: bool)
      requires Valid()
      ensures found <==> pair in View().pools
    {
      found := pair in creationPool;
    }

    /** A ring filled with new objects of the class. */
    static method FillRing(c: PacketClass) returns (ring: Ring, ghost pool: Pool)
      ensures fresh(ring) && fresh(ring.buf)
      ensures RingOk(ring, pool) && NewPool(pool, c)
      ensures fresh(pool.owned)
    {
      ring := new CircularBuffer<PacketObject?>(POOL_SIZE, null);
      for i := 0 to POOL_SIZE
        invariant ring.Valid() && ring.maxSize == POOL_SIZE && ring.none == null && fresh(ring) && fresh(ring.buf)
        invariant |ring.Contents()| == i
        invariant NoDuplicates(ring.Contents()) && null !in ring.Contents()
        invariant forall o: PacketObject :: o in ring.Contents() ==> fresh(o) && o.kind == c
      {
        ghost var before := ring.Contents();
        var o := new PacketObject(c);
        assert o !in before;
        ring.Put(o);
        assert ring.Contents() == before + [o];
      }
      pool := Pool(ring.Contents(), {}, Objects(ring.Contents()));
    }

    /** `s_creationPool[typePair] = buff` */
    method AddRing(pair: Pair, ring: Ring, ghost pool: Pool)
      requires Valid() && pair !in creationPool && RingOk(ring, pool)
      requires ring !in Repr && ring.buf !in Repr
      modifies `creationPool, `pools, `Repr
      ensures Valid() && Repr == old(Repr) + {ring, ring.buf}
      ensures pools == old(pools)[pair := pool]
    {
      creationPool := creationPool[pair := ring];
      Repr := Repr + {ring, ring.buf};
      pools := pools[pair := pool];
    }

    /** Enters the new pool and its objects into the books. */
    method AddPool(pair: Pair, ring: Ring, ghost pool: Pool)
      requires Valid() && pair !in creationPool && RingOk(ring, pool)
      requires ring !in Repr && ring.buf !in Repr
      modifies `creationPool, `pools, `made, `Repr
      ensures Valid() && Repr == old(Repr) + {ring, ring.buf} && made == old(made) + pool.owned
      ensures pools == old(pools)[pair := pool]
    {
      AddRing(pair, ring, pool);
      made := made + pool.owned;
    }

    method InitFactory()
      requires Valid()
      modifies `creationPool, `pools, `made, `Repr
      ensures Valid() && Initialised(old(View()), View()) && fresh(Repr - old(Repr))
      ensures fresh(made - old(made))
    {
      ghost var l := View();
      var todo := allocationMethods.Keys;
      InitStart(l);
      while todo != {}
        invariant Valid() && fresh(Repr - old(Repr)) && fresh(made - old(made))
        invariant allocationMethods == l.allocators && todo <= l.allocators.Keys
        invariant InitialisedExcept(l, View(), todo)
        decreases todo
      {
        var pair :| pair in todo;
        ghost var before := View();
        InitPool(pair);
        InitNext(l, before, View(), todo, pair);
        todo := todo - {pair};
      }
      InitDone(l, View());
    }

    /** The loop body: skip, or fill a ring and enter it. */
    method InitPool(pair: Pair)
      requires Valid() && pair in allocationMethods
      modifies `creationPool, `pools, `made, `Repr
      ensures Valid() && fresh(Repr - old(Repr)) && fresh(made - old(made))
      ensures Visited(old(View()), View(), pair)
    {
      var found := IsPoolAlreadyAllocated(pair);
      if !found {
        var ring, pool := FillRing(allocationMethods[pair]);
        VisitedNew(View(), pair, pool);
        AddPool(pair, ring, pool);
      }
    }
  }

  /** The loop has yet to visit the pairs in `todo`. */
  ghost predicate InitialisedExcept(l: Ledger, l': Ledger, todo: set<Pair>) {
    && todo <= l.allocators.Keys
    && l'.methods == l.methods && l'.allocators == l.allocators
    && l'.pools.Keys == l.pools.Keys + (l.allocators.Keys - todo)
    && l.made <= l'.made
    && forall pair :: pair in l'.pools ==> KeptOrNew(l, l', pair)
  }

  ghost predicate Visited(l1: Ledger, l2: Ledger, pair: Pair) {
    && l2.methods == l1.methods && l2.allocators == l1.allocators
    && if pair in l1.pools then l2.pools == l1.pools && l2.made == l1.made
       else pair in l2.pools && l2.pools == l1.pools[pair := l2.pools[pair]]
            && pair in l1.allocators && NewPool(l2.pools[pair], l1.allocators[pair])
            && l2.pools[pair].owned !! l1.made && l2.made == l1.made + l2.pools[pair].owned
  }

  lemma VisitedNew(l: Ledger, pair: Pair, pool: Pool)
    requires pair !in l.pools && pair in l.allocators && NewPool(pool, l.allocators[pair]) && pool.owned !! l.made
    ensures Visited(l, l.(pools := l.pools[pair := pool], made := l.made + pool.owned), pair)
  {
  }

  lemma InitStart(l: Ledger)
    ensures InitialisedExcept(l, l, l.allocators.Keys)
  {
  }

  lemma InitDone(l: Ledger, l': Ledger)
    requires InitialisedExcept(l, l', {})
    ensures Initialised(l, l')
  {
  }

  lemma InitNext(l: Ledger, l1: Ledger, l2: Ledger, todo: set<Pair>, pair: Pair)
    requires InitialisedExcept(l, l1, todo) && pair in todo
    requires Visited(l1, l2, pair)
    ensures InitialisedExcept(l, l2, todo - {pair})
  {
    forall p | p in l2.pools ensures KeptOrNew(l, l2, p) {
      if p in l1.pools { assert KeptOrNew(l, l1, p); }
    }
  }
}

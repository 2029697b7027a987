/** The receive loop over pooled objects, by value: which object each round
    takes, and that the rounds together are the loop of `Framing`. */
module ReceiveLoop {
  import opened Serialize
  import opened Packets
  import opened PacketObjects
  import opened Pools
  import F = Framing

  /** How many objects each pool has to give. */
  function StockOf(pools: map<Pair, Pool>): F.Stock {
    map pair | pair in pools :: |pools[pair].free|
  }

  /** All objects waiting in some pool. */
  function FreePackets(pools: map<Pair, Pool>): set<PacketObject> {
    set pair, o: PacketObject | pair in pools && o in pools[pair].free :: o
  }

  /** The object that `Create` will return. */
  function NextIn(pools: map<Pair, Pool>, pair: Pair): PacketObject? {
    TakenFrom(pools, pair).1
  }

  /** The pools, the queue and the packets in it. */
  datatype Snapshot = Snapshot(pools: map<Pair, Pool>, queue: seq<PacketObject>, got: seq<Packet>)

  /** Where the receive loop stands, by value. */
  datatype ReadState = ReadState(offset: nat, snap: Snapshot)

  /** The guard passes, but there is no object to receive into. */
  ghost predicate Stuck(mem: seq<byte>, total: nat, offset: nat, s: Snapshot) {
    && offset <= total + 29 && total + F.SLACK <= |mem| && F.BigEnough(mem, offset, total)
    && TakenFrom(s.pools, F.Probe(mem, offset)) == (s.pools, null)
  }

  function Behind(offset: nat, next: PacketObject): nat {
    offset + 3 + next.kind.PayloadLength()
  }

  ghost predicate Advances(mem: seq<byte>, total: nat, offset: nat, next: PacketObject, s: Snapshot, s': Snapshot) {
    && offset <= total + 29 && total + F.SLACK <= |mem| && F.BigEnough(mem, offset, total)
    && NextIn(s.pools, F.Probe(mem, offset)) == next && next !in s.queue
    && s' == Snapshot(TakenFrom(s.pools, F.Probe(mem, offset)).0, s.queue + [next],
                      s.got + [Decode(next.kind, F.Payload(mem, offset, next.kind))])
  }

  ghost predicate StepAt(mem: seq<byte>, total: nat, pool: set<PacketObject>, trace: seq<ReadState>, i: nat)
    requires i < |trace|
  {
    var s := trace[i];
    if i + 1 < |trace| then
      exists next <- pool :: trace[i + 1].offset == Behind(s.offset, next)
                          && Advances(mem, total, s.offset, next, s.snap, trace[i + 1].snap)
    else
      && s.offset <= total + 29 && total + F.SLACK <= |mem|
      && (F.BigEnough(mem, s.offset, total) ==> Stuck(mem, total, s.offset, s.snap))
  }

  ghost predicate IsTrace(mem: seq<byte>, total: nat, pool: set<PacketObject>, trace: seq<ReadState>) {
    forall i :: 0 <= i < |trace| ==> StepAt(mem, total, pool, trace, i)
  }

  /** The pools conserve their objects, and the queue holds what it took: each
      object is of the class that the pair read from the wire names. */
  ghost predicate Sound(s: Snapshot) {
    PoolsOk(s.pools) && AllHeld(s.pools, s.queue) && Matching(s.queue, s.got)
  }

  ghost predicate AllHeld(pools: map<Pair, Pool>, queue: seq<PacketObject>) {
    forall i :: 0 <= i < |queue| ==> HeldIn(pools, queue[i])
  }

  ghost predicate Matching(queue: seq<PacketObject>, got: seq<Packet>) {
    && (forall i, j :: 0 <= i < j < |queue| ==> queue[i] != queue[j])
    && |queue| == |got|
    && (forall i :: 0 <= i < |got| ==> got[i].StoredPair() == queue[i].kind.ClassPair())
  }

  /** `DequeMessage`: the oldest packet leaves and goes back to its pool. */
  ghost function Popped(s: Snapshot): Snapshot
    requires Sound(s) && s.queue != []
  {
    var o := s.queue[0];
    var pair := o.kind.ClassPair();
    assert HeldIn(s.pools, o);
    PoolBounded(s.pools[pair], pair);
    Snapshot(s.pools[pair := Returned(s.pools[pair], o)], s.queue[1..], s.got[1..])
  }

  lemma ReturnIsOk(pools: map<Pair, Pool>, pair: Pair, o: PacketObject, pools': map<Pair, Pool>)
    requires PoolsOk(pools) && HeldIn(pools, o) && pair == o.kind.ClassPair() && |pools[pair].free| <= POOL_SIZE
    requires pools' == pools[pair := Returned(pools[pair], o)]
    ensures PoolsOk(pools') && pools'[pair].free == pools[pair].free + [o]
  {
    ReturnKeepsPool(pools[pair], pair, o);
  }

  lemma ReturnHolds(pools: map<Pair, Pool>, pair: Pair, o: PacketObject, pools': map<Pair, Pool>, x: PacketObject)
    requires HeldIn(pools, o) && pair == o.kind.ClassPair() && |pools[pair].free| <= POOL_SIZE
    requires pools' == pools[pair := Returned(pools[pair], o)]
    ensures HeldIn(pools', x) <==> HeldIn(pools, x) && x != o
  {
  }

  lemma ReturnHoldsRest(pools: map<Pair, Pool>, pair: Pair, o: PacketObject, pools': map<Pair, Pool>,
                        queue: seq<PacketObject>)
    requires HeldIn(pools, o) && pair == o.kind.ClassPair() && |pools[pair].free| <= POOL_SIZE
    requires pools' == pools[pair := Returned(pools[pair], o)]
    requires AllHeld(pools, queue) && o !in queue
    ensures AllHeld(pools', queue)
  {
    forall i | 0 <= i < |queue| ensures HeldIn(pools', queue[i]) { ReturnHolds(pools, pair, o, pools', queue[i]); }
  }

  /** It goes to the end of the pool that its wire pair names, without an
      overflow, and the rest of the queue keeps what it holds. */
  lemma PoppedIsSound(s: Snapshot, o: PacketObject, pair: Pair, s': Snapshot)
    requires Sound(s) && s.queue != [] && o == s.queue[0] && pair == s.got[0].StoredPair() && s' == Popped(s)
    ensures Sound(s') && !HeldIn(s'.pools, o)
    ensures pair in s.pools && s'.pools == s.pools[pair := s'.pools[pair]]
    ensures s'.pools[pair].free == s.pools[pair].free + [o]
  {
    PoolBounded(s.pools[pair], pair);
    ReturnIsOk(s.pools, pair, o, s'.pools);
    ReturnHolds(s.pools, pair, o, s'.pools, o);
    ReturnHoldsRest(s.pools, pair, o, s'.pools, s.queue[1..]);
  }

  /** The packets behind it keep their order and their contents. */
  lemma PoppedIsFirst(s: Snapshot, s': Snapshot)
    requires Sound(s) && s.queue != [] && s' == Popped(s)
    ensures s'.queue == s.queue[1..] && s'.got == s.got[1..]
  {
  }

  lemma KnownPair(p: Pool, pair: Pair)
    requires PoolOk(p, pair)
    ensures ClassOf(pair).Some?
  {
    assert p.owned != {};
    var o :| o in p.owned;
    assert o.kind.ClassPair() == pair;
  }

  /** What conservation says about the pool of one pair. */
  predicate Stocked(pools: map<Pair, Pool>, pair: Pair) {
    pair in pools ==>
      ClassOf(pair).Some? && (pools[pair].free != [] ==>
        pools[pair].free[0] != null && pools[pair].free[0].kind.ClassPair() == pair)
  }

  lemma OkStocked(pools: map<Pair, Pool>, pair: Pair)
    requires PoolsOk(pools)
    ensures Stocked(pools, pair)
  {
    if pair in pools {
      KnownPair(pools[pair], pair);
      TakeKeepsPool(pools[pair], pair);
    }
  }

  /** `Create` fails just when the loop by value says so. */
  lemma CreateFails(pools: map<Pair, Pool>, pair: Pair)
    requires Stocked(pools, pair)
    ensures NextIn(pools, pair) == null <==> F.Create(pair, StockOf(pools)).0 == None
    ensures NextIn(pools, pair) == null ==>
      && TakenFrom(pools, pair).0 == pools
      && F.Create(pair, StockOf(pools)).1 == (if pair in pools then F.PoolEmpty else F.UnknownPair)
  {
    if pair in pools && pools[pair].free == [] {
      assert pools[pair := pools[pair]] == pools;
    }
  }

  /** And otherwise it gives a free object of the expected class. */
  lemma CreateSucceeds(pools: map<Pair, Pool>, pair: Pair, o: PacketObject)
    requires Stocked(pools, pair) && o == NextIn(pools, pair)
    ensures Some(o.kind) == F.Create(pair, StockOf(pools)).0
    ensures o in FreePackets(pools)
    ensures StockOf(TakenFrom(pools, pair).0) == F.Take(StockOf(pools), pair)
    ensures FreePackets(TakenFrom(pools, pair).0) <= FreePackets(pools)
  {
    F.PairsDistinct(o.kind, ClassOf(pair).value);
    assert o in pools[pair].free;
    var pools' := TakenFrom(pools, pair).0;
    forall q, x: PacketObject | q in pools' && x in pools'[q].free ensures x in pools[q].free {
      if q == pair { assert pools'[q].free == pools[q].free[1..]; }
    }
  }

  lemma TakeIsOk(pools: map<Pair, Pool>, pair: Pair, next: PacketObject)
    requires PoolsOk(pools) && NextIn(pools, pair) == next
    ensures PoolsOk(TakenFrom(pools, pair).0)
    ensures pair == next.kind.ClassPair() && !HeldIn(pools, next)
  {
    TakeKeepsPool(pools[pair], pair);
  }

  lemma TakeHolds(pools: map<Pair, Pool>, pair: Pair, next: PacketObject, o: PacketObject)
    requires NextIn(pools, pair) == next && pair == next.kind.ClassPair()
    ensures HeldIn(TakenFrom(pools, pair).0, o) <==> HeldIn(pools, o) || o == next
  {
  }

  lemma TakeHoldsAll(pools: map<Pair, Pool>, pair: Pair, next: PacketObject, queue: seq<PacketObject>)
    requires AllHeld(pools, queue) && NextIn(pools, pair) == next && pair == next.kind.ClassPair()
    ensures AllHeld(TakenFrom(pools, pair).0, queue + [next])
  {
    forall o ensures o in queue + [next] ==> HeldIn(TakenFrom(pools, pair).0, o) { TakeHolds(pools, pair, next, o); }
  }

  lemma MatchingMore(queue: seq<PacketObject>, got: seq<Packet>, next: PacketObject, d: Packet)
    requires Matching(queue, got) && next !in queue && d.StoredPair() == next.kind.ClassPair()
    ensures Matching(queue + [next], got + [d])
  {
  }

  /** An object that comes from a pool is nobody else's. */
  lemma TakeIsSound(s: Snapshot, pair: Pair, next: PacketObject, d: Packet, s': Snapshot)
    requires Sound(s) && NextIn(s.pools, pair) == next && d.StoredPair() == pair
    requires s' == Snapshot(TakenFrom(s.pools, pair).0, s.queue + [next], s.got + [d])
    ensures next !in s.queue && Sound(s')
  {
    TakeIsOk(s.pools, pair, next);
    TakeHoldsAll(s.pools, pair, next, s.queue);
    MatchingMore(s.queue, s.got, next, d);
  }

  lemma DecodedPair(mem: seq<byte>, offset: nat, c: PacketClass)
    requires offset + F.SLACK <= |mem|
    ensures Decode(c, F.Payload(mem, offset, c)).StoredPair() == F.Probe(mem, offset)
  {
  }

  function Prepend(done: seq<Packet>, r: F.Outcome): F.Outcome {
    r.(packets := done + r.packets)
  }

  /** What `Framing` says of the rounds from here on. */
  ghost predicate Finishes(mem: seq<byte>, total: nat, got: seq<Packet>, r: F.Outcome, last: ReadState)
    requires total + F.SLACK <= |mem|
  {
    && Sound(last.snap) && last.offset <= total + 29
    && last.offset == r.offset && last.snap.got == got + r.packets
    && (r.status == F.Drained <==> !F.BigEnough(mem, last.offset, total))
  }

  lemma TraceOfNone(mem: seq<byte>, total: nat, offset: nat, s: Snapshot, pool: set<PacketObject>) returns (trace: seq<ReadState>)
    requires offset <= total + 29 && total + F.SLACK <= |mem| && Sound(s)
    requires F.BigEnough(mem, offset, total) ==> NextIn(s.pools, F.Probe(mem, offset)) == null
    ensures trace == [ReadState(offset, s)] && IsTrace(mem, total, pool, trace)
    ensures Finishes(mem, total, s.got, F.Drain(mem, offset, total, StockOf(s.pools)), ReadState(offset, s))
  {
    trace := [ReadState(offset, s)];
    assert s.got + [] == s.got;
    if F.BigEnough(mem, offset, total) {
      OkStocked(s.pools, F.Probe(mem, offset));
      CreateFails(s.pools, F.Probe(mem, offset));
    }
  }

  lemma TraceGrows(mem: seq<byte>, total: nat, offset: nat, s: Snapshot, pool: set<PacketObject>,
                   next: PacketObject, rest: seq<ReadState>)
    requires rest != [] && IsTrace(mem, total, pool, rest) && next in pool
    requires rest[0].offset == Behind(offset, next)
    requires Advances(mem, total, offset, next, s, rest[0].snap)
    ensures IsTrace(mem, total, pool, [ReadState(offset, s)] + rest)
  {
    var trace := [ReadState(offset, s)] + rest;
    forall i | 0 <= i < |trace| ensures StepAt(mem, total, pool, trace, i) {
      if i > 0 { assert StepAt(mem, total, pool, rest, i - 1); }
    }
  }

  /** One round that finds an object, and what is left of the loop. */
  lemma FirstRound(mem: seq<byte>, total: nat, offset: nat, pools: map<Pair, Pool>, pools': map<Pair, Pool>,
                   next: PacketObject, d: Packet)
    requires offset <= total + 29 && total + F.SLACK <= |mem| && F.BigEnough(mem, offset, total)
    requires Stocked(pools, F.Probe(mem, offset)) && TakenFrom(pools, F.Probe(mem, offset)) == (pools', next)
    requires d == Decode(next.kind, F.Payload(mem, offset, next.kind))
    ensures Behind(offset, next) <= total + 29
    ensures F.Drain(mem, offset, total, StockOf(pools)) ==
            Prepend([d], F.Drain(mem, Behind(offset, next), total, StockOf(pools')))
  {
    CreateFails(pools, F.Probe(mem, offset));
    CreateSucceeds(pools, F.Probe(mem, offset), next);
  }

  lemma FinishesOneMore(mem: seq<byte>, total: nat, got: seq<Packet>, d: Packet, r: F.Outcome, last: ReadState)
    requires total + F.SLACK <= |mem| && Finishes(mem, total, got + [d], r, last)
    ensures Finishes(mem, total, got, Prepend([d], r), last)
  {
    assert got + ([d] + r.packets) == (got + [d]) + r.packets;
  }

  /** The rounds of the receive loop are those of the loop by value. */
  lemma {:induction false} Tracing(mem: seq<byte>, total: nat, offset: nat, s: Snapshot, pool: set<PacketObject>)
    returns (trace: seq<ReadState>)
    requires offset <= total + 29 && total + F.SLACK <= |mem|
    requires Sound(s) && FreePackets(s.pools) <= pool
    ensures trace != [] && trace[0] == ReadState(offset, s) && IsTrace(mem, total, pool, trace)
    ensures Finishes(mem, total, s.got, F.Drain(mem, offset, total, StockOf(s.pools)), trace[|trace| - 1])
    decreases total + 29 - offset, 0
  {
    if !F.BigEnough(mem, offset, total) || NextIn(s.pools, F.Probe(mem, offset)) == null {
      trace := TraceOfNone(mem, total, offset, s, pool);
    } else {
      var next: PacketObject := NextIn(s.pools, F.Probe(mem, offset));
      var d := Decode(next.kind, F.Payload(mem, offset, next.kind));
      var s' := Snapshot(TakenFrom(s.pools, F.Probe(mem, offset)).0, s.queue + [next], s.got + [d]);
      OkStocked(s.pools, F.Probe(mem, offset));
      DecodedPair(mem, offset, next.kind);
      TakeIsSound(s, F.Probe(mem, offset), next, d, s');
      CreateSucceeds(s.pools, F.Probe(mem, offset), next);
      FirstRound(mem, total, offset, s.pools, s'.pools, next, d);
      trace := TraceAfter(mem, total, offset, s, s', pool, next, d);
    }
  }

  lemma {:induction false} TraceAfter(mem: seq<byte>, total: nat, offset: nat, s: Snapshot, s': Snapshot,
                                      pool: set<PacketObject>, next: PacketObject, d: Packet)
    returns (trace: seq<ReadState>)
    requires Behind(offset, next) <= total + 29 && total + F.SLACK <= |mem|
    requires Sound(s') && FreePackets(s'.pools) <= pool && next in pool && s'.got == s.got + [d]
    requires Advances(mem, total, offset, next, s, s')
    ensures trace != [] && trace[0] == ReadState(offset, s) && IsTrace(mem, total, pool, trace)
    ensures Finishes(mem, total, s.got, Prepend([d], F.Drain(mem, Behind(offset, next), total, StockOf(s'.pools))),
                     trace[|trace| - 1])
    decreases total + 29 - Behind(offset, next), 1
  {
    var rest := Tracing(mem, total, Behind(offset, next), s', pool);
    TraceGrows(mem, total, offset, s, pool, next, rest);
    FinishesOneMore(mem, total, s.got, d, F.Drain(mem, Behind(offset, next), total, StockOf(s'.pools)),
                    rest[|rest| - 1]);
    trace := [ReadState(offset, s)] + rest;
  }

  // Several connections

  ghost predicate HeldGrows(pools: map<Pair, Pool>, pools': map<Pair, Pool>) {
    forall pair :: pair in pools ==> pair in pools' && pools[pair].held <= pools'[pair].held
  }

  /** What was held stays held, what was queued stays queued, and what joined the
      queue was nobody's. */
  ghost predicate Grown(s: Snapshot, s': Snapshot) {
    && HeldGrows(s.pools, s'.pools)
    && s.queue <= s'.queue
    && (forall i :: |s.queue| <= i < |s'.queue| ==> !HeldIn(s.pools, s'.queue[i]))
  }

  lemma TakeGrows(pools: map<Pair, Pool>, pair: Pair)
    ensures HeldGrows(pools, TakenFrom(pools, pair).0)
  {
  }

  lemma OneRoundGrows(mem: seq<byte>, total: nat, offset: nat, next: PacketObject, s: Snapshot, s': Snapshot)
    requires PoolsOk(s.pools) && Advances(mem, total, offset, next, s, s')
    ensures PoolsOk(s'.pools) && Grown(s, s')
  {
    TakeIsOk(s.pools, F.Probe(mem, offset), next);
    TakeGrows(s.pools, F.Probe(mem, offset));
    GrownByOne(s, s', next);
  }

  lemma GrownByOne(s: Snapshot, s': Snapshot, next: PacketObject)
    requires HeldGrows(s.pools, s'.pools) && s'.queue == s.queue + [next] && !HeldIn(s.pools, next)
    ensures Grown(s, s')
  {
  }

  lemma GrownFurther(s: Snapshot, s1: Snapshot, s2: Snapshot)
    requires Grown(s, s1) && Grown(s1, s2)
    ensures Grown(s, s2)
  {
    forall i | |s.queue| <= i < |s2.queue| ensures !HeldIn(s.pools, s2.queue[i]) {
      if i < |s1.queue| {
        assert s2.queue[i] == s1.queue[i];
      } else {
        assert !HeldIn(s1.pools, s2.queue[i]);
      }
    }
  }

  lemma {:induction false} TraceGrown(mem: seq<byte>, total: nat, pool: set<PacketObject>, trace: seq<ReadState>, n: nat)
    requires n < |trace| && IsTrace(mem, total, pool, trace) && PoolsOk(trace[0].snap.pools)
    ensures PoolsOk(trace[n].snap.pools) && Grown(trace[0].snap, trace[n].snap)
  {
    if n > 0 {
      TraceGrown(mem, total, pool, trace, n - 1);
      assert StepAt(mem, total, pool, trace, n - 1);
      var next :| next in pool
                  && Advances(mem, total, trace[n - 1].offset, next, trace[n - 1].snap, trace[n].snap);
      OneRoundGrows(mem, total, trace[n - 1].offset, next, trace[n - 1].snap, trace[n].snap);
      GrownFurther(trace[0].snap, trace[n - 1].snap, trace[n].snap);
    }
  }

  /** A whole read: its rounds, how it ends, and what it leaves alone. */
  lemma ReadTrace(mem: seq<byte>, total: nat, s: Snapshot, pool: set<PacketObject>, r: F.Outcome)
    returns (trace: seq<ReadState>, last: ReadState)
    requires total + F.SLACK <= |mem| && Sound(s) && FreePackets(s.pools) <= pool
    requires r == F.Drain(mem, 0, total, StockOf(s.pools))
    ensures trace != [] && trace[0] == ReadState(0, s) && last == trace[|trace| - 1]
    ensures IsTrace(mem, total, pool, trace)
    ensures Finishes(mem, total, s.got, r, last)
    ensures Grown(s, last.snap)
  {
    trace := Tracing(mem, total, 0, s, pool);
    last := trace[|trace| - 1];
    WholeGrown(mem, total, pool, trace, s, last.snap);
  }

  lemma WholeGrown(mem: seq<byte>, total: nat, pool: set<PacketObject>, trace: seq<ReadState>, s: Snapshot, s': Snapshot)
    requires trace != [] && IsTrace(mem, total, pool, trace) && PoolsOk(s.pools)
    requires trace[0].snap == s && trace[|trace| - 1].snap == s'
    ensures Grown(s, s')
  {
    TraceGrown(mem, total, pool, trace, |trace| - 1);
  }

  /** Two connections that share the pools, and no packet. */
  ghost predicate Beside(s: Snapshot, t: Snapshot) {
    && Sound(s) && Sound(t) && s.pools == t.pools
    && forall i, j :: 0 <= i < |s.queue| && 0 <= j < |t.queue| ==> s.queue[i] != t.queue[j]
  }

  lemma HeldIsNotFree(pools: map<Pair, Pool>, queue: seq<PacketObject>, free: set<PacketObject>)
    requires PoolsOk(pools) && AllHeld(pools, queue) && free == FreePackets(pools)
    ensures forall o :: o in queue ==> o !in free
  {
    forall i, pair | 0 <= i < |queue| && pair in pools ensures queue[i] !in pools[pair].free {
      HeldElsewhere(pools, queue[i], pair);
    }
  }

  lemma HeldElsewhere(pools: map<Pair, Pool>, o: PacketObject, pair: Pair)
    requires PoolsOk(pools) && HeldIn(pools, o) && pair in pools
    ensures o !in pools[pair].free
  {
    assert PoolOk(pools[pair], pair);
    assert o in Objects(pools[pair].free) <==> o in pools[pair].free;
  }

  /** A read on one connection leaves the other one sound, and still no packet is
      shared. */
  lemma ReadKeepsBeside(s: Snapshot, s': Snapshot, t: Snapshot)
    requires Beside(s, t) && Sound(s') && Grown(s, s')
    ensures Beside(s', t.(pools := s'.pools))
  {
    StayHeld(s.pools, s'.pools, t.queue);
    forall i, j | 0 <= i < |s'.queue| && 0 <= j < |t.queue| ensures s'.queue[i] != t.queue[j] {
      assert HeldIn(s.pools, t.queue[j]);
      if i < |s.queue| { assert s'.queue[i] == s.queue[i]; }
    }
  }

  lemma StayHeld(pools: map<Pair, Pool>, pools': map<Pair, Pool>, queue: seq<PacketObject>)
    requires AllHeld(pools, queue) && HeldGrows(pools, pools')
    ensures AllHeld(pools', queue)
  {
    forall i | 0 <= i < |queue| ensures HeldIn(pools', queue[i]) { assert HeldIn(pools, queue[i]); }
  }

  /** So does taking a packet from its queue. */
  lemma PopKeepsBeside(s: Snapshot, t: Snapshot) returns (s': Snapshot)
    requires Beside(s, t) && s.queue != []
    ensures s' == Popped(s) && Beside(s', t.(pools := s'.pools))
  {
    s' := Popped(s);
    var o, pair := s.queue[0], s.got[0].StoredPair();
    PoppedIsSound(s, o, pair, s');
    PoolBounded(s.pools[pair], pair);
    ReturnHoldsRest(s.pools, pair, o, s'.pools, t.queue);
  }
}

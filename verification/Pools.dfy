/** The packet pools by value: what each operation of the factory does, and
    what every run of them conserves. */
module Pools {
  import opened Packets
  import opened PacketObjects
  import opened CircularBuffers

  const POOL_SIZE := 100

  /** One pool: its free objects, oldest first, and the books kept about it: the
      objects handed out and not released, and all that it was filled with. */
  datatype Pool = Pool(free: seq<PacketObject?>, held: set<PacketObject>, owned: set<PacketObject>)

  /** The factory's maps, and all objects that any pool was ever filled with. A
      create function is known by the class it makes. */
  datatype Ledger = Ledger(
    methods: map<string, PacketClass>,
    allocators: map<Pair, PacketClass>,
    pools: map<Pair, Pool>,
    made: set<PacketObject>)

  const EMPTY := Ledger(map[], map[], map[], {})

  /** `Shutdown`. Objects that were handed out stay with their holders. */
  function Emptied(l: Ledger): Ledger {
    EMPTY.(made := l.made)
  }

  function Registered(l: Ledger, name: string, pair: Pair, c: PacketClass): (Ledger, bool) {
    var l1 := if pair in l.allocators then l else l.(allocators := l.allocators[pair := c]);
    var l2 := if name in l.methods then l1 else l1.(methods := l.methods[name := c]);
    (l2, pair !in l.allocators || name !in l.methods)
  }

  function Taken(p: Pool): (Pool, PacketObject?) {
    if p.free == [] then (p, null)
    else
      var o := p.free[0];
      (Pool(p.free[1..], if o == null then p.held else p.held + {o}, p.owned), o)
  }

  /** What a request for a pair takes from the pools. */
  function TakenFrom(pools: map<Pair, Pool>, pair: Pair): (map<Pair, Pool>, PacketObject?) {
    if pair !in pools then (pools, null)
    else (pools[pair := Taken(pools[pair]).0], Taken(pools[pair]).1)
  }

  function Created(l: Ledger, pair: Pair): (Ledger, PacketObject?) {
    (l.(pools := TakenFrom(l.pools, pair).0), TakenFrom(l.pools, pair).1)
  }

  function CreatedByName(l: Ledger, name: string): (Ledger, PacketObject?) {
    if name in l.methods then Created(l, l.methods[name].ClassPair()) else (l, null)
  }

  predicate Bounded(l: Ledger) {
    forall pair :: pair in l.pools ==> |l.pools[pair].free| <= POOL_SIZE
  }

  function Returned(p: Pool, o: PacketObject): Pool
    requires |p.free| <= POOL_SIZE
  {
    Pool(Pushed(p.free, POOL_SIZE, o), p.held - {o}, p.owned)
  }

  /** `Release` asks the object for its class, not for its stored pair. */
  function Released(l: Ledger, o: PacketObject): (Ledger, bool)
    requires Bounded(l)
  {
    var pair := o.kind.ClassPair();
    if pair !in l.pools then (l, false)
    else (l.(pools := l.pools[pair := Returned(l.pools[pair], o)]), true)
  }

  function Objects(s: seq<PacketObject?>): set<PacketObject> {
    set o: PacketObject | o in s
  }

  predicate NoDuplicates(s: seq<PacketObject?>) {
    forall i, j :: 0 <= i < j < |s| ==> s[i] != s[j]
  }

  ghost predicate NewPool(p: Pool, c: PacketClass) {
    && |p.free| == POOL_SIZE && NoDuplicates(p.free) && null !in p.free
    && (forall o: PacketObject :: o in p.free ==> o.kind == c)
    && p.held == {} && p.owned == Objects(p.free)
  }

  /** A pool that was there stays; another one is filled with new objects. */
  ghost predicate KeptOrNew(l: Ledger, l': Ledger, pair: Pair)
    requires pair in l'.pools && (pair in l.pools || pair in l.allocators)
  {
    if pair in l.pools then l'.pools[pair] == l.pools[pair]
    else NewPool(l'.pools[pair], l.allocators[pair]) && l'.pools[pair].owned !! l.made
         && l'.pools[pair].owned <= l'.made
  }

  /** `InitFactory`: a new pool for every registered pair that has none; every
      other pool stays. */
  ghost predicate Initialised(l: Ledger, l': Ledger) {
    && l'.methods == l.methods && l'.allocators == l.allocators
    && l'.pools.Keys == l.pools.Keys + l.allocators.Keys
    && l.made <= l'.made
    && forall pair :: pair in l'.pools ==> KeptOrNew(l, l', pair)
  }

  // Conservation

  /** The pool owns exactly its hundred objects, all of its own class, and each
      is either free or held. */
  ghost predicate PoolOk(p: Pool, pair: Pair) {
    && NoDuplicates(p.free) && null !in p.free
    && Objects(p.free) !! p.held
    && Objects(p.free) + p.held == p.owned
    && |p.owned| == POOL_SIZE
    && (forall o :: o in p.owned ==> o.kind.ClassPair() == pair)
  }

  ghost predicate PoolsOk(pools: map<Pair, Pool>) {
    forall pair :: pair in pools ==> PoolOk(pools[pair], pair)
  }

  ghost predicate Conserved(l: Ledger) {
    && (forall pair :: pair in l.allocators ==> l.allocators[pair].ClassPair() == pair)
    && PoolsOk(l.pools)
    && (forall pair :: pair in l.pools ==> l.pools[pair].owned <= l.made)
  }

  ghost predicate HeldIn(pools: map<Pair, Pool>, o: PacketObject) {
    o.kind.ClassPair() in pools && o in pools[o.kind.ClassPair()].held
  }

  ghost predicate Held(l: Ledger, o: PacketObject) {
    HeldIn(l.pools, o)
  }

  /** Handed out and not returned, be its pool still there or not. */
  ghost predicate Out(l: Ledger, o: PacketObject) {
    o in l.made && forall pair :: pair in l.pools ==> o !in l.pools[pair].free
  }

  datatype Event =
    | Register(name: string, pair: Pair, c: PacketClass)
    | Init(result: Ledger)
    | Create(pair: Pair)
    | CreateByName(name: string)
    | Release(o: PacketObject)
    | Shutdown

  /** Classes are registered under their own pairs. Any packet may be released. */
  ghost predicate Enabled(l: Ledger, e: Event) {
    match e
    case Register(_, pair, c) => c.ClassPair() == pair
    case Init(result) => Initialised(l, result)
    case Release(_) => Bounded(l)
    case _ => true
  }

  ghost function Apply(l: Ledger, e: Event): Ledger
    requires Enabled(l, e)
  {
    match e
    case Register(name, pair, c) => Registered(l, name, pair, c).0
    case Init(result) => result
    case Create(pair) => Created(l, pair).0
    case CreateByName(name) => CreatedByName(l, name).0
    case Release(o) => Released(l, o).0
    case Shutdown => Emptied(l)
  }

  ghost predicate IsRun(l: Ledger, es: seq<Event>)
    decreases es
  {
    es != [] ==> Enabled(l, es[0]) && IsRun(Apply(l, es[0]), es[1..])
  }

  ghost function After(l: Ledger, es: seq<Event>): Ledger
    requires IsRun(l, es)
    decreases es
  {
    if es == [] then l else After(Apply(l, es[0]), es[1..])
  }

  lemma {:induction false} NoDuplicatesSize(s: seq<PacketObject?>)
    requires NoDuplicates(s) && null !in s
    ensures |Objects(s)| == |s|
  {
    if s != [] {
      var o: PacketObject := s[0];
      NoDuplicatesSize(s[1..]);
      assert Objects(s) == {o} + Objects(s[1..]);
      assert o !in s[1..];
    }
  }

  lemma SubsetSize(a: set<PacketObject>, b: set<PacketObject>)
    requires a <= b
    ensures |a| <= |b|
  {
    assert b == a + (b - a);
  }

  lemma PoolBounded(p: Pool, pair: Pair)
    requires PoolOk(p, pair)
    ensures |p.free| <= POOL_SIZE
  {
    NoDuplicatesSize(p.free);
    SubsetSize(Objects(p.free), p.owned);
  }

  lemma ConservedBounded(l: Ledger)
    requires Conserved(l)
    ensures Bounded(l)
  {
    forall pair | pair in l.pools ensures |l.pools[pair].free| <= POOL_SIZE {
      PoolBounded(l.pools[pair], pair);
    }
  }

  lemma TakeKeepsPool(p: Pool, pair: Pair)
    requires PoolOk(p, pair)
    ensures PoolOk(Taken(p).0, pair)
    ensures var o := Taken(p).1;
            if p.free == [] then o == null
            else o != null && o !in p.held && o in p.owned && o in Taken(p).0.held
  {
    if p.free != [] {
      HandOut(p, pair, p.free[0]);
    }
  }

  lemma HandOut(p: Pool, pair: Pair, o: PacketObject)
    requires PoolOk(p, pair) && p.free != [] && p.free[0] == o
    ensures PoolOk(Pool(p.free[1..], p.held + {o}, p.owned), pair)
    ensures o !in p.held && o in p.owned
  {
    HeadAndRest(p.free, o);
    assert p.owned == Objects(p.free[1..]) + (p.held + {o});
  }

  lemma HeadAndRest(s: seq<PacketObject?>, o: PacketObject)
    requires s != [] && s[0] == o && NoDuplicates(s)
    ensures Objects(s) == {o} + Objects(s[1..]) && o !in Objects(s[1..]) && NoDuplicates(s[1..])
  {
    assert o !in s[1..];
  }

  /** Returning a held object never overflows: it is appended. */
  lemma ReturnKeepsPool(p: Pool, pair: Pair, o: PacketObject)
    requires PoolOk(p, pair) && o in p.held
    ensures |p.free| < POOL_SIZE
    ensures Returned(p, o).free == p.free + [o]
    ensures PoolOk(Returned(p, o), pair)
  {
    NoDuplicatesSize(p.free);
    SubsetSize(Objects(p.free) + {o}, p.owned);
    assert o !in p.free by { assert o !in Objects(p.free); }
    assert Objects(p.free + [o]) == Objects(p.free) + {o};
  }

  /** What `put` returns well: a packet that is held, or the oldest free one into
      a full pool, which drops it for itself. */
  predicate ReturnsWell(p: Pool, o: PacketObject) {
    o in p.held || (|p.free| == POOL_SIZE && p.free[0] == o)
  }

  lemma RotatedQueue(s: seq<PacketObject?>, o: PacketObject, t: seq<PacketObject?>)
    requires s != [] && s[0] == o && NoDuplicates(s) && null !in s && t == s[1..] + [o]
    ensures NoDuplicates(t) && null !in t && Objects(t) == Objects(s)
  {
    HeadAndRest(s, o);
    assert o !in s[1..] by { assert o !in Objects(s[1..]); }
    assert forall x :: x in t <==> x in s[1..] || x == o;
  }

  lemma Rotated(p: Pool, pair: Pair, o: PacketObject)
    requires PoolOk(p, pair) && |p.free| == POOL_SIZE && p.free[0] == o
    ensures PoolOk(Returned(p, o), pair)
  {
    RotatedQueue(p.free, o, Returned(p, o).free);
    assert o in Objects(p.free);
    assert p.held - {o} == p.held;
  }

  lemma ReturnedTwice(p: Pool, pair: Pair, o: PacketObject, free: seq<PacketObject?>)
    requires PoolOk(p, pair) && |p.free| <= POOL_SIZE && o !in p.held && free == Returned(p, o).free
    requires NoDuplicates(free) && null !in free && Objects(free) == Objects(p.free)
    ensures |p.free| == POOL_SIZE && p.free[0] == o
  {
    NoDuplicatesSize(p.free);
    NoDuplicatesSize(free);
    var first: PacketObject := p.free[0];
    HeadAndRest(p.free, first);
    assert first in Objects(free) && free == p.free[1..] + [o];
  }

  /** A returned packet leaves the pool conserved exactly when it returns well. */
  lemma ReturnExact(p: Pool, pair: Pair, o: PacketObject)
    requires PoolOk(p, pair)
    ensures |p.free| <= POOL_SIZE
    ensures PoolOk(Returned(p, o), pair) <==> ReturnsWell(p, o)
  {
    PoolBounded(p, pair);
    if o in p.held {
      ReturnKeepsPool(p, pair, o);
    } else if |p.free| == POOL_SIZE && p.free[0] == o {
      Rotated(p, pair, o);
    } else if PoolOk(Returned(p, o), pair) {
      assert p.held - {o} == p.held;
      SameRest(Objects(p.free), Objects(Returned(p, o).free), p.held);
      ReturnedTwice(p, pair, o, Returned(p, o).free);
    }
  }

  lemma SameRest(a: set<PacketObject>, b: set<PacketObject>, held: set<PacketObject>)
    requires a !! held && b !! held && a + held == b + held
    ensures a == b
  {
    assert a == a + held - held && b == b + held - held;
  }

  /** Releasing the same packet twice, as writing it twice to a client does: the
      pool holds it twice, and hands it out twice. */
  lemma DoubleRelease(p: Pool, pair: Pair, o: PacketObject)
    requires PoolOk(p, pair) && o in p.held
    ensures |p.free| <= POOL_SIZE
    ensures var q := Returned(Returned(p, o), o);
            && !PoolOk(q, pair)
            && |q.free| >= 2 && q.free[|q.free| - 1] == q.free[|q.free| - 2] == o
  {
    ReturnKeepsPool(p, pair, o);
    ReturnExact(Returned(p, o), pair, o);
    assert o !in p.free by { assert o !in Objects(p.free); }
  }

  lemma NewPoolOk(p: Pool, c: PacketClass)
    requires NewPool(p, c)
    ensures PoolOk(p, c.ClassPair())
  {
    NoDuplicatesSize(p.free);
  }

  lemma UpdateConserves(l: Ledger, pair: Pair, p: Pool)
    requires Conserved(l) && pair in l.pools && PoolOk(p, pair) && p.owned == l.pools[pair].owned
    ensures Conserved(l.(pools := l.pools[pair := p]))
  {
  }

  lemma CreateConserves(l: Ledger, pair: Pair)
    requires Conserved(l)
    ensures Conserved(Created(l, pair).0)
  {
    if pair in l.pools {
      TakeKeepsPool(l.pools[pair], pair);
      UpdateConserves(l, pair, Taken(l.pools[pair]).0);
    }
  }

  lemma CreateGives(l: Ledger, pair: Pair)
    requires Conserved(l)
    ensures var o := Created(l, pair).1;
            if pair in l.pools && l.pools[pair].free != [] then
              o != null && !Held(l, o) && o.kind.ClassPair() == pair && Held(Created(l, pair).0, o)
            else o == null
  {
    if pair in l.pools {
      assert PoolOk(l.pools[pair], pair);
      TakeKeepsPool(l.pools[pair], pair);
    }
  }

  /** It is the oldest free one of its pool that is given, and no other pool changes. */
  lemma CreateTakesOldest(l: Ledger, pair: Pair, l': Ledger, o: PacketObject?)
    requires (l', o) == Created(l, pair)
    ensures l'.methods == l.methods && l'.allocators == l.allocators && l'.made == l.made
    ensures l'.pools.Keys == l.pools.Keys && forall q :: q in l.pools && q != pair ==> l'.pools[q] == l.pools[q]
    ensures pair in l.pools && o != null ==> [o] + l'.pools[pair].free == l.pools[pair].free
  {
  }

  /** A release keeps the books in order: there is no pool for the class, or the
      packet returns well. */
  predicate Proper(l: Ledger, e: Event) {
    e.Release? && e.o.kind.ClassPair() in l.pools ==> ReturnsWell(l.pools[e.o.kind.ClassPair()], e.o)
  }

  lemma ReleaseConserves(l: Ledger, o: PacketObject)
    requires Conserved(l)
    ensures Bounded(l) && (Conserved(Released(l, o).0) <==> Proper(l, Release(o)))
    ensures Released(l, o).1 <==> o.kind.ClassPair() in l.pools
    ensures !Released(l, o).1 ==> Released(l, o).0 == l
    ensures Held(l, o) ==>
              Released(l, o).1 && Conserved(Released(l, o).0) && !Held(Released(l, o).0, o)
              && Released(l, o).0.pools[o.kind.ClassPair()].free == l.pools[o.kind.ClassPair()].free + [o]
  {
    ConservedBounded(l);
    var pair := o.kind.ClassPair();
    if pair in l.pools {
      ReturnExact(l.pools[pair], pair, o);
      ReleasedIs(l, o, pair, Returned(l.pools[pair], o));
      if o in l.pools[pair].held { ReturnKeepsPool(l.pools[pair], pair, o); }
    }
  }

  lemma ReleasedIs(l: Ledger, o: PacketObject, pair: Pair, p: Pool)
    requires Conserved(l) && pair == o.kind.ClassPair() && pair in l.pools && |l.pools[pair].free| <= POOL_SIZE
    requires p == Returned(l.pools[pair], o) && Bounded(l)
    ensures Conserved(Released(l, o).0) <==> PoolOk(p, pair)
  {
    var l' := Released(l, o).0;
    if PoolOk(p, pair) {
      UpdateConserves(l, pair, p);
    } else {
      assert l'.pools[pair] == p;
    }
  }

  lemma InitConserves(l: Ledger, l': Ledger)
    requires Conserved(l) && Initialised(l, l')
    ensures Conserved(l')
  {
    forall q | q in l'.pools ensures PoolOk(l'.pools[q], q) && l'.pools[q].owned <= l'.made {
      assert KeptOrNew(l, l', q);
      if q !in l.pools { NewPoolOk(l'.pools[q], l.allocators[q]); }
    }
  }

  lemma EntryConserves(l: Ledger, pair: Pair, c: PacketClass)
    requires Conserved(l) && c.ClassPair() == pair
    ensures Conserved(l.(allocators := l.allocators[pair := c]))
  {
  }

  lemma NameConserves(l: Ledger, name: string, c: PacketClass)
    requires Conserved(l)
    ensures Conserved(l.(methods := l.methods[name := c]))
  {
  }

  lemma RegisterConserves(l: Ledger, name: string, pair: Pair, c: PacketClass, l': Ledger)
    requires Conserved(l) && c.ClassPair() == pair && l' == Registered(l, name, pair, c).0
    ensures Conserved(l')
  {
    EntryConserves(l, pair, c);
    NameConserves(if pair in l.allocators then l else l.(allocators := l.allocators[pair := c]), name, c);
  }

  // Registration

  /** The first registration of a pair, and of a name, is the one that stays. */
  lemma RegisteredOnce(l: Ledger, name: string, pair: Pair, c: PacketClass, l': Ledger, entered: bool)
    requires (l', entered) == Registered(l, name, pair, c)
    ensures pair in l'.allocators && l'.allocators[pair] == if pair in l.allocators then l.allocators[pair] else c
    ensures name in l'.methods && l'.methods[name] == if name in l.methods then l.methods[name] else c
    ensures forall q :: q != pair ==> (q in l'.allocators <==> q in l.allocators)
    ensures forall n :: n != name ==> (n in l'.methods <==> n in l.methods)
    ensures forall q :: q in l.allocators ==> l'.allocators[q] == l.allocators[q]
    ensures forall n :: n in l.methods ==> l'.methods[n] == l.methods[n]
    ensures l'.pools == l.pools && l'.made == l.made && (entered <==> l' != l)
  {
    if l' == l {
      assert pair in l.allocators && name in l.methods;
    }
  }

  lemma NewPoolGives(l: Ledger, pair: Pair, p: Pool)
    requires Conserved(l) && pair in l.pools && l.pools[pair] == p && |p.free| == 100
    ensures var o := Created(l, pair).1; o != null && o.kind.ClassPair() == pair
  {
    CreateGives(l, pair);
  }

  /** Once a pair is registered and the factory initialised, a request for it is
      met, and a request by its name is a request for the pair. */
  lemma RegisteredServes(l: Ledger, name: string, pair: Pair, c: PacketClass, l1: Ledger, l2: Ledger)
    requires Conserved(l) && c.ClassPair() == pair && pair !in l.pools
    requires l1 == Registered(l, name, pair, c).0 && Initialised(l1, l2)
    ensures var o := Created(l2, pair).1; o != null && o.kind.ClassPair() == pair
    ensures CreatedByName(l2, name) ==
            Created(l2, if name in l.methods then l.methods[name].ClassPair() else pair)
  {
    RegisteredOnce(l, name, pair, c, l1, Registered(l, name, pair, c).1);
    RegisterConserves(l, name, pair, c, l1);
    InitConserves(l1, l2);
    assert KeptOrNew(l1, l2, pair);
    NewPoolGives(l2, pair, l2.pools[pair]);
  }

  /** After a shutdown nothing is handed out, and everything can be registered again. */
  lemma ShutdownForgets(l: Ledger, name: string, pair: Pair, c: PacketClass)
    ensures var l' := Emptied(l);
            && Created(l', pair) == (l', null) && CreatedByName(l', name) == (l', null)
            && Registered(l', name, pair, c) == (l'.(methods := map[name := c], allocators := map[pair := c]), true)
            && l'.made == l.made
  {
  }

  lemma StepConserves(l: Ledger, e: Event)
    requires Conserved(l) && Enabled(l, e)
    ensures Conserved(Apply(l, e)) <==> Proper(l, e)
  {
    match e
    case Register(name, pair, c) => RegisterConserves(l, name, pair, c, Apply(l, e));
    case Init(result) => InitConserves(l, result);
    case Create(pair) => CreateConserves(l, pair);
    case CreateByName(name) => if name in l.methods { CreateConserves(l, l.methods[name].ClassPair()); }
    case Release(o) => ReleaseConserves(l, o);
    case Shutdown =>
  }

  ghost predicate AlwaysConserved(l: Ledger, es: seq<Event>)
    requires IsRun(l, es)
    decreases es
  {
    Conserved(l) && (es == [] || AlwaysConserved(Apply(l, es[0]), es[1..]))
  }

  ghost predicate AllProper(l: Ledger, es: seq<Event>)
    requires IsRun(l, es)
    decreases es
  {
    es == [] || (Proper(l, es[0]) && AllProper(Apply(l, es[0]), es[1..]))
  }

  /** Conservation throughout a run, of whatever releases, exactly when every
      release in it is proper; in particular from the empty factory. */
  lemma {:induction false} RunConserves(l: Ledger, es: seq<Event>)
    requires Conserved(l) && IsRun(l, es)
    ensures AlwaysConserved(l, es) <==> AllProper(l, es)
    ensures AllProper(l, es) ==> Conserved(After(l, es))
    ensures Conserved(EMPTY)
    decreases es
  {
    if es != [] {
      StepConserves(l, es[0]);
      if Proper(l, es[0]) { RunConserves(Apply(l, es[0]), es[1..]); }
    }
  }

  /** No run, whatever it releases, puts more into a pool than it holds. */
  lemma {:induction false} RunBounded(l: Ledger, es: seq<Event>)
    requires Bounded(l) && IsRun(l, es)
    ensures Bounded(After(l, es))
    ensures forall pair :: pair in After(l, es).pools ==> |After(l, es).pools[pair].free| <= 100
    decreases es
  {
    if es != [] {
      StepBounded(l, es[0]);
      RunBounded(Apply(l, es[0]), es[1..]);
    }
  }

  lemma StepBounded(l: Ledger, e: Event)
    requires Bounded(l) && Enabled(l, e)
    ensures Bounded(Apply(l, e))
  {
    var l' := Apply(l, e);
    forall pair | pair in l'.pools ensures |l'.pools[pair].free| <= POOL_SIZE {
      if e.Init? { assert KeptOrNew(l, l', pair); }
    }
  }

  predicate NeverReleases(es: seq<Event>, o: PacketObject) {
    forall i :: 0 <= i < |es| ==> es[i] != Release(o)
  }

  predicate NoShutdown(es: seq<Event>) {
    forall i :: 0 <= i < |es| ==> es[i] != Shutdown
  }

  /** A pool keeps the same hundred objects until the factory shuts down. */
  lemma {:induction false} OwnedStays(l: Ledger, es: seq<Event>, pair: Pair)
    requires IsRun(l, es) && NoShutdown(es) && pair in l.pools
    ensures pair in After(l, es).pools && After(l, es).pools[pair].owned == l.pools[pair].owned
    decreases es
  {
    if es != [] {
      if es[0].Init? { assert KeptOrNew(l, es[0].result, pair); }
      OwnedStays(Apply(l, es[0]), es[1..], pair);
    }
  }

  /** A packet that is held stays held until it is released. */
  lemma {:induction false} HeldUntilReleased(l: Ledger, es: seq<Event>, o: PacketObject)
    requires IsRun(l, es) && NoShutdown(es) && NeverReleases(es, o) && Held(l, o)
    ensures Held(After(l, es), o)
    decreases es
  {
    if es != [] {
      if es[0].Init? { assert KeptOrNew(l, es[0].result, o.kind.ClassPair()); }
      HeldUntilReleased(Apply(l, es[0]), es[1..], o);
    }
  }

  lemma OutAfter(l: Ledger, e: Event, o: PacketObject)
    requires Enabled(l, e) && e != Release(o) && Out(l, o)
    ensures Out(Apply(l, e), o)
  {
    var l' := Apply(l, e);
    forall pair | pair in l'.pools ensures o !in l'.pools[pair].free {
      if e.Init? { assert KeptOrNew(l, l', pair); }
    }
  }

  /** A packet that is out stays out until it is released, even over a shutdown. */
  lemma {:induction false} OutUntilReleased(l: Ledger, es: seq<Event>, o: PacketObject)
    requires IsRun(l, es) && NeverReleases(es, o) && Out(l, o)
    ensures Out(After(l, es), o)
    decreases es
  {
    if es != [] {
      OutAfter(l, es[0], o);
      OutUntilReleased(Apply(l, es[0]), es[1..], o);
    }
  }

  lemma HeldIsOut(l: Ledger, o: PacketObject)
    requires Conserved(l) && Held(l, o)
    ensures Out(l, o)
  {
    forall pair | pair in l.pools ensures o !in l.pools[pair].free {
      assert PoolOk(l.pools[pair], pair);
      assert o in Objects(l.pools[pair].free) <==> o in l.pools[pair].free;
    }
  }

  lemma OutIsNotGiven(l: Ledger, o: PacketObject, pair: Pair)
    requires Out(l, o)
    ensures Created(l, pair).1 != o
  {
  }

  /** No two holders share a packet: from the moment it is handed out until it is
      released, no request returns it again, whatever happens in between. */
  lemma HandedOutDistinct(l: Ledger, asked: Pair, o: PacketObject, l1: Ledger, es: seq<Event>, pair: Pair)
    requires Conserved(l) && Created(l, asked) == (l1, o)
    requires IsRun(l1, es) && NeverReleases(es, o)
    ensures Created(After(l1, es), pair).1 != o
  {
    CreateGives(l, asked);
    CreateConserves(l, asked);
    HeldIsOut(l1, o);
    OutUntilReleased(l1, es, o);
    OutIsNotGiven(After(l1, es), o, pair);
  }

  /** Every request of a run that finds its pool non-empty is met with an object
      that reports the requested pair. */
  lemma RequestsAreMet(l: Ledger, es: seq<Event>, pair: Pair)
    requires Conserved(l) && IsRun(l, es) && AllProper(l, es)
    ensures var l' := After(l, es); var o := Created(l', pair).1;
            if pair in l'.pools && |l'.pools[pair].held| < POOL_SIZE then o != null && o.kind.ClassPair() == pair
            else o == null
  {
    RunConserves(l, es);
    var l' := After(l, es);
    CreateGives(l', pair);
    if pair in l'.pools { FreeAndHeld(l'.pools[pair], pair); }
  }

  lemma FreeAndHeld(p: Pool, pair: Pair)
    requires PoolOk(p, pair)
    ensures |p.free| + |p.held| == 100
  {
    NoDuplicatesSize(p.free);
  }
}

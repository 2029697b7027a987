/** The life of the server's connections: accept, reschedule, read, parse,
    close and clean up, one handler at a time in any order. */
module Server {

  import opened Serialize

  const CONNECTION_ID_START := 1024

  /** A connection is known by its number among all connections begun. */
  function IdOf(c: nat): U16 {
    (CONNECTION_ID_START + c) % 0x1_0000
  }

  /** The server by value. `reading` holds the reads outstanding and `parsing` the
      handlers that work in a receive buffer; `accepted`, `closed` and `cleaned`
      record what has happened. Connection `begun - 1` is being listened for. */
  datatype State = State(
    begun: nat,
    made: seq<nat>,
    awaiting: seq<nat>,
    reading: multiset<nat>,
    parsing: multiset<nat>,
    accepted: set<nat>,
    closed: set<nat>,
    cleaned: set<nat>)

  const START := State(1, [], [], multiset{}, multiset{}, {}, {}, {})

  datatype Event =
    | Accepted
    | AcceptFailed
    | Reschedule
    | ReadDone(c: nat)
    | ReadFailed(c: nat)
    | Parsed(c: nat)
    | Cleanup

  predicate Enabled(s: State, e: Event) {
    match e
    case ReadDone(c) => c in s.reading
    case ReadFailed(c) => c in s.reading
    case Parsed(c) => c in s.parsing
    case Accepted => s.begun > 0
    case _ => true
  }

  function Without(s: seq<nat>, gone: set<nat>): seq<nat> {
    if s == [] then []
    else Without(s[..|s| - 1], gone) + if s[|s| - 1] in gone then [] else [s[|s| - 1]]
  }

  function Apply(s: State, e: Event): State
    requires Enabled(s, e)
  {
    match e
    case Accepted =>
      var c := s.begun - 1;
      s.(begun := s.begun + 1, made := s.made + [c], awaiting := s.awaiting + [c], accepted := s.accepted + {c})
    case AcceptFailed => s.(begun := s.begun + 1)
    case Reschedule => s.(awaiting := [], reading := s.reading + multiset(s.awaiting))
    case ReadDone(c) => s.(reading := s.reading - multiset{c}, parsing := s.parsing + multiset{c})
    case ReadFailed(c) => s.(reading := s.reading - multiset{c}, closed := s.closed + {c})
    case Parsed(c) => s.(parsing := s.parsing - multiset{c}, awaiting := s.awaiting + [c])
    case Cleanup => s.(made := Without(s.made, s.closed), cleaned := s.closed)
  }

  predicate IsRun(s: State, es: seq<Event>)
    decreases es
  {
    es != [] ==> Enabled(s, es[0]) && IsRun(Apply(s, es[0]), es[1..])
  }

  function After(s: State, es: seq<Event>): State
    requires IsRun(s, es)
    decreases es
  {
    if es == [] then s else After(Apply(s, es[0]), es[1..])
  }

  // Safety

  function Places(s: State, c: nat): nat {
    multiset(s.awaiting)[c] + s.reading[c] + s.parsing[c]
  }

  predicate Increasing(s: seq<nat>) {
    forall i, j :: 0 <= i < j < |s| ==> s[i] < s[j]
  }

  /** Every accepted open connection is in exactly one place, once: it waits, or
      it has a read outstanding, or it is being parsed. Any other is in none. */
  ghost predicate Safe(s: State) {
    && s.begun > 0
    && (forall c :: c in s.accepted ==> c < s.begun - 1)
    && s.cleaned <= s.closed <= s.accepted
    && (forall c: nat :: Places(s, c) == if c in s.accepted - s.closed then 1 else 0)
    && Increasing(s.made)
    && (forall c :: c in s.made <==> c in s.accepted - s.cleaned)
  }

  lemma {:induction false} WithoutKeeps(s: seq<nat>, gone: set<nat>)
    ensures forall c :: c in Without(s, gone) <==> c in s && c !in gone
    ensures Increasing(s) ==> Increasing(Without(s, gone))
  {
    if s != [] {
      var rest, x := s[..|s| - 1], s[|s| - 1];
      WithoutKeeps(rest, gone);
      assert s == rest + [x];
      if Increasing(s) {
        forall i | 0 <= i < |Without(rest, gone)| ensures Without(rest, gone)[i] < x {
          assert Without(rest, gone)[i] in rest;
        }
      }
    }
  }

  lemma OneMore(s: seq<nat>, c: nat)
    ensures multiset(s + [c]) == multiset(s) + multiset{c}
  {
  }

  /** Moving one connection from place to place. */
  lemma OneMoreOf(s: seq<nat>, i: nat)
    requires i < |s|
    ensures multiset(s[..i + 1]) == multiset(s[..i]) + multiset{s[i]}
  {
    assert s[..i + 1] == s[..i] + [s[i]];
  }

  lemma PlacesAfter(s: State, e: Event, c: nat)
    requires Safe(s) && Enabled(s, e)
    ensures var s' := Apply(s, e); Places(s', c) == if c in s'.accepted - s'.closed then 1 else 0
  {
    assert Places(s, c) == if c in s.accepted - s.closed then 1 else 0;
    match e
    case Accepted => OneMore(s.awaiting, s.begun - 1);
    case Parsed(d) => OneMore(s.awaiting, d);
    case _ =>
  }

  lemma StepSafe(s: State, e: Event)
    requires Safe(s) && Enabled(s, e)
    ensures Safe(Apply(s, e))
  {
    forall c: nat { PlacesAfter(s, e, c); }
    match e
    case Cleanup => WithoutKeeps(s.made, s.closed);
    case Accepted => assert forall i :: 0 <= i < |s.made| ==> s.made[i] in s.made;
    case ReadFailed(c) => assert Places(s, c) > 0;
    case _ =>
  }

  /** Safety in every interleaving. */
  lemma {:induction false} RunSafe(s: State, es: seq<Event>)
    requires Safe(s) && IsRun(s, es)
    ensures Safe(After(s, es)) && Safe(START)
    decreases es
  {
    if es != [] {
      StepSafe(s, es[0]);
      RunSafe(Apply(s, es[0]), es[1..]);
    }
  }

  /** No read is outstanding into a buffer that is being parsed, or twice into
      the same buffer, and nothing is started on a closed connection. */
  lemma BuffersAreExclusive(es: seq<Event>, c: nat)
    requires IsRun(START, es)
    ensures var s := After(START, es);
            && s.reading[c] + s.parsing[c] <= 1
            && (c in s.closed ==> c !in s.awaiting && c !in s.reading && c !in s.parsing)
  {
    RunSafe(START, es);
    var s := After(START, es);
    assert Places(s, c) <= 1;
  }

  /** After a reschedule every open connection that is not being parsed reads. */
  lemma RescheduleStartsReads(es: seq<Event>, c: nat)
    requires IsRun(START, es)
    ensures var s := Apply(After(START, es), Reschedule);
            c in s.accepted - s.closed <==> s.reading[c] + s.parsing[c] == 1
  {
    RunSafe(START, es);
    StepSafe(After(START, es), Reschedule);
    assert Places(Apply(After(START, es), Reschedule), c) <= 1;
  }

  /** `CleanupClosedConnections` keeps exactly the open connections, in the order
      in which they were accepted. */
  lemma CleanupKeepsOpen(es: seq<Event>)
    requires IsRun(START, es)
    ensures var s := Apply(After(START, es), Cleanup);
            && Increasing(s.made)
            && (forall c :: c in s.made <==> c in s.accepted && c !in s.closed)
  {
    RunSafe(START, es);
    StepSafe(After(START, es), Cleanup);
  }

  // What each event does

  /** Nothing but the connection that is listened for is accepted. */
  lemma AcceptedJoins(s: State, t: State)
    requires Safe(s) && t == Apply(s, Accepted)
    ensures var c := s.begun - 1;
            && c !in s.accepted && t.accepted == s.accepted + {c}
            && t.made == s.made + [c] && t.awaiting == s.awaiting + [c]
    ensures t.begun == s.begun + 1 && t.reading == s.reading && t.parsing == s.parsing && t.closed == s.closed
  {
  }

  /** A connection whose accept failed is in no list, and never will be. */
  lemma {:induction false} NeverAccepted(s: State, c: nat, es: seq<Event>)
    requires Safe(s) && c < s.begun - 1 && c !in s.accepted && IsRun(s, es)
    ensures c !in After(s, es).accepted && c !in After(s, es).made && Places(After(s, es), c) == 0
    decreases es
  {
    if es == [] {
      assert Places(s, c) == 0;
    } else {
      StepSafe(s, es[0]);
      NeverAccepted(Apply(s, es[0]), c, es[1..]);
    }
  }

  lemma AcceptFailedIsLost(s: State, es: seq<Event>)
    requires Safe(s) && IsRun(Apply(s, AcceptFailed), es)
    ensures Apply(s, AcceptFailed).begun == s.begun + 1
    ensures var t := After(Apply(s, AcceptFailed), es);
            s.begun - 1 !in t.accepted && s.begun - 1 !in t.made && Places(t, s.begun - 1) == 0
  {
    StepSafe(s, AcceptFailed);
    NeverAccepted(Apply(s, AcceptFailed), s.begun - 1, es);
  }

  /** A waiting connection reads after the reschedule, a read that completes is
      parsed, and what was parsed waits at the end of the list. */
  lemma LifeCycle(s: State, c: nat)
    requires Safe(s)
    ensures c in s.awaiting ==> c in Apply(s, Reschedule).reading
    ensures Apply(s, Reschedule).awaiting == [] && Apply(s, Reschedule).parsing == s.parsing
    ensures c in s.reading ==>
              var t := Apply(s, ReadDone(c)); t.parsing[c] == 1 && t.reading[c] == 0 && t.awaiting == s.awaiting
    ensures c in s.parsing ==>
              var t := Apply(s, Parsed(c)); t.awaiting == s.awaiting + [c] && t.parsing[c] == 0 && t.reading == s.reading
  {
    assert Places(s, c) <= 1;
    assert c in s.awaiting <==> c in multiset(s.awaiting);
  }

  /** A read error closes its connection for good: it is in no place, and the next
      cleanup removes it. */
  lemma ReadErrorCloses(s: State, c: nat)
    requires Safe(s) && c in s.reading
    ensures var t := Apply(s, ReadFailed(c));
            c in t.closed && Places(t, c) == 0 && c in s.made && c !in Apply(t, Cleanup).made
  {
    var t := Apply(s, ReadFailed(c));
    assert Places(s, c) > 0;
    StepSafe(s, ReadFailed(c));
    StepSafe(t, Cleanup);
    assert Places(t, c) == 0;
  }

  /** A handler touches no connection but its own. */
  lemma OthersStay(s: State, e: Event, d: nat)
    requires Safe(s) && Enabled(s, e) && (e.ReadDone? || e.ReadFailed? || e.Parsed? ==> e.c != d)
    requires !e.Reschedule? && (e.Accepted? ==> d != s.begun - 1)
    ensures var t := Apply(s, e);
            && multiset(t.awaiting)[d] == multiset(s.awaiting)[d]
            && t.reading[d] == s.reading[d] && t.parsing[d] == s.parsing[d]
            && (d in t.closed <==> d in s.closed) && (d in t.accepted <==> d in s.accepted)
  {
  }

  /** The id wraps: two connections share one just when their numbers differ by a
      multiple of 65536. */
  lemma IdsCollide(a: nat, b: nat)
    ensures IdOf(a) == IdOf(b) <==> (a - b) % 0x1_0000 == 0
  {
    var x, y := CONNECTION_ID_START + a, CONNECTION_ID_START + b;
    SameRemainder(x / 0x1_0000, x % 0x1_0000, y / 0x1_0000, y % 0x1_0000, a - b);
  }

  /** The first id, the last before the wrap, and the first behind it. */
  lemma FirstIds()
    ensures IdOf(0) == 1024 && IdOf(1) == 1025 && IdOf(64511) == 65535 && IdOf(64512) == 0
  {
  }

  lemma SameRemainder(p: int, i: int, q: int, j: int, d: int)
    requires 0 <= i < 0x1_0000 && 0 <= j < 0x1_0000
    requires d == (p * 0x1_0000 + i) - (q * 0x1_0000 + j)
    ensures i == j <==> d % 0x1_0000 == 0
  {
    assert d == (p - q) * 0x1_0000 + (i - j);
  }

  // Without a lock

  /** `HandleReschedule` step by step, with other handlers at any point: while the
      list is walked, what they append is reached as well; once the walk is over,
      the list is cleared later. */
  datatype Step = Handler(e: Event) | StartNext

  predicate StepEnabled(s: State, at: nat, st: Step) {
    match st
    case Handler(e) => e != Reschedule && Enabled(s, e)
    case StartNext => at < |s.awaiting|
  }

  /** The place `at` in the list and the state, after a step. */
  function Walk(s: State, at: nat, st: Step): (State, nat)
    requires StepEnabled(s, at, st)
  {
    match st
    case Handler(e) => (Apply(s, e), at)
    case StartNext => (s.(reading := s.reading + multiset{s.awaiting[at]}), at + 1)
  }

  predicate IsWalk(s: State, at: nat, steps: seq<Step>)
    decreases steps
  {
    steps != [] ==>
      StepEnabled(s, at, steps[0]) && IsWalk(Walk(s, at, steps[0]).0, Walk(s, at, steps[0]).1, steps[1..])
  }

  function AfterWalk(s: State, at: nat, steps: seq<Step>): (State, nat)
    requires IsWalk(s, at, steps)
    decreases steps
  {
    if steps == [] then (s, at) else AfterWalk(Walk(s, at, steps[0]).0, Walk(s, at, steps[0]).1, steps[1..])
  }

  function Cleared(s: State): State {
    s.(awaiting := [])
  }

  /** The part of the list that is still to be walked. */
  function Ahead(s: State, at: nat): State
    requires at <= |s.awaiting|
  {
    s.(awaiting := s.awaiting[at..])
  }

  lemma StartFirst(s: State, c: nat, rest: seq<nat>)
    requires Safe(s) && s.awaiting == [c] + rest
    ensures Safe(s.(awaiting := rest, reading := s.reading + multiset{c}))
  {
    var s' := s.(awaiting := rest, reading := s.reading + multiset{c});
    forall d: nat ensures Places(s', d) == Places(s, d) {
      assert multiset(s.awaiting) == multiset{c} + multiset(rest);
    }
  }

  lemma WalkStepSafe(s: State, at: nat, st: Step)
    requires at <= |s.awaiting| && Safe(Ahead(s, at)) && StepEnabled(s, at, st)
    ensures Walk(s, at, st).1 <= |Walk(s, at, st).0.awaiting|
    ensures Safe(Ahead(Walk(s, at, st).0, Walk(s, at, st).1))
  {
    match st
    case Handler(e) =>
      StepSafe(Ahead(s, at), e);
      assert Ahead(Apply(s, e), at) == Apply(Ahead(s, at), e);
    case StartNext =>
      StartFirst(Ahead(s, at), s.awaiting[at], s.awaiting[at + 1..]);
  }

  lemma {:induction false} WalkSafe(s: State, at: nat, steps: seq<Step>)
    requires at <= |s.awaiting| && Safe(Ahead(s, at)) && IsWalk(s, at, steps)
    ensures AfterWalk(s, at, steps).1 <= |AfterWalk(s, at, steps).0.awaiting|
    ensures Safe(Ahead(AfterWalk(s, at, steps).0, AfterWalk(s, at, steps).1))
    decreases steps
  {
    if steps != [] {
      WalkStepSafe(s, at, steps[0]);
      WalkSafe(Walk(s, at, steps[0]).0, Walk(s, at, steps[0]).1, steps[1..]);
    }
  }

  predicate NoReschedule(es: seq<Event>) {
    forall i :: 0 <= i < |es| ==> es[i] != Reschedule
  }

  /** The other handlers only ever append to the list. */
  lemma {:induction false} HandlersAppend(s: State, a: seq<nat>, es: seq<Event>)
    requires NoReschedule(es) && IsRun(s, es)
    ensures var t := s.(awaiting := a + s.awaiting);
            IsRun(t, es) && After(t, es) == After(s, es).(awaiting := a + After(s, es).awaiting)
    decreases es
  {
    if es != [] {
      var t := s.(awaiting := a + s.awaiting);
      var s1 := Apply(s, es[0]);
      assert Apply(t, es[0]) == s1.(awaiting := a + s1.awaiting);
      HandlersAppend(s1, a, es[1..]);
    }
  }

  /** No accept and no finished parse among them. */
  predicate NoneAppends(es: seq<Event>) {
    forall i :: 0 <= i < |es| ==> !es[i].Accepted? && !es[i].Parsed?
  }

  lemma {:induction false} ListStaysEmpty(s: State, es: seq<Event>)
    requires NoReschedule(es) && IsRun(s, es)
    ensures After(s, es).awaiting == [] <==> s.awaiting == [] && NoneAppends(es)
    decreases es
  {
    if es != [] {
      ListStaysEmpty(Apply(s, es[0]), es[1..]);
      NoneAppendsFirst(es[0], es[1..], es);
    }
  }

  lemma NoneAppendsFirst(e: Event, rest: seq<Event>, es: seq<Event>)
    requires es == [e] + rest
    ensures NoneAppends(es) <==> !e.Accepted? && !e.Parsed? && NoneAppends(rest)
  {
    assert es[0] == e;
    assert forall i :: 0 <= i < |rest| ==> rest[i] == es[i + 1];
    assert forall i :: 0 < i < |es| ==> es[i] == rest[i - 1];
  }

  /** The missing lock matters exactly when an accept or the end of a parse comes
      between the end of the walk and the clearing: its connection is then lost.
      What is appended during the walk is not. */
  lemma UnlockedReschedule(s: State, steps: seq<Step>, s1: State, es: seq<Event>)
    requires Safe(s) && IsWalk(s, 0, steps) && AfterWalk(s, 0, steps) == (s1, |s1.awaiting|)
    requires NoReschedule(es) && IsRun(s1, es)
    ensures Safe(Cleared(After(s1, es))) <==> NoneAppends(es)
  {
    assert Ahead(s, 0) == s;
    WalkSafe(s, 0, steps);
    var t := Cleared(s1);
    assert Ahead(s1, |s1.awaiting|) == t;
    HandlersPrepend(s1, t, es);
    RunSafe(t, es);
    HandlersAppend(t, s1.awaiting, es);
    assert t.(awaiting := s1.awaiting + t.awaiting) == s1;
    ListStaysEmpty(t, es);
    assert Cleared(After(s1, es)) == Cleared(After(t, es));
    ClearingIsSafe(After(t, es));
  }

  /** The other handlers do not look at the list. */
  lemma {:induction false} HandlersPrepend(s: State, t: State, es: seq<Event>)
    requires NoReschedule(es) && IsRun(s, es) && t == s.(awaiting := t.awaiting)
    ensures IsRun(t, es)
    decreases es
  {
    if es != [] {
      var s1, t1 := Apply(s, es[0]), Apply(t, es[0]);
      assert t1 == s1.(awaiting := t1.awaiting);
      HandlersPrepend(s1, t1, es[1..]);
    }
  }

  /** A connection is accepted and started; before the list is cleared, its read
      completes and is parsed. It is open, and in no place. */
  lemma LostConnection()
    ensures var s := Apply(START, Accepted);
            var es := [ReadDone(0), Parsed(0)];
            && IsWalk(s, 0, [StartNext]) && AfterWalk(s, 0, [StartNext]).1 == |s.awaiting|
            && IsRun(AfterWalk(s, 0, [StartNext]).0, es)
            && Places(Cleared(After(AfterWalk(s, 0, [StartNext]).0, es)), 0) == 0
            && 0 in s.accepted - s.closed
  {
    var s := Apply(START, Accepted);
    var es := [ReadDone(0), Parsed(0)];
    assert [StartNext][1..] == [];
    var s1 := Walk(s, 0, StartNext).0;
    var s2 := Apply(s1, es[0]);
    var s3 := Apply(s2, es[1]);
    assert es[1..] == [Parsed(0)] && es[1..][1..] == [];
    assert After(s3, []) == s3 && After(s2, es[1..]) == s3;
  }

  lemma ClearingIsSafe(t: State)
    requires Safe(t)
    ensures Safe(Cleared(t)) <==> t.awaiting == []
  {
    if t.awaiting == [] {
      assert Cleared(t) == t;
    } else {
      var c := t.awaiting[0];
      assert c in multiset(t.awaiting);
      assert Places(t, c) <= 1;
      assert Places(Cleared(t), c) == 0;
    }
  }

  // The server's lists and counter

  class ServerConnection {
    /** Which of all connections begun this is. */
    const number: nat
    var hasClosed: bool
    var connectionId: U16

    constructor (number: nat)
      ensures this.number == number && !hasClosed
    {
      this.number, hasClosed := number, false;
    }

    method Close()
      modifies `hasClosed
      ensures hasClosed
    {
      hasClosed := true;
    }

    predicate IsClosed()
      reads this
    {
      hasClosed
    }

    /** The counter is narrowed to 16 bits. */
    method SetConnectionId(connId: nat)
      modifies `connectionId
      ensures connectionId == connId % 0x1_0000
    {
      connectionId := connId % 0x1_0000;
    }
  }

  function Numbers(cs: seq<ServerConnection>): (ns: seq<nat>)
    ensures |ns| == |cs| && forall i :: 0 <= i < |cs| ==> ns[i] == cs[i].number
  {
    if cs == [] then [] else Numbers(cs[..|cs| - 1]) + [cs[|cs| - 1].number]
  }

  lemma NumbersSnoc(cs: seq<ServerConnection>, c: ServerConnection)
    ensures Numbers(cs + [c]) == Numbers(cs) + [c.number]
  {
    assert (cs + [c])[..|cs|] == cs;
  }

  lemma WithoutSnoc(s: seq<nat>, x: nat, gone: set<nat>)
    ensures Without(s + [x], gone) == Without(s, gone) + if x in gone then [] else [x]
  {
    assert (s + [x])[..|s|] == s;
  }

  lemma EraseFront<T>(kept: seq<T>, c: T, rest: seq<T>, all: seq<T>)
    requires rest != [] && rest[0] == c && all == kept + rest
    ensures all[|kept|] == c && all[..|kept|] + all[|kept| + 1..] == kept + rest[1..]
    ensures all == (kept + [c]) + rest[1..]
  {
  }

  /** The elements `done` were visited and `kept` of them stay; `rest` is to come. */
  ghost predicate Erasing(done: seq<ServerConnection>, kept: seq<ServerConnection>, rest: seq<ServerConnection>,
                          was: seq<ServerConnection>, now: seq<ServerConnection>, closed: set<nat>) {
    && was == done + rest && now == kept + rest
    && Numbers(kept) == Without(Numbers(done), closed)
    && (forall c :: c in kept ==> c in done)
  }

  /** One step of the erasing loop, whether the element goes or stays. */
  lemma ErasingStep(done: seq<ServerConnection>, kept: seq<ServerConnection>, rest: seq<ServerConnection>,
                    was: seq<ServerConnection>, now: seq<ServerConnection>, closed: set<nat>)
    requires Erasing(done, kept, rest, was, now, closed) && rest != []
    ensures now[|kept|] == rest[0] && rest[0] in was
    ensures if rest[0].number in closed then
              Erasing(done + [rest[0]], kept, rest[1..], was, now[..|kept|] + now[|kept| + 1..], closed)
            else
              Erasing(done + [rest[0]], kept + [rest[0]], rest[1..], was, now, closed)
  {
    var c := rest[0];
    EraseFront(kept, c, rest, now);
    EraseFront(done, c, rest, was);
    NumbersSnoc(done, c);
    NumbersSnoc(kept, c);
    WithoutSnoc(Numbers(done), c.number, closed);
  }

  class TCPServer {
    var connectionIdTracking: nat
    var connectionsMade: seq<ServerConnection>
    var connectionsAwaitingSchedule: seq<ServerConnection>

    /** Every connection ever begun, and the server by value. */
    ghost var begun: seq<ServerConnection>
    ghost var s: State

    ghost predicate Known(c: ServerConnection)
      reads `begun
    {
      c.number < |begun| && begun[c.number] == c
    }

    ghost predicate Valid()
      reads this, begun
    {
      && |begun| == s.begun && connectionIdTracking == CONNECTION_ID_START + s.begun
      && (forall i :: 0 <= i < |begun| ==>
            begun[i].number == i && begun[i].connectionId == IdOf(i) && (begun[i].hasClosed <==> i in s.closed))
      && (forall i :: i in s.closed ==> i < s.begun)
      && Numbers(connectionsMade) == s.made && (forall c :: c in connectionsMade ==> Known(c))
      && Numbers(connectionsAwaitingSchedule) == s.awaiting && (forall c :: c in connectionsAwaitingSchedule ==> Known(c))
    }

    constructor ()
      ensures Valid() && s == START.(begun := 0)
    {
      connectionIdTracking := CONNECTION_ID_START;
      connectionsMade, connectionsAwaitingSchedule := [], [];
      begun, s := [], START.(begun := 0);
    }

    /** The connection that the next accept will complete. */
    method BeginAcceptingNewConnections() returns (newConnection: ServerConnection)
      requires Valid()
      modifies `connectionIdTracking, `begun, `s
      ensures Valid() && fresh(newConnection)
      ensures s == old(s).(begun := old(s).begun + 1)
      ensures begun == old(begun) + [newConnection]
      ensures newConnection.number == |old(begun)| && !newConnection.hasClosed
      ensures newConnection.connectionId == (1024 + |old(begun)|) % 0x1_0000
    {
      newConnection := new ServerConnection(connectionIdTracking - CONNECTION_ID_START);
      newConnection.SetConnectionId(connectionIdTracking);
      connectionIdTracking := connectionIdTracking + 1;
      begun := begun + [newConnection];
      s := s.(begun := s.begun + 1);
    }

    method NewConnectionAcceptedHandler(newConnection: ServerConnection, error: bool) returns (next: ServerConnection)
      requires Valid() && begun != [] && newConnection == begun[|begun| - 1]
      modifies this
      ensures Valid() && begun != [] && next == begun[|begun| - 1]
      ensures s == Apply(old(s), if error then AcceptFailed else Accepted)
      ensures connectionsMade == old(connectionsMade) + if error then [] else [newConnection]
      ensures connectionsAwaitingSchedule == old(connectionsAwaitingSchedule) + if error then [] else [newConnection]
    {
      if !error {
        RescheduleMe(newConnection);
        connectionsMade := connectionsMade + [newConnection];
        s := s.(made := s.made + [newConnection.number], accepted := s.accepted + {newConnection.number});
      }
      next := BeginAcceptingNewConnections();
    }

    method RescheduleMe(conn: ServerConnection)
      requires Valid() && Known(conn)
      modifies `connectionsAwaitingSchedule, `s
      ensures Valid() && s == old(s).(awaiting := old(s).awaiting + [conn.number])
      ensures connectionsAwaitingSchedule == old(connectionsAwaitingSchedule) + [conn]
    {
      connectionsAwaitingSchedule := connectionsAwaitingSchedule + [conn];
      s := s.(awaiting := s.awaiting + [conn.number]);
    }

    /** `TCPConnection::Start`: a read is outstanding from now on. */
    ghost method StartRead(conn: ServerConnection)
      modifies `s
      ensures s == old(s).(reading := old(s).reading + multiset{conn.number})
    {
      s := s.(reading := s.reading + multiset{conn.number});
    }

    method HandleReschedule()
      requires Valid()
      modifies `connectionsAwaitingSchedule, `s
      ensures Valid() && s == Apply(old(s), Reschedule)
      ensures connectionsAwaitingSchedule == []
    {
      StartAll(s.awaiting);
      ClearAwaiting();
    }

    method ClearAwaiting()
      requires Valid()
      modifies `connectionsAwaitingSchedule, `s
      ensures Valid() && s == old(s).(awaiting := [])
      ensures connectionsAwaitingSchedule == []
    {
      connectionsAwaitingSchedule := [];
      s := s.(awaiting := []);
    }

    method StartAll(ghost waiting: seq<nat>)
      requires Valid() && Numbers(connectionsAwaitingSchedule) == waiting
      modifies `s
      ensures Valid() && s == old(s).(reading := old(s).reading + multiset(waiting))
    {
      ghost var before, started := s, multiset{};
      for i := 0 to |connectionsAwaitingSchedule|
        invariant started == multiset(waiting[..i]) && s == before.(reading := before.reading + started)
      {
        OneMoreOf(waiting, i);
        started := started + multiset{waiting[i]};
        StartRead(connectionsAwaitingSchedule[i]);
      }
      assert waiting[..|waiting|] == waiting;
    }

    /** The completion handler of a read: after parsing the connection waits for
        the next reschedule, after an error it is closed. */
    method HandleRead(conn: ServerConnection, errorCode: bool)
      requires Valid() && Known(conn) && conn.number in s.reading
      modifies `connectionsAwaitingSchedule, `s, conn`hasClosed
      ensures Valid()
      ensures s == if errorCode then Apply(old(s), ReadFailed(conn.number))
                   else Apply(Apply(old(s), ReadDone(conn.number)), Parsed(conn.number))
      ensures conn.hasClosed == (old(conn.hasClosed) || errorCode)
      ensures connectionsAwaitingSchedule == old(connectionsAwaitingSchedule) + if errorCode then [] else [conn]
    {
      EndRead(conn);
      if !errorCode {
        RescheduleMe(conn);
      } else {
        Fail(conn);
      }
    }

    /** The read is no longer outstanding. */
    ghost method EndRead(conn: ServerConnection)
      requires Valid()
      modifies `s
      ensures Valid() && s == old(s).(reading := old(s).reading - multiset{conn.number})
    {
      s := s.(reading := s.reading - multiset{conn.number});
    }

    method Fail(conn: ServerConnection)
      requires Valid() && Known(conn)
      modifies `s, conn`hasClosed
      ensures Valid() && s == old(s).(closed := old(s).closed + {conn.number})
      ensures conn.hasClosed
    {
      conn.Close();
      s := s.(closed := s.closed + {conn.number});
    }

    method CleanupClosedConnections()
      requires Valid()
      modifies `connectionsMade, `s
      ensures Valid() && s == Apply(old(s), Cleanup)
    {
      EraseClosed(s.closed);
      s := Apply(s, Cleanup);
    }

    method EraseClosed(ghost closed: set<nat>)
      requires forall c :: c in connectionsMade ==> (c.hasClosed <==> c.number in closed)
      modifies `connectionsMade
      ensures Numbers(connectionsMade) == Without(Numbers(old(connectionsMade)), closed)
      ensures forall c :: c in connectionsMade ==> c in old(connectionsMade)
    {
      ghost var done, kept, rest := [], [], connectionsMade;
      var it := 0;
      while it < |connectionsMade|
        invariant it == |kept|
        invariant Erasing(done, kept, rest, old(connectionsMade), connectionsMade, closed)
        decreases rest
      {
        var c := connectionsMade[it];
        assert c in connectionsMade;
        ErasingStep(done, kept, rest, old(connectionsMade), connectionsMade, closed);
        if c.IsClosed() {
          connectionsMade := connectionsMade[..it] + connectionsMade[it + 1..];
        } else {
          kept := kept + [c];
          it := it + 1;
        }
        done, rest := done + [c], rest[1..];
      }
      assert connectionsMade == kept && done == old(connectionsMade);
    }
  }
}

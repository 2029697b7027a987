/** The UDP handshake: one machine at each end, and a network between them that
    may drop, duplicate and reorder what they emit. */
module Handshake {
  import opened Serialize

  const SERVER_ID: byte := 0x08
  const CLIENT_ID: byte := 0x04
  const SENTINEL: byte := 0xAA

  /** "IOIC" */
  const UNIQUE_LIBRARY_ID: seq<byte> := [0x49, 0x4F, 0x49, 0x43]

  datatype Stage =
    | SendHandshake
    | SendConnectionId
    | SendConnectionPolicies
    | SendChannels
    | SendTopology
    | NormalSend
    | ConnectionFailed

  /** The machine by value. The client initiates. */
  datatype Machine = Machine(stage: Stage, initiates: bool, hasSent: bool)

  function Fresh(isServer: bool): Machine {
    Machine(SendHandshake, !isServer, false)
  }

  /** The hello of the machine that initiates, or of the other one. */
  function Hello(initiates: bool): (h: seq<byte>)
    ensures |h| == 6
  {
    [SENTINEL, if initiates then CLIENT_ID else SERVER_ID] + UNIQUE_LIBRARY_ID
  }

  /** `strcpy_s` ends the program when its buffer is too small for the string and
      its terminator. */
  datatype Result = Success | Failure | Abort

  function SendResult(m: Machine, numBytes: int): Result {
    if m.stage != SendHandshake then Success
    else if numBytes < 6 then Failure
    else if numBytes - 2 < |UNIQUE_LIBRARY_ID| + 1 then Abort
    else Success
  }

  function AfterSend(m: Machine, numBytes: int): Machine {
    if m.stage != SendHandshake then m
    else match SendResult(m, numBytes)
      case Failure => m.(stage := ConnectionFailed)
      case Abort => m
      case Success => m.(hasSent := true)
  }

  /** What is sent: the `bytesUsed` bytes, which are none after the handshake. */
  function Emitted(m: Machine, numBytes: int): seq<byte> {
    if m.stage == SendHandshake && SendResult(m, numBytes) == Success then Hello(m.initiates) else []
  }

  /** What is left at the front of the buffer: also the terminator, or as much as
      there was before the end. */
  function Written(m: Machine, numBytes: int): seq<byte> {
    if m.stage != SendHandshake then []
    else match SendResult(m, numBytes)
      case Failure => []
      case Abort => Hello(m.initiates)[..2]
      case Success => Hello(m.initiates) + [0]
  }

  function AfterReceive(m: Machine, data: seq<byte>): Machine {
    if m.stage != SendHandshake then m
    else if |data| < 6 || data[..6] != Hello(!m.initiates) then m.(stage := ConnectionFailed)
    else if m.initiates then m.(stage := SendConnectionId)
    else m.(stage := SendConnectionId, hasSent := false)
  }

  // The bytes

  /** What a machine in its handshake sends, by the room in its buffer: the hello
      needs six bytes, and its terminator a seventh. */
  lemma Sends(m: Machine, numBytes: int)
    requires m.stage == SendHandshake
    ensures numBytes >= 7 ==>
      && SendResult(m, numBytes) == Success && AfterSend(m, numBytes) == m.(hasSent := true)
      && Emitted(m, numBytes) == [0xAA, if m.initiates then 0x04 else 0x08, 0x49, 0x4F, 0x49, 0x43]
      && Written(m, numBytes) == Emitted(m, numBytes) + [0]
    ensures numBytes == 6 ==>
      && SendResult(m, numBytes) == Abort && AfterSend(m, numBytes) == m && Emitted(m, numBytes) == []
      && Written(m, numBytes) == [0xAA, if m.initiates then 0x04 else 0x08]
    ensures numBytes < 6 ==>
      && SendResult(m, numBytes) == Failure && Emitted(m, numBytes) == [] && Written(m, numBytes) == []
      && AfterSend(m, numBytes) == m.(stage := ConnectionFailed)
  {
  }

  /** What it accepts: any datagram that begins with the six bytes of the other
      side. A server is then ready to send again; a client is as it was. */
  lemma Accepts(m: Machine, data: seq<byte>)
    requires m.stage == SendHandshake
    ensures |data| >= 6 && data[..6] == [0xAA, if m.initiates then 0x08 else 0x04, 0x49, 0x4F, 0x49, 0x43] <==>
            AfterReceive(m, data).stage == SendConnectionId
    ensures AfterReceive(m, data).stage in {SendConnectionId, ConnectionFailed}
    ensures AfterReceive(m, data).initiates == m.initiates
    ensures AfterReceive(m, data).hasSent ==
            (m.hasSent && (m.initiates || AfterReceive(m, data).stage == ConnectionFailed))
  {
  }

  /** Behind the handshake nothing is sent and nothing received changes anything. */
  lemma PastHandshake(m: Machine, numBytes: int, data: seq<byte>)
    requires m.stage != SendHandshake
    ensures SendResult(m, numBytes) == Success && AfterSend(m, numBytes) == m && Emitted(m, numBytes) == []
    ensures AfterReceive(m, data) == m
  {
  }

  /** The machines as they are made, by whether they serve. */
  lemma FreshHellos(numBytes: int)
    requires numBytes >= 7
    ensures Emitted(Fresh(false), numBytes) == [0xAA, 0x04, 0x49, 0x4F, 0x49, 0x43]
    ensures Emitted(Fresh(true), numBytes) == [0xAA, 0x08, 0x49, 0x4F, 0x49, 0x43]
    ensures !Fresh(false).hasSent && !Fresh(true).hasSent
  {
  }

  class CommsStateMachine {
    var currentState: Stage
    const initiates: bool
    var hasSentState: bool

    function View(): Machine
      reads this
    {
      Machine(currentState, initiates, hasSentState)
    }

    constructor (isServer: bool)
      ensures View() == Fresh(isServer)
    {
      currentState, initiates, hasSentState := SendHandshake, !isServer, false;
    }

    predicate ReadyToSend()
      reads this
    {
      !hasSentState
    }

    method DataSend(buffer: array<byte>, numBytes: int) returns (r: Result, bytesUsed: nat)
      requires numBytes <= buffer.Length
      modifies `currentState, `hasSentState, buffer
      ensures r == SendResult(old(View()), numBytes) && View() == AfterSend(old(View()), numBytes)
      ensures bytesUsed <= buffer.Length && buffer[..bytesUsed] == Emitted(old(View()), numBytes)
      ensures |Written(old(View()), numBytes)| <= buffer.Length
      ensures buffer[..] == Splice(old(buffer[..]), 0, Written(old(View()), numBytes))
      ensures old(currentState) == SendHandshake && numBytes >= 7 ==>
        && r == Success && !ReadyToSend()
        && buffer[..bytesUsed] == [0xAA, if initiates then 0x04 else 0x08, 0x49, 0x4F, 0x49, 0x43]
    {
      r, bytesUsed := Success, 0;
      if currentState == SendHandshake {
        if numBytes < 6 {
          currentState := ConnectionFailed;
          return Failure, 0;
        }
        ghost var was := buffer[..];
        var pos := WriteProtocolSentinel(buffer, 0);
        if numBytes - 2 < |UNIQUE_LIBRARY_ID| + 1 {
          return Abort, 0;
        }
        SpliceAppend(was, 0, Hello(initiates)[..2], UNIQUE_LIBRARY_ID + [0]);
        assert Hello(initiates)[..2] + (UNIQUE_LIBRARY_ID + [0]) == Hello(initiates) + [0];
        CopyInto(buffer, pos, UNIQUE_LIBRARY_ID + [0]);
        hasSentState := true;
        bytesUsed := 6;
      }
    }

    method WriteProtocolSentinel(buffer: array<byte>, pos: nat) returns (pos': nat)
      requires pos + 2 <= buffer.Length
      modifies buffer
      ensures pos' == pos + 2
      ensures buffer[..] == Splice(old(buffer[..]), pos, Hello(initiates)[..2])
      ensures buffer[pos] == 0xAA && buffer[pos + 1] == if initiates then 0x04 else 0x08
    {
      buffer[pos] := SENTINEL;
      if initiates {
        buffer[pos + 1] := CLIENT_ID;
      } else {
        buffer[pos + 1] := SERVER_ID;
      }
      pos' := pos + 2;
    }

    method DataReceive(buffer: array<byte>, numBytes: nat) returns (ok: bool)
      requires numBytes <= buffer.Length
      modifies `currentState, `hasSentState
      ensures View() == AfterReceive(old(View()), buffer[..numBytes])
      ensures ok <==> old(currentState) != SendHandshake || currentState == SendConnectionId
      ensures old(currentState) == SendHandshake ==>
        (ok <==> numBytes >= 6 && buffer[..6] == [0xAA, if initiates then 0x08 else 0x04, 0x49, 0x4F, 0x49, 0x43])
      ensures old(currentState) == SendHandshake && ok && !initiates ==> ReadyToSend()
    {
      if currentState == SendHandshake {
        if numBytes < 6 {
          currentState := ConnectionFailed;
          return false;
        }
        var accepted, pos := ReadProtocolSentinel(buffer, 0);
        assert buffer[..6] == buffer[..2] + buffer[2..6];
        assert Hello(!initiates) == Hello(!initiates)[..2] + UNIQUE_LIBRARY_ID;
        if !accepted {
          return false;
        }
        if buffer[pos..pos + 4] != UNIQUE_LIBRARY_ID {
          currentState := ConnectionFailed;
          return false;
        }
        currentState := SendConnectionId;
        if !initiates {
          hasSentState := false;
        }
      }
      ok := true;
    }

    method ReadProtocolSentinel(buffer: array<byte>, pos: nat) returns (ok: bool, pos': nat)
      requires pos + 2 <= buffer.Length
      modifies `currentState
      ensures pos' == pos + 2
      ensures ok <==> buffer[pos..pos + 2] == Hello(!initiates)[..2]
      ensures ok <==> buffer[pos] == 0xAA && buffer[pos + 1] == if initiates then 0x08 else 0x04
      ensures currentState == if ok then old(currentState) else ConnectionFailed
    {
      var val1, val2 := buffer[pos], buffer[pos + 1];
      pos' := pos + 2;
      var id := if initiates then SERVER_ID else CLIENT_ID;
      ok := val1 == SENTINEL && val2 == id;
      assert buffer[pos..pos + 2] == [val1, val2] && Hello(!initiates)[..2] == [SENTINEL, id];
      if !ok {
        currentState := ConnectionFailed;
      }
    }
  }

  /** Both ends, and every datagram either has emitted so far: the network may
      deliver any of them at any time, any number of times. */
  datatype World = World(client: Machine, server: Machine, toServer: set<seq<byte>>, toClient: set<seq<byte>>)

  const START := World(Fresh(false), Fresh(true), {}, {})

  datatype Event =
    | ClientSends(numBytes: int)
    | ServerSends(numBytes: int)
    | ToServer(data: seq<byte>)
    | ToClient(data: seq<byte>)

  /** Room for the hello and the terminator behind it. */
  const ROOM := 7

  predicate Enabled(w: World, e: Event) {
    match e
    case ClientSends(n) => n >= ROOM
    case ServerSends(n) => n >= ROOM
    case ToServer(data) => data in w.toServer
    case ToClient(data) => data in w.toClient
  }

  function Apply(w: World, e: Event): World {
    match e
    case ClientSends(n) => w.(client := AfterSend(w.client, n), toServer := w.toServer + {Emitted(w.client, n)})
    case ServerSends(n) => w.(server := AfterSend(w.server, n), toClient := w.toClient + {Emitted(w.server, n)})
    case ToServer(data) => w.(server := AfterReceive(w.server, data))
    case ToClient(data) => w.(client := AfterReceive(w.client, data))
  }

  predicate IsRun(w: World, es: seq<Event>)
    decreases es
  {
    es != [] ==> Enabled(w, es[0]) && IsRun(Apply(w, es[0]), es[1..])
  }

  function After(w: World, es: seq<Event>): World
    decreases es
  {
    if es == [] then w else After(Apply(w, es[0]), es[1..])
  }

  // Safety

  /** Only hellos and empty datagrams travel, and whoever has passed the handshake
      did so on the peer's hello. */
  ghost predicate Sound(w: World) {
    && w.client.initiates && !w.server.initiates
    && (forall d :: d in w.toServer ==> d == Hello(true) || d == [])
    && (forall d :: d in w.toClient ==> d == Hello(false) || d == [])
    && (w.client.stage == SendConnectionId ==> Hello(false) in w.toClient)
    && (w.server.stage == SendConnectionId ==> Hello(true) in w.toServer)
    && w.client.stage in {SendHandshake, SendConnectionId, ConnectionFailed}
    && w.server.stage in {SendHandshake, SendConnectionId, ConnectionFailed}
  }

  ghost predicate Up(w: World) {
    w.client.stage != ConnectionFailed && w.server.stage != ConnectionFailed
  }

  /** An empty datagram arrives at a machine that still waits for a hello. */
  predicate EmptyTooEarly(w: World, e: Event) {
    match e
    case ToServer(data) => data == [] && w.server.stage == SendHandshake
    case ToClient(data) => data == [] && w.client.stage == SendHandshake
    case _ => false
  }

  predicate SomeEmptyTooEarly(w: World, es: seq<Event>)
    decreases es
  {
    es != [] && (EmptyTooEarly(w, es[0]) || SomeEmptyTooEarly(Apply(w, es[0]), es[1..]))
  }

  lemma StepSound(w: World, e: Event)
    requires Sound(w) && Enabled(w, e)
    ensures Sound(Apply(w, e))
    ensures Up(Apply(w, e)) <==> Up(w) && !EmptyTooEarly(w, e)
  {
    assert Hello(true)[1] != Hello(false)[1];
    assert Hello(true)[..6] == Hello(true) && Hello(false)[..6] == Hello(false);
  }

  lemma {:induction false} RunSound(w: World, es: seq<Event>)
    requires Sound(w) && IsRun(w, es)
    ensures Sound(After(w, es))
    ensures Up(After(w, es)) <==> Up(w) && !SomeEmptyTooEarly(w, es)
    decreases es
  {
    if es != [] {
      StepSound(w, es[0]);
      RunSound(Apply(w, es[0]), es[1..]);
    }
  }

  /** A machine fails exactly in the runs that deliver an empty datagram to a
      machine still in the handshake; and no machine passes the handshake unless
      its peer has emitted its hello. */
  lemma HandshakeSafety(es: seq<Event>)
    requires IsRun(START, es)
    ensures Up(After(START, es)) <==> !SomeEmptyTooEarly(START, es)
    ensures After(START, es).client.stage == SendConnectionId ==> Hello(false) in After(START, es).toClient
    ensures After(START, es).server.stage == SendConnectionId ==> Hello(true) in After(START, es).toServer
  {
    RunSound(START, es);
  }

  /** When each machine holds back: the client from its first hello on, the server
      from its own first hello until it has accepted the client's. */
  ghost predicate SentFlags(w: World) {
    && (w.client.hasSent <==> Hello(true) in w.toServer)
    && (w.server.hasSent <==> Hello(false) in w.toClient && w.server.stage != SendConnectionId)
  }

  lemma StepSentFlags(w: World, e: Event)
    requires Sound(w) && Enabled(w, e) && SentFlags(w)
    ensures SentFlags(Apply(w, e))
  {
    assert Hello(true)[1] != Hello(false)[1];
    assert Hello(true) != [] && Hello(false) != [];
  }

  lemma {:induction false} RunSentFlags(w: World, es: seq<Event>)
    requires Sound(w) && IsRun(w, es) && SentFlags(w)
    ensures SentFlags(After(w, es))
    decreases es
  {
    if es != [] {
      StepSound(w, es[0]);
      StepSentFlags(w, es[0]);
      RunSentFlags(Apply(w, es[0]), es[1..]);
    }
  }

  lemma ReadyExactly(es: seq<Event>)
    requires IsRun(START, es)
    ensures SentFlags(After(START, es))
  {
    RunSentFlags(START, es);
  }

  /** Such a run: the server accepts the client's hello, and what it sends next
      is empty. */
  lemma EmptyDatagramFails()
    ensures var es := [ClientSends(1024), ToServer(Hello(true)), ServerSends(1024), ToClient([])];
            IsRun(START, es) && After(START, es).client.stage == ConnectionFailed
  {
    var es := [ClientSends(1024), ToServer(Hello(true)), ServerSends(1024), ToClient([])];
    var w1 := Apply(START, es[0]);
    var w2 := Apply(w1, es[1]);
    var w3 := Apply(w2, es[2]);
    assert Hello(true)[..6] == Hello(true);
    assert es[1..][1..][1..] == [es[3]] && es[1..][1..] == es[2..] && [es[3]][1..] == [];
    assert After(w3, [es[3]]) == Apply(w3, es[3]);
  }

  /** Both ends stay as they are once past the handshake, whatever is sent and
      delivered, and add nothing but empty datagrams to what travels. */
  lemma {:induction false} PastHandshakeStays(w: World, es: seq<Event>)
    requires IsRun(w, es)
    ensures w.client.stage != SendHandshake ==>
              After(w, es).client == w.client && After(w, es).toServer <= w.toServer + {[]}
    ensures w.server.stage != SendHandshake ==>
              After(w, es).server == w.server && After(w, es).toClient <= w.toClient + {[]}
    decreases es
  {
    if es != [] {
      PastHandshakeStays(Apply(w, es[0]), es[1..]);
    }
  }

  // Order

  /** The client can still complete. */
  ghost predicate CanComplete(w: World) {
    exists es :: IsRun(w, es) && After(w, es).client.stage == SendConnectionId
  }

  /** A server that has left the handshake without sending never emits a hello,
      and its client never completes. */
  lemma {:induction false} SilentServer(w: World, es: seq<Event>)
    requires Sound(w) && IsRun(w, es)
    requires w.server.stage != SendHandshake && Hello(false) !in w.toClient
    ensures Hello(false) !in After(w, es).toClient
    ensures After(w, es).client.stage != SendConnectionId
    decreases es
  {
    if es != [] {
      StepSound(w, es[0]);
      SilentServer(Apply(w, es[0]), es[1..]);
    }
  }

  /** From any reachable state with the client in its handshake: it can complete
      exactly when the server has sent its hello or has not yet accepted one. */
  lemma ClientCanComplete(es: seq<Event>)
    requires IsRun(START, es) && After(START, es).client.stage == SendHandshake
    ensures var w := After(START, es);
            CanComplete(w) <==> Hello(false) in w.toClient || w.server.stage == SendHandshake
  {
    var w := After(START, es);
    RunSound(START, es);
    assert Hello(false)[..6] == Hello(false);
    if Hello(false) in w.toClient {
      OneStep(w, ToClient(Hello(false)));
    } else if w.server.stage == SendHandshake {
      TwoSteps(w, ServerSends(ROOM), ToClient(Hello(false)));
    } else {
      forall more | IsRun(w, more) ensures After(w, more).client.stage != SendConnectionId {
        SilentServer(w, more);
      }
    }
  }

  lemma OneStep(w: World, e: Event)
    requires Enabled(w, e) && Apply(w, e).client.stage == SendConnectionId
    ensures CanComplete(w)
  {
    Steps(w, [e], [], Apply(w, e));
  }

  lemma TwoSteps(w: World, e: Event, f: Event)
    requires Enabled(w, e) && Enabled(Apply(w, e), f)
    requires Apply(Apply(w, e), f).client.stage == SendConnectionId
    ensures CanComplete(w)
  {
    Steps(Apply(w, e), [f], [], Apply(Apply(w, e), f));
    Steps(w, [e, f], [f], Apply(w, e));
  }

  /** A run is its first step and a run from there. */
  lemma Steps(w: World, es: seq<Event>, rest: seq<Event>, w': World)
    requires es != [] && es[1..] == rest && Enabled(w, es[0]) && w' == Apply(w, es[0]) && IsRun(w', rest)
    ensures IsRun(w, es) && After(w, es) == After(w', rest)
    ensures rest == [] ==> After(w, es) == w'
  {
  }

  // Both ends

  ghost predicate Complete(w: World) {
    w.client.stage == SendConnectionId && w.server.stage == SendConnectionId
  }

  /** Both ends can still complete. */
  ghost predicate CanBothComplete(w: World) {
    exists es :: IsRun(w, es) && Complete(After(w, es))
  }

  /** One end is through, or still waits for a hello that its peer has sent or may
      yet send. */
  predicate Hopeful(m: Machine, peer: Machine, toMe: set<seq<byte>>) {
    m.stage == SendConnectionId
    || (m.stage == SendHandshake && (Hello(peer.initiates) in toMe || peer.stage == SendHandshake))
  }

  predicate BothHopeful(w: World) {
    Hopeful(w.client, w.server, w.toClient) && Hopeful(w.server, w.client, w.toServer)
  }

  lemma HopeWasThere(w: World, e: Event)
    requires Sound(w) && Enabled(w, e) && BothHopeful(Apply(w, e))
    ensures BothHopeful(w)
  {
    assert Hello(true)[1] != Hello(false)[1];
    assert Hello(true)[..6] == Hello(true) && Hello(false)[..6] == Hello(false);
  }

  lemma {:induction false} CompleteWasHopeful(w: World, es: seq<Event>)
    requires Sound(w) && IsRun(w, es) && Complete(After(w, es))
    ensures BothHopeful(w)
    decreases es
  {
    if es != [] {
      StepSound(w, es[0]);
      CompleteWasHopeful(Apply(w, es[0]), es[1..]);
      HopeWasThere(w, es[0]);
    }
  }

  lemma CompletesThrough(w: World, e: Event)
    requires Enabled(w, e) && CanBothComplete(Apply(w, e))
    ensures CanBothComplete(w)
  {
    var rest :| IsRun(Apply(w, e), rest) && Complete(After(Apply(w, e), rest));
    var es := [e] + rest;
    Steps(w, es, rest, Apply(w, e));
  }

  function Waiting(m: Machine): nat {
    if m.stage == SendHandshake then 1 else 0
  }

  function Unsent(m: Machine, from: set<seq<byte>>): nat {
    if m.stage == SendHandshake && Hello(m.initiates) !in from then 1 else 0
  }

  /** Whoever waits sends its hello, and then receives the other's. */
  lemma {:induction false} HopefulCompletes(w: World)
    requires Sound(w) && BothHopeful(w)
    ensures CanBothComplete(w)
    decreases Waiting(w.client) + Waiting(w.server), Unsent(w.client, w.toServer) + Unsent(w.server, w.toClient)
  {
    assert Hello(true)[..6] == Hello(true) && Hello(false)[..6] == Hello(false);
    if Complete(w) {
      assert IsRun(w, []) && After(w, []) == w;
    } else {
      var e :=
        if Unsent(w.client, w.toServer) == 1 then ClientSends(ROOM)
        else if Unsent(w.server, w.toClient) == 1 then ServerSends(ROOM)
        else if w.client.stage == SendHandshake then ToClient(Hello(false))
        else ToServer(Hello(true));
      StepSound(w, e);
      HopefulCompletes(Apply(w, e));
      CompletesThrough(w, e);
    }
  }

  /** From any reachable state both ends can complete if and only if each is
      through, or waits for a hello that was sent or may yet be sent. */
  lemma BothCanComplete(es: seq<Event>)
    requires IsRun(START, es)
    ensures CanBothComplete(After(START, es)) <==> BothHopeful(After(START, es))
  {
    var w := After(START, es);
    RunSound(START, es);
    if BothHopeful(w) {
      HopefulCompletes(w);
    } else {
      forall more | IsRun(w, more) ensures !Complete(After(w, more)) {
        if Complete(After(w, more)) { CompleteWasHopeful(w, more); }
      }
    }
  }

  /** A client that accepts before it sends: it is through, and the server waits
      for ever. */
  lemma ClientAcceptsFirst()
    ensures var es := [ServerSends(ROOM), ToClient(Hello(false))];
            && IsRun(START, es) && After(START, es).client.stage == SendConnectionId
            && !CanBothComplete(After(START, es))
  {
    var es := [ServerSends(ROOM), ToClient(Hello(false))];
    var w1 := Apply(START, es[0]);
    assert Hello(false)[..6] == Hello(false);
    Steps(w1, es[1..], [], Apply(w1, es[1]));
    Steps(START, es, es[1..], w1);
    BothCanComplete(es);
  }

  /** The threaded server accepts a hello before it sends anything of its own. */
  predicate AcceptsFirst(w: World, es: seq<Event>)
    decreases es
  {
    es == [] ||
    (if w.server.stage == SendHandshake then !es[0].ServerSends? && AcceptsFirst(Apply(w, es[0]), es[1..]) else true)
  }

  /** So with that server no client ever completes. */
  lemma {:induction false} AcceptingFirstNeverCompletes(w: World, es: seq<Event>)
    requires Sound(w) && IsRun(w, es) && AcceptsFirst(w, es) && Hello(false) !in w.toClient
    ensures After(w, es).client.stage != SendConnectionId
    ensures Sound(START) && Hello(false) !in START.toClient
    decreases es
  {
    if es != [] {
      if w.server.stage == SendHandshake {
        StepSound(w, es[0]);
        AcceptingFirstNeverCompletes(Apply(w, es[0]), es[1..]);
      } else {
        SilentServer(w, es);
      }
    }
  }
}

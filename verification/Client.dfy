/** The client's actors: connecting to one endpoint after another, reading
    lines, and the deadline that closes the socket. Each handler is one step, and
    the handlers run in any order. */
module Client {
  import opened Packets

  const CONNECT_SECONDS := 60
  const READ_SECONDS := 30

  /** The client by value. `connecting` holds the endpoints of the connects that
      are outstanding, `reads` and `waits` count outstanding reads and waits for
      the deadline; `since` (when the latest operation began), `tried`, `lines` and
      `received` record what has happened. */
  datatype State = State(
    endpoints: nat,
    stopped: bool,
    connected: bool,
    open: bool,
    connecting: seq<nat>,
    reading: nat,
    waits: nat,
    deadline: Option<int>,
    since: int,
    tried: seq<nat>,
    buffer: string,
    lines: seq<string>,
    received: string)

  function Fresh(endpoints: nat): State {
    State(endpoints, false, false, false, [], 0, 0, None, 0, [], "", [], "")
  }

  function Stop(s: State): State {
    s.(stopped := true, open := false, connected := false)
  }

  /** Connecting opens the socket. */
  function StartConnect(s: State, i: nat, now: int): State {
    if i < s.endpoints then
      s.(deadline := Some(now + CONNECT_SECONDS), open := true, connecting := s.connecting + [i],
         since := now, tried := s.tried + [i])
    else Stop(s)
  }

  function StartRead(s: State, now: int): State {
    s.(deadline := Some(now + READ_SECONDS), reading := s.reading + 1, since := now)
  }

  function Start(endpoints: nat, now: int): State {
    var s := StartConnect(Fresh(endpoints), 0, now);
    s.(waits := s.waits + 1)
  }

  function HandleConnect(s: State, error: bool, now: int): State
    requires s.connecting != []
  {
    var i, t := s.connecting[0], s.(connecting := s.connecting[1..]);
    if s.stopped then t
    else if !s.open then StartConnect(t, i + 1, now)
    else if error then StartConnect(t.(open := false), i + 1, now)
    else StartRead(t.(connected := true), now)
  }

  /** Where the first newline is, or the length. */
  function Newline(s: string): (n: nat)
    ensures n <= |s| && '\n' !in s[..n] && (n < |s| ==> s[n] == '\n') && (n < |s| <==> '\n' in s)
  {
    if s == "" then 0
    else if s[0] == '\n' then 0
    else
      var n := Newline(s[1..]);
      assert s[..n + 1] == [s[0]] + s[1..][..n];
      n + 1
  }

  /** `bytes` joined the buffer before the handler ran. */
  function HandleRead(s: State, error: bool, bytes: string, now: int): State
    requires s.reading > 0 && (!error ==> '\n' in s.buffer + bytes)
  {
    var t := s.(reading := s.reading - 1, buffer := s.buffer + bytes, received := s.received + bytes);
    if s.stopped then t
    else if error then Stop(t)
    else
      var n := Newline(t.buffer) + 1;
      StartRead(t.(lines := t.lines + [t.buffer[..n - 1]], buffer := t.buffer[n..]), now)
  }

  function CheckDeadline(s: State, now: int): State
    requires s.waits > 0
  {
    if s.stopped then s.(waits := s.waits - 1)
    else if s.deadline.Some? && s.deadline.value <= now then s.(open := false, deadline := None)
    else s
  }

  datatype Event =
    | ConnectDone(error: bool, now: int)
    | ReadDone(error: bool, bytes: string, now: int)
    | Deadline(now: int)
    | WriteFailed
    | UserStop

  predicate Enabled(s: State, e: Event) {
    match e
    case ConnectDone(_, _) => s.connecting != []
    case ReadDone(error, bytes, _) => s.reading > 0 && (!error ==> '\n' in s.buffer + bytes)
    case Deadline(_) => s.waits > 0
    case _ => true
  }

  function Apply(s: State, e: Event): State
    requires Enabled(s, e)
  {
    match e
    case ConnectDone(error, now) => HandleConnect(s, error, now)
    case ReadDone(error, bytes, now) => HandleRead(s, error, bytes, now)
    case Deadline(now) => CheckDeadline(s, now)
    case WriteFailed => if s.stopped then s else Stop(s)
    case UserStop => Stop(s)
  }

  predicate IsRun(s: State, es: seq<Event>)
    decreases es
  {
    es != [] ==> Enabled(s, es[0]) && IsRun(Apply(s, es[0]), es[1..])
  }

  function After(s: State, es: seq<Event>): State
    requires IsRun(s, es)
    decreases es
  {
    if es == [] then s else After(Apply(s, es[0]), es[1..])
  }

  // Safety

  function Joined(lines: seq<string>): string {
    if lines == [] then "" else Joined(lines[..|lines| - 1]) + lines[|lines| - 1] + "\n"
  }

  /** The endpoints tried are the first ones in order, each once. While it runs,
      the client has exactly one operation outstanding: a connect to the endpoint
      tried last, or else, once it is connected, a read. */
  ghost predicate ActorsOk(s: State) {
    && |s.tried| <= s.endpoints && (forall i :: 0 <= i < |s.tried| ==> s.tried[i] == i)
    && (s.connecting == [] || s.connecting == [|s.tried| - 1])
    && |s.connecting| + s.reading <= 1
    && (if s.stopped then !s.connected && !s.open
        else |s.connecting| + s.reading == 1 && (s.connected <==> s.reading == 1))
  }

  /** The deadline actor sleeps until the client stops. Until a deadline passes
      one is active, and it is that of the latest operation. */
  ghost predicate DeadlineOk(s: State) {
    && (if s.stopped then s.waits <= 1 else s.waits == 1)
    && (!s.stopped && s.open ==> s.deadline.Some?)
    && (!s.stopped && s.deadline.Some? ==>
          s.deadline.value == s.since + if s.connected then READ_SECONDS else CONNECT_SECONDS)
  }

  /** Every byte received is in a line, ends one, or is still in the buffer. */
  ghost predicate TextOk(s: State) {
    TextIs(s.lines, s.buffer, s.received)
  }

  ghost predicate TextIs(lines: seq<string>, buffer: string, received: string) {
    Joined(lines) + buffer == received && forall i :: 0 <= i < |lines| ==> '\n' !in lines[i]
  }

  ghost predicate Ok(s: State) {
    ActorsOk(s) && DeadlineOk(s) && TextOk(s)
  }

  lemma JoinedSnoc(lines: seq<string>, line: string)
    ensures Joined(lines + [line]) == Joined(lines) + line + "\n"
  {
    assert (lines + [line])[..|lines|] == lines;
  }

  lemma TakeLine(lines: seq<string>, buffer: string, n: nat, received: string)
    requires TextIs(lines, buffer, received) && n < |buffer| && buffer[n] == '\n' && '\n' !in buffer[..n]
    ensures TextIs(lines + [buffer[..n]], buffer[n + 1..], received)
  {
    JoinedSnoc(lines, buffer[..n]);
    assert buffer == buffer[..n] + "\n" + buffer[n + 1..];
  }

  lemma MoreText(lines: seq<string>, buffer: string, received: string, bytes: string)
    requires TextIs(lines, buffer, received)
    ensures TextIs(lines, buffer + bytes, received + bytes)
  {
    assert Joined(lines) + (buffer + bytes) == Joined(lines) + buffer + bytes;
  }

  lemma TextAfter(s: State, e: Event)
    requires TextOk(s) && Enabled(s, e)
    ensures TextOk(Apply(s, e))
  {
    if e.ReadDone? {
      var buffer := s.buffer + e.bytes;
      MoreText(s.lines, s.buffer, s.received, e.bytes);
      if !s.stopped && !e.error { TakeLine(s.lines, buffer, Newline(buffer), s.received + e.bytes); }
    }
  }

  lemma ActorsAfter(s: State, e: Event)
    requires ActorsOk(s) && Enabled(s, e)
    ensures ActorsOk(Apply(s, e))
  {
    match e
    case ConnectDone(error, now) =>
      assert s.connecting[1..] == [];
      assert Apply(s, e).tried == s.tried || Apply(s, e).tried == s.tried + [|s.tried|];
    case _ =>
  }

  lemma DeadlineAfter(s: State, e: Event)
    requires ActorsOk(s) && DeadlineOk(s) && Enabled(s, e)
    ensures DeadlineOk(Apply(s, e))
  {
  }

  lemma StepOk(s: State, e: Event)
    requires Ok(s) && Enabled(s, e)
    ensures Ok(Apply(s, e))
  {
    ActorsAfter(s, e);
    DeadlineAfter(s, e);
    TextAfter(s, e);
  }

  lemma StartOk(endpoints: nat, now: int)
    ensures Ok(Start(endpoints, now))
  {
  }

  lemma {:induction false} RunOk(s: State, es: seq<Event>)
    requires Ok(s) && IsRun(s, es)
    ensures Ok(After(s, es))
    decreases es
  {
    if es != [] {
      StepOk(s, es[0]);
      RunOk(Apply(s, es[0]), es[1..]);
    }
  }

  /** Every interleaving after `start`. */
  lemma ClientSafe(endpoints: nat, now: int, es: seq<Event>)
    requires IsRun(Start(endpoints, now), es)
    ensures Ok(After(Start(endpoints, now), es))
  {
    StartOk(endpoints, now);
    RunOk(Start(endpoints, now), es);
  }

  /** Once stopped, no connect or read is started again, in any continuation. */
  lemma {:induction false} StoppedStartsNothing(s: State, es: seq<Event>)
    requires s.stopped && IsRun(s, es)
    ensures var t := After(s, es);
            && t.stopped && t.tried == s.tried && t.lines == s.lines && t.deadline == s.deadline
            && |t.connecting| <= |s.connecting| && t.reading <= s.reading
    decreases es
  {
    if es != [] {
      StoppedStartsNothing(Apply(s, es[0]), es[1..]);
    }
  }

  // What each event does

  /** The first endpoint is tried, for a minute; without one the client gives up. */
  lemma Begins(endpoints: nat, now: int)
    ensures var s := Start(endpoints, now);
            if endpoints == 0 then s.stopped && s.tried == [] && s.connecting == []
            else
              && !s.stopped && s.open && !s.connected && s.connecting == [0] && s.tried == [0]
              && s.deadline == Some(now + 60) && s.since == now
    ensures var s := Start(endpoints, now);
            s.waits == 1 && s.reading == 0 && s.buffer == "" && s.lines == [] && s.received == ""
  {
  }

  /** A connect that succeeds in time starts the first read, for half a minute. */
  lemma Connects(s: State, now: int)
    requires Ok(s) && s.connecting != [] && !s.stopped && s.open
    ensures var t := Apply(s, ConnectDone(false, now));
            && t.connected && t.open && !t.stopped && t.connecting == [] && t.reading == 1
            && t.deadline == Some(now + 30) && t.since == now && t.tried == s.tried && t.lines == s.lines
  {
  }

  /** Every completed read takes the first line, without its newline, and leaves
      what is behind it; the next read has half a minute. */
  lemma LineIsTaken(s: State, bytes: string, now: int)
    requires Ok(s) && !s.stopped && Enabled(s, ReadDone(false, bytes, now))
    ensures var t := Apply(s, ReadDone(false, bytes, now));
            && |t.lines| == |s.lines| + 1 && t.lines[..|s.lines|] == s.lines
            && var line := t.lines[|s.lines|];
               '\n' !in line && line + "\n" + t.buffer == s.buffer + bytes
    ensures var t := Apply(s, ReadDone(false, bytes, now));
            !t.stopped && t.connected && t.reading == 1 && t.deadline == Some(now + 30) && t.since == now
  {
    var buffer := s.buffer + bytes;
    var n := Newline(buffer);
    assert buffer == buffer[..n] + "\n" + buffer[n + 1..];
  }

  /** An error of a read or a write, and the user, stop the client. What was
      received stays. */
  lemma Stops(s: State, e: Event)
    requires Enabled(s, e) && (e.UserStop? || e.WriteFailed? || (e.ReadDone? && e.error))
    ensures var t := Apply(s, e); t.stopped && t.lines == s.lines && s.buffer <= t.buffer
    ensures !s.stopped || e.UserStop? ==> !Apply(s, e).open && !Apply(s, e).connected
  {
  }

  /** Whatever is still outstanding when the client has stopped ends, one
      operation with each event, and does nothing else. */
  lemma StoppedEnds(s: State, e: Event)
    requires s.stopped && Enabled(s, e)
    ensures var t := Apply(s, e);
            match e
            case ConnectDone(_, _) => [s.connecting[0]] + t.connecting == s.connecting && t.reading == s.reading
            case ReadDone(_, bytes, _) =>
              t.reading == s.reading - 1 && t.buffer == s.buffer + bytes && t.connecting == s.connecting
            case Deadline(_) => t.waits == s.waits - 1 && t.connecting == s.connecting && t.reading == s.reading
            case _ => t.connecting == s.connecting && t.reading == s.reading && t.waits == s.waits
  {
  }

  /** The deadline actor goes back to sleep, without a deadline once that has
      passed; it ends when the client has stopped. */
  lemma DeadlineActor(s: State, now: int)
    requires s.waits > 0
    ensures var t := Apply(s, Deadline(now));
            !s.stopped ==>
              && t.waits == s.waits && t.lines == s.lines && t.connecting == s.connecting && t.reading == s.reading
              && if s.deadline.Some? && now >= s.deadline.value then !t.open && t.deadline == None else t == s
  {
  }

  function Remaining(s: State): int {
    s.endpoints - |s.tried|
  }

  /** A connect fails when it reports an error, and also when the deadline has
      closed the socket before. */
  predicate Fails(s: State, e: Event) {
    e.ConnectDone? && !s.stopped && (e.error || !s.open)
  }

  /** Every failed attempt takes the next endpoint, and only without one does the
      client give up. */
  lemma FailedAttempt(s: State, e: Event)
    requires Ok(s) && Enabled(s, e) && Fails(s, e)
    ensures var t := Apply(s, e);
            if Remaining(s) == 0 then t == Stop(s).(connecting := [])
            else
              && !t.stopped && Remaining(t) == Remaining(s) - 1 && t.connecting == [|s.tried|] && t.open
              && t.deadline == Some(e.now + 60)
  {
  }

  function Failures(s: State, es: seq<Event>): nat
    requires IsRun(s, es)
    decreases es
  {
    if es == [] then 0 else (if Fails(s, es[0]) then 1 else 0) + Failures(Apply(s, es[0]), es[1..])
  }

  /** So no run has more failed attempts than endpoints, and it tries one more
      than have failed, as far as there are any. */
  lemma {:induction false} FailuresBounded(s: State, es: seq<Event>)
    requires Ok(s) && IsRun(s, es)
    ensures s.stopped ==> Failures(s, es) == 0
    ensures !s.stopped ==> Failures(s, es) <= Remaining(s) + if s.connected then 0 else 1
    ensures s.connected ==> Failures(s, es) == 0
    ensures var t := After(s, es); !s.stopped && Failures(s, es) <= Remaining(s) ==>
              |t.tried| == |s.tried| + Failures(s, es)
    decreases es
  {
    if es != [] {
      StepOk(s, es[0]);
      FailuresBounded(Apply(s, es[0]), es[1..]);
      if Apply(s, es[0]).stopped { StoppedStartsNothing(Apply(s, es[0]), es[1..]); }
    }
  }

  /** The time that the latest operation is given has passed. */
  predicate TooLate(s: State, now: int) {
    now >= s.since + if s.connected then READ_SECONDS else CONNECT_SECONDS
  }

  /** The deadline closes the socket no earlier than its operation allows. */
  lemma DeadlineIsLate(endpoints: nat, start: int, es: seq<Event>, now: int)
    requires IsRun(Start(endpoints, start), es)
    ensures var s := After(Start(endpoints, start), es);
            && (s.open ==> s.waits > 0)
            && (s.open ==> (Apply(s, Deadline(now)).open <==> !TooLate(s, now)))
  {
    ClientSafe(endpoints, start, es);
  }

  /** The deadline actor wakes up in time throughout the run. */
  predicate InTime(s: State, es: seq<Event>)
    requires IsRun(s, es)
    decreases es
  {
    es == [] || ((es[0].Deadline? ==> !TooLate(s, es[0].now)) && InTime(Apply(s, es[0]), es[1..]))
  }

  /** The socket of a connected client stays open exactly while the deadline
      actor never finds a read 30 seconds old; `isConnected` does not tell. */
  lemma {:induction false} OpenWhileInTime(s: State, es: seq<Event>)
    requires Ok(s) && s.connected && IsRun(s, es) && After(s, es).connected
    ensures After(s, es).open <==> s.open && InTime(s, es)
    decreases es
  {
    if es != [] {
      StepOk(s, es[0]);
      RunOk(Apply(s, es[0]), es[1..]);
      NotStoppedBefore(Apply(s, es[0]), es[1..]);
      StaysConnected(s, es[0]);
      OpenWhileInTime(Apply(s, es[0]), es[1..]);
    }
  }

  lemma NotStoppedBefore(s: State, es: seq<Event>)
    requires IsRun(s, es) && !After(s, es).stopped
    ensures !s.stopped
  {
    if s.stopped { StoppedStartsNothing(s, es); }
  }

  lemma StaysConnected(s: State, e: Event)
    requires Ok(s) && Enabled(s, e) && s.connected && !Apply(s, e).stopped
    ensures Apply(s, e).connected
    ensures Apply(s, e).open <==> s.open && (e.Deadline? ==> !TooLate(s, e.now))
  {
  }

  /** `isConnected` does not say that the socket is open: from the connection on,
      it is open exactly as long as no read has run into its deadline. */
  lemma ConnectedIsNotOpen(endpoints: nat, start: int, es: seq<Event>, now: int, more: seq<Event>)
    requires IsRun(Start(endpoints, start), es)
    requires var s := After(Start(endpoints, start), es);
             && !s.stopped && s.open && s.connecting != []
             && var t := Apply(s, ConnectDone(false, now));
                IsRun(t, more) && After(t, more).connected
    ensures var t := Apply(After(Start(endpoints, start), es), ConnectDone(false, now));
            After(t, more).open <==> InTime(t, more)
  {
    ClientSafe(endpoints, start, es);
    var s := After(Start(endpoints, start), es);
    StepOk(s, ConnectDone(false, now));
    OpenWhileInTime(Apply(s, ConnectDone(false, now)), more);
  }

  /** It can be closed. */
  lemma ConnectedAndClosed()
    ensures var es := [ConnectDone(false, 1), Deadline(31)];
            IsRun(Start(1, 0), es) && After(Start(1, 0), es).connected && !After(Start(1, 0), es).open
  {
    var es := [ConnectDone(false, 1), Deadline(31)];
    var s1 := Apply(Start(1, 0), es[0]);
    assert es[1..] == [Deadline(31)];
    assert After(s1, es[1..]) == Apply(s1, Deadline(31)) by { assert es[1..][1..] == []; }
  }

  // The handlers

  class TCPClient {
    var stopped: bool
    var endpoints: nat
    var socketIsOpen: bool
    var inputBuffer: string
    var expiry: Option<int>
    var isConnected: bool

    ghost var s: State

    ghost predicate Valid()
      reads this
    {
      && stopped == s.stopped && endpoints == s.endpoints && socketIsOpen == s.open
      && inputBuffer == s.buffer && isConnected == s.connected
      && expiry == s.deadline
    }

    constructor ()
      ensures Valid() && s == Fresh(0)
    {
      stopped, endpoints, socketIsOpen, inputBuffer, isConnected := false, 0, false, "", false;
      expiry, s := None, Fresh(0);
    }

    /** Takes the endpoints and starts the connect and the deadline actor. */
    method StartClient(endpoints: nat, now: int)
      requires Valid() && s == Fresh(0)
      modifies this
      ensures Valid() && s == Start(endpoints, now)
    {
      this.endpoints := endpoints;
      s := Fresh(endpoints);
      StartConnecting(0, now);
      s := s.(waits := s.waits + 1);
    }

    method StopClient()
      requires Valid()
      modifies this
      ensures Valid() && s == Stop(old(s))
    {
      stopped := true;
      socketIsOpen := false;
      isConnected := false;
      s := s.(stopped := true, open := false, connected := false);
    }

    method StartConnecting(endpointIter: nat, now: int)
      requires Valid()
      modifies this
      ensures Valid() && s == StartConnect(old(s), endpointIter, now)
    {
      if endpointIter < endpoints {
        expiry := Some(now + CONNECT_SECONDS);
        socketIsOpen := true;
        s := s.(deadline := expiry, open := true, connecting := s.connecting + [endpointIter],
                since := now, tried := s.tried + [endpointIter]);
      } else {
        StopClient();
      }
    }

    method OnConnect(error: bool, endpointIter: nat, now: int)
      requires Valid() && s.connecting != [] && s.connecting[0] == endpointIter
      modifies this
      ensures Valid() && s == HandleConnect(old(s), error, now)
    {
      s := s.(connecting := s.connecting[1..]);
      if stopped {
        return;
      }
      if !socketIsOpen {
        StartConnecting(endpointIter + 1, now);
      } else if error {
        socketIsOpen := false;
        s := s.(open := false);
        StartConnecting(endpointIter + 1, now);
      } else {
        isConnected := true;
        s := s.(connected := true);
        StartReading(now);
      }
    }

    method StartReading(now: int)
      requires Valid()
      modifies this
      ensures Valid() && s == StartRead(old(s), now)
    {
      expiry := Some(now + READ_SECONDS);
      s := s.(deadline := expiry, reading := s.reading + 1, since := now);
    }

    /** `n` is the length of the line with its newline. */
    method OnRead(error: bool, bytes: string, n: nat, now: int)
      requires Valid() && s.reading > 0
      requires !error ==> '\n' in s.buffer + bytes && n == Newline(s.buffer + bytes) + 1
      modifies this
      ensures Valid() && s == HandleRead(old(s), error, bytes, now)
      ensures !old(stopped) && !error ==>
                inputBuffer == (old(inputBuffer) + bytes)[n..]
                && s.lines == old(s.lines) + [(old(inputBuffer) + bytes)[..n - 1]]
      ensures !old(stopped) ==> (stopped <==> error)
    {
      inputBuffer := inputBuffer + bytes;
      s := s.(reading := s.reading - 1, buffer := s.buffer + bytes, received := s.received + bytes);
      if stopped {
        return;
      }
      if !error {
        var line := inputBuffer[..n - 1];
        inputBuffer := inputBuffer[n..];
        s := s.(lines := s.lines + [line], buffer := inputBuffer);
        StartReading(now);
      } else {
        StopClient();
      }
    }

    method OnDeadline(now: int)
      requires Valid() && s.waits > 0
      modifies this
      ensures Valid() && s == CheckDeadline(old(s), now)
    {
      s := s.(waits := s.waits - 1);
      if stopped {
        return;
      }
      if expiry.Some? && expiry.value <= now {
        socketIsOpen := false;
        expiry := None;
        s := s.(open := false, deadline := None);
      }
      s := s.(waits := s.waits + 1);
    }
  }
}

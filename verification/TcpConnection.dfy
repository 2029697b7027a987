/** The size-prefixed frame as an object, and the connection that receives a
    stream of them into pooled packets. */
module TcpConnection {
  import opened Serialize
  import opened Packets
  import opened PacketObjects
  import opened Pools
  import opened PacketFactory
  import opened ReceiveLoop
  import F = Framing

  /** The pools, while the rings are in order. */
  ghost function Books(factory: PacketMethodFactory): Option<map<Pair, Pool>>
    reads factory, factory.Repr
  {
    if factory.Valid() then Some(factory.pools) else None
  }

  class SizePacket {
    var packet: PacketObject?

    constructor (packet: PacketObject?)
      ensures this.packet == packet
    {
      this.packet := packet;
    }

    method IsRemainingBufferBigenough(data: array<byte>, bufferOffset: nat, totalBytesInBuffer: nat) returns (r: bool)
      requires bufferOffset + 3 <= data.Length
      ensures r == F.BigEnough(data[..], bufferOffset, totalBytesInBuffer)
    {
      var probeOffset := bufferOffset + 1;
      var size;
      size, probeOffset := InU16(data, probeOffset);
      Decode16(size);
      assert data[..][bufferOffset + 1..bufferOffset + 3] == data[bufferOffset + 1..bufferOffset + 3];
      r := !(size + probeOffset > totalBytesInBuffer);
    }

    /** Type byte, room for the length, payload, and the length patched back in:
        exactly the frame, and no byte outside it changes. */
    method SerializeOut(data: array<byte>, bufferOffset: nat) returns (o: nat)
      requires packet != null && bufferOffset + 3 + packet.kind.PayloadLength() <= data.Length
      modifies data
      ensures data[..] == Splice(old(data[..]), bufferOffset, Frame(packet.Value()))
      ensures o == bufferOffset + 3 + packet.kind.PayloadLength()
    {
      ghost var was, payload := data[..], Encode(packet.Value());
      o := OutU8(data, bufferOffset, NETWORK_PROTOCOL);
      ghost var typed := data[..];
      var pos := o;
      o := o + 2;
      o := packet.SerializeOut(data, o);
      var size := o - pos - 2;
      SplicePrepend(typed, pos, Be16(size), payload);
      SpliceAppend(was, bufferOffset, [NETWORK_PROTOCOL], Be16(size) + payload);
      Associate([NETWORK_PROTOCOL], Be16(size), payload);
      var patched := OutU16(data, pos, size);
    }

    /** The type byte and the size, and the pair probed behind them. */
    method ReadPrefix(data: array<byte>, bufferOffset: nat) returns (pair: Pair, o: nat)
      requires bufferOffset + F.SLACK <= data.Length
      ensures pair == F.Probe(data[..], bufferOffset) && o == bufferOffset + 3
    {
      var kind, size;
      kind, o := InU8(data, bufferOffset);
      size, o := InU16(data, o);
      var probe := new PacketObject(BaseClass);
      var probeOffset := probe.BaseIn(data, o);
      assert data[o..o + 7][0] == data[..][bufferOffset + 3];
      assert data[o..o + 7][1] == data[..][bufferOffset + 4];
      pair := Pair(probe.packetType, probe.packetSubType);
    }

    /** Header, probe, `Create`, and the payload into the object that comes from
        the pool. Without such an object the null result is dereferenced. */
    method SerializeIn(data: array<byte>, bufferOffset: nat, factory: PacketMethodFactory,
                       ghost mem: seq<byte>, ghost pools: map<Pair, Pool>, ghost next: PacketObject?)
      returns (found: bool, o: nat)
      requires Books(factory) == Some(pools) && data[..] == mem && bufferOffset + F.SLACK <= |mem|
      requires data !in factory.Repr && this !in factory.Repr
      requires next == NextIn(pools, F.Probe(mem, bufferOffset))
      modifies this, factory`pools, factory.Repr, if next == null then {} else {next}
      ensures Books(factory) == Some(TakenFrom(pools, F.Probe(mem, bufferOffset)).0) && data[..] == mem
      ensures packet == next && (found <==> next != null)
      ensures found ==>
        && o == bufferOffset + 3 + next.kind.PayloadLength()
        && next.Value() == Decode(next.kind, F.Payload(mem, bufferOffset, next.kind))
    {
      Acquire(data, bufferOffset, factory, mem, pools);
      found, o := packet != null, bufferOffset + 3;
      if found {
        o := FillPacket(data, bufferOffset, factory);
      }
    }

    method Acquire(data: array<byte>, bufferOffset: nat, factory: PacketMethodFactory,
                   ghost mem: seq<byte>, ghost pools: map<Pair, Pool>)
      requires Books(factory) == Some(pools) && data[..] == mem && bufferOffset + F.SLACK <= |mem|
      requires data !in factory.Repr && this !in factory.Repr
      modifies this, factory`pools, factory.Repr
      ensures Books(factory) == Some(TakenFrom(pools, F.Probe(mem, bufferOffset)).0) && data[..] == mem
      ensures packet == NextIn(pools, F.Probe(mem, bufferOffset))
    {
      var pair, o := ReadPrefix(data, bufferOffset);
      packet := factory.Create(pair);
    }

    method FillPacket(data: array<byte>, bufferOffset: nat, factory: PacketMethodFactory) returns (o: nat)
      requires bufferOffset + F.SLACK <= data.Length && packet != null
      requires packet !in factory.Repr
      modifies packet
      ensures Books(factory) == old(Books(factory))
      ensures o == bufferOffset + 3 + packet.kind.PayloadLength()
      ensures packet.Value() == Decode(packet.kind, F.Payload(data[..], bufferOffset, packet.kind))
    {
      o := ReadPayload(packet, data, bufferOffset);
    }

    static method ReadPayload(p: PacketObject, data: array<byte>, bufferOffset: nat) returns (o: nat)
      requires bufferOffset + F.SLACK <= data.Length
      modifies p
      ensures o == bufferOffset + 3 + p.kind.PayloadLength()
      ensures p.Value() == Decode(p.kind, F.Payload(data[..], bufferOffset, p.kind))
    {
      o := p.SerializeIn(data, bufferOffset + 3);
      assert data[bufferOffset + 3..o] == data[..][bufferOffset + 3..o];
    }
  }

  /** The packets in the objects, in order. */
  ghost function Values(os: seq<PacketObject>): (ps: seq<Packet>)
    reads os
  {
    if os == [] then [] else Values(os[..|os| - 1]) + [os[|os| - 1].Value()]
  }

  lemma ValuesSnoc(os: seq<PacketObject>, o: PacketObject)
    ensures Values(os + [o]) == Values(os) + [o.Value()]
  {
    assert (os + [o])[..|os|] == os;
  }

  lemma {:induction false} ValuesTail(os: seq<PacketObject>)
    requires os != []
    ensures |Values(os)| == |os| && Values(os[1..]) == Values(os)[1..]
  {
    if |os| > 1 {
      var rest := os[..|os| - 1];
      ValuesTail(rest);
      assert os[1..][..|os| - 2] == rest[1..];
    }
  }

  lemma NextFrame(ps: seq<Packet>, i: nat, done: seq<byte>, frames: seq<byte>) returns (frame: seq<byte>)
    requires i < |ps| && done + Frames(ps[i..]) == frames
    ensures frame == Frame(ps[i]) && done + frame + Frames(ps[i + 1..]) == frames
    ensures |done| + |frame| <= |frames|
  {
    frame := Frame(ps[i]);
    assert ps[i..][1..] == ps[i + 1..];
    assert done + (frame + Frames(ps[i + 1..])) == done + frame + Frames(ps[i + 1..]);
  }

  /** The array overload of `Out`: exactly the concatenated frames. */
  method OutFrames(data: array<byte>, offset: nat, value: seq<PacketObject>, ghost ps: seq<Packet>,
                   ghost frames: seq<byte>) returns (o: nat)
    requires |ps| == |value| && forall k :: 0 <= k < |ps| ==> value[k].Value() == ps[k]
    requires frames == Frames(ps) && offset + |frames| <= data.Length
    modifies data
    ensures data[..] == Splice(old(data[..]), offset, frames) && o == offset + |frames|
  {
    ghost var was, done := data[..], [];
    o := offset;
    assert Splice(was, offset, []) == was && [] + Frames(ps) == frames && ps[0..] == ps;
    for i := 0 to |value|
      invariant done + Frames(ps[i..]) == frames && o == offset + |done|
      invariant data[..] == Splice(was, offset, done)
    {
      ghost var frame := NextFrame(ps, i, done, frames);
      o := OutFrame(data, o, value[i], ps[i], frame, was, offset, done);
      done := done + frame;
    }
    AllFrames(ps, done, frames);
  }

  lemma AllFrames(ps: seq<Packet>, done: seq<byte>, frames: seq<byte>)
    requires done + Frames(ps[|ps|..]) == frames
    ensures done == frames
  {
    assert done + [] == done;
  }

  method OutFrame(data: array<byte>, o: nat, p: PacketObject, ghost q: Packet, ghost frame: seq<byte>,
                  ghost was: seq<byte>, ghost offset: nat, ghost done: seq<byte>) returns (o': nat)
    requires p.Value() == q && frame == Frame(q) && o == offset + |done| && o + |frame| <= data.Length
    requires |was| == data.Length && data[..] == Splice(was, offset, done)
    modifies data
    ensures data[..] == Splice(was, offset, done + frame) && o' == o + |frame|
  {
    SpliceAppend(was, offset, done, frame);
    var sp := new SizePacket(p);
    o' := sp.SerializeOut(data, o);
  }

  twostate lemma SameValues(os: seq<PacketObject>)
    requires forall i :: 0 <= i < |os| ==> os[i].Value() == old(os[i].Value())
    ensures Values(os) == old(Values(os))
  {
    if os != [] {
      assert forall i :: 0 <= i < |os| - 1 ==> os[..|os| - 1][i] == os[i];
      SameValues(os[..|os| - 1]);
    }
  }

  twostate lemma Untouched(os: seq<PacketObject>)
    requires forall i :: 0 <= i < |os| ==> unchanged(os[i])
    ensures Values(os) == old(Values(os))
  {
    forall i | 0 <= i < |os| ensures os[i].Value() == old(os[i].Value()) {
      assert unchanged(os[i]);
    }
    SameValues(os);
  }

  class TCPConnection {
    /** The memory from the receive buffer on. */
    const receiveBuffer: array<byte>
    var inwardPackets: seq<PacketObject>

    constructor (receiveBuffer: array<byte>)
      ensures this.receiveBuffer == receiveBuffer && inwardPackets == []
    {
      this.receiveBuffer, inwardPackets := receiveBuffer, [];
    }

    /** The body of the receive loop: a packet from its pool, filled from the
        buffer, joins the queue. The guard is then asked about the next round. */
    method ReceiveOne(sp2: SizePacket, inOffset: nat, length: nat, factory: PacketMethodFactory,
                      ghost mem: seq<byte>, ghost pools: map<Pair, Pool>, ghost next: PacketObject?)
      returns (found: bool, o: nat, more: bool)
      requires Books(factory) == Some(pools) && receiveBuffer[..] == mem
      requires inOffset + 3 <= length && length + F.SLACK <= |mem|
      requires receiveBuffer !in factory.Repr && this !in factory.Repr && sp2 !in factory.Repr
      requires next == NextIn(pools, F.Probe(mem, inOffset))
      modifies `inwardPackets, sp2, factory`pools, factory.Repr, if next == null then {} else {next}
      ensures Books(factory) == Some(TakenFrom(pools, F.Probe(mem, inOffset)).0) && receiveBuffer[..] == mem
      ensures found <==> next != null
      ensures !found ==> !more && inwardPackets == old(inwardPackets)
      ensures found ==>
        && inwardPackets == old(inwardPackets) + [next]
        && o == Behind(inOffset, next) && more == F.BigEnough(mem, o, length)
        && next.Value() == Decode(next.kind, F.Payload(mem, inOffset, next.kind))
    {
      more := false;
      found, o := sp2.SerializeIn(receiveBuffer, inOffset, factory, mem, pools, next);
      if found {
        more := Enqueue(sp2, o, length, factory);
      }
    }

    /** Enters the packet into the queue and asks the guard about the next round. */
    method Enqueue(sp2: SizePacket, o: nat, length: nat, factory: PacketMethodFactory) returns (more: bool)
      requires this !in factory.Repr && sp2.packet != null && o + 3 <= receiveBuffer.Length
      modifies `inwardPackets
      ensures Books(factory) == old(Books(factory))
      ensures inwardPackets == old(inwardPackets) + [sp2.packet]
      ensures more == F.BigEnough(receiveBuffer[..], o, length)
    {
      inwardPackets := inwardPackets + [sp2.packet];
      more := sp2.IsRemainingBufferBigenough(receiveBuffer, o, length);
    }

    /** The pools, the queue and the packets in it, by value. */
    ghost function Standing(factory: PacketMethodFactory): Option<Snapshot>
      reads this, factory, factory.Repr, inwardPackets
    {
      if factory.Valid() then Some(Snapshot(factory.pools, inwardPackets, Values(inwardPackets))) else None
    }

    /** The same, seen from the queue: no packet in it changes. */
    method ReceiveNext(sp2: SizePacket, inOffset: nat, length: nat, factory: PacketMethodFactory,
                       ghost mem: seq<byte>, ghost pools: map<Pair, Pool>, ghost next: PacketObject?)
      returns (found: bool, o: nat, more: bool)
      requires Books(factory) == Some(pools) && receiveBuffer[..] == mem
      requires inOffset + 3 <= length && length + F.SLACK <= |mem|
      requires receiveBuffer !in factory.Repr && this !in factory.Repr && sp2 !in factory.Repr
      requires next == NextIn(pools, F.Probe(mem, inOffset)) && (next == null || next !in inwardPackets)
      modifies `inwardPackets, sp2, factory`pools, factory.Repr, if next == null then {} else {next}
      ensures Books(factory) == Some(TakenFrom(pools, F.Probe(mem, inOffset)).0) && receiveBuffer[..] == mem
      ensures found <==> next != null
      ensures found ==> o == Behind(inOffset, next) && more == F.BigEnough(mem, o, length)
      ensures !found ==>
        !more && inwardPackets == old(inwardPackets) && Values(inwardPackets) == old(Values(inwardPackets))
      ensures found ==>
        && inwardPackets == old(inwardPackets) + [next]
        && Values(inwardPackets) ==
           old(Values(inwardPackets)) + [Decode(next.kind, F.Payload(mem, inOffset, next.kind))]
    {
      ghost var queue := inwardPackets;
      assert forall p :: p in queue ==> p !in factory.Repr;
      found, o, more := ReceiveOne(sp2, inOffset, length, factory, mem, pools, next);
      Untouched(queue);
      if found { ValuesSnoc(queue, next); }
    }

    /** One round, at place `i` of what the loop by value does. */
    method Round(sp2: SizePacket, inOffset: nat, length: nat, factory: PacketMethodFactory,
                 ghost mem: seq<byte>, ghost pool: set<PacketObject>, ghost trace: seq<ReadState>, ghost i: nat)
      returns (found: bool, o: nat, more: bool, ghost j: nat)
      requires i < |trace| && StepAt(mem, length, pool, trace, i)
      requires Standing(factory) == Some(trace[i].snap) && receiveBuffer[..] == mem
      requires receiveBuffer !in factory.Repr && this !in factory.Repr && sp2 !in factory.Repr
      requires inOffset == trace[i].offset && F.BigEnough(mem, inOffset, length)
      modifies `inwardPackets, sp2, factory`pools, factory.Repr, pool
      ensures j < |trace| && Standing(factory) == Some(trace[j].snap) && receiveBuffer[..] == mem
      ensures j == (if found then i + 1 else i) && (!found ==> i == |trace| - 1)
      ensures found ==> o == trace[j].offset && o > inOffset && o <= length + 29 && more == F.BigEnough(mem, o, length)
    {
      ghost var next := NextIn(trace[i].snap.pools, F.Probe(mem, inOffset));
      j := if next == null then i else i + 1;
      found, o, more := ReceiveNext(sp2, inOffset, length, factory, mem, trace[i].snap.pools, next);
    }

    /** The receive loop. It breaks off where the source dereferences the null
        that `Create` gave. */
    method ReceiveAll(length: nat, factory: PacketMethodFactory, ghost pool: set<PacketObject>,
                      ghost trace: seq<ReadState>, ghost mem: seq<byte>, ghost last: ReadState)
      returns (ok: bool, inOffset: nat)
      requires receiveBuffer !in factory.Repr && this !in factory.Repr
      requires length + F.SLACK <= receiveBuffer.Length && trace != [] && last == trace[|trace| - 1]
      requires Standing(factory) == Some(trace[0].snap) && receiveBuffer[..] == mem && trace[0].offset == 0
      requires IsTrace(mem, length, pool, trace)
      modifies `inwardPackets, factory`pools, factory.Repr, pool
      ensures Standing(factory) == Some(last.snap) && receiveBuffer[..] == mem
      ensures ok ==> inOffset == last.offset <= length + 29 && !F.BigEnough(mem, inOffset, length)
      ensures !ok ==> Stuck(mem, length, last.offset, last.snap)
    {
      var sp2 := new SizePacket(null);
      ghost var i := 0;
      inOffset, ok := 0, true;
      var more := sp2.IsRemainingBufferBigenough(receiveBuffer, inOffset, length);
      while more
        invariant 0 <= i < |trace| && Standing(factory) == Some(trace[i].snap) && receiveBuffer[..] == mem
        invariant sp2 !in factory.Repr
        invariant inOffset == trace[i].offset <= length + 29 && more == F.BigEnough(mem, inOffset, length)
        decreases length + 29 - inOffset
      {
        assert StepAt(mem, length, pool, trace, i);
        ok, inOffset, more, i := Round(sp2, inOffset, length, factory, mem, pool, trace, i);
        if !ok { return; }
      }
      assert StepAt(mem, length, pool, trace, i);
    }

    /** The same, seen by whoever holds other packets: none of them changes. */
    method ReceiveKeeping(length: nat, factory: PacketMethodFactory, ghost others: seq<PacketObject>,
                          ghost pool: set<PacketObject>, ghost trace: seq<ReadState>, ghost mem: seq<byte>,
                          ghost last: ReadState)
      returns (ok: bool, inOffset: nat)
      requires receiveBuffer !in factory.Repr && this !in factory.Repr
      requires length + F.SLACK <= receiveBuffer.Length && trace != [] && last == trace[|trace| - 1]
      requires Standing(factory) == Some(trace[0].snap) && receiveBuffer[..] == mem && trace[0].offset == 0
      requires IsTrace(mem, length, pool, trace)
      requires forall p :: p in others ==> p !in pool
      modifies `inwardPackets, factory`pools, factory.Repr, pool
      ensures Standing(factory) == Some(last.snap) && receiveBuffer[..] == mem
      ensures ok ==> inOffset == last.offset
      ensures last.offset <= length + 29 && (ok <==> !F.BigEnough(mem, last.offset, length))
      ensures Values(others) == old(Values(others))
    {
      assert forall p :: p in others ==> p !in factory.Repr;
      ok, inOffset := ReceiveAll(length, factory, pool, trace, mem, last);
      Untouched(others);
    }

    /** The completion handler of a read that received `length` bytes. What joins
        the queue, and whether the loop ends where its guard says no, is what the
        loop by value says. What was held before stays held and does not change. */
    method HandleRead(length: nat, factory: PacketMethodFactory, ghost others: seq<PacketObject>,
                      ghost s: Snapshot, ghost r: F.Outcome)
      returns (ok: bool, inOffset: nat, ghost s': Snapshot)
      requires receiveBuffer !in factory.Repr && this !in factory.Repr
      requires length + F.SLACK <= receiveBuffer.Length
      requires Standing(factory) == Some(s) && Sound(s) && AllHeld(s.pools, others)
      requires r == F.Drain(receiveBuffer[..], 0, length, StockOf(s.pools))
      modifies `inwardPackets, factory`pools, factory.Repr, FreePackets(factory.pools)
      ensures Standing(factory) == Some(s') && Sound(s') && Grown(s, s')
      ensures s'.got == s.got + r.packets && receiveBuffer[..] == old(receiveBuffer[..])
      ensures (ok <==> r.status == F.Drained) && (ok ==> inOffset == r.offset)
      ensures Values(others) == old(Values(others))
    {
      ghost var mem, pool := receiveBuffer[..], FreePackets(s.pools);
      HeldIsNotFree(s.pools, others, pool);
      ghost var trace, last := ReadTrace(mem, length, s, pool, r);
      s' := last.snap;
      ok, inOffset := ReceiveKeeping(length, factory, others, pool, trace, mem, last);
    }

    method DequeMessage(factory: PacketMethodFactory, ghost others: seq<PacketObject>, ghost s: Snapshot)
      requires Standing(factory) == Some(s) && Sound(s) && s.queue != [] && this !in factory.Repr
      modifies `inwardPackets, factory`pools, factory.Repr
      ensures Standing(factory) == Some(Popped(s))
      ensures Values(others) == old(Values(others))
    {
      assert HeldIn(s.pools, s.queue[0]);
      Deque(factory, others, s.pools);
    }

    method Deque(factory: PacketMethodFactory, ghost others: seq<PacketObject>, ghost pools: map<Pair, Pool>)
      requires Books(factory) == Some(pools) && this !in factory.Repr
      requires inwardPackets != [] && HeldIn(pools, inwardPackets[0])
      modifies `inwardPackets, factory`pools, factory.Repr
      ensures var i := old(inwardPackets)[0];
              && |pools[i.kind.ClassPair()].free| <= POOL_SIZE
              && Books(factory) == Some(pools[i.kind.ClassPair() := Returned(pools[i.kind.ClassPair()], i)])
      ensures inwardPackets == old(inwardPackets)[1..]
      ensures Values(inwardPackets) == old(Values(inwardPackets))[1..]
      ensures Values(others) == old(Values(others))
    {
      var i := inwardPackets[0];
      PopFront(factory, others);
      ReleaseBeside(i, factory, pools, inwardPackets, others);
    }

    /** The packets that others hold do not change. */
    static method ReleaseBeside(o: PacketObject, factory: PacketMethodFactory, ghost pools: map<Pair, Pool>,
                                ghost others: seq<PacketObject>, ghost more: seq<PacketObject>)
      requires Books(factory) == Some(pools) && HeldIn(pools, o)
      modifies factory`pools, factory.Repr
      ensures |pools[o.kind.ClassPair()].free| <= POOL_SIZE
      ensures Books(factory) == Some(pools[o.kind.ClassPair() := Returned(pools[o.kind.ClassPair()], o)])
      ensures Values(others) == old(Values(others)) && Values(more) == old(Values(more))
    {
      assert forall p :: p in others || p in more ==> p !in factory.Repr;
      ReleaseTo(o, factory, pools);
      SameValues(others);
      SameValues(more);
    }

    static method ReleaseTo(o: PacketObject, factory: PacketMethodFactory, ghost pools: map<Pair, Pool>)
      requires Books(factory) == Some(pools) && HeldIn(pools, o)
      modifies factory`pools, factory.Repr
      ensures |pools[o.kind.ClassPair()].free| <= POOL_SIZE
      ensures Books(factory) == Some(pools[o.kind.ClassPair() := Returned(pools[o.kind.ClassPair()], o)])
    {
      var released := factory.Release(o);
    }

    method PopFront(factory: PacketMethodFactory, ghost others: seq<PacketObject>)
      requires Books(factory).Some? && this !in factory.Repr && inwardPackets != []
      modifies `inwardPackets
      ensures Books(factory) == old(Books(factory))
      ensures inwardPackets == old(inwardPackets)[1..] && Values(inwardPackets) == old(Values(inwardPackets))[1..]
      ensures Values(others) == old(Values(others))
    {
      ValuesTail(inwardPackets);
      inwardPackets := inwardPackets[1..];
    }

    /** The bytes that are sent: exactly the frame. */
    method SendMessage(bp: PacketObject) returns (sent: seq<byte>)
      ensures sent == Frame(bp.Value())
    {
      var buffer := new byte[120];
      var sp := new SizePacket(bp);
      var outOffset := sp.SerializeOut(buffer, 0);
      sent := buffer[..outOffset];
    }
  }

  /** A read on one connection, seen from another that shares the factory: its
      queue and every packet in it stay as they are, and no packet is shared. */
  method HandleReadBeside(c: TCPConnection, length: nat, factory: PacketMethodFactory, other: TCPConnection,
                          ghost s: Snapshot, ghost t: Snapshot, ghost r: F.Outcome)
    returns (ok: bool, inOffset: nat, ghost s': Snapshot)
    requires c != other && c.receiveBuffer !in factory.Repr && c !in factory.Repr && other !in factory.Repr
    requires length + F.SLACK <= c.receiveBuffer.Length
    requires c.Standing(factory) == Some(s) && other.Standing(factory) == Some(t) && Beside(s, t)
    requires r == F.Drain(c.receiveBuffer[..], 0, length, StockOf(s.pools))
    modifies c`inwardPackets, factory`pools, factory.Repr, FreePackets(factory.pools)
    ensures c.Standing(factory) == Some(s') && s'.got == s.got + r.packets && s.queue <= s'.queue
    ensures other.Standing(factory) == Some(t.(pools := s'.pools)) && Beside(s', t.(pools := s'.pools))
    ensures ok <==> r.status == F.Drained
  {
    ok, inOffset, s' := c.HandleRead(length, factory, t.queue, s, r);
    ReadKeepsBeside(s, s', t);
  }

  /** So does taking a packet from a queue. */
  method DequeMessageBeside(c: TCPConnection, factory: PacketMethodFactory, other: TCPConnection,
                            ghost s: Snapshot, ghost t: Snapshot)
    returns (ghost s': Snapshot)
    requires c != other && c !in factory.Repr && other !in factory.Repr
    requires c.Standing(factory) == Some(s) && other.Standing(factory) == Some(t) && Beside(s, t) && s.queue != []
    modifies c`inwardPackets, factory`pools, factory.Repr
    ensures c.Standing(factory) == Some(s') && s' == Popped(s)
    ensures other.Standing(factory) == Some(t.(pools := s'.pools)) && Beside(s', t.(pools := s'.pools))
  {
    s' := PopKeepsBeside(s, t);
    c.DequeMessage(factory, t.queue, s);
  }
}

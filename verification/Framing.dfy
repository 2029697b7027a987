/** What the receive loop does with the bytes of one read, by value.

    `mem` is the memory from the start of the receive buffer on. Only its first
    `total` bytes were received; the loop may read up to 32 bytes further, which
    hold arbitrary stale values. `free` counts the objects in each pool. */
module Framing {
  import opened Serialize
  import opened Packets

  type Stock = map<Pair, nat>

  /** How the loop ends: the guard said no, or `Create` found no pool for the
      probed pair, or an empty one, and its null result is dereferenced. */
  datatype Status = Drained | UnknownPair | PoolEmpty

  datatype Outcome = Outcome(packets: seq<Packet>, offset: nat, status: Status)

  const SLACK := 32

  function SizeField(mem: seq<byte>, offset: nat): U16
    requires offset + 3 <= |mem|
  {
    FromBe16(mem[offset + 1..offset + 3])
  }

  /** `SizePacket::IsRemainingBufferBigenough` */
  predicate BigEnough(mem: seq<byte>, offset: nat, total: nat)
    requires offset + 3 <= |mem|
  {
    SizeField(mem, offset) + offset + 3 <= total
  }

  function Probe(mem: seq<byte>, offset: nat): Pair
    requires offset + 5 <= |mem|
  {
    Pair(mem[offset + 3], mem[offset + 4])
  }

  /** The class of the object that `Create` returns, or why it returns none. */
  function Create(pair: Pair, free: Stock): (r: (Option<PacketClass>, Status))
    ensures r.0.Some? ==> pair in free && free[pair] > 0 && ClassOf(pair) == r.0
  {
    if ClassOf(pair) == None || pair !in free then (None, UnknownPair)
    else if free[pair] == 0 then (None, PoolEmpty)
    else (ClassOf(pair), Drained)
  }

  function Take(free: Stock, pair: Pair): Stock
    requires pair in free && free[pair] > 0
  {
    free[pair := free[pair] - 1]
  }

  function Payload(mem: seq<byte>, offset: nat, c: PacketClass): (s: seq<byte>)
    requires offset + SLACK <= |mem|
    ensures |s| == c.PayloadLength()
  {
    mem[offset + 3..offset + 3 + c.PayloadLength()]
  }

  /** The loop. Each round advances by the class length, whatever the size
      field says. */
  function Drain(mem: seq<byte>, offset: nat, total: nat, free: Stock): Outcome
    requires offset <= total + 29 && total + SLACK <= |mem|
    decreases total + 29 - offset
  {
    if !BigEnough(mem, offset, total) then Outcome([], offset, Drained)
    else
      var pair := Probe(mem, offset);
      var (c, why) := Create(pair, free);
      if c == None then Outcome([], offset, why)
      else
        var rest := Drain(mem, offset + 3 + c.value.PayloadLength(), total, Take(free, pair));
        rest.(packets := [Decode(c.value, Payload(mem, offset, c.value))] + rest.packets)
  }

  // Arbitrary bytes

  function FramesLength(ps: seq<Packet>): nat {
    if ps == [] then 0 else 3 + ps[0].Class().PayloadLength() + FramesLength(ps[1..])
  }

  /** The payload bytes of consecutive packets, found one class length apart. */
  ghost predicate Consumed(mem: seq<byte>, offset: nat, ps: seq<Packet>)
    decreases ps
  {
    ps == [] ||
    (offset + 3 + ps[0].Class().PayloadLength() <= |mem|
     && mem[offset + 3..offset + 3 + ps[0].Class().PayloadLength()] == Encode(ps[0])
     && Consumed(mem, offset + 3 + ps[0].Class().PayloadLength(), ps[1..]))
  }

  predicate AllWellFormed(ps: seq<Packet>) {
    forall i :: 0 <= i < |ps| ==> ps[i].WellFormed()
  }

  /** Whatever was received: the decoded packets are well formed, and they are
      the payloads at the places the offset visited and encode to those bytes. */
  lemma {:induction false} DrainSound(mem: seq<byte>, offset: nat, total: nat, free: Stock, r: Outcome)
    requires offset <= total + 29 && total + SLACK <= |mem| && r == Drain(mem, offset, total, free)
    ensures Consumed(mem, offset, r.packets) && AllWellFormed(r.packets)
    decreases total + 29 - offset
  {
    if r.packets != [] {
      var c, p, rest := DrainRound(mem, offset, total, free, r);
      DrainSound(mem, offset + 3 + c.PayloadLength(), total, Take(free, Probe(mem, offset)), rest);
      DecodedRound(mem, offset, c, p, rest.packets);
    }
  }

  lemma DrainRound(mem: seq<byte>, offset: nat, total: nat, free: Stock, r: Outcome)
    returns (c: PacketClass, p: Packet, rest: Outcome)
    requires offset <= total + 29 && total + SLACK <= |mem| && r == Drain(mem, offset, total, free)
    requires r.packets != []
    ensures offset + 3 + c.PayloadLength() <= total + 29 && c.ClassPair() == Probe(mem, offset)
    ensures Probe(mem, offset) in free && free[Probe(mem, offset)] > 0
    ensures rest == Drain(mem, offset + 3 + c.PayloadLength(), total, Take(free, Probe(mem, offset)))
    ensures p == Decode(c, Payload(mem, offset, c)) && r == rest.(packets := [p] + rest.packets)
  {
    c := Create(Probe(mem, offset), free).0.value;
    p := Decode(c, Payload(mem, offset, c));
    rest := Drain(mem, offset + 3 + c.PayloadLength(), total, Take(free, Probe(mem, offset)));
  }

  lemma DecodedRound(mem: seq<byte>, offset: nat, c: PacketClass, p: Packet, ps: seq<Packet>)
    requires offset + SLACK <= |mem| && c.ClassPair() == Probe(mem, offset)
    requires p == Decode(c, Payload(mem, offset, c))
    requires Consumed(mem, offset + 3 + c.PayloadLength(), ps) && AllWellFormed(ps)
    ensures Consumed(mem, offset, [p] + ps) && AllWellFormed([p] + ps)
  {
    EncodeDecode(c, Payload(mem, offset, c));
    ConsumedFirst(mem, offset, p, ps);
    WellFormedFirst(p, ps);
  }

  lemma ConsumedFirst(mem: seq<byte>, offset: nat, p: Packet, ps: seq<Packet>)
    requires offset + 3 + p.Class().PayloadLength() <= |mem|
    requires mem[offset + 3..offset + 3 + p.Class().PayloadLength()] == Encode(p)
    requires Consumed(mem, offset + 3 + p.Class().PayloadLength(), ps)
    ensures Consumed(mem, offset, [p] + ps)
  {
    assert ([p] + ps)[1..] == ps;
  }

  lemma WellFormedFirst(p: Packet, ps: seq<Packet>)
    requires p.WellFormed() && AllWellFormed(ps)
    ensures AllWellFormed([p] + ps)
  {
  }

  /** Whatever was received: the loop ends, the offset has moved by the lengths
      of the packets, and there are at most a tenth as many of them as bytes. */
  lemma {:induction false} DrainBounded(mem: seq<byte>, offset: nat, total: nat, free: Stock)
    requires offset <= total + 29 && total + SLACK <= |mem|
    ensures var r := Drain(mem, offset, total, free);
            && r.offset == offset + FramesLength(r.packets) <= total + 29
            && (r.packets != [] ==> 10 * |r.packets| <= total - offset + 7)
            && (r.status == Drained <==> !BigEnough(mem, r.offset, total))
    decreases total + 29 - offset
  {
    if BigEnough(mem, offset, total) {
      var pair := Probe(mem, offset);
      var (c, why) := Create(pair, free);
      if c != None {
        var next := offset + 3 + c.value.PayloadLength();
        DrainBounded(mem, next, total, Take(free, pair));
        assert Drain(mem, offset, total, free).packets[1..] == Drain(mem, next, total, Take(free, pair)).packets;
      }
    }
  }

  /** The guard in bytes: the size field counts what follows it. */
  lemma GuardIs(mem: seq<byte>, offset: nat, total: nat)
    requires offset + 3 <= |mem|
    ensures BigEnough(mem, offset, total) <==>
            0x100 * mem[offset + 1] as int + mem[offset + 2] as int <= total - (offset + 3)
  {
    var s := mem[offset + 1..offset + 3];
    assert s[0] == mem[offset + 1] && s[1] == mem[offset + 2];
  }

  /** There is no pool for the pair, or every object of its pool was taken. */
  predicate NoneFor(pair: Pair, free: Stock, ps: seq<Packet>) {
    ClassOf(pair) == None || pair !in free || Count(ps, ClassOf(pair).value) == free[pair]
  }

  /** The end of the loop: the guard says no, or the pool of the probed pair has
      nothing left to give. */
  predicate StopsRight(mem: seq<byte>, total: nat, free: Stock, r: Outcome)
    requires total + SLACK <= |mem|
  {
    && r.offset <= total + 29
    && (r.status == Drained <==> !BigEnough(mem, r.offset, total))
    && (r.status != Drained ==>
          && NoneFor(Probe(mem, r.offset), free, r.packets)
          && (r.status == UnknownPair <==> ClassOf(Probe(mem, r.offset)) == None || Probe(mem, r.offset) !in free))
  }

  /** Whatever was received, the loop stops there and nowhere else. */
  lemma {:induction false} DrainStops(mem: seq<byte>, offset: nat, total: nat, free: Stock, r: Outcome)
    requires offset <= total + 29 && total + SLACK <= |mem| && r == Drain(mem, offset, total, free)
    ensures StopsRight(mem, total, free, r)
    decreases total + 29 - offset
  {
    if r.packets != [] {
      var c, p, rest := DrainRound(mem, offset, total, free, r);
      DrainStops(mem, offset + 3 + c.PayloadLength(), total, Take(free, Probe(mem, offset)), rest);
      StopsStep(mem, total, free, Probe(mem, offset), c, p, rest, r);
    }
  }

  lemma StopsStep(mem: seq<byte>, total: nat, free: Stock, taken: Pair, c: PacketClass, p: Packet, rest: Outcome, r: Outcome)
    requires total + SLACK <= |mem| && c.ClassPair() == taken && taken in free && free[taken] > 0 && p.Class() == c
    requires StopsRight(mem, total, Take(free, taken), rest) && r == rest.(packets := [p] + rest.packets)
    ensures StopsRight(mem, total, free, r)
  {
    if r.status != Drained { TakenNone(Probe(mem, r.offset), free, taken, c, p, rest.packets, r.packets); }
  }

  lemma TakenNone(pair: Pair, free: Stock, taken: Pair, c: PacketClass, p: Packet, rest: seq<Packet>, ps: seq<Packet>)
    requires c.ClassPair() == taken && taken in free && free[taken] > 0 && p.Class() == c
    requires NoneFor(pair, Take(free, taken), rest) && ps == [p] + rest
    ensures NoneFor(pair, free, ps)
  {
    assert ps[1..] == rest;
    PairsDistinct(c, c);
  }

  /** Every size field that the loop visits announces at least the length of the
      class that is read. */
  predicate HonestSizes(mem: seq<byte>, offset: nat, total: nat, free: Stock)
    requires offset <= total + 29 && total + SLACK <= |mem|
    decreases total + 29 - offset
  {
    BigEnough(mem, offset, total) ==>
      var pair := Probe(mem, offset);
      var (c, why) := Create(pair, free);
      && SizeField(mem, offset) >= 2
      && (c != None ==>
            && SizeField(mem, offset) >= c.value.PayloadLength()
            && HonestSizes(mem, offset + 3 + c.value.PayloadLength(), total, Take(free, pair)))
  }

  lemma SameRead(mem: seq<byte>, mem': seq<byte>, total: nat, i: nat, j: nat)
    requires i <= j <= total <= |mem| && total <= |mem'| && mem[..total] == mem'[..total]
    ensures mem[i..j] == mem'[i..j]
  {
    assert mem[i..j] == mem[..total][i..j];
    assert mem'[i..j] == mem'[..total][i..j];
  }

  lemma SameGuard(mem: seq<byte>, mem': seq<byte>, offset: nat, total: nat)
    requires offset + 3 <= |mem| && offset + 3 <= |mem'| && total <= |mem| && total <= |mem'|
    requires mem[..total] == mem'[..total]
    ensures BigEnough(mem, offset, total) <==> BigEnough(mem', offset, total)
    ensures BigEnough(mem, offset, total) ==> SizeField(mem, offset) == SizeField(mem', offset)
  {
    if offset + 3 <= total { SameRead(mem, mem', total, offset + 1, offset + 3); }
  }

  lemma SameProbe(mem: seq<byte>, mem': seq<byte>, offset: nat, total: nat)
    requires offset + 5 <= total <= |mem| && total <= |mem'| && mem[..total] == mem'[..total]
    ensures Probe(mem, offset) == Probe(mem', offset)
  {
    assert forall i :: 0 <= i < total ==> mem[i] == mem[..total][i] == mem'[i];
  }

  /** With honest sizes nothing behind the received bytes is decoded, and they
      alone decide the outcome, whatever stale bytes follow. */
  lemma {:induction false} StaleBytesUnread(mem: seq<byte>, mem': seq<byte>, offset: nat, total: nat, free: Stock)
    requires offset <= total && total + SLACK <= |mem| && total + SLACK <= |mem'|
    requires mem[..total] == mem'[..total] && HonestSizes(mem, offset, total, free)
    ensures Drain(mem, offset, total, free).offset <= total
    ensures Drain(mem', offset, total, free) == Drain(mem, offset, total, free)
    decreases total - offset
  {
    SameGuard(mem, mem', offset, total);
    if BigEnough(mem, offset, total) {
      SameProbe(mem, mem', offset, total);
      var c := Create(Probe(mem, offset), free).0;
      if c != None { StaleRound(mem, mem', offset, total, free, c.value, Probe(mem, offset)); }
    }
  }

  /** One round that finds an object, and the rest of the loop. */
  lemma {:induction false} StaleRound(mem: seq<byte>, mem': seq<byte>, offset: nat, total: nat, free: Stock,
                                      c: PacketClass, pair: Pair)
    requires offset + 3 + c.PayloadLength() <= total && total + SLACK <= |mem| && total + SLACK <= |mem'|
    requires BigEnough(mem, offset, total) && BigEnough(mem', offset, total)
    requires pair == Probe(mem, offset) == Probe(mem', offset) && Create(pair, free).0 == Some(c)
    requires mem[..total] == mem'[..total]
    requires HonestSizes(mem, offset + 3 + c.PayloadLength(), total, Take(free, pair))
    ensures Drain(mem, offset, total, free).offset <= total
    ensures Drain(mem', offset, total, free) == Drain(mem, offset, total, free)
    decreases total - offset - 3
  {
    var next := offset + 3 + c.PayloadLength();
    var rest := Drain(mem, next, total, Take(free, pair));
    SameRead(mem, mem', total, offset + 3, next);
    StaleBytesUnread(mem, mem', next, total, Take(free, pair));
    DrainNext(mem, offset, total, free, c, rest);
    DrainNext(mem', offset, total, free, c, rest);
  }

  lemma DrainNext(mem: seq<byte>, offset: nat, total: nat, free: Stock, c: PacketClass, rest: Outcome)
    requires offset <= total && total + SLACK <= |mem| && BigEnough(mem, offset, total)
    requires Create(Probe(mem, offset), free).0 == Some(c)
    requires rest == Drain(mem, offset + 3 + c.PayloadLength(), total, Take(free, Probe(mem, offset)))
    ensures Drain(mem, offset, total, free) ==
            rest.(packets := [Decode(c, Payload(mem, offset, c))] + rest.packets)
  {
  }

  /** Three received bytes with a size of zero: the stale bytes behind them are
      decoded as a movement packet. */
  lemma StaleBytesDecoded()
    ensures var mem := [3, 0, 0, 2, 2] + seq(30, _ => 0);
            var r := Drain(mem, 0, 3, map[Pair(2, 2) := 1]);
            |r.packets| == 1 && r.packets[0].Class() == MovementClass && r.offset == 32
  {
    var mem: seq<byte> := [3, 0, 0, 2, 2] + seq(30, _ => 0);
    var free: Stock := map[Pair(2, 2) := 1];
    assert mem[1..3] == [0, 0];
    assert Create(Probe(mem, 0), free).0 == Some(MovementClass);
    assert !BigEnough(mem, 32, 3);
    assert Drain(mem, 32, 3, Take(free, Pair(2, 2))) == Outcome([], 32, Drained);
  }

  // Streams of frames

  /** How many packets of each class the pools can supply. */
  function Count(ps: seq<Packet>, c: PacketClass): nat {
    if ps == [] then 0 else (if ps[0].Class() == c then 1 else 0) + Count(ps[1..], c)
  }

  function Available(free: Stock, c: PacketClass): nat {
    if c.ClassPair() in free then free[c.ClassPair()] else 0
  }

  ghost predicate Enough(ps: seq<Packet>, free: Stock) {
    forall c: PacketClass :: Count(ps, c) <= Available(free, c)
  }

  /** The same, one packet at a time. */
  predicate Supplies(free: Stock, ps: seq<Packet>)
    decreases ps
  {
    ps == [] ||
    var pair := ps[0].Class().ClassPair();
    pair in free && free[pair] > 0 && Supplies(Take(free, pair), ps[1..])
  }

  lemma {:induction false} SuppliesIffEnough(free: Stock, ps: seq<Packet>)
    ensures Supplies(free, ps) <==> Enough(ps, free)
    decreases ps
  {
    if ps != [] {
      var pair := ps[0].Class().ClassPair();
      EnoughStep(ps, free);
      if pair in free && free[pair] > 0 {
        SuppliesIffEnough(Take(free, pair), ps[1..]);
      }
    }
  }

  lemma PairsDistinct(c: PacketClass, d: PacketClass)
    ensures c.ClassPair() == d.ClassPair() ==> c == d
    ensures ClassOf(c.ClassPair()) == Some(c)
  {
  }

  lemma EnoughStep(ps: seq<Packet>, free: Stock)
    requires ps != []
    ensures var c := ps[0].Class(); var pair := c.ClassPair();
            Enough(ps, free) <==> pair in free && free[pair] > 0 && Enough(ps[1..], Take(free, pair))
  {
    var c := ps[0].Class();
    var pair := c.ClassPair();
    assert Count(ps, c) == 1 + Count(ps[1..], c);
    if pair in free && free[pair] > 0 {
      forall d: PacketClass
        ensures Count(ps, d) <= Available(free, d) <==> Count(ps[1..], d) <= Available(Take(free, pair), d)
      {
        PairsDistinct(c, d);
      }
    } else {
      assert Count(ps, c) > Available(free, c);
    }
  }

  /** A frame at `offset`: what guard, probe and payload read there. */
  lemma FrameAt(mem: seq<byte>, offset: nat, p: Packet, rest: seq<byte>)
    requires offset + SLACK <= |mem| && mem[offset..] == Frame(p) + rest
    ensures SizeField(mem, offset) == p.Class().PayloadLength()
    ensures Probe(mem, offset) == p.StoredPair()
    ensures Decode(p.Class(), Payload(mem, offset, p.Class())) == p
    ensures mem[offset + 3 + p.Class().PayloadLength()..] == rest
  {
    var f := Frame(p);
    DecodeEncode(p);
    assert forall i :: 0 <= i < |f| ==> mem[offset + i] == (mem[offset..])[i] == f[i];
    assert f[1..3] == Be16(p.Class().PayloadLength());
    assert mem[offset + 1..offset + 3] == f[1..3];
    Decode16(p.Class().PayloadLength());
    assert f[3] == Encode(p)[0] == p.header.packetType;
    assert f[4] == Encode(p)[1] == p.header.packetSubType;
    assert f[3..] == Encode(p);
    assert Payload(mem, offset, p.Class()) == f[3..];
    assert mem[offset + |f|..] == mem[offset..][|f|..] == rest;
  }

  /** Bytes that do not hold the whole frame their size field announces. */
  predicate Incomplete(t: seq<byte>) {
    |t| >= 3 ==> FromBe16(t[1..3]) + 3 > |t|
  }

  lemma FrameSizeField(q: Packet)
    ensures FromBe16(Frame(q)[1..3]) == q.Class().PayloadLength()
  {
    var n := q.Class().PayloadLength();
    Middle([NETWORK_PROTOCOL], Be16(n), Encode(q));
    Decode16(n);
  }

  lemma Middle(a: seq<byte>, b: seq<byte>, c: seq<byte>)
    ensures (a + b + c)[|a|..|a| + |b|] == b
  {
  }

  lemma PrefixSlice(t: seq<byte>, f: seq<byte>, i: nat, j: nat)
    requires t <= f && i <= j <= |t|
    ensures t[i..j] == f[i..j]
  {
  }

  /** Every strict prefix of a frame is incomplete. */
  lemma PartialFrame(q: Packet, t: seq<byte>)
    requires t < Frame(q)
    ensures Incomplete(t)
  {
    if |t| >= 3 {
      FrameSizeField(q);
      PrefixSlice(t, Frame(q), 1, 3);
    }
  }

  /** The guard refuses incomplete bytes, whatever follows them, and no others. */
  lemma IncompleteStops(mem: seq<byte>, offset: nat, t: seq<byte>)
    requires offset + |t| + SLACK <= |mem| && mem[offset..offset + |t|] == t
    ensures !BigEnough(mem, offset, offset + |t|) <==> Incomplete(t)
  {
    if |t| >= 3 {
      assert t[1] == mem[offset + 1] && t[2] == mem[offset + 2];
      assert mem[offset + 1..offset + 3] == t[1..3];
    }
  }

  /** Complete frames of well-formed packets, one after another. */
  ghost predicate FramesAt(mem: seq<byte>, offset: nat, total: nat, ps: seq<Packet>)
    decreases ps
  {
    ps == [] ||
    var n := ps[0].Class().PayloadLength();
    offset + 3 + n <= total && offset + SLACK <= |mem|
    && SizeField(mem, offset) == n
    && Probe(mem, offset) == ps[0].Class().ClassPair()
    && Decode(ps[0].Class(), Payload(mem, offset, ps[0].Class())) == ps[0]
    && FramesAt(mem, offset + 3 + n, total, ps[1..])
  }

  lemma Assoc3(a: seq<byte>, b: seq<byte>, c: seq<byte>, d: seq<byte>)
    ensures a + b + c + d == a + (b + c + d)
  {
  }

  lemma {:induction false} FramesAreAt(mem: seq<byte>, offset: nat, total: nat, ps: seq<Packet>, t: seq<byte>, stale: seq<byte>)
    requires offset <= total && total + SLACK <= |mem| && AllWellFormed(ps)
    requires mem[offset..] == Frames(ps) + t + stale && offset + FramesLength(ps) + |t| == total
    ensures FramesAt(mem, offset, total, ps)
    ensures mem[offset + FramesLength(ps)..] == t + stale
    decreases ps
  {
    if ps == [] {
      assert Frames(ps) + t == t;
    } else {
      FirstFrameAt(mem, offset, ps, t, stale);
      RestWellFormed(ps);
      FramesAreAt(mem, offset + 3 + ps[0].Class().PayloadLength(), total, ps[1..], t, stale);
    }
  }

  lemma FirstFrameAt(mem: seq<byte>, offset: nat, ps: seq<Packet>, t: seq<byte>, stale: seq<byte>)
    requires offset + SLACK <= |mem| && ps != [] && mem[offset..] == Frames(ps) + t + stale
    ensures SizeField(mem, offset) == ps[0].Class().PayloadLength() && Probe(mem, offset) == ps[0].StoredPair()
    ensures Decode(ps[0].Class(), Payload(mem, offset, ps[0].Class())) == ps[0]
    ensures mem[offset + 3 + ps[0].Class().PayloadLength()..] == Frames(ps[1..]) + t + stale
  {
    Assoc3(Frame(ps[0]), Frames(ps[1..]), t, stale);
    FrameAt(mem, offset, ps[0], Frames(ps[1..]) + t + stale);
  }

  lemma RestWellFormed(ps: seq<Packet>)
    requires ps != [] && AllWellFormed(ps)
    ensures ps[0].StoredPair() == ps[0].Class().ClassPair() && AllWellFormed(ps[1..])
  {
  }

  lemma {:induction false} FramesLengthIs(ps: seq<Packet>)
    ensures |Frames(ps)| == FramesLength(ps)
  {
    if ps != [] { FramesLengthIs(ps[1..]); }
  }

  /** One round of the loop on a complete frame. */
  lemma DrainOneFrame(mem: seq<byte>, offset: nat, total: nat, free: Stock, p: Packet)
    requires offset <= total && total + SLACK <= |mem| && FramesAt(mem, offset, total, [p])
    ensures var pair, next := p.Class().ClassPair(), offset + 3 + p.Class().PayloadLength();
            var r := Drain(mem, offset, total, free);
            if pair in free && free[pair] > 0 then
              next <= total
              && r == Drain(mem, next, total, Take(free, pair)).(
                   packets := [p] + Drain(mem, next, total, Take(free, pair)).packets)
            else
              r.status != Drained
  {
    PairsDistinct(p.Class(), p.Class());
  }

  /** Reading complete frames yields exactly their packets, in order, and stops
      behind them, provided exactly that the pools supply the objects. */
  lemma {:induction false} DrainFrames(mem: seq<byte>, offset: nat, total: nat, free: Stock, ps: seq<Packet>, end: nat)
    requires offset <= total && total + SLACK <= |mem|
    requires FramesAt(mem, offset, total, ps)
    requires end == offset + FramesLength(ps) <= total && !BigEnough(mem, end, total)
    ensures Drain(mem, offset, total, free) == Outcome(ps, end, Drained) <==> Supplies(free, ps)
    decreases ps
  {
    if ps != [] {
      var pair, next := ps[0].Class().ClassPair(), offset + 3 + ps[0].Class().PayloadLength();
      if pair in free && free[pair] > 0 {
        DrainFrames(mem, next, total, Take(free, pair), ps[1..], end);
      }
      DrainFirstFrame(mem, offset, total, free, ps, next, end);
    }
  }

  /** The first of several frames, given what reading the others yields. */
  lemma DrainFirstFrame(mem: seq<byte>, offset: nat, total: nat, free: Stock, ps: seq<Packet>, next: nat, end: nat)
    requires offset <= total && total + SLACK <= |mem| && ps != []
    requires FramesAt(mem, offset, total, ps) && next == offset + 3 + ps[0].Class().PayloadLength()
    requires var pair := ps[0].Class().ClassPair();
             pair in free && free[pair] > 0 ==>
               next <= total + 29
               && (Drain(mem, next, total, Take(free, pair)) == Outcome(ps[1..], end, Drained) <==>
                   Supplies(Take(free, pair), ps[1..]))
    ensures Drain(mem, offset, total, free) == Outcome(ps, end, Drained) <==> Supplies(free, ps)
  {
    var pair := ps[0].Class().ClassPair();
    assert FramesAt(mem, offset, total, [ps[0]]) by { assert [ps[0]][1..] == []; }
    DrainOneFrame(mem, offset, total, free, ps[0]);
    if pair in free && free[pair] > 0 {
      OneMoreExact(ps[0], ps, Drain(mem, next, total, Take(free, pair)), end);
    }
  }

  lemma OneMoreExact(p: Packet, ps: seq<Packet>, rest: Outcome, end: nat)
    requires ps != [] && ps[0] == p
    ensures rest.(packets := [p] + rest.packets) == Outcome(ps, end, Drained) <==> rest == Outcome(ps[1..], end, Drained)
  {
    PrependExact(p, ps[1..], rest.packets);
    assert ps == [p] + ps[1..];
  }

  lemma PrependExact(p: Packet, ps: seq<Packet>, qs: seq<Packet>)
    ensures [p] + qs == [p] + ps <==> qs == ps
  {
    assert ([p] + qs)[1..] == qs;
    assert ([p] + ps)[1..] == ps;
  }

  /** The whole of a read: frames followed by an incomplete one. Exactly the
      packets arrive, in order, and the loop stops where the rest starts,
      whatever stale bytes lie behind it, if and only if the pools hold enough
      objects of each class. */
  lemma ReceiveFrames(
    mem: seq<byte>, total: nat, ps: seq<Packet>, body: seq<byte>, t: seq<byte>, stale: seq<byte>,
    free: Stock, r: Outcome)
    requires body == Frames(ps) && AllWellFormed(ps) && Incomplete(t)
    requires mem == body + t + stale && total == |body| + |t| && |stale| >= SLACK
    requires r == Drain(mem, 0, total, free)
    ensures r == Outcome(ps, |body|, Drained) <==> Enough(ps, free)
  {
    Layout(mem, total, ps, body, t, stale);
    DrainLaidOut(mem, total, ps, |body|, t, free, r);
  }

  lemma Layout(mem: seq<byte>, total: nat, ps: seq<Packet>, body: seq<byte>, t: seq<byte>, stale: seq<byte>)
    requires body == Frames(ps) && AllWellFormed(ps)
    requires mem == body + t + stale && total == |body| + |t| && |stale| >= SLACK
    ensures total + SLACK <= |mem|
    ensures |body| == FramesLength(ps) && FramesAt(mem, 0, total, ps)
    ensures mem[|body|..total] == t
  {
    FramesLengthIs(ps);
    assert mem[0..] == mem;
    FramesAreAt(mem, 0, total, ps, t, stale);
  }

  lemma DrainLaidOut(mem: seq<byte>, total: nat, ps: seq<Packet>, n: nat, t: seq<byte>, free: Stock, r: Outcome)
    requires total == n + |t| && total + SLACK <= |mem| && mem[n..total] == t && Incomplete(t)
    requires n == FramesLength(ps) && FramesAt(mem, 0, total, ps)
    requires r == Drain(mem, 0, total, free)
    ensures r == Outcome(ps, n, Drained) <==> Enough(ps, free)
  {
    IncompleteStops(mem, n, t);
    DrainComplete(mem, n, total, free, ps);
  }

  lemma DrainComplete(mem: seq<byte>, n: nat, total: nat, free: Stock, ps: seq<Packet>)
    requires n == FramesLength(ps) && n <= total && total + SLACK <= |mem|
    requires FramesAt(mem, 0, total, ps) && !BigEnough(mem, n, total)
    ensures Drain(mem, 0, total, free) == Outcome(ps, n, Drained) <==> Enough(ps, free)
  {
    DrainFrames(mem, 0, total, free, ps, n);
    SuppliesIffEnough(free, ps);
  }

  /** A single framed packet comes back exactly when its stored pair is the pair
      of its class: the decoder sees only the stored one. */
  lemma FrameFaithful(p: Packet, stale: seq<byte>, free: Stock)
    requires |stale| >= SLACK
    requires forall c: PacketClass :: Available(free, c) > 0
    ensures Drain(Frame(p) + stale, 0, |Frame(p)|, free) == Outcome([p], |Frame(p)|, Drained) <==> p.WellFormed()
  {
    var mem := Frame(p) + stale;
    assert mem[0..] == mem;
    FrameAt(mem, 0, p, stale);
    if p.WellFormed() {
      assert Frames([p]) == Frame(p) by { assert [p][1..] == []; }
      assert Enough([p], free) by {
        forall c: PacketClass ensures Count([p], c) <= 1 { assert Count([p][1..], c) == 0; }
      }
      assert mem == Frames([p]) + [] + stale;
      ReceiveFrames(mem, |Frame(p)|, [p], Frame(p), [], stale, free, Drain(mem, 0, |Frame(p)|, free));
    } else {
      DrainSound(mem, 0, |Frame(p)|, free, Drain(mem, 0, |Frame(p)|, free));
      assert [p][0] == p;
    }
  }
}

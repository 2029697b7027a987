/** The packet classes, their payload codecs and the size-prefixed frame. */
module Packets {
  import opened Serialize
  import opened Geometry
  import Rotation

  datatype Option<+T> = None | Some(value: T)

  /** The (type, subtype) pair under which a class is registered. */
  datatype Pair = Pair(packetType: byte, subType: byte)

  datatype PacketClass = BaseClass | ConnectionCommsClass | PositionClass | MovementClass {
    function ClassPair(): Pair {
      match this
      case BaseClass => Pair(0, 0)
      case ConnectionCommsClass => Pair(0, 2)
      case PositionClass => Pair(2, 1)
      case MovementClass => Pair(2, 2)
    }

    function PayloadLength(): (n: nat)
      ensures 7 <= n <= 29
    {
      match this
      case BaseClass => 7
      case ConnectionCommsClass => 9
      case PositionClass => 21
      case MovementClass => 29
    }
  }

  function ClassOf(pair: Pair): (c: Option<PacketClass>)
    ensures c.Some? <==> exists k: PacketClass :: k.ClassPair() == pair
    ensures c.Some? ==> c.value.ClassPair() == pair
  {
    assert pair == Pair(0, 0) ==> BaseClass.ClassPair() == pair;
    assert pair == Pair(0, 2) ==> ConnectionCommsClass.ClassPair() == pair;
    assert pair == Pair(2, 1) ==> PositionClass.ClassPair() == pair;
    assert pair == Pair(2, 2) ==> MovementClass.ClassPair() == pair;
    if pair == Pair(0, 0) then Some(BaseClass)
    else if pair == Pair(0, 2) then Some(ConnectionCommsClass)
    else if pair == Pair(2, 1) then Some(PositionClass)
    else if pair == Pair(2, 2) then Some(MovementClass)
    else None
  }

  datatype Header = Header(
    packetType: byte, packetSubType: byte,
    versionMajor: byte, versionMinor: byte,
    gameProductId: byte, gameInstanceId: U16)

  datatype Body =
    | NoBody
    | Comms(connectionId: U16)
    | Position(serverTick: U16, position: U64, rotation: S32)
    | Movement(serverTick: U16, position: U64, rotation: S32, movementDir: U64)

  /** A packet by value. The stored pair in the header is mutable in the
      original and need not be the pair of the class. */
  datatype Packet = Packet(header: Header, body: Body) {
    function Class(): PacketClass {
      match body
      case NoBody => BaseClass
      case Comms(_) => ConnectionCommsClass
      case Position(_, _, _) => PositionClass
      case Movement(_, _, _, _) => MovementClass
    }

    function StoredPair(): Pair {
      Pair(header.packetType, header.packetSubType)
    }

    predicate WellFormed() {
      StoredPair() == Class().ClassPair()
    }
  }

  // Payload codecs, following the class hierarchy

  function EncodeHeader(h: Header): (s: seq<byte>)
    ensures |s| == 7
  {
    [h.packetType, h.packetSubType, h.versionMajor, h.versionMinor, h.gameProductId] + Be16(h.gameInstanceId)
  }

  function EncodeTick(tick: U16, position: U64, rotation: S32): (s: seq<byte>)
    ensures |s| == 14
  {
    Be16(tick) + Be64(position) + Be32(ToU32(rotation))
  }

  function EncodeBody(b: Body): seq<byte> {
    match b
    case NoBody => []
    case Comms(id) => Be16(id)
    case Position(tick, position, rotation) => EncodeTick(tick, position, rotation)
    case Movement(tick, position, rotation, dir) => EncodeTick(tick, position, rotation) + Be64(dir)
  }

  function Encode(p: Packet): (s: seq<byte>)
    ensures |s| == p.Class().PayloadLength()
  {
    EncodeHeader(p.header) + EncodeBody(p.body)
  }

  // The layout, byte by byte

  lemma ClassPairs()
    ensures BaseClass.ClassPair() == Pair(0, 0) && ConnectionCommsClass.ClassPair() == Pair(0, 2)
    ensures PositionClass.ClassPair() == Pair(2, 1) && MovementClass.ClassPair() == Pair(2, 2)
  {
  }

  lemma HeaderPlaces(p: Packet)
    ensures var s, h := Encode(p), p.header;
            && s[0] == h.packetType && s[1] == h.packetSubType
            && s[2] == h.versionMajor && s[3] == h.versionMinor
            && s[4] == h.gameProductId && 0x100 * s[5] as int + s[6] as int == h.gameInstanceId
  {
    HeaderAt(Encode(p), 0, p.header);
  }

  lemma HeaderAt(mem: seq<byte>, o: nat, h: Header)
    requires o + 7 <= |mem| && mem[o..o + 7] == EncodeHeader(h)
    ensures mem[o] == h.packetType && mem[o + 1] == h.packetSubType
    ensures mem[o + 2] == h.versionMajor && mem[o + 3] == h.versionMinor && mem[o + 4] == h.gameProductId
    ensures 0x100 * mem[o + 5] as int + mem[o + 6] as int == h.gameInstanceId
  {
    var s := mem[o..o + 7];
    assert s[0] == mem[o] && s[1] == mem[o + 1] && s[2] == mem[o + 2] && s[3] == mem[o + 3];
    assert s[4] == mem[o + 4] && s[5] == mem[o + 5] && s[6] == mem[o + 6];
    ByteOrder16(h.gameInstanceId);
  }

  lemma BodyPlaces(p: Packet)
    ensures var s := Encode(p);
            match p.body
            case NoBody => true
            case Comms(id) => 0x100 * s[7] as int + s[8] as int == id
            case Position(tick, position, rotation) =>
              && 0x100 * s[7] as int + s[8] as int == tick
              && s[9..17] == Be64(position) && s[17..21] == Be32(ToU32(rotation))
            case Movement(tick, position, rotation, dir) =>
              && 0x100 * s[7] as int + s[8] as int == tick
              && s[9..17] == Be64(position) && s[17..21] == Be32(ToU32(rotation)) && s[21..29] == Be64(dir)
  {
    var s := Encode(p);
    assert s[7..] == EncodeBody(p.body);
    match p.body
    case NoBody =>
    case Comms(id) => ByteOrder16(id);
    case Position(tick, position, rotation) => TickPlaces(s, tick, position, rotation);
    case Movement(tick, position, rotation, dir) =>
      assert s[7..21] == s[7..][..14] == EncodeTick(tick, position, rotation);
      TickPlaces(s, tick, position, rotation);
  }

  lemma SubSlice(mem: seq<byte>, a: nat, b: nat, i: nat, j: nat)
    requires a <= b <= |mem| && i <= j <= b - a
    ensures mem[a..b][i..j] == mem[a + i..a + j]
  {
    assert forall k :: 0 <= k < j - i ==> mem[a..b][i..j][k] == mem[a + i..a + j][k];
  }

  lemma TickPlaces(s: seq<byte>, tick: U16, position: U64, rotation: S32)
    requires |s| >= 21 && s[7..21] == EncodeTick(tick, position, rotation)
    ensures 0x100 * s[7] as int + s[8] as int == tick
    ensures s[9..17] == Be64(position) && s[17..21] == Be32(ToU32(rotation))
  {
    var t := s[7..21];
    ByteOrder16(tick);
    assert s[7] == t[0] && s[8] == t[1];
    SubSlice(s, 7, 21, 2, 10);
    SubSlice(s, 7, 21, 10, 14);
    assert t[2..10] == Be64(position) && t[10..14] == Be32(ToU32(rotation));
  }

  function DecodeHeader(s: seq<byte>): Header
    requires |s| >= 7
  {
    Header(s[0], s[1], s[2], s[3], s[4], FromBe16(s[5..7]))
  }

  function DecodeBody(c: PacketClass, s: seq<byte>): (b: Body)
    requires |s| == c.PayloadLength() - 7
  {
    match c
    case BaseClass => NoBody
    case ConnectionCommsClass => Comms(FromBe16(s))
    case PositionClass => Position(FromBe16(s[..2]), FromBe64(s[2..10]), ToS32(FromBe32(s[10..14])))
    case MovementClass =>
      Movement(FromBe16(s[..2]), FromBe64(s[2..10]), ToS32(FromBe32(s[10..14])), FromBe64(s[14..]))
  }

  function Decode(c: PacketClass, s: seq<byte>): (p: Packet)
    requires |s| == c.PayloadLength()
    ensures p.Class() == c
  {
    Packet(DecodeHeader(s), DecodeBody(c, s[7..]))
  }

  lemma HeaderRoundTrip(h: Header, s: seq<byte>)
    requires |s| >= 7
    ensures DecodeHeader(EncodeHeader(h) + s) == h
    ensures EncodeHeader(DecodeHeader(s)) == s[..7]
  {
    Decode16(h.gameInstanceId);
    Encode16(s[5..7]);
    assert (EncodeHeader(h) + s)[5..7] == Be16(h.gameInstanceId);
    assert s[..7] == [s[0], s[1], s[2], s[3], s[4]] + s[5..7];
  }

  lemma TickEncode(s: seq<byte>)
    requires |s| >= 14
    ensures EncodeTick(FromBe16(s[..2]), FromBe64(s[2..10]), ToS32(FromBe32(s[10..14]))) == s[..14]
  {
    Encode16(s[..2]);
    Encode64(s[2..10]);
    Encode32(s[10..14]);
    assert s[..14] == s[..2] + s[2..10] + s[10..14];
  }

  lemma TickDecode(tick: U16, position: U64, rotation: S32)
    ensures var t := EncodeTick(tick, position, rotation);
            FromBe16(t[..2]) == tick && FromBe64(t[2..10]) == position && ToS32(FromBe32(t[10..14])) == rotation
  {
    var t := EncodeTick(tick, position, rotation);
    Decode16(tick);
    Decode64(position);
    Decode32(ToU32(rotation));
    assert t[..2] == Be16(tick) && t[2..10] == Be64(position) && t[10..14] == Be32(ToU32(rotation));
  }

  lemma DecodeEncodeBody(b: Body, c: PacketClass)
    requires |EncodeBody(b)| == c.PayloadLength() - 7
    ensures DecodeBody(c, EncodeBody(b)) == b
  {
    var s := EncodeBody(b);
    match b
    case NoBody =>
    case Comms(id) => Decode16(id);
    case Position(tick, position, rotation) => TickDecode(tick, position, rotation);
    case Movement(tick, position, rotation, dir) =>
      var t := EncodeTick(tick, position, rotation);
      TickDecode(tick, position, rotation);
      Decode64(dir);
      assert s[..2] == t[..2] && s[2..10] == t[2..10] && s[10..14] == t[10..14] && s[14..] == Be64(dir);
  }

  lemma EncodeDecodeBody(c: PacketClass, s: seq<byte>)
    requires |s| == c.PayloadLength() - 7
    ensures EncodeBody(DecodeBody(c, s)) == s
  {
    match c
    case BaseClass =>
    case ConnectionCommsClass => Encode16(s);
    case PositionClass => TickEncode(s);
    case MovementClass => EncodeDecodeMovement(s);
  }

  lemma EncodeDecodeMovement(s: seq<byte>)
    requires |s| == 22
    ensures EncodeTick(FromBe16(s[..2]), FromBe64(s[2..10]), ToS32(FromBe32(s[10..14]))) + Be64(FromBe64(s[14..])) == s
  {
    TickEncode(s);
    Encode64(s[14..]);
    Glue(EncodeTick(FromBe16(s[..2]), FromBe64(s[2..10]), ToS32(FromBe32(s[10..14]))),
         Be64(FromBe64(s[14..])), s, 14);
  }

  lemma Glue(a: seq<byte>, b: seq<byte>, s: seq<byte>, k: nat)
    requires k <= |s| && a == s[..k] && b == s[k..]
    ensures a + b == s
  {
  }

  /** Decoding undoes encoding. */
  lemma DecodeEncode(p: Packet)
    ensures Decode(p.Class(), Encode(p)) == p
  {
    var s := Encode(p);
    HeaderRoundTrip(p.header, s);
    assert s[5..7] == (EncodeHeader(p.header) + s)[5..7];
    assert DecodeHeader(s) == DecodeHeader(EncodeHeader(p.header) + s);
    assert s[7..] == EncodeBody(p.body);
    DecodeEncodeBody(p.body, p.Class());
  }

  /** Every byte string of the length of a class is the payload of exactly the
      packet it decodes to. */
  lemma EncodeDecode(c: PacketClass, s: seq<byte>)
    requires |s| == c.PayloadLength()
    ensures Encode(Decode(c, s)) == s
  {
    HeaderRoundTrip(DecodeHeader(s), s);
    EncodeDecodeBody(c, s[7..]);
    assert s == s[..7] + s[7..];
  }

  // Frames

  const NETWORK_PROTOCOL: byte := 3

  /** The lengths on the wire; a frame adds its type byte and its length. */
  lemma Lengths(p: Packet)
    ensures |Encode(p)| == match p.body case NoBody => 7 case Comms(_) => 9 case Position(_, _, _) => 21 case Movement(_, _, _, _) => 29
    ensures |Frame(p)| == |Encode(p)| + 3
  {
  }

  /** Type byte, payload length, payload. */
  function Frame(p: Packet): (s: seq<byte>)
    ensures |s| == 3 + p.Class().PayloadLength()
  {
    [NETWORK_PROTOCOL] + Be16(|Encode(p)|) + Encode(p)
  }

  /** The type byte 3, the length of the payload, the payload, and so the pair
      that the receiver probes. */
  lemma FrameBytes(p: Packet)
    ensures var f := Frame(p);
            && f[0] == 3 && 0x100 * f[1] as int + f[2] as int == |f| - 3 && f[3..] == Encode(p)
            && (p.WellFormed() ==> Pair(f[3], f[4]) == p.Class().ClassPair())
  {
    ByteOrder16(|Encode(p)|);
    HeaderPlaces(p);
    ClassPairs();
  }

  function Frames(ps: seq<Packet>): seq<byte> {
    if ps == [] then [] else Frame(ps[0]) + Frames(ps[1..])
  }

  lemma Associate(a: seq<byte>, b: seq<byte>, c: seq<byte>)
    ensures a + (b + c) == (a + b) + c
  {
  }

  lemma {:induction false} FramesSnoc(ps: seq<Packet>, p: Packet)
    ensures Frames(ps + [p]) == Frames(ps) + Frame(p)
  {
    if ps == [] {
      assert ps + [p] == [p] && [p][1..] == [];
      assert Frames([p]) == Frame(p) + Frames([p][1..]);
    } else {
      FramesSnoc(ps[1..], p);
      assert (ps + [p])[1..] == ps[1..] + [p];
      Associate(Frame(ps[0]), Frames(ps[1..]), Frame(p));
    }
  }

  // Setting and reading the geometry of a movement packet

  predicate Settable(position: Vector3, direction: Vector3, movement: Vector3) {
    AllFitLong(position) && Rotation.AnglesFit(direction) && AllFitLong(movement)
  }

  function WithCodes(p: Packet, position: U64, rotation: S32, movementDir: U64): Packet
    requires p.body.Movement?
  {
    p.(body := p.body.(position := position, rotation := rotation, movementDir := movementDir))
  }

  function WithMovement(p: Packet, position: Vector3, direction: Vector3, movement: Vector3): Packet
    requires p.body.Movement? && Settable(position, direction, movement)
  {
    WithCodes(p, PackPosition(position), Rotation.Encode(direction), PackPosition(movement))
  }
}

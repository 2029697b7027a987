/** Packets as mutable objects. One class stands for the hierarchy: `kind` is
    the dynamic type, and the fields of the other classes go unused. */
module PacketObjects {
  import opened Serialize
  import opened Geometry
  import opened Packets
  import Rotation

  const VERSION_MAJOR: byte := 51
  const VERSION_MINOR: byte := 0

  class PacketObject {
    const kind: PacketClass
    var packetType: byte
    var packetSubType: byte
    var versionNumberMajor: byte
    var versionNumberMinor: byte
    var gameProductId: byte
    var gameInstanceId: U16
    var connectionId: U16
    var serverTick: U16
    var positionCompressed: U64
    var rotationCompressed: S32
    var movementDirCompressed: U64

    /** The default constructor of each class. A `ConnectionCommsPacket` leaves
        its connection id unset. */
    constructor (kind: PacketClass)
      ensures this.kind == kind && Value().WellFormed()
      ensures HeaderValue() == Header(kind.ClassPair().packetType, kind.ClassPair().subType,
                                      VERSION_MAJOR, VERSION_MINOR, 0, 0)
      ensures versionNumberMajor == 51 && versionNumberMinor == 0
      ensures serverTick == 0 && positionCompressed == 0 && rotationCompressed == 0 && movementDirCompressed == 0
    {
      this.kind := kind;
      packetType, packetSubType := kind.ClassPair().packetType, kind.ClassPair().subType;
      versionNumberMajor, versionNumberMinor := VERSION_MAJOR, VERSION_MINOR;
      gameProductId, gameInstanceId := 0, 0;
      serverTick, positionCompressed, rotationCompressed, movementDirCompressed := 0, 0, 0, 0;
    }

    function HeaderValue(): Header
      reads this
    {
      Header(packetType, packetSubType, versionNumberMajor, versionNumberMinor, gameProductId, gameInstanceId)
    }

    function BodyValue(): Body
      reads this
    {
      match kind
      case BaseClass => NoBody
      case ConnectionCommsClass => Comms(connectionId)
      case PositionClass => Position(serverTick, positionCompressed, rotationCompressed)
      case MovementClass => Movement(serverTick, positionCompressed, rotationCompressed, movementDirCompressed)
    }

    function Value(): (p: Packet)
      reads this
      ensures p.Class() == kind
    {
      Packet(HeaderValue(), BodyValue())
    }

    // Writing

    method BaseOut(data: array<byte>, offset: nat) returns (o: nat)
      requires offset + 7 <= data.Length
      modifies data
      ensures data[..] == Splice(old(data[..]), offset, EncodeHeader(HeaderValue())) && o == offset + 7
      ensures data[offset] == packetType && data[offset + 1] == packetSubType
      ensures data[offset + 2] == versionNumberMajor && data[offset + 3] == versionNumberMinor
      ensures data[offset + 4] == gameProductId
      ensures 0x100 * data[offset + 5] as int + data[offset + 6] as int == gameInstanceId
    {
      ghost var was := data[..];
      o := OutU8(data, offset, packetType);
      o := OutU8(data, o, packetSubType);
      o := OutU8(data, o, versionNumberMajor);
      o := OutU8(data, o, versionNumberMinor);
      o := OutU8(data, o, gameProductId);
      ghost var five := [packetType, packetSubType, versionNumberMajor, versionNumberMinor, gameProductId];
      FiveBytes(was, offset, five);
      SpliceAppend(was, offset, five, Be16(gameInstanceId));
      o := OutU16(data, o, gameInstanceId);
      assert data[..][offset..o] == EncodeHeader(HeaderValue());
      HeaderAt(data[..], offset, HeaderValue());
    }

    method TickOut(data: array<byte>, offset: nat) returns (o: nat)
      requires offset + 14 <= data.Length
      modifies data
      ensures data[..] == Splice(old(data[..]), offset, EncodeTick(serverTick, positionCompressed, rotationCompressed))
      ensures o == offset + 14
    {
      ghost var was := data[..];
      o := OutU16(data, offset, serverTick);
      SpliceAppend(was, offset, Be16(serverTick), Be64(positionCompressed));
      o := OutU64(data, o, positionCompressed);
      SpliceAppend(was, offset, Be16(serverTick) + Be64(positionCompressed), Be32(ToU32(rotationCompressed)));
      o := OutInt(data, o, rotationCompressed);
    }

    method SerializeOut(data: array<byte>, offset: nat) returns (o: nat)
      requires offset + kind.PayloadLength() <= data.Length
      modifies data
      ensures data[..] == Splice(old(data[..]), offset, Encode(Value()))
      ensures o == offset + kind.PayloadLength()
    {
      ghost var was := data[..];
      o := BaseOut(data, offset);
      SpliceAppend(was, offset, EncodeHeader(HeaderValue()), EncodeBody(BodyValue()));
      ghost var mid := data[..];
      match kind {
        case BaseClass =>
        case ConnectionCommsClass =>
          o := OutU16(data, o, connectionId);
        case PositionClass =>
          o := TickOut(data, o);
        case MovementClass =>
          o := TickOut(data, o);
          SpliceAppend(mid, offset + 7, EncodeTick(serverTick, positionCompressed, rotationCompressed),
                       Be64(movementDirCompressed));
          o := OutU64(data, o, movementDirCompressed);
      }
      assert data[..] == Splice(mid, offset + 7, EncodeBody(BodyValue()));
    }

    // Reading

    method BaseIn(data: array<byte>, offset: nat) returns (o: nat)
      requires offset + 7 <= data.Length
      modifies `packetType, `packetSubType, `versionNumberMajor, `versionNumberMinor, `gameProductId, `gameInstanceId
      ensures HeaderValue() == DecodeHeader(data[offset..offset + 7]) && o == offset + 7
      ensures packetType == data[offset] && packetSubType == data[offset + 1]
      ensures versionNumberMajor == data[offset + 2] && versionNumberMinor == data[offset + 3]
      ensures gameProductId == data[offset + 4]
      ensures gameInstanceId == 0x100 * data[offset + 5] as int + data[offset + 6] as int
    {
      packetType, o := InU8(data, offset);
      packetSubType, o := InU8(data, o);
      versionNumberMajor, o := InU8(data, o);
      versionNumberMinor, o := InU8(data, o);
      gameProductId, o := InU8(data, o);
      gameInstanceId, o := InU16(data, o);
      Decode16(gameInstanceId);
      SubSlice(data[..], offset, offset + 7, 5, 7);
      assert data[..][offset..offset + 7] == data[offset..offset + 7];
    }

    method TickIn(data: array<byte>, offset: nat) returns (o: nat)
      requires offset + 14 <= data.Length
      modifies `serverTick, `positionCompressed, `rotationCompressed
      ensures serverTick == FromBe16(data[offset..offset + 2])
      ensures positionCompressed == FromBe64(data[offset + 2..offset + 10])
      ensures rotationCompressed == ToS32(FromBe32(data[offset + 10..offset + 14]))
      ensures o == offset + 14
    {
      serverTick, o := InU16(data, offset);
      positionCompressed, o := InU64(data, o);
      rotationCompressed, o := InInt(data, o);
      Decode16(serverTick);
      Decode64(positionCompressed);
      Decode32(ToU32(rotationCompressed));
    }

    /** Every field that the class writes is read back, so nothing of a recycled
        object's former content remains. */
    method SerializeIn(data: array<byte>, offset: nat) returns (o: nat)
      requires offset + kind.PayloadLength() <= data.Length
      modifies this
      ensures Value() == Decode(kind, data[offset..offset + kind.PayloadLength()])
      ensures o == offset + kind.PayloadLength()
    {
      o := BaseIn(data, offset);
      match kind {
        case BaseClass =>
        case ConnectionCommsClass =>
          connectionId, o := InU16(data, o);
          Decode16(connectionId);
        case PositionClass =>
          o := TickIn(data, o);
        case MovementClass =>
          o := TickIn(data, o);
          movementDirCompressed, o := InU64(data, o);
          Decode64(movementDirCompressed);
      }
      PayloadSlices(data[..], offset, kind);
    }

    // Geometry

    method SetCodes(position: U64, rotation: S32, movementDir: U64)
      requires kind == MovementClass
      modifies this
      ensures Value() == WithCodes(old(Value()), position, rotation, movementDir)
      ensures positionCompressed == position && rotationCompressed == rotation && movementDirCompressed == movementDir
    {
      positionCompressed, rotationCompressed, movementDirCompressed := position, rotation, movementDir;
    }

    method SetMovement(position: Vector3, direction: Vector3, movementDir: Vector3)
      requires kind == MovementClass && Settable(position, direction, movementDir)
      modifies this
      ensures Value() == WithMovement(old(Value()), position, direction, movementDir)
      ensures positionCompressed == PackPosition(position) && movementDirCompressed == PackPosition(movementDir)
      ensures rotationCompressed == Rotation.Encode(direction)
    {
      SetCodes(PackPosition(position), Rotation.Encode(direction), PackPosition(movementDir));
    }

    method GetMovement() returns (position: Vector3, direction: Vector3, movementDir: Vector3)
      requires kind == MovementClass
      ensures position == UnpackPosition(positionCompressed) && movementDir == UnpackPosition(movementDirCompressed)
      ensures direction == Rotation.Decode(rotationCompressed)
      ensures Value().body ==
              Movement(serverTick, positionCompressed, rotationCompressed, movementDirCompressed)
    {
      position := UnpackPosition(positionCompressed);
      var x, y, z := Rotation.Unpack(Rotation.SHIPPED, rotationCompressed);
      direction := Rotation.ToDegrees(Rotation.Angles(x, y, z));
      movementDir := UnpackPosition(movementDirCompressed);
    }

    /** `WriteTo`: everything but the stored pair. */
    method WriteTo(dest: PacketObject)
      modifies dest
      ensures dest.HeaderValue() == old(HeaderValue()).(packetType := old(dest.packetType),
                                                        packetSubType := old(dest.packetSubType))
      ensures dest.versionNumberMajor == versionNumberMajor && dest.versionNumberMinor == versionNumberMinor
      ensures dest.gameProductId == gameProductId && dest.gameInstanceId == gameInstanceId
      ensures this != dest ==> dest.BodyValue() == old(dest.BodyValue()) && Value() == old(Value())
    {
      dest.gameProductId := gameProductId;
      dest.versionNumberMajor := versionNumberMajor;
      dest.versionNumberMinor := versionNumberMinor;
      dest.gameInstanceId := gameInstanceId;
    }
  }

  /** Where each field of an object stands in its payload. */
  lemma FieldPlaces(o: PacketObject, s: seq<byte>)
    requires s == Encode(o.Value())
    ensures s[0] == o.packetType && s[1] == o.packetSubType
    ensures s[2] == o.versionNumberMajor && s[3] == o.versionNumberMinor
    ensures s[4] == o.gameProductId && 0x100 * s[5] as int + s[6] as int == o.gameInstanceId
    ensures o.kind == ConnectionCommsClass ==> 0x100 * s[7] as int + s[8] as int == o.connectionId
    ensures o.kind == PositionClass || o.kind == MovementClass ==>
      && 0x100 * s[7] as int + s[8] as int == o.serverTick
      && s[9..17] == Be64(o.positionCompressed) && s[17..21] == Be32(ToU32(o.rotationCompressed))
    ensures o.kind == MovementClass ==> s[21..29] == Be64(o.movementDirCompressed)
  {
    HeaderPlaces(o.Value());
    BodyPlaces(o.Value());
  }

  lemma PayloadSlices(mem: seq<byte>, offset: nat, c: PacketClass)
    requires offset + c.PayloadLength() <= |mem|
    ensures var s := mem[offset..offset + c.PayloadLength()];
            && DecodeHeader(s) == DecodeHeader(mem[offset..offset + 7])
            && (c == ConnectionCommsClass ==> s[7..] == mem[offset + 7..offset + 9])
            && (c == PositionClass || c == MovementClass ==>
                && s[7..][..2] == mem[offset + 7..offset + 9]
                && s[7..][2..10] == mem[offset + 9..offset + 17]
                && s[7..][10..14] == mem[offset + 17..offset + 21])
            && (c == MovementClass ==> s[7..][14..] == mem[offset + 21..offset + 29])
  {
    var n := offset + c.PayloadLength();
    SubSlice(mem, offset, n, 5, 7);
    SubSlice(mem, offset, offset + 7, 5, 7);
    SubSlice(mem, offset, n, 7, n - offset);
    if c == PositionClass || c == MovementClass {
      SubSlice(mem, offset + 7, n, 0, 2);
      SubSlice(mem, offset + 7, n, 2, 10);
      SubSlice(mem, offset + 7, n, 10, 14);
      SubSlice(mem, offset + 7, n, 14, n - offset - 7);
    }
  }

  lemma FiveBytes(s: seq<byte>, o: nat, b: seq<byte>)
    requires |b| == 5 && o + 5 <= |s|
    ensures Splice(Splice(Splice(Splice(Splice(s, o, [b[0]]), o + 1, [b[1]]), o + 2, [b[2]]), o + 3, [b[3]]), o + 4, [b[4]])
            == Splice(s, o, b)
  {
    TwoBytes(s, o, [], b[0], b[..1]);
    TwoBytes(s, o, b[..1], b[1], b[..2]);
    TwoBytes(s, o, b[..2], b[2], b[..3]);
    TwoBytes(s, o, b[..3], b[3], b[..4]);
    TwoBytes(s, o, b[..4], b[4], b);
    assert Splice(s, o, []) == s;
  }

  lemma TwoBytes(s: seq<byte>, o: nat, a: seq<byte>, b: byte, c: seq<byte>)
    requires c == a + [b] && o + |c| <= |s|
    ensures Splice(Splice(s, o, a), o + |a|, [b]) == Splice(s, o, c)
  {
    SpliceAppend(s, o, a, [b]);
  }
}

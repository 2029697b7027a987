/** Primitive serialization in network byte order at a moving offset. */
module Serialize {
  import opened Bits

  type byte = x: int | 0 <= x < 0x100
  type U16 = x: int | 0 <= x < 0x1_0000
  type U32 = x: int | 0 <= x < 0x1_0000_0000
  type U64 = x: int | 0 <= x < 0x1_0000_0000_0000_0000
  type S32 = x: int | -0x8000_0000 <= x < 0x8000_0000

  // Network order: most significant byte first

  function Be16(v: U16): (s: seq<byte>)
    ensures |s| == 2
  {
    [v / 0x100, v % 0x100]
  }

  function Be32(v: U32): (s: seq<byte>)
    ensures |s| == 4
  {
    [v / 0x100 / 0x100 / 0x100, v / 0x100 / 0x100 % 0x100, v / 0x100 % 0x100, v % 0x100]
  }

  function Be64(v: U64): (s: seq<byte>)
    ensures |s| == 8
  {
    Be32(v / 0x1_0000_0000) + Be32(v % 0x1_0000_0000)
  }

  function FromBe16(s: seq<byte>): U16
    requires |s| == 2
  {
    0x100 * s[0] as int + s[1] as int
  }

  function FromBe32(s: seq<byte>): U32
    requires |s| == 4
  {
    Word(s[0], s[1], s[2], s[3])
  }

  /** Four base-256 digits, most significant first. */
  function Word(a: byte, b: byte, c: byte, d: byte): U32 {
    0x100 * (0x100 * (0x100 * a as int + b as int) + c as int) + d as int
  }

  function FromBe64(s: seq<byte>): U64
    requires |s| == 8
  {
    Join(FromBe32(s[..4]), FromBe32(s[4..]))
  }

  // The memory image of a word on a little-endian host

  function Le16(v: U16): (s: seq<byte>)
    ensures |s| == 2
  {
    [v % 0x100, v / 0x100]
  }

  function Le32(v: U32): (s: seq<byte>)
    ensures |s| == 4
  {
    [v % 0x100, v / 0x100 % 0x100, v / 0x100 / 0x100 % 0x100, v / 0x100 / 0x100 / 0x100]
  }

  function Le64(v: U64): (s: seq<byte>)
    ensures |s| == 8
  {
    Le32(v % 0x1_0000_0000) + Le32(v / 0x1_0000_0000)
  }

  function FromLe16(s: seq<byte>): U16
    requires |s| == 2
  {
    s[0] as int + 0x100 * s[1] as int
  }

  function FromLe32(s: seq<byte>): U32
    requires |s| == 4
  {
    Word(s[3], s[2], s[1], s[0])
  }

  function FromLe64(s: seq<byte>): U64
    requires |s| == 8
  {
    Join(FromLe32(s[4..]), FromLe32(s[..4]))
  }

  // Byte swaps. `htons` and `htonl` give the word whose memory image is in
  // network order; on a big-endian host every word already is.

  function Htons(little: bool, v: U16): U16 {
    if little then FromLe16(Be16(v)) else v
  }

  function Htonl(little: bool, v: U32): U32 {
    if little then FromLe32(Be32(v)) else v
  }

  /** The hand-written 64-bit swap: two 32-bit swaps with the halves exchanged. */
  function Htonll(little: bool, v: U64): nat {
    if little then
      var highPart := Htonl(true, ShrU64(v));
      var lowPart := Htonl(true, LowHalf(v));
      Or(Shl(lowPart, 32), highPart)
    else
      v
  }

  function ShrU64(v: U64): (r: U32)
    ensures r == v / 0x1_0000_0000
  {
    Pow2Values();
    ShrIs(v, 32, 0x1_0000_0000);
    Shr(v, 32)
  }

  function LowHalf(v: U64): (r: U32)
    ensures r == v % 0x1_0000_0000
  {
    Pow2Values();
    ShrIs(v, 32, 0x1_0000_0000);
    LowBits(v, 32)
  }

  /** The memory image of a word, on either kind of host. */
  function Store64(little: bool, v: U64): seq<byte> {
    if little then Le64(v) else Be64(v)
  }

  lemma Decode16(v: U16)
    ensures FromBe16(Be16(v)) == v && FromLe16(Le16(v)) == v
    ensures 0x100 * Be16(v)[0] as int + Be16(v)[1] as int == v
  {
  }

  lemma Encode16(s: seq<byte>)
    requires |s| == 2
    ensures Be16(FromBe16(s)) == s && Le16(FromLe16(s)) == s
    ensures FromBe16(s) == 0x100 * s[0] as int + s[1] as int
  {
  }

  // What the bytes are: the digits to base 256, the first one the most significant

  lemma ByteOrder16(v: U16)
    ensures 0x100 * Be16(v)[0] as int + Be16(v)[1] as int == v
    ensures Le16(v) == [Be16(v)[1], Be16(v)[0]]
  {
  }

  lemma ByteOrder32(v: U32)
    ensures var b := Be32(v);
            0x100_0000 * b[0] as int + 0x1_0000 * b[1] as int + 0x100 * b[2] as int + b[3] as int == v
    ensures Le32(v) == [Be32(v)[3], Be32(v)[2], Be32(v)[1], Be32(v)[0]]
  {
    WordOfDigits(v);
  }

  lemma ByteOrder64(v: U64)
    ensures var b := Be64(v);
            0x100_0000_0000_0000 * b[0] as int + 0x1_0000_0000_0000 * b[1] as int
            + 0x100_0000_0000 * b[2] as int + 0x1_0000_0000 * b[3] as int
            + 0x100_0000 * b[4] as int + 0x1_0000 * b[5] as int + 0x100 * b[6] as int + b[7] as int == v
    ensures forall i :: 0 <= i < 8 ==> Le64(v)[i] == Be64(v)[7 - i]
  {
    ByteOrder32(v / 0x1_0000_0000);
    ByteOrder32(v % 0x1_0000_0000);
  }

  lemma WordOfDigits(v: U32)
    ensures Word(v / 0x100 / 0x100 / 0x100, v / 0x100 / 0x100 % 0x100, v / 0x100 % 0x100, v % 0x100) == v
  {
  }

  lemma DigitsOfWord(a: byte, b: byte, c: byte, d: byte)
    ensures Be32(Word(a, b, c, d)) == [a, b, c, d]
    ensures Le32(Word(a, b, c, d)) == [d, c, b, a]
  {
    var v := Word(a, b, c, d);
    assert v / 0x100 == 0x100 * (0x100 * a as int + b as int) + c as int;
    assert v / 0x100 / 0x100 == 0x100 * a as int + b as int;
  }

  lemma Decode32(v: U32)
    ensures FromBe32(Be32(v)) == v && FromLe32(Le32(v)) == v
  {
    WordOfDigits(v);
  }

  lemma Encode32(s: seq<byte>)
    requires |s| == 4
    ensures Be32(FromBe32(s)) == s && Le32(FromLe32(s)) == s
  {
    DigitsOfWord(s[0], s[1], s[2], s[3]);
    DigitsOfWord(s[3], s[2], s[1], s[0]);
  }

  function Join(hi: U32, lo: U32): (v: U64)
    ensures v / 0x1_0000_0000 == hi && v % 0x1_0000_0000 == lo
  {
    hi * 0x1_0000_0000 + lo
  }

  lemma Decode64(v: U64)
    ensures FromBe64(Be64(v)) == v && FromLe64(Le64(v)) == v
  {
    var hi, lo := v / 0x1_0000_0000, v % 0x1_0000_0000;
    Decode32(hi);
    Decode32(lo);
    assert Be64(v)[..4] == Be32(hi) && Be64(v)[4..] == Be32(lo);
    assert Le64(v)[..4] == Le32(lo) && Le64(v)[4..] == Le32(hi);
  }

  lemma Encode64(s: seq<byte>)
    requires |s| == 8
    ensures Be64(FromBe64(s)) == s && Le64(FromLe64(s)) == s
  {
    Encode32(s[..4]);
    Encode32(s[4..]);
    assert s == s[..4] + s[4..];
  }

  /** The swapped halves do not overlap, so `|` joins them. */
  lemma HtonllHalves(v: U64)
    ensures Htonll(true, v) == Join(Htonl(true, v % 0x1_0000_0000), Htonl(true, v / 0x1_0000_0000))
  {
    Pow2Values();
    var h, l := Htonl(true, v / 0x1_0000_0000), Htonl(true, v % 0x1_0000_0000);
    OrDisjoint(l, h, 32);
    ShlIs(l, 32, 0x1_0000_0000);
  }

  /** On either kind of host, storing the swapped value puts the value in
      memory most significant byte first. */
  lemma HtonllNetworkOrder(little: bool, v: U64)
    ensures Htonll(little, v) < 0x1_0000_0000_0000_0000
    ensures Store64(little, Htonll(little, v)) == Be64(v)
  {
    if little {
      HtonllHalves(v);
      SwapStored(v / 0x1_0000_0000);
      SwapStored(v % 0x1_0000_0000);
    }
  }

  /** The same for the shorter words. */
  lemma SwapNetworkOrder(little: bool, v: U16, w: U32)
    ensures (if little then Le16(Htons(little, v)) else Be16(Htons(little, v))) == Be16(v)
    ensures (if little then Le32(Htonl(little, w)) else Be32(Htonl(little, w))) == Be32(w)
  {
    Encode16(Be16(v));
    SwapStored(w);
  }

  lemma SwapStored(v: U32)
    ensures Le32(Htonl(true, v)) == Be32(v)
  {
    Encode32(Be32(v));
  }

  /** `ntohll` is `htonll` called again. */
  lemma HtonllInvolution(little: bool, v: U64)
    ensures Htonll(little, v) < 0x1_0000_0000_0000_0000
    ensures Htonll(little, Htonll(little, v)) == v
  {
    HtonllNetworkOrder(little, v);
    if little {
      HtonllHalves(v);
      HtonllHalves(Htonll(true, v));
      ExchangeTwice(v, Htonll(true, v));
    }
  }

  lemma ExchangeTwice(v: U64, w: U64)
    requires w == Join(Htonl(true, v % 0x1_0000_0000), Htonl(true, v / 0x1_0000_0000))
    ensures Join(Htonl(true, w % 0x1_0000_0000), Htonl(true, w / 0x1_0000_0000)) == v
  {
    SwapTwice(v / 0x1_0000_0000);
    SwapTwice(v % 0x1_0000_0000);
  }

  lemma SwapTwice(v: U32)
    ensures Htonl(true, Htonl(true, v)) == v
  {
    var s := Be32(v);
    DigitsOfWord(s[3], s[2], s[1], s[0]);
    WordOfDigits(v);
  }

  // A signed 32-bit value travels as its two's-complement pattern

  function ToU32(v: S32): U32 {
    if v < 0 then v + 0x1_0000_0000 else v
  }

  function ToS32(v: U32): S32 {
    if v < 0x8000_0000 then v else v - 0x1_0000_0000
  }

  /** The pattern of a value is congruent to it, and the only one in 32 bits. */
  lemma TwosComplement(v: S32, u: U32)
    ensures ToU32(v) == v || ToU32(v) == v + 0x1_0000_0000
    ensures ToS32(u) == v <==> ToU32(v) == u
  {
  }

  // Writing into and reading from a buffer

  /** `s` with `b` written over it at `offset`. */
  function Splice(s: seq<byte>, offset: nat, b: seq<byte>): (r: seq<byte>)
    requires offset + |b| <= |s|
    ensures |r| == |s|
  {
    s[..offset] + b + s[offset + |b|..]
  }

  lemma SpliceAt(s: seq<byte>, offset: nat, b: seq<byte>, i: nat)
    requires offset + |b| <= |s| && i < |s|
    ensures Splice(s, offset, b)[i] == if offset <= i < offset + |b| then b[i - offset] else s[i]
  {
  }

  lemma SpliceAppend(s: seq<byte>, offset: nat, a: seq<byte>, b: seq<byte>)
    requires offset + |a| + |b| <= |s|
    ensures Splice(Splice(s, offset, a), offset + |a|, b) == Splice(s, offset, a + b)
  {
  }

  lemma SplicePrepend(s: seq<byte>, offset: nat, a: seq<byte>, b: seq<byte>)
    requires offset + |a| + |b| <= |s|
    ensures Splice(Splice(s, offset + |a|, b), offset, a) == Splice(s, offset, a + b)
  {
  }

  /** `memcpy` into the buffer, which is also how a machine word is stored. */
  method CopyInto(data: array<byte>, offset: nat, bytes: seq<byte>)
    requires offset + |bytes| <= data.Length
    modifies data
    ensures data[..] == Splice(old(data[..]), offset, bytes)
  {
    forall i | 0 <= i < |bytes| {
      data[offset + i] := bytes[i];
    }
  }

  method OutU8(data: array<byte>, offset: nat, value: byte) returns (offset': nat)
    requires offset + 1 <= data.Length
    modifies data
    ensures data[..] == Splice(old(data[..]), offset, [value]) && offset' == offset + 1
  {
    data[offset] := value;
    offset' := offset + 1;
  }

  method InU8(data: array<byte>, offset: nat) returns (value: byte, offset': nat)
    requires offset + 1 <= data.Length
    ensures value == data[offset] && offset' == offset + 1
  {
    value, offset' := data[offset], offset + 1;
  }

  method OutU16(data: array<byte>, offset: nat, value: U16) returns (offset': nat)
    requires offset + 2 <= data.Length
    modifies data
    ensures data[..] == Splice(old(data[..]), offset, Be16(value)) && offset' == offset + 2
    ensures 0x100 * data[offset] as int + data[offset + 1] as int == value
  {
    Encode16(Be16(value));
    CopyInto(data, offset, Le16(Htons(true, value)));
    offset' := offset + 2;
  }

  method InU16(data: array<byte>, offset: nat) returns (value: U16, offset': nat)
    requires offset + 2 <= data.Length
    ensures Be16(value) == data[offset..offset + 2] && offset' == offset + 2
    ensures value == 0x100 * data[offset] as int + data[offset + 1] as int
  {
    var image := data[offset..offset + 2];
    LoadedU16(image);
    value, offset' := Htons(true, FromLe16(image)), offset + 2;
  }

  lemma LoadedU16(image: seq<byte>)
    requires |image| == 2
    ensures Be16(Htons(true, FromLe16(image))) == image
  {
    Encode16(image);
  }

  method OutU64(data: array<byte>, offset: nat, value: U64) returns (offset': nat)
    requires offset + 8 <= data.Length
    modifies data
    ensures data[..] == Splice(old(data[..]), offset, Be64(value)) && offset' == offset + 8
  {
    HtonllNetworkOrder(true, value);
    CopyInto(data, offset, Le64(Htonll(true, value)));
    offset' := offset + 8;
  }

  method InU64(data: array<byte>, offset: nat) returns (value: U64, offset': nat)
    requires offset + 8 <= data.Length
    ensures Be64(value) == data[offset..offset + 8] && offset' == offset + 8
  {
    value, offset' := Load64(data[offset..offset + 8]), offset + 8;
  }

  /** `ntohll` of the word that a little-endian machine loads. */
  function Load64(image: seq<byte>): (v: U64)
    requires |image| == 8
    ensures Be64(v) == image
  {
    LoadedU64(image);
    var r := Htonll(true, FromLe64(image));
    assert Be64(r) == image;
    r
  }

  lemma LoadedU64(image: seq<byte>)
    requires |image| == 8
    ensures Htonll(true, FromLe64(image)) < 0x1_0000_0000_0000_0000
    ensures Be64(Htonll(true, FromLe64(image))) == image
  {
    var w := FromLe64(image);
    Encode64(image);
    HtonllInvolution(true, w);
    HtonllNetworkOrder(true, Htonll(true, w));
  }

  method OutInt(data: array<byte>, offset: nat, value: S32) returns (offset': nat)
    requires offset + 4 <= data.Length
    modifies data
    ensures data[..] == Splice(old(data[..]), offset, Be32(ToU32(value))) && offset' == offset + 4
    ensures 0x100_0000 * data[offset] as int + 0x1_0000 * data[offset + 1] as int
            + 0x100 * data[offset + 2] as int + data[offset + 3] as int
            == if value < 0 then value + 0x1_0000_0000 else value
  {
    Encode32(Be32(ToU32(value)));
    CopyInto(data, offset, Le32(Htonl(true, ToU32(value))));
    offset' := offset + 4;
  }

  method InInt(data: array<byte>, offset: nat) returns (value: S32, offset': nat)
    requires offset + 4 <= data.Length
    ensures Be32(ToU32(value)) == data[offset..offset + 4] && offset' == offset + 4
    ensures 0x100_0000 * data[offset] as int + 0x1_0000 * data[offset + 1] as int
            + 0x100 * data[offset + 2] as int + data[offset + 3] as int
            == if value < 0 then value + 0x1_0000_0000 else value
  {
    var image := data[offset..offset + 4];
    LoadedU32(image);
    value, offset' := ToS32(Htonl(true, FromLe32(image))), offset + 4;
  }

  lemma LoadedU32(image: seq<byte>)
    requires |image| == 4
    ensures Be32(Htonl(true, FromLe32(image))) == image
  {
    var w := FromLe32(image);
    Encode32(image);
    SwapTwice(w);
    Encode32(Be32(Htonl(true, w)));
  }
}

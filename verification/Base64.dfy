/** Base64 as in section 4 of RFC 4648. The bit regrouping of the iterators that
    the source takes from Boost is modelled by `SextetAt` and `OctetAt`. */
module Base64 {
  import opened Serialize
  import opened Packets

  type Sextet = x: int | 0 <= x < 64

  const PAD: byte := 0x3D

  // The alphabet

  function Char(v: Sextet): byte {
    if v < 26 then 0x41 + v
    else if v < 52 then 0x61 + (v - 26)
    else if v < 62 then 0x30 + (v - 52)
    else if v == 62 then 0x2B
    else 0x2F
  }

  /** The pad counts as zero; any other byte outside the alphabet is an error. */
  function Value(c: byte): Option<Sextet> {
    if 0x41 <= c <= 0x5A then Some(c - 0x41)
    else if 0x61 <= c <= 0x7A then Some(c - 0x61 + 26)
    else if 0x30 <= c <= 0x39 then Some(c - 0x30 + 52)
    else if c == 0x2B then Some(62)
    else if c == 0x2F then Some(63)
    else if c == PAD then Some(0)
    else None
  }

  lemma ValueOfChar(v: Sextet)
    ensures Value(Char(v)) == Some(v) && Char(v) != PAD
  {
  }

  lemma CharOfValue(c: byte)
    requires Value(c).Some?
    ensures Char(Value(c).value) == c <==> c != PAD
  {
  }

  /** Table 1 of the standard, and its pad. */
  const UPPER := "ABCDEFGHIJKLMNOPQRSTUVWXYZ"
  const LOWER := "abcdefghijklmnopqrstuvwxyz"
  const OTHERS := "0123456789+/"

  lemma CharIsOfAlphabet(v: Sextet)
    ensures Char(v) as char == (UPPER + LOWER + OTHERS)[v] && PAD as char == '='
  {
    if v < 26 { UpperChar(v); } else if v < 52 { LowerChar(v); } else { OtherChar(v); }
  }

  lemma UpperChar(v: Sextet)
    requires v < 26
    ensures UPPER[v] as int == Char(v)
  {
  }

  lemma LowerChar(v: Sextet)
    requires 26 <= v < 52
    ensures LOWER[v - 26] as int == Char(v)
  {
  }

  lemma OtherChar(v: Sextet)
    requires 52 <= v
    ensures OTHERS[v - 52] as int == Char(v)
  {
  }

  /** Exactly the characters of the alphabet and the pad have a value. */
  lemma ValueExactly(c: byte)
    ensures Value(c).Some? <==> c == PAD || exists v: Sextet :: Char(v) == c
    ensures Value(PAD) == Some(0)
  {
    if Value(c).Some? && c != PAD { CharOfValue(c); }
    if v: Sextet :| Char(v) == c { ValueOfChar(v); }
  }

  // The standard: groups of 24 bits

  function Number(a: byte, b: byte, c: byte): (n: nat)
    ensures n < 0x100_0000
  {
    a * 0x1_0000 + b * 0x100 + c
  }

  /** The four characters of 24 bits. */
  function Group(n: nat): (g: seq<byte>)
    requires n < 0x100_0000
    ensures |g| == 4
  {
    [Char(n / 0x4_0000), Char(n / 0x1000 % 64), Char(n / 64 % 64), Char(n % 64)]
  }

  /** The values of the four characters are the digits to base 64 of the number
      whose digits to base 256 are the three bytes. */
  lemma GroupDigits(a: byte, b: byte, c: byte)
    ensures var g := Group(Number(a, b, c));
            && (forall j :: 0 <= j < 4 ==> Value(g[j]).Some?)
            && (((Value(g[0]).value * 64 + Value(g[1]).value) * 64 + Value(g[2]).value) * 64 + Value(g[3]).value as int
                == (a as int * 0x100 + b as int) * 0x100 + c as int)
  {
    var n := Number(a, b, c);
    Quotients(n);
    ValueOfChar(n / 0x4_0000);
    ValueOfChar(n / 0x1000 % 64);
    ValueOfChar(n / 64 % 64);
    ValueOfChar(n % 64);
  }

  /** The last one or two bytes are filled up with zero bits, and the text with
      the pad. */
  function Rfc(src: seq<byte>): (text: seq<byte>)
    ensures |text| == TextLength(|src|)
  {
    if src == [] then []
    else if |src| == 1 then Group(Number(src[0], 0, 0))[..2] + [PAD, PAD]
    else if |src| == 2 then Group(Number(src[0], src[1], 0))[..3] + [PAD]
    else
      TextLengthShift(|src|);
      Group(Number(src[0], src[1], src[2])) + Rfc(src[3..])
  }

  function TextLength(n: nat): nat {
    (n + 2) / 3 * 4
  }

  /** The examples of section 10 of the standard, up to the first whole group. */
  lemma TestVectors()
    ensures Rfc([]) == []
    ensures Rfc(['f' as int]) == ['Z' as int, 'g' as int, '=' as int, '=' as int]
    ensures Rfc(['f' as int, 'o' as int]) == ['Z' as int, 'm' as int, '8' as int, '=' as int]
    ensures Rfc(['f' as int, 'o' as int, 'o' as int]) == ['Z' as int, 'm' as int, '9' as int, 'v' as int]
  {
    GroupOf(0x66, 0, 0, 25, 32, 0, 0);
    GroupOf(0x66, 0x6F, 0, 25, 38, 60, 0);
    GroupOf(0x66, 0x6F, 0x6F, 25, 38, 61, 47);
    assert [0x66, 0x6F, 0x6F][3..] == [];
    assert Rfc([0x66, 0x6F, 0x6F]) == Group(Number(0x66, 0x6F, 0x6F)) + Rfc([0x66, 0x6F, 0x6F][3..]);
  }

  lemma GroupOf(a: byte, b: byte, c: byte, p: Sextet, q: Sextet, r: Sextet, s: Sextet)
    requires Number(a, b, c) == ((p as int * 64 + q as int) * 64 + r as int) * 64 + s as int
    ensures Group(Number(a, b, c)) == [Char(p), Char(q), Char(r), Char(s)]
  {
    var n := Number(a, b, c);
    Digit((p as int * 64 + q as int) * 64 + r as int, s, n);
    Digit(p as int * 64 + q as int, r, n / 64);
    Digit(p, q, n / 64 / 64);
    Quotients(n);
  }

  // The iterators: the bits of a stream in other portions

  /** `src` with a zero for every byte behind it. */
  function ByteAt(src: seq<byte>, i: nat): byte {
    if i < |src| then src[i] else 0
  }

  /** The six bits at place `j` of three bytes. */
  function SixBits(j: nat, a: byte, b: byte, c: byte): Sextet
    requires j < 4
  {
    if j == 0 then a / 4
    else if j == 1 then a % 4 * 16 + b / 16
    else if j == 2 then b % 16 * 4 + c / 64
    else c % 64
  }

  /** The `k`-th six bits of a stream of bytes. */
  function SextetAt(src: seq<byte>, k: nat): Sextet {
    var q := k / 4 * 3;
    SixBits(k % 4, ByteAt(src, q), ByteAt(src, q + 1), ByteAt(src, q + 2))
  }

  /** The eight bits at place `j` of four sextets lie in two of them. */
  function EightBits(j: nat, s: Sextet, t: Sextet): byte
    requires j < 3
  {
    if j == 0 then s * 4 + t / 16
    else if j == 1 then s % 16 * 16 + t / 4
    else s % 4 * 64 + t
  }

  /** The `i`-th octet begins in this sextet and ends in the next. */
  function FirstSextet(i: nat): nat {
    i / 3 * 4 + i % 3
  }

  lemma GroupIsSextets(src: seq<byte>, j: nat)
    requires j < 4
    ensures Group(Number(ByteAt(src, 0), ByteAt(src, 1), ByteAt(src, 2)))[j] == Char(SextetAt(src, j))
  {
    Digits(ByteAt(src, 0), ByteAt(src, 1), ByteAt(src, 2));
  }

  lemma Digits(a: byte, b: byte, c: byte)
    ensures var n := Number(a, b, c);
            && n / 0x4_0000 == SixBits(0, a, b, c)
            && n / 0x1000 % 64 == SixBits(1, a, b, c)
            && n / 64 % 64 == SixBits(2, a, b, c)
            && n % 64 == SixBits(3, a, b, c)
  {
    var n := Number(a, b, c);
    var (a1, a0, b1, b0, c1, c0) := (a / 4, a % 4, b / 16, b % 16, c / 64, c % 64);
    var (h, l) := (a0 * 16 + b1, b0 * 4 + c1);
    assert n == ((a1 * 64 + h) * 64 + l) * 64 + c0;
    Digit((a1 * 64 + h) * 64 + l, c0, n);
    Digit(a1 * 64 + h, l, n / 64);
    Digit(a1, h, n / 64 / 64);
    Quotients(n);
  }

  lemma Digit(q: nat, r: nat, n: nat)
    requires n == q * 64 + r && r < 64
    ensures n / 64 == q && n % 64 == r
  {
  }

  lemma Quotients(n: nat)
    ensures n / 0x1000 == n / 64 / 64 && n / 0x4_0000 == n / 64 / 64 / 64
  {
  }

  lemma SextetShift(src: seq<byte>, k: nat)
    requires |src| >= 3 && k >= 4
    ensures SextetAt(src, k) == SextetAt(src[3..], k - 4)
  {
    assert forall i :: i >= 3 ==> ByteAt(src, i) == ByteAt(src[3..], i - 3);
  }

  /** How many characters carry bits of the source; the rest is padding. */
  function Carrying(n: nat): nat {
    if n % 3 == 0 then n / 3 * 4 else n / 3 * 4 + n % 3 + 1
  }

  lemma TextLengthShift(n: nat)
    requires n >= 3
    ensures TextLength(n) == TextLength(n - 3) + 4
  {
  }

  /** Every character of the standard's text, by place. */
  lemma {:induction false} RfcAt(src: seq<byte>, k: nat, text: seq<byte>)
    requires text == Rfc(src) && k < |text|
    ensures text[k] == if k < Carrying(|src|) then Char(SextetAt(src, k)) else PAD
    decreases |src|
  {
    if |src| <= 2 || k < 4 {
      RfcGroup(src, k);
    } else {
      CarryingShift(|src|);
      RfcAt(src[3..], k - 4, Rfc(src[3..]));
      SextetShift(src, k);
    }
  }

  lemma CarryingShift(n: nat)
    requires n >= 3
    ensures Carrying(n) == Carrying(n - 3) + 4
  {
  }

  lemma RfcGroup(src: seq<byte>, k: nat)
    requires src != [] && k < 4
    ensures |Rfc(src)| >= 4 && Rfc(src)[k] == if k < Carrying(|src|) then Char(SextetAt(src, k)) else PAD
  {
    GroupIsSextets(src, k);
    if |src| >= 3 { CarryingShift(|src|); }
  }

  lemma PaddingIsZero(src: seq<byte>, k: nat)
    requires Carrying(|src|) <= k < TextLength(|src|)
    ensures SextetAt(src, k) == 0
  {
    var q := |src| / 3;
    Place4(q, k - q * 4);
  }

  /** So every character, also the pad, stands for its six bits. */
  lemma RfcValue(src: seq<byte>, k: nat, text: seq<byte>)
    requires text == Rfc(src) && k < |text|
    ensures Value(text[k]) == Some(SextetAt(src, k))
  {
    RfcAt(src, k, text);
    if k < Carrying(|src|) { ValueOfChar(SextetAt(src, k)); } else { PaddingIsZero(src, k); }
  }

  lemma Digits16(q: nat, r: nat, w: nat)
    requires w == 4 || w == 16
    requires r < w
    ensures (q * w + r) / w == q && (q * w + r) % w == r
  {
    if w == 4 { assert (q * 4 + r) / 4 == q; } else { assert (q * 16 + r) / 16 == q; }
  }

  lemma BitsBack(j: nat, a: byte, b: byte, c: byte)
    requires j < 3
    ensures EightBits(j, SixBits(j, a, b, c), SixBits(j + 1, a, b, c)) == if j == 0 then a else if j == 1 then b else c
  {
    if j == 0 {
      Digits16(a % 4, b / 16, 16);
    } else if j == 1 {
      Digits16(a % 4, b / 16, 16);
      Digits16(b % 16, c / 64, 4);
    } else {
      Digits16(b % 16, c / 64, 4);
    }
  }

  function OctetOf(i: nat, s: Sextet, t: Sextet): byte {
    EightBits(i % 3, s, t)
  }

  /** Regrouping there and back. */
  lemma OctetBack(src: seq<byte>, i: nat)
    ensures OctetOf(i, SextetAt(src, FirstSextet(i)), SextetAt(src, FirstSextet(i) + 1)) == ByteAt(src, i)
  {
    var q, j := i / 3, i % 3;
    assert i == q * 3 + j;
    Place4(q, j);
    Place4(q, j + 1);
    BitsBack(j, ByteAt(src, q * 3), ByteAt(src, q * 3 + 1), ByteAt(src, q * 3 + 2));
  }

  lemma Place4(q: nat, j: nat)
    requires j < 4
    ensures (q * 4 + j) / 4 == q && (q * 4 + j) % 4 == j
  {
  }

  // Decoding

  /** How many characters there are before the first that is not of the alphabet. */
  function Prefix(text: seq<byte>): (v: nat)
    ensures v <= |text| && (v < |text| ==> Value(text[v]) == None)
    ensures forall k :: 0 <= k < v ==> Value(text[k]).Some?
  {
    if text == [] || Value(text[0]) == None then 0
    else
      var v := Prefix(text[1..]);
      assert forall k :: 0 < k < v + 1 ==> text[k] == text[1..][k - 1];
      v + 1
  }

  /** Whole octets in `v` sextets. */
  function Octets(v: nat): nat {
    v * 6 / 8
  }

  function DecodedAt(text: seq<byte>, i: nat): byte
    requires i < Octets(Prefix(text))
  {
    OctetOf(i, Value(text[FirstSextet(i)]).value, Value(text[FirstSextet(i) + 1]).value)
  }

  /** An octet is whole when both its sextets are there. */
  lemma WholeOctet(i: nat, v: nat)
    ensures i < Octets(v) <==> FirstSextet(i) + 1 < v
  {
  }

  /** What the code decodes, by value: as many octets as fit and are whole. */
  function DecodedLength(text: seq<byte>, limit: nat): nat {
    var whole := Octets(Prefix(text));
    if limit <= whole then limit else whole
  }

  lemma RfcPrefix(src: seq<byte>, rest: seq<byte>, text: seq<byte>)
    requires text == Rfc(src) + rest && rest != [] && Value(rest[0]) == None
    ensures Prefix(text) == |Rfc(src)|
  {
    var n := |Rfc(src)|;
    assert text[n] == rest[0];
    forall k | 0 <= k < n ensures Value(text[k]).Some? { RfcValue(src, k, Rfc(src)); }
    assert forall k :: 0 <= k < Prefix(text) ==> Value(text[k]).Some?;
  }

  lemma OctetsOfText(n: nat)
    ensures Octets(TextLength(n)) == (n + 2) / 3 * 3
  {
  }

  /** Decoding a standard text with the terminating NUL behind it: the source,
      then the zeros that filled up its last group, as far as the limit allows. */
  lemma DecodeRfc(src: seq<byte>, rest: seq<byte>, text: seq<byte>, limit: nat, n: nat)
    requires text == Rfc(src) + rest && rest != [] && Value(rest[0]) == None
    requires n == DecodedLength(text, limit)
    ensures n == if limit <= (|src| + 2) / 3 * 3 then limit else (|src| + 2) / 3 * 3
    ensures forall i :: 0 <= i < n ==> DecodedAt(text, i) == ByteAt(src, i)
  {
    RfcPrefix(src, rest, text);
    OctetsOfText(|src|);
    forall i | 0 <= i < n ensures DecodedAt(text, i) == ByteAt(src, i) { DecodeRfcAt(src, text, i); }
  }

  lemma DecodeRfcAt(src: seq<byte>, text: seq<byte>, i: nat)
    requires Rfc(src) <= text && Prefix(text) == |Rfc(src)| && i < Octets(Prefix(text))
    ensures DecodedAt(text, i) == ByteAt(src, i)
  {
    var f := FirstSextet(i);
    WholeOctet(i, Prefix(text));
    RfcValue(src, f, Rfc(src));
    RfcValue(src, f + 1, Rfc(src));
    assert text[f] == Rfc(src)[f] && text[f + 1] == Rfc(src)[f + 1];
    OctetBack(src, i);
  }

  /** With the length of the source as limit the round trip is exact: the source,
      its length, and the position of the terminating NUL. */
  lemma RoundTrip(src: seq<byte>, rest: seq<byte>, text: seq<byte>)
    requires text == Rfc(src) + rest && rest != [] && Value(rest[0]) == None
    ensures DecodedLength(text, |src|) == |src|
    ensures forall i :: 0 <= i < |src| ==> i < Octets(Prefix(text)) && DecodedAt(text, i) == src[i]
    ensures TextLength(|src|) == |Rfc(src)|
  {
    DecodeRfc(src, rest, text, |src|, DecodedLength(text, |src|));
  }

  /** The returned position is that of the first character that could not be
      converted exactly when the good ones make whole groups. */
  lemma ReturnsFirstBad(text: seq<byte>, limit: nat)
    requires limit >= Octets(Prefix(text))
    ensures TextLength(DecodedLength(text, limit)) == Prefix(text) <==> Prefix(text) % 4 == 0
  {
    EndsAfterGroup(Prefix(text));
  }

  /** Two good characters before the NUL: one octet is decoded, and the position
      returned lies two behind the NUL. */
  lemma ReturnsBehindNul()
    ensures var text := [0x51, 0x51, 0]; Prefix(text) == 2 && TextLength(DecodedLength(text, 3)) == 4
  {
    var text: seq<byte> := [0x51, 0x51, 0];
    assert text[1..] == [0x51, 0] && text[1..][1..] == [0];
    assert Prefix([0]) == 0 && Prefix([0x51, 0]) == 1;
  }

  lemma EndsAfterGroup(v: nat)
    ensures (Octets(v) + 2) / 3 * 4 == v <==> v % 4 == 0
  {
    var q, r := v / 4, v % 4;
    assert v == 4 * q + r;
    assert Octets(v) == 3 * q + r * 6 / 8;
  }

  lemma SextetBits(j: nat, p: Sextet, q: Sextet, r: Sextet, s: Sextet)
    requires j < 4
    ensures SixBits(j, EightBits(0, p, q), EightBits(1, q, r), EightBits(2, r, s)) ==
            if j == 0 then p else if j == 1 then q else if j == 2 then r else s
  {
    if j == 0 {
      Digits16(p, q / 16, 4);
    } else if j == 1 {
      Digits16(p, q / 16, 4);
      Digits16(q % 16, r / 4, 16);
    } else if j == 2 {
      Digits16(q % 16, r / 4, 16);
      assert (r % 4 * 64 + s) / 64 == r % 4;
    } else {
      assert (r % 4 * 64 + s) % 64 == s;
    }
  }

  /** The octet at `i` is that of its two sextets. */
  ghost predicate OctetHere(v: seq<Sextet>, src: seq<byte>, i: nat) {
    i < |src| && FirstSextet(i) + 1 < |v| && src[i] == OctetOf(i, v[FirstSextet(i)], v[FirstSextet(i) + 1])
  }

  lemma OctetOfGroup(v: seq<Sextet>, src: seq<byte>, q: nat, j: nat, i: nat)
    requires i == 3 * q + j && OctetHere(v, src, i) && j < 3
    ensures 4 * q + j + 1 < |v| && ByteAt(src, i) == EightBits(j, v[4 * q + j], v[4 * q + j + 1])
  {
    assert i / 3 == q && i % 3 == j;
  }

  /** How the bits of the last sextet are rounded when only `r` bytes of its group
      are there: those that belong to no byte are lost. */
  function Unused(r: nat): nat {
    if r == 1 then 16 else if r == 2 then 4 else 1
  }

  function Rounded(v: Sextet, r: nat): Sextet {
    v / Unused(r) * Unused(r)
  }

  lemma GroupBack(v: seq<Sextet>, src: seq<byte>, q: nat, j: nat)
    requires forall i :: 3 * q <= i < 3 * q + 3 ==> OctetHere(v, src, i)
    requires j < 4
    ensures 4 * q + 3 < |v|
    ensures SixBits(j, ByteAt(src, 3 * q), ByteAt(src, 3 * q + 1), ByteAt(src, 3 * q + 2)) == v[4 * q + j]
  {
    OctetOfGroup(v, src, q, 0, 3 * q);
    OctetOfGroup(v, src, q, 1, 3 * q + 1);
    OctetOfGroup(v, src, q, 2, 3 * q + 2);
    SextetBits(j, v[4 * q], v[4 * q + 1], v[4 * q + 2], v[4 * q + 3]);
  }

  lemma OneByteBack(v: seq<Sextet>, src: seq<byte>, q: nat, j: nat)
    requires |src| == 3 * q + 1 && OctetHere(v, src, 3 * q) && j < 2
    ensures 4 * q + 1 < |v|
    ensures SixBits(j, ByteAt(src, 3 * q), 0, 0) == if j == 1 then Rounded(v[4 * q + 1], 1) else v[4 * q]
  {
    OctetOfGroup(v, src, q, 0, 3 * q);
    var t := Rounded(v[4 * q + 1], 1);
    Digits16(v[4 * q + 1] / 16, 0, 16);
    assert EightBits(0, v[4 * q], t) == EightBits(0, v[4 * q], v[4 * q + 1]);
    assert EightBits(1, t, 0) == 0 && EightBits(2, 0, 0) == 0;
    SextetBits(j, v[4 * q], t, 0, 0);
  }

  lemma TwoBytesBack(v: seq<Sextet>, src: seq<byte>, q: nat, j: nat)
    requires |src| == 3 * q + 2 && OctetHere(v, src, 3 * q) && OctetHere(v, src, 3 * q + 1) && j < 3
    ensures 4 * q + 2 < |v|
    ensures SixBits(j, ByteAt(src, 3 * q), ByteAt(src, 3 * q + 1), 0) ==
            if j == 2 then Rounded(v[4 * q + 2], 2) else v[4 * q + j]
  {
    OctetOfGroup(v, src, q, 0, 3 * q);
    OctetOfGroup(v, src, q, 1, 3 * q + 1);
    var t := Rounded(v[4 * q + 2], 2);
    Digits16(v[4 * q + 2] / 4, 0, 4);
    assert EightBits(1, v[4 * q + 1], t) == EightBits(1, v[4 * q + 1], v[4 * q + 2]);
    assert EightBits(2, t, 0) == 0;
    SextetBits(j, v[4 * q], v[4 * q + 1], t, 0);
  }

  /** Regrouping the octets of sextets: the same sextets, but for the unused bits
      of the last one. */
  lemma SextetBack(v: seq<Sextet>, src: seq<byte>, k: nat, q: nat, j: nat)
    requires forall i :: 0 <= i < |src| ==> OctetHere(v, src, i)
    requires k == 4 * q + j && j < 4 && k < Carrying(|src|)
    ensures k < |v|
    ensures SextetAt(src, k) == if k == Carrying(|src|) - 1 then Rounded(v[k], |src| % 3) else v[k]
  {
    Place4(q, j);
    Lengths(|src|, |src| / 3, |src| % 3);
    if q < |src| / 3 {
      GroupBack(v, src, q, j);
    } else if |src| % 3 == 1 {
      OneByteBack(v, src, q, j);
    } else {
      TwoBytesBack(v, src, q, j);
    }
  }

  /** A text that encoding can give for `n` bytes: of the right length, padded
      just behind the characters that carry bits, and without a bit where no byte
      is. */
  ghost predicate Canonical(text: seq<byte>, n: nat) {
    |text| == TextLength(n) && forall k :: 0 <= k < |text| ==> CanonicalAt(text, n, k)
  }

  ghost predicate CanonicalAt(text: seq<byte>, n: nat, k: nat)
    requires k < |text|
  {
    if k < Carrying(n) then
      text[k] != PAD && Value(text[k]).Some?
      && (k == Carrying(n) - 1 ==> Value(text[k]).value % Unused(n % 3) == 0)
    else text[k] == PAD
  }

  lemma CharIs(c: byte, v: Sextet, x: Sextet)
    requires Value(c) == Some(v)
    ensures Char(x) == c <==> c != PAD && x == v
  {
    ValueOfChar(x);
    CharOfValue(c);
  }

  lemma RoundedIsSame(v: Sextet, r: nat)
    ensures Rounded(v, r) == v <==> v % Unused(r) == 0
  {
  }

  /** One character of the text encoded from what was decoded. */
  lemma CharBack(text: seq<byte>, v: seq<Sextet>, src: seq<byte>, k: nat)
    requires |v| == |text| && forall i :: 0 <= i < |v| ==> Value(text[i]) == Some(v[i])
    requires forall i :: 0 <= i < |src| ==> OctetHere(v, src, i)
    requires k < |text| == TextLength(|src|)
    ensures Rfc(src)[k] == text[k] <==> CanonicalAt(text, |src|, k)
  {
    RfcAt(src, k, Rfc(src));
    if k < Carrying(|src|) {
      SextetBack(v, src, k, k / 4, k % 4);
      CharIs(text[k], v[k], SextetAt(src, k));
      RoundedIsSame(v[k], |src| % 3);
    }
  }

  lemma EncodingBack(text: seq<byte>, v: seq<Sextet>, src: seq<byte>, n: nat)
    requires |v| == |text| && forall i :: 0 <= i < |v| ==> Value(text[i]) == Some(v[i])
    requires n == |src| && forall i :: 0 <= i < n ==> OctetHere(v, src, i)
    ensures Rfc(src) == text <==> Canonical(text, n)
  {
    if |text| == TextLength(n) {
      forall k | 0 <= k < |text| ensures Rfc(src)[k] == text[k] <==> CanonicalAt(text, n, k) {
        CharBack(text, v, src, k);
      }
      SameText(Rfc(src), text, n);
    }
  }

  lemma SameText(a: seq<byte>, text: seq<byte>, n: nat)
    requires |a| == |text| == TextLength(n)
    requires forall k :: 0 <= k < |text| ==> (a[k] == text[k] <==> CanonicalAt(text, n, k))
    ensures a == text <==> Canonical(text, n)
  {
    if a != text {
      var k :| 0 <= k < |text| && a[k] != text[k];
      assert !CanonicalAt(text, n, k);
    }
  }

  /** Encoding the bytes that the code decodes gives the good characters of the
      text again if and only if these are the canonical text of so many bytes. */
  lemma DecodeThenEncode(text: seq<byte>, good: seq<byte>, src: seq<byte>)
    requires good == text[..Prefix(text)]
    requires |src| <= Octets(|good|) && forall i :: 0 <= i < |src| ==> src[i] == DecodedAt(text, i)
    ensures Rfc(src) == good <==> Canonical(good, |src|)
  {
    var v := seq(|good|, k requires 0 <= k < |good| => Value(text[k]).value);
    forall i | 0 <= i < |src| ensures OctetHere(v, src, i) { WholeOctet(i, |good|); }
    EncodingBack(good, v, src, |src|);
  }

  // The two functions

  /** The sextets of `part`, which is what `src` holds from three quarters of `at`
      on, as characters from `at` on. */
  method EncodeGroups(dest: array<byte>, part: seq<byte>, at: nat, n: nat, ghost src: seq<byte>)
    requires at % 4 == 0 && n == |part| / 3 * 4 && |part| % 3 == 0 && at + n <= dest.Length
    requires forall i :: 0 <= i < |part| ==> part[i] == ByteAt(src, at / 4 * 3 + i)
    modifies dest
    ensures forall k :: at <= k < at + n ==> dest[k] == Char(SextetAt(src, k))
    ensures forall k :: 0 <= k < dest.Length && !(at <= k < at + n) ==> dest[k] == old(dest[k])
  {
    for k := 0 to n
      invariant forall i :: at <= i < at + k ==> dest[i] == Char(SextetAt(src, i))
      invariant forall i :: 0 <= i < dest.Length && !(at <= i < at + k) ==> dest[i] == old(dest[i])
    {
      SextetOfPart(part, at, k, src);
      dest[at + k] := Char(SextetAt(part, k));
    }
  }

  lemma SextetOfPart(part: seq<byte>, at: nat, k: nat, src: seq<byte>)
    requires at % 4 == 0 && k < |part| / 3 * 4 && |part| % 3 == 0
    requires forall i :: 0 <= i < |part| ==> part[i] == ByteAt(src, at / 4 * 3 + i)
    ensures SextetAt(part, k) == SextetAt(src, at + k)
  {
    var p, q := at / 4, k / 4;
    assert at + k == (p + q) * 4 + k % 4;
    Place4(p + q, k % 4);
    assert part[q * 3] == ByteAt(src, p * 3 + q * 3);
    assert part[q * 3 + 1] == ByteAt(src, p * 3 + (q * 3 + 1));
    assert part[q * 3 + 2] == ByteAt(src, p * 3 + (q * 3 + 2));
  }

  /** The character at each place of the text. */
  function TextAt(src: seq<byte>, k: nat): byte {
    if k < Carrying(|src|) then Char(SextetAt(src, k)) else PAD
  }

  /** The last one or two bytes, filled up with zeros, and the pads behind them. */
  method EncodeTail(dest: array<byte>, src: seq<byte>, oneThird: nat, r: nat) returns (i: nat)
    requires |src| == oneThird * 3 + r && 0 < r < 3 && oneThird * 4 + 4 <= dest.Length
    modifies dest
    ensures i == oneThird * 4 + 4
    ensures forall k :: oneThird * 4 <= k < i ==> dest[k] == TextAt(src, k)
    ensures forall k :: 0 <= k < dest.Length && !(oneThird * 4 <= k < i) ==> dest[k] == old(dest[k])
  {
    var j := oneThird * 4;
    var tail := src[oneThird * 3..] + if r == 1 then [0, 0] else [0];
    EncodeGroups(dest, tail, j, 4, src);
    i := |src| + oneThird + 1;
    assert i == Carrying(|src|);
    while i < j + 4
      invariant Carrying(|src|) <= i <= j + 4
      invariant forall k :: j <= k < i ==> dest[k] == TextAt(src, k)
      invariant forall k :: 0 <= k < dest.Length && !(j <= k < j + 4) ==> dest[k] == old(dest[k])
    {
      dest[i] := PAD;
      i := i + 1;
    }
  }

  method Encode(dest: array<byte>, src: seq<byte>) returns (length: nat)
    requires TextLength(|src|) < 0x1_0000_0000 && TextLength(|src|) <= dest.Length
    modifies dest
    ensures length == TextLength(|src|)
    ensures dest[..] == Splice(old(dest[..]), 0, Rfc(src))
  {
    ghost var was := dest[..];
    var oneThird := |src| / 3;
    var lenRoundedDown := oneThird * 3;
    Lengths(|src|, oneThird, |src| - lenRoundedDown);
    EncodeGroups(dest, src[..lenRoundedDown], 0, oneThird * 4, src);
    if lenRoundedDown != |src| {
      length := EncodeTail(dest, src, oneThird, |src| - lenRoundedDown);
    } else {
      length := lenRoundedDown + oneThird;
    }
    IsText(was, src, dest[..], length, Rfc(src));
  }

  lemma Lengths(n: nat, q: nat, r: nat)
    requires n == q * 3 + r && r < 3
    ensures TextLength(n) == if r == 0 then q * 4 else q * 4 + 4
    ensures Carrying(n) == if r == 0 then q * 4 else q * 4 + r + 1
  {
  }

  lemma IsText(was: seq<byte>, src: seq<byte>, now: seq<byte>, n: nat, text: seq<byte>)
    requires text == Rfc(src) && n == |text| <= |was| == |now|
    requires forall k :: 0 <= k < n ==> now[k] == TextAt(src, k)
    requires forall k :: n <= k < |was| ==> now[k] == was[k]
    ensures now == Splice(was, 0, text)
  {
    forall k | 0 <= k < n ensures now[k] == text[k] { RfcAt(src, k, text); }
    assert now[..n] == text && now[n..] == was[n..];
  }

  /** The source must end in a character that is not of the alphabet, as the
      terminating NUL is. An exception in mid-octet leaves the loop. */
  method Decode(dest: array<byte>, src: seq<byte>, len: nat) returns (len': nat, end: nat)
    requires Prefix(src) < |src| && DecodedLength(src, len) <= dest.Length
    modifies dest
    ensures len' == DecodedLength(src, len) && end == TextLength(len')
    ensures forall i :: 0 <= i < len' ==> dest[i] == DecodedAt(src, i)
    ensures forall i :: len' <= i < dest.Length ==> dest[i] == old(dest[i])
  {
    var i := 0;
    while i < len
      invariant i <= DecodedLength(src, len)
      invariant forall k :: 0 <= k < i ==> dest[k] == DecodedAt(src, k)
      invariant forall k :: i <= k < dest.Length ==> dest[k] == old(dest[k])
    {
      var octet := NextOctet(src, i);
      if octet == None {
        break;
      }
      dest[i] := octet.value;
      i := i + 1;
    }
    len' := i;
    end := (i + 2) / 3 * 4;
  }

  /** `*src_it`: the sextets that were not read before are converted first. */
  method NextOctet(src: seq<byte>, i: nat) returns (r: Option<byte>)
    requires i <= Octets(Prefix(src)) && Prefix(src) < |src|
    ensures r == if i < Octets(Prefix(src)) then Some(DecodedAt(src, i)) else None
  {
    var f := FirstSextet(i);
    FirstIsRead(i, Prefix(src));
    WholeOctet(i, Prefix(src));
    if i % 3 == 0 && Value(src[f]) == None {
      return None;
    }
    if Value(src[f + 1]) == None {
      return None;
    }
    r := Some(OctetOf(i, Value(src[f]).value, Value(src[f + 1]).value));
  }

  lemma FirstIsRead(i: nat, v: nat)
    requires i <= Octets(v)
    ensures FirstSextet(i) <= v && (i % 3 != 0 ==> FirstSextet(i) < v)
  {
  }
}

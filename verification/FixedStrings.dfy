/** Strings in a character buffer of fixed capacity: one class pads on the wire,
    the other sends its length. */
module FixedStrings {
  import opened Serialize
  import opened Packets
  import opened CommonTypes

  function Zeros(n: nat): (z: seq<byte>)
    ensures |z| == n
  {
    seq(n, _ => 0)
  }

  /** What `strncpy` writes: the string, and zeros up to the count. */
  function Padded(s: Text, n: nat): (b: seq<byte>)
    requires |s| <= n
    ensures |b| == n
  {
    s + Zeros(n - |s|)
  }

  lemma PaddedAt(s: Text, n: nat, i: nat)
    requires |s| <= n && i < n
    ensures Padded(s, n)[i] == if i < |s| then s[i] else 0
  {
  }

  function First(s: Text, n: nat): (t: Text)
    ensures t <= s && |t| == if |s| <= n then |s| else n
  {
    if |s| <= n then s else s[..n]
  }

  /** What `strncpy` reads: up to the first NUL, but no more than the count. A
      region that has its NUL before may be shorter than the count. */
  predicate Readable(b: Text, n: nat) {
    n <= |b| || 0 in b
  }

  lemma PaddedString(s: Text, n: nat, rest: Text)
    requires |s| <= n && 0 !in s
    ensures First(CString(Padded(s, n) + rest), n) == s
  {
    if |s| < n {
      CStringIs(s, Zeros(n - |s|) + rest);
      assert Padded(s, n) + rest == s + (Zeros(n - |s|) + rest);
    } else {
      CStringPrefix(s, rest);
      assert Padded(s, n) + rest == s + rest;
    }
  }

  lemma {:induction false} CStringPrefix(s: Text, rest: Text)
    requires 0 !in s
    ensures s <= CString(s + rest)
    decreases s
  {
    if s != [] {
      CStringPrefix(s[1..], rest);
      assert (s + rest)[1..] == s[1..] + rest;
    }
  }

  /** After `n` characters without a NUL, or at one, the string that is read is known. */
  lemma ReadSoFar(b: Text, i: nat, n: nat)
    requires i <= |b| && i <= n && 0 !in b[..i]
    requires i == n || (i < |b| && b[i] == 0)
    ensures First(CString(b), n) == b[..i]
  {
    assert b == b[..i] + b[i..];
    if i == n { CStringPrefix(b[..i], b[i..]); } else { CStringIs(b[..i], b[i..]); }
  }

  /** A terminator behind the copy ends it, wherever the padding begins. */
  lemma TerminatedBuffer(copied: seq<byte>, now: seq<byte>, was: seq<byte>, s: Text, n: nat)
    requires |s| <= n && 0 !in s && |was| == n + 1
    requires copied == Splice(was, 0, Padded(s, n)) && now == copied[n := 0]
    ensures CString(now) == s
  {
    CStringIs(s, Zeros(n - |s|) + [0]);
    assert now == s + (Zeros(n - |s|) + [0]);
  }

  /** `strncpy`, from a buffer at `from` into a buffer at `at`. */
  method CopyString(dst: array<byte>, at: nat, src: array<byte>, from: nat, n: nat, ghost s: Text)
    requires dst != src && at + n <= dst.Length && from <= src.Length && Readable(src[from..], n)
    requires s == First(CString(src[from..]), n)
    modifies dst
    ensures dst[..] == Splice(old(dst[..]), at, Padded(s, n))
  {
    SpliceAppend(dst[..], at, s, Zeros(n - |s|));
    var i := CopyCharacters(dst, at, src, from, n, s);
    FillZeros(dst, at + i, n - i);
  }

  method CopyCharacters(dst: array<byte>, at: nat, src: array<byte>, from: nat, n: nat, ghost s: Text)
    returns (i: nat)
    requires dst != src && at + n <= dst.Length && from <= src.Length && Readable(src[from..], n)
    requires s == First(CString(src[from..]), n)
    modifies dst
    ensures i == |s|
    ensures dst[..] == Splice(old(dst[..]), at, s)
  {
    ghost var was, bytes := dst[..], src[from..];
    i := 0;
    assert Splice(was, at, []) == was;
    while i < n && src[from + i] != 0
      invariant i <= n && i <= |bytes| && 0 !in bytes[..i] && (i < n ==> i < |bytes|)
      invariant dst[..] == Splice(was, at, bytes[..i])
    {
      OneMoreByte(was, at, bytes, i);
      StillReadable(bytes, i, n);
      dst[at + i] := src[from + i];
      i := i + 1;
    }
    ReadSoFar(bytes, i, n);
  }

  lemma StillReadable(b: Text, i: nat, n: nat)
    requires Readable(b, n) && i < |b| && i < n && 0 !in b[..i] && b[i] != 0
    ensures 0 !in b[..i + 1] && (i + 1 < n ==> i + 1 < |b|)
  {
    assert b[..i + 1] == b[..i] + [b[i]];
    if i + 1 == |b| { assert b[..i + 1] == b; }
  }

  lemma OneMoreByte(was: seq<byte>, at: nat, bytes: seq<byte>, i: nat)
    requires i < |bytes| && at + i < |was|
    ensures Splice(was, at, bytes[..i])[at + i := bytes[i]] == Splice(was, at, bytes[..i + 1])
  {
    SpliceAppend(was, at, bytes[..i], [bytes[i]]);
    assert bytes[..i] + [bytes[i]] == bytes[..i + 1];
  }

  method FillZeros(dst: array<byte>, at: nat, n: nat)
    requires at + n <= dst.Length
    modifies dst
    ensures dst[..] == Splice(old(dst[..]), at, Zeros(n))
  {
    ghost var was := dst[..];
    for i := 0 to n
      invariant dst[..] == Splice(was, at, Zeros(n)[..i])
    {
      OneMoreByte(was, at, Zeros(n), i);
      dst[at + i] := 0;
    }
  }

  /** The buffer holds a terminated string, which is what `c_str` shows. */
  ghost predicate Terminated(buffer: array<byte>)
    reads buffer
  {
    |CString(buffer[..])| < buffer.Length
  }

  method StringLength(buffer: array<byte>) returns (n: nat)
    requires Terminated(buffer)
    ensures n == |CString(buffer[..])|
  {
    var s := FromBuffer(buffer);
    n := |s|;
  }

  class FixedLengthString {
    const strLength: nat
    const buffer: array<byte>

    ghost predicate Valid()
      reads this, buffer
    {
      buffer.Length == strLength + 1 && Terminated(buffer)
    }

    ghost function Value(): Text
      reads this, buffer
    {
      CString(buffer[..])
    }

    constructor (strLength: nat)
      ensures Valid() && Value() == [] && this.strLength == strLength && fresh(buffer)
    {
      this.strLength := strLength;
      var b := new byte[strLength + 1];
      b[0] := 0;
      buffer := b;
      CStringIs([], b[..]);
      assert [] + b[..] == b[..];
    }

    method Length() returns (n: nat)
      requires Valid()
      ensures n == |Value()|
    {
      if buffer[0] == 0 {
        CStringIs([], buffer[..]);
        assert [] + buffer[..] == buffer[..];
        return 0;
      }
      n := StringLength(buffer);
    }

    /** `copy`; `None` is the null pointer. */
    method Copy(str: Option<Text>)
      requires Valid() && (str.Some? ==> 0 !in str.value)
      modifies buffer
      ensures Valid() && Value() == match str { case None => [] case Some(s) => First(s, strLength) }
    {
      var s := match str case None => [] case Some(s) => First(s, strLength);
      Put(s);
    }

    method Put(s: Text)
      requires Valid() && |s| <= strLength && 0 !in s
      modifies buffer
      ensures Valid() && Value() == s
    {
      CopyInto(buffer, 0, s + [0]);
      CStringIs(s, buffer[|s|..]);
      assert buffer[..] == s + buffer[|s|..];
    }

    method SerializeOut(data: array<byte>, offset: nat) returns (o: nat)
      requires Valid() && data != buffer && offset + strLength <= data.Length
      modifies data
      ensures data[..] == Splice(old(data[..]), offset, Padded(Value(), strLength)) && o == offset + strLength
    {
      assert buffer[0..] == buffer[..];
      CopyString(data, offset, buffer, 0, strLength, Value());
      o := offset + strLength;
    }

    /** The bytes behind the first NUL need not be there. */
    method SerializeIn(data: array<byte>, offset: nat) returns (o: nat)
      requires Valid() && data != buffer && offset <= data.Length && Readable(data[offset..], strLength)
      modifies buffer
      ensures Valid() && Value() == First(CString(data[offset..]), strLength) && o == offset + strLength
    {
      ghost var was, s := buffer[..], First(CString(data[offset..]), strLength);
      CopyString(buffer, 0, data, offset, strLength, s);
      ghost var copied := buffer[..];
      o := offset + strLength;
      Terminate(s, was, copied);
    }

    method Terminate(ghost s: Text, ghost was: seq<byte>, ghost copied: seq<byte>)
      requires buffer.Length == |was| == strLength + 1 && |s| <= strLength && 0 !in s
      requires buffer[..] == copied == Splice(was, 0, Padded(s, strLength))
      modifies buffer
      ensures Valid() && Value() == s
    {
      buffer[strLength] := 0;
      TerminatedBuffer(copied, buffer[..], was, s, strLength);
    }
  }

  /** A copy written and read back is the first characters, as many as fit. */
  lemma FixedRoundTrip(mem: seq<byte>, offset: nat, n: nat, s: Text)
    requires 0 !in s && Holds(mem, offset, Padded(First(s, n), n))
    ensures First(CString(mem[offset..]), n) == First(s, n)
  {
    var rest := FromOn(mem, offset, Padded(First(s, n), n));
    PaddedString(First(s, n), n, rest);
  }

  lemma FromOn(mem: seq<byte>, offset: nat, b: seq<byte>) returns (rest: seq<byte>)
    requires Holds(mem, offset, b)
    ensures mem[offset..] == b + rest
  {
    rest := mem[offset + |b|..];
    assert mem[offset..] == mem[offset..offset + |b|] + rest;
  }

  // The bounded class

  /** The length goes out in 16 bits, the characters all the same. */
  function BoundedOut(b: Text): (w: seq<byte>)
    ensures |w| == 2 + |b|
  {
    var size: U16 := |b| % 0x1_0000;
    Be16(size) + b
  }

  lemma BoundedBytes(b: Text)
    ensures var w := BoundedOut(b); 0x100 * w[0] as int + w[1] as int == |b| % 0x1_0000 && w[2..] == b
  {
    ByteOrder16(|b| % 0x1_0000);
  }

  /** At most as many characters as fit are read, and the offset passes over no
      more than those. */
  function BoundedIn(mem: seq<byte>, offset: nat, n: nat): Option<(Text, nat)> {
    if offset + 2 > |mem| then None
    else
      var size := FromBe16(mem[offset..offset + 2]);
      var len := if size > n then n else size;
      if offset + 2 + len > |mem| then None
      else Some((mem[offset + 2..offset + 2 + len], offset + 2 + len))
  }

  /** Characters that fit come back, and the offset with them, exactly when their
      number fits the 16 bits. */
  lemma BoundedRoundTrip(mem: seq<byte>, offset: nat, n: nat, b: Text)
    requires |b| <= n && Holds(mem, offset, BoundedOut(b))
    ensures BoundedIn(mem, offset, n) == Some((b, offset + 2 + |b|)) <==> |b| < 0x1_0000
  {
    var size: U16 := |b| % 0x1_0000;
    Decode16(size);
    HoldsParts(mem, offset, Be16(size), b);
  }

  /** Into a smaller buffer only the first characters come, and the rest stays
      unread. */
  lemma BoundedIntoSmaller(mem: seq<byte>, offset: nat, n: nat, b: Text)
    requires n < |b| < 0x1_0000 && Holds(mem, offset, BoundedOut(b))
    ensures BoundedIn(mem, offset, n) == Some((First(b, n), offset + 2 + n))
  {
    Decode16(|b|);
    HoldsParts(mem, offset, Be16(|b|), b);
    assert mem[offset + 2..offset + 2 + n] == mem[offset + 2..offset + 2 + |b|][..n];
  }

  class BoundedLengthString {
    const strLength: nat
    const buffer: array<byte>
    var mLength: nat

    ghost predicate Valid()
      reads this, buffer
    {
      buffer.Length == strLength + 1 && mLength <= strLength && buffer[mLength] == 0
    }

    ghost function Value(): Text
      requires Valid()
      reads this, buffer
    {
      buffer[..mLength]
    }

    constructor (strLength: nat)
      ensures Valid() && Value() == [] && this.strLength == strLength && fresh(buffer)
    {
      this.strLength, mLength := strLength, 0;
      var b := new byte[strLength + 1];
      b[0] := 0;
      buffer := b;
    }

    /** `length` counts up to the first NUL: that is the stored length exactly
        when the characters hold none. */
    method Length() returns (n: nat)
      requires Valid()
      ensures n == |CString(Value())|
      ensures n == mLength <==> 0 !in Value()
    {
      ghost var s := CString(buffer[..mLength]);
      CStringStops(buffer[..mLength], buffer[mLength + 1..]);
      assert buffer[..] == buffer[..mLength] + [0] + buffer[mLength + 1..];
      if buffer[0] == 0 {
        CStringIs([], buffer[..]);
        assert [] + buffer[..] == buffer[..];
        return 0;
      }
      n := StringLength(buffer);
    }

    method Copy(str: Option<Text>)
      requires Valid() && (str.Some? ==> 0 !in str.value)
      modifies this, buffer
      ensures Valid() && Value() == match str { case None => [] case Some(s) => First(s, strLength) }
    {
      match str {
        case None =>
          buffer[0] := 0;
          mLength := 0;
        case Some(s) =>
          mLength := if |s| > strLength then strLength else |s|;
          CopyInto(buffer, 0, s[..mLength]);
          buffer[mLength] := 0;
      }
    }

    method SerializeOut(data: array<byte>, offset: nat) returns (o: nat)
      requires Valid() && data != buffer && offset + 2 + mLength <= data.Length
      modifies data
      ensures data[..] == Splice(old(data[..]), offset, BoundedOut(Value())) && o == offset + 2 + mLength
    {
      ghost var was := data[..];
      var size: U16 := mLength % 0x1_0000;
      o := OutU16(data, offset, size);
      SpliceAppend(was, offset, Be16(size), buffer[..mLength]);
      if mLength > 0 {
        CopyInto(data, o, buffer[..mLength]);
        o := o + mLength;
      } else {
        assert Splice(data[..], o, []) == data[..];
      }
    }

    method SerializeIn(data: array<byte>, offset: nat) returns (o: nat)
      requires Valid() && data != buffer && BoundedIn(data[..], offset, strLength).Some?
      modifies this, buffer
      ensures Valid() && BoundedIn(data[..], offset, strLength) == Some((Value(), o))
    {
      var size;
      size, o := InU16(data, offset);
      Decode16(size);
      assert data[..][offset..offset + 2] == data[offset..offset + 2];
      mLength := size;
      if size == 0 {
        buffer[0] := 0;
        assert data[..][o..o + mLength] == [];
      } else {
        if mLength > strLength {
          mLength := strLength;
        }
        CopyInto(buffer, 0, data[o..o + mLength]);
        o := o + mLength;
        buffer[mLength] := 0;
        assert data[..][offset + 2..o] == data[offset + 2..o] == buffer[..mLength];
      }
    }
  }
}

/** Strings, string lists and tables on the wire. A string is a sequence of
    bytes; a read that would leave the memory gives `None`. */
module CommonTypes {
  import opened Serialize
  import opened Packets

  type Text = seq<byte>

  const MAX_STRING := 3072

  // One string

  /** What is left of a buffer when it is assigned to a string. */
  function CString(b: Text): (s: Text)
    ensures s <= b && 0 !in s && (s == b <==> 0 !in b)
    decreases b
  {
    if b == [] || b[0] == 0 then []
    else
      assert b == [b[0]] + b[1..];
      [b[0]] + CString(b[1..])
  }

  /** The length goes out in 16 bits, and no more than that many bytes. */
  function StringOut(s: Text): (b: seq<byte>)
    ensures |b| == 2 + |s| % 0x1_0000
  {
    var len: U16 := |s| % 0x1_0000;
    Be16(len) + s[..len]
  }

  function StringIn(mem: seq<byte>, offset: nat): Option<(Text, nat)> {
    if offset + 2 > |mem| then None
    else
      var len := FromBe16(mem[offset..offset + 2]);
      var n := if len > MAX_STRING - 1 then MAX_STRING - 1 else len;
      if offset + 2 + n > |mem| then None
      else Some((CString(mem[offset + 2..offset + 2 + n]), offset + 2 + n))
  }

  /** The strings that survive: short enough, and without a NUL. */
  predicate Good(s: Text) {
    |s| <= MAX_STRING - 1 && 0 !in s
  }

  ghost predicate Holds(mem: seq<byte>, offset: nat, bytes: seq<byte>) {
    offset + |bytes| <= |mem| && mem[offset..offset + |bytes|] == bytes
  }

  lemma HoldsParts(mem: seq<byte>, offset: nat, a: seq<byte>, b: seq<byte>)
    requires Holds(mem, offset, a + b)
    ensures Holds(mem, offset, a) && Holds(mem, offset + |a|, b)
  {
    var m := mem[offset..offset + |a + b|];
    assert m[..|a|] == a && m[|a|..] == b;
    assert mem[offset..offset + |a|] == m[..|a|];
    assert mem[offset + |a|..offset + |a| + |b|] == m[|a|..];
  }

  lemma StringBack(mem: seq<byte>, offset: nat, s: Text)
    requires Holds(mem, offset, StringOut(s))
    ensures var r := StringIn(mem, offset);
            && r.Some? && (r.value.0 == s <==> Good(s))
            && (r.value.1 == offset + |StringOut(s)| <==> |s| % 0x1_0000 < 3072)
  {
    var len: U16 := |s| % 0x1_0000;
    Decode16(len);
    HoldsParts(mem, offset, Be16(len), s[..len]);
    var n := if len > MAX_STRING - 1 then MAX_STRING - 1 else len;
    var b := mem[offset + 2..offset + 2 + n];
    assert b == s[..len][..n];
    if |s| <= MAX_STRING - 1 { assert s[..len][..n] == s; }
  }

  /** The length, most significant byte first, and the characters. */
  lemma StringBytes(s: Text)
    ensures var b := StringOut(s);
            && 0x100 * b[0] as int + b[1] as int == |s| % 0x1_0000
            && |b| == 2 + |s| % 0x1_0000 && b[2..] == s[..|s| % 0x1_0000]
  {
    ByteOrder16(|s| % 0x1_0000);
  }

  /** Whatever string was written: the first 3071 characters of what its 16-bit
      length covers are read, and of these what stands before the first NUL. */
  lemma StringCut(mem: seq<byte>, offset: nat, s: Text, n: nat)
    requires Holds(mem, offset, StringOut(s))
    requires n == if |s| % 0x1_0000 > 3071 then 3071 else |s| % 0x1_0000
    ensures StringIn(mem, offset) == Some((CString(s[..n]), offset + 2 + n))
  {
    var len: U16 := |s| % 0x1_0000;
    HoldsParts(mem, offset, Be16(len), s[..len]);
    CutRead(mem, offset, s[..len], len, n);
    assert s[..len][..n] == s[..n];
  }

  lemma CutRead(mem: seq<byte>, offset: nat, t: Text, len: U16, n: nat)
    requires Holds(mem, offset, Be16(len)) && Holds(mem, offset + 2, t) && |t| == len
    requires n == if len > 3071 then 3071 else len
    ensures StringIn(mem, offset) == Some((CString(t[..n]), offset + 2 + n))
  {
    Decode16(len);
    assert mem[offset + 2..offset + 2 + n] == mem[offset + 2..offset + 2 + len][..n];
  }

  // Several strings

  function StringsOut(ss: seq<Text>): seq<byte> {
    if ss == [] then [] else StringsOut(ss[..|ss| - 1]) + StringOut(ss[|ss| - 1])
  }

  function StringsIn(mem: seq<byte>, offset: nat, n: nat): (r: Option<(seq<Text>, nat)>)
    ensures r.Some? ==> |r.value.0| == n
  {
    if n == 0 then Some(([], offset)) else ThenString(mem, StringsIn(mem, offset, n - 1))
  }

  predicate AllGood(ss: seq<Text>) {
    forall i :: 0 <= i < |ss| ==> Good(ss[i])
  }

  lemma SameSnoc<T>(a: seq<T>, x: T, b: seq<T>, y: T)
    requires |a| == |b|
    ensures a + [x] == b + [y] <==> a == b && x == y
  {
    if a + [x] == b + [y] {
      assert (a + [x])[..|a|] == a && (b + [y])[..|b|] == b;
      assert (a + [x])[|a|] == x && (b + [y])[|b|] == y;
    }
  }

  /** One more string behind those read so far. */
  function ThenString(mem: seq<byte>, r: Option<(seq<Text>, nat)>): Option<(seq<Text>, nat)> {
    match r
    case None => None
    case Some((ss, o)) =>
      match StringIn(mem, o)
      case None => None
      case Some((s, o')) => Some((ss + [s], o'))
  }

  lemma ThenStringBack(mem: seq<byte>, r: Option<(seq<Text>, nat)>, rest: seq<Text>, s: Text, end: nat)
    requires r.Some? ==> |r.value.0| == |rest|
    requires r.Some? && r.value.0 == rest ==> r.value.1 == end
    requires Holds(mem, end, StringOut(s))
    ensures var t := ThenString(mem, r);
            && (t.Some? && t.value.0 == rest + [s] <==> r.Some? && r.value.0 == rest && Good(s))
            && (t.Some? && t.value.0 == rest + [s] ==> t.value.1 == end + |StringOut(s)|)
  {
    StringBack(mem, end, s);
    if r.Some? && StringIn(mem, r.value.1).Some? {
      SameSnoc(r.value.0, StringIn(mem, r.value.1).value.0, rest, s);
    }
  }

  lemma {:induction false} StringsBack(mem: seq<byte>, offset: nat, ss: seq<Text>)
    requires Holds(mem, offset, StringsOut(ss))
    ensures var r := StringsIn(mem, offset, |ss|);
            && (r.Some? && r.value.0 == ss <==> AllGood(ss))
            && (r.Some? && r.value.0 == ss ==> r.value.1 == offset + |StringsOut(ss)|)
  {
    if ss != [] {
      var rest, s := ss[..|ss| - 1], ss[|ss| - 1];
      HoldsParts(mem, offset, StringsOut(rest), StringOut(s));
      StringsBack(mem, offset, rest);
      ThenStringBack(mem, StringsIn(mem, offset, |rest|), rest, s, offset + |StringsOut(rest)|);
      assert ss == rest + [s];
      assert AllGood(ss) <==> AllGood(rest) && Good(s);
    }
  }

  /** One after another, in order. */
  lemma {:induction false} StringsOutJoin(ss: seq<Text>, tt: seq<Text>)
    ensures StringsOut(ss + tt) == StringsOut(ss) + StringsOut(tt)
    decreases |tt|
  {
    if tt == [] {
      assert ss + tt == ss;
    } else {
      var rest, t := tt[..|tt| - 1], tt[|tt| - 1];
      StringsOutJoin(ss, rest);
      assert (ss + tt)[..|ss + tt| - 1] == ss + rest;
      Associate(StringsOut(ss), StringsOut(rest), StringOut(t));
    }
  }

  lemma StringsOutOne(s: Text)
    ensures StringsOut([s]) == StringOut(s) && StringsOut([]) == []
  {
    assert [s][..0] == [];
  }

  // The string list

  function BucketOut(bucket: seq<Text>): seq<byte>
    requires |bucket| < 0x8000_0000
  {
    Be32(|bucket|) + StringsOut(bucket)
  }

  function CountIn(mem: seq<byte>, offset: nat): Option<S32> {
    if offset + 4 > |mem| then None else Some(ToS32(FromBe32(mem[offset..offset + 4])))
  }

  /** A count may be negative on the wire; a loop up to it does nothing. */
  function Rounds(n: int): nat {
    if n < 0 then 0 else n
  }

  /** The strings read join the ones that are there. */
  function BucketIn(mem: seq<byte>, offset: nat, bucket: seq<Text>): Option<(seq<Text>, nat)> {
    match CountIn(mem, offset)
    case None => None
    case Some(n) =>
      match StringsIn(mem, offset + 4, Rounds(n))
      case None => None
      case Some((ss, o)) => Some((bucket + ss, o))
  }

  lemma CountBack(mem: seq<byte>, offset: nat, n: nat)
    requires n < 0x8000_0000 && Holds(mem, offset, Be32(n))
    ensures CountIn(mem, offset) == Some(n)
  {
    Decode32(n);
  }

  /** The number of strings in four bytes, and the strings behind it. */
  lemma BucketBytes(ss: seq<Text>)
    requires |ss| < 0x8000_0000
    ensures BucketOut(ss)[..4] == Be32(|ss|) && BucketOut(ss)[4..] == StringsOut(ss)
  {
  }

  /** Reading a list back appends exactly its strings to whatever the target
      held, and stops behind them, if and only if every string is good. */
  lemma BucketRoundTrip(mem: seq<byte>, offset: nat, ss: seq<Text>, target: seq<Text>)
    requires |ss| < 0x8000_0000 && Holds(mem, offset, BucketOut(ss))
    ensures BucketIn(mem, offset, target) == Some((target + ss, offset + |BucketOut(ss)|)) <==> AllGood(ss)
  {
    HoldsParts(mem, offset, Be32(|ss|), StringsOut(ss));
    CountBack(mem, offset, |ss|);
    StringsBack(mem, offset + 4, ss);
    var r := StringsIn(mem, offset + 4, |ss|);
    if r.Some? {
      assert (target + r.value.0)[|target|..] == r.value.0;
      assert (target + ss)[|target|..] == ss;
    }
  }

  /** A negative count appends nothing. */
  lemma BucketOfNone(mem: seq<byte>, offset: nat, target: seq<Text>)
    requires offset + 4 <= |mem| && FromBe32(mem[offset..offset + 4]) >= 0x8000_0000
    ensures BucketIn(mem, offset, target) == Some((target, offset + 4))
  {
    assert target + [] == target;
  }

  // The table

  function RowsOut(rows: seq<seq<Text>>): seq<byte> {
    if rows == [] then [] else RowsOut(rows[..|rows| - 1]) + StringsOut(rows[|rows| - 1])
  }

  /** The width is that of the first row, so there must be one. */
  function TableOut(rows: seq<seq<Text>>): seq<byte>
    requires 0 < |rows| < 0x8000_0000 && |rows[0]| < 0x8000_0000
  {
    Be32(|rows|) + (Be32(|rows[0]|) + RowsOut(rows))
  }

  /** The numbers of rows and of columns in four bytes each, and the rows behind
      them. */
  lemma TableBytes(rows: seq<seq<Text>>)
    requires 0 < |rows| < 0x8000_0000 && |rows[0]| < 0x8000_0000
    ensures var b := TableOut(rows);
            b[..4] == Be32(|rows|) && b[4..8] == Be32(|rows[0]|) && b[8..] == RowsOut(rows)
  {
  }

  lemma {:induction false} RowsOutJoin(rows: seq<seq<Text>>, more: seq<seq<Text>>)
    ensures RowsOut(rows + more) == RowsOut(rows) + RowsOut(more)
    decreases |more|
  {
    if more == [] {
      assert rows + more == rows;
    } else {
      var rest, row := more[..|more| - 1], more[|more| - 1];
      RowsOutJoin(rows, rest);
      assert (rows + more)[..|rows + more| - 1] == rows + rest;
      Associate(RowsOut(rows), RowsOut(rest), StringsOut(row));
    }
  }

  lemma RowsOutOne(row: seq<Text>)
    ensures RowsOut([row]) == StringsOut(row) && RowsOut([]) == []
  {
    assert [row][..0] == [];
  }

  function ThenRow(mem: seq<byte>, r: Option<(seq<seq<Text>>, nat)>, columns: nat): Option<(seq<seq<Text>>, nat)> {
    match r
    case None => None
    case Some((rows, o)) =>
      match StringsIn(mem, o, columns)
      case None => None
      case Some((row, o')) => Some((rows + [row], o'))
  }

  function RowsIn(mem: seq<byte>, offset: nat, n: nat, columns: nat): (r: Option<(seq<seq<Text>>, nat)>)
    ensures r.Some? ==> |r.value.0| == n
    decreases n
  {
    if n == 0 then Some(([], offset)) else ThenRow(mem, RowsIn(mem, offset, n - 1, columns), columns)
  }

  function TableIn(mem: seq<byte>, offset: nat): Option<(seq<seq<Text>>, nat)> {
    match CountIn(mem, offset)
    case None => None
    case Some(n) =>
      match CountIn(mem, offset + 4)
      case None => None
      case Some(m) => RowsIn(mem, offset + 8, Rounds(n), Rounds(m))
  }

  predicate Rectangular(rows: seq<seq<Text>>, columns: nat) {
    forall i :: 0 <= i < |rows| ==> |rows[i]| == columns
  }

  predicate AllRowsGood(rows: seq<seq<Text>>) {
    forall i :: 0 <= i < |rows| ==> AllGood(rows[i])
  }

  /** The same of the rows before the last, and of the last. */
  predicate Fits(rows: seq<seq<Text>>, columns: nat) {
    rows == [] ||
    (Fits(rows[..|rows| - 1], columns) && |rows[|rows| - 1]| == columns && AllGood(rows[|rows| - 1]))
  }

  lemma {:induction false} FitsIs(rows: seq<seq<Text>>, columns: nat)
    ensures Fits(rows, columns) <==> Rectangular(rows, columns) && AllRowsGood(rows)
  {
    if rows != [] {
      var rest := rows[..|rows| - 1];
      FitsIs(rest, columns);
      assert forall i :: 0 <= i < |rest| ==> rest[i] == rows[i];
    }
  }

  lemma ThenRowBack(mem: seq<byte>, r: Option<(seq<seq<Text>>, nat)>, columns: nat,
                    rest: seq<seq<Text>>, row: seq<Text>, end: nat, t: Option<(seq<seq<Text>>, nat)>)
    requires r.Some? ==> |r.value.0| == |rest|
    requires r.Some? && r.value.0 == rest ==> r.value.1 == end
    requires Holds(mem, end, StringsOut(row)) && t == ThenRow(mem, r, columns)
    ensures t.Some? && t.value.0 == rest + [row] <==>
            r.Some? && r.value.0 == rest && |row| == columns && AllGood(row)
    ensures t.Some? && t.value.0 == rest + [row] ==> t.value.1 == end + |StringsOut(row)|
  {
    StringsBack(mem, end, row);
    if r.Some? && StringsIn(mem, r.value.1, columns).Some? {
      SameSnoc(r.value.0, StringsIn(mem, r.value.1, columns).value.0, rest, row);
    }
  }

  lemma {:induction false} RowsBack(mem: seq<byte>, offset: nat, rows: seq<seq<Text>>, columns: nat,
                                    r: Option<(seq<seq<Text>>, nat)>)
    requires Holds(mem, offset, RowsOut(rows)) && r == RowsIn(mem, offset, |rows|, columns)
    ensures r.Some? && r.value.0 == rows <==> Fits(rows, columns)
    ensures r.Some? && r.value.0 == rows ==> r.value.1 == offset + |RowsOut(rows)|
  {
    if rows != [] {
      var rest, row := rows[..|rows| - 1], rows[|rows| - 1];
      HoldsParts(mem, offset, RowsOut(rest), StringsOut(row));
      var before := RowsIn(mem, offset, |rest|, columns);
      RowsBack(mem, offset, rest, columns, before);
      ThenRowBack(mem, before, columns, rest, row, offset + |RowsOut(rest)|, r);
      assert rows == rest + [row];
    }
  }

  /** Reading a table back gives exactly its rows, if and only if it is
      rectangular and every string is good. */
  lemma TableRoundTrip(mem: seq<byte>, offset: nat, rows: seq<seq<Text>>)
    requires 0 < |rows| < 0x8000_0000 && |rows[0]| < 0x8000_0000
    requires Holds(mem, offset, TableOut(rows))
    ensures TableIn(mem, offset) == Some((rows, offset + |TableOut(rows)|)) <==>
            Rectangular(rows, |rows[0]|) && AllRowsGood(rows)
  {
    CountsBack(mem, offset, |rows|, |rows[0]|, RowsOut(rows));
    FitsIs(rows, |rows[0]|);
    RowsBack(mem, offset + 8, rows, |rows[0]|, TableIn(mem, offset));
  }

  lemma CountsBack(mem: seq<byte>, offset: nat, n: nat, m: nat, rest: seq<byte>)
    requires n < 0x8000_0000 && m < 0x8000_0000 && Holds(mem, offset, Be32(n) + (Be32(m) + rest))
    ensures Holds(mem, offset + 8, rest) && TableIn(mem, offset) == RowsIn(mem, offset + 8, n, m)
  {
    HoldsParts(mem, offset, Be32(n), Be32(m) + rest);
    HoldsParts(mem, offset + 4, Be32(m), rest);
    CountBack(mem, offset, n);
    CountBack(mem, offset + 4, m);
  }

  /** A negative number of rows gives the empty table. */
  lemma TableOfNone(mem: seq<byte>, offset: nat)
    requires offset + 8 <= |mem| && FromBe32(mem[offset..offset + 4]) >= 0x8000_0000
    ensures TableIn(mem, offset) == Some(([], offset + 8))
  {
  }

  // Writing and reading them

  method OutString(data: array<byte>, offset: nat, value: Text) returns (o: nat)
    requires offset + |StringOut(value)| <= data.Length
    modifies data
    ensures data[..] == Splice(old(data[..]), offset, StringOut(value)) && o == offset + |StringOut(value)|
  {
    ghost var was := data[..];
    var len: U16 := |value| % 0x1_0000;
    o := OutU16(data, offset, len);
    SpliceAppend(was, offset, Be16(len), value[..len]);
    if len == 0 {
      assert Splice(data[..], o, value[..len]) == data[..];
      return;
    }
    CopyInto(data, o, value[..len]);
    o := o + len;
  }

  lemma {:induction false} CStringIs(a: Text, b: Text)
    requires 0 !in a && (b == [] || b[0] == 0)
    ensures CString(a + b) == a
    decreases a
  {
    if a == [] {
      assert a + b == b;
    } else {
      CStringIs(a[1..], b);
      assert (a + b)[1..] == a[1..] + b;
    }
  }

  lemma {:induction false} CStringStops(a: Text, b: Text)
    ensures CString(a + [0] + b) == CString(a)
    decreases a
  {
    if a != [] && a[0] != 0 {
      CStringStops(a[1..], b);
      assert (a + [0] + b)[1..] == a[1..] + [0] + b;
    }
  }

  /** A string from a character buffer: up to the first NUL. */
  method FromBuffer(buffer: array<byte>) returns (value: Text)
    ensures value == CString(buffer[..])
  {
    var i := 0;
    while i < buffer.Length && buffer[i] != 0
      invariant i <= buffer.Length && 0 !in buffer[..i]
    {
      i := i + 1;
    }
    value := buffer[..i];
    CStringIs(buffer[..i], buffer[i..]);
    assert buffer[..i] + buffer[i..] == buffer[..];
  }

  method InString(data: array<byte>, offset: nat) returns (value: Text, o: nat)
    requires StringIn(data[..], offset).Some?
    ensures StringIn(data[..], offset) == Some((value, o))
  {
    var len;
    len, o := InU16(data, offset);
    Decode16(len);
    assert data[..][offset..offset + 2] == data[offset..offset + 2];
    if len == 0 {
      value := [];
      return;
    }
    if len > MAX_STRING - 1 {
      len := MAX_STRING - 1;
    }
    value := Copied(data, o, len);
    o := o + len;
  }

  lemma TerminatedCopy(was: seq<byte>, s: Text, now: seq<byte>)
    requires |s| < |was| && now == Splice(was, 0, s)[|s| := 0]
    ensures CString(now) == CString(s)
  {
    TerminatorBehind(was, s, now);
    CStringStops(s, was[|s| + 1..]);
  }

  lemma TerminatorBehind(was: seq<byte>, s: Text, now: seq<byte>)
    requires |s| < |was| && now == Splice(was, 0, s)[|s| := 0]
    ensures now == s + [0] + was[|s| + 1..]
  {
    assert Splice(was, 0, s) == s + was[|s|..];
  }

  method Copied(data: array<byte>, o: nat, len: nat) returns (value: Text)
    requires o + len <= data.Length && len < MAX_STRING
    ensures value == CString(data[..][o..o + len])
  {
    var buffer := new byte[MAX_STRING];
    ghost var was, s := buffer[..], data[..][o..o + len];
    CopyInto(buffer, 0, data[o..o + len]);
    buffer[len] := 0;
    TerminatedCopy(was, s, buffer[..]);
    value := FromBuffer(buffer);
  }

  lemma {:induction false} StringsPrefix(ss: seq<Text>, i: nat)
    requires i < |ss|
    ensures StringsOut(ss[..i + 1]) == StringsOut(ss[..i]) + StringOut(ss[i])
    ensures |StringsOut(ss[..i])| + |StringOut(ss[i])| <= |StringsOut(ss)|
  {
    var n := |ss| - 1;
    assert ss[..i + 1][..i] == ss[..i];
    if i < n {
      StringsPrefix(ss[..n], i);
      assert ss[..n][..i] == ss[..i];
    }
  }

  method OutStrings(data: array<byte>, offset: nat, ss: seq<Text>) returns (o: nat)
    requires offset + |StringsOut(ss)| <= data.Length
    modifies data
    ensures data[..] == Splice(old(data[..]), offset, StringsOut(ss)) && o == offset + |StringsOut(ss)|
  {
    ghost var was, done := data[..], [];
    o := offset;
    assert Splice(was, offset, []) == was;
    for i := 0 to |ss|
      invariant done == StringsOut(ss[..i]) && offset + |done| <= data.Length && o == offset + |done|
      invariant data[..] == Splice(was, offset, done)
    {
      StringsPrefix(ss, i);
      SpliceAppend(was, offset, done, StringOut(ss[i]));
      o := OutString(data, o, ss[i]);
      done := done + StringOut(ss[i]);
    }
    assert ss[..|ss|] == ss;
  }

  lemma {:induction false} StringsInPrefix(mem: seq<byte>, offset: nat, n: nat, i: nat)
    requires i <= n && StringsIn(mem, offset, n).Some?
    ensures StringsIn(mem, offset, i).Some?
  {
    if i < n { StringsInPrefix(mem, offset, n - 1, i); }
  }

  method InStrings(data: array<byte>, offset: nat, n: nat) returns (ss: seq<Text>, o: nat)
    requires StringsIn(data[..], offset, n).Some?
    ensures StringsIn(data[..], offset, n) == Some((ss, o))
  {
    ss, o := [], offset;
    for i := 0 to n
      invariant StringsIn(data[..], offset, i) == Some((ss, o))
    {
      StringsInPrefix(data[..], offset, n, i + 1);
      var temp;
      temp, o := InString(data, o);
      ss := ss + [temp];
    }
  }

  method InCount(data: array<byte>, offset: nat) returns (n: S32, o: nat)
    requires CountIn(data[..], offset).Some?
    ensures CountIn(data[..], offset) == Some(n) && o == offset + 4
  {
    n, o := InInt(data, offset);
    Decode32(ToU32(n));
    assert data[..][offset..offset + 4] == data[offset..offset + 4];
  }

  class StringBucket {
    var bucket: seq<Text>

    method SerializeOut(data: array<byte>, offset: nat) returns (o: nat)
      requires |bucket| < 0x8000_0000 && offset + |BucketOut(bucket)| <= data.Length
      modifies data
      ensures data[..] == Splice(old(data[..]), offset, BucketOut(bucket)) && o == offset + |BucketOut(bucket)|
    {
      SpliceAppend(data[..], offset, Be32(|bucket|), StringsOut(bucket));
      o := OutInt(data, offset, |bucket|);
      o := OutStrings(data, o, bucket);
    }

    method SerializeIn(data: array<byte>, offset: nat) returns (o: nat)
      requires BucketIn(data[..], offset, bucket).Some?
      modifies this
      ensures BucketIn(data[..], offset, old(bucket)) == Some((bucket, o))
    {
      var numStrings;
      numStrings, o := InCount(data, offset);
      var temp;
      temp, o := InStrings(data, o, Rounds(numStrings));
      bucket := bucket + temp;
    }
  }

  lemma {:induction false} RowsPrefix(rows: seq<seq<Text>>, i: nat)
    requires i < |rows|
    ensures RowsOut(rows[..i + 1]) == RowsOut(rows[..i]) + StringsOut(rows[i])
    ensures |RowsOut(rows[..i])| + |StringsOut(rows[i])| <= |RowsOut(rows)|
  {
    var n := |rows| - 1;
    assert rows[..i + 1][..i] == rows[..i];
    if i < n {
      RowsPrefix(rows[..n], i);
      assert rows[..n][..i] == rows[..i];
    }
  }

  lemma {:induction false} RowsInPrefix(mem: seq<byte>, offset: nat, n: nat, columns: nat, i: nat)
    requires i <= n && RowsIn(mem, offset, n, columns).Some?
    ensures RowsIn(mem, offset, i, columns).Some?
  {
    if i < n { RowsInPrefix(mem, offset, n - 1, columns, i); }
  }

  class DynamicDataBucket {
    var bucket: seq<seq<Text>>

    method SerializeOut(data: array<byte>, offset: nat) returns (o: nat)
      requires 0 < |bucket| < 0x8000_0000 && |bucket[0]| < 0x8000_0000
      requires offset + |TableOut(bucket)| <= data.Length
      modifies data
      ensures data[..] == Splice(old(data[..]), offset, TableOut(bucket)) && o == offset + |TableOut(bucket)|
    {
      ghost var was, rows := data[..], RowsOut(bucket);
      SpliceAppend(was, offset, Be32(|bucket|), Be32(|bucket[0]|) + rows);
      o := OutInt(data, offset, |bucket|);
      SpliceAppend(data[..], o, Be32(|bucket[0]|), rows);
      o := OutInt(data, o, |bucket[0]|);
      o := OutRows(data, o, bucket, rows);
    }

    static method OutRows(data: array<byte>, offset: nat, bucket: seq<seq<Text>>, ghost rows: seq<byte>) returns (o: nat)
      requires rows == RowsOut(bucket) && offset + |rows| <= data.Length
      modifies data
      ensures data[..] == Splice(old(data[..]), offset, rows) && o == offset + |rows|
    {
      ghost var was, done := data[..], [];
      o := offset;
      assert Splice(was, offset, []) == was;
      for i := 0 to |bucket|
        invariant done == RowsOut(bucket[..i]) && offset + |done| <= data.Length && o == offset + |done|
        invariant data[..] == Splice(was, offset, done)
      {
        RowsPrefix(bucket, i);
        SpliceAppend(was, offset, done, StringsOut(bucket[i]));
        o := OutStrings(data, o, bucket[i]);
        done := done + StringsOut(bucket[i]);
      }
      assert bucket[..|bucket|] == bucket;
    }

    method SerializeIn(data: array<byte>, offset: nat) returns (o: nat)
      requires TableIn(data[..], offset).Some?
      modifies this
      ensures TableIn(data[..], offset) == Some((bucket, o))
    {
      var numRows, numColumns;
      numRows, o := InCount(data, offset);
      numColumns, o := InCount(data, o);
      bucket, o := InRows(data, o, Rounds(numRows), Rounds(numColumns));
    }

    static method InRows(data: array<byte>, offset: nat, n: nat, columns: nat) returns (rows: seq<seq<Text>>, o: nat)
      requires RowsIn(data[..], offset, n, columns).Some?
      ensures RowsIn(data[..], offset, n, columns) == Some((rows, o))
    {
      rows, o := [], offset;
      for i := 0 to n
        invariant RowsIn(data[..], offset, i, columns) == Some((rows, o))
      {
        RowsInPrefix(data[..], offset, n, columns, i + 1);
        var newRow;
        newRow, o := InStrings(data, o, columns);
        rows := rows + [newRow];
      }
    }
  }
}

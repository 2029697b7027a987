/** The bounded ring that holds the free objects of a pool. */
module CircularBuffers {

  /** A bounded first-in first-out queue: a put into a full one drops the oldest. */
  function Pushed<T>(s: seq<T>, capacity: nat, x: T): (r: seq<T>)
    requires 0 < capacity && |s| <= capacity
    ensures |r| == if |s| == capacity then capacity else |s| + 1
  {
    (if |s| == capacity then s[1..] else s) + [x]
  }

  function PushedAll<T>(s: seq<T>, capacity: nat, xs: seq<T>): (r: seq<T>)
    requires 0 < capacity && |s| <= capacity
    ensures |r| <= capacity
    decreases xs
  {
    if xs == [] then s else PushedAll(Pushed(s, capacity, xs[0]), capacity, xs[1..])
  }

  /** However much is put, the newest elements up to the capacity remain, oldest first. */
  lemma {:induction false} PushedAllKeepsNewest<T>(s: seq<T>, capacity: nat, xs: seq<T>)
    requires 0 < capacity && |s| <= capacity
    ensures var all := s + xs;
            PushedAll(s, capacity, xs) == if |all| <= capacity then all else all[|all| - capacity..]
    decreases xs
  {
    if xs == [] {
      assert s + xs == s;
    } else {
      var s' := Pushed(s, capacity, xs[0]);
      PushedAllKeepsNewest(s', capacity, xs[1..]);
      if |s| < capacity {
        assert s' + xs[1..] == s + xs;
      } else {
        assert s' + xs[1..] == (s + xs)[1..];
      }
    }
  }

  /** The `n` slots from `tail` on, around the end. */
  function Window<T>(b: seq<T>, tail: nat, n: nat): (s: seq<T>)
    requires tail < |b| && n <= |b|
    ensures |s| == n
  {
    if tail + n <= |b| then b[tail..tail + n] else b[tail..] + b[..tail + n - |b|]
  }

  function Wrapped(i: nat, size: nat): nat
    requires i < 2 * size
  {
    if i < size then i else i - size
  }

  lemma WindowAt<T>(b: seq<T>, tail: nat, n: nat, k: nat)
    requires tail < |b| && k < n <= |b|
    ensures Window(b, tail, n)[k] == b[Wrapped(tail + k, |b|)]
  {
  }

  lemma WindowGrows<T>(b: seq<T>, tail: nat, n: nat, x: T)
    requires tail < |b| && n < |b|
    ensures Window(b[Wrapped(tail + n, |b|) := x], tail, n + 1) == Window(b, tail, n) + [x]
  {
    var b' := b[Wrapped(tail + n, |b|) := x];
    forall k | 0 <= k <= n ensures Window(b', tail, n + 1)[k] == (Window(b, tail, n) + [x])[k] {
      WindowAt(b', tail, n + 1, k);
      if k < n { WindowAt(b, tail, n, k); }
    }
  }

  lemma WindowShrinks<T>(b: seq<T>, tail: nat, n: nat, x: T)
    requires tail < |b| && 0 < n <= |b|
    ensures Window(b, tail, n)[0] == b[tail]
    ensures Window(b[tail := x], Wrapped(tail + 1, |b|), n - 1) == Window(b, tail, n)[1..]
  {
    var b' := b[tail := x];
    forall k | 0 <= k < n - 1 ensures Window(b', Wrapped(tail + 1, |b|), n - 1)[k] == Window(b, tail, n)[1..][k] {
      WindowAt(b', Wrapped(tail + 1, |b|), n - 1, k);
      WindowAt(b, tail, n, k + 1);
    }
  }

  /** In a full window the newest element takes the place of the oldest. */
  lemma WindowRolls<T>(b: seq<T>, tail: nat, x: T)
    requires tail < |b|
    ensures Window(b[tail := x], Wrapped(tail + 1, |b|), |b|) == Window(b, tail, |b|)[1..] + [x]
  {
    var b', next := b[tail := x], Wrapped(tail + 1, |b|);
    WindowShrinks(b, tail, |b|, x);
    WindowGrows(b', next, |b| - 1, x);
    assert Wrapped(next + (|b| - 1), |b|) == tail;
    assert b'[tail := x] == b';
  }

  class CircularBuffer<T> {
    const buf: array<T>
    const maxSize: nat
    /** What `T()` gives: the null of a shared pointer. */
    const none: T
    var head: nat
    var tail: nat
    var full: bool

    ghost predicate Valid()
      reads this
    {
      buf.Length == maxSize > 0 && head < maxSize && tail < maxSize && (full ==> head == tail)
    }

    function Size(): (n: nat)
      requires Valid()
      reads this
      ensures n <= maxSize && (n == maxSize <==> full)
    {
      if full then maxSize
      else if head >= tail then head - tail
      else maxSize + head - tail
    }

    ghost function Contents(): (s: seq<T>)
      requires Valid()
      reads this, buf
      ensures |s| == Size()
    {
      Window(buf[..], tail, Size())
    }

    /** Indices are taken modulo the size, so the source demands a positive one. */
    constructor (size: nat, none: T)
      requires size > 0
      ensures Valid() && fresh(buf) && maxSize == size && this.none == none && Contents() == []
    {
      this.none := none;
      maxSize := size;
      buf := new T[size](_ => none);
      head, tail, full := 0, 0, false;
    }

    /** `(i + 1) % max_size_` */
    method Next(i: nat) returns (j: nat)
      requires i < maxSize
      ensures j == if i + 1 == maxSize then 0 else i + 1
    {
      j := (i + 1) % maxSize;
    }

    method Put(item: T)
      requires Valid()
      modifies this, buf
      ensures Valid()
      ensures Contents() == Pushed(old(Contents()), maxSize, item)
    {
      ghost var b, t, n := buf[..], tail, Size();
      buf[head] := item;
      if full {
        WindowRolls(b, t, item);
        tail := Next(tail);
      } else {
        WindowGrows(b, t, n, item);
      }
      head := Next(head);
      full := head == tail;
    }

    method Get() returns (r: T)
      requires Valid()
      modifies this, buf
      ensures Valid()
      ensures if old(Contents()) == [] then r == none && Contents() == []
              else r == old(Contents())[0] && Contents() == old(Contents())[1..]
    {
      if Empty() {
        return none;
      }
      WindowShrinks(buf[..], tail, Size(), none);
      r := buf[tail];
      buf[tail] := none;
      full := false;
      tail := Next(tail);
    }

    method Reset()
      requires Valid()
      modifies this
      ensures Valid() && Contents() == []
    {
      head := tail;
      full := false;
    }

    predicate Empty()
      requires Valid()
      reads this, buf
      ensures Empty() <==> Contents() == []
    {
      !full && head == tail
    }
  }
}

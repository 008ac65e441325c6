/** Byte strings, big-endian integers (the "!B", "!H", "!I" and "!Q" formats of
    Python's struct module) and bytewise operations. */
module Bytes {
  import opened Bits

  type byte = x: int | 0 <= x < 256
  type bytes = seq<byte>

  datatype Option<+T> = None | Some(value: T)

  /** 256 to the power n: the first value that does not fit n bytes. */
  function Limit(n: nat): (p: nat)
    ensures p >= 1
  {
    if n == 0 then 1 else 256 * Limit(n - 1)
  }

  lemma Limits()
    ensures Limit(1) == 0x100 && Limit(2) == 0x1_0000 && Limit(4) == 0x1_0000_0000
    ensures Limit(8) == 0x1_0000_0000_0000_0000
  {
    assert Limit(2) == 256 * Limit(1);
    assert Limit(4) == 256 * Limit(3) && Limit(3) == 256 * Limit(2);
    assert Limit(8) == 256 * Limit(7) && Limit(7) == 256 * Limit(6);
    assert Limit(6) == 256 * Limit(5) && Limit(5) == 256 * Limit(4);
  }

  lemma {:induction false} LimitMonotone(m: nat, n: nat)
    requires m <= n
    ensures Limit(m) <= Limit(n)
  {
    if m < n {
      LimitMonotone(m, n - 1);
    }
  }

  /** x as n big-endian bytes. */
  function Pack(n: nat, x: nat): (b: bytes)
    requires x < Limit(n)
    ensures |b| == n
  {
    if n == 0 then [] else Pack(n - 1, x / 256) + [x % 256]
  }

  /** The number that b stands for, most significant byte first. */
  function Unpack(b: bytes): (x: nat)
    ensures x < Limit(|b|)
  {
    if b == [] then 0 else 256 * Unpack(b[..|b| - 1]) + b[|b| - 1]
  }

  lemma {:induction false} UnpackPack(n: nat, x: nat)
    requires x < Limit(n)
    ensures Unpack(Pack(n, x)) == x
  {
    if n > 0 {
      var b := Pack(n, x);
      assert b[..|b| - 1] == Pack(n - 1, x / 256);
      UnpackPack(n - 1, x / 256);
    }
  }

  lemma {:induction false} PackUnpack(b: bytes)
    ensures Pack(|b|, Unpack(b)) == b
  {
    if b != [] {
      var front := b[..|b| - 1];
      PackUnpack(front);
      assert Unpack(b) / 256 == Unpack(front) && Unpack(b) % 256 == b[|b| - 1];
      assert b == front + [b[|b| - 1]];
    }
  }

  /** The most significant byte comes first. */
  lemma {:induction false} UnpackFirst(b: bytes)
    requires b != []
    ensures Unpack(b) == b[0] * Limit(|b| - 1) + Unpack(b[1..])
  {
    if |b| > 1 {
      var front, rest := b[..|b| - 1], b[1..];
      UnpackFirst(front);
      assert rest[..|rest| - 1] == front[1..] && rest[|rest| - 1] == b[|b| - 1];
      Weigh(b[0], Limit(|b| - 2), Unpack(front[1..]), b[|b| - 1]);
    }
  }

  lemma Weigh(first: int, weight: int, rest: int, last: int)
    ensures 256 * (first * weight + rest) + last == first * (256 * weight) + (256 * rest + last)
  {
  }

  function XorByte(a: byte, b: byte): byte {
    XorBound(a, b, 8);
    Xor(a, b)
  }

  function Min(a: int, b: int): int {
    if a < b then a else b
  }

  /** bytes(a ^ b for a, b in zip(x, y)): stops at the end of the shorter one. */
  function XorBytes(x: bytes, y: bytes): (r: bytes)
    ensures |r| == Min(|x|, |y|)
  {
    if x == [] || y == [] then [] else [XorByte(x[0], y[0])] + XorBytes(x[1..], y[1..])
  }

  /** Each bit is the exclusive or of the two in its place. */
  lemma {:induction false} XorBytesBit(x: bytes, y: bytes, i: nat, j: nat)
    requires i < |x| && i < |y|
    ensures Bit(XorBytes(x, y)[i], j) <==> Bit(x[i], j) != Bit(y[i], j)
  {
    if i == 0 {
      BitXor(x[0], y[0], j);
    } else {
      XorBytesBit(x[1..], y[1..], i - 1, j);
    }
  }

  /** Combining with y once more gives x back. */
  lemma {:induction false} XorBytesCancels(x: bytes, y: bytes)
    requires |x| <= |y|
    ensures XorBytes(XorBytes(x, y), y) == x
  {
    if x != [] {
      var r := XorBytes(x, y);
      assert r[1..] == XorBytes(x[1..], y[1..]);
      XorCancels(x[0], y[0]);
      XorBytesCancels(x[1..], y[1..]);
      assert x == [x[0]] + x[1..];
    }
  }

  lemma {:induction false} XorBytesCommutes(x: bytes, y: bytes)
    ensures XorBytes(x, y) == XorBytes(y, x)
  {
    if x != [] && y != [] {
      XorCommutes(x[0], y[0]);
      XorBytesCommutes(x[1..], y[1..]);
    }
  }

  /** Python's order on byte strings. */
  predicate Less(x: bytes, y: bytes) {
    y != [] && (x == [] || x[0] < y[0] || (x[0] == y[0] && Less(x[1..], y[1..])))
  }

  /** x is a proper prefix of y, or has the smaller byte where they first differ. */
  ghost predicate Before(x: bytes, y: bytes) {
    exists n :: 0 <= n <= |x| && n < |y| && x[..n] == y[..n] && (n == |x| || x[n] < y[n])
  }

  lemma {:induction false} LessIsBefore(x: bytes, y: bytes)
    ensures Less(x, y) <==> Before(x, y)
  {
    if y == [] || x == [] || x[0] != y[0] {
      FirstByteDecides(x, y);
    } else {
      LessIsBefore(x[1..], y[1..]);
      SameFirstByte(x, y);
    }
  }

  lemma SamePrefix(x: bytes, y: bytes, n: nat)
    requires n <= |x| && n <= |y| && x[..n] == y[..n]
    ensures forall i :: 0 <= i < n ==> x[i] == y[i]
  {
    forall i | 0 <= i < n
      ensures x[i] == y[i]
    {
      assert x[i] == x[..n][i] && y[i] == y[..n][i];
    }
  }

  lemma FirstByteDecides(x: bytes, y: bytes)
    requires y == [] || x == [] || x[0] != y[0]
    ensures Before(x, y) <==> y != [] && (x == [] || x[0] < y[0])
  {
    assert x[..0] == y[..0];
    if y != [] && x != [] && Before(x, y) {
      var n :| 0 <= n <= |x| && n < |y| && x[..n] == y[..n] && (n == |x| || x[n] < y[n]);
      SamePrefix(x, y, n);
    }
  }

  lemma SameFirstByte(x: bytes, y: bytes)
    requires x != [] && y != [] && x[0] == y[0]
    ensures Before(x, y) <==> Before(x[1..], y[1..])
  {
    if Before(x, y) {
      var n :| 0 <= n <= |x| && n < |y| && x[..n] == y[..n] && (n == |x| || x[n] < y[n]);
      assert x[1..][..n - 1] == x[..n][1..] && y[1..][..n - 1] == y[..n][1..];
    }
    if Before(x[1..], y[1..]) {
      var a, b := x[1..], y[1..];
      var n :| 0 <= n <= |a| && n < |b| && a[..n] == b[..n] && (n == |a| || a[n] < b[n]);
      assert x[..n + 1] == [x[0]] + a[..n] && y[..n + 1] == [y[0]] + b[..n];
    }
  }

  /** Less is a strict total order. */
  lemma {:induction false} LessTotal(x: bytes, y: bytes)
    ensures x == y ==> !Less(x, y)
    ensures x != y ==> (Less(x, y) <==> !Less(y, x))
  {
    if x != [] && y != [] {
      LessTotal(x[1..], y[1..]);
      if x[0] == y[0] {
        assert x == [x[0]] + x[1..] && y == [y[0]] + y[1..];
      }
    }
  }

  lemma AnElement<T>(s: set<T>) returns (x: T)
    requires s != {}
    ensures x in s
  {
    x :| x in s;
  }
}

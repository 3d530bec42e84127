/**
 CRC-32 as the log computes it: a 256-entry table driven a byte at a time, checked
 against the bit-at-a-time definition of section 8 of RFC 1952, and its power to detect
 every change confined to four consecutive bytes.

 Registers are unsigned 32-bit values; exclusive or is defined on their binary digits,
 a right shift is a division. A step is linear in the register, so eight steps need only
 the low byte's eight steps, which is what the table holds; and the register after a
 string is linear in its start value and the bytes together, so two strings that differ
 in few bytes can be compared by their difference alone.
 */
module Crc {
  import opened Types

  const POLY: u32 := 0xEDB88320
  const ONES: u32 := 0xFFFF_FFFF
  const BYTE_BITS: nat := 8

  // ---------------------------------------------------------------- exclusive or

  /** Bitwise exclusive or. */
  function Xor(a: nat, b: nat): nat
    decreases a + b
  {
    if a == 0 && b == 0 then 0 else 2 * Xor(a / 2, b / 2) + if a % 2 == b % 2 then 0 else 1
  }

  /** x shifted left by k bits. */
  function Shl(x: nat, k: nat): nat {
    if k == 0 then x else 2 * Shl(x, k - 1)
  }

  lemma {:induction false} XorHalf(a: nat, b: nat)
    ensures Xor(a, b) / 2 == Xor(a / 2, b / 2)
    ensures Xor(a, b) % 2 == if a % 2 == b % 2 then 0 else 1
  {}

  lemma {:induction false} XorCommutes(a: nat, b: nat)
    ensures Xor(a, b) == Xor(b, a)
    decreases a + b
  {
    if a + b > 0 {
      XorCommutes(a / 2, b / 2);
    }
  }

  lemma {:induction false} XorAssociates(a: nat, b: nat, c: nat)
    ensures Xor(Xor(a, b), c) == Xor(a, Xor(b, c))
    decreases a + b + c
  {
    if a + b + c > 0 {
      var p, q := Xor(a, b), Xor(b, c);
      XorHalf(a, b);
      XorHalf(b, c);
      XorHalf(p, c);
      XorHalf(a, q);
      XorAssociates(a / 2, b / 2, c / 2);
    }
  }

  lemma {:induction false} XorZero(a: nat)
    ensures Xor(a, 0) == a && Xor(0, a) == a
  {
    if a > 0 {
      XorZero(a / 2);
    }
  }

  lemma {:induction false} XorSelf(a: nat)
    ensures Xor(a, a) == 0
  {
    if a > 0 {
      XorSelf(a / 2);
    }
  }

  lemma {:induction false} XorZeroOnlyIfEqual(a: nat, b: nat)
    requires Xor(a, b) == 0
    ensures a == b
    decreases a + b
  {
    if a + b > 0 {
      XorHalf(a, b);
      XorZeroOnlyIfEqual(a / 2, b / 2);
    }
  }

  lemma {:induction false} XorBound(a: nat, b: nat, k: nat)
    requires a < Shl(1, k) && b < Shl(1, k)
    ensures Xor(a, b) < Shl(1, k)
  {
    if k > 0 {
      XorHalf(a, b);
      XorBound(a / 2, b / 2, k - 1);
    }
  }

  lemma WordBound()
    ensures Shl(1, 32) == TWO_32
  {
    assert Shl(1, 8) == 256;
    assert Shl(1, 16) == 65536;
    assert Shl(1, 24) == 16777216;
  }

  lemma XorWord(a: u32, b: u32)
    ensures Xor(a, b) < TWO_32
  {
    WordBound();
    XorBound(a, b, 32);
  }

  /** (a ^ b) ^ (c ^ d) regrouped. */
  lemma XorSwap(a: nat, b: nat, c: nat, d: nat)
    ensures Xor(Xor(a, b), Xor(c, d)) == Xor(Xor(a, c), Xor(b, d))
  {
    XorAssociates(a, b, Xor(c, d));
    XorAssociates(b, c, d);
    XorCommutes(b, c);
    XorAssociates(c, b, d);
    XorAssociates(a, c, Xor(b, d));
  }

  /** Values without a common bit add. */
  lemma {:induction false} XorDisjoint(lo: nat, hi: nat, k: nat)
    requires lo < Shl(1, k)
    ensures Xor(lo, Shl(hi, k)) == lo + Shl(hi, k)
  {
    if k == 0 {
      XorZero(hi);
    } else {
      var up := Shl(hi, k - 1);
      assert Shl(hi, k) == 2 * up;
      XorHalf(lo, 2 * up);
      XorDisjoint(lo / 2, hi, k - 1);
    }
  }

  // ---------------------------------------------------------------- the register

  /** One shift of the reflected register. */
  function Step(c: nat): nat {
    if c % 2 == 1 then Xor(POLY, c / 2) else c / 2
  }

  function Steps(c: nat, k: nat): nat {
    if k == 0 then c else Step(Steps(c, k - 1))
  }

  /** The bit-at-a-time register after s, started at c. */
  function Feed(c: nat, s: seq<byte>): nat {
    if s == [] then c
    else Steps(Xor(Feed(c, s[..|s| - 1]), s[|s| - 1]), BYTE_BITS)
  }

  /**
   The CRC of s. HOLD only delays the unfolding of the register, so that proofs for which
   the CRC is any function of the bytes never see it.
   */
  const HOLD: nat := 4

  function Crc32(s: seq<byte>): u32 {
    Held(s, HOLD)
  }

  function Held(s: seq<byte>, hold: nat): u32 {
    if hold == 0 then
      FeedWord(ONES, s);
      XorWord(Feed(ONES, s), ONES);
      Xor(Feed(ONES, s), ONES)
    else Held(s, hold - 1)
  }

  lemma {:induction false} HeldValue(s: seq<byte>, hold: nat)
    ensures Held(s, hold) == Xor(Feed(ONES, s), ONES)
  {
    if hold > 0 {
      HeldValue(s, hold - 1);
    }
  }

  /** The definition: start from all ones, feed the bytes, complement. */
  lemma Crc32Value(s: seq<byte>)
    ensures Crc32(s) == Xor(Feed(ONES, s), ONES)
  {
    HeldValue(s, HOLD);
  }

  lemma StepWord(c: u32)
    ensures Step(c) < TWO_32
  {
    XorWord(POLY, c / 2);
  }

  lemma {:induction false} StepsWord(c: u32, k: nat)
    ensures Steps(c, k) < TWO_32
  {
    if k > 0 {
      StepsWord(c, k - 1);
      StepWord(Steps(c, k - 1));
    }
  }

  lemma {:induction false} FeedWord(c: u32, s: seq<byte>)
    ensures Feed(c, s) < TWO_32
  {
    if s != [] {
      var n := |s| - 1;
      FeedWord(c, s[..n]);
      XorWord(Feed(c, s[..n]), s[n]);
      StepsWord(Xor(Feed(c, s[..n]), s[n]), BYTE_BITS);
    }
  }

  /** (t ^ x) ^ (t ^ y) drops t; a single t moves to the front. */
  lemma XorCommonTerm(t: nat, x: nat, y: nat)
    ensures Xor(Xor(t, x), Xor(t, y)) == Xor(x, y)
    ensures Xor(Xor(t, x), y) == Xor(t, Xor(x, y)) == Xor(x, Xor(t, y))
  {
    XorSwap(t, x, t, y);
    XorSelf(t);
    XorZero(Xor(x, y));
    XorAssociates(t, x, y);
    XorAssociates(x, t, y);
    XorCommutes(x, t);
  }

  /** The shift-xor step distributes over exclusive or. */
  lemma StepLinear(a: nat, b: nat)
    ensures Step(Xor(a, b)) == Xor(Step(a), Step(b))
  {
    XorHalf(a, b);
    XorCommonTerm(POLY, a / 2, b / 2);
  }

  lemma {:induction false} StepsLinear(a: nat, b: nat, k: nat)
    ensures Steps(Xor(a, b), k) == Xor(Steps(a, k), Steps(b, k))
  {
    if k > 0 {
      StepsLinear(a, b, k - 1);
      StepLinear(Steps(a, k - 1), Steps(b, k - 1));
    }
  }

  /** The top bit of the polynomial keeps a non-zero register non-zero. */
  lemma {:induction false} StepsZeroOnlyAtZero(c: u32, k: nat)
    requires c != 0
    ensures Steps(c, k) != 0
  {
    if k > 0 {
      StepsZeroOnlyAtZero(c, k - 1);
      StepsWord(c, k - 1);
      var d := Steps(c, k - 1);
      if d % 2 == 1 && Step(d) == 0 {
        XorZeroOnlyIfEqual(POLY, d / 2);
      }
    }
  }

  lemma StepsInjective(a: u32, b: u32, k: nat)
    requires Steps(a, k) == Steps(b, k)
    ensures a == b
  {
    XorWord(a, b);
    StepsLinear(a, b, k);
    XorSelf(Steps(a, k));
    if Xor(a, b) != 0 {
      StepsZeroOnlyAtZero(Xor(a, b), k);
    }
    XorZeroOnlyIfEqual(a, b);
  }

  /** Low zero bits are shifted out without touching the rest. */
  lemma {:induction false} StepsShiftOut(x: nat, j: nat, k: nat)
    requires k <= j
    ensures Steps(Shl(x, j), k) == Shl(x, j - k)
  {
    if k > 0 {
      StepsShiftOut(x, j, k - 1);
    }
  }

  lemma ByteShift(x: nat)
    ensures Shl(x, 8) == 256 * x
  {
    assert Shl(x, 3) == 2 * Shl(x, 2) && Shl(x, 2) == 2 * Shl(x, 1) && Shl(x, 1) == 2 * x;
    assert Shl(x, 5) == 2 * Shl(x, 4) && Shl(x, 4) == 2 * Shl(x, 3);
    assert Shl(x, 7) == 2 * Shl(x, 6) && Shl(x, 6) == 2 * Shl(x, 5);
  }

  // ---------------------------------------------------------------- the table form

  /** Eight steps need only the low byte's eight steps, which is what the table holds. */
  lemma LowByteDecides(c: nat)
    ensures Steps(c, BYTE_BITS) == Xor(Steps(c % 256, BYTE_BITS), c / 256)
  {
    ByteShift(c / 256);
    ByteShift(1);
    XorDisjoint(c % 256, c / 256, 8);
    StepsLinear(c % 256, Shl(c / 256, 8), BYTE_BITS);
    StepsShiftOut(c / 256, 8, BYTE_BITS);
  }

  /** A byte does not reach the bits the table step shifts down. */
  lemma XorKeepsHighBytes(c: nat, b: byte)
    ensures Xor(c, b) / 256 == c / 256
  {
    var lo, hi := c % 256, c / 256;
    ByteShift(hi);
    ByteShift(1);
    XorDisjoint(lo, hi, 8);
    XorCommutes(lo, 256 * hi);
    XorAssociates(256 * hi, lo, b);
    XorBound(lo, b, 8);
    XorDisjoint(Xor(lo, b), hi, 8);
    XorCommutes(Xor(lo, b), 256 * hi);
  }

  predicate IsTable(table: seq<nat>) {
    |table| == 256 && forall i :: 0 <= i < 256 ==> table[i] == Steps(i, BYTE_BITS)
  }

  method MakeTable() returns (table: array<nat>)
    ensures IsTable(table[..])
  {
    table := new nat[256];
    var i := 0;
    while i < 256
      invariant 0 <= i <= 256
      invariant forall j :: 0 <= j < i ==> table[j] == Steps(j, BYTE_BITS)
    {
      var c := i;
      var k := 0;
      while k < BYTE_BITS
        invariant 0 <= k <= BYTE_BITS
        invariant c == Steps(i, k)
      {
        c := if c % 2 == 1 then Xor(POLY, c / 2) else c / 2;
        k := k + 1;
      }
      table[i] := c;
      i := i + 1;
    }
  }

  /** The table loop computes exactly the bit-at-a-time CRC, for every byte string. */
  method TableCrc32(table: array<nat>, data: seq<byte>) returns (crc: nat)
    requires IsTable(table[..])
    ensures crc == Crc32(data)
  {
    var c: nat := ONES;
    var i := 0;
    while i < |data|
      invariant 0 <= i <= |data|
      invariant c == Feed(ONES, data[..i])
    {
      var x := Xor(c, data[i]);
      LowByteDecides(x);
      XorKeepsHighBytes(c, data[i]);
      assert data[..i + 1][..i] == data[..i];
      assert table[..][x % 256] == Steps(x % 256, BYTE_BITS);
      c := Xor(table[x % 256], c / 256);
      i := i + 1;
    }
    assert data[..|data|] == data;
    Crc32Value(data);
    crc := Xor(c, ONES);
  }

  // ---------------------------------------------------------------- burst detection

  lemma {:induction false} FeedConcat(c: nat, s: seq<byte>, t: seq<byte>)
    ensures Feed(c, s + t) == Feed(Feed(c, s), t)
  {
    if t == [] {
      assert s + t == s;
    } else {
      var n := |t| - 1;
      FeedConcat(c, s, t[..n]);
      FeedLast(c, s + t, s + t[..n], t[n]);
      FeedLast(Feed(c, s), t, t[..n], t[n]);
    }
  }

  lemma FeedLast(c: nat, s: seq<byte>, front: seq<byte>, b: byte)
    requires s == front + [b]
    ensures Feed(c, s) == Steps(Xor(Feed(c, front), b), BYTE_BITS)
  {
    assert s[..|s| - 1] == front;
  }

  /** The same tail keeps different registers different. */
  lemma {:induction false} FeedInjective(a: u32, b: u32, t: seq<byte>)
    requires Feed(a, t) == Feed(b, t)
    ensures a == b
  {
    if t != [] {
      var n := |t| - 1;
      var x, y := Feed(a, t[..n]), Feed(b, t[..n]);
      FeedWord(a, t[..n]);
      FeedWord(b, t[..n]);
      XorWord(x, t[n]);
      XorWord(y, t[n]);
      StepsInjective(Xor(x, t[n]), Xor(y, t[n]), BYTE_BITS);
      XorCancel(x, y, t[n]);
      FeedInjective(a, b, t[..n]);
    }
  }

  lemma XorCancel(x: nat, y: nat, w: nat)
    requires Xor(x, w) == Xor(y, w)
    ensures x == y
  {
    XorSwap(x, w, y, w);
    XorSelf(w);
    XorSelf(Xor(x, w));
    XorZero(Xor(x, y));
    XorZeroOnlyIfEqual(x, y);
  }

  function XorByte(a: byte, b: byte): (d: byte)
  {
    ByteShift(1);
    XorBound(a, b, 8);
    Xor(a, b)
  }

  function XorBytes(u: seq<byte>, v: seq<byte>): (d: seq<byte>)
    requires |u| == |v|
  {
    seq(|u|, i requires 0 <= i < |u| => XorByte(u[i], v[i]))
  }

  /** The register is linear in the start value and the bytes together. */
  lemma {:induction false} FeedLinear(a: nat, b: nat, u: seq<byte>, v: seq<byte>)
    requires |u| == |v|
    ensures Feed(Xor(a, b), XorBytes(u, v)) == Xor(Feed(a, u), Feed(b, v))
  {
    hide Steps, Xor;
    if u != [] {
      var n := |u| - 1;
      FeedLinear(a, b, u[..n], v[..n]);
      FeedLast(a, u, u[..n], u[n]);
      FeedLast(b, v, v[..n], v[n]);
      FeedLast(Xor(a, b), XorBytes(u, v), XorBytes(u[..n], v[..n]), XorByte(u[n], v[n]));
      XorSwap(Feed(a, u[..n]), Feed(b, v[..n]), u[n], v[n]);
      StepsLinear(Xor(Feed(a, u[..n]), u[n]), Xor(Feed(b, v[..n]), v[n]), BYTE_BITS);
    }
  }

  /** The value of s with its first byte least significant. */
  function LittleEndian(s: seq<byte>): nat {
    if s == [] then 0 else s[0] + 256 * LittleEndian(s[1..])
  }

  lemma {:induction false} LittleEndianBound(s: seq<byte>)
    ensures |s| <= 1 ==> LittleEndian(s) < 256
    ensures |s| <= 2 ==> LittleEndian(s) < 65536
    ensures |s| <= 3 ==> LittleEndian(s) < 16777216
  {
    if s != [] {
      LittleEndianBound(s[1..]);
    }
  }

  lemma {:induction false} LittleEndianZero(u: seq<byte>, v: seq<byte>)
    requires |u| == |v| && LittleEndian(XorBytes(u, v)) == 0
    ensures u == v
  {
    if u != [] {
      XorZeroOnlyIfEqual(u[0], v[0]);
      assert XorBytes(u, v)[1..] == XorBytes(u[1..], v[1..]);
      LittleEndianZero(u[1..], v[1..]);
      assert u == [u[0]] + u[1..] && v == [v[0]] + v[1..];
    }
  }

  lemma StepsOnlyFrom(y: u32, z: nat)
    requires Steps(y, BYTE_BITS) == z && z < 16777216
    ensures y == 256 * z
  {
    ByteShift(z);
    StepsShiftOut(z, 8, BYTE_BITS);
    StepsInjective(y, 256 * z, BYTE_BITS);
  }

  lemma XorOnlyFrom(x: nat, b: byte, z: nat)
    requires Xor(x, b) == 256 * z
    ensures x == b + 256 * z
  {
    ByteShift(z);
    ByteShift(1);
    XorDisjoint(b, z, 8);
    XorCommutes(b, 256 * z);
    XorAssociates(x, b, b);
    XorSelf(b);
    XorZero(x);
  }

  /** At most four bytes drive the register to zero only from the word they spell. */
  lemma {:induction false} FeedZeroOnlyFrom(x: u32, d: seq<byte>)
    requires |d| <= 4 && Feed(x, d) == 0
    ensures x == LittleEndian(d)
    decreases |d|
  {
    if d != [] {
      var head, tail := [d[0]], d[1..];
      assert d == head + tail;
      FeedConcat(x, head, tail);
      assert head[..0] == [] && Feed(x, head) == Steps(Xor(x, d[0]), BYTE_BITS);
      FeedWord(x, head);
      FeedZeroOnlyFrom(Feed(x, head), tail);
      LittleEndianBound(tail);
      XorWord(x, d[0]);
      StepsOnlyFrom(Xor(x, d[0]), LittleEndian(tail));
      XorOnlyFrom(x, d[0], LittleEndian(tail));
    }
  }

  /**
   Changing any run of up to four consecutive bytes, whatever surrounds it, changes the
   CRC.
   */
  lemma CrcDetectsBurst(p: seq<byte>, u: seq<byte>, v: seq<byte>, t: seq<byte>)
    requires |u| == |v| <= 4 && u != v
    ensures Crc32(p + u + t) != Crc32(p + v + t)
  {
    var c := Feed(ONES, p);
    FeedWord(ONES, p);
    FeedConcat(ONES, p + u, t);
    FeedConcat(ONES, p, u);
    FeedConcat(ONES, p + v, t);
    FeedConcat(ONES, p, v);
    Crc32Value(p + u + t);
    Crc32Value(p + v + t);
    if Crc32(p + u + t) == Crc32(p + v + t) {
      XorCancel(Feed(ONES, p + u + t), Feed(ONES, p + v + t), ONES);
      FeedWord(c, u);
      FeedWord(c, v);
      FeedInjective(Feed(c, u), Feed(c, v), t);
      FeedLinear(c, c, u, v);
      XorSelf(c);
      XorSelf(Feed(c, u));
      FeedZeroOnlyFrom(0, XorBytes(u, v));
      LittleEndianZero(u, v);
    }
  }
}

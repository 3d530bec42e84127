/**
 The big-endian codec of disk and wire: fixed-width integers, strings behind a two-byte
 length and blobs behind a four-byte length. A parser takes the bytes still unread and
 says what it read and how many bytes that took, or fails; Reader and Buffer are the
 cursor and the growing buffer the program uses.
 */
module Codec {
  import opened Types

  /** What a parser read, and from how many bytes. */
  datatype Parsed<+T> = Parsed(value: T, used: nat)

  function Pow256(n: nat): nat {
    if n == 0 then 1 else 256 * Pow256(n - 1)
  }

  /** The low n bytes of v, most significant first. */
  function BigEndian(v: nat, n: nat): (s: seq<byte>)
    ensures |s| == n
  {
    if n == 0 then [] else BigEndian(v / 256, n - 1) + [v % 256]
  }

  function Value(s: seq<byte>): nat {
    if s == [] then 0 else 256 * Value(s[..|s| - 1]) + s[|s| - 1]
  }

  lemma WidthBounds()
    ensures Pow256(1) == 256 && Pow256(2) == TWO_16 && Pow256(4) == TWO_32 && Pow256(8) == TWO_64
  {
    assert Pow256(4) == 65536 * Pow256(2);
    assert Pow256(6) == 65536 * Pow256(4);
    assert Pow256(8) == 65536 * Pow256(6);
  }

  lemma {:induction false} ValueBound(s: seq<byte>)
    ensures Value(s) < Pow256(|s|)
  {
    if s != [] {
      ValueBound(s[..|s| - 1]);
    }
  }

  /** Writing then reading an integer gives it back. */
  lemma {:induction false} IntRoundTrip(v: nat, n: nat)
    requires v < Pow256(n)
    ensures Value(BigEndian(v, n)) == v
  {
    if n > 0 {
      IntRoundTrip(v / 256, n - 1);
      assert BigEndian(v, n)[..n - 1] == BigEndian(v / 256, n - 1);
    }
  }

  /** Reading then writing gives the bytes back. */
  lemma {:induction false} ValueRoundTrip(s: seq<byte>)
    ensures BigEndian(Value(s), |s|) == s
  {
    if s != [] {
      ValueRoundTrip(s[..|s| - 1]);
    }
  }

  // ---------------------------------------------------------------- parsers

  function ParseInt(s: seq<byte>, n: nat): Option<Parsed<nat>> {
    if |s| < n then None else Some(Parsed(Value(s[..n]), n))
  }

  function ParseRaw(s: seq<byte>, n: nat): Option<Parsed<seq<byte>>> {
    if |s| < n then None else Some(Parsed(s[..n], n))
  }

  /** A length of the given width, then that many bytes. */
  function ParseSized(s: seq<byte>, width: nat): Option<Parsed<seq<byte>>> {
    match ParseInt(s, width)
    case None => None
    case Some(len) =>
      match ParseRaw(s[width..], len.value)
      case None => None
      case Some(b) => Some(Parsed(b.value, width + b.used))
  }

  /** The writer of such a field keeps only the low bytes of an over-long length. */
  function Sized(b: seq<byte>, width: nat): (s: seq<byte>)
    ensures |s| == width + |b|
  {
    BigEndian(|b|, width) + b
  }

  function PutString(b: seq<byte>): (s: seq<byte>)
    ensures |s| == 2 + |b|
  {
    Sized(b, 2)
  }

  function PutBlob(b: seq<byte>): (s: seq<byte>)
    ensures |s| == 4 + |b|
  {
    Sized(b, 4)
  }

  function ParseString(s: seq<byte>): Option<Parsed<seq<byte>>> {
    ParseSized(s, 2)
  }

  function ParseBlob(s: seq<byte>): Option<Parsed<seq<byte>>> {
    ParseSized(s, 4)
  }

  lemma IntThenTail(v: nat, n: nat, tail: seq<byte>)
    requires v < Pow256(n)
    ensures ParseInt(BigEndian(v, n) + tail, n) == Some(Parsed(v, n))
    ensures (BigEndian(v, n) + tail)[n..] == tail
  {
    IntRoundTrip(v, n);
    assert (BigEndian(v, n) + tail)[..n] == BigEndian(v, n);
  }

  /** A sized field round-trips exactly when its length fits its prefix. */
  lemma SizedRoundTrip(b: seq<byte>, width: nat, tail: seq<byte>)
    ensures ParseSized(Sized(b, width) + tail, width) == Some(Parsed(b, width + |b|)) <==> |b| < Pow256(width)
  {
    var s := Sized(b, width) + tail;
    if |b| < Pow256(width) {
      assert s == BigEndian(|b|, width) + (b + tail);
      IntThenTail(|b|, width, b + tail);
      assert s[width..][..|b|] == b;
    } else {
      ValueBound(s[..width]);
    }
  }

  /** Whatever the bytes, a parsed sized field is within its prefix and within the bytes. */
  lemma ParsedSizedBound(s: seq<byte>, width: nat)
    ensures var r := ParseSized(s, width);
            r.Some? ==> |r.value.value| < Pow256(width) && r.value.used == width + |r.value.value| <= |s|
  {
    if |s| >= width {
      ValueBound(s[..width]);
    }
  }

  /** A sized field is read exactly when its whole prefix and all the bytes it announces are there. */
  lemma ParsesSizedExactly(s: seq<byte>, width: nat)
    ensures var r := ParseSized(s, width);
            if width <= |s| && Value(s[..width]) <= |s| - width
            then r == Some(Parsed(s[width..width + Value(s[..width])], width + Value(s[..width])))
            else r == None
  {
    if width <= |s| && Value(s[..width]) <= |s| - width {
      assert s[width..][..Value(s[..width])] == s[width..width + Value(s[..width])];
    }
  }

  // ---------------------------------------------------------------- buffer and cursor

  class Buffer {
    var bytes: seq<byte>

    constructor ()
      ensures bytes == []
    {
      bytes := [];
    }

    method PutU8(v: byte)
      modifies this
      ensures bytes == old(bytes) + BigEndian(v, 1)
    {
      assert BigEndian(v, 1) == BigEndian(v / 256, 0) + [v % 256] == [v];
      bytes := bytes + [v];
    }

    method PutU16(v: u16)
      modifies this
      ensures bytes == old(bytes) + BigEndian(v, 2)
    {
      bytes := bytes + [v / 0x100 % 256];
      bytes := bytes + [v % 256];
      TwoBytes(v);
    }

    method PutU32(v: u32)
      modifies this
      ensures bytes == old(bytes) + BigEndian(v, 4)
    {
      bytes := bytes + [v / 0x100_0000 % 256];
      bytes := bytes + [v / 0x1_0000 % 256];
      bytes := bytes + [v / 0x100 % 256];
      bytes := bytes + [v % 256];
      FourBytes(v);
    }

    method PutU64(v: u64)
      modifies this
      ensures bytes == old(bytes) + BigEndian(v, 8)
    {
      var shift := 56;
      ghost var k: nat := 0;
      ghost var high: nat := 0;
      TopByteZero(v);
      while shift >= 0
        invariant 0 <= k <= 8 && shift == 56 - 8 * k
        invariant high == Shr(v, 8 - k)
        invariant bytes == old(bytes) + BigEndian(high, k)
        decreases shift + 8
      {
        ghost var next := Shr(v, 7 - k);
        ShrStep(v, 7 - k);
        bytes := bytes + [Shr(v, shift / 8) % 256];
        assert BigEndian(next, k + 1) == BigEndian(high, k) + [next % 256];
        high, k := next, k + 1;
        shift := shift - 8;
      }
    }

    method PutBytes(data: seq<byte>)
      modifies this
      ensures bytes == old(bytes) + data
    {
      bytes := bytes + data;
    }

    method PutSizedString(s: seq<byte>)
      modifies this
      ensures bytes == old(bytes) + PutString(s)
    {
      WidthBounds();
      LowTwoBytesOnly(|s|);
      PutU16(|s| % TWO_16);
      PutBytes(s);
    }

    method PutSizedBlob(b: seq<byte>)
      modifies this
      ensures bytes == old(bytes) + PutBlob(b)
    {
      WidthBounds();
      LowFourBytesOnly(|b|);
      PutU32(|b| % TWO_32);
      PutBytes(b);
    }
  }

  /** v shifted right by k bytes. */
  function Shr(v: nat, k: nat): nat {
    if k == 0 then v else Shr(v, k - 1) / 256
  }

  lemma ShrStep(v: nat, k: nat)
    ensures Shr(v, k) / 256 == Shr(v, k + 1)
  {}

  lemma {:induction false} ShrBound(v: nat, n: nat, k: nat)
    requires k <= n && v < Pow256(n)
    ensures Shr(v, k) < Pow256(n - k)
  {
    if k > 0 {
      ShrBound(v, n, k - 1);
    }
  }

  lemma TopByteZero(v: u64)
    ensures Shr(v, 8) == 0
  {
    WidthBounds();
    ShrBound(v, 8, 8);
  }

  lemma TwoBytes(v: nat)
    ensures BigEndian(v, 2) == [v / 0x100 % 256, v % 256]
  {
    assert BigEndian(v / 256, 1) == [] + [v / 256 % 256];
  }

  lemma FourBytes(v: nat)
    ensures BigEndian(v, 4) == [v / 0x100_0000 % 256, v / 0x1_0000 % 256, v / 0x100 % 256, v % 256]
  {
    var h := v / 256 / 256;
    TwoBytes(h);
    assert BigEndian(v / 256, 3) == BigEndian(h, 2) + [v / 256 % 256];
    assert BigEndian(v, 4) == BigEndian(v / 256, 3) + [v % 256];
  }

  /** A truncating cast before writing changes nothing: only the low bytes are written. */
  lemma LowTwoBytesOnly(v: nat)
    ensures BigEndian(v % TWO_16, 2) == BigEndian(v, 2)
  {
    var q, m := v / TWO_16, v % TWO_16;
    TwoBytes(v);
    TwoBytes(m);
    assert v / 0x100 == 0x100 * q + m / 0x100;
  }

  lemma LowFourBytesOnly(v: nat)
    ensures BigEndian(v % TWO_32, 4) == BigEndian(v, 4)
  {
    var m := v % TWO_32;
    HalfWords(v);
    LowTwoBytesOnly(v);
    LowTwoBytesOnly(m);
    LowTwoBytesOnly(v / TWO_16);
    FourAsTwo(v);
    FourAsTwo(m);
  }

  lemma HalfWords(v: nat)
    ensures v % TWO_32 % TWO_16 == v % TWO_16 && v % TWO_32 / TWO_16 == v / TWO_16 % TWO_16
  {
    var h, l := v / TWO_16, v % TWO_16;
    var q, g := h / TWO_16, h % TWO_16;
    var m := TWO_16 * g + l;
    assert v == TWO_32 * q + m && m < TWO_32;
    assert v / TWO_32 == q;
    assert v % TWO_32 == m;
  }

  lemma FourAsTwo(v: nat)
    ensures BigEndian(v, 4) == BigEndian(v / TWO_16, 2) + BigEndian(v, 2)
  {
    FourBytes(v);
    TwoBytes(v);
    TwoBytes(v / TWO_16);
  }

  lemma {:induction false} SplitDigits(v: nat, n: nat)
    ensures BigEndian(v, n + 4) == BigEndian(v / TWO_32, n) + BigEndian(v, 4)
  {
    FourBytes(v);
    hide BigEndian;
    LastDigit(v / 0x100_0000, n);
    LastDigit(v / 0x1_0000, n + 1);
    LastDigit(v / 0x100, n + 2);
    LastDigit(v, n + 3);
    QuotientsNest(v);
  }

  lemma LastDigit(v: nat, n: nat)
    ensures BigEndian(v, n + 1) == BigEndian(v / 256, n) + [v % 256]
  {
  }

  lemma QuotientsNest(v: nat)
    ensures v / 0x100 / 256 == v / 0x1_0000 && v / 0x1_0000 / 256 == v / 0x100_0000
    ensures v / 0x100_0000 / 256 == v / TWO_32
  {
  }

  lemma LowEightBytesOnly(v: nat)
    ensures BigEndian(v % TWO_64, 8) == BigEndian(v, 8)
  {
    var h, l := v / TWO_32, v % TWO_32;
    var q, g := h / TWO_32, h % TWO_32;
    var m := TWO_32 * g + l;
    assert v == TWO_64 * q + m && m < TWO_64;
    assert v / TWO_64 == q && v % TWO_64 == m;
    SplitDigits(v, 4);
    SplitDigits(m, 4);
    LowFourBytesOnly(v);
    LowFourBytesOnly(m);
    LowFourBytesOnly(h);
    assert m / TWO_32 == g && m % TWO_32 == l;
  }

  class Reader {
    const data: seq<byte>
    var pos: nat

    ghost predicate Valid()
      reads this
    {
      pos <= |data|
    }

    constructor (data: seq<byte>)
      ensures Valid() && this.data == data && pos == 0
    {
      this.data := data;
      pos := 0;
    }

    ghost function Rest(): seq<byte>
      requires Valid()
      reads this
    {
      data[pos..]
    }

    method Remaining() returns (n: nat)
      requires Valid()
      ensures n == |Rest()|
    {
      n := |data| - pos;
    }

    method GetU8() returns (v: Option<byte>)
      requires Valid()
      modifies this
      ensures Valid()
      ensures match ParseInt(old(Rest()), 1)
              case None => v == None && pos == old(pos)
              case Some(r) => v == Some(r.value) && pos == old(pos) + 1
    {
      if |data| - pos < 1 {
        return None;
      }
      assert Rest()[..1] == [data[pos]] && [data[pos]][..0] == [];
      assert Value([data[pos]]) == 256 * Value([]) + data[pos];
      v := Some(data[pos]);
      pos := pos + 1;
    }

    method GetU16() returns (v: Option<u16>)
      requires Valid()
      modifies this
      ensures Valid()
      ensures match ParseInt(old(Rest()), 2)
              case None => v == None && pos == old(pos)
              case Some(r) => v == Some(r.value) && pos == old(pos) + 2
    {
      if |data| - pos < 2 {
        return None;
      }
      assert Rest()[..2] == [data[pos], data[pos + 1]];
      ValueOfTwo(data[pos], data[pos + 1]);
      var high: int, low: int := data[pos], data[pos + 1];
      v := Some(high * 0x100 + low);
      pos := pos + 2;
    }

    method GetU32() returns (v: Option<u32>)
      requires Valid()
      modifies this
      ensures Valid()
      ensures match ParseInt(old(Rest()), 4)
              case None => v == None && pos == old(pos)
              case Some(r) => v == Some(r.value) && pos == old(pos) + 4
    {
      if |data| - pos < 4 {
        return None;
      }
      assert Rest()[..4] == [data[pos], data[pos + 1], data[pos + 2], data[pos + 3]];
      ValueOfFour(data[pos], data[pos + 1], data[pos + 2], data[pos + 3]);
      var a: int, b: int, c: int, d: int := data[pos], data[pos + 1], data[pos + 2], data[pos + 3];
      v := Some(a * 0x100_0000 + b * 0x1_0000 + c * 0x100 + d);
      pos := pos + 4;
    }

    method GetU64() returns (v: Option<u64>)
      requires Valid()
      modifies this
      ensures Valid()
      ensures match ParseInt(old(Rest()), 8)
              case None => v == None && pos == old(pos)
              case Some(r) => v == Some(r.value) && pos == old(pos) + 8
    {
      if |data| - pos < 8 {
        return None;
      }
      ghost var s := Rest();
      var x: u64 := 0;
      var i := 0;
      WidthBounds();
      while i < 8
        invariant 0 <= i <= 8 && pos == old(pos) && s == Rest()
        invariant x == Value(s[..i])
      {
        ValueBound(s[..i]);
        ValueBound(s[..i + 1]);
        PowMonotone(i + 1, 8);
        assert s[..i + 1][..i] == s[..i];
        x := (x * 256 % TWO_64) + data[pos + i];
        i := i + 1;
      }
      v := Some(x);
      pos := pos + 8;
    }

    method GetString() returns (v: Option<seq<byte>>)
      requires Valid()
      modifies this
      ensures Valid()
      ensures match ParseString(old(Rest()))
              case None => v == None
              case Some(r) => v == Some(r.value) && pos == old(pos) + r.used
    {
      var n := GetU16();
      if n == None || |data| - pos < n.value {
        return None;
      }
      assert old(Rest())[2..][..n.value] == data[pos..pos + n.value];
      v := Some(data[pos..pos + n.value]);
      pos := pos + n.value;
    }

    method GetBlob() returns (v: Option<seq<byte>>)
      requires Valid()
      modifies this
      ensures Valid()
      ensures match ParseBlob(old(Rest()))
              case None => v == None
              case Some(r) => v == Some(r.value) && pos == old(pos) + r.used
    {
      var n := GetU32();
      if n == None || |data| - pos < n.value {
        return None;
      }
      assert old(Rest())[4..][..n.value] == data[pos..pos + n.value];
      v := Some(data[pos..pos + n.value]);
      pos := pos + n.value;
    }

    method GetRaw(n: nat) returns (v: Option<seq<byte>>)
      requires Valid()
      modifies this
      ensures Valid()
      ensures match ParseRaw(old(Rest()), n)
              case None => v == None && pos == old(pos)
              case Some(r) => v == Some(r.value) && pos == old(pos) + n
    {
      if |data| - pos < n {
        return None;
      }
      assert old(Rest())[..n] == data[pos..pos + n];
      v := Some(data[pos..pos + n]);
      pos := pos + n;
    }
  }

  lemma ValueOfTwo(a: byte, b: byte)
    ensures Value([a, b]) == 256 * a + b
  {
    assert [a, b][..1] == [a] && [a][..0] == [];
    assert Value([a]) == a;
  }

  lemma ValueOfFour(a: byte, b: byte, c: byte, d: byte)
    ensures Value([a, b, c, d]) == 0x100_0000 * a + 0x1_0000 * b + 0x100 * c + d
  {
    assert [a, b, c, d][..3] == [a, b, c] && [a, b, c][..2] == [a, b];
    ValueOfTwo(a, b);
  }

  lemma {:induction false} PowMonotone(m: nat, n: nat)
    requires m <= n
    ensures Pow256(m) <= Pow256(n)
    decreases n - m
  {
    if m < n {
      PowMonotone(m + 1, n);
    }
  }
}

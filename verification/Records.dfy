/**
 One record as it lies on disk and on the wire: a four-byte length, the CRC of the body,
 and the body (offset, timestamp, key, value).
 */
module Records {
  import opened Types
  import opened Codec
  import Crc

  datatype Record = Record(offset: u64, timestamp: u64, key: seq<byte>, value: seq<byte>)

  function BodySize(r: Record): nat {
    24 + |r.key| + |r.value|
  }

  function FrameSize(r: Record): nat {
    8 + BodySize(r)
  }

  /** The length field, which counts the CRC and the body, can hold this record's length. */
  predicate Fits(r: Record) {
    4 + BodySize(r) < TWO_32
  }

  function Body(r: Record): (s: seq<byte>)
    ensures |s| == BodySize(r)
  {
    BigEndian(r.offset, 8) + BigEndian(r.timestamp, 8) + PutBlob(r.key) + PutBlob(r.value)
  }

  /** A length field, a CRC field and a body. */
  function Sealed(len: nat, crc: nat, body: seq<byte>): (s: seq<byte>)
    ensures |s| == 8 + |body|
  {
    BigEndian(len, 4) + BigEndian(crc, 4) + body
  }

  /** The frame; an over-long length keeps only its low bytes. */
  function Frame(r: Record): (s: seq<byte>)
    ensures |s| == FrameSize(r)
  {
    Sealed(4 + BodySize(r), Crc.Crc32(Body(r)), Body(r))
  }

  /** Where each field of a frame lies. */
  lemma FrameLayout(r: Record)
    ensures var f, v := Frame(r), 28 + 4 + |r.key|;
            && |f| == v + |r.value|
            && f[..4] == BigEndian(|f| - 4, 4) && f[4..8] == BigEndian(Crc.Crc32(f[8..]), 4)
            && f[8..16] == BigEndian(r.offset, 8) && f[16..24] == BigEndian(r.timestamp, 8)
            && f[24..28] == BigEndian(|r.key|, 4) && f[28..v - 4] == r.key
            && f[v - 4..v] == BigEndian(|r.value|, 4) && f[v..] == r.value
  {
    var f, body := Frame(r), Body(r);
    assert f[8..] == body;
    assert body[..8] == BigEndian(r.offset, 8) && body[8..16] == BigEndian(r.timestamp, 8);
    assert body[16..] == PutBlob(r.key) + PutBlob(r.value);
  }

  function ParseBody(s: seq<byte>): Option<Record> {
    match ParseInt(s, 8)
    case None => None
    case Some(offset) =>
      match ParseInt(s[8..], 8)
      case None => None
      case Some(timestamp) =>
        match ParseBlob(s[16..])
        case None => None
        case Some(key) =>
          ParsedSizedBound(s[16..], 4);
          match ParseBlob(s[16 + key.used..])
          case None => None
          case Some(value) =>
            ValueBound(s[..8]);
            ValueBound(s[8..][..8]);
            WidthBounds();
            Some(Record(offset.value, timestamp.value, key.value, value.value))
  }

  /** The frame at the front of s: complete, at least a CRC long, CRC right, body readable. */
  function ParseRecord(s: seq<byte>): Option<Parsed<Record>> {
    match ParseInt(s, 4)
    case None => None
    case Some(len) =>
      match ParseRaw(s[4..], len.value)
      case None => None
      case Some(frame) =>
        match ParseInt(frame.value, 4)
        case None => None
        case Some(crc) =>
          var body := frame.value[4..];
          if Crc.Crc32(body) != crc.value then None
          else match ParseBody(body)
            case None => None
            case Some(r) => Some(Parsed(r, 4 + len.value))
  }

  // ---------------------------------------------------------------- round trip

  lemma IntPartsOfBody(r: Record)
    ensures ParseInt(Body(r), 8) == Some(Parsed(r.offset, 8))
    ensures ParseInt(Body(r)[8..], 8) == Some(Parsed(r.timestamp, 8))
    ensures Body(r)[16..] == PutBlob(r.key) + PutBlob(r.value)
  {
    var rest := PutBlob(r.key) + PutBlob(r.value);
    var rest8 := BigEndian(r.timestamp, 8) + rest;
    WidthBounds();
    assert Body(r) == BigEndian(r.offset, 8) + rest8;
    IntThenTail(r.offset, 8, rest8);
    IntThenTail(r.timestamp, 8, rest);
    assert Body(r)[16..] == rest;
  }

  lemma BodyRoundTrip(r: Record)
    requires Fits(r)
    ensures ParseBody(Body(r)) == Some(r)
  {
    WidthBounds();
    IntPartsOfBody(r);
    SizedRoundTrip(r.key, 4, PutBlob(r.value));
    SizedRoundTrip(r.value, 4, []);
    var used := 4 + |r.key|;
    assert Body(r)[16 + used..] == Body(r)[16..][used..] == PutBlob(r.value) == PutBlob(r.value) + [];
  }

  /** What the parser finds in a frame of the right length and what follows it. */
  lemma SealedParts(len: u32, crc: u32, body: seq<byte>, tail: seq<byte>)
    requires len == 4 + |body|
    ensures var s := Sealed(len, crc, body) + tail;
            && ParseInt(s, 4) == Some(Parsed(len, 4))
            && ParseRaw(s[4..], len) == Some(Parsed(BigEndian(crc, 4) + body, len))
            && ParseInt(BigEndian(crc, 4) + body, 4) == Some(Parsed(crc, 4))
            && (BigEndian(crc, 4) + body)[4..] == body
  {
    var a, b := BigEndian(len, 4), BigEndian(crc, 4);
    var s := a + b + body + tail;
    WidthBounds();
    assert s == a + (b + body + tail);
    IntThenTail(len, 4, b + body + tail);
    assert s[4..] == b + body + tail;
    assert s[4..][..len] == b + body;
    IntThenTail(crc, 4, body);
  }

  /** A parsed record fits, and its frame is no shorter than what its fields need. */
  lemma ParsedRecordFits(s: seq<byte>)
    ensures ParseRecord(s).Some? ==>
              var p := ParseRecord(s).value;
              Fits(p.value) && FrameSize(p.value) <= p.used <= |s|
  {
    var r := ParseRecord(s);
    if r.Some? {
      var body := s[4..r.value.used][4..];
      assert s[4..][..r.value.used - 4] == s[4..r.value.used];
      ValueBound(s[..4]);
      WidthBounds();
      ParsedSizedBound(body[16..], 4);
      ParsedSizedBound(body[16 + ParseBlob(body[16..]).value.used..], 4);
    }
  }

  /** A body with room for its fields: two times eight bytes, then two blobs; more bytes may follow. */
  predicate Readable(b: seq<byte>) {
    && 20 <= |b| && 24 + Value(b[16..20]) <= |b|
    && var k := 20 + Value(b[16..20]); k + 4 + Value(b[k..k + 4]) <= |b|
  }

  lemma BodyParsesExactly(b: seq<byte>)
    ensures ParseBody(b).Some? <==> Readable(b)
    ensures Readable(b) ==>
              var k := 20 + Value(b[16..20]);
              var r := ParseBody(b).value;
              && r.offset == Value(b[..8]) && r.timestamp == Value(b[8..16])
              && r.key == b[20..k] && r.value == b[k + 4..k + 4 + Value(b[k..k + 4])]
  {
    if 16 <= |b| {
      assert b[8..][..8] == b[8..16] && b[8..][8..] == b[16..];
      ParsesSizedExactly(b[16..], 4);
      if 20 <= |b| && 20 + Value(b[16..20]) <= |b| {
        var k := 20 + Value(b[16..20]);
        assert b[16..][..4] == b[16..20] && b[16..][4..4 + Value(b[16..20])] == b[20..k];
        ParsesSizedExactly(b[k..], 4);
        if k + 4 <= |b| {
          assert b[k..][..4] == b[k..k + 4];
          if k + 4 + Value(b[k..k + 4]) <= |b| {
            assert b[k..][4..4 + Value(b[k..k + 4])] == b[k + 4..k + 4 + Value(b[k..k + 4])];
          }
        }
      } else if 20 <= |b| {
        assert b[16..][..4] == b[16..20];
      }
    }
  }

  /**
   Which bytes hold a record: four that announce at least a CRC and no more than there is,
   then the CRC of the rest of what they announce, then a body with room for its fields.
   */
  lemma ParsesExactly(s: seq<byte>)
    ensures ParseRecord(s).Some? <==>
              && 8 <= |s| && 4 <= Value(s[..4]) <= |s| - 4
              && Value(s[4..8]) == Crc.Crc32(s[8..4 + Value(s[..4])]) && Readable(s[8..4 + Value(s[..4])])
    ensures ParseRecord(s).Some? ==> ParseRecord(s).value.used == 4 + Value(s[..4])
  {
    hide ParseBody, Readable, Value;
    if 8 <= |s| && 4 <= Value(s[..4]) <= |s| - 4 {
      var end := 4 + Value(s[..4]);
      var frame := s[4..][..Value(s[..4])];
      assert frame == s[4..end];
      assert frame[..4] == s[4..8] && frame[4..] == s[8..end];
      BodyParsesExactly(s[8..end]);
    }
  }

  lemma ParsesSealed(r: Record, body: seq<byte>, tail: seq<byte>)
    requires ParseBody(body) == Some(r) && 4 + |body| < TWO_32
    ensures ParseRecord(Sealed(4 + |body|, Crc.Crc32(body), body) + tail) == Some(Parsed(r, 8 + |body|))
  {
    SealedParts(4 + |body|, Crc.Crc32(body), body, tail);
    hide Sealed, ParseInt, ParseRaw, ParseBody, BigEndian, Crc.Crc32;
  }

  lemma FrameParses(r: Record, tail: seq<byte>)
    requires Fits(r)
    ensures ParseRecord(Frame(r) + tail) == Some(Parsed(r, FrameSize(r)))
  {
    BodyRoundTrip(r);
    hide ParseRecord, ParseBody, Sealed, Body, Crc.Crc32;
    ParsesSealed(r, Body(r), tail);
  }

  /**
   Writing a record and reading it back, whatever follows, gives the record and leaves what
   follows, exactly when the record's length fits the length field.
   */
  lemma RecordRoundTrip(r: Record, tail: seq<byte>)
    ensures ParseRecord(Frame(r) + tail) == Some(Parsed(r, FrameSize(r))) <==> Fits(r)
  {
    hide ParseRecord, Frame;
    if Fits(r) {
      FrameParses(r, tail);
    } else {
      ParsedRecordFits(Frame(r) + tail);
    }
  }

  // ---------------------------------------------------------------- damage

  /** More bytes after a frame change nothing; fewer than the frame leave nothing. */
  lemma ParseDependsOnFrameOnly(s: seq<byte>, m: nat)
    requires ParseRecord(s).Some? && m <= |s|
    ensures ParseRecord(s[..m]) == if m >= ParseRecord(s).value.used then ParseRecord(s) else None
  {
    var used := ParseRecord(s).value.used;
    if m >= 4 {
      assert s[..m][..4] == s[..4];
      assert |s[..m][4..]| == m - 4;
      if m >= used {
        assert s[..m][4..][..used - 4] == s[4..][..used - 4];
      }
    }
  }

  /**
   A frame whose body was changed within four consecutive bytes does not parse, whatever
   follows it.
   */
  lemma DamagedRecordRejected(r: Record, p: seq<byte>, u: seq<byte>, v: seq<byte>, t: seq<byte>, tail: seq<byte>)
    requires Fits(r) && Body(r) == p + u + t
    requires |u| == |v| <= 4 && u != v
    ensures ParseRecord(Sealed(4 + BodySize(r), Crc.Crc32(Body(r)), p + v + t) + tail) == None
  {
    Crc.CrcDetectsBurst(p, u, v, t);
    WrongCrcRejected(4 + BodySize(r), Crc.Crc32(Body(r)), p + v + t, tail);
  }

  lemma WrongCrcRejected(len: u32, crc: u32, body: seq<byte>, tail: seq<byte>)
    requires len == 4 + |body| && Crc.Crc32(body) != crc
    ensures ParseRecord(Sealed(len, crc, body) + tail) == None
  {
    SealedParts(len, crc, body, tail);
  }

  // ---------------------------------------------------------------- the program's encoder and decoder

  lemma SealedAppended(before: seq<byte>, len: nat, crc: nat, body: seq<byte>)
    ensures before + BigEndian(len, 4) + BigEndian(crc, 4) + body == before + Sealed(len, crc, body)
  {}

  method EncodeRecord(rec: Record, buf: Buffer)
    modifies buf
    ensures buf.bytes == old(buf.bytes) + Frame(rec)
  {
    hide BigEndian, Body, Crc.Crc32;
    var body := new Buffer();
    EncodeBody(rec, body);
    var crc := Crc.Crc32(body.bytes);
    var totalLen := 4 + |body.bytes|;
    LowFourBytesOnly(totalLen);
    SealedAppended(buf.bytes, totalLen, crc, body.bytes);
    buf.PutU32(totalLen % TWO_32);
    buf.PutU32(crc);
    buf.PutBytes(body.bytes);
  }

  method EncodeBody(rec: Record, body: Buffer)
    requires body.bytes == []
    modifies body
    ensures body.bytes == Body(rec)
  {
    body.PutU64(rec.offset);
    body.PutU64(rec.timestamp);
    body.PutSizedBlob(rec.key);
    body.PutSizedBlob(rec.value);
  }

  method DecodeRecord(r: Reader) returns (rec: Option<Record>)
    requires r.Valid()
    modifies r
    ensures r.Valid()
    ensures match ParseRecord(old(r.Rest()))
            case None => rec == None
            case Some(p) => rec == Some(p.value) && r.pos == old(r.pos) + p.used
  {
    var totalLen := r.GetU32();
    if totalLen == None {
      return None;
    }
    assert r.Rest() == old(r.Rest())[4..];
    var frame := r.GetRaw(totalLen.value);
    if frame == None {
      return None;
    }
    var body := new Reader(frame.value);
    assert body.Rest() == frame.value;
    var storedCrc := body.GetU32();
    if storedCrc == None {
      return None;
    }
    var bodyBytes := frame.value[4..];
    if Crc.Crc32(bodyBytes) != storedCrc.value {
      return None;
    }
    assert body.Rest() == bodyBytes;
    rec := DecodeBody(body);
  }

  method DecodeBody(body: Reader) returns (rec: Option<Record>)
    requires body.Valid()
    modifies body
    ensures rec == ParseBody(old(body.Rest()))
  {
    ghost var s := body.Rest();
    var offset := body.GetU64();
    if offset == None {
      return None;
    }
    assert body.Rest() == s[8..];
    var timestamp := body.GetU64();
    if timestamp == None {
      return None;
    }
    assert body.Rest() == s[16..];
    var key := body.GetBlob();
    if key == None {
      return None;
    }
    ParsedSizedBound(s[16..], 4);
    assert body.Rest() == s[16 + ParseBlob(s[16..]).value.used..];
    var value := body.GetBlob();
    if value == None {
      return None;
    }
    rec := Some(Record(offset.value, timestamp.value, key.value, value.value));
  }
}

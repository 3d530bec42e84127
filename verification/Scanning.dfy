/**
 Byte files of framed records: what a sequential scan finds in any bytes, what it finds in
 a cleanly written, torn or damaged file, and the sparse index that goes with the records.
 */
module Scanning {
  import opened Types
  import opened Codec
  import opened Records
  import Crc

  /** A decoded record and the number of bytes its frame took. */
  datatype Framed = Framed(rec: Record, len: nat)

  // ---------------------------------------------------------------- scanning

  /** The frames a scan from the front reads before the first one it cannot decode. */
  function Scan(s: seq<byte>): seq<Framed>
    decreases |s|
  {
    ParsedRecordFits(s);
    match ParseRecord(s)
    case None => []
    case Some(p) => [Framed(p.value, p.used)] + Scan(s[p.used..])
  }

  function Total(fs: seq<Framed>): nat {
    if fs == [] then 0 else Total(fs[..|fs| - 1]) + fs[|fs| - 1].len
  }

  /** fs is a run of decodable frames at the front of s. */
  ghost predicate IsRun(s: seq<byte>, fs: seq<Framed>)
    decreases |fs|
  {
    fs == [] ||
    (&& ParseRecord(s) == Some(Parsed(fs[0].rec, fs[0].len))
     && fs[0].len <= |s|
     && IsRun(s[fs[0].len..], fs[1..]))
  }

  /** The scan finds the longest run of decodable frames: the runs are its prefixes. */
  lemma {:induction false} ScanIsLongestRun(s: seq<byte>, fs: seq<Framed>)
    ensures IsRun(s, fs) <==> fs <= Scan(s)
    decreases |fs|
  {
    hide Records.ParseRecord;
    ParsedRecordFits(s);
    if fs != [] && ParseRecord(s).Some? {
      var p := ParseRecord(s).value;
      ScanIsLongestRun(s[p.used..], fs[1..]);
      assert fs == [fs[0]] + fs[1..];
      assert Scan(s)[1..] == Scan(s[p.used..]);
    }
  }

  lemma {:induction false} TotalConcat(a: seq<Framed>, b: seq<Framed>)
    ensures Total(a + b) == Total(a) + Total(b)
  {
    if b == [] {
      assert a + b == a;
    } else {
      TotalConcat(a, b[..|b| - 1]);
      assert (a + b)[..|a + b| - 1] == a + b[..|b| - 1];
    }
  }

  lemma TotalFirst(f: Framed, fs: seq<Framed>)
    ensures Total([f] + fs) == f.len + Total(fs)
  {
    TotalConcat([f], fs);
    assert [f][..0] == [];
  }

  lemma {:induction false} ScanWithin(s: seq<byte>)
    ensures Total(Scan(s)) <= |s|
    decreases |s|
  {
    hide Records.ParseRecord;
    ParsedRecordFits(s);
    if ParseRecord(s).Some? {
      var p := ParseRecord(s).value;
      ScanWithin(s[p.used..]);
      TotalFirst(Framed(p.value, p.used), Scan(s[p.used..]));
    }
  }

  /** How far a scan of s has got: done has been read, the rest has not. */
  ghost predicate ScannedTo(s: seq<byte>, done: seq<Framed>) {
    Total(done) <= |s| && Scan(s) == done + Scan(s[Total(done)..])
  }

  lemma ScanStart(s: seq<byte>)
    ensures ScannedTo(s, []) && Total([]) == 0
  {
    assert s[0..] == s;
  }

  lemma ScanEnd(s: seq<byte>, done: seq<Framed>)
    requires ScannedTo(s, done)
    ensures Total(done) == |s| || ParseRecord(s[Total(done)..]) == None ==> Scan(s) == done
  {
    hide Records.ParseRecord;
    NothingToParse();
    if Total(done) == |s| {
      assert s[Total(done)..] == [];
    }
  }

  /** One step of the scan loop. */
  lemma ScanStep(s: seq<byte>, done: seq<Framed>)
    requires ScannedTo(s, done) && ParseRecord(s[Total(done)..]).Some?
    ensures var p := ParseRecord(s[Total(done)..]).value;
            var f := Framed(p.value, p.used);
            Total(done + [f]) == Total(done) + p.used && ScannedTo(s, done + [f]) && p.used > 0
  {
    hide Records.ParseRecord;
    var pos := Total(done);
    var rest := s[pos..];
    ParsedRecordFits(rest);
    var p := ParseRecord(rest).value;
    var f := Framed(p.value, p.used);
    assert (done + [f])[..|done|] == done;
    assert rest[p.used..] == s[pos + p.used..];
    Associate(done, [f], Scan(rest[p.used..]));
  }

  lemma Associate<T>(a: seq<T>, b: seq<T>, c: seq<T>)
    ensures a + (b + c) == a + b + c
  {}

  lemma NothingToParse()
    ensures ParseRecord([]) == None && Scan([]) == []
  {}

  /** Scanning what a scan kept finds the same frames. */
  lemma {:induction false} ScanIdempotent(s: seq<byte>)
    ensures Total(Scan(s)) <= |s| && Scan(s[..Total(Scan(s))]) == Scan(s)
    decreases |s|
  {
    hide Records.ParseRecord;
    ParsedRecordFits(s);
    if ParseRecord(s).Some? {
      var p := ParseRecord(s).value;
      var rest := s[p.used..];
      ScanIdempotent(rest);
      TotalFirst(Framed(p.value, p.used), Scan(rest));
      var kept := s[..Total(Scan(s))];
      ParseDependsOnFrameOnly(s, |kept|);
      assert kept[p.used..] == rest[..Total(Scan(rest))];
      assert Scan(kept) == [Framed(p.value, p.used)] + Scan(kept[p.used..]);
    } else {
      NothingToParse();
    }
  }

  // ---------------------------------------------------------------- clean files

  function Frames(recs: seq<Record>): (s: seq<byte>)
    ensures |s| == Size(recs)
  {
    if recs == [] then [] else Frames(recs[..|recs| - 1]) + Frame(recs[|recs| - 1])
  }

  function Size(recs: seq<Record>): nat {
    if recs == [] then 0 else Size(recs[..|recs| - 1]) + FrameSize(recs[|recs| - 1])
  }

  function Framing(recs: seq<Record>): (fs: seq<Framed>)
    ensures |fs| == |recs|
  {
    seq(|recs|, i requires 0 <= i < |recs| => Framed(recs[i], FrameSize(recs[i])))
  }

  ghost predicate AllFit(recs: seq<Record>) {
    forall i :: 0 <= i < |recs| ==> Fits(recs[i])
  }

  lemma FramesSnoc(recs: seq<Record>, r: Record)
    ensures Frames(recs + [r]) == Frames(recs) + Frame(r) && Size(recs + [r]) == Size(recs) + FrameSize(r)
    ensures Framing(recs + [r]) == Framing(recs) + [Framed(r, FrameSize(r))]
  {
    hide Records.Frame;
    assert (recs + [r])[..|recs + [r]| - 1] == recs;
  }

  lemma NoFrames()
    ensures Frames([]) == [] && Size([]) == 0
  {
  }

  lemma {:induction false} FramesConcat(a: seq<Record>, b: seq<Record>)
    ensures Frames(a + b) == Frames(a) + Frames(b) && Size(a + b) == Size(a) + Size(b)
  {
    hide Records.Frame, Frames, Size;
    if b == [] {
      NoFrames();
      assert a + b == a;
    } else {
      var front, last := b[..|b| - 1], b[|b| - 1];
      FramesConcat(a, front);
      FramesSnoc(front, last);
      FramesSnoc(a + front, last);
      assert front + [last] == b && a + front + [last] == a + b;
      Associate(Frames(a), Frames(front), Frame(last));
    }
  }

  lemma FramesOne(r: Record)
    ensures Frames([r]) == Frame(r) && Size([r]) == FrameSize(r)
  {
    assert [r][..0] == [];
  }

  lemma FramesFirst(recs: seq<Record>)
    requires recs != []
    ensures Frames(recs) == Frame(recs[0]) + Frames(recs[1..])
    ensures Size(recs) == FrameSize(recs[0]) + Size(recs[1..])
  {
    hide Records.Frame;
    assert recs == [recs[0]] + recs[1..];
    FramesOne(recs[0]);
    FramesConcat([recs[0]], recs[1..]);
  }

  lemma {:induction false} FramingTotal(recs: seq<Record>)
    ensures Total(Framing(recs)) == Size(recs)
  {
    if recs != [] {
      var n := |recs| - 1;
      FramingTotal(recs[..n]);
      assert Framing(recs)[..n] == Framing(recs[..n]);
    }
  }

  lemma FramingConcat(a: seq<Record>, b: seq<Record>)
    ensures Framing(a + b) == Framing(a) + Framing(b)
  {}

  /** A scan reads back exactly the records written, then goes on with what follows. */
  lemma {:induction false} ScanFrames(recs: seq<Record>, tail: seq<byte>)
    requires AllFit(recs)
    ensures Scan(Frames(recs) + tail) == Framing(recs) + Scan(tail)
    decreases |recs|
  {
    hide Records.ParseRecord, Records.Frame;
    if recs == [] {
      assert Frames(recs) + tail == tail;
    } else {
      var rest := Frames(recs[1..]) + tail;
      FramesFirst(recs);
      Associate(Frame(recs[0]), Frames(recs[1..]), tail);
      ScanOne(recs[0], rest);
      ScanFrames(recs[1..], tail);
      FramingFirst(recs);
      Associate([Framed(recs[0], FrameSize(recs[0]))], Framing(recs[1..]), Scan(tail));
    }
  }

  lemma ScanOne(r: Record, rest: seq<byte>)
    requires Fits(r)
    ensures Scan(Frame(r) + rest) == [Framed(r, FrameSize(r))] + Scan(rest)
  {
    hide Records.ParseRecord, Records.Frame;
    RecordRoundTrip(r, rest);
    assert (Frame(r) + rest)[FrameSize(r)..] == rest;
  }

  lemma FramingFirst(recs: seq<Record>)
    requires recs != []
    ensures Framing(recs) == [Framed(recs[0], FrameSize(recs[0]))] + Framing(recs[1..])
  {}

  /** The number of records lying wholly inside the first k bytes. */
  function CleanCount(recs: seq<Record>, k: nat): (n: nat)
    ensures n <= |recs|
  {
    if recs == [] || FrameSize(recs[0]) > k then 0
    else 1 + CleanCount(recs[1..], k - FrameSize(recs[0]))
  }

  /** CleanCount is the largest such number. */
  lemma {:induction false} CleanCountIsLargest(recs: seq<Record>, k: nat, m: nat)
    requires m <= |recs|
    ensures Size(recs[..m]) <= k <==> m <= CleanCount(recs, k)
    decreases m
  {
    if m > 0 {
      FramesFirst(recs[..m]);
      assert recs[..m][1..] == recs[1..][..m - 1];
      if FrameSize(recs[0]) <= k {
        CleanCountIsLargest(recs[1..], k - FrameSize(recs[0]), m - 1);
      }
    }
  }

  /** A cut file goes on after its first record's frame when that is whole; else nothing decodes. */
  lemma TornFirst(recs: seq<Record>, k: nat)
    requires AllFit(recs) && recs != [] && k <= Size(recs)
    ensures var size, rest := FrameSize(recs[0]), Frames(recs[1..]);
            if size <= k then
              k - size <= Size(recs[1..]) && Scan(Frames(recs)[..k]) == [Framed(recs[0], size)] + Scan(rest[..k - size])
            else Scan(Frames(recs)[..k]) == []
  {
    hide Records.ParseRecord, Records.Frame, Frames, Size;
    var size, rest := FrameSize(recs[0]), Frames(recs[1..]);
    FramesFirst(recs);
    RecordRoundTrip(recs[0], rest);
    ParseDependsOnFrameOnly(Frames(recs), k);
    if size <= k {
      assert Frames(recs)[..k][size..] == rest[..k - size];
    }
  }

  /** Cutting a clean file at any byte leaves exactly the records wholly before the cut. */
  lemma {:induction false} ScanTorn(recs: seq<Record>, k: nat)
    requires AllFit(recs) && k <= Size(recs)
    ensures Scan(Frames(recs)[..k]) == Framing(recs[..CleanCount(recs, k)])
    decreases |recs|
  {
    hide Frames, Size, Scan;
    if recs == [] {
      NothingToParse();
      NoFrames();
    } else {
      var size := FrameSize(recs[0]);
      TornFirst(recs, k);
      if size <= k {
        ScanTorn(recs[1..], k - size);
        var n := CleanCount(recs[1..], k - size);
        assert recs[..n + 1][1..] == recs[1..][..n];
        FramingFirst(recs[..n + 1]);
      }
    }
  }

  /** Damage within four bytes of one record's body stops the scan exactly there. */
  lemma ScanDamaged(recs: seq<Record>, r: Record, p: seq<byte>, u: seq<byte>, v: seq<byte>, t: seq<byte>,
      tail: seq<byte>)
    requires AllFit(recs) && Fits(r) && Body(r) == p + u + t
    requires |u| == |v| <= 4 && u != v
    ensures Scan(Frames(recs) + (Sealed(4 + BodySize(r), Crc.Crc32(Body(r)), p + v + t) + tail)) == Framing(recs)
  {
    DamagedRecordRejected(r, p, u, v, t, tail);
    ScanFrames(recs, Sealed(4 + BodySize(r), Crc.Crc32(Body(r)), p + v + t) + tail);
  }
}

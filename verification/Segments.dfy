/**
 One segment of a partition: its log file, its index file and what the program keeps in
 memory about them.
 */
module Segments {
  import opened Types
  import opened Codec
  import opened Records
  import opened Scanning
  import opened SparseIndex

  function RecordsOf(fs: seq<Framed>): (recs: seq<Record>)
    ensures |recs| == |fs|
  {
    seq(|fs|, i requires 0 <= i < |fs| => fs[i].rec)
  }

  /**
   A clean file cut at any byte, scanned: the records wholly before the cut, and the file
   cut to exactly their frames.
   */
  lemma TornFile(recs: seq<Record>, torn: seq<byte>)
    requires AllFit(recs) && torn <= Frames(recs)
    ensures var kept := recs[..CleanCount(recs, |torn|)];
            Scan(torn) == Framing(kept) && Total(Scan(torn)) <= |torn| && torn[..Total(Scan(torn))] == Frames(kept)
  {
    hide Records.Frame, Scanning.Scan, Scanning.Frames, Scanning.Total, Scanning.CleanCount, Scanning.Size, Framing;
    var n := CleanCount(recs, |torn|);
    var kept := recs[..n];
    assert torn == Frames(recs)[..|torn|];
    ScanTorn(recs, |torn|);
    FramingTotal(kept);
    CleanCountIsLargest(recs, |torn|, n);
    FramesPrefix(recs, n);
  }

  lemma FramesPrefix(recs: seq<Record>, n: nat)
    requires n <= |recs|
    ensures Size(recs[..n]) <= Size(recs) && Frames(recs)[..Size(recs[..n])] == Frames(recs[..n])
  {
    hide Scanning.Frames, Scanning.Size;
    FramesConcat(recs[..n], recs[n..]);
    assert recs == recs[..n] + recs[n..];
  }

  lemma SizeNonzero(recs: seq<Record>)
    requires recs != []
    ensures Size(recs) > 0
  {}

  lemma RecordsSnoc(fs: seq<Framed>, f: Framed)
    ensures RecordsOf(fs + [f]) == RecordsOf(fs) + [f.rec]
  {}

  /** The offset of the last record, or -1. */
  function LastOffset(fs: seq<Framed>): int {
    if fs == [] then -1 else ToSigned64(fs[|fs| - 1].rec.offset)
  }

  lemma NoLastOffset()
    ensures LastOffset([]) == -1
  {}

  lemma LastOffsetSnoc(fs: seq<Framed>, f: Framed)
    ensures LastOffset(fs + [f]) == ToSigned64(f.rec.offset)
  {}

  lemma NoRecords()
    ensures RecordsOf([]) == []
  {}

  lemma TotalSnoc(fs: seq<Framed>, f: Framed)
    ensures Total(fs + [f]) == Total(fs) + f.len
  {
    assert (fs + [f])[..|fs|] == fs;
  }

  lemma NothingAppended(fs: seq<Framed>, records: seq<Record>, log: seq<byte>)
    ensures fs + Framing(records[..0]) == fs && log + Frames(records[..0]) == log
  {}

  lemma OneMoreAppended(fs: seq<Framed>, records: seq<Record>, i: nat, log: seq<byte>)
    requires i < |records|
    ensures fs + Framing(records[..i + 1])
         == fs + Framing(records[..i]) + [Framed(records[i], FrameSize(records[i]))]
    ensures log + Frames(records[..i + 1]) == log + Frames(records[..i]) + Frame(records[i])
  {
    hide Scanning.Frames, Framing, Records.Frame;
    var rec := records[i];
    assert records[..i + 1] == records[..i] + [rec];
    FramesSnoc(records[..i], rec);
    Associate(log, Frames(records[..i]), Frame(rec));
    Associate(fs, Framing(records[..i]), [Framed(rec, FrameSize(rec))]);
  }

  /** One turn of a scan loop: decode at the cursor, or find that the scan ends here. */
  method NextRecord(r: Reader, ghost fs: seq<Framed>) returns (rec: Option<Record>)
    requires r.Valid() && ScannedTo(r.data, fs) && r.pos == Total(fs)
    modifies r
    ensures r.Valid()
    ensures rec == None ==> Scan(r.data) == fs
    ensures rec.Some? ==>
              && old(r.pos) < r.pos <= |r.data|
              && var fs' := fs + [Framed(rec.value, r.pos - old(r.pos))];
                 r.pos == Total(fs') && ScannedTo(r.data, fs')
  {
    hide Records.ParseRecord, Scanning.Scan, Scanning.ScannedTo, Scanning.Total;
    rec := DecodeRecord(r);
    if rec == None {
      ScanEnd(r.data, fs);
    } else {
      ScanStep(r.data, fs);
    }
  }

  /** One turn of the index loading loop: a whole entry is there, and the cursor passes it. */
  method NextEntry(r: Reader) returns (e: IndexEntry)
    requires r.Valid() && |r.Rest()| >= ENTRY_SIZE
    modifies r
    ensures r.Valid() && |r.Rest()| == |old(r.Rest())| - ENTRY_SIZE
    ensures ParseIndex(old(r.Rest())) == [e] + ParseIndex(r.Rest())
  {
    hide SparseIndex.ParseIndex, Codec.Value;
    ghost var rest := r.Rest();
    ParseIndexStep(rest);
    var rel := r.GetU32();
    assert r.Rest() == rest[4..];
    var pos := r.GetU64();
    assert rest[4..][..8] == rest[4..12];
    assert r.Rest() == rest[ENTRY_SIZE..];
    e := IndexEntry(rel.value, pos.value);
  }

  /** The entries read so far and those in the bytes left are those of the whole file. */
  predicate IndexRead(file: seq<byte>, read: seq<IndexEntry>, left: seq<byte>) {
    read + ParseIndex(left) == ParseIndex(file)
  }

  lemma IndexReadStart(file: seq<byte>)
    ensures IndexRead(file, [], file)
  {
    hide SparseIndex.ParseIndex;
    assert [] + ParseIndex(file) == ParseIndex(file);
  }

  lemma IndexReadStep(file: seq<byte>, read: seq<IndexEntry>, e: IndexEntry, was: seq<byte>, left: seq<byte>)
    requires IndexRead(file, read, was) && ParseIndex(was) == [e] + ParseIndex(left)
    ensures IndexRead(file, read + [e], left)
  {
    hide SparseIndex.ParseIndex;
    Associate(read, [e], ParseIndex(left));
  }

  lemma IndexReadEnd(file: seq<byte>, read: seq<IndexEntry>, left: seq<byte>)
    requires IndexRead(file, read, left) && |left| < ENTRY_SIZE
    ensures read == ParseIndex(file)
  {
    ParseIndexEnd(left);
  }

  class Segment {
    const base: u64
    const interval: u32
    /** Contents of <base>.log and <base>.index. */
    var log: seq<byte>
    var indexFile: seq<byte>
    var size: nat
    var since: nat
    var index: seq<IndexEntry>

    /** The files and the index hold exactly recs. */
    ghost predicate Holds(recs: seq<Record>)
      reads this
    {
      && log == Frames(recs)
      && size == |log|
      && index == IndexOf(Framing(recs), base, interval).entries
      && indexFile == EncodeIndex(index)
    }

    /** Also the running count is right, so that appending may go on. */
    ghost predicate Active(recs: seq<Record>)
      reads this
    {
      && Holds(recs)
      && since == IndexOf(Framing(recs), base, interval).since
    }

    /** Index and index file are those the frames fs lead to. */
    ghost predicate Indexes(fs: seq<Framed>)
      reads this`index, this`indexFile, this`since
    {
      Cadence(index, since) == IndexOf(fs, base, interval) && indexFile == EncodeIndex(index)
    }

    lemma IndexesNothing()
      requires index == [] && indexFile == [] && since == 0
      ensures Indexes([])
    {
    }

    /** Also the counts are those the frames fs lead to. */
    ghost predicate Cadenced(fs: seq<Framed>)
      reads this
    {
      && Indexes(fs)
      && size == |log| == Total(fs)
    }

    /**
     The index of a segment that was written or recovered is sparse, in memory and on disk:
     entries at least interval bytes apart, twelve bytes each.
     */
    ghost predicate IndexSparse()
      reads this
    {
      && Sparse(index, since, interval, size)
      && (index != [] ==> (|index| - 1) * interval + since <= size)
      && |indexFile| == 12 * |index|
    }

    lemma CadencedIsSparse(fs: seq<Framed>)
      ensures Cadenced(fs) ==> IndexSparse()
    {
      hide SparseIndex.IndexOf;
      IndexIsSparse(fs, base, interval);
      hide SparseIndex.Sparse;
      SparseCount(index, since, interval, size);
    }

    lemma ActiveIsCadenced(recs: seq<Record>)
      ensures Active(recs) <==> log == Frames(recs) && Cadenced(Framing(recs))
    {
      hide Scanning.Frames, Scanning.Size, SparseIndex.IndexOf, SparseIndex.EncodeIndex;
      FramingTotal(recs);
      if Active(recs) {
        ActiveMeans(recs);
      }
    }

    /** A recovered segment, too, can be appended to. */
    lemma RecoveredIsCadenced(bytes: seq<byte>)
      requires RecoveredFrom(bytes)
      ensures Cadenced(Scan(bytes))
    {
      hide Scanning.Scan, Scanning.Total, SparseIndex.IndexOf, SparseIndex.EncodeIndex;
    }

    lemma ActiveMeans(recs: seq<Record>)
      requires Active(recs)
      ensures Holds(recs) && size == |log| == Size(recs)
    {}

    lemma HoldsMeans(recs: seq<Record>)
      requires Holds(recs)
      ensures size == |log| == Size(recs)
    {}

    lemma IndexAscends(recs: seq<Record>)
      requires Holds(recs) && Contiguous(recs, base) && |recs| <= TWO_32
      ensures Ascending(index)
    {
      IndexMeaning(recs, base, interval);
    }

    /** A lookup always lands on the frame of a record not after the one looked for. */
    lemma SeekIsBoundary(recs: seq<Record>, rel: u32) returns (k: nat)
      requires Holds(recs) && Contiguous(recs, base) && |recs| <= TWO_32
      ensures k <= |recs| && k <= rel && FloorPosition(index, rel) == Size(recs[..k])
    {
      IndexMeaning(recs, base, interval);
      var n := FloorCount(index, rel);
      FloorCountSplits(index, rel, n);
      if n == 0 {
        k := 0;
        assert recs[..0] == [];
      } else {
        k := index[n - 1].rel;
      }
    }

    /**
     In any held segment, however it came about, the lookup for a record lands on its frame
     or on an earlier one less than the index interval of bytes before it.
     */
    lemma SeekIsClose(recs: seq<Record>, rel: u32) returns (k: nat)
      requires Holds(recs) && Contiguous(recs, base) && rel < |recs| <= TWO_32
      ensures k <= rel && FloorPosition(index, rel) == Size(recs[..k])
      ensures k == rel || Size(recs[..rel]) - Size(recs[..k]) < interval
    {
      hide SparseIndex.IndexOf, Scanning.Size, Scanning.Frames, SparseIndex.FloorPosition;
      k := SeekBound(recs, base, interval, rel);
    }

    /** Closed files, loaded: what the index file says is taken as it is. */
    ghost predicate LoadedFrom(bytes: seq<byte>, entries: seq<byte>)
      reads this
    {
      log == bytes && indexFile == entries && index == ParseIndex(entries) && size == |log|
    }

    /** Loading the files of a cleanly written segment gives the segment back. */
    lemma LoadedHolds(bytes: seq<byte>, entries: seq<byte>, recs: seq<Record>)
      ensures
        && LoadedFrom(bytes, entries)
        && bytes == Frames(recs) && entries == EncodeIndex(IndexOf(Framing(recs), base, interval).entries)
        && Contiguous(recs, base) && |recs| <= TWO_32 && Size(recs) < TWO_64
        ==> Holds(recs)
    {
      hide Scanning.Frames, Scanning.Size, SparseIndex.EncodeIndex, SparseIndex.ParseIndex, SparseIndex.IndexOf;
      var es := IndexOf(Framing(recs), base, interval).entries;
      if entries == EncodeIndex(es) && Contiguous(recs, base) && |recs| <= TWO_32 && Size(recs) < TWO_64 {
        IndexMeaning(recs, base, interval);
        forall i | 0 <= i < |es|
          ensures es[i].pos < TWO_64
        {
          SizeMonotone(recs, es[i].rel, |recs|);
          assert recs[..|recs|] == recs;
        }
        IndexFileRoundTrip(es, []);
        ParseIndexEnd([]);
        assert EncodeIndex(es) + [] == entries && es + [] == es;
      }
    }

    /** Reading from the frame of record k gives the records from k on. */
    lemma ReadFromBoundary(recs: seq<Record>, k: nat)
      requires Holds(recs) && AllFit(recs) && k <= |recs|
      ensures var pos := Size(recs[..k]);
              recs[k..] == if pos >= |log| then [] else RecordsOf(Scan(log[pos..]))
    {
      hide Scanning.Frames, Scanning.Size, Scanning.Scan, Records.Frame;
      FramesConcat(recs[..k], recs[k..]);
      assert recs == recs[..k] + recs[k..];
      ScanFrames(recs[k..], []);
      NothingToParse();
      assert Frames(recs[k..]) + [] == log[Size(recs[..k])..];
      assert RecordsOf(Framing(recs[k..])) == recs[k..];
      if k < |recs| {
        SizeNonzero(recs[k..]);
      }
    }

    /** The longest run of decodable frames of bytes, and the index appending would have made. */
    ghost predicate RecoveredFrom(bytes: seq<byte>)
      reads this
    {
      var fs := Scan(bytes);
      && Total(fs) <= |bytes|
      && log == bytes[..Total(fs)]
      && size == |log|
      && Indexes(fs)
    }

    /**
     Recovering a clean log file cut at any byte leaves the segment in exactly the state it
     would be in had just the records wholly before the cut been appended to a fresh one.
     */
    lemma TornRecovery(torn: seq<byte>, recs: seq<Record>)
      requires RecoveredFrom(torn) && AllFit(recs) && torn <= Frames(recs)
      ensures Active(recs[..CleanCount(recs, |torn|)])
    {
      hide Scanning.Frames, Scanning.Scan, Scanning.Total, SparseIndex.IndexOf, SparseIndex.EncodeIndex;
      TornFile(recs, torn);
    }

    /** Recovering what a recovery left gives the same files, index and records. */
    lemma RecoveryIdempotent(bytes: seq<byte>)
      requires RecoveredFrom(bytes)
      ensures RecoveredFrom(log) && Scan(log) == Scan(bytes)
    {
      hide Scanning.Scan, Scanning.Total, SparseIndex.IndexOf, SparseIndex.EncodeIndex;
      ScanIdempotent(bytes);
      assert log[..Total(Scan(bytes))] == log;
    }

    /** A segment object on existing files; nothing is read yet. */
    constructor (base: u64, interval: u32, log: seq<byte>, indexFile: seq<byte>)
      ensures this.base == base && this.interval == interval
      ensures this.log == log && this.indexFile == indexFile
      ensures size == 0 && since == 0 && index == []
    {
      this.base := base;
      this.interval := interval;
      this.log := log;
      this.indexFile := indexFile;
      size := 0;
      since := 0;
      index := [];
    }

    /** Opening both files for append creates them if need be and keeps what they hold. */
    method CreateEmpty()
      modifies this
      ensures log == old(log) && indexFile == old(indexFile)
      ensures size == 0 && since == 0 && index == []
      ensures log == [] && indexFile == [] ==> Active([])
    {
      size := 0;
      since := 0;
      index := [];
      assert Framing([]) == [];
    }

    method AppendIndexEntry(rel: u32, pos: nat, persist: bool)
      modifies this`index, this`indexFile
      ensures index == old(index) + [IndexEntry(rel, pos)]
      ensures indexFile == old(indexFile) + if persist then EncodeEntry(IndexEntry(rel, pos)) else []
    {
      index := index + [IndexEntry(rel, pos)];
      if persist {
        var entry := new Buffer();
        entry.PutU32(rel);
        PutPosition(entry, pos);
        indexFile := indexFile + entry.bytes;
      }
    }

    /**
     Start-up of the last segment, for any bytes whatever: keeps the longest run of
     decodable frames, cuts the file there and rebuilds the index, in memory and on disk,
     as appending those records would have. The result is the last offset, or -1.
     */
    method ScanAndRecover() returns (lastOffset: int)
      modifies this
      ensures RecoveredFrom(old(log)) && IndexSparse()
      ensures var fs := Scan(old(log));
              lastOffset == LastOffset(fs)
    {
      hide Records.ParseRecord, Scanning.Scan, Scanning.ScannedTo, Scanning.Total, Indexes, LastOffset;
      var r := new Reader(log);
      index := [];
      since := 0;
      lastOffset := -1;
      var lastGoodPos := 0;
      indexFile := [];
      ghost var fs: seq<Framed> := [];
      var more := true;
      ScanStart(log);
      IndexesNothing();
      NoLastOffset();
      while more && r.pos < |r.data|
        invariant r.Valid() && r.data == log == old(log)
        invariant ScannedTo(log, fs) && Total(fs) == lastGoodPos <= |log|
        invariant more ==> r.pos == lastGoodPos
        invariant !more ==> Scan(log) == fs
        invariant Indexes(fs)
        invariant lastOffset == LastOffset(fs)
        decreases more, |log| - lastGoodPos
      {
        var framePos := r.pos;
        var rec := NextRecord(r, fs);
        if rec == None {
          more := false;
        } else {
          var frameLen := r.pos - framePos;
          AddFrame(rec.value, framePos, frameLen, fs);
          LastOffsetSnoc(fs, Framed(rec.value, frameLen));
          fs := fs + [Framed(rec.value, frameLen)];
          lastOffset := ToSigned64(rec.value.offset);
          lastGoodPos := r.pos;
        }
      }
      ScanEnd(log, fs);
      log := log[..lastGoodPos];
      size := lastGoodPos;
      assert IndexSparse() by { CadencedIsSparse(fs); }
    }

    /** The index step shared by appending and recovering. */
    method AddFrame(rec: Record, framePos: nat, frameLen: nat, ghost fs: seq<Framed>)
      requires Indexes(fs) && framePos == Total(fs)
      modifies this`index, this`indexFile, this`since
      ensures Indexes(fs + [Framed(rec, frameLen)])
    {
      IndexOfSnoc(fs, Framed(rec, frameLen), base, interval);
      var rel := Relative(rec.offset, base);
      if index == [] || since >= interval {
        AppendIndexEntry(rel, framePos, true);
        assert index[..|index| - 1] == old(index);
        since := 0;
      }
      since := since + frameLen;
    }

    /** Start-up of a closed segment: trusts its files. */
    method LoadIndex()
      modifies this
      ensures LoadedFrom(old(log), old(indexFile)) && since == 0
    {
      hide SparseIndex.ParseIndex, Codec.Value, IndexRead;
      var r := new Reader(indexFile);
      index := [];
      assert r.Rest() == indexFile;
      IndexReadStart(indexFile);
      var n := r.Remaining();
      while n >= ENTRY_SIZE
        invariant r.Valid() && r.data == indexFile == old(indexFile) && log == old(log)
        invariant n == |r.Rest()| && IndexRead(indexFile, index, r.Rest())
        decreases n
      {
        ghost var rest := r.Rest();
        var entry := NextEntry(r);
        IndexReadStep(indexFile, index, entry, rest, r.Rest());
        index := index + [entry];
        n := r.Remaining();
      }
      IndexReadEnd(indexFile, index, r.Rest());
      size := |log|;
      since := 0;
    }

    /** Appends records after any frames fs, written here or recovered. */
    method Append(records: seq<Record>, ghost fs: seq<Framed>)
      requires Cadenced(fs)
      modifies this
      ensures Cadenced(fs + Framing(records)) && log == old(log) + Frames(records)
      ensures IndexSparse()
    {
      hide Scanning.Frames, Framing, Cadenced, Records.Frame;
      var i := 0;
      NothingAppended(fs, records, log);
      while i < |records|
        invariant 0 <= i <= |records|
        invariant Cadenced(fs + Framing(records[..i])) && log == old(log) + Frames(records[..i])
      {
        AppendOne(records[i], fs + Framing(records[..i]));
        OneMoreAppended(fs, records, i, old(log));
        i := i + 1;
      }
      assert records[..|records|] == records;
      hide IndexSparse;
      CadencedIsSparse(fs + Framing(records));
    }

    method AppendOne(rec: Record, ghost fs: seq<Framed>)
      requires Cadenced(fs)
      modifies this
      ensures Cadenced(fs + [Framed(rec, FrameSize(rec))]) && log == old(log) + Frame(rec)
    {
      hide Indexes, Records.Frame, Scanning.Total;
      TotalSnoc(fs, Framed(rec, FrameSize(rec)));
      var encoded := new Buffer();
      EncodeRecord(rec, encoded);
      AddFrame(rec, size, |encoded.bytes|, fs);
      log := log + encoded.bytes;
      size := size + |encoded.bytes|;
    }

    /** Every record a scan finds from a byte position on. */
    method ReadFrom(fromPos: nat) returns (out: seq<Record>)
      ensures out == if fromPos >= |log| then [] else RecordsOf(Scan(log[fromPos..]))
    {
      hide Records.ParseRecord, Scanning.Scan, Scanning.ScannedTo, Scanning.Total, RecordsOf;
      out := [];
      if fromPos >= |log| {
        return;
      }
      var data := log[fromPos..];
      var r := new Reader(data);
      ghost var fs: seq<Framed> := [];
      var more := true;
      ScanStart(data);
      NoRecords();
      while more && r.pos < |data|
        invariant r.Valid() && r.data == data
        invariant ScannedTo(data, fs) && Total(fs) <= |data|
        invariant more ==> r.pos == Total(fs)
        invariant !more ==> Scan(data) == fs
        invariant out == RecordsOf(fs)
        decreases more, |data| - Total(fs)
      {
        ghost var pos := r.pos;
        var rec := NextRecord(r, fs);
        if rec == None {
          more := false;
        } else {
          RecordsSnoc(fs, Framed(rec.value, r.pos - pos));
          fs := fs + [Framed(rec.value, r.pos - pos)];
          out := out + [rec.value];
        }
      }
      ScanEnd(data, fs);
    }

    /** The position of the last entry not above rel, or 0 before the first: a binary search. */
    method FindStartPosition(rel: u32) returns (pos: nat)
      requires Ascending(index)
      ensures pos == FloorPosition(index, rel)
    {
      if index == [] || rel < index[0].rel {
        FloorCountSplits(index, rel, 0);
        return 0;
      }
      var lo, hi := 0, |index|;
      while lo < hi
        invariant 0 <= lo <= hi <= |index|
        invariant lo > 0 ==> index[lo - 1].rel <= rel
        invariant hi < |index| ==> rel < index[hi].rel
      {
        var mid := (lo + hi) / 2;
        if rel < index[mid].rel {
          hi := mid;
        } else {
          lo := mid + 1;
        }
      }
      FloorCountSplits(index, rel, lo);
      pos := index[lo - 1].pos;
    }
  }

  /** An eight-byte position; the cast to 64 bits keeps the low bytes. */
  method PutPosition(buf: Buffer, pos: nat)
    modifies buf
    ensures buf.bytes == old(buf.bytes) + BigEndian(pos, 8)
  {
    LowEightBytesOnly(pos);
    buf.PutU64(pos % TWO_64);
  }
}

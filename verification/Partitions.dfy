/**
 A partition: segments in ascending order of base offset, of which the last is appended to.
 Whatever was appended, rolled or recovered, it is one sequence of records with offsets
 0, 1, 2, ..., and reads answer from that sequence.
 */
module Partitions {
  import opened Types
  import opened Codec
  import opened Records
  import opened Scanning
  import opened SparseIndex
  import opened LogRead
  import opened Segments
  import Sorting

  const INDEX_INTERVAL: u32 := 4096
  /** No segment's log file reaches this size: a roll precedes the batch that would pass it. */
  const MAX_LOG_FILE := 2 * TWO_32

  /** What a segment leaves on disk. */
  datatype SegmentFiles = SegmentFiles(log: seq<byte>, index: seq<byte>)

  type Directory = map<u64, SegmentFiles>

  function FilesOf(seg: Segment): SegmentFiles
    reads seg
  {
    SegmentFiles(seg.log, seg.indexFile)
  }

  lemma {:induction false} SizeBoundsFrames(recs: seq<Record>)
    ensures forall i :: 0 <= i < |recs| ==> FrameSize(recs[i]) <= Size(recs)
    ensures 32 * |recs| <= Size(recs)
  {
    if recs != [] {
      SizeBoundsFrames(recs[..|recs| - 1]);
    }
  }

  /** records carry the offsets from next on. */
  ghost predicate Follows(records: seq<Record>, next: nat) {
    Contiguous(records, next) && next + |records| < TWO_63
  }

  class Partition {
    const maxSegBytes: u32
    var segments: seq<Segment>
    var nextOffset: u64
    var hwm: int
    /** The records of the partition, as one sequence. */
    ghost var log: seq<Record>

    ghost function End(i: nat): nat
      requires i < |segments|
      reads `segments, `log, segments
    {
      if i + 1 < |segments| then segments[i + 1].base else |log|
    }

    /** Segment i holds the piece of log from its base offset to the next one's. */
    ghost predicate Piece(i: nat)
      requires i < |segments|
      reads `segments, `log, segments
    {
      && segments[i].base <= End(i) <= |log|
      && segments[i].interval == INDEX_INTERVAL
      && segments[i].Holds(log[segments[i].base..End(i)])
      && |segments[i].log| < MAX_LOG_FILE
    }

    ghost predicate Ordered()
      reads `segments, `log, segments
    {
      && (forall i, j :: 0 <= i < j < |segments| ==> segments[i] != segments[j])
      && (forall i, j :: 0 <= i < j < |segments| ==> segments[i].base < segments[j].base)
    }

    function Last(): Segment
      requires segments != []
      reads `segments
    {
      segments[|segments| - 1]
    }

    /** The segments, in order, hold consecutive pieces of log. */
    ghost predicate Stored()
      reads `segments, `log, segments
    {
      && 0 < |segments| && 0 < maxSegBytes
      && Ordered()
      && segments[0].base == 0
      && (forall i :: 0 <= i < |segments| ==> Piece(i))
      && Last().base <= |log|
      && Last().Active(log[Last().base..])
      && Small(log)
    }

    /** Also the records' offsets are their places. */
    ghost predicate Valid()
      reads this, segments
    {
      && Stored()
      && nextOffset == |log| < TWO_63
      && Contiguous(log, 0)
    }

    constructor (maxSegBytes: u32)
      requires 0 < maxSegBytes
      ensures this.maxSegBytes == maxSegBytes && segments == [] && nextOffset == 0 && hwm == 0
    {
      this.maxSegBytes := maxSegBytes;
      segments := [];
      nextOffset := 0;
      hwm := 0;
      log := [];
    }

    method LogEndOffset() returns (leo: int)
      ensures leo == ToSigned64(nextOffset)
    {
      leo := ToSigned64(nextOffset);
    }

    method SetHighWatermark(h: int)
      modifies this`hwm
      ensures hwm == h
    {
      hwm := h;
    }

    /** Adds an empty segment on files that did not exist before. */
    method RollSegment(base: u64)
      modifies this`segments
      ensures |segments| == |old(segments)| + 1 && segments[..|old(segments)|] == old(segments)
      ensures fresh(segments[|old(segments)|])
      ensures var seg := segments[|old(segments)|];
              seg.base == base && seg.interval == 4096 && seg.Active([])
    {
      var seg := new Segment(base, INDEX_INTERVAL, [], []);
      seg.CreateEmpty();
      segments := segments + [seg];
    }

    /** The bytes of the segment that the next batch goes to: a full segment makes way for an empty one. */
    ghost function WritesAfter(): seq<byte>
      requires segments != []
      reads `segments, segments
    {
      if Last().size >= maxSegBytes then [] else Last().log
    }

    /** Rolls when the last segment is full; afterwards the last segment has room. */
    method RollIfFull()
      requires Valid()
      modifies this`segments
      ensures Valid()
      ensures Last().size < maxSegBytes && Last().log == old(WritesAfter())
      ensures if old(Last().size) < maxSegBytes then segments == old(segments)
              else |segments| == |old(segments)| + 1 && old(segments) == segments[..|segments| - 1]
                   && Last().base == nextOffset && Last().log == []
      ensures forall i :: 0 <= i < |segments| ==> segments[i] in old(segments) || fresh(segments[i])
    {
      hide Segment.Holds, Segment.Active, Scanning.Size, Scanning.Frames, Contiguous, LogRead.Small;
      var last := segments[|segments| - 1];
      if last.size >= maxSegBytes {
        assert Piece(|segments| - 1);
        last.ActiveMeans(log[last.base..]);
        SizeBoundsFrames(log[last.base..]);
        SizeEmpty();
        assert last.base < |log|;
        assert log[|log|..] == [];
        RollSegment(nextOffset);
        ghost var n := |old(segments)|;
        assert forall i :: 0 <= i < n ==> segments[i] == old(segments)[i];
        segments[n].ActiveMeans([]);
        assert log[Last().base..] == log[segments[n].base..End(n)] == [];
        forall i | 0 <= i < n
          ensures Piece(i)
        {
          assert old(Piece(i));
          assert End(i) == old(End(i));
        }
        hide Piece;
        assert Ordered() && Last() == segments[n];
      }
    }

    /** Writes records to the last segment as they are. Less than 2^32 bytes of them keep the index sound. */
    method AppendToLast(records: seq<Record>)
      requires Stored() && Last().size < maxSegBytes
      modifies Last(), this`log
      ensures Size(records) < TWO_32 ==> Stored()
      ensures log == old(log) + records && Last().log == old(Last().log) + Frames(records)
    {
      hide Segment.Holds, Segment.Active, Segment.Cadenced, Scanning.Size, Scanning.Frames;
      var last := segments[|segments| - 1];
      ghost var recs := log[last.base..];
      assert Piece(|segments| - 1);
      last.ActiveMeans(recs);
      last.ActiveIsCadenced(recs);
      last.Append(records, Framing(recs));
      FramingConcat(recs, records);
      FramesConcat(recs, records);
      last.ActiveIsCadenced(recs + records);
      last.ActiveMeans(recs + records);
      log := log + records;
      assert log[last.base..] == recs + records;
      if Size(records) < TWO_32 {
        SizeBoundsFrames(records);
        forall i | 0 <= i < |segments|
          ensures Piece(i)
        {
          assert old(Piece(i));
          if i < |segments| - 1 {
            assert End(i) == old(End(i)) <= |old(log)|;
            assert log[segments[i].base..End(i)] == old(log)[segments[i].base..End(i)];
          } else {
            assert log[segments[i].base..End(i)] == recs + records;
          }
        }
      }
    }

    lemma StoredHasLast()
      requires Stored()
      ensures segments != [] && Last() in segments && 0 < maxSegBytes
    {}

    /** Contiguous records after contiguous records. */
    lemma ContiguousConcat(a: seq<Record>, b: seq<Record>)
      requires Contiguous(a, 0) && Contiguous(b, |a|)
      ensures Contiguous(a + b, 0)
    {}

    /**
     Assigns offsets and the timestamp, and appends. A batch of 2^32 bytes or more, or a log
     of 2^63 records, is written all the same, but then offsets no longer fit their fields.
     */
    method Append(records: seq<Record>, ts: u64) returns (base: int)
      requires Valid()
      modifies this, segments
      ensures Size(records) < TWO_32 && old(nextOffset) + |records| < TWO_63 ==> Valid()
      ensures base == old(nextOffset) && nextOffset == (old(nextOffset) + |records|) % TWO_64
      ensures log == old(log) + Stamped(records, old(nextOffset), ts)
      ensures records != [] ==>
                segments != [] && Last().log == old(WritesAfter()) + Frames(Stamped(records, old(nextOffset), ts))
      ensures if records == [] || old(Last().size) < maxSegBytes then segments == old(segments)
              else |segments| == |old(segments)| + 1 && old(segments) == segments[..|segments| - 1]
                   && Last().base == old(nextOffset)
      ensures hwm == if records == [] then old(hwm) else ToSigned64(nextOffset)
      ensures forall i :: 0 <= i < |segments| ==> segments[i] in old(segments) || fresh(segments[i])
    {
      hide Segment.Holds, Segment.Active, Scanning.Size, Scanning.Frames, Stored, Contiguous;
      if records == [] {
        return nextOffset;
      }
      RollIfFull();
      StoredHasLast();
      base := nextOffset;
      var stamped := Stamp(records, ts);
      StampedSize(records, base, ts);
      AppendToLast(stamped);
      if Size(records) < TWO_32 && base + |records| < TWO_63 {
        StampedContiguous(records, base, ts);
        ContiguousConcat(old(log), stamped);
      }
      hwm := ToSigned64(nextOffset);
    }

    /** Gives each record the next offset and the batch's timestamp. */
    method Stamp(records: seq<Record>, ts: u64) returns (stamped: seq<Record>)
      requires nextOffset < TWO_64
      modifies this`nextOffset
      ensures nextOffset == (old(nextOffset) + |records|) % TWO_64
      ensures stamped == Stamped(records, old(nextOffset), ts)
    {
      stamped := [];
      var i := 0;
      while i < |records|
        invariant 0 <= i <= |records| && nextOffset == (old(nextOffset) + i) % TWO_64
        invariant stamped == Stamped(records, old(nextOffset), ts)[..i]
      {
        stamped := stamped + [records[i].(offset := nextOffset, timestamp := ts)];
        NextIn64Bits(old(nextOffset) + i);
        nextOffset := (nextOffset + 1) % TWO_64;
        i := i + 1;
      }
    }

    lemma NextIn64Bits(n: nat)
      ensures (n % TWO_64 + 1) % TWO_64 == (n + 1) % TWO_64
    {}

    /**
     Appends records that already carry the leader's offsets; the high watermark stays. The
     partition stays valid when they continue it, in less than 2^32 bytes.
     */
    method AppendReplicated(records: seq<Record>)
      requires Valid()
      modifies this, segments
      ensures records == [] ==> Valid() && log == old(log)
      ensures records != [] ==> nextOffset == (records[|records| - 1].offset + 1) % TWO_64
      ensures Follows(records, old(nextOffset)) && Size(records) < TWO_32 ==> Valid()
      ensures log == old(log) + records && hwm == old(hwm)
      ensures if records == [] || old(Last().size) < maxSegBytes then segments == old(segments)
              else |segments| == |old(segments)| + 1 && old(segments) == segments[..|segments| - 1]
                   && Last().base == old(nextOffset)
      ensures forall i :: 0 <= i < |segments| ==> segments[i] in old(segments) || fresh(segments[i])
    {
      hide Segment.Holds, Segment.Active, Scanning.Size, Scanning.Frames, Stored, Contiguous;
      if records == [] {
        return;
      }
      RollIfFull();
      StoredHasLast();
      AppendToLast(records);
      nextOffset := (records[|records| - 1].offset + 1) % TWO_64;
      if Size(records) < TWO_32 && Follows(records, old(nextOffset)) {
        ContiguousConcat(old(log), records);
        ContiguousLast(records, old(nextOffset));
      }
    }

    lemma ContiguousLast(records: seq<Record>, base: nat)
      requires Contiguous(records, base) && records != []
      ensures records[|records| - 1].offset == base + |records| - 1
    {}

    // -------------------------------------------------------------- reading

    /** Segment k is where offset is, or would be. */
    ghost predicate CoversOffset(k: nat, offset: int)
      reads `segments, segments
    {
      && k < |segments|
      && (k == 0 || segments[k].base <= offset)
      && (k + 1 < |segments| ==> offset < segments[k + 1].base)
    }

    method SegmentForOffset(offset: int) returns (found: Segment?, ghost k: nat)
      requires segments != [] ==> Ordered()
      ensures segments == [] ==> found == null
      ensures segments != [] ==> CoversOffset(k, offset) && found == segments[k]
    {
      k := 0;
      if segments == [] {
        return null, 0;
      }
      if offset <= segments[0].base {
        return segments[0], 0;
      }
      found := segments[0];
      var i := 0;
      while i < |segments| && segments[i].base <= offset
        invariant 0 <= i <= |segments|
        invariant k == if i == 0 then 0 else i - 1
        invariant found == segments[k] && segments[k].base <= offset
      {
        found := segments[i];
        k := i;
        i := i + 1;
      }
    }

    ghost function StartOf(i: nat): nat
      requires i <= |segments|
      reads `segments, `log, segments
    {
      if i < |segments| then segments[i].base else |log|
    }

    /** The records of segment i from a seek position on: the log from some place p on. */
    method SegmentRecords(i: nat, startOffset: int, first: bool) returns (recs: seq<Record>, ghost p: nat)
      requires Valid() && i < |segments|
      requires first ==> CoversOffset(i, startOffset)
      ensures StartOf(i) <= p <= StartOf(i + 1) <= |log| && recs == log[p..StartOf(i + 1)]
      ensures if first then p <= Max(startOffset, 0) else p == StartOf(i)
    {
      hide Segment.Holds, Scanning.Size, Scanning.Scan, RecordsOf, Stored, Contiguous, AllFit;
      var seg := segments[i];
      HeldFacts(i);
      ghost var held := log[seg.base..End(i)];
      var fromPos: nat;
      ghost var k: nat;
      fromPos, k := SeekPosition(seg, startOffset, first, held);
      recs := seg.ReadFrom(fromPos);
      seg.ReadFromBoundary(held, k);
      p := seg.base + k;
      assert held[k..] == log[p..StartOf(i + 1)];
    }

    /** Where to start reading a segment: by its index in the first one, else at the front. */
    method SeekPosition(seg: Segment, startOffset: int, first: bool, ghost held: seq<Record>)
      returns (fromPos: nat, ghost k: nat)
      requires seg.Holds(held) && Contiguous(held, seg.base) && |held| <= TWO_32
      requires first && startOffset <= seg.base ==> seg.base <= Max(startOffset, 0)
      ensures k <= |held| && fromPos == Size(held[..k])
      ensures if first then seg.base + k <= Max(startOffset, 0) else k == 0
    {
      hide Segment.Holds, Scanning.Size, Contiguous, SparseIndex.FloorPosition;
      fromPos := 0;
      k := 0;
      if first && startOffset > seg.base {
        seg.IndexAscends(held);
        var rel := (startOffset - seg.base) % TWO_32;
        fromPos := seg.FindStartPosition(rel);
        k := seg.SeekIsBoundary(held, rel);
      } else {
        SizeEmpty();
        assert held[..0] == [];
      }
    }

    lemma HeldFacts(i: nat)
      requires Valid() && i < |segments|
      ensures segments[i].base <= End(i) == StartOf(i + 1) <= |log| && segments[0].base == 0
      ensures var held := log[segments[i].base..End(i)];
              && segments[i].Holds(held)
              && Contiguous(held, segments[i].base)
              && AllFit(held)
              && |held| <= TWO_32
    {
      hide Segment.Holds, Segment.Active, Scanning.Size;
      assert Piece(i);
      var held := log[segments[i].base..End(i)];
      segments[i].HoldsMeans(held);
      SizeBoundsFrames(held);
      assert forall j :: 0 <= j < |held| ==> held[j] == log[segments[i].base + j];
    }

    /** Where the loop over the segments starts: the place of the segment found. */
    method IndexOfSegment(start: Segment, ghost startOffset: int, ghost k: nat) returns (startIdx: nat)
      requires CoversOffset(k, startOffset) && start == segments[k] && Ordered()
      ensures startIdx == k
    {
      startIdx := 0;
      var i := 0;
      while i < |segments|
        invariant 0 <= i <= k && startIdx == 0
      {
        if segments[i] == start {
          return i;
        }
        i := i + 1;
      }
    }

    /** One record through the read loop: take it, skip it, or stop. */
    method Consider(rec: Record, startOffset: int, clamp: int, maxBytes: u32, bytesUsed: u32, result: seq<Record>,
        ghost rest: seq<Record>)
      returns (bytesUsed': u32, result': seq<Record>, done: bool)
      requires rest != [] && rest[0] == rec
      ensures Collect(rest, startOffset, clamp, maxBytes, bytesUsed, result)
           == if done then result' else Collect(rest[1..], startOffset, clamp, maxBytes, bytesUsed', result')
    {
      hide Records.Frame;
      bytesUsed', result', done := bytesUsed, result, false;
      if ToSigned64(rec.offset) < startOffset {
        return;
      }
      if ToSigned64(rec.offset) >= clamp {
        done := true;
        return;
      }
      var encoded := new Buffer();
      EncodeRecord(rec, encoded);
      var recSize := |encoded.bytes| % TWO_32;
      if (bytesUsed + recSize) % TWO_32 > maxBytes {
        if result == [] {
          result' := [rec];
        }
        done := true;
        return;
      }
      bytesUsed' := (bytesUsed + recSize) % TWO_32;
      result' := result + [rec];
    }

    /** The inner loop: the records of one segment, log[p..q], through the read loop. */
    method TakeRecords(segRecords: seq<Record>, startOffset: int, clamp: int, maxBytes: u32, bytesUsed: u32,
        result: seq<Record>, ghost p: nat, ghost q: nat)
      returns (bytesUsed': u32, result': seq<Record>, done: bool)
      requires p <= q <= |log| && segRecords == log[p..q]
      ensures Collect(log[p..], startOffset, clamp, maxBytes, bytesUsed, result)
           == if done then result' else Collect(log[q..], startOffset, clamp, maxBytes, bytesUsed', result')
    {
      hide LogRead.Collect;
      bytesUsed', result', done := bytesUsed, result, false;
      var j := 0;
      ghost var whole := Collect(log[p..], startOffset, clamp, maxBytes, bytesUsed, result);
      while j < |segRecords|
        invariant 0 <= j <= |segRecords|
        invariant whole == Collect(log[p + j..], startOffset, clamp, maxBytes, bytesUsed', result')
      {
        ghost var rest := log[p + j..];
        assert rest[1..] == log[p + j + 1..];
        bytesUsed', result', done := Consider(segRecords[j], startOffset, clamp, maxBytes, bytesUsed', result', rest);
        if done {
          return;
        }
        j := j + 1;
      }
    }

    /**
     The read behind both read and read_up_to_leo, for any start, clamp and byte limit: the
     loop over the whole log, which is the naive answer exactly when the 32-bit byte count
     does not wrap where that answer ends.
     */
    method ReadClamped(startOffset: int, maxBytes: u32, clamp: int) returns (result: seq<Record>)
      requires Valid()
      ensures result == Answer(log, startOffset, clamp, maxBytes)
    {
      hide LogRead.Collect, Stored, Ordered, Contiguous, CoversOffset, StartOf;
      result := [];
      if startOffset >= clamp {
        return;
      }
      ValidOrdered();
      var start: Segment?;
      ghost var k: nat;
      start, k := SegmentForOffset(startOffset);
      var startIdx := IndexOfSegment(start, startOffset, k);
      var bytesUsed: u32 := 0;
      var i := startIdx;
      ghost var whole := Collect(log, startOffset, clamp, maxBytes, 0, []);
      StartsCovered(startOffset);
      assert log[0..] == log;
      CollectSkips(log, startOffset, clamp, maxBytes, 0, StartOf(startIdx));
      while i < |segments|
        invariant startIdx <= i <= |segments|
        invariant StartOf(i) <= |log|
        invariant CoversOffset(startIdx, startOffset)
        invariant i == startIdx ==> bytesUsed == 0 && result == []
        invariant whole == Collect(log[StartOf(i)..], startOffset, clamp, maxBytes, bytesUsed, result)
      {
        var segRecords: seq<Record>;
        ghost var p: nat;
        segRecords, p := SegmentRecords(i, startOffset, i == startIdx);
        if i == startIdx {
          StartsCovered(startOffset);
          CollectSkips(log, startOffset, clamp, maxBytes, StartOf(i), p);
        }
        ghost var next := StartOf(i + 1);
        var done: bool;
        bytesUsed, result, done := TakeRecords(segRecords, startOffset, clamp, maxBytes, bytesUsed, result, p, next);
        if done {
          return;
        }
        i := i + 1;
      }
      CollectEnd(startOffset, clamp, maxBytes, bytesUsed, result);
      assert log[StartOf(i)..] == [];
    }

    lemma CollectEnd(startOffset: int, clamp: int, maxBytes: u32, used: u32, result: seq<Record>)
      ensures Collect([], startOffset, clamp, maxBytes, used, result) == result
    {}

    lemma ValidOrdered()
      requires Valid()
      ensures segments != [] && Ordered()
      ensures StartOf(|segments|) == |log|
    {}

    lemma StartsCovered(offset: int)
      requires Valid()
      ensures forall k :: CoversOffset(k, offset) ==> StartOf(k) <= Max(offset, 0) && StartOf(k) <= |log|
    {
      forall k | CoversOffset(k, offset)
        ensures StartOf(k) <= Max(offset, 0) && StartOf(k) <= |log|
      {
        assert Piece(k);
      }
    }

    /** The consumer's read: up to the high watermark. */
    method Read(startOffset: int, maxBytes: u32) returns (result: seq<Record>)
      requires Valid()
      ensures result == Answer(log, startOffset, hwm, maxBytes)
      ensures var w := Window(log, startOffset, hwm);
              result == NaiveRead(w, maxBytes) <==> CountHolds(w, maxBytes)
    {
      result := ReadClamped(startOffset, maxBytes, hwm);
      ReadIsNaive(startOffset, maxBytes, hwm, result);
    }

    /** The follower's read: up to the end of the log. */
    method ReadUpToLeo(startOffset: int, maxBytes: u32) returns (result: seq<Record>)
      requires Valid()
      ensures result == Answer(log, startOffset, |log|, maxBytes)
      ensures var w := Window(log, startOffset, |log|);
              result == NaiveRead(w, maxBytes) <==> CountHolds(w, maxBytes)
    {
      result := ReadClamped(startOffset, maxBytes, nextOffset);
      ReadIsNaive(startOffset, maxBytes, nextOffset, result);
    }

    lemma ReadIsNaive(startOffset: int, maxBytes: u32, clamp: int, result: seq<Record>)
      requires Valid()
      requires result == Answer(log, startOffset, clamp, maxBytes)
      ensures var w := Window(log, startOffset, clamp);
              result == NaiveRead(w, maxBytes) <==> CountHolds(w, maxBytes)
    {
      if startOffset < clamp {
        CollectIsNaiveRead(log, startOffset, clamp, maxBytes, 0);
        assert log[0..] == log;
      } else {
        assert Window(log, startOffset, clamp) == [];
      }
    }

    // -------------------------------------------------------------- restart

    /** The names of the log files, in whatever order the directory lists them. */
    method ListLogs(dir: Directory) returns (bases: seq<nat>)
      ensures Sorting.Distinct(bases)
      ensures forall b :: b in bases <==> b in dir
      ensures forall b :: b in bases ==> b < TWO_64
    {
      bases := [];
      var keys := dir.Keys;
      while keys != {}
        invariant keys <= dir.Keys
        invariant Sorting.Distinct(bases)
        invariant forall b :: b in bases <==> b in dir && b !in keys
        decreases keys
      {
        var b: u64 :| b in keys;
        bases := bases + [b];
        keys := keys - {b};
      }
    }

    method OpenSegments(dir: Directory, bases: seq<nat>)
      requires forall b :: b in bases ==> b in dir && b < TWO_64
      modifies this`segments
      ensures |segments| == |bases|
      ensures forall i :: 0 <= i < |bases| ==> fresh(segments[i])
      ensures forall i, j :: 0 <= i < j < |bases| ==> segments[i] != segments[j]
      ensures forall i :: 0 <= i < |bases| ==>
                            && segments[i].base == bases[i] && segments[i].interval == INDEX_INTERVAL
                            && segments[i].log == dir[bases[i]].log && segments[i].indexFile == dir[bases[i]].index
    {
      segments := [];
      var i := 0;
      while i < |bases|
        invariant 0 <= i == |segments| <= |bases|
        invariant forall k :: 0 <= k < i ==> fresh(segments[k])
        invariant forall k, j :: 0 <= k < j < i ==> segments[k] != segments[j]
        invariant forall k :: 0 <= k < i ==>
                                && segments[k].base == bases[k] && segments[k].interval == INDEX_INTERVAL
                                && segments[k].log == dir[bases[k]].log && segments[k].indexFile == dir[bases[k]].index
      {
        assert bases[i] in bases;
        var seg := new Segment(bases[i], INDEX_INTERVAL, dir[bases[i]].log, dir[bases[i]].index);
        segments := segments + [seg];
        i := i + 1;
      }
    }

    method LoadClosed()
      requires segments != []
      requires forall i, j :: 0 <= i < j < |segments| ==> segments[i] != segments[j]
      modifies segments
      ensures Last().log == old(Last().log)
      ensures forall i :: 0 <= i < |segments| - 1 ==>
                            segments[i].LoadedFrom(old(segments[i].log), old(segments[i].indexFile))
    {
      var i := 0;
      while i + 1 < |segments|
        invariant 0 <= i <= |segments| - 1
        invariant forall k :: 0 <= k < i ==> segments[k].LoadedFrom(old(segments[k].log), old(segments[k].indexFile))
        invariant forall k :: i <= k < |segments| ==>
                                segments[k].log == old(segments[k].log) && segments[k].indexFile
                                      == old(segments[k].indexFile)
      {
        segments[i].LoadIndex();
        i := i + 1;
      }
    }

    /** The segments are those of dir: the closed ones loaded, the last one recovered. */
    ghost predicate ReopenedFrom(dir: Directory, bases: seq<nat>)
      reads `segments, segments
    {
      && |segments| == |bases| > 0
      && (forall i :: 0 <= i < |bases| ==> segments[i].base == bases[i] && bases[i] in dir)
      && (forall i :: 0 <= i < |bases| ==> segments[i].interval == INDEX_INTERVAL)
      && (forall i, j :: 0 <= i < j < |bases| ==> segments[i] != segments[j])
      && (forall i :: 0 <= i < |bases| - 1 ==> segments[i].LoadedFrom(dir[bases[i]].log, dir[bases[i]].index))
      && Last().RecoveredFrom(dir[bases[|bases| - 1]].log)
    }

    /**
     Start-up on any directory: closed segments are trusted, the last one is scanned, and the
     next offset follows the last record found. On what a crash leaves of a partition holding
     l, the partition holds l again up to the last record that survived whole.
     */
    method Recover(dir: Directory, ghost l: seq<Record>) returns (ghost bases: seq<nat>)
      requires 0 < maxSegBytes
      modifies this
      ensures forall b :: b in bases <==> b in dir
      ensures forall i, j :: 0 <= i < j < |bases| ==> bases[i] < bases[j]
      ensures dir == map[] ==> Valid() && log == [] && hwm == 0
      ensures dir != map[] ==>
                && ReopenedFrom(dir, bases)
                && nextOffset == NextOffset(Scan(dir[bases[|bases| - 1]].log), bases[|bases| - 1])
      ensures dir != map[] ==> nextOffset < TWO_64 && hwm == ToSigned64(nextOffset)
      ensures TornDisk(dir, bases, l) ==> Valid() && log == l[..Survivors(dir, bases, l)] && hwm == |log|
      ensures fresh(segments)
    {
      hide Scanning.Scan, Stored, LeftBehind, ReopenedFrom, CleanCount, NextOffset;
      var sorted := SortedLogs(dir);
      bases := sorted;
      OpenSegments(dir, sorted);
      if segments == [] {
        StartEmpty();
        EmptyDirectory(dir, bases);
        return;
      }
      ReopenFiles(dir, sorted);
      assert bases[0] in bases;
      log := if TornDisk(dir, bases, l) then l[..Survivors(dir, bases, l)] else [];
      if TornDisk(dir, bases, l) {
        RestartValid(dir, bases, l);
      }
    }

    method SortedLogs(dir: Directory) returns (sorted: seq<nat>)
      ensures forall b :: b in sorted <==> b in dir
      ensures forall b :: b in sorted ==> b < TWO_64
      ensures forall i, j :: 0 <= i < j < |sorted| ==> sorted[i] < sorted[j]
    {
      var found := ListLogs(dir);
      sorted := Sorting.Sort(found);
      Sorting.SortMembers(found);
      Sorting.SortDistinct(found);
    }

    lemma EmptyDirectory(dir: Directory, bases: seq<nat>)
      requires bases == [] && forall b :: b in bases <==> b in dir
      ensures dir == map[]
    {
      assert forall b: u64 :: b !in dir;
    }

    /** A new partition: one empty segment at offset 0. */
    method StartEmpty()
      requires segments == [] && 0 < maxSegBytes
      modifies this
      ensures Valid() && log == [] && hwm == 0
      ensures fresh(segments)
    {
      hide Segment.Holds, Segment.Active, Scanning.Size;
      RollSegment(0);
      nextOffset := 0;
      hwm := 0;
      log := [];
      segments[0].ActiveMeans([]);
      SizeEmpty();
      assert log[0..End(0)] == log[0..] == [];
    }

    method ReopenFiles(dir: Directory, bases: seq<nat>)
      requires |segments| == |bases| > 0
      requires forall i :: 0 <= i < |bases| ==> bases[i] in dir
      requires forall i, j :: 0 <= i < j < |bases| ==> segments[i] != segments[j]
      requires forall i :: 0 <= i < |bases| ==>
                             && segments[i].base == bases[i] && segments[i].interval == INDEX_INTERVAL
                             && segments[i].log == dir[bases[i]].log && segments[i].indexFile == dir[bases[i]].index
      modifies this`nextOffset, this`hwm, segments
      ensures ReopenedFrom(dir, bases)
      ensures nextOffset == NextOffset(Scan(dir[bases[|bases| - 1]].log), bases[|bases| - 1])
      ensures nextOffset < TWO_64 && hwm == ToSigned64(nextOffset)
    {
      hide Scanning.Scan, SparseIndex.ParseIndex, Segment.RecoveredFrom;
      LoadClosed();
      var last := Last();
      var lastOffset := last.ScanAndRecover();
      nextOffset := if lastOffset >= 0 then lastOffset + 1 else last.base;
      hwm := ToSigned64(nextOffset);
    }

    /** A closed segment holds its piece of l again. */
    lemma RestartClosed(dir: Directory, bases: seq<nat>, l: seq<Record>, i: nat)
      requires ReopenedFrom(dir, bases) && TornDisk(dir, bases, l) && i < |bases| - 1
      requires log == l[..Survivors(dir, bases, l)]
      ensures Piece(i)
    {
      hide Segment.Holds, Segment.LoadedFrom, Scanning.Size, Scanning.Frames, SparseIndex.EncodeIndex,
            SparseIndex.IndexOf, CleanCount;
      hide Segment.RecoveredFrom;
      assert LeftBehind(dir, bases, l, i);
      assert LeftBehind(dir, bases, l, |bases| - 1);
      var recs := l[bases[i]..bases[i + 1]];
      SizeBoundsFrames(recs);
      segments[i].LoadedHolds(dir[bases[i]].log, dir[bases[i]].index, recs);
      LoadedSize(segments[i], dir[bases[i]].log, dir[bases[i]].index);
      LastIsHighest(bases, i + 1);
      assert log[segments[i].base..End(i)] == recs;
    }

    lemma LastIsHighest(bases: seq<nat>, i: nat)
      requires i < |bases| && forall i, j :: 0 <= i < j < |bases| ==> bases[i] < bases[j]
      ensures bases[i] <= bases[|bases| - 1]
    {}

    lemma LoadedSize(seg: Segment, bytes: seq<byte>, entries: seq<byte>)
      requires seg.LoadedFrom(bytes, entries)
      ensures seg.log == bytes
    {}

    /** The last segment holds what survived of its piece of l. */
    lemma RestartLast(dir: Directory, bases: seq<nat>, l: seq<Record>)
      requires ReopenedFrom(dir, bases) && TornDisk(dir, bases, l)
      requires log == l[..Survivors(dir, bases, l)]
      ensures Piece(|bases| - 1)
      ensures Last().base <= |log| && Last().Active(log[Last().base..])
      ensures NextOffset(Scan(dir[bases[|bases| - 1]].log), bases[|bases| - 1]) == |log|
    {
      hide Segment.Holds, Segment.Active, Segment.RecoveredFrom, Segment.LoadedFrom, Scanning.Size, Scanning.Frames,
            Scanning.Scan, CleanCount;
      var i := |bases| - 1;
      assert LeftBehind(dir, bases, l, i);
      var seg, recs, torn := segments[i], l[bases[i]..], dir[bases[i]].log;
      var n := CleanCount(recs, |torn|);
      seg.TornRecovery(torn, recs);
      TornFile(recs, torn);
      assert log[seg.base..] == log[seg.base..End(i)] == recs[..n];
      seg.ActiveMeans(recs[..n]);
      CleanCountIsLargest(recs, |torn|, n);
      SizeMonotone(recs, n, |recs|);
      assert recs[..|recs|] == recs;
    }

    /** dir is this partition's directory, but the last log file may have been cut anywhere. */
    ghost predicate LeavesDirectory(dir: Directory, bases: seq<nat>)
      reads `segments, segments
    {
      && |bases| == |segments| > 0
      && (forall i :: 0 <= i < |bases| ==> bases[i] == segments[i].base && bases[i] in dir)
      && (forall b :: b in dir ==> b in bases)
      && (forall i :: 0 <= i < |bases| - 1 ==> dir[bases[i]] == FilesOf(segments[i]))
      && dir[bases[|bases| - 1]].log <= Last().log
    }

    /**
     Whatever appends and rolls came before, a crash that cuts the active log file leaves a
     directory to restart from; an uncut file loses nothing.
     */
    lemma CrashLeavesTornDisk(dir: Directory, bases: seq<nat>)
      requires Valid() && LeavesDirectory(dir, bases)
      ensures TornDisk(dir, bases, log)
      ensures dir[bases[|bases| - 1]].log == Last().log ==> Survivors(dir, bases, log) == |log|
    {
      hide Scanning.Frames, Scanning.Size, SparseIndex.EncodeIndex, SparseIndex.IndexOf, CleanCount;
      forall i | 0 <= i < |bases|
        ensures LeftBehind(dir, bases, log, i)
      {
        PieceOnDisk(dir, bases, i);
      }
      var recs := log[Last().base..];
      Last().ActiveMeans(recs);
      assert recs[..|recs|] == recs;
      CleanCountIsLargest(recs, Size(recs), |recs|);
    }

    /** The process ends: the files stay, but of the active log file only the first cut bytes. */
    method Crash(cut: nat) returns (dir: Directory, ghost bases: seq<nat>)
      requires Valid()
      ensures LeavesDirectory(dir, bases)
      ensures dir[Last().base].log == if cut < |Last().log| then Last().log[..cut] else Last().log
    {
      hide Stored;
      StoredHasLast();
      ValidOrdered();
      hide Valid;
      dir, bases := map[], [];
      var i := 0;
      while i < |segments|
        invariant 0 <= i <= |segments| && |bases| == i
        invariant forall k :: 0 <= k < i ==> bases[k] == segments[k].base
        invariant forall b :: b in dir <==> b in bases
        invariant forall k :: 0 <= k < i ==>
                                segments[k].base in dir && dir[segments[k].base] == FilesOf(segments[k])
      {
        dir := dir[segments[i].base := FilesOf(segments[i])];
        bases := bases + [segments[i].base];
        i := i + 1;
      }
      if cut < |Last().log| {
        dir := dir[Last().base := SegmentFiles(Last().log[..cut], Last().indexFile)];
      }
    }

    lemma PieceOnDisk(dir: Directory, bases: seq<nat>, i: nat)
      requires i < |bases|
      ensures Valid() && LeavesDirectory(dir, bases) ==> LeftBehind(dir, bases, log, i)
    {
      hide Scanning.Frames, Scanning.Size, SparseIndex.EncodeIndex, SparseIndex.IndexOf, Segment.Active;
      if Valid() && LeavesDirectory(dir, bases) {
        assert Piece(i);
        if i == |bases| - 1 {
          assert log[bases[i]..] == log[bases[i]..End(i)];
        } else {
          assert Piece(i + 1);
        }
      }
    }

    /** After a crash and a restart the whole invariant holds again. */
    lemma RestartValid(dir: Directory, bases: seq<nat>, l: seq<Record>)
      requires ReopenedFrom(dir, bases) && TornDisk(dir, bases, l)
      requires log == l[..Survivors(dir, bases, l)]
      requires nextOffset == NextOffset(Scan(dir[bases[|bases| - 1]].log), bases[|bases| - 1])
      requires 0 < maxSegBytes
      ensures Valid()
    {
      hide Segment.Holds, Segment.Active, Piece;
      RestartLast(dir, bases, l);
      forall i | 0 <= i < |segments|
        ensures Piece(i)
      {
        if i < |segments| - 1 {
          RestartClosed(dir, bases, l, i);
        }
      }
    }
  }

  /** One past the last record scanned, or the base offset of an empty last segment. */
  function NextOffset(fs: seq<Framed>, base: nat): nat {
    var last := if fs == [] then -1 else ToSigned64(fs[|fs| - 1].rec.offset);
    if last >= 0 then last + 1 else base
  }

  /** What a partition holding l leaves of its i-th segment: all of it, or for the last a cut log. */
  ghost predicate LeftBehind(dir: Directory, bases: seq<nat>, l: seq<Record>, i: nat)
    requires i < |bases|
  {
    && bases[i] in dir && bases[i] <= |l|
    && if i + 1 < |bases| then
         && bases[i] <= bases[i + 1] <= |l|
         && var recs := l[bases[i]..bases[i + 1]];
            && dir[bases[i]].log == Frames(recs)
            && dir[bases[i]].index == EncodeIndex(IndexOf(Framing(recs), bases[i], INDEX_INTERVAL).entries)
            && Size(recs) < MAX_LOG_FILE
       else
         && dir[bases[i]].log <= Frames(l[bases[i]..])
         && Size(l[bases[i]..]) < MAX_LOG_FILE
  }

  ghost predicate TornDisk(dir: Directory, bases: seq<nat>, l: seq<Record>) {
    && bases != [] && bases[0] == 0
    && (forall i, j :: 0 <= i < j < |bases| ==> bases[i] < bases[j])
    && (forall i :: 0 <= i < |bases| ==> LeftBehind(dir, bases, l, i))
    && Contiguous(l, 0) && Small(l) && |l| < TWO_63
  }

  /** How many records survive: the closed segments' and those whole in the last one. */
  ghost function Survivors(dir: Directory, bases: seq<nat>, l: seq<Record>): (n: nat)
    requires TornDisk(dir, bases, l)
    ensures n <= |l|
  {
    var base := bases[|bases| - 1];
    assert LeftBehind(dir, bases, l, |bases| - 1);
    base + CleanCount(l[base..], |dir[base].log|)
  }

  /** Two ascending lists of the same numbers are one. */
  lemma {:induction false} AscendingIsUnique(a: seq<nat>, b: seq<nat>)
    requires forall i, j :: 0 <= i < j < |a| ==> a[i] < a[j]
    requires forall i, j :: 0 <= i < j < |b| ==> b[i] < b[j]
    requires forall x :: x in a <==> x in b
    ensures a == b
  {
    assert a != [] ==> a[0] in a;
    assert b != [] ==> b[0] in b;
    if a != [] {
      var m, n := |a| - 1, |b| - 1;
      assert a[m] in b && b[n] in a;
      WithoutLast(a);
      WithoutLast(b);
      assert a[m] == b[n];
      forall x ensures x in a[..m] <==> x in b[..n] {
        assert x in a <==> x in b;
      }
      AscendingIsUnique(a[..m], b[..n]);
      assert a == a[..m] + [a[m]] && b == b[..n] + [b[n]];
    }
  }

  lemma WithoutLast(a: seq<nat>)
    requires a != [] && forall i, j :: 0 <= i < j < |a| ==> a[i] < a[j]
    ensures var last := a[|a| - 1];
            forall x :: (x in a ==> x <= last) && (x in a[..|a| - 1] <==> x in a && x != last)
  {
    assert a == a[..|a| - 1] + [a[|a| - 1]];
  }

  /** Of the last segment exactly the records survive whose frames lie wholly in the bytes that are left. */
  lemma SurvivorsAreWhole(dir: Directory, bases: seq<nat>, l: seq<Record>)
    requires TornDisk(dir, bases, l)
    ensures var base := bases[|bases| - 1];
            base in dir && base <= |l|
            && forall m :: base <= m <= |l| ==> (m <= Survivors(dir, bases, l) <==> Size(l[base..m]) <= |dir[base].log|)
  {
    hide CleanCount, Scanning.Size;
    var base := bases[|bases| - 1];
    assert LeftBehind(dir, bases, l, |bases| - 1);
    forall m | base <= m <= |l|
      ensures m <= Survivors(dir, bases, l) <==> Size(l[base..m]) <= |dir[base].log|
    {
      CleanCountIsLargest(l[base..], |dir[base].log|, m - base);
      assert l[base..][..m - base] == l[base..m];
    }
  }

  /** A new object on the files that p left behind holds p's records up to the last whole one. */
  method Restart(p: Partition, dir: Directory, ghost bases: seq<nat>) returns (q: Partition, ghost n: nat)
    requires p.Valid() && p.LeavesDirectory(dir, bases)
    ensures fresh(q) && fresh(q.segments)
    ensures q.Valid() && n <= |p.log| && q.log == p.log[..n] && q.hwm == n
    ensures dir[p.Last().base].log == p.Last().log ==> n == |p.log|
    ensures forall m :: p.Last().base <= m <= |p.log| ==>
              (m <= n <==> Size(p.log[p.Last().base..m]) <= |dir[p.Last().base].log|)
  {
    hide Partition.Stored, Scanning.Size, Contiguous, LeftBehind, CleanCount, Partition.ReopenedFrom;
    p.CrashLeavesTornDisk(dir, bases);
    p.StoredHasLast();
    p.ValidOrdered();
    q := new Partition(p.maxSegBytes);
    ghost var found := q.Recover(dir, p.log);
    AscendingIsUnique(found, bases);
    n := Survivors(dir, bases, p.log);
    SurvivorsAreWhole(dir, bases, p.log);
  }

  /**
   A whole life of a partition: it takes a batch, crashes with its last file cut anywhere,
   restarts as a new object from the files, takes another batch and is read. The new log is
   the first n records of the old one and then the new batch; an uncut file loses nothing.
   */
  method LiveOn(p: Partition, first: seq<Record>, cut: nat, second: seq<Record>, ts: u64, start: int, maxBytes: u32)
    returns (q: Partition, ghost n: nat, result: seq<Record>)
    requires p.Valid() && Size(first) < TWO_32 && Size(second) < TWO_32
    requires p.nextOffset + |first| + |second| < TWO_63
    modifies p, p.segments
    ensures p.Valid() && p.log == old(p.log) + Stamped(first, |old(p.log)|, ts)
    ensures fresh(q) && q.Valid() && n <= |p.log| && q.log == p.log[..n] + Stamped(second, n, ts)
    ensures p.segments != [] && (cut >= |p.Last().log| ==> n == |p.log|)
    ensures result == Answer(q.log, start, |q.log|, maxBytes)
  {
    hide Partition.Stored, Partition.LeavesDirectory, Scanning.Size, Scanning.Frames, Contiguous, Answer, Stamped;
    var _ := p.Append(first, ts);
    p.StoredHasLast();
    var dir: Directory;
    ghost var bases: seq<nat>;
    dir, bases := p.Crash(cut);
    q, n := Restart(p, dir, bases);
    var _ := q.Append(second, ts);
    result := q.Read(start, maxBytes);
  }
}

/**
 The sparse index of a segment: which records get an entry, how an entry is found, and how
 far before a record the entry found for it can lie.
 */
module SparseIndex {
  import opened Types
  import opened Codec
  import opened Records
  import opened Scanning

  const ENTRY_SIZE := 12

  /** A record's offset relative to the segment's base, and the position of its frame. */
  datatype IndexEntry = IndexEntry(rel: u32, pos: nat)

  /** The entries so far, and the bytes written since the last of them was added. */
  datatype Cadence = Cadence(entries: seq<IndexEntry>, since: nat)

  function Relative(offset: u64, base: u64): u32 {
    (offset - base) % TWO_32
  }

  /** The index of a file of frames: an entry first and after every `interval` bytes. */
  function IndexOf(fs: seq<Framed>, base: u64, interval: nat): Cadence {
    if fs == [] then Cadence([], 0)
    else
      var n := |fs| - 1;
      NextCadence(IndexOf(fs[..n], base, interval), IndexEntry(Relative(fs[n].rec.offset, base), Total(fs[..n])),
             fs[n].len, interval)
  }

  /** One more frame of len bytes, whose entry would be e. */
  function NextCadence(c: Cadence, e: IndexEntry, len: nat, interval: nat): Cadence {
    if c.entries == [] || c.since >= interval
    then Cadence(c.entries + [e], len)
    else Cadence(c.entries, c.since + len)
  }

  /** One more frame, as the append loop and the recovery loop take it. */
  lemma IndexOfSnoc(fs: seq<Framed>, f: Framed, base: u64, interval: nat)
    ensures IndexOf(fs + [f], base, interval)
         == NextCadence(IndexOf(fs, base, interval), IndexEntry(Relative(f.rec.offset, base), Total(fs)), f.len,
                        interval)
  {
    assert (fs + [f])[..|fs + [f]| - 1] == fs;
  }

  // ---------------------------------------------------------------- sparseness

  /**
   Entries lie at least interval bytes apart, the first at the front; since counts the bytes
   from the last one to the end. So size bytes have at most one entry and one more for every
   interval.
   */
  predicate Sparse(es: seq<IndexEntry>, since: nat, interval: nat, size: nat) {
    && (es == [] ==> since == 0 == size)
    && (es != [] ==> es[0].pos == 0 && es[|es| - 1].pos + since == size)
    && (forall j :: 0 <= j < |es| - 1 ==> es[j + 1].pos - es[j].pos >= interval)
  }

  lemma SparseSnoc(c: Cadence, e: IndexEntry, len: nat, interval: nat, size: nat)
    requires Sparse(c.entries, c.since, interval, size) && e.pos == size
    ensures var d := NextCadence(c, e, len, interval); Sparse(d.entries, d.since, interval, size + len)
  {}

  /** Whatever the frames, their index is sparse. */
  lemma {:induction false} IndexIsSparse(fs: seq<Framed>, base: u64, interval: nat)
    ensures var c := IndexOf(fs, base, interval); Sparse(c.entries, c.since, interval, Total(fs))
  {
    hide Sparse;
    if fs == [] {
      NothingIsSparse(base, interval);
    } else {
      var n := |fs| - 1;
      IndexIsSparse(fs[..n], base, interval);
      SparseSnoc(IndexOf(fs[..n], base, interval), IndexEntry(Relative(fs[n].rec.offset, base), Total(fs[..n])),
        fs[n].len, interval, Total(fs[..n]));
    }
  }

  lemma NothingIsSparse(base: u64, interval: nat)
    ensures Sparse(IndexOf([], base, interval).entries, IndexOf([], base, interval).since, interval, Total([]))
  {}

  /** A sparse index of size bytes has at most 1 + size / interval entries. */
  lemma {:induction false} SparseCount(es: seq<IndexEntry>, since: nat, interval: nat, size: nat)
    ensures Sparse(es, since, interval, size) && es != [] ==> (|es| - 1) * interval + since <= size
  {
    if Sparse(es, since, interval, size) && |es| > 1 {
      var front := es[..|es| - 1];
      SparseCount(front, 0, interval, front[|front| - 1].pos);
      assert (|es| - 1) * interval == (|front| - 1) * interval + interval;
    }
  }

  // ---------------------------------------------------------------- lookup

  predicate Ascending(es: seq<IndexEntry>) {
    forall i, j :: 0 <= i < j < |es| ==> es[i].rel < es[j].rel && es[i].pos < es[j].pos
  }

  /** How many entries a lookup for rel passes: up to the last one not above rel. */
  function FloorCount(es: seq<IndexEntry>, rel: int): (n: nat)
    ensures n <= |es|
  {
    if es == [] then 0
    else if es[|es| - 1].rel <= rel then |es|
    else FloorCount(es[..|es| - 1], rel)
  }

  function FloorPosition(es: seq<IndexEntry>, rel: int): nat {
    var n := FloorCount(es, rel);
    if n == 0 then 0 else es[n - 1].pos
  }

  /** In an ascending index, the entries before the count are exactly those not above rel. */
  lemma {:induction false} FloorCountSplits(es: seq<IndexEntry>, rel: int, n: nat)
    requires Ascending(es) && n <= |es|
    ensures n == FloorCount(es, rel) <==> (n > 0 ==> es[n - 1].rel <= rel) && (n < |es| ==> rel < es[n].rel)
    decreases |es|
  {
    if es != [] && es[|es| - 1].rel > rel && n < |es| {
      FloorCountSplits(es[..|es| - 1], rel, n);
    }
  }

  // ---------------------------------------------------------------- what the entries mean

  ghost predicate Contiguous(recs: seq<Record>, base: nat) {
    forall i :: 0 <= i < |recs| ==> recs[i].offset == base + i
  }

  /** records with the offsets from base on, in 64 bits, and the timestamp ts. */
  function Stamped(records: seq<Record>, base: nat, ts: u64): (r: seq<Record>)
    ensures |r| == |records|
  {
    seq(|records|, i requires 0 <= i < |records| => records[i].(offset := (base + i) % TWO_64, timestamp := ts))
  }

  /** Stamping numbers the records from base on, dates them all alike, and keeps keys and values. */
  lemma StampedMeans(records: seq<Record>, base: nat, ts: u64)
    ensures var s := Stamped(records, base, ts);
            && |s| == |records|
            && forall i :: 0 <= i < |s| ==>
                 && s[i].key == records[i].key && s[i].value == records[i].value && s[i].timestamp == ts
                 && (base + i < TWO_64 ==> s[i].offset == base + i)
  {}

  lemma {:induction false} StampedSize(records: seq<Record>, base: nat, ts: u64)
    ensures Size(Stamped(records, base, ts)) == Size(records)
  {
    if records != [] {
      var n := |records| - 1;
      StampedSize(records[..n], base, ts);
      assert Stamped(records, base, ts)[..n] == Stamped(records[..n], base, ts);
    }
  }

  lemma StampedContiguous(records: seq<Record>, base: nat, ts: u64)
    requires base + |records| <= TWO_64
    ensures Contiguous(Stamped(records, base, ts), base)
  {}

  /** Every entry names a record by its place and points at that record's frame. */
  ghost predicate Points(es: seq<IndexEntry>, recs: seq<Record>) {
    forall j :: 0 <= j < |es| ==> es[j].rel < |recs| && es[j].pos == Size(recs[..es[j].rel])
  }

  lemma {:induction false} SizeMonotone(recs: seq<Record>, m: nat, n: nat)
    requires m <= n <= |recs|
    ensures Size(recs[..m]) + 32 * (n - m) <= Size(recs[..n])
    decreases n
  {
    if m < n {
      SizeMonotone(recs, m, n - 1);
      assert recs[..n][..n - 1] == recs[..n - 1];
    }
  }

  lemma ContiguousRelative(recs: seq<Record>, base: u64, i: nat)
    requires Contiguous(recs, base) && |recs| <= TWO_32 && i < |recs|
    ensures Relative(recs[i].offset, base) == i
  {}

  /**
   The entries point at the records they name, ascend strictly in both components and start
   with the first record; the running count is the distance from the last entry.
   */
  ghost predicate Describes(c: Cadence, recs: seq<Record>) {
    && Points(c.entries, recs)
    && Ascending(c.entries)
    && (recs == [] ==> c == Cadence([], 0))
    && (recs != [] ==>
          && c.entries != []
          && c.entries[0] == IndexEntry(0, 0)
          && c.since == Size(recs) - c.entries[|c.entries| - 1].pos)
  }

  /** Entries go on pointing at their records, before the end, when a record is added. */
  lemma PointsKept(es: seq<IndexEntry>, recs: seq<Record>, r: Record)
    requires Points(es, recs)
    ensures Points(es, recs + [r])
    ensures forall j :: 0 <= j < |es| ==> es[j].pos < Size(recs)
  {
    hide Scanning.Size;
    forall j | 0 <= j < |es|
      ensures es[j].pos == Size((recs + [r])[..es[j].rel]) && es[j].pos < Size(recs)
    {
      assert (recs + [r])[..es[j].rel] == recs[..es[j].rel];
      SizeMonotone(recs, es[j].rel, |recs|);
      assert recs[..|recs|] == recs;
    }
  }

  lemma SizeSnoc(recs: seq<Record>, r: Record)
    ensures Size(recs + [r]) == Size(recs) + FrameSize(r)
  {
    assert (recs + [r])[..|recs + [r]| - 1] == recs;
  }

  lemma KeepDescribes(c: Cadence, recs: seq<Record>, r: Record)
    requires Describes(c, recs) && c.entries != []
    ensures Describes(Cadence(c.entries, c.since + FrameSize(r)), recs + [r])
  {
    hide Scanning.Size;
    PointsKept(c.entries, recs, r);
    SizeSnoc(recs, r);
  }

  lemma AscendingSnoc(es: seq<IndexEntry>, e: IndexEntry)
    requires Ascending(es)
    requires forall j :: 0 <= j < |es| ==> es[j].rel < e.rel && es[j].pos < e.pos
    ensures Ascending(es + [e])
  {}

  lemma PointsSnoc(es: seq<IndexEntry>, recs: seq<Record>, r: Record)
    requires Points(es, recs + [r]) && |recs| < TWO_32
    ensures Points(es + [IndexEntry(|recs|, Size(recs))], recs + [r])
  {
    hide Scanning.Size;
    assert (recs + [r])[..|recs|] == recs;
  }

  lemma AddDescribes(c: Cadence, recs: seq<Record>, r: Record)
    requires Describes(c, recs) && |recs| < TWO_32
    ensures Describes(Cadence(c.entries + [IndexEntry(|recs|, Size(recs))], FrameSize(r)), recs + [r])
  {
    hide Scanning.Size, Ascending;
    PointsKept(c.entries, recs, r);
    SizeSnoc(recs, r);
    PointsSnoc(c.entries, recs, r);
    AscendingSnoc(c.entries, IndexEntry(|recs|, Size(recs)));
    if recs == [] {
      assert recs[..0] == [];
      SizeEmpty();
    }
  }

  lemma SizeEmpty()
    ensures Size([]) == 0
  {}

  lemma ExtendDescribes(c: Cadence, recs: seq<Record>, r: Record, interval: nat)
    requires Describes(c, recs) && |recs| < TWO_32
    ensures Describes(NextCadence(c, IndexEntry(|recs|, Size(recs)), FrameSize(r), interval), recs + [r])
  {
    hide Scanning.Size, Describes;
    if c.entries == [] || c.since >= interval {
      AddDescribes(c, recs, r);
    } else {
      KeepDescribes(c, recs, r);
    }
  }

  /** One more record, seen through Framing. */
  lemma IndexOfFramingSnoc(recs: seq<Record>, r: Record, base: u64, interval: nat)
    ensures IndexOf(Framing(recs + [r]), base, interval)
         == NextCadence(IndexOf(Framing(recs), base, interval), IndexEntry(Relative(r.offset, base), Size(recs)),
                   FrameSize(r), interval)
  {
    assert Framing(recs + [r]) == Framing(recs) + [Framed(r, FrameSize(r))];
    IndexOfSnoc(Framing(recs), Framed(r, FrameSize(r)), base, interval);
    FramingTotal(recs);
  }

  lemma {:induction false} IndexMeaning(recs: seq<Record>, base: u64, interval: nat)
    requires Contiguous(recs, base) && |recs| <= TWO_32
    ensures Describes(IndexOf(Framing(recs), base, interval), recs)
  {
    if recs == [] {
      assert Framing(recs) == [];
    } else {
      var n := |recs| - 1;
      IndexMeaning(recs[..n], base, interval);
      ContiguousRelative(recs, base, n);
      IndexOfFramingSnoc(recs[..n], recs[n], base, interval);
      ExtendDescribes(IndexOf(Framing(recs[..n]), base, interval), recs[..n], recs[n], interval);
      assert recs[..n] + [recs[n]] == recs;
    }
  }

  /** k is where a seek to record m lands: on the frame of record k, near enough. */
  ghost predicate SeekLands(es: seq<IndexEntry>, recs: seq<Record>, interval: nat, m: nat, k: nat) {
    && k <= m < |recs|
    && FloorPosition(es, m) == Size(recs[..k])
    && (Size(recs[..m]) - Size(recs[..k]) < interval || k == m)
  }

  lemma ExtendSeek(c: Cadence, recs: seq<Record>, r: Record, interval: nat, m: nat, k: nat)
    requires Describes(c, recs) && |recs| < TWO_32
    requires SeekLands(c.entries, recs, interval, m, k)
    ensures SeekLands(NextCadence(c, IndexEntry(|recs|, Size(recs)), FrameSize(r), interval).entries, recs + [r],
          interval, m, k)
  {
    hide Scanning.Size, FloorPosition;
    assert (recs + [r])[..k] == recs[..k] && (recs + [r])[..m] == recs[..m];
    FloorIgnoresLarger(c.entries, IndexEntry(|recs|, Size(recs)), m);
  }

  lemma FloorIgnoresLarger(es: seq<IndexEntry>, e: IndexEntry, rel: int)
    requires rel < e.rel
    ensures FloorPosition(es + [e], rel) == FloorPosition(es, rel)
  {
    assert (es + [e])[..|es + [e]| - 1] == es;
  }

  lemma LastSeek(c: Cadence, recs: seq<Record>, r: Record, interval: nat) returns (k: nat)
    requires Describes(c, recs) && |recs| < TWO_32
    ensures SeekLands(NextCadence(c, IndexEntry(|recs|, Size(recs)), FrameSize(r), interval).entries, recs + [r],
          interval, |recs|, k)
  {
    assert (recs + [r])[..|recs|] == recs;
    if c.entries == [] || c.since >= interval {
      k := |recs|;
    } else {
      k := c.entries[|c.entries| - 1].rel;
      assert (recs + [r])[..k] == recs[..k];
    }
  }

  /**
   Seeking to record m lands on a frame boundary at or before it, the frame of some record
   k <= m, with fewer than `interval` bytes between unless it is the record itself.
   */
  lemma {:induction false} SeekBound(recs: seq<Record>, base: u64, interval: nat, m: nat) returns (k: nat)
    requires Contiguous(recs, base) && |recs| <= TWO_32 && m < |recs|
    ensures SeekLands(IndexOf(Framing(recs), base, interval).entries, recs, interval, m, k)
    decreases |recs|
  {
    hide Scanning.Size, IndexOf, FloorPosition, NextCadence, Describes;
    var n := |recs| - 1;
    var c := IndexOf(Framing(recs[..n]), base, interval);
    IndexMeaning(recs[..n], base, interval);
    ContiguousRelative(recs, base, n);
    IndexOfFramingSnoc(recs[..n], recs[n], base, interval);
    assert recs[..n] + [recs[n]] == recs;
    if m < n {
      k := SeekBound(recs[..n], base, interval, m);
      ExtendSeek(c, recs[..n], recs[n], interval, m, k);
    } else {
      k := LastSeek(c, recs[..n], recs[n], interval);
    }
  }

  // ---------------------------------------------------------------- the index file

  function EncodeIndex(es: seq<IndexEntry>): (s: seq<byte>)
    ensures |s| == ENTRY_SIZE * |es|
  {
    if es == [] then [] else EncodeIndex(es[..|es| - 1]) + EncodeEntry(es[|es| - 1])
  }

  function EncodeEntry(e: IndexEntry): (s: seq<byte>)
    ensures |s| == ENTRY_SIZE
  {
    BigEndian(e.rel, 4) + BigEndian(e.pos, 8)
  }

  /** Entry i of an index file: four bytes of relative offset, then eight of position. */
  lemma IndexLayout(es: seq<IndexEntry>, i: nat)
    requires i < |es|
    ensures var f := EncodeIndex(es);
            |f| == 12 * |es| && f[12 * i..12 * i + 12] == BigEndian(es[i].rel, 4) + BigEndian(es[i].pos, 8)
  {
    EntryLies(es, i, 12 * i);
  }

  lemma {:induction false} EntryLies(es: seq<IndexEntry>, i: nat, at: nat)
    requires i < |es| && at == 12 * i
    ensures at + 12 <= |EncodeIndex(es)| && EncodeIndex(es)[at..at + 12] == EncodeEntry(es[i])
  {
    hide EncodeEntry;
    var n := |es| - 1;
    if i < n {
      EntryLies(es[..n], i, at);
      var front := EncodeIndex(es[..n]);
      assert EncodeIndex(es)[..|front|] == front;
      assert EncodeIndex(es)[at..at + 12] == front[at..at + 12];
    }
  }

  /** Whole entries from the front; a short rest is ignored. */
  function ParseIndex(s: seq<byte>): seq<IndexEntry>
    decreases |s|
  {
    if |s| < ENTRY_SIZE then []
    else
      ValueBound(s[..4]);
      WidthBounds();
      [IndexEntry(Value(s[..4]), Value(s[4..12]))] + ParseIndex(s[ENTRY_SIZE..])
  }

  lemma ParseIndexStep(s: seq<byte>)
    requires |s| >= ENTRY_SIZE
    ensures Value(s[..4]) < TWO_32
    ensures ParseIndex(s) == [IndexEntry(Value(s[..4]), Value(s[4..12]))] + ParseIndex(s[ENTRY_SIZE..])
  {
    ValueBound(s[..4]);
    WidthBounds();
  }

  lemma ParseIndexEnd(s: seq<byte>)
    requires |s| < ENTRY_SIZE
    ensures ParseIndex(s) == []
  {}

  lemma EntryRoundTrip(e: IndexEntry, tail: seq<byte>)
    requires e.pos < TWO_64
    ensures ParseIndex(EncodeEntry(e) + tail) == [e] + ParseIndex(tail)
  {
    var s := EncodeEntry(e) + tail;
    WidthBounds();
    IntRoundTrip(e.rel, 4);
    IntRoundTrip(e.pos, 8);
    assert s[..4] == BigEndian(e.rel, 4) && s[4..12] == BigEndian(e.pos, 8);
    assert s[ENTRY_SIZE..] == tail;
  }

  /** Loading an index file gives back the entries that were written to it. */
  lemma {:induction false} IndexFileRoundTrip(es: seq<IndexEntry>, tail: seq<byte>)
    requires forall i :: 0 <= i < |es| ==> es[i].pos < TWO_64
    ensures ParseIndex(EncodeIndex(es) + tail) == es + ParseIndex(tail)
  {
    if es == [] {
      assert EncodeIndex(es) + tail == tail;
    } else {
      var n := |es| - 1;
      var rest := EncodeEntry(es[n]) + tail;
      assert EncodeIndex(es) + tail == EncodeIndex(es[..n]) + rest;
      IndexFileRoundTrip(es[..n], rest);
      EntryRoundTrip(es[n], tail);
      assert es == es[..n] + [es[n]];
    }
  }
}

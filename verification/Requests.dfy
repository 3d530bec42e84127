/**
 * The requests and responses that carry nested lists, as the program encodes
 * and decodes them.
 *
 * Each message has a shape and a value of that shape, so that one theorem
 * about shapes is the round trip of all of them. What is particular to a
 * message is proved here: which of its values are in bounds, which bytes its
 * layout consists of, and that the encoder and the decoder with their loops
 * write and read that layout.
 *
 * A decoder that fails gives nothing. A list is its length in four bytes and
 * then its items; a string is its length in two bytes and then its characters;
 * a record is a frame as it lies in a segment.
 */
module Requests {
  import opened Types
  import opened Codec
  import opened Records
  import opened Wire

  type i16 = x: int | -0x8000 <= x < 0x8000

  datatype ProduceRequest = ProduceRequest(topic: seq<byte>, partition: u32, acks: byte, records: seq<Record>)

  datatype FetchResponse = FetchResponse(
    error: i16, highWatermark: u64, leaderHost: seq<byte>, leaderPort: u32, records: seq<Record>)

  datatype SyncShare = SyncShare(member: seq<byte>, partitions: seq<u32>)

  datatype SyncGroupRequest = SyncGroupRequest(
    groupId: seq<byte>, member: seq<byte>, generation: u32, assignments: seq<SyncShare>)

  datatype AssignmentEntry = AssignmentEntry(
    topic: seq<byte>, partition: u32, leader: u32, replicas: seq<u32>, isr: seq<u32>)

  datatype LeaderAndIsrRequest = LeaderAndIsrRequest(assignments: seq<AssignmentEntry>)

  // ---- The layout of each message ----

  const IDS := List(Int(4))
  const RECORDS := List(Rec)
  const PRODUCE := Both(Str, Both(Int(4), Both(Int(1), RECORDS)))
  const FETCHED := Both(Int(2), Both(Int(8), Both(Str, Both(Int(4), RECORDS))))
  const SHARE := Both(Str, IDS)
  const SYNC := Both(Str, Both(Str, Both(Int(4), List(SHARE))))
  const ENTRY := Both(Str, Both(Int(4), Both(Int(4), Both(IDS, IDS))))
  const LEADER_AND_ISR := List(ENTRY)

  function ItemsOf<T>(xs: seq<T>, val: T -> Val): Val {
    Items(seq(|xs|, i requires 0 <= i < |xs| => val(xs[i])))
  }

  function IdVal(id: u32): Val { Num(id) }

  function RecordVal(r: Record): Val { Of(r) }

  function IdsVal(ids: seq<u32>): Val { ItemsOf(ids, IdVal) }

  function RecordsVal(records: seq<Record>): Val { ItemsOf(records, RecordVal) }

  function ProduceVal(m: ProduceRequest): Val {
    Two(Bytes(m.topic), Two(Num(m.partition), Two(Num(m.acks), RecordsVal(m.records))))
  }

  /** The error code's sixteen bits. */
  function Unsigned16(v: i16): u16 {
    if v < 0 then v + TWO_16 else v
  }

  function Signed16(v: u16): i16 {
    if v < 0x8000 then v else v - TWO_16
  }

  function FetchedVal(m: FetchResponse): Val {
    Two(Num(Unsigned16(m.error)),
        Two(Num(m.highWatermark), Two(Bytes(m.leaderHost), Two(Num(m.leaderPort), RecordsVal(m.records)))))
  }

  function ShareVal(a: SyncShare): Val {
    Two(Bytes(a.member), IdsVal(a.partitions))
  }

  function SyncVal(m: SyncGroupRequest): Val {
    Two(Bytes(m.groupId), Two(Bytes(m.member), Two(Num(m.generation), ItemsOf(m.assignments, ShareVal))))
  }

  function EntryVal(e: AssignmentEntry): Val {
    Two(Bytes(e.topic), Two(Num(e.partition), Two(Num(e.leader), Two(IdsVal(e.replicas), IdsVal(e.isr)))))
  }

  function LeaderAndIsrVal(m: LeaderAndIsrRequest): Val {
    ItemsOf(m.assignments, EntryVal)
  }

  // ---- What is in bounds ----

  predicate ShortString(s: seq<byte>) {
    |s| < TWO_16
  }

  predicate ShortList<T>(s: seq<T>) {
    |s| < TWO_32
  }

  predicate RecordsFit(records: seq<Record>) {
    ShortList(records) && forall i :: 0 <= i < |records| ==> Fits(records[i])
  }

  predicate ProduceFits(m: ProduceRequest) {
    ShortString(m.topic) && RecordsFit(m.records)
  }

  predicate FetchedFits(m: FetchResponse) {
    ShortString(m.leaderHost) && RecordsFit(m.records)
  }

  predicate ShareFits(a: SyncShare) {
    ShortString(a.member) && ShortList(a.partitions)
  }

  predicate SyncFits(m: SyncGroupRequest) {
    && ShortString(m.groupId) && ShortString(m.member) && ShortList(m.assignments)
    && forall i :: 0 <= i < |m.assignments| ==> ShareFits(m.assignments[i])
  }

  predicate EntryFits(e: AssignmentEntry) {
    ShortString(e.topic) && ShortList(e.replicas) && ShortList(e.isr)
  }

  predicate LeaderAndIsrFits(m: LeaderAndIsrRequest) {
    ShortList(m.assignments) && forall i :: 0 <= i < |m.assignments| ==> EntryFits(m.assignments[i])
  }

  /** A list has the shape of its items and is in bounds when it is short and they are. */
  lemma ListShape<T>(xs: seq<T>, val: T -> Val, item: Shape, fits: T -> bool)
    requires forall i :: 0 <= i < |xs| ==> HasShape(item, val(xs[i])) && (InBounds(item, val(xs[i])) <==> fits(xs[i]))
    ensures HasShape(List(item), ItemsOf(xs, val))
    ensures InBounds(List(item), ItemsOf(xs, val)) <==> ShortList(xs) && forall i :: 0 <= i < |xs| ==> fits(xs[i])
  {
    var v := ItemsOf(xs, val);
    assert forall i :: 0 <= i < |xs| ==> v.items[i] == val(xs[i]);
    assert InBounds(List(item), v) <==> |xs| < TWO_32 && forall i :: 0 <= i < |xs| ==> InBounds(item, v.items[i]);
  }

  lemma IdsShape(ids: seq<u32>)
    ensures HasShape(IDS, IdsVal(ids)) && (InBounds(IDS, IdsVal(ids)) <==> ShortList(ids))
  {
    WidthBounds();
    ListShape(ids, IdVal, Int(4), (id: u32) => true);
  }

  lemma RecordsShape(records: seq<Record>)
    ensures HasShape(RECORDS, RecordsVal(records)) && (InBounds(RECORDS, RecordsVal(records)) <==> RecordsFit(records))
  {
    ListShape(records, RecordVal, Rec, Fits);
  }

  lemma ProduceShape(m: ProduceRequest)
    ensures HasShape(PRODUCE, ProduceVal(m)) && (InBounds(PRODUCE, ProduceVal(m)) <==> ProduceFits(m))
  {
    hide RecordsVal, RecordsFit;
    WidthBounds();
    RecordsShape(m.records);
  }

  lemma FetchedShape(m: FetchResponse)
    ensures HasShape(FETCHED, FetchedVal(m)) && (InBounds(FETCHED, FetchedVal(m)) <==> FetchedFits(m))
  {
    hide RecordsVal, RecordsFit;
    WidthBounds();
    RecordsShape(m.records);
  }

  lemma ShareShape(a: SyncShare)
    ensures HasShape(SHARE, ShareVal(a)) && (InBounds(SHARE, ShareVal(a)) <==> ShareFits(a))
  {
    hide IdsVal;
    IdsShape(a.partitions);
  }

  lemma EntryShape(e: AssignmentEntry)
    ensures HasShape(ENTRY, EntryVal(e)) && (InBounds(ENTRY, EntryVal(e)) <==> EntryFits(e))
  {
    hide IdsVal;
    WidthBounds();
    IdsShape(e.replicas);
    IdsShape(e.isr);
  }

  lemma SyncShape(m: SyncGroupRequest)
    ensures HasShape(SYNC, SyncVal(m)) && (InBounds(SYNC, SyncVal(m)) <==> SyncFits(m))
  {
    WidthBounds();
    forall i | 0 <= i < |m.assignments|
      ensures HasShape(SHARE, ShareVal(m.assignments[i]))
      ensures InBounds(SHARE, ShareVal(m.assignments[i])) <==> ShareFits(m.assignments[i])
    {
      ShareShape(m.assignments[i]);
    }
    ListShape(m.assignments, ShareVal, SHARE, ShareFits);
    hide ItemsOf, ShareFits;
    var list := ItemsOf(m.assignments, ShareVal);
    assert HasShape(List(SHARE), list);
  }

  lemma LeaderAndIsrShape(m: LeaderAndIsrRequest)
    ensures HasShape(LEADER_AND_ISR, LeaderAndIsrVal(m))
    ensures InBounds(LEADER_AND_ISR, LeaderAndIsrVal(m)) <==> LeaderAndIsrFits(m)
  {
    forall i | 0 <= i < |m.assignments|
      ensures HasShape(ENTRY, EntryVal(m.assignments[i]))
      ensures InBounds(ENTRY, EntryVal(m.assignments[i])) <==> EntryFits(m.assignments[i])
    {
      EntryShape(m.assignments[i]);
    }
    ListShape(m.assignments, EntryVal, ENTRY, EntryFits);
  }

  // ---- Lists, item by item ----

  /** What a list encoder has written after its count and i items. */
  function PutSome<T>(xs: seq<T>, val: T -> Val, item: Shape, i: nat): seq<byte>
    requires i <= |xs| && forall k :: 0 <= k < |xs| ==> HasShape(item, val(xs[k]))
  {
    var items := ItemsOf(xs[..i], val).items;
    assert forall k :: 0 <= k < i ==> items[k] == val(xs[k]);
    BigEndian(|xs|, 4) + PutItems(item, items)
  }

  lemma PutNone<T>(xs: seq<T>, val: T -> Val, item: Shape)
    requires forall k :: 0 <= k < |xs| ==> HasShape(item, val(xs[k]))
    ensures PutSome(xs, val, item, 0) == BigEndian(|xs|, 4)
  {
    hide HasShape;
  }

  lemma PutMore<T>(xs: seq<T>, val: T -> Val, item: Shape, i: nat)
    requires i < |xs| && forall k :: 0 <= k < |xs| ==> HasShape(item, val(xs[k]))
    ensures PutSome(xs, val, item, i + 1) == PutSome(xs, val, item, i) + Put(item, val(xs[i]))
  {
    hide HasShape, Put;
    var all := ItemsOf(xs[..i + 1], val).items;
    assert all[..i] == ItemsOf(xs[..i], val).items;
    assert all[i] == val(xs[i]);
  }

  lemma PutAll<T>(xs: seq<T>, val: T -> Val, item: Shape)
    requires forall k :: 0 <= k < |xs| ==> HasShape(item, val(xs[k]))
    ensures HasShape(List(item), ItemsOf(xs, val))
    ensures PutSome(xs, val, item, |xs|) == Put(List(item), ItemsOf(xs, val))
  {
    hide PutItems;
    assert xs[..|xs|] == xs;
  }

  // ---- The bytes of each message ----

  /** The items one after the other. */
  function Chain<T>(xs: seq<T>, bytes: T -> seq<byte>): seq<byte> {
    if xs == [] then [] else Chain(xs[..|xs| - 1], bytes) + bytes(xs[|xs| - 1])
  }

  /** A list: its length, then its items. */
  function Counted<T>(xs: seq<T>, bytes: T -> seq<byte>): seq<byte> {
    BigEndian(|xs|, 4) + Chain(xs, bytes)
  }

  lemma {:induction false} SomeLayout<T>(xs: seq<T>, val: T -> Val, item: Shape, bytes: T -> seq<byte>, i: nat)
    requires i <= |xs|
    requires forall k :: 0 <= k < |xs| ==> HasShape(item, val(xs[k])) && Put(item, val(xs[k])) == bytes(xs[k])
    ensures PutSome(xs, val, item, i) == BigEndian(|xs|, 4) + Chain(xs[..i], bytes)
  {
    hide PutSome, HasShape, Put, BigEndian;
    if i == 0 {
      PutNone(xs, val, item);
    } else {
      SomeLayout(xs, val, item, bytes, i - 1);
      PutMore(xs, val, item, i - 1);
      assert xs[..i][..i - 1] == xs[..i - 1];
    }
  }

  lemma ListLayout<T>(xs: seq<T>, val: T -> Val, item: Shape, bytes: T -> seq<byte>)
    requires forall k :: 0 <= k < |xs| ==> HasShape(item, val(xs[k])) && Put(item, val(xs[k])) == bytes(xs[k])
    ensures HasShape(List(item), ItemsOf(xs, val)) && Put(List(item), ItemsOf(xs, val)) == Counted(xs, bytes)
  {
    hide PutSome, Put, BigEndian;
    PutAll(xs, val, item);
    SomeLayout(xs, val, item, bytes, |xs|);
    assert xs[..|xs|] == xs;
  }

  function IdBytes(id: u32): seq<byte> { BigEndian(id, 4) }

  function ShareBytes(a: SyncShare): seq<byte> {
    PutString(a.member) + Counted(a.partitions, IdBytes)
  }

  function EntryBytes(e: AssignmentEntry): seq<byte> {
    PutString(e.topic) + BigEndian(e.partition, 4) + BigEndian(e.leader, 4)
    + Counted(e.replicas, IdBytes) + Counted(e.isr, IdBytes)
  }

  lemma IdsLayout(ids: seq<u32>)
    ensures HasShape(IDS, IdsVal(ids)) && Put(IDS, IdsVal(ids)) == Counted(ids, IdBytes)
  {
    ListLayout(ids, IdVal, Int(4), IdBytes);
  }

  lemma RecordsLayout(records: seq<Record>)
    ensures HasShape(RECORDS, RecordsVal(records)) && Put(RECORDS, RecordsVal(records)) == Counted(records, Frame)
  {
    hide Frame;
    ListLayout(records, RecordVal, Rec, Frame);
  }

  lemma ProduceLayout(m: ProduceRequest)
    ensures HasShape(PRODUCE, ProduceVal(m))
    ensures Put(PRODUCE, ProduceVal(m))
         == PutString(m.topic) + BigEndian(m.partition, 4) + [m.acks] + Counted(m.records, Frame)
  {
    hide PutString, RecordsVal, Counted, Frame, PutItems;
    RecordsLayout(m.records);
    OneByte(m.acks);
    hide BigEndian;
  }

  lemma OneByte(b: byte)
    ensures BigEndian(b, 1) == [b]
  {
    assert BigEndian(b / 256, 0) == [];
  }

  lemma FetchedLayout(m: FetchResponse)
    ensures HasShape(FETCHED, FetchedVal(m))
    ensures Put(FETCHED, FetchedVal(m))
         == BigEndian(if m.error < 0 then m.error + 0x1_0000 else m.error, 2) + BigEndian(m.highWatermark, 8)
            + PutString(m.leaderHost) + BigEndian(m.leaderPort, 4) + Counted(m.records, Frame)
  {
    hide PutString, RecordsVal, Counted, Frame, PutItems, BigEndian;
    RecordsLayout(m.records);
  }

  lemma ShareLayout(a: SyncShare)
    ensures HasShape(SHARE, ShareVal(a)) && Put(SHARE, ShareVal(a)) == ShareBytes(a)
  {
    hide PutString, IdsVal, Counted, PutItems;
    IdsLayout(a.partitions);
  }

  lemma SyncLayout(m: SyncGroupRequest)
    ensures HasShape(SYNC, SyncVal(m))
    ensures Put(SYNC, SyncVal(m))
         == PutString(m.groupId) + PutString(m.member) + BigEndian(m.generation, 4)
            + Counted(m.assignments, ShareBytes)
  {
    hide PutString, Counted, BigEndian, ItemsOf, ShareBytes;
    SharesLayout(m.assignments);
    var list := ItemsOf(m.assignments, ShareVal);
    assert HasShape(List(SHARE), list);
    hide PutItems;
  }

  lemma SharesLayout(shares: seq<SyncShare>)
    ensures HasShape(List(SHARE), ItemsOf(shares, ShareVal))
    ensures Put(List(SHARE), ItemsOf(shares, ShareVal)) == Counted(shares, ShareBytes)
  {
    hide HasShape, Put, ShareVal, ShareBytes;
    forall k | 0 <= k < |shares|
      ensures HasShape(SHARE, ShareVal(shares[k])) && Put(SHARE, ShareVal(shares[k])) == ShareBytes(shares[k])
    {
      ShareLayout(shares[k]);
    }
    ListLayout(shares, ShareVal, SHARE, ShareBytes);
  }

  lemma EntryLayout(e: AssignmentEntry)
    ensures HasShape(ENTRY, EntryVal(e)) && Put(ENTRY, EntryVal(e)) == EntryBytes(e)
  {
    hide PutString, IdsVal, Counted, PutItems, BigEndian;
    IdsLayout(e.replicas);
    IdsLayout(e.isr);
  }

  lemma LeaderAndIsrLayout(m: LeaderAndIsrRequest)
    ensures HasShape(LEADER_AND_ISR, LeaderAndIsrVal(m))
    ensures Put(LEADER_AND_ISR, LeaderAndIsrVal(m)) == Counted(m.assignments, EntryBytes)
  {
    hide HasShape, Put, EntryVal, EntryBytes;
    forall k | 0 <= k < |m.assignments|
      ensures HasShape(ENTRY, EntryVal(m.assignments[k]))
      ensures Put(ENTRY, EntryVal(m.assignments[k])) == EntryBytes(m.assignments[k])
    {
      EntryLayout(m.assignments[k]);
    }
    ListLayout(m.assignments, EntryVal, ENTRY, EntryBytes);
  }

  // ---- Encoders ----

  method PutCount(buf: Buffer, n: nat)
    modifies buf
    ensures buf.bytes == old(buf.bytes) + BigEndian(n, 4)
  {
    LowFourBytesOnly(n);
    buf.PutU32(n % TWO_32);
  }

  method PutIds(buf: Buffer, ids: seq<u32>)
    modifies buf
    ensures HasShape(IDS, IdsVal(ids))
    ensures buf.bytes == old(buf.bytes) + Put(IDS, IdsVal(ids))
  {
    hide BigEndian, PutSome, ItemsOf;
    ghost var before := buf.bytes;
    PutNone(ids, IdVal, Int(4));
    PutCount(buf, |ids|);
    var i := 0;
    while i < |ids|
      invariant 0 <= i <= |ids| && buf.bytes == before + PutSome(ids, IdVal, Int(4), i)
    {
      PutMore(ids, IdVal, Int(4), i);
      buf.PutU32(ids[i]);
      i := i + 1;
    }
    PutAll(ids, IdVal, Int(4));
  }

  method PutRecords(buf: Buffer, records: seq<Record>)
    modifies buf
    ensures HasShape(RECORDS, RecordsVal(records))
    ensures buf.bytes == old(buf.bytes) + Put(RECORDS, RecordsVal(records))
  {
    hide BigEndian, PutSome, ItemsOf, Frame;
    ghost var before := buf.bytes;
    PutNone(records, RecordVal, Rec);
    PutCount(buf, |records|);
    var i := 0;
    while i < |records|
      invariant 0 <= i <= |records| && buf.bytes == before + PutSome(records, RecordVal, Rec, i)
    {
      PutMore(records, RecordVal, Rec, i);
      EncodeRecord(records[i], buf);
      i := i + 1;
    }
    PutAll(records, RecordVal, Rec);
  }

  method EncodeProduce(m: ProduceRequest, buf: Buffer)
    modifies buf
    ensures HasShape(PRODUCE, ProduceVal(m))
    ensures buf.bytes == old(buf.bytes) + Put(PRODUCE, ProduceVal(m))
  {
    hide BigEndian, PutString, RecordsVal, PutItems;
    ProduceShape(m);
    buf.PutSizedString(m.topic);
    buf.PutU32(m.partition);
    buf.PutU8(m.acks);
    PutRecords(buf, m.records);
  }

  method EncodeFetched(m: FetchResponse, buf: Buffer)
    modifies buf
    ensures HasShape(FETCHED, FetchedVal(m))
    ensures buf.bytes == old(buf.bytes) + Put(FETCHED, FetchedVal(m))
  {
    hide BigEndian, PutString, RecordsVal, PutItems;
    FetchedShape(m);
    buf.PutU16(Unsigned16(m.error));
    buf.PutU64(m.highWatermark);
    buf.PutSizedString(m.leaderHost);
    buf.PutU32(m.leaderPort);
    PutRecords(buf, m.records);
  }

  method EncodeShare(a: SyncShare, buf: Buffer)
    modifies buf
    ensures HasShape(SHARE, ShareVal(a))
    ensures buf.bytes == old(buf.bytes) + Put(SHARE, ShareVal(a))
  {
    hide BigEndian, PutString, IdsVal, PutItems;
    ShareShape(a);
    buf.PutSizedString(a.member);
    PutIds(buf, a.partitions);
  }

  method EncodeSync(m: SyncGroupRequest, buf: Buffer)
    modifies buf
    ensures HasShape(SYNC, SyncVal(m))
    ensures buf.bytes == old(buf.bytes) + Put(SYNC, SyncVal(m))
  {
    SyncShape(m);
    SharesShape(m.assignments);
    hide BigEndian, PutString, ItemsOf, PutItems, ShareVal, PutSome;
    buf.PutSizedString(m.groupId);
    buf.PutSizedString(m.member);
    buf.PutU32(m.generation);
    ghost var before := buf.bytes;
    PutNone(m.assignments, ShareVal, SHARE);
    PutCount(buf, |m.assignments|);
    var i := 0;
    while i < |m.assignments|
      invariant 0 <= i <= |m.assignments| && buf.bytes == before + PutSome(m.assignments, ShareVal, SHARE, i)
    {
      PutMore(m.assignments, ShareVal, SHARE, i);
      EncodeShare(m.assignments[i], buf);
      i := i + 1;
    }
    PutAll(m.assignments, ShareVal, SHARE);
  }

  lemma SharesShape(xs: seq<SyncShare>)
    ensures forall k :: 0 <= k < |xs| ==> HasShape(SHARE, ShareVal(xs[k]))
  {
    forall k | 0 <= k < |xs| ensures HasShape(SHARE, ShareVal(xs[k])) {
      ShareShape(xs[k]);
    }
  }

  lemma EntriesShape(xs: seq<AssignmentEntry>)
    ensures forall k :: 0 <= k < |xs| ==> HasShape(ENTRY, EntryVal(xs[k]))
  {
    forall k | 0 <= k < |xs| ensures HasShape(ENTRY, EntryVal(xs[k])) {
      EntryShape(xs[k]);
    }
  }

  method EncodeEntry(e: AssignmentEntry, buf: Buffer)
    modifies buf
    ensures HasShape(ENTRY, EntryVal(e))
    ensures buf.bytes == old(buf.bytes) + Put(ENTRY, EntryVal(e))
  {
    hide BigEndian, PutString, IdsVal, PutItems;
    EntryShape(e);
    buf.PutSizedString(e.topic);
    buf.PutU32(e.partition);
    buf.PutU32(e.leader);
    PutIds(buf, e.replicas);
    PutIds(buf, e.isr);
  }

  method EncodeLeaderAndIsr(m: LeaderAndIsrRequest, buf: Buffer)
    modifies buf
    ensures HasShape(LEADER_AND_ISR, LeaderAndIsrVal(m))
    ensures buf.bytes == old(buf.bytes) + Put(LEADER_AND_ISR, LeaderAndIsrVal(m))
  {
    LeaderAndIsrShape(m);
    EntriesShape(m.assignments);
    hide BigEndian, ItemsOf, PutItems, EntryVal, PutSome;
    ghost var before := buf.bytes;
    PutNone(m.assignments, EntryVal, ENTRY);
    PutCount(buf, |m.assignments|);
    var i := 0;
    while i < |m.assignments|
      invariant 0 <= i <= |m.assignments| && buf.bytes == before + PutSome(m.assignments, EntryVal, ENTRY, i)
    {
      PutMore(m.assignments, EntryVal, ENTRY, i);
      EncodeEntry(m.assignments[i], buf);
      i := i + 1;
    }
    PutAll(m.assignments, EntryVal, ENTRY);
  }

  // ---- Decoders ----

  /** What a decoder got from s is what the layout parses there, and it read just that. */
  predicate Decoded<T>(t: Shape, s: seq<byte>, got: Option<T>, val: T -> Val, used: int) {
    match Parse(t, s)
    case None => got == None
    case Some(p) => got.Some? && val(got.value) == p.value && used == p.used
  }

  /** A list decoder that has got some items out of s, from the first used bytes. */
  predicate Partway<T>(item: Shape, s: seq<byte>, count: nat, got: seq<T>, val: T -> Val, used: nat) {
    && used <= |s| && |got| <= count
    && var front := ItemsOf(got, val).items;
       ParseItems(item, s, count) == match ParseItems(item, s[used..], count - |got|)
                                     case None => None
                                     case Some(p) => Some(Parsed(front + p.value, used + p.used))
  }

  lemma PartwayStart<T>(item: Shape, s: seq<byte>, count: nat, val: T -> Val)
    ensures Partway(item, s, count, [], val, 0)
  {
    hide ParseItems;
    var none: seq<T> := [];
    assert ItemsOf(none, val).items == [] && s[0..] == s;
    var p := ParseItems(item, s, count);
    if p.Some? {
      assert [] + p.value.value == p.value.value;
    }
  }

  /** The next item parses: one further. */
  lemma PartwayStep<T>(item: Shape, s: seq<byte>, count: nat, got: seq<T>, val: T -> Val, used: nat, x: T, n: nat)
    requires Partway(item, s, count, got, val, used) && |got| < count
    requires Parse(item, s[used..]) == Some(Parsed(val(x), n)) && used + n <= |s|
    ensures Partway(item, s, count, got + [x], val, used + n)
  {
    hide Parse;
    var front, more := ItemsOf(got, val).items, ItemsOf(got + [x], val).items;
    assert more == front + [val(x)];
    assert s[used..][n..] == s[used + n..];
    var p := ParseItems(item, s[used + n..], count - |got| - 1);
    if p.Some? {
      assert front + ([val(x)] + p.value.value) == more + p.value.value;
    }
  }

  /** rest starts with a list's count; s is what follows it. */
  predicate AfterCount(rest: seq<byte>, count: nat, s: seq<byte>) {
    ParseInt(rest, 4) == Some(Parsed(count, 4)) && s == rest[4..]
  }

  /** The next item does not parse: neither does the list. */
  lemma PartwayFails<T>(item: Shape, rest: seq<byte>, s: seq<byte>, count: nat, got: seq<T>, val: T -> Val, used: nat)
    requires AfterCount(rest, count, s)
    requires Partway(item, s, count, got, val, used) && |got| < count && Parse(item, s[used..]) == None
    ensures Parse(List(item), rest) == None
  {
    assert ParseItems(item, s[used..], count - |got|) == None;
  }

  /** All items are there: the list is what was got. */
  lemma PartwayEnd<T>(item: Shape, rest: seq<byte>, s: seq<byte>, got: seq<T>, val: T -> Val, used: nat)
    requires AfterCount(rest, |got|, s) && Partway(item, s, |got|, got, val, used)
    ensures Parse(List(item), rest) == Some(Parsed(ItemsOf(got, val), 4 + used))
  {
    assert ParseItems(item, s[used..], 0) == Some(Parsed([], 0));
    assert ItemsOf(got, val).items + [] == ItemsOf(got, val).items;
  }

  /** The count at the front of a list. */
  method GetCount(r: Reader) returns (count: Option<u32>)
    requires r.Valid()
    modifies r
    ensures r.Valid()
    ensures count == None ==> forall item :: Parse(List(item), old(r.Rest())) == None
    ensures count.Some? ==> r.pos == old(r.pos) + 4 && AfterCount(old(r.Rest()), count.value, r.Rest())
  {
    count := r.GetU32();
  }

  method GetIds(r: Reader) returns (ids: Option<seq<u32>>)
    requires r.Valid()
    modifies r
    ensures r.Valid() && Decoded(IDS, old(r.Rest()), ids, IdsVal, r.pos - old(r.pos))
  {
    hide ItemsOf, ParseItems, Partway, AfterCount;
    ghost var rest := r.Rest();
    var count := GetCount(r);
    if count == None {
      return None;
    }
    ghost var from, s := r.pos, r.Rest();
    var got: seq<u32> := [];
    PartwayStart(Int(4), s, count.value, IdVal);
    while |got| < count.value
      invariant r.Valid() && from <= r.pos <= from + |s| && r.Rest() == s[r.pos - from..]
      invariant |got| <= count.value && Partway(Int(4), s, count.value, got, IdVal, r.pos - from)
      decreases count.value - |got|
    {
      ghost var used := r.pos - from;
      var id := r.GetU32();
      if id == None {
        PartwayFails(Int(4), rest, s, count.value, got, IdVal, used);
        return None;
      }
      PartwayStep(Int(4), s, count.value, got, IdVal, used, id.value, 4);
      got := got + [id.value];
    }
    PartwayEnd(Int(4), rest, s, got, IdVal, r.pos - from);
    return Some(got);
  }

  method GetRecords(r: Reader) returns (records: Option<seq<Record>>)
    requires r.Valid()
    modifies r
    ensures r.Valid() && Decoded(RECORDS, old(r.Rest()), records, RecordsVal, r.pos - old(r.pos))
  {
    hide ItemsOf, ParseItems, Partway, AfterCount, ParseRecord;
    ghost var rest := r.Rest();
    var count := GetCount(r);
    if count == None {
      return None;
    }
    ghost var from, s := r.pos, r.Rest();
    var got: seq<Record> := [];
    PartwayStart(Rec, s, count.value, RecordVal);
    while |got| < count.value
      invariant r.Valid() && from <= r.pos <= from + |s| && r.Rest() == s[r.pos - from..]
      invariant |got| <= count.value && Partway(Rec, s, count.value, got, RecordVal, r.pos - from)
      decreases count.value - |got|
    {
      ghost var used := r.pos - from;
      var rec := DecodeRecord(r);
      if rec == None {
        PartwayFails(Rec, rest, s, count.value, got, RecordVal, used);
        return None;
      }
      PartwayStep(Rec, s, count.value, got, RecordVal, used, rec.value, r.pos - from - used);
      got := got + [rec.value];
    }
    PartwayEnd(Rec, rest, s, got, RecordVal, r.pos - from);
    return Some(got);
  }

  method DecodeShare(r: Reader) returns (a: Option<SyncShare>)
    requires r.Valid()
    modifies r
    ensures r.Valid() && Decoded(SHARE, old(r.Rest()), a, ShareVal, r.pos - old(r.pos))
  {
    hide IdsVal, Parse, ParseString;
    ghost var s := r.Rest();
    Sequence(SHARE.first, SHARE.second, s);
    Text(s);
    var member := r.GetString();
    if member == None {
      return None;
    }
    assert r.Rest() == s[ParseString(s).value.used..];
    var partitions := GetIds(r);
    if partitions == None {
      return None;
    }
    return Some(SyncShare(member.value, partitions.value));
  }

  method GetShares(r: Reader) returns (list: Option<seq<SyncShare>>)
    requires r.Valid()
    modifies r
    ensures r.Valid()
    ensures match Parse(List(SHARE), old(r.Rest()))
            case None => list == None
            case Some(p) => list.Some? && ItemsOf(list.value, ShareVal) == p.value && r.pos == old(r.pos) + p.used
  {
    hide ItemsOf, Parse, ParseItems, Partway, AfterCount, ShareVal;
    ghost var rest := r.Rest();
    var count := GetCount(r);
    if count == None {
      return None;
    }
    ghost var from, s := r.pos, r.Rest();
    var got: seq<SyncShare> := [];
    PartwayStart(SHARE, s, count.value, ShareVal);
    while |got| < count.value
      invariant r.Valid() && from <= r.pos <= from + |s| && r.Rest() == s[r.pos - from..]
      invariant |got| <= count.value && Partway(SHARE, s, count.value, got, ShareVal, r.pos - from)
      decreases count.value - |got|
    {
      ghost var used := r.pos - from;
      var share := DecodeShare(r);
      if share == None {
        PartwayFails(SHARE, rest, s, count.value, got, ShareVal, used);
        return None;
      }
      PartwayStep(SHARE, s, count.value, got, ShareVal, used, share.value, r.pos - from - used);
      got := got + [share.value];
    }
    PartwayEnd(SHARE, rest, s, got, ShareVal, r.pos - from);
    return Some(got);
  }

  function MemberAndSharesVal(v: (seq<byte>, u32, seq<SyncShare>)): Val {
    Two(Bytes(v.0), Two(Num(v.1), ItemsOf(v.2, ShareVal)))
  }

  /** All of a SyncGroup request but the group id. */
  method GetMemberAndShares(r: Reader) returns (v: Option<(seq<byte>, u32, seq<SyncShare>)>)
    requires r.Valid()
    modifies r
    ensures r.Valid()
    ensures Decoded(Both(Str, Both(Int(4), List(SHARE))), old(r.Rest()), v, MemberAndSharesVal, r.pos - old(r.pos))
  {
    hide ItemsOf, Parse, ParseString, ShareVal;
    ghost var s := r.Rest();
    Sequence(Str, Both(Int(4), List(SHARE)), s);
    Text(s);
    var member := r.GetString();
    if member == None {
      return None;
    }
    ghost var s1 := r.Rest();
    assert s1 == s[ParseString(s).value.used..];
    Sequence(Int(4), List(SHARE), s1);
    Integer(4, s1);
    var generation := r.GetU32();
    if generation == None {
      return None;
    }
    assert r.Rest() == s1[4..];
    var assignments := GetShares(r);
    if assignments == None {
      return None;
    }
    return Some((member.value, generation.value, assignments.value));
  }

  method DecodeSync(r: Reader) returns (m: Option<SyncGroupRequest>)
    requires r.Valid()
    modifies r
    ensures r.Valid() && Decoded(SYNC, old(r.Rest()), m, SyncVal, r.pos - old(r.pos))
  {
    hide ItemsOf, Parse, ParseString, ShareVal;
    ghost var s := r.Rest();
    Sequence(SYNC.first, SYNC.second, s);
    Text(s);
    var groupId := r.GetString();
    if groupId == None {
      return None;
    }
    assert r.Rest() == s[ParseString(s).value.used..];
    var v := GetMemberAndShares(r);
    if v == None {
      return None;
    }
    return Some(SyncGroupRequest(groupId.value, v.value.0, v.value.1, v.value.2));
  }

  function LeaderAndListsVal(v: (u32, seq<u32>, seq<u32>)): Val {
    Two(Num(v.0), Two(IdsVal(v.1), IdsVal(v.2)))
  }

  /** The last three fields of an entry. */
  method GetLeaderAndLists(r: Reader) returns (v: Option<(u32, seq<u32>, seq<u32>)>)
    requires r.Valid()
    modifies r
    ensures r.Valid()
    ensures Decoded(Both(Int(4), Both(IDS, IDS)), old(r.Rest()), v, LeaderAndListsVal, r.pos - old(r.pos))
  {
    hide IdsVal, Parse;
    ghost var s := r.Rest();
    Sequence(Int(4), Both(IDS, IDS), s);
    Integer(4, s);
    var leader := r.GetU32();
    if leader == None {
      return None;
    }
    ghost var s1 := r.Rest();
    assert s1 == s[4..];
    Sequence(IDS, IDS, s1);
    var replicas := GetIds(r);
    if replicas == None {
      return None;
    }
    assert r.Rest() == s1[Parse(IDS, s1).value.used..];
    var isr := GetIds(r);
    if isr == None {
      return None;
    }
    return Some((leader.value, replicas.value, isr.value));
  }

  method DecodeEntry(r: Reader) returns (e: Option<AssignmentEntry>)
    requires r.Valid()
    modifies r
    ensures r.Valid() && Decoded(ENTRY, old(r.Rest()), e, EntryVal, r.pos - old(r.pos))
  {
    hide IdsVal, Parse, ParseString;
    ghost var s := r.Rest();
    ghost var t1 := ENTRY.second;
    Sequence(ENTRY.first, t1, s);
    Text(s);
    var topic := r.GetString();
    if topic == None {
      return None;
    }
    ghost var s1 := r.Rest();
    assert s1 == s[ParseString(s).value.used..];
    Sequence(t1.first, t1.second, s1);
    Integer(4, s1);
    var partition := r.GetU32();
    if partition == None {
      return None;
    }
    assert r.Rest() == s1[4..];
    var v := GetLeaderAndLists(r);
    if v == None {
      return None;
    }
    return Some(AssignmentEntry(topic.value, partition.value, v.value.0, v.value.1, v.value.2));
  }

  method GetEntries(r: Reader) returns (list: Option<seq<AssignmentEntry>>)
    requires r.Valid()
    modifies r
    ensures r.Valid()
    ensures match Parse(List(ENTRY), old(r.Rest()))
            case None => list == None
            case Some(p) => list.Some? && ItemsOf(list.value, EntryVal) == p.value && r.pos == old(r.pos) + p.used
  {
    hide ItemsOf, Parse, ParseItems, Partway, AfterCount, EntryVal;
    ghost var rest := r.Rest();
    var count := GetCount(r);
    if count == None {
      return None;
    }
    ghost var from, s := r.pos, r.Rest();
    var got: seq<AssignmentEntry> := [];
    PartwayStart(ENTRY, s, count.value, EntryVal);
    while |got| < count.value
      invariant r.Valid() && from <= r.pos <= from + |s| && r.Rest() == s[r.pos - from..]
      invariant |got| <= count.value && Partway(ENTRY, s, count.value, got, EntryVal, r.pos - from)
      decreases count.value - |got|
    {
      ghost var used := r.pos - from;
      var entry := DecodeEntry(r);
      if entry == None {
        PartwayFails(ENTRY, rest, s, count.value, got, EntryVal, used);
        return None;
      }
      PartwayStep(ENTRY, s, count.value, got, EntryVal, used, entry.value, r.pos - from - used);
      got := got + [entry.value];
    }
    PartwayEnd(ENTRY, rest, s, got, EntryVal, r.pos - from);
    return Some(got);
  }

  method DecodeLeaderAndIsr(r: Reader) returns (m: Option<LeaderAndIsrRequest>)
    requires r.Valid()
    modifies r
    ensures r.Valid() && Decoded(LEADER_AND_ISR, old(r.Rest()), m, LeaderAndIsrVal, r.pos - old(r.pos))
  {
    hide ItemsOf, Parse;
    var entries := GetEntries(r);
    if entries == None {
      return None;
    }
    return Some(LeaderAndIsrRequest(entries.value));
  }

  function AcksAndRecordsVal(v: (byte, seq<Record>)): Val {
    Two(Num(v.0), RecordsVal(v.1))
  }

  /** The last two fields of a produce request. */
  method GetAcksAndRecords(r: Reader) returns (v: Option<(byte, seq<Record>)>)
    requires r.Valid()
    modifies r
    ensures r.Valid() && Decoded(Both(Int(1), RECORDS), old(r.Rest()), v, AcksAndRecordsVal, r.pos - old(r.pos))
  {
    hide RecordsVal, Parse;
    ghost var s := r.Rest();
    Sequence(Int(1), RECORDS, s);
    Integer(1, s);
    var acks := r.GetU8();
    if acks == None {
      return None;
    }
    assert r.Rest() == s[1..];
    var records := GetRecords(r);
    if records == None {
      return None;
    }
    return Some((acks.value, records.value));
  }

  method DecodeProduce(r: Reader) returns (m: Option<ProduceRequest>)
    requires r.Valid()
    modifies r
    ensures r.Valid() && Decoded(PRODUCE, old(r.Rest()), m, ProduceVal, r.pos - old(r.pos))
  {
    hide RecordsVal, Parse, ParseString;
    ghost var s := r.Rest();
    ghost var t1 := PRODUCE.second;
    Sequence(PRODUCE.first, t1, s);
    Text(s);
    var topic := r.GetString();
    if topic == None {
      return None;
    }
    ghost var s1 := r.Rest();
    assert s1 == s[ParseString(s).value.used..];
    Sequence(t1.first, t1.second, s1);
    Integer(4, s1);
    var partition := r.GetU32();
    if partition == None {
      return None;
    }
    assert r.Rest() == s1[4..];
    var v := GetAcksAndRecords(r);
    if v == None {
      return None;
    }
    return Some(ProduceRequest(topic.value, partition.value, v.value.0, v.value.1));
  }

  function LeaderAndRecordsVal(v: (seq<byte>, u32, seq<Record>)): Val {
    Two(Bytes(v.0), Two(Num(v.1), RecordsVal(v.2)))
  }

  /** The last three fields of a fetch response. */
  method GetLeaderAndRecords(r: Reader) returns (v: Option<(seq<byte>, u32, seq<Record>)>)
    requires r.Valid()
    modifies r
    ensures r.Valid()
    ensures Decoded(Both(Str, Both(Int(4), RECORDS)), old(r.Rest()), v, LeaderAndRecordsVal, r.pos - old(r.pos))
  {
    hide RecordsVal, Parse, ParseString;
    ghost var s := r.Rest();
    Sequence(Str, Both(Int(4), RECORDS), s);
    Text(s);
    var leaderHost := r.GetString();
    if leaderHost == None {
      return None;
    }
    ghost var s1 := r.Rest();
    assert s1 == s[ParseString(s).value.used..];
    Sequence(Int(4), RECORDS, s1);
    Integer(4, s1);
    var leaderPort := r.GetU32();
    if leaderPort == None {
      return None;
    }
    assert r.Rest() == s1[4..];
    var records := GetRecords(r);
    if records == None {
      return None;
    }
    return Some((leaderHost.value, leaderPort.value, records.value));
  }

  method DecodeFetched(r: Reader) returns (m: Option<FetchResponse>)
    requires r.Valid()
    modifies r
    ensures r.Valid() && Decoded(FETCHED, old(r.Rest()), m, FetchedVal, r.pos - old(r.pos))
  {
    hide RecordsVal, Parse, ParseString;
    ghost var s := r.Rest();
    ghost var t1 := FETCHED.second;
    Sequence(FETCHED.first, FETCHED.second, s);
    Integer(2, s);
    var error := r.GetU16();
    if error == None {
      return None;
    }
    ghost var s1 := r.Rest();
    assert s1 == s[2..];
    Sequence(t1.first, t1.second, s1);
    Integer(8, s1);
    var highWatermark := r.GetU64();
    if highWatermark == None {
      return None;
    }
    assert r.Rest() == s1[8..];
    var v := GetLeaderAndRecords(r);
    if v == None {
      return None;
    }
    return Some(FetchResponse(Signed16(error.value), highWatermark.value, v.value.0, v.value.1, v.value.2));
  }

  // ---- Round trips ----

  lemma {:induction false} ItemsInjective<T(!new)>(xs: seq<T>, ys: seq<T>, val: T -> Val)
    requires ItemsOf(xs, val) == ItemsOf(ys, val)
    requires forall x, y :: val(x) == val(y) ==> x == y
    ensures xs == ys
  {
    var a, b := ItemsOf(xs, val).items, ItemsOf(ys, val).items;
    assert |xs| == |a| == |b| == |ys|;
    forall i | 0 <= i < |xs| ensures xs[i] == ys[i] {
      assert a[i] == val(xs[i]) && b[i] == val(ys[i]);
    }
  }

  lemma IdsInjective(x: seq<u32>, y: seq<u32>)
    requires IdsVal(x) == IdsVal(y)
    ensures x == y
  {
    ItemsInjective(x, y, IdVal);
  }

  lemma RecordsInjective(x: seq<Record>, y: seq<Record>)
    requires RecordsVal(x) == RecordsVal(y)
    ensures x == y
  {
    ItemsInjective(x, y, RecordVal);
  }

  lemma SharesInjective(x: seq<SyncShare>, y: seq<SyncShare>)
    requires ItemsOf(x, ShareVal) == ItemsOf(y, ShareVal)
    ensures x == y
  {
    hide IdsVal;
    forall a, b | ShareVal(a) == ShareVal(b) ensures a == b {
      IdsInjective(a.partitions, b.partitions);
    }
    ItemsInjective(x, y, ShareVal);
  }

  lemma EntriesInjective(x: seq<AssignmentEntry>, y: seq<AssignmentEntry>)
    requires ItemsOf(x, EntryVal) == ItemsOf(y, EntryVal)
    ensures x == y
  {
    hide IdsVal;
    forall a, b | EntryVal(a) == EntryVal(b) ensures a == b {
      IdsInjective(a.replicas, b.replicas);
      IdsInjective(a.isr, b.isr);
    }
    ItemsInjective(x, y, EntryVal);
  }

  /** A layout whose values tell messages apart: decoding gives the message back exactly when it is in bounds. */
  lemma DecodedIsEncoded<T>(t: Shape, val: T -> Val, m: T, tail: seq<byte>, got: Option<T>, used: int)
    requires HasShape(t, val(m)) && Decoded(t, Put(t, val(m)) + tail, got, val, used)
    requires got.Some? && val(got.value) == val(m) ==> got.value == m
    ensures got == Some(m) && used == |Put(t, val(m))| <==> InBounds(t, val(m))
  {
    hide Put, Parse, HasShape, InBounds;
    WireRoundTrip(t, val(m), tail);
    ParsedInBounds(t, Put(t, val(m)) + tail);
  }

  /** Whatever a decoder returns for an encoded produce request is the request exactly when its lengths fit. */
  lemma ProduceRoundTrip(m: ProduceRequest, tail: seq<byte>, got: Option<ProduceRequest>, used: int)
    requires HasShape(PRODUCE, ProduceVal(m)) && Decoded(PRODUCE, Put(PRODUCE, ProduceVal(m)) + tail, got,
          ProduceVal, used)
    ensures got == Some(m) && used == |Put(PRODUCE, ProduceVal(m))| <==> ProduceFits(m)
  {
    hide Put, Parse, HasShape, InBounds, RecordsVal;
    ProduceShape(m);
    if got.Some? && ProduceVal(got.value) == ProduceVal(m) {
      RecordsInjective(got.value.records, m.records);
    }
    DecodedIsEncoded(PRODUCE, ProduceVal, m, tail, got, used);
  }

  lemma FetchedRoundTrip(m: FetchResponse, tail: seq<byte>, got: Option<FetchResponse>, used: int)
    requires HasShape(FETCHED, FetchedVal(m)) && Decoded(FETCHED, Put(FETCHED, FetchedVal(m)) + tail, got,
          FetchedVal, used)
    ensures got == Some(m) && used == |Put(FETCHED, FetchedVal(m))| <==> FetchedFits(m)
  {
    hide Put, Parse, HasShape, InBounds, RecordsVal;
    FetchedShape(m);
    if got.Some? && FetchedVal(got.value) == FetchedVal(m) {
      RecordsInjective(got.value.records, m.records);
    }
    DecodedIsEncoded(FETCHED, FetchedVal, m, tail, got, used);
  }

  lemma SyncRoundTrip(m: SyncGroupRequest, tail: seq<byte>, got: Option<SyncGroupRequest>, used: int)
    requires HasShape(SYNC, SyncVal(m)) && Decoded(SYNC, Put(SYNC, SyncVal(m)) + tail, got, SyncVal, used)
    ensures got == Some(m) && used == |Put(SYNC, SyncVal(m))| <==> SyncFits(m)
  {
    hide Put, Parse, HasShape, InBounds, ItemsOf;
    SyncShape(m);
    if got.Some? && SyncVal(got.value) == SyncVal(m) {
      SharesInjective(got.value.assignments, m.assignments);
    }
    DecodedIsEncoded(SYNC, SyncVal, m, tail, got, used);
  }

  lemma LeaderAndIsrRoundTrip(m: LeaderAndIsrRequest, tail: seq<byte>, got: Option<LeaderAndIsrRequest>, used: int)
    requires HasShape(LEADER_AND_ISR, LeaderAndIsrVal(m))
    requires Decoded(LEADER_AND_ISR, Put(LEADER_AND_ISR, LeaderAndIsrVal(m)) + tail, got, LeaderAndIsrVal, used)
    ensures got == Some(m) && used == |Put(LEADER_AND_ISR, LeaderAndIsrVal(m))| <==> LeaderAndIsrFits(m)
  {
    hide Put, Parse, HasShape, InBounds, ItemsOf;
    LeaderAndIsrShape(m);
    if got.Some? && LeaderAndIsrVal(got.value) == LeaderAndIsrVal(m) {
      EntriesInjective(got.value.assignments, m.assignments);
    }
    DecodedIsEncoded(LEADER_AND_ISR, LeaderAndIsrVal, m, tail, got, used);
  }
}

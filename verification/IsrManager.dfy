/**
 * The manager of the in-sync sets of the partitions a broker leads: what it
 * keeps for one of them, changed in place, and how a produce waits for it.
 *
 * Every change of a partition's replicas, progress or log ends in Recompute,
 * which is proved against the function Recomputed that the replication
 * protocol takes for the same block. Between an append and its recomputation
 * the high watermark may be past what followers have; Covered says that it is
 * not, and every recomputation restores it. A produce waits while fetches and
 * sweeps recompute the mark; other produces meanwhile are the protocol's.
 */
module IsrManager {
  import opened Types
  import opened Election
  import opened Records
  import opened Scanning
  import opened SparseIndex
  import opened LogRead
  import opened Partitions
  import opened Sorting
  import opened Isr

  /** acks=all on the wire. */
  const ACKS_ALL: byte := 0xFF

  class PartitionState {
    const self: BrokerId
    /** A partition has a state only once it has been led, so this is never null. */
    var partition: Partition
    var replicas: seq<BrokerId>
    var progress: map<BrokerId, u64>
    var lastFetch: map<BrokerId, u64>
    var isr: seq<BrokerId>

    function State(): IsrState
      reads this
    {
      IsrState(replicas, progress, lastFetch, isr)
    }

    /** The high watermark is below the log end and below what every in-sync follower has fetched. */
    ghost predicate Covered()
      reads this, partition
    {
      && partition.hwm <= partition.nextOffset
      && forall id :: id in isr && id != self ==> id in progress && partition.hwm <= progress[id]
    }

    /** The first set_leading for a partition: everyone counts as in sync until a recomputation. */
    constructor (self: BrokerId, p: Partition, replicas: seq<BrokerId>)
      ensures this.self == self && partition == p && State() == SetLed(None, replicas)
      ensures this.replicas == isr == replicas && progress == lastFetch == map[]
    {
      this.self, partition := self, p;
      this.replicas, progress, lastFetch, isr := replicas, map[], map[], replicas;
    }

    /** A later call replaces the replicas but keeps an in-sync set that is not empty. */
    method SetLeading(p: Partition, replicas: seq<BrokerId>)
      modifies this
      ensures partition == p && State() == SetLed(Some(old(State())), replicas)
      ensures this.replicas == replicas && isr == if old(isr) == [] then replicas else old(isr)
      ensures progress == old(progress) && lastFetch == old(lastFetch)
    {
      partition := p;
      this.replicas := replicas;
      if isr == [] {
        isr := replicas;
      }
    }

    method CollectInSync(leo: u64, now: u64) returns (ids: seq<BrokerId>)
      ensures ids == Kept(State(), self, replicas, leo, now)
    {
      ids := [];
      var i := 0;
      while i < |replicas|
        invariant 0 <= i <= |replicas|
        invariant ids == Kept(State(), self, replicas[..i], leo, now)
      {
        var id := replicas[i];
        KeptSnoc(State(), self, replicas, i, leo, now);
        i := i + 1;
        if id == self {
          ids := ids + [id];
          continue;
        }
        if id !in progress || id !in lastFetch {
          continue;
        }
        var timeOk := Age(now, lastFetch[id]) <= LAG_TIME_MS;
        var lagOk := leo >= progress[id] && leo - progress[id] <= LAG_MESSAGES;
        if timeOk && lagOk {
          ids := ids + [id];
        }
      }
      assert replicas[..i] == replicas;
    }

    method FoldProgress(ids: seq<BrokerId>, leo: u64) returns (hwm: u64)
      requires forall id :: id in ids ==> id == self || id in progress
      ensures hwm == LowMark(progress, self, ids, leo)
    {
      hwm := leo;
      var i := 0;
      while i < |ids|
        invariant 0 <= i <= |ids|
        invariant hwm == LowMark(progress, self, ids[..i], leo)
      {
        var id := ids[i];
        assert ids[..i + 1][..i] == ids[..i] && id in ids;
        i := i + 1;
        if id == self {
          continue;
        }
        hwm := if progress[id] < hwm then progress[id] else hwm;
      }
      assert ids[..i] == ids;
    }

    method Recompute(now: u64) returns (changed: Option<seq<BrokerId>>)
      modifies this`isr, partition`hwm
      ensures Covered()
      ensures var (st, hwm) := Recomputed(old(State()), self, partition.nextOffset, now);
              && State() == st && partition.hwm == ToSigned64(hwm)
              && changed == Reported(old(isr), st.isr)
      ensures changed == if isr != old(isr) then Some(isr) else None
      ensures forall id :: id in isr <==>
                && id in replicas
                && (id == self ||
                    (&& id in progress && id in lastFetch
                     && progress[id] <= partition.nextOffset && partition.nextOffset - progress[id] <= 1000
                     && (if lastFetch[id] <= now then now - lastFetch[id] <= 1000
                         else now + TWO_64 - lastFetch[id] <= 1000)))
    {
      hide LowMark, Kept, Sorting.Sort;
      InSyncExactly(State(), self, partition.nextOffset, now);
      var end := partition.LogEndOffset();
      var leo := ToUnsigned64(end);
      RecomputeMeans(State(), self, leo, now);
      var newIsr := CollectInSync(leo, now);
      KeptMembers(State(), self, replicas, leo, now);
      SortIdsCorrect(newIsr);
      newIsr := SortIds(newIsr);
      var hwm := FoldProgress(newIsr, leo);
      partition.SetHighWatermark(ToSigned64(hwm));
      if newIsr != isr {
        isr := newIsr;
        return Some(newIsr);
      }
      return None;
    }

    method OnReplicaFetch(replica: BrokerId, fetchOffset: u64, now: u64) returns (changed: Option<seq<BrokerId>>)
      modifies this, partition`hwm
      ensures partition == old(partition) && Covered()
      ensures progress == old(progress)[replica := fetchOffset] && lastFetch == old(lastFetch)[replica := now]
      ensures var (st, hwm) :=
                Recomputed(Fetched(old(State()), replica, fetchOffset, now), self, partition.nextOffset, now);
              && State() == st && partition.hwm == ToSigned64(hwm)
              && changed == Reported(old(isr), st.isr)
    {
      progress := progress[replica := fetchOffset];
      lastFetch := lastFetch[replica := now];
      changed := Recompute(now);
    }

    /**
     * The append part of a produce: after it the high watermark is the recomputed one again. The
     * partition stays valid for less than 2^32 bytes of records and less than 2^63 records in all.
     */
    method Produce(records: seq<Record>, ts: u64, now: u64) returns (base: int, changed: Option<seq<BrokerId>>)
      requires partition.Valid()
      modifies this`isr, partition, partition.segments
      ensures Covered() && base == old(partition.nextOffset)
      ensures Size(records) < TWO_32 && old(partition.nextOffset) + |records| < TWO_63 ==> partition.Valid()
      ensures partition.nextOffset == (old(partition.nextOffset) + |records|) % TWO_64
      ensures partition.log == old(partition.log) + Stamped(records, old(partition.nextOffset), ts)
      ensures var (st, hwm) := Recomputed(old(State()), self, partition.nextOffset, now);
              && State() == st && partition.hwm == ToSigned64(hwm)
              && changed == Reported(old(isr), st.isr)
      ensures forall i :: 0 <= i < |partition.segments| ==>
                            partition.segments[i] in old(partition.segments) || fresh(partition.segments[i])
    {
      hide Partition.Stored, Scanning.Size, Kept, LowMark;
      base := partition.Append(records, ts);
      changed := Recompute(now);
    }

    /**
     * The end of a produce, when its wait is over: with acks=all and records it
     * is answered without error only if the high watermark is past its batch.
     * As long as the mark is covered, every in-sync follower has then fetched
     * past the batch.
     */
    method AnswerProduce(acks: byte, base: nat, count: nat) returns (timedOut: bool)
      ensures timedOut <==> acks == 0xFF && count > 0 && partition.hwm < base + count
      ensures Covered() && acks == ACKS_ALL && count > 0 && !timedOut ==>
                && base + count <= partition.nextOffset
                && forall id :: id in isr && id != self ==> id in progress && base + count <= progress[id]
    {
      if acks == ACKS_ALL && count > 0 {
        var requiredOffset := base + count - 1;
        if partition.hwm <= requiredOffset {
          return true;
        }
      }
      return false;
    }

    /** Serving a follower: the records are read before its progress is noted. */
    method Replicate(replica: BrokerId, fetchOffset: u64, maxBytes: u32, now: u64)
      returns (records: seq<Record>, changed: Option<seq<BrokerId>>)
      requires partition.Valid()
      modifies this, partition`hwm
      ensures partition == old(partition) && partition.Valid() && Covered()
      ensures partition.log == old(partition.log) && partition.segments == old(partition.segments)
      ensures progress == old(progress)[replica := fetchOffset]
      ensures records == Answer(partition.log, ToSigned64(fetchOffset), |partition.log|, maxBytes)
      ensures var (st, hwm) :=
                Recomputed(Fetched(old(State()), replica, fetchOffset, now), self, |partition.log|, now);
              && State() == st && partition.hwm == ToSigned64(hwm)
              && changed == Reported(old(isr), st.isr)
    {
      hide Partition.Stored, Kept, LowMark, Answer;
      records := partition.ReadUpToLeo(ToSigned64(fetchOffset), maxBytes);
      changed := OnReplicaFetch(replica, fetchOffset, now);
    }

    /** Reconciliation of a partition this broker now leads: only a new leader jumps to its log end. */
    method Lead(p: Partition, replicas: seq<BrokerId>, alreadyLeading: bool)
      modifies this, p`hwm
      ensures partition == p && p.hwm == if alreadyLeading then old(p.hwm) else ToSigned64(p.nextOffset)
      ensures State() == SetLed(Some(old(State())), replicas)
    {
      if !alreadyLeading {
        var leo := p.LogEndOffset();
        p.SetHighWatermark(leo);
      }
      SetLeading(p, replicas);
    }
  }

  // ---- Producing with acks=all ----

  datatype ProduceReply =
    | UnknownTopic
    | NotLeader(leader: BrokerId)
    | RequestTimedOut(base: int)
    | Produced(base: int)

  /** What recomputes the in-sync set while a produce waits: a follower's fetch, or the periodic sweep. */
  datatype Arrival =
    | Fetch(replica: BrokerId, offset: u64, now: u64)
    | Sweep(now: u64)

  /** The in-sync state and the mark after one of them. */
  function After(st: IsrState, self: BrokerId, leo: u64, a: Arrival): (IsrState, u64) {
    match a
    case Fetch(replica, offset, now) => Recomputed(Fetched(st, replica, offset, now), self, leo, now)
    case Sweep(now) => Recomputed(st, self, leo, now)
  }

  /** The same after some of them, from a state and a mark. */
  function AfterAll(start: (IsrState, u64), self: BrokerId, leo: u64, arrivals: seq<Arrival>): (IsrState, u64) {
    if arrivals == [] then start
    else After(AfterAll(start, self, leo, arrivals[..|arrivals| - 1]).0, self, leo, arrivals[|arrivals| - 1])
  }

  lemma AfterSnoc(start: (IsrState, u64), self: BrokerId, leo: u64, arrivals: seq<Arrival>, i: nat)
    requires i < |arrivals|
    ensures AfterAll(start, self, leo, arrivals[..i + 1])
         == After(AfterAll(start, self, leo, arrivals[..i]).0, self, leo, arrivals[i])
  {
    hide After;
    assert arrivals[..i + 1][..i] == arrivals[..i];
  }

  lemma AfterNone(start: (IsrState, u64), self: BrokerId, leo: u64)
    ensures AfterAll(start, self, leo, []) == start
  {
  }

  /** At some moment the mark is past the offset. */
  predicate MarkPasses(start: (IsrState, u64), self: BrokerId, leo: u64, arrivals: seq<Arrival>, offset: int) {
    exists m :: 0 <= m <= |arrivals| && ToSigned64(AfterAll(start, self, leo, arrivals[..m]).1) > offset
  }

  method TakeArrival(st: PartitionState, a: Arrival)
    modifies st, st.partition`hwm
    ensures st.partition == old(st.partition) && st.Covered()
    ensures old(st.partition.Valid()) ==> st.partition.Valid()
    ensures var (after, mark) := After(old(st.State()), st.self, st.partition.nextOffset, a);
            st.State() == after && st.partition.hwm == ToSigned64(mark)
  {
    hide Recomputed, Partition.Stored;
    match a
    case Fetch(replica, offset, now) => var _ := st.OnReplicaFetch(replica, offset, now);
    case Sweep(now) => var _ := st.Recompute(now);
  }

  /** wait_for_hwm: until the mark is past the offset, or nothing more arrives in time. */
  method WaitForMark(st: PartitionState, requiredOffset: int, arrivals: seq<Arrival>, ghost start: (IsrState, u64))
    requires st.Covered() && start.0 == st.State() && ToSigned64(start.1) == st.partition.hwm
    modifies st, st.partition`hwm
    ensures st.partition == old(st.partition) && st.Covered()
    ensures old(st.partition.Valid()) ==> st.partition.Valid()
    ensures st.partition.hwm > requiredOffset <==>
              MarkPasses(start, st.self, st.partition.nextOffset, arrivals, requiredOffset)
  {
    hide Partition.Valid, PartitionState.Covered, AfterAll, After;
    ghost var leo := st.partition.nextOffset;
    var i := 0;
    AfterNone(start, st.self, leo);
    assert arrivals[..0] == [];
    while i < |arrivals| && st.partition.hwm <= requiredOffset
      invariant 0 <= i <= |arrivals| && st.partition == old(st.partition) && st.Covered()
      invariant old(st.partition.Valid()) ==> st.partition.Valid()
      invariant var (now, mark) := AfterAll(start, st.self, leo, arrivals[..i]);
                st.State() == now && st.partition.hwm == ToSigned64(mark)
      invariant forall m :: 0 <= m < i ==> ToSigned64(AfterAll(start, st.self, leo, arrivals[..m]).1) <= requiredOffset
    {
      AfterSnoc(start, st.self, leo, arrivals, i);
      TakeArrival(st, arrivals[i]);
      i := i + 1;
    }
  }

  /** Whether a produce with this base times out. */
  predicate TimesOut(st: IsrState, self: BrokerId, acks: byte, base: nat, count: nat, now: u64,
      arrivals: seq<Arrival>)
  {
    && acks == ACKS_ALL && count > 0
    && var leo := (base + count) % TWO_64;
       !MarkPasses(Recomputed(st, self, leo, now), self, leo, arrivals, base + count - 1)
  }

  /** After these arrivals some in-sync follower has not fetched up to the offset. */
  predicate HeldUp(st: IsrState, self: BrokerId, offset: nat) {
    exists id :: id in st.isr && id != self && (id !in st.progress || st.progress[id] < offset)
  }

  /**
   * acks=all, exactly: a produce times out if and only if, at its recomputation
   * and after every arrival, some in-sync follower has not fetched past its batch.
   */
  lemma TimesOutExactly(st: IsrState, self: BrokerId, acks: byte, base: nat, count: nat, now: u64,
      arrivals: seq<Arrival>)
    requires base + count < TWO_63
    ensures TimesOut(st, self, acks, base, count, now, arrivals) <==>
              && acks == 0xFF && count > 0
              && forall m :: 0 <= m <= |arrivals| ==>
                   HeldUp(AfterAll(Recomputed(st, self, base + count, now), self, base + count, arrivals[..m]).0, self,
                          base + count)
  {
    hide Recomputed, After, AfterAll, HeldUp;
    var leo := base + count;
    var start := Recomputed(st, self, leo, now);
    forall m | 0 <= m <= |arrivals|
      ensures ToSigned64(AfterAll(start, self, leo, arrivals[..m]).1) > leo - 1
         <==> !HeldUp(AfterAll(start, self, leo, arrivals[..m]).0, self, leo)
    {
      if m == 0 {
        AfterNone(start, self, leo);
        assert arrivals[..0] == [];
        NotHeldUp(st, self, leo, now);
      } else {
        AfterSnoc(start, self, leo, arrivals, m - 1);
        NotHeldUpAfter(AfterAll(start, self, leo, arrivals[..m - 1]).0, self, leo, arrivals[m - 1]);
      }
    }
  }

  lemma NotHeldUp(st: IsrState, self: BrokerId, leo: u64, now: u64)
    ensures var (st', mark) := Recomputed(st, self, leo, now);
            leo < TWO_63 ==> (ToSigned64(mark) > leo - 1 <==> !HeldUp(st', self, leo))
  {
    hide Recomputed;
    MarkAtEnd(st, self, leo, now);
    RecomputeMeans(st, self, leo, now);
  }

  lemma NotHeldUpAfter(st: IsrState, self: BrokerId, leo: u64, a: Arrival)
    ensures var (st', mark) := After(st, self, leo, a);
            leo < TWO_63 ==> (ToSigned64(mark) > leo - 1 <==> !HeldUp(st', self, leo))
  {
    hide Recomputed, HeldUp;
    match a
    case Fetch(replica, offset, now) => NotHeldUp(Fetched(st, replica, offset, now), self, leo, now);
    case Sweep(now) => NotHeldUp(st, self, leo, now);
  }

  /** The last fetch of the replica among these arrivals, or before them, was at or past the offset. */
  predicate LastFetchPast(st: IsrState, arrivals: seq<Arrival>, id: BrokerId, offset: nat) {
    if arrivals == [] then id in st.progress && st.progress[id] >= offset
    else
      var last := arrivals[|arrivals| - 1];
      if last.Fetch? && last.replica == id then last.offset >= offset
      else LastFetchPast(st, arrivals[..|arrivals| - 1], id, offset)
  }

  lemma {:induction false} ProgressIsLastFetch(start: (IsrState, u64), self: BrokerId, leo: u64, arrivals: seq<Arrival>,
      id: BrokerId, offset: nat)
    ensures var st := AfterAll(start, self, leo, arrivals).0;
            && st.replicas == start.0.replicas
            && (LastFetchPast(start.0, arrivals, id, offset) <==> id in st.progress && st.progress[id] >= offset)
  {
    hide Recomputed;
    if arrivals != [] {
      var front, last := arrivals[..|arrivals| - 1], arrivals[|arrivals| - 1];
      var was := AfterAll(start, self, leo, front).0;
      ProgressIsLastFetch(start, self, leo, front, id, offset);
      match last
      case Fetch(replica, offset, now) => RecomputeMeans(Fetched(was, replica, offset, now), self, leo, now);
      case Sweep(now) => RecomputeMeans(was, self, leo, now);
    }
  }

  /** A produce whose batch every follower's last fetch has passed is answered in time. */
  lemma FetchedProduceIsAnswered(st: IsrState, self: BrokerId, acks: byte, base: nat, count: nat, now: u64,
      arrivals: seq<Arrival>)
    requires base + count < TWO_63
    requires forall id :: id in st.replicas && id != self ==> LastFetchPast(st, arrivals, id, base + count)
    ensures !TimesOut(st, self, acks, base, count, now, arrivals)
  {
    hide Recomputed, AfterAll, LastFetchPast, TimesOut, HeldUp;
    TimesOutExactly(st, self, acks, base, count, now, arrivals);
    NobodyHoldsUp(st, self, base + count, now, arrivals);
    assert arrivals[..|arrivals|] == arrivals;
  }

  lemma NobodyHoldsUp(st: IsrState, self: BrokerId, leo: u64, now: u64, arrivals: seq<Arrival>)
    requires forall id :: id in st.replicas && id != self ==> LastFetchPast(st, arrivals, id, leo)
    ensures !HeldUp(AfterAll(Recomputed(st, self, leo, now), self, leo, arrivals).0, self, leo)
  {
    hide Recomputed, AfterAll, LastFetchPast;
    RecomputeMeans(st, self, leo, now);
    var start := Recomputed(st, self, leo, now);
    var end := AfterAll(start, self, leo, arrivals).0;
    AfterKeepsReplicas(start, self, leo, arrivals);
    forall id | id in end.isr && id != self ensures id in end.progress && leo <= end.progress[id] {
      ProgressIsLastFetch(start, self, leo, arrivals, id, leo);
      SameLastFetch(st, start.0, arrivals, id, leo);
    }
  }

  lemma {:induction false} SameLastFetch(st: IsrState, st': IsrState, arrivals: seq<Arrival>, id: BrokerId, offset: nat)
    ensures st.progress == st'.progress ==>
              (LastFetchPast(st, arrivals, id, offset) <==> LastFetchPast(st', arrivals, id, offset))
  {
    if arrivals != [] {
      SameLastFetch(st, st', arrivals[..|arrivals| - 1], id, offset);
    }
  }

  /** After a recomputation the in-sync set is part of the replicas, which stay. */
  lemma {:induction false} AfterKeepsReplicas(start: (IsrState, u64), self: BrokerId, leo: u64, arrivals: seq<Arrival>)
    ensures (forall id :: id in start.0.isr ==> id in start.0.replicas) ==>
              && AfterAll(start, self, leo, arrivals).0.replicas == start.0.replicas
              && forall id :: id in AfterAll(start, self, leo, arrivals).0.isr ==> id in start.0.replicas
  {
    hide Recomputed;
    if arrivals != [] {
      var front, last := arrivals[..|arrivals| - 1], arrivals[|arrivals| - 1];
      var was := AfterAll(start, self, leo, front).0;
      AfterKeepsReplicas(start, self, leo, front);
      match last
      case Fetch(replica, offset, now) => RecomputeMeans(Fetched(was, replica, offset, now), self, leo, now);
      case Sweep(now) => RecomputeMeans(was, self, leo, now);
    }
  }

  /** Every in-sync follower has fetched past the offset, and so has the mark. */
  ghost predicate InSyncPast(st: PartitionState, offset: int)
    reads st, st.partition
  {
    && offset <= st.partition.hwm <= st.partition.nextOffset
    && forall id :: id in st.isr && id != st.self ==> id in st.progress && offset <= st.progress[id]
  }

  /**
   * A produce at the leader: append, recompute, wait. With acks=all it is
   * answered without error exactly when the high watermark passes the batch at
   * some moment of the wait, and then every in-sync follower has fetched past
   * the batch.
   */
  method LeaderProduce(st: PartitionState, records: seq<Record>, acks: byte, ts: u64, now: u64, arrivals: seq<Arrival>)
    returns (base: nat, timedOut: bool)
    requires st.partition.Valid()
    modifies st, st.partition, st.partition.segments
    ensures st.partition == old(st.partition) && st.Covered() && base == old(st.partition.nextOffset)
    ensures st.partition.log == old(st.partition.log) + Stamped(records, base, ts)
    ensures Size(records) < TWO_32 && base + |records| < TWO_63 ==> st.partition.Valid()
    ensures timedOut <==> TimesOut(old(st.State()), st.self, acks, base, |records|, now, arrivals)
    ensures !timedOut && acks == ACKS_ALL && records != [] ==> InSyncPast(st, base + |records|)
  {
    hide Recomputed, Partition.Valid, Scanning.Size, Stamped, MarkPasses;
    ghost var was := st.State();
    var b, _ := st.Produce(records, ts, now);
    base := b;
    if acks == ACKS_ALL && records != [] {
      WaitForMark(st, base + |records| - 1, arrivals, Recomputed(was, st.self, st.partition.nextOffset, now));
    }
    timedOut := st.AnswerProduce(acks, base, |records|);
  }

  /**
   * handle_produce, with the leader that the partition's assignment names, if there is one: a
   * broker that does not lead the partition changes nothing and says who does.
   */
  method HandleProduce(st: PartitionState, leader: Option<BrokerId>, records: seq<Record>, acks: byte, ts: u64,
      now: u64, arrivals: seq<Arrival>)
    returns (reply: ProduceReply)
    requires st.partition.Valid()
    modifies st, st.partition, st.partition.segments
    ensures st.partition == old(st.partition)
    ensures match leader
            case None => reply == UnknownTopic && unchanged(st, old(st.partition), old(st.partition.segments))
            case Some(id) =>
              if id != st.self then
                reply == NotLeader(id) && unchanged(st, old(st.partition), old(st.partition.segments))
              else
                var base := old(st.partition.nextOffset);
                && st.partition.log == old(st.partition.log) + Stamped(records, base, ts)
                && reply == (if TimesOut(old(st.State()), st.self, acks, base, |records|, now, arrivals)
                             then RequestTimedOut(base) else Produced(base))
                && (reply.Produced? && acks == ACKS_ALL && records != [] ==> InSyncPast(st, base + |records|))
  {
    if leader == None {
      return UnknownTopic;
    }
    if leader.value != st.self {
      return NotLeader(leader.value);
    }
    hide TimesOut, InSyncPast, Partition.Valid, Scanning.Size, Stamped;
    var base, timedOut := LeaderProduce(st, records, acks, ts, now, arrivals);
    return if timedOut then RequestTimedOut(base) else Produced(base);
  }
}

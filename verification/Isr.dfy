/**
 * The leader's view of one partition's replicas: how far each has fetched and
 * when, who is in sync, and the high watermark that follows from it.
 */
module Isr {
  import opened Types
  import opened Election
  import opened Sorting

  const LAG_TIME_MS := 1000
  const LAG_MESSAGES := 1000

  datatype IsrState = IsrState(
    replicas: seq<BrokerId>,
    progress: map<BrokerId, u64>,
    lastFetch: map<BrokerId, u64>,
    isr: seq<BrokerId>)

  /** set_leading: the replicas are replaced; an in-sync set that is not empty is kept. */
  function SetLed(was: Option<IsrState>, replicas: seq<BrokerId>): IsrState {
    match was
    case None => IsrState(replicas, map[], map[], replicas)
    case Some(st) => st.(replicas := replicas, isr := if st.isr == [] then replicas else st.isr)
  }

  /** Unsigned difference of two clock readings. */
  function Age(now: u64, since: u64): u64 {
    (now - since) % TWO_64
  }

  /** It is the time passed, when the clock did not go back. */
  lemma AgeMeans(now: u64, since: u64)
    ensures Age(now, since) == if since <= now then now - since else now + TWO_64 - since
  {
  }

  predicate InSync(st: IsrState, self: BrokerId, id: BrokerId, leo: u64, now: u64) {
    || id == self
    || (&& id in st.progress && id in st.lastFetch
        && Age(now, st.lastFetch[id]) <= LAG_TIME_MS
        && leo >= st.progress[id] && leo - st.progress[id] <= LAG_MESSAGES)
  }

  /** The replicas in sync, in the order of the replica list. */
  function Kept(st: IsrState, self: BrokerId, ids: seq<BrokerId>, leo: u64, now: u64): seq<BrokerId> {
    Filter((id: BrokerId) => InSync(st, self, id, leo, now), ids)
  }

  lemma KeptSnoc(st: IsrState, self: BrokerId, ids: seq<BrokerId>, i: nat, leo: u64, now: u64)
    requires i < |ids|
    ensures Kept(st, self, ids[..i + 1], leo, now)
         == Kept(st, self, ids[..i], leo, now) + if InSync(st, self, ids[i], leo, now) then [ids[i]] else []
  {
    FilterSnoc((id: BrokerId) => InSync(st, self, id, leo, now), ids, i);
  }

  lemma KeptMembers(st: IsrState, self: BrokerId, ids: seq<BrokerId>, leo: u64, now: u64)
    ensures forall id :: id in Kept(st, self, ids, leo, now) <==> id in ids && InSync(st, self, id, leo, now)
    ensures Distinct(ids) ==> Distinct(Kept(st, self, ids, leo, now))
  {
    FilterMembers((id: BrokerId) => InSync(st, self, id, leo, now), ids);
    if Distinct(ids) {
      FilterDistinct((id: BrokerId) => InSync(st, self, id, leo, now), ids);
    }
  }

  /** std::sort on broker ids. */
  function SortIds(ids: seq<BrokerId>): seq<BrokerId> {
    SortMembers(ids);
    var sorted := Sort(ids);
    assert forall i :: 0 <= i < |sorted| ==> sorted[i] in sorted && sorted[i] in ids;
    sorted
  }

  lemma SortIdsCorrect(ids: seq<BrokerId>)
    ensures IsSorted(SortIds(ids)) && |SortIds(ids)| == |ids|
    ensures forall id :: id in SortIds(ids) <==> id in ids
    ensures Distinct(ids) ==> Distinct(SortIds(ids))
  {
    SortCorrect(ids);
    SortMembers(ids);
    if Distinct(ids) {
      SortDistinct(ids);
    }
  }

  /** The least progress among the members other than the leader, but no more than the leader's end. */
  function LowMark(progress: map<BrokerId, u64>, self: BrokerId, isr: seq<BrokerId>, leo: u64): u64 {
    if isr == [] then leo
    else
      var low, last := LowMark(progress, self, isr[..|isr| - 1], leo), isr[|isr| - 1];
      if last != self && last in progress && progress[last] < low then progress[last] else low
  }

  lemma {:induction false} LowMarkIsLeast(progress: map<BrokerId, u64>, self: BrokerId, isr: seq<BrokerId>, leo: u64)
    ensures var low := LowMark(progress, self, isr, leo);
            && low <= leo
            && (forall id :: id in isr && id != self && id in progress ==> low <= progress[id])
            && (low == leo || exists id :: id in isr && id != self && id in progress && progress[id] == low)
  {
    if isr != [] {
      LowMarkIsLeast(progress, self, isr[..|isr| - 1], leo);
      assert isr == isr[..|isr| - 1] + [isr[|isr| - 1]];
    }
  }

  function NewIsr(st: IsrState, self: BrokerId, leo: u64, now: u64): seq<BrokerId> {
    SortIds(Kept(st, self, st.replicas, leo, now))
  }

  /** The state and the high watermark after a recomputation. */
  function Recomputed(st: IsrState, self: BrokerId, leo: u64, now: u64): (IsrState, u64) {
    var isr := NewIsr(st, self, leo, now);
    (st.(isr := isr), LowMark(st.progress, self, isr, leo))
  }

  /** What is reported to the controller after a recomputation. */
  function Reported(was: seq<BrokerId>, isr: seq<BrokerId>): Option<seq<BrokerId>> {
    if isr != was then Some(isr) else None
  }

  function Fetched(st: IsrState, replica: BrokerId, offset: u64, now: u64): IsrState {
    st.(progress := st.progress[replica := offset], lastFetch := st.lastFetch[replica := now])
  }

  /**
   * What a recomputation promises: the in-sync set is exactly the replicas that
   * lag neither in time nor in messages, ascending and without duplicates; and
   * the high watermark is the greatest offset that the leader's log and every
   * member's progress reach.
   */
  lemma RecomputeMeans(st: IsrState, self: BrokerId, leo: u64, now: u64)
    ensures var (st', hwm) := Recomputed(st, self, leo, now);
            && (forall id :: id in st'.isr <==> id in st.replicas && InSync(st, self, id, leo, now))
            && (self in st.replicas ==> self in st'.isr)
            && IsSorted(st'.isr) && (Distinct(st.replicas) ==> Distinct(st'.isr))
            && st'.progress == st.progress && st'.lastFetch == st.lastFetch && st'.replicas == st.replicas
            && hwm <= leo
            && (forall id :: id in st'.isr && id != self ==> id in st.progress && hwm <= st.progress[id])
            && (hwm == leo || exists id :: id in st'.isr && id != self && id in st.progress && hwm == st.progress[id])
  {
    hide LowMark, Kept, Sorting.Sort;
    KeptMembers(st, self, st.replicas, leo, now);
    SortIdsCorrect(Kept(st, self, st.replicas, leo, now));
    LowMarkIsLeast(st.progress, self, NewIsr(st, self, leo, now), leo);
  }

  /**
   * Who is in sync, in plain numbers: of the replicas, the leader, and those
   * that fetched at most 1000 ms ago, are at most 1000 records behind and not
   * past the leader's end. A replica that never fetched is out. A fetch noted
   * after now counts as one of almost 2^64 ms ago.
   */
  lemma InSyncExactly(st: IsrState, self: BrokerId, leo: u64, now: u64)
    ensures forall id :: id in Recomputed(st, self, leo, now).0.isr <==>
              && id in st.replicas
              && (id == self ||
                  (&& id in st.progress && id in st.lastFetch
                   && st.progress[id] <= leo && leo - st.progress[id] <= 1000
                   && (if st.lastFetch[id] <= now then now - st.lastFetch[id] <= 1000
                       else now + TWO_64 - st.lastFetch[id] <= 1000)))
  {
    hide Recomputed;
    RecomputeMeans(st, self, leo, now);
  }

  /** The mark is the leader's end exactly when every in-sync follower has fetched up to it. */
  lemma MarkAtEnd(st: IsrState, self: BrokerId, leo: u64, now: u64)
    ensures var (st', mark) := Recomputed(st, self, leo, now);
            mark == leo <==> forall id :: id in st'.isr && id != self ==> id in st'.progress && leo <= st'.progress[id]
  {
    hide Recomputed;
    RecomputeMeans(st, self, leo, now);
  }

  /** With every follower silent for more than 1000 ms, or new, the mark is the leader's end. */
  lemma SilentReplicasHoldNothing(st: IsrState, self: BrokerId, leo: u64, now: u64)
    ensures (forall id :: id in st.replicas && id != self && id in st.lastFetch ==>
                            st.lastFetch[id] + 1000 < now)
            ==> Recomputed(st, self, leo, now).1 == leo
  {
    InSyncExactly(st, self, leo, now);
    MarkAtEnd(st, self, leo, now);
  }
}

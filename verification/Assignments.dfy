/**
 * The partition assignments a controller creates, updates and repairs: which
 * broker leads a partition, which hold a replica and which are in sync.
 */
module Assignments {
  import opened Types
  import opened Election
  import opened Sorting
  import opened Strings
  import Isr

  datatype Key = Key(topic: string, partition: u32)
  datatype PartitionAssignment = PartitionAssignment(leader: BrokerId, replicas: seq<BrokerId>, isr: seq<BrokerId>)
  datatype Entry = Entry(key: Key, pa: PartitionAssignment)

  type Table = map<Key, PartitionAssignment>

  const ALIVE_THRESHOLD_MS := 600

  // ---- Placement ----

  /** rf consecutive brokers from the one at index first, wrapping around. */
  function Ring(alive: seq<BrokerId>, first: nat, rf: nat): (r: seq<BrokerId>)
    requires 0 < |alive|
    ensures |r| == rf
  {
    seq(rf, k requires 0 <= k < rf => alive[(first + k) % |alive|])
  }

  function Placement(alive: seq<BrokerId>, rf: nat, p: nat): PartitionAssignment
    requires 0 < |alive|
  {
    var ring := Ring(alive, p % |alive|, rf);
    PartitionAssignment(alive[p % |alive|], ring, ring)
  }

  /** The replication factor in effect: no more than the alive brokers, and never none. */
  function EffectiveFactor(asked: u32, alive: nat): nat {
    var rf := Min(asked, alive);
    if rf == 0 then 1 else rf
  }

  function Placements(alive: seq<BrokerId>, rf: nat, topic: string, n: u32): seq<Entry>
    requires 0 < |alive|
  {
    if n == 0 then [] else Placements(alive, rf, topic, n - 1) + [Entry(Key(topic, n - 1), Placement(alive, rf, n - 1))]
  }

  /** Applying entries in order; a later entry for a partition wins. */
  function Applied(t: Table, entries: seq<Entry>): Table {
    if entries == [] then t
    else Applied(t, entries[..|entries| - 1])[entries[|entries| - 1].key := entries[|entries| - 1].pa]
  }

  /** Entry i is the last one for partition k. */
  predicate LastFor(entries: seq<Entry>, k: Key, i: nat) {
    i < |entries| && entries[i].key == k && forall j :: i < j < |entries| ==> entries[j].key != k
  }

  predicate NoneFor(entries: seq<Entry>, k: Key) {
    forall i :: 0 <= i < |entries| ==> entries[i].key != k
  }

  /** A partition gets the assignment of its last entry; without an entry it keeps its own, if it has one. */
  lemma {:induction false} AppliedExactly(t: Table, entries: seq<Entry>, k: Key, i: nat)
    ensures var u := Applied(t, entries);
            && (LastFor(entries, k, i) ==> k in u && u[k] == entries[i].pa)
            && (NoneFor(entries, k) ==> (k in u <==> k in t) && (k in t ==> u[k] == t[k]))
  {
    if entries != [] {
      var n := |entries| - 1;
      var front := entries[..n];
      AppliedExactly(t, front, k, i);
      if entries[n].key != k {
        assert LastFor(entries, k, i) ==> LastFor(front, k, i);
        assert NoneFor(entries, k) ==> NoneFor(front, k);
      }
    }
  }

  // ---- Failover ----

  /** The alive members other than the dead leader, in order. */
  function Survivors(ids: seq<BrokerId>, leader: BrokerId, alive: seq<BrokerId>): seq<BrokerId> {
    Filter((id: BrokerId) => id != leader && id in alive, ids)
  }

  /** The assignment a dead leader's partition gets, or None when it stays as it is. */
  function FailedOver(pa: PartitionAssignment, alive: seq<BrokerId>, unclean: bool): Option<PartitionAssignment> {
    if pa.leader in alive then None
    else
      var fromIsr := Isr.SortIds(Survivors(pa.isr, pa.leader, alive));
      if fromIsr != [] then Some(pa.(leader := fromIsr[0], isr := fromIsr))
      else if !unclean then None
      else
        var fromReplicas := Isr.SortIds(Survivors(pa.replicas, pa.leader, alive));
        if fromReplicas != [] then Some(pa.(leader := fromReplicas[0], isr := [fromReplicas[0]])) else None
  }

  lemma SurvivorsMembers(ids: seq<BrokerId>, leader: BrokerId, alive: seq<BrokerId>)
    ensures var s := Isr.SortIds(Survivors(ids, leader, alive));
            && IsSorted(s) && (Distinct(ids) ==> Distinct(s))
            && forall id :: id in s <==> id in ids && id != leader && id in alive
  {
    FilterMembers((id: BrokerId) => id != leader && id in alive, ids);
    if Distinct(ids) {
      FilterDistinct((id: BrokerId) => id != leader && id in alive, ids);
    }
    Isr.SortIdsCorrect(Survivors(ids, leader, alive));
  }

  /** Some alive broker other than leader is in ids. */
  predicate HasCandidate(ids: seq<BrokerId>, leader: BrokerId, alive: seq<BrokerId>) {
    exists id :: id in ids && id != leader && id in alive
  }

  /** id is the least candidate in ids. */
  predicate LeastCandidate(id: BrokerId, ids: seq<BrokerId>, leader: BrokerId, alive: seq<BrokerId>) {
    id in ids && id != leader && id in alive && forall x :: x in ids && x != leader && x in alive ==> id <= x
  }

  /**
   * What a failover does. A partition changes exactly when its leader is dead
   * and a candidate is left: an alive in-sync replica, or any alive replica if
   * unclean election is on. The least candidate leads, the replicas stay, and
   * the new in-sync set is the alive part of the old one, or the new leader alone.
   */
  lemma FailoverChooses(pa: PartitionAssignment, alive: seq<BrokerId>, unclean: bool)
    ensures var clean := HasCandidate(pa.isr, pa.leader, alive);
            var r := FailedOver(pa, alive, unclean);
            && (r.Some? <==> pa.leader !in alive && (clean || (unclean && HasCandidate(pa.replicas, pa.leader, alive))))
            && (r.Some? ==> r.value.replicas == pa.replicas && r.value.leader in r.value.isr && r.value.leader in alive)
            && (r.Some? && clean ==>
                  && LeastCandidate(r.value.leader, pa.isr, pa.leader, alive)
                  && IsSorted(r.value.isr) && (Distinct(pa.isr) ==> Distinct(r.value.isr))
                  && forall id :: id in r.value.isr <==> id in pa.isr && id != pa.leader && id in alive)
            && (r.Some? && !clean ==>
                  LeastCandidate(r.value.leader, pa.replicas, pa.leader, alive) && r.value.isr == [r.value.leader])
  {
    hide Survivors, Isr.SortIds;
    SurvivorsMembers(pa.isr, pa.leader, alive);
    SurvivorsMembers(pa.replicas, pa.leader, alive);
    var s, t := Isr.SortIds(Survivors(pa.isr, pa.leader, alive)), Isr.SortIds(Survivors(pa.replicas, pa.leader, alive));
    assert s != [] ==> s[0] in s;
    assert t != [] ==> t[0] in t;
    LeastIsFirst(pa.isr, pa.leader, alive);
    LeastIsFirst(pa.replicas, pa.leader, alive);
  }

  lemma LeastIsFirst(ids: seq<BrokerId>, leader: BrokerId, alive: seq<BrokerId>)
    ensures var s := Isr.SortIds(Survivors(ids, leader, alive));
            && (s != [] <==> HasCandidate(ids, leader, alive))
            && (s != [] ==> LeastCandidate(s[0], ids, leader, alive))
  {
    hide Survivors, Isr.SortIds;
    SurvivorsMembers(ids, leader, alive);
    var s := Isr.SortIds(Survivors(ids, leader, alive));
    if s != [] {
      assert s[0] in s;
    }
    if HasCandidate(ids, leader, alive) {
      var id :| id in ids && id != leader && id in alive;
      assert id in s;
    }
  }

  function Repair(pa: PartitionAssignment, alive: seq<BrokerId>, unclean: bool): PartitionAssignment {
    match FailedOver(pa, alive, unclean) { case Some(promoted) => promoted case None => pa }
  }

  /** The table after a failover pass; partitions that find no new leader stay as they are. */
  function Repaired(t: Table, alive: seq<BrokerId>, unclean: bool): Table {
    map k | k in t :: Repair(t[k], alive, unclean)
  }

  /** The entries a failover pass broadcasts for these keys. */
  function Reassigned(keys: seq<Key>, t: Table, alive: seq<BrokerId>, unclean: bool): seq<Entry>
    requires forall k :: k in keys ==> k in t
  {
    if keys == [] then []
    else
      var last := keys[|keys| - 1];
      Reassigned(keys[..|keys| - 1], t, alive, unclean)
      + match FailedOver(t[last], alive, unclean) { case Some(pa) => [Entry(last, pa)] case None => [] }
  }

  /** The order of std::map keys: by topic, then by partition. */
  predicate KeyLe(a: Key, b: Key) {
    if a.topic == b.topic then a.partition <= b.partition else StringLe(a.topic, b.topic)
  }

  lemma KeyOrder()
    ensures StrictOrder(KeyLe)
  {
    StringOrder();
    forall a, b ensures (KeyLe(a, b) || KeyLe(b, a)) && (KeyLe(a, b) && KeyLe(b, a) ==> a == b) {
      StringLeTotal(a.topic, b.topic);
    }
    forall a, b, c | KeyLe(a, b) && KeyLe(b, c) ensures KeyLe(a, c) {
      if a.topic == c.topic && a.topic != b.topic {
        StringLeTotal(a.topic, b.topic);
      }
    }
  }

  function KeysInOrder(t: Table): (keys: seq<Key>)
    ensures forall k :: k in keys <==> k in t
  {
    KeyOrder();
    AscendingMembers(KeyLe, t.Keys);
    Ascending(KeyLe, t.Keys)
  }

  /** Every key once; topics in the order of their names, and the partitions of a topic by number. */
  lemma KeysInOrderIsExact(t: Table)
    ensures var keys := KeysInOrder(t);
            && (forall k :: k in keys <==> k in t)
            && Distinct(keys) && IsSortedBy(KeyLe, keys)
            && forall i, j :: 0 <= i < j < |keys| ==> InTurn(keys[i], keys[j])
  {
    KeyOrder();
    AscendingMembers(KeyLe, t.Keys);
    var keys := KeysInOrder(t);
    forall i, j | 0 <= i < j < |keys| ensures InTurn(keys[i], keys[j]) {
      assert KeyLe(keys[i], keys[j]) && keys[i] != keys[j];
    }
  }

  /** a comes before b. */
  predicate InTurn(a: Key, b: Key) {
    (a.topic != b.topic && StringLe(a.topic, b.topic)) || (a.topic == b.topic && a.partition < b.partition)
  }

  /** One more key at the end of a failover pass. */
  lemma ReassignedSnoc(keys: seq<Key>, i: nat, t: Table, alive: seq<BrokerId>, unclean: bool)
    requires i < |keys| && forall k :: k in keys ==> k in t
    ensures Reassigned(keys[..i + 1], t, alive, unclean)
         == Reassigned(keys[..i], t, alive, unclean)
            + match FailedOver(t[keys[i]], alive, unclean) { case Some(pa) => [Entry(keys[i], pa)] case None => [] }
  {
    hide FailedOver;
    assert keys[..i + 1][..i] == keys[..i];
  }

  /**
   * What a failover pass does to one partition. With its leader alive nothing; otherwise an
   * alive in-sync replica leads the alive part of the in-sync set; without one, if unclean
   * election is on, an alive replica leads alone; otherwise nothing. The least id leads.
   */
  predicate Outcome(was: PartitionAssignment, pa: PartitionAssignment, alive: seq<BrokerId>, unclean: bool) {
    if was.leader in alive then pa == was
    else if HasCandidate(was.isr, was.leader, alive) then
      && pa.replicas == was.replicas && LeastCandidate(pa.leader, was.isr, was.leader, alive)
      && IsSorted(pa.isr) && (Distinct(was.isr) ==> Distinct(pa.isr))
      && forall id: BrokerId :: id in pa.isr <==> id in was.isr && id in alive
    else if unclean && HasCandidate(was.replicas, was.leader, alive) then
      && pa.replicas == was.replicas && LeastCandidate(pa.leader, was.replicas, was.leader, alive)
      && pa.isr == [pa.leader]
    else pa == was
  }

  lemma RepairIsOutcome(pa: PartitionAssignment, alive: seq<BrokerId>, unclean: bool)
    ensures Outcome(pa, Repair(pa, alive, unclean), alive, unclean)
    ensures FailedOver(pa, alive, unclean)
         == if Repair(pa, alive, unclean) == pa then None else Some(Repair(pa, alive, unclean))
  {
    hide FailedOver;
    FailoverChooses(pa, alive, unclean);
  }

  /**
   * A failover pass. The partitions stay the same, each with its outcome; and what is sent
   * is every partition that changed, once, in key order, as it is now.
   */
  lemma FailoverPass(t: Table, alive: seq<BrokerId>, unclean: bool)
    ensures var u, sent := Repaired(t, alive, unclean), Reassigned(KeysInOrder(t), t, alive, unclean);
            && u.Keys == t.Keys && (forall k :: k in t ==> Outcome(t[k], u[k], alive, unclean))
            && (forall e :: e in sent ==> e.key in t && e.pa == u[e.key] != t[e.key])
            && (forall k :: k in t && u[k] != t[k] ==> Entry(k, u[k]) in sent)
            && (forall i, j :: 0 <= i < j < |sent| ==> InTurn(sent[i].key, sent[j].key))
  {
    hide Outcome, Repair, KeysInOrder, InTurn, Reassigned;
    forall k | k in t ensures Outcome(t[k], Repair(t[k], alive, unclean), alive, unclean) {
      RepairIsOutcome(t[k], alive, unclean);
    }
    KeysInOrderIsExact(t);
    SentMembers(KeysInOrder(t), t, alive, unclean);
    SentInTurn(KeysInOrder(t), t, alive, unclean);
  }

  lemma {:induction false} SentMembers(keys: seq<Key>, t: Table, alive: seq<BrokerId>, unclean: bool)
    requires forall k :: k in keys ==> k in t
    ensures var sent := Reassigned(keys, t, alive, unclean);
            && (forall e :: e in sent ==> e.key in keys && e.pa == Repair(t[e.key], alive, unclean) != t[e.key])
            && (forall k :: k in keys && Repair(t[k], alive, unclean) != t[k] ==>
                  Entry(k, Repair(t[k], alive, unclean)) in sent)
  {
    hide Repair, FailedOver;
    if keys != [] {
      var n := |keys| - 1;
      assert keys == keys[..n] + [keys[n]];
      SentMembers(keys[..n], t, alive, unclean);
      RepairIsOutcome(t[keys[n]], alive, unclean);
    }
  }

  lemma {:induction false} SentInTurn(keys: seq<Key>, t: Table, alive: seq<BrokerId>, unclean: bool)
    requires (forall k :: k in keys ==> k in t) && forall i, j :: 0 <= i < j < |keys| ==> InTurn(keys[i], keys[j])
    ensures var sent := Reassigned(keys, t, alive, unclean);
            forall i, j :: 0 <= i < j < |sent| ==> InTurn(sent[i].key, sent[j].key)
  {
    hide FailedOver, InTurn;
    if keys != [] {
      var n := |keys| - 1;
      var front, last := keys[..n], keys[n];
      SentInTurn(front, t, alive, unclean);
      SentMembers(front, t, alive, unclean);
      var some := Reassigned(front, t, alive, unclean);
      forall i | 0 <= i < |some| ensures InTurn(some[i].key, last) {
        assert some[i] in some;
      }
    }
  }

  // ---- What every assignment keeps ----

  /** An assignment that is sound for a partition created with these replicas. */
  predicate Sound(replicas: seq<BrokerId>, pa: PartitionAssignment) {
    && pa.replicas == replicas && replicas != [] && Distinct(replicas)
    && pa.leader in replicas
    && SoundIsr(replicas, pa.isr)
  }

  predicate SoundIsr(replicas: seq<BrokerId>, isr: seq<BrokerId>) {
    isr != [] && Distinct(isr) && forall id :: id in isr ==> id in replicas
  }

  /** A placement starts with its leader and lists rf different brokers, all in sync. */
  lemma PlacementSound(alive: seq<BrokerId>, rf: nat, p: nat)
    requires Distinct(alive) && 1 <= rf <= |alive|
    ensures var pa := Placement(alive, rf, p);
            Sound(pa.replicas, pa) && |pa.replicas| == rf && pa.replicas[0] == pa.leader && pa.isr == pa.replicas
    ensures forall id :: id in Placement(alive, rf, p).replicas ==> id in alive
  {
    var pa := Placement(alive, rf, p);
    RingDistinct(alive, p % |alive|, rf);
    RingIndex(|alive|, p % |alive|, 0);
    assert pa.replicas[0] in pa.replicas;
  }

  lemma RingDistinct(alive: seq<BrokerId>, l: nat, rf: nat)
    requires Distinct(alive) && rf <= |alive| && l < |alive|
    ensures Distinct(Ring(alive, l, rf)) && forall id :: id in Ring(alive, l, rf) ==> id in alive
  {
    forall i, j | 0 <= i < j < rf ensures Ring(alive, l, rf)[i] != Ring(alive, l, rf)[j] {
      RingIndex(|alive|, l, i);
      RingIndex(|alive|, l, j);
    }
  }

  lemma RingIndex(n: nat, l: nat, k: nat)
    requires l < n && k < n
    ensures (l + k) % n == if l + k < n then l + k else l + k - n
  {
    if l + k >= n {
      assert (l + k) % n == (l + k - n) % n by { ModMinus(l + k, n); }
    }
  }

  lemma ModMinus(a: nat, n: nat)
    requires 0 < n <= a
    ensures a % n == (a - n) % n && a / n == (a - n) / n + 1
  {
    var q, r := (a - n) / n, (a - n) % n;
    assert a - n == q * n + r;
    assert a == (q + 1) * n + r;
    DivModUnique(a, n, q + 1, r);
  }

  lemma DivModUnique(a: nat, n: nat, q: nat, r: nat)
    requires 0 < n && r < n && a == q * n + r
    ensures a / n == q && a % n == r
  {
    var d: int := a / n - q;
    assert a == (a / n) * n + a % n;
    assert d * n == r - a % n;
    assert d >= 1 ==> d * n >= n;
    assert d <= -1 ==> (-d) * n >= n;
  }

  lemma FailoverSound(replicas: seq<BrokerId>, pa: PartitionAssignment, alive: seq<BrokerId>, unclean: bool)
    requires Sound(replicas, pa) && FailedOver(pa, alive, unclean).Some?
    ensures Sound(replicas, FailedOver(pa, alive, unclean).value)
  {
    hide FailedOver;
    FailoverChooses(pa, alive, unclean);
  }

  /** A topic of n partitions as it was asked for: partition p, with its leader, replicas and in-sync set. */
  ghost predicate AsAsked(entries: seq<Entry>, alive: seq<BrokerId>, factor: u32, topic: string, n: u32) {
    && |entries| == n
    && forall p :: 0 <= p < n && alive != [] ==> PlacedAsAsked(entries[p], alive, factor, topic, p)
  }

  /**
   * One replica if none is asked for, every alive broker if more are asked for than are
   * alive, otherwise as many as asked: the brokers after one another in the alive list,
   * starting one place further for each partition. The first leads and all are in sync.
   */
  ghost predicate PlacedAsAsked(e: Entry, alive: seq<BrokerId>, factor: u32, topic: string, p: u32)
    requires alive != []
  {
    && e.key == Key(topic, p)
    && |e.pa.replicas| == (if factor == 0 then 1 else if factor <= |alive| then factor else |alive|)
    && (forall k :: 0 <= k < |e.pa.replicas| ==> e.pa.replicas[k] == alive[(p + k) % |alive|])
    && e.pa.leader == e.pa.replicas[0] && e.pa.isr == e.pa.replicas
  }

  lemma PlacementAsAsked(alive: seq<BrokerId>, factor: u32, topic: string, p: u32)
    requires alive != []
    ensures PlacedAsAsked(Entry(Key(topic, p), Placement(alive, EffectiveFactor(factor, |alive|), p)),
              alive, factor, topic, p)
  {
    var rf := EffectiveFactor(factor, |alive|);
    var pa := Placement(alive, rf, p);
    forall k | 0 <= k < rf ensures pa.replicas[k] == alive[(p + k) % |alive|] {
      ModSum(p, k, |alive|);
    }
    ModSum(p, 0, |alive|);
  }

  lemma ModSum(p: nat, k: nat, n: nat)
    requires 0 < n
    ensures (p % n + k) % n == (p + k) % n
  {
    var q, r := (p % n + k) / n, (p % n + k) % n;
    assert p % n + k == q * n + r;
    assert p == (p / n) * n + p % n;
    assert p + k == (p / n + q) * n + r;
    DivModUnique(p + k, n, p / n + q, r);
  }

  /** Every partition of a new topic is placed as it was asked for. */
  lemma {:induction false} TopicIsAsAsked(alive: seq<BrokerId>, factor: u32, topic: string, n: u32)
    requires alive != []
    ensures AsAsked(Placements(alive, EffectiveFactor(factor, |alive|), topic, n), alive, factor, topic, n)
  {
    hide Placement, EffectiveFactor, PlacedAsAsked;
    if n > 0 {
      TopicIsAsAsked(alive, factor, topic, n - 1);
      PlacementAsAsked(alive, factor, topic, n - 1);
    }
  }

  /** Applied to a table, a new topic's entries are its partitions there, and nothing else changes. */
  lemma TopicIsInTable(t: Table, entries: seq<Entry>, alive: seq<BrokerId>, factor: u32, topic: string, n: u32)
    requires alive != [] && AsAsked(entries, alive, factor, topic, n)
    ensures var u := Applied(t, entries);
            && (forall p: u32 :: p < n ==> Key(topic, p) in u && u[Key(topic, p)] == entries[p].pa)
            && (forall k :: k in t && !(k.topic == topic && k.partition < n) ==> k in u && u[k] == t[k])
  {
    hide Applied;
    var u := Applied(t, entries);
    assert forall p: u32 :: p < n ==> PlacedAsAsked(entries[p], alive, factor, topic, p);
    assert forall p: u32 :: p < n ==> entries[p].key == Key(topic, p);
    forall p: u32 | p < n ensures Key(topic, p) in u && u[Key(topic, p)] == entries[p].pa {
      AppliedExactly(t, entries, Key(topic, p), p);
    }
    forall k | k in t && !(k.topic == topic && k.partition < n) ensures k in u && u[k] == t[k] {
      AppliedExactly(t, entries, k, 0);
    }
  }

  /** Asked for as many replicas as there are alive brokers, or more, a partition gets them all. */
  lemma EveryoneHasAReplica(e: Entry, alive: seq<BrokerId>, factor: u32, topic: string, p: u32)
    requires Distinct(alive) && alive != [] && |alive| <= factor && PlacedAsAsked(e, alive, factor, topic, p)
    ensures forall id :: id in e.pa.replicas <==> id in alive
  {
    forall id | id in alive ensures id in e.pa.replicas {
      var i :| 0 <= i < |alive| && alive[i] == id;
      var size, l := |alive|, p % |alive|;
      var k := if i >= l then i - l else i - l + size;
      RingIndex(size, l, k);
      ModSum(p, k, size);
      assert e.pa.replicas[k] == id;
    }
  }

  // ---- Balance ----

  /** How many of the first n partitions the broker at index i leads. */
  function LeaderCount(size: nat, n: nat, i: nat): nat
    requires 0 < size
  {
    if n == 0 then 0 else LeaderCount(size, n - 1, i) + if (n - 1) % size == i then 1 else 0
  }

  /** Whether the broker at index i is among the rf from index l on. */
  predicate InRing(size: nat, rf: nat, l: nat, i: nat) {
    (if i >= l then i - l else i - l + size) < rf
  }

  /** How many of the first n partitions the broker at index i has a replica of. */
  function ReplicaCount(size: nat, rf: nat, n: nat, i: nat): nat
    requires 0 < size
  {
    if n == 0 then 0 else ReplicaCount(size, rf, n - 1, i) + if InRing(size, rf, (n - 1) % size, i) then 1 else 0
  }

  lemma NextDivMod(n: nat, size: nat)
    requires 0 < size
    ensures n % size + 1 < size ==> (n + 1) / size == n / size && (n + 1) % size == n % size + 1
    ensures n % size + 1 == size ==> (n + 1) / size == n / size + 1 && (n + 1) % size == 0
  {
    var q, r := n / size, n % size;
    if r + 1 < size {
      DivModUnique(n + 1, size, q, r + 1);
    } else {
      assert n + 1 == (q + 1) * size + 0;
      DivModUnique(n + 1, size, q + 1, 0);
    }
  }

  lemma {:induction false} LeaderCountIs(size: nat, n: nat, i: nat)
    requires i < size
    ensures LeaderCount(size, n, i) == n / size + if i < n % size then 1 else 0
  {
    if n == 0 {
      DivModUnique(0, size, 0, 0);
    } else {
      LeaderCountIs(size, n - 1, i);
      NextDivMod(n - 1, size);
    }
  }

  /** The index whose ring has index i in place k. */
  function Back(size: nat, i: nat, k: nat): nat
    requires k < size && i < size
  {
    if i >= k then i - k else i - k + size
  }

  /** Replicas in the first rf + 1 places are those in the first rf and those in place rf. */
  lemma {:induction false} OnePlaceMore(size: nat, rf: nat, n: nat, i: nat)
    requires rf < size && i < size
    ensures ReplicaCount(size, rf + 1, n, i) == ReplicaCount(size, rf, n, i) + LeaderCount(size, n, Back(size, i, rf))
  {
    if n > 0 {
      OnePlaceMore(size, rf, n - 1, i);
      var l := (n - 1) % size;
      assert l < size;
      assert InRing(size, rf + 1, l, i) <==> InRing(size, rf, l, i) || l == Back(size, i, rf);
    }
  }

  lemma {:induction false} NoPlaces(size: nat, n: nat, i: nat)
    requires 0 < size
    ensures ReplicaCount(size, 0, n, i) == 0
  {
    if n > 0 {
      NoPlaces(size, n - 1, i);
      assert (n - 1) % size < size;
    }
  }

  lemma LeaderCountLies(size: nat, n: nat, i: nat, q: nat)
    requires i < size && q == n / size
    ensures q <= LeaderCount(size, n, i) <= q + 1
  {
    LeaderCountIs(size, n, i);
  }

  lemma {:induction false} ReplicaCountLies(size: nat, rf: nat, n: nat, i: nat, q: nat)
    requires rf <= size && i < size && q == n / size
    ensures rf * q <= ReplicaCount(size, rf, n, i) <= rf * q + rf
    decreases rf
  {
    if rf == 0 {
      NoPlaces(size, n, i);
    } else {
      hide ReplicaCount, LeaderCount;
      ReplicaCountLies(size, rf - 1, n, i, q);
      OnePlaceMore(size, rf - 1, n, i);
      LeaderCountLies(size, n, Back(size, i, rf - 1), q);
      assert rf * q == (rf - 1) * q + q;
    }
  }

  lemma ReplicaCountBounds(size: nat, rf: nat, n: nat, i: nat)
    requires rf <= size && i < size
    ensures rf * (n / size) <= ReplicaCount(size, rf, n, i) <= rf * (n / size) + rf
  {
    ReplicaCountLies(size, rf, n, i, n / size);
  }

  /** How many of the entries' partitions the broker leads. */
  function Led(entries: seq<Entry>, b: BrokerId): nat {
    if entries == [] then 0
    else Led(entries[..|entries| - 1], b) + if entries[|entries| - 1].pa.leader == b then 1 else 0
  }

  /** How many of the entries' partitions the broker has a replica of. */
  function Held(entries: seq<Entry>, b: BrokerId): nat {
    if entries == [] then 0
    else Held(entries[..|entries| - 1], b) + if b in entries[|entries| - 1].pa.replicas then 1 else 0
  }

  lemma RingMembers(alive: seq<BrokerId>, rf: nat, l: nat, i: nat)
    requires Distinct(alive) && rf <= |alive| && l < |alive| && i < |alive|
    ensures alive[i] in Ring(alive, l, rf) <==> InRing(|alive|, rf, l, i)
  {
    var ring, size := Ring(alive, l, rf), |alive|;
    if InRing(size, rf, l, i) {
      var k := if i >= l then i - l else i - l + size;
      RingIndex(size, l, k);
      assert ring[k] == alive[i];
    }
    if alive[i] in ring {
      var k :| 0 <= k < rf && ring[k] == alive[i];
      RingIndex(size, l, k);
      assert (l + k) % size == i;
    }
  }

  lemma {:induction false} CountsAre(alive: seq<BrokerId>, rf: nat, topic: string, n: u32, i: nat)
    requires Distinct(alive) && rf <= |alive| && i < |alive|
    ensures Led(Placements(alive, rf, topic, n), alive[i]) == LeaderCount(|alive|, n, i)
    ensures Held(Placements(alive, rf, topic, n), alive[i]) == ReplicaCount(|alive|, rf, n, i)
  {
    if n > 0 {
      CountsAre(alive, rf, topic, n - 1, i);
      RingMembers(alive, rf, (n - 1) % |alive|, i);
      var all := Placements(alive, rf, topic, n);
      assert all[..|all| - 1] == Placements(alive, rf, topic, n - 1);
    }
  }

  lemma EffectiveFactorFits(factor: u32, alive: nat)
    requires 0 < alive
    ensures 1 <= EffectiveFactor(factor, alive) <= alive
  {
  }

  /**
   * Placement is balanced: over all partitions of a topic two alive brokers'
   * leader counts differ by at most one and their replica counts by at most
   * the replication factor in effect.
   */
  lemma PlacementBalanced(alive: seq<BrokerId>, factor: u32, topic: string, n: u32, a: BrokerId, b: BrokerId)
    requires Distinct(alive) && a in alive && b in alive
    ensures var rf := EffectiveFactor(factor, |alive|);
            var entries := Placements(alive, rf, topic, n);
            && rf <= |alive|
            && -1 <= Led(entries, a) - Led(entries, b) <= 1
            && Held(entries, a) <= Held(entries, b) + rf && Held(entries, b) <= Held(entries, a) + rf
  {
    var i :| 0 <= i < |alive| && alive[i] == a;
    var j :| 0 <= j < |alive| && alive[j] == b;
    EffectiveFactorFits(factor, |alive|);
    var rf := EffectiveFactor(factor, |alive|);
    CountsAre(alive, rf, topic, n, i);
    CountsAre(alive, rf, topic, n, j);
    LeaderCountIs(|alive|, n, i);
    LeaderCountIs(|alive|, n, j);
    ReplicaCountBounds(|alive|, rf, n, i);
    ReplicaCountBounds(|alive|, rf, n, j);
  }

  function AliveIn(self: BrokerId, all: seq<BrokerId>, lastAlive: map<BrokerId, u64>, now: u64): seq<BrokerId> {
    Filter((id: BrokerId) => id == self || (id in lastAlive && Isr.Age(now, lastAlive[id]) <= ALIVE_THRESHOLD_MS), all)
  }

  /**
   * Who is alive: of the brokers, in their order, this one and every one heard from in the
   * last 600 ms, nobody twice. Ages wrap, so one heard from after now counts as long silent.
   */
  lemma AliveExactly(self: BrokerId, all: seq<BrokerId>, lastAlive: map<BrokerId, u64>, now: u64)
    ensures var alive := AliveIn(self, all, lastAlive, now);
            && (forall id :: id in alive <==> id in all && (id == self || HeardInTime(id, lastAlive, now)))
            && (Distinct(all) ==> Distinct(alive))
            && (forall i, j :: 0 <= i < j < |alive| ==> Before(all, alive[i], alive[j]))
  {
    var keep :=
      (id: BrokerId) => id == self || (id in lastAlive && Isr.Age(now, lastAlive[id]) <= ALIVE_THRESHOLD_MS);
    FilterMembers(keep, all);
    FilterInOrder(keep, all);
    if Distinct(all) {
      FilterDistinct(keep, all);
    }
  }

  predicate HeardInTime(id: BrokerId, lastAlive: map<BrokerId, u64>, now: u64) {
    && id in lastAlive
    && if lastAlive[id] <= now then now - lastAlive[id] <= 600 else now + TWO_64 - lastAlive[id] <= 600
  }
}

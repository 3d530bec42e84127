/**
 * How a broker follows and leads: the fetcher that copies a leader's log, and
 * the reconciliation of what it leads and follows with the assignments it knows.
 *
 * A fetcher asks the leader for what comes after its own log end. The question
 * tells the leader how far the follower has got; the answer is appended as it
 * is. Here the fetcher and the leader are two objects that share nothing, and a
 * turn of the fetcher's loop runs the leader's side of the exchange as well.
 *
 * Reconciliation runs over all partitions whenever assignments have changed.
 * What it does is stated for each partition by itself: what the broker led and
 * followed before, what the assignments say, and what it leads and follows
 * afterwards.
 */
module Reconciliation {
  import opened Types
  import opened Election
  import opened Records
  import opened Scanning
  import opened SparseIndex
  import opened LogRead
  import opened Isr
  import opened IsrManager
  import opened Assignments
  import Replication
  import Partitions

  /** One follower's puller, between two turns of its loop. */
  class FollowerFetcher {
    const self: BrokerId
    const partition: Partitions.Partition

    constructor (self: BrokerId, partition: Partitions.Partition)
      ensures this.self == self && this.partition == partition
    {
      this.self, this.partition := self, partition;
    }

    /** The follower as the replication protocol sees it. */
    ghost function View(asked: bool): Replication.Follower
      requires partition.nextOffset < TWO_64
      reads this, partition
    {
      Replication.Replica(partition.log, partition.nextOffset, asked)
    }

    /**
     * An answer without error and with records is appended; anything else
     * leaves the log alone and backs off. The partition stays valid when the
     * records continue it, in less than 2^32 bytes.
     */
    method HandleAnswer(failed: bool, records: seq<Record>) returns (backOff: bool)
      requires partition.Valid() && partition.nextOffset < TWO_64
      modifies partition, partition.segments
      ensures partition.nextOffset < TWO_64
      ensures backOff <==> failed || records == []
      ensures View(false) == if failed then old(View(false)) else Replication.Replicated(old(View(true)), records)
      ensures partition.hwm == old(partition.hwm)
      ensures backOff ==> partition.Valid()
      ensures Partitions.Follows(records, old(partition.nextOffset)) && Size(records) < TWO_32 ==> partition.Valid()
      ensures forall i :: 0 <= i < |partition.segments| ==>
                            partition.segments[i] in old(partition.segments) || fresh(partition.segments[i])
    {
      hide Partitions.Partition.Stored, Contiguous, Scanning.Size;
      if failed || records == [] {
        return true;
      }
      partition.AppendReplicated(records);
      return false;
    }

    /**
     * One turn of the loop against the leader: ask for what follows the own
     * log, let the leader read and note the progress, and apply the answer. An
     * answer is lost with its connection, or when it is too large for the
     * four-byte length of a frame. The follower's log stays a prefix of the
     * leader's and loses nothing, and what the leader noted was true.
     */
    method FetchTurn(leader: PartitionState, now: u64, lost: bool) returns (backOff: bool)
      requires Behind(leader)
      modifies partition, partition.segments, leader, leader.partition`hwm
      ensures partition.Valid() && leader.partition == old(leader.partition) && leader.partition.Valid()
      ensures leader.Covered() && leader.partition.log == old(leader.partition.log)
      ensures leader.progress == old(leader.progress)[self := |old(partition.log)|]
      ensures old(partition.log) <= partition.log <= leader.partition.log
      ensures var start := |old(partition.log)|;
              var answer := Answer(leader.partition.log, start, |leader.partition.log|, 0x10_0000);
              partition.log == if lost || Size(answer) >= TWO_32 then old(partition.log)
                    else old(partition.log) + answer
      ensures backOff <==> partition.log == old(partition.log)
      ensures !lost && Modest(leader.partition.log, 0x10_0000) ==>
                (backOff <==> old(partition.log) == leader.partition.log)
      ensures leader.partition.segments == old(leader.partition.segments)
      ensures forall i :: 0 <= i < |partition.segments| ==>
                            partition.segments[i] in old(partition.segments) || fresh(partition.segments[i])
    {
      hide Partitions.Partition.Stored, Contiguous, Scanning.Size, Answer, Modest, Recomputed, Isr.Fetched, Reported;
      var start := partition.LogEndOffset();
      var records: seq<Record>, _ := leader.Replicate(self, start, Replication.MAX_FETCH_BYTES, now);
      AnswerFits(partition.log, leader.partition.log, Replication.MAX_FETCH_BYTES);
      backOff := HandleAnswer(lost || Size(records) >= TWO_32, records);
    }

    /**
     * A follower that loses no answer catches up: turn by turn, until the answer
     * is empty, it copies the whole log of a leader that appends nothing more.
     */
    method CatchUp(leader: PartitionState, now: u64)
      requires Behind(leader)
      requires Modest(leader.partition.log, Replication.MAX_FETCH_BYTES)
      modifies partition, partition.segments, leader, leader.partition`hwm
      ensures partition.Valid() && partition.log == leader.partition.log == old(leader.partition.log)
      ensures leader.partition == old(leader.partition) && leader.Covered()
      ensures self in leader.progress && leader.progress[self] == |partition.log|
    {
      hide Partitions.Partition.Stored, Contiguous, Scanning.Size, Answer, Modest, PartitionState.Covered;
      var backOff := FetchTurn(leader, now, false);
      while !backOff
        invariant Behind(leader) && leader.partition == old(leader.partition)
        invariant leader.Covered() && leader.partition.log == old(leader.partition.log)
        invariant self in leader.progress
        invariant backOff ==> partition.log == leader.partition.log && leader.progress[self] == |partition.log|
        invariant leader.partition.segments == old(leader.partition.segments)
        invariant forall i :: 0 <= i < |partition.segments| ==>
                                partition.segments[i] in old(partition.segments) || fresh(partition.segments[i])
        decreases !backOff, |leader.partition.log| - |partition.log|
      {
        backOff := FetchTurn(leader, now, false);
      }
    }

    /** Two valid copies of a partition, the follower's log a prefix of the leader's. */
    ghost predicate Behind(leader: PartitionState)
      reads this, partition, partition.segments, leader, leader.partition, leader.partition.segments
    {
      && partition.Valid() && leader.partition.Valid() && Apart(leader)
      && partition.log <= leader.partition.log
    }

    /** Two brokers' copies of a partition share no object. */
    ghost predicate Apart(leader: PartitionState)
      reads this, partition, leader, leader.partition
    {
      && leader.partition != partition
      && forall i, j :: 0 <= i < |partition.segments| && 0 <= j < |leader.partition.segments| ==>
                          partition.segments[i] != leader.partition.segments[j]
    }

    lemma PieceFollows(log: seq<Record>, start: nat, n: nat)
      requires Contiguous(log, 0) && start + n <= |log| < TWO_63
      ensures Partitions.Follows(log[start..start + n], start)
      ensures log[..start] + log[start..start + n] <= log
    {
    }

    /** The leader's answer to a follower whose log is a prefix of its own. */
    lemma AnswerFits(own: seq<Record>, log: seq<Record>, max: u32)
      requires own <= log && Contiguous(log, 0) && |log| < TWO_63
      ensures var a := Answer(log, |own|, |log|, max);
              && own + a <= log && Partitions.Follows(a, |own|) && (a == [] <==> own == log)
              && (Modest(log, max) ==> Size(a) < TWO_32)
    {
      hide Contiguous, Scanning.Size, Answer, Modest;
      var a := Answer(log, |own|, |log|, max);
      AnswerIsPiece(log, |own|, max);
      PieceFollows(log, |own|, |a|);
      assert own == log[..|own|];
      if |own| < |log| {
        AnswerMovesOn(log, |own|, |log|, max);
      }
      if Modest(log, max) {
        AnswerIsModest(log, |own|, max);
      }
    }
  }

  /** A partition's log end and high watermark. */
  datatype Mark = Mark(leo: nat, hwm: int)

  /** What a broker does for its partitions. */
  datatype Roles = Roles(
    leading: set<Key>,
    /** The leader each followed partition is pulled from. */
    following: map<Key, BrokerId>,
    tracked: map<Key, IsrState>,
    marks: map<Key, Mark>)

  function MarkOf(marks: map<Key, Mark>, k: Key): Mark {
    if k in marks then marks[k] else Mark(0, 0)
  }

  predicate LeadsNow(t: Table, self: BrokerId, k: Key) {
    k in t && t[k].leader == self
  }

  predicate FollowsNow(t: Table, self: BrokerId, k: Key) {
    k in t && t[k].leader != self && self in t[k].replicas
  }

  function TrackedState(tracked: map<Key, IsrState>, k: Key): Option<IsrState> {
    if k in tracked then Some(tracked[k]) else None
  }

  /**
   * What reconciliation is for, stated for each partition by itself: what is
   * led is what the table says; only a partition not led before jumps to its
   * log end; a led partition is tracked and not followed; a replica is not
   * tracked and is pulled from its leader, if that one's address is known;
   * every other partition is not followed.
   */
  ghost predicate Reconciled(was: Roles, now: Roles, t: Table, self: BrokerId, known: set<BrokerId>) {
    && (forall k :: k in now.leading <==> LeadsNow(t, self, k))
    && (forall k <- t :: LeadsNow(t, self, k) ==> LedOk(was, now, t[k].replicas, k))
    && (forall k <- t :: FollowsNow(t, self, k) ==> FollowedOk(was, now, t[k].leader, known, k))
    && (forall k :: !LeadsNow(t, self, k) && !FollowsNow(t, self, k) ==> UnrelatedOk(was, now, k))
  }

  predicate LedOk(was: Roles, now: Roles, replicas: seq<BrokerId>, k: Key) {
    && k !in now.following && k in now.tracked && now.tracked[k] == SetLed(TrackedState(was.tracked, k), replicas)
    && MarkOf(now.marks, k) == if k in was.leading then MarkOf(was.marks, k)
                               else Mark(MarkOf(was.marks, k).leo, MarkOf(was.marks, k).leo)
  }

  predicate FollowedOk(was: Roles, now: Roles, leader: BrokerId, known: set<BrokerId>, k: Key) {
    && k !in now.tracked && MarkOf(now.marks, k) == MarkOf(was.marks, k)
    && (leader in known ==> k in now.following && now.following[k] == leader)
    && (leader !in known ==> (k in now.following <==> k in was.following)
                             && (k in now.following ==> now.following[k] == was.following[k]))
  }

  predicate UnrelatedOk(was: Roles, now: Roles, k: Key) {
    && k !in now.following && MarkOf(now.marks, k) == MarkOf(was.marks, k)
    && (k in now.tracked <==> k in was.tracked) && (k in now.tracked ==> now.tracked[k] == was.tracked[k])
  }

  /**
   * Reconciling again with the same table changes nothing that matters: no
   * healthy leader's high watermark is touched a second time.
   */
  lemma ReconcilingTwice(a: Roles, b: Roles, c: Roles, t: Table, self: BrokerId, known: set<BrokerId>, k: Key)
    requires Reconciled(a, b, t, self, known) && Reconciled(b, c, t, self, known)
    ensures c.leading == b.leading && c.following == b.following && MarkOf(c.marks, k) == MarkOf(b.marks, k)
    ensures k in c.tracked <==> k in b.tracked
  {
    assert forall x :: x in c.leading <==> x in b.leading;
    forall x ensures (x in c.following <==> x in b.following)
          && (x in c.following ==> c.following[x] == b.following[x]) {
      assert LeadsNow(t, self, x) || FollowsNow(t, self, x) || UnrelatedOk(b, c, x);
      assert LeadsNow(t, self, x) || FollowsNow(t, self, x) || UnrelatedOk(a, b, x);
    }
    assert c.following.Keys == b.following.Keys;
    assert LeadsNow(t, self, k) || FollowsNow(t, self, k) || UnrelatedOk(b, c, k);
  }

  /**
   * One partition through a reconciliation, by itself. A partition that is led anew is
   * tracked from its replicas, all of them in sync, and its mark jumps to its log end; one
   * that was led and still is keeps its mark and the in-sync set it has. A partition
   * replicated here is pulled from its leader and keeps its mark; nothing else is followed.
   */
  lemma ReconciledExactly(was: Roles, now: Roles, t: Table, self: BrokerId, known: set<BrokerId>, k: Key)
    requires Reconciled(was, now, t, self, known) && k in was.marks && k in now.marks
    ensures k in now.leading <==> k in t && t[k].leader == self
    ensures k in now.leading && k in was.leading ==> now.marks[k] == was.marks[k]
    ensures k in now.leading && k !in was.leading ==> now.marks[k] == Mark(was.marks[k].leo, was.marks[k].leo)
    ensures k !in now.leading ==> now.marks[k] == was.marks[k]
    ensures k in now.leading && k !in was.tracked ==>
              k in now.tracked && now.tracked[k] == IsrState(t[k].replicas, map[], map[], t[k].replicas)
    ensures k in now.leading && k in was.tracked && was.tracked[k].isr != [] ==>
              k in now.tracked && now.tracked[k] == was.tracked[k].(replicas := t[k].replicas)
    ensures k in now.leading && k in was.tracked && was.tracked[k].isr == [] ==>
              k in now.tracked
              && now.tracked[k] == was.tracked[k].(replicas := t[k].replicas, isr := t[k].replicas)
    ensures k in t && t[k].leader != self && self in t[k].replicas && t[k].leader in known ==>
              k in now.following && now.following[k] == t[k].leader && k !in now.tracked
    ensures k in now.leading || k !in t || self !in t[k].replicas ==> k !in now.following
  {
    assert k in t ==> LeadsNow(t, self, k) || FollowsNow(t, self, k) || UnrelatedOk(was, now, k);
    assert k !in t ==> UnrelatedOk(was, now, k);
  }

  class Broker {
    const self: BrokerId
    var leadingPartitions: set<Key>
    var followers: map<Key, BrokerId>
    var tracked: map<Key, IsrState>
    var marks: map<Key, Mark>

    function State(): Roles
      reads this
    {
      Roles(leadingPartitions, followers, tracked, marks)
    }

    constructor (self: BrokerId)
      ensures this.self == self && State() == Roles({}, map[], map[], map[])
    {
      this.self := self;
      leadingPartitions, followers, tracked, marks := {}, map[], map[], map[];
    }

    method BecomesLeader(k: Key, replicas: seq<BrokerId>)
      modifies `followers, `tracked, `marks
      ensures followers == old(followers) - {k}
      ensures tracked == old(tracked)[k := SetLed(TrackedState(old(tracked), k), replicas)]
      ensures var m := MarkOf(old(marks), k);
              marks == old(marks)[k := if k in leadingPartitions then m else Mark(m.leo, m.leo)]
    {
      followers := followers - {k};
      var m := MarkOf(marks, k);
      marks := marks[k := m];
      if k !in leadingPartitions {
        marks := marks[k := Mark(m.leo, m.leo)];
      }
      tracked := tracked[k := SetLed(TrackedState(tracked, k), replicas)];
    }

    method BecomesFollower(k: Key, leader: BrokerId, known: set<BrokerId>)
      modifies `followers, `tracked, `marks
      ensures tracked == old(tracked) - {k}
      ensures followers == if leader in known then old(followers)[k := leader] else old(followers)
      ensures forall x :: MarkOf(marks, x) == MarkOf(old(marks), x)
    {
      tracked := tracked - {k};
      if leader !in known {
        return;
      }
      if k !in followers || followers[k] != leader {
        marks := marks[k := MarkOf(marks, k)];
        followers := followers[k := leader];
      }
      assert followers == old(followers)[k := leader];
    }

    /** The turn of the loop for one partition of the table. */
    method ReconcileOne(t: Table, k: Key, known: set<BrokerId>)
      requires k in t
      modifies `followers, `tracked, `marks
      ensures OnlyChanges(old(State()), State(), k)
      ensures Settled(old(State()), State(), t, self, known, k)
    {
      if t[k].leader == self {
        BecomesLeader(k, t[k].replicas);
      } else if self in t[k].replicas {
        BecomesFollower(k, t[k].leader, known);
      }
    }

    /** Brings leading and following in line with the table; known are the brokers whose address is known. */
    method Reconcile(t: Table, known: set<BrokerId>)
      modifies this
      ensures Reconciled(old(State()), State(), t, self, known)
    {
      hide Settled, OnlyChanges, SettledSoFar, Reconciled;
      ghost var was := State();
      var newLeading: set<Key> := {};
      var relevant: set<Key> := {};
      var rest := t.Keys;
      NoneSettled(was, t, self, known);
      while rest != {}
        invariant rest <= t.Keys && leadingPartitions == was.leading
        invariant newLeading == set k | k in t && k !in rest && LeadsNow(t, self, k)
        invariant relevant == set k | k in t && k !in rest && (LeadsNow(t, self, k) || FollowsNow(t, self, k))
        invariant SettledSoFar(was, State(), t, self, known, rest)
      {
        var k :| k in rest;
        ghost var before := State();
        ReconcileOne(t, k, known);
        OneMoreSettled(was, before, State(), t, self, known, rest, k);
        if t[k].leader == self {
          newLeading := newLeading + {k};
          relevant := relevant + {k};
        } else if self in t[k].replicas {
          relevant := relevant + {k};
        }
        rest := rest - {k};
      }
      ghost var settled := State();
      followers := map k | k in followers && k in relevant :: followers[k];
      leadingPartitions := newLeading;
      AllSwept(was, settled, State(), t, self, known, relevant);
    }
  }

  predicate Untouched(was: Roles, now: Roles, k: Key) {
    && (k in now.following <==> k in was.following) && (k in now.following ==> now.following[k] == was.following[k])
    && MarkOf(now.marks, k) == MarkOf(was.marks, k)
    && (k in now.tracked <==> k in was.tracked) && (k in now.tracked ==> now.tracked[k] == was.tracked[k])
  }

  ghost predicate OnlyChanges(was: Roles, now: Roles, k: Key) {
    now.leading == was.leading && forall x :: x != k ==> Untouched(was, now, x)
  }

  /** The partition's turn is over; what is followed without being in the table is swept later. */
  predicate Settled(was: Roles, now: Roles, t: Table, self: BrokerId, known: set<BrokerId>, k: Key)
    requires k in t
  {
    if LeadsNow(t, self, k) then LedOk(was, now, t[k].replicas, k)
    else if FollowsNow(t, self, k) then FollowedOk(was, now, t[k].leader, known, k)
    else Untouched(was, now, k)
  }

  /** The partitions of the table but the rest had their turn; nothing else was touched. */
  ghost predicate SettledSoFar(was: Roles, now: Roles, t: Table, self: BrokerId, known: set<BrokerId>, rest: set<Key>) {
    && (forall k :: k in t && k !in rest ==> Settled(was, now, t, self, known, k))
    && (forall k :: k in rest || k !in t ==> Untouched(was, now, k))
  }

  lemma NoneSettled(was: Roles, t: Table, self: BrokerId, known: set<BrokerId>)
    ensures SettledSoFar(was, was, t, self, known, t.Keys)
  {
  }

  lemma OneMoreSettled(was: Roles, before: Roles, after: Roles, t: Table, self: BrokerId, known: set<BrokerId>,
      rest: set<Key>, k: Key)
    requires SettledSoFar(was, before, t, self, known, rest) && k in rest && k in t && before.leading == was.leading
    requires OnlyChanges(before, after, k) && Settled(before, after, t, self, known, k)
    ensures SettledSoFar(was, after, t, self, known, rest - {k})
  {
    hide Settled, OnlyChanges, Untouched;
    SettlesOne(was, before, after, t, self, known, k);
    forall x | x != k
      ensures x in t && x !in rest ==> Settled(was, after, t, self, known, x)
      ensures x in rest || x !in t ==> Untouched(was, after, x)
    {
      SettledElsewhere(was, before, after, t, self, known, k, x);
    }
  }

  lemma SettlesOne(was: Roles, before: Roles, after: Roles, t: Table, self: BrokerId, known: set<BrokerId>, k: Key)
    requires k in t && before.leading == was.leading && Untouched(was, before, k)
    requires Settled(before, after, t, self, known, k)
    ensures Settled(was, after, t, self, known, k)
  {
  }

  lemma SettledElsewhere(was: Roles, before: Roles, after: Roles, t: Table, self: BrokerId, known: set<BrokerId>,
      k: Key, x: Key)
    requires OnlyChanges(before, after, k) && x != k
    ensures x in t && Settled(was, before, t, self, known, x) ==> Settled(was, after, t, self, known, x)
    ensures Untouched(was, before, x) ==> Untouched(was, after, x)
  {
    assert Untouched(before, after, x);
  }

  lemma SweepsOne(was: Roles, settled: Roles, now: Roles, t: Table, self: BrokerId, known: set<BrokerId>, k: Key,
      relevant: set<Key>)
    requires if k in t then Settled(was, settled, t, self, known, k) else Untouched(was, settled, k)
    requires k in relevant <==> LeadsNow(t, self, k) || FollowsNow(t, self, k)
    requires now.marks == settled.marks && now.tracked == settled.tracked
    requires k in now.following <==> k in settled.following && k in relevant
    requires k in now.following ==> now.following[k] == settled.following[k]
    ensures LeadsNow(t, self, k) ==> LedOk(was, now, t[k].replicas, k)
    ensures FollowsNow(t, self, k) ==> FollowedOk(was, now, t[k].leader, known, k)
    ensures !LeadsNow(t, self, k) && !FollowsNow(t, self, k) ==> UnrelatedOk(was, now, k)
  {
  }

  lemma AllSwept(was: Roles, settled: Roles, now: Roles, t: Table, self: BrokerId, known: set<BrokerId>,
      relevant: set<Key>)
    requires SettledSoFar(was, settled, t, self, known, {})
    requires forall k :: k in relevant <==> LeadsNow(t, self, k) || FollowsNow(t, self, k)
    requires now.marks == settled.marks && now.tracked == settled.tracked
    requires now.following == map k | k in settled.following && k in relevant :: settled.following[k]
    requires forall k :: k in now.leading <==> LeadsNow(t, self, k)
    ensures Reconciled(was, now, t, self, known)
  {
    hide Settled, Untouched, LedOk, FollowedOk, UnrelatedOk;
    forall k
      ensures LeadsNow(t, self, k) ==> LedOk(was, now, t[k].replicas, k)
      ensures FollowsNow(t, self, k) ==> FollowedOk(was, now, t[k].leader, known, k)
      ensures !LeadsNow(t, self, k) && !FollowsNow(t, self, k) ==> UnrelatedOk(was, now, k)
    {
      SweepsOne(was, settled, now, t, self, known, k, relevant);
    }
  }
}

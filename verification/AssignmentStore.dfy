/**
 * The assignment table a broker keeps in memory and in its cluster_assignments
 * file, with the methods that change it in place.
 *
 * Each method is what the controller does under its mutex, and saves the file
 * where the program does. What a method computes is the function of
 * Assignments that the protocol of all brokers takes for the same step:
 * placements for a new topic, entries applied in order, a replaced in-sync set,
 * and the partitions of dead leaders repaired. What is sent to the other
 * brokers is returned. A restart reads the saved file back.
 */
module AssignmentStore {
  import opened Types
  import opened Election
  import opened Sorting
  import opened Assignments
  import opened AssignmentFile
  import Isr

  class AssignmentTable {
    const self: BrokerId
    const unclean: bool
    var table: Table
    /** The cluster_assignments file. */
    var file: string

    /** Loads what the file holds; nothing is said of a malformed file. */
    constructor (self: BrokerId, unclean: bool, file: string)
      ensures this.self == self && this.unclean == unclean && this.file == file
      ensures LoadFile(file).Some? ==> table == LoadFile(file).value
    {
      var loaded := LoadAssignments(file);
      this.self, this.unclean, this.file := self, unclean, file;
      table := match loaded { case Some(t) => t case None => map[] };
    }

    /** The file is that of the table. */
    ghost predicate Saved()
      reads this
    {
      file == FileOf(table)
    }

    method Save()
      modifies this`file
      ensures Saved()
    {
      file := PersistAssignments(table);
    }

    method AliveBrokerIds(all: seq<BrokerId>, lastAlive: map<BrokerId, u64>, now: u64) returns (alive: seq<BrokerId>)
      ensures alive == AliveIn(self, all, lastAlive, now)
      ensures forall id :: id in alive <==> id in all && (id == self || HeardInTime(id, lastAlive, now))
    {
      alive := [];
      var i := 0;
      while i < |all|
        invariant 0 <= i <= |all| && alive == AliveIn(self, all[..i], lastAlive, now)
      {
        FilterSnoc(
          (id: BrokerId) => id == self || (id in lastAlive && Isr.Age(now, lastAlive[id]) <= ALIVE_THRESHOLD_MS),
                all, i);
        var id := all[i];
        i := i + 1;
        if id == self {
          alive := alive + [id];
          continue;
        }
        if id in lastAlive && Isr.Age(now, lastAlive[id]) <= ALIVE_THRESHOLD_MS {
          alive := alive + [id];
        }
      }
      assert all[..i] == all;
      AliveExactly(self, all, lastAlive, now);
    }

    /**
     * Only the controller creates. Every partition gets the placement for its number with as
     * many replicas as asked for, as far as there are alive brokers; other partitions stay.
     */
    method CreateTopic(isController: bool, alive: seq<BrokerId>, topic: string, n: u32, factor: u32)
      returns (entries: Option<seq<Entry>>)
      modifies this
      ensures entries.Some? <==> isController && alive != []
      ensures entries == None ==> table == old(table) && file == old(file)
      ensures entries.Some? ==>
                && entries.value == Placements(alive, EffectiveFactor(factor, |alive|), topic, n)
                && AsAsked(entries.value, alive, factor, topic, n)
                && table == Applied(old(table), entries.value) && Saved()
                && (forall p: u32 :: p < n ==> Key(topic, p) in table && table[Key(topic, p)] == entries.value[p].pa)
                && (forall k :: k in old(table) && !(k.topic == topic && k.partition < n) ==>
                      k in table && table[k] == old(table)[k])
    {
      if !isController || alive == [] {
        return None;
      }
      var rf := EffectiveFactor(factor, |alive|);
      var result := [];
      var p: u32 := 0;
      while p < n
        invariant 0 <= p <= n
        invariant result == Placements(alive, rf, topic, p) && table == Applied(old(table), result)
      {
        var leaderIdx := p % |alive|;
        var replicas := ReplicasFrom(alive, leaderIdx, rf);
        var pa := PartitionAssignment(alive[leaderIdx], replicas, replicas);
        table := table[Key(topic, p) := pa];
        ghost var before := result;
        result := result + [Entry(Key(topic, p), pa)];
        assert result[..|result| - 1] == before;
        p := p + 1;
      }
      Save();
      TopicIsAsAsked(alive, factor, topic, n);
      TopicIsInTable(old(table), result, alive, factor, topic, n);
      entries := Some(result);
    }

    /** The inner loop of create_topic. */
    static method ReplicasFrom(alive: seq<BrokerId>, leaderIdx: nat, rf: nat) returns (replicas: seq<BrokerId>)
      requires leaderIdx < |alive|
      ensures replicas == Ring(alive, leaderIdx, rf)
    {
      replicas := [];
      var k := 0;
      while k < rf
        invariant 0 <= k <= rf
        invariant replicas == Ring(alive, leaderIdx, rf)[..k]
      {
        replicas := replicas + [alive[(leaderIdx + k) % |alive|]];
        k := k + 1;
      }
    }

    method ApplyLeaderAndIsr(entries: seq<Entry>)
      modifies this
      ensures table == Applied(old(table), entries) && Saved()
    {
      var i := 0;
      while i < |entries|
        invariant 0 <= i <= |entries| && table == Applied(old(table), entries[..i])
      {
        assert entries[..i + 1][..i] == entries[..i];
        table := table[entries[i].key := entries[i].pa];
        i := i + 1;
      }
      assert entries[..i] == entries;
      Save();
    }

    /** A leader's report replaces the in-sync set of a known partition, on the controller only. */
    method UpdateIsr(isController: bool, key: Key, isr: seq<BrokerId>) returns (entries: seq<Entry>)
      modifies this
      ensures if isController && key in old(table)
              then && table == old(table)[key := old(table)[key].(isr := isr)] && Saved()
                   && entries == [Entry(key, table[key])]
              else table == old(table) && file == old(file) && entries == []
    {
      if !isController || key !in table {
        return [];
      }
      table := table[key := table[key].(isr := isr)];
      Save();
      entries := [Entry(key, table[key])];
    }

    /** Repairs every partition whose leader is dead; the entries, in key order, are those that changed. */
    method CheckPartitionFailover(alive: seq<BrokerId>) returns (entries: seq<Entry>)
      modifies this
      ensures table == Repaired(old(table), alive, unclean)
      ensures entries == Reassigned(KeysInOrder(old(table)), old(table), alive, unclean)
      ensures if entries == [] then file == old(file) else Saved()
    {
      hide FailedOver, KeysInOrder, Reassigned, Repair, RepairedSome;
      ghost var was := table;
      entries := [];
      var keys := KeysInOrder(table);
      KeysInOrderIsExact(table);
      NothingReassigned(was, alive, unclean);
      RepairedNone(was, alive, unclean);
      assert keys[..0] == [];
      var i := 0;
      while i < |keys|
        invariant 0 <= i <= |keys| && file == old(file)
        invariant table == RepairedSome(was, keys[..i], alive, unclean)
        invariant entries == Reassigned(keys[..i], was, alive, unclean)
      {
        var key := keys[i];
        ReassignedSnoc(keys, i, was, alive, unclean);
        RepairedSnoc(was, keys, i, alive, unclean);
        var pa := Failover(table[key], alive);
        if pa.Some? {
          table := table[key := pa.value];
          entries := entries + [Entry(key, pa.value)];
        }
        i := i + 1;
      }
      assert keys[..i] == keys;
      RepairedAll(was, keys, alive, unclean);
      if entries != [] {
        Save();
      }
    }

    lemma NothingReassigned(t: Table, alive: seq<BrokerId>, unclean: bool)
      ensures Reassigned([], t, alive, unclean) == []
    {
    }

    /** The decision for one partition. */
    method Failover(pa: PartitionAssignment, alive: seq<BrokerId>) returns (result: Option<PartitionAssignment>)
      ensures result == FailedOver(pa, alive, unclean)
    {
      if pa.leader in alive {
        return None;
      }
      var isrCandidates := AliveCandidates(pa.isr, pa.leader, alive);
      isrCandidates := Isr.SortIds(isrCandidates);
      if isrCandidates != [] {
        return Some(pa.(leader := isrCandidates[0], isr := isrCandidates));
      }
      if unclean {
        var replicaCandidates := AliveCandidates(pa.replicas, pa.leader, alive);
        replicaCandidates := Isr.SortIds(replicaCandidates);
        if replicaCandidates != [] {
          return Some(pa.(leader := replicaCandidates[0], isr := [replicaCandidates[0]]));
        }
      }
      return None;
    }

    method AliveCandidates(ids: seq<BrokerId>, leader: BrokerId, alive: seq<BrokerId>) returns (found: seq<BrokerId>)
      ensures found == Survivors(ids, leader, alive)
    {
      found := [];
      var i := 0;
      while i < |ids|
        invariant 0 <= i <= |ids| && found == Survivors(ids[..i], leader, alive)
      {
        FilterSnoc((id: BrokerId) => id != leader && id in alive, ids, i);
        if ids[i] != leader && ids[i] in alive {
          found := found + [ids[i]];
        }
        i := i + 1;
      }
      assert ids[..i] == ids;
    }
  }

  /** The table when these of its keys have had their turn. */
  function RepairedSome(t: Table, keys: seq<Key>, alive: seq<BrokerId>, unclean: bool): Table {
    map k | k in t :: if k in keys then Repair(t[k], alive, unclean) else t[k]
  }

  lemma RepairedSnoc(t: Table, keys: seq<Key>, i: nat, alive: seq<BrokerId>, unclean: bool)
    requires i < |keys| && keys[i] in t && Distinct(keys)
    ensures var some := RepairedSome(t, keys[..i], alive, unclean);
            && keys[i] in some && some[keys[i]] == t[keys[i]]
            && RepairedSome(t, keys[..i + 1], alive, unclean) == some[keys[i] := Repair(t[keys[i]], alive, unclean)]
            && (FailedOver(t[keys[i]], alive, unclean) == None ==>
                  RepairedSome(t, keys[..i + 1], alive, unclean) == some)
            && (FailedOver(t[keys[i]], alive, unclean).Some? ==>
                  Repair(t[keys[i]], alive, unclean) == FailedOver(t[keys[i]], alive, unclean).value)
  {
    hide FailedOver;
    assert keys[..i + 1] == keys[..i] + [keys[i]];
    assert keys[i] !in keys[..i];
  }

  lemma RepairedAll(t: Table, keys: seq<Key>, alive: seq<BrokerId>, unclean: bool)
    requires forall k :: k in keys <==> k in t
    ensures RepairedSome(t, keys, alive, unclean) == Repaired(t, alive, unclean)
  {
    hide Repair;
  }

  lemma RepairedNone(t: Table, alive: seq<BrokerId>, unclean: bool)
    ensures RepairedSome(t, [], alive, unclean) == t
  {
    hide Repair;
  }

  /** A process that starts over with the file of a writable table has that table again. */
  method Restart(before: AssignmentTable) returns (after: AssignmentTable)
    requires before.Saved() && TableWritable(before.table)
    ensures fresh(after) && after.table == before.table && after.Saved()
  {
    FileRoundTrip(before.table);
    after := new AssignmentTable(before.self, before.unclean, before.file);
  }
}

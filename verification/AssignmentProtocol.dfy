/**
 * Every run of the cluster's assignments. Any broker may act as controller at any time; broadcasts and
 * reports may be late, repeated, reordered or lost; a broker reconciles from an earlier copy of its table.
 */
module AssignmentProtocol {
  import opened Types
  import opened Strings
  import opened Election
  import opened Sorting
  import opened Isr
  import opened Assignments
  import opened AssignmentFile
  import opened Runs

  /** A partition leader's report that its in-sync set changed. */
  datatype Report = Report(key: Key, isr: seq<BrokerId>)

  /**
   * tables: each broker's assignments, in memory and on file; copies: those
   * taken for a reconciliation; leading: the in-sync state a broker keeps for a
   * partition it leads; created records the replicas each partition was last
   * created with.
   */
  datatype Cluster = Cluster(
    tables: map<BrokerId, Table>,
    copies: set<(BrokerId, Table)>,
    leading: map<(BrokerId, Key), IsrState>,
    broadcasts: set<seq<Entry>>,
    reports: set<Report>,
    created: map<Key, seq<BrokerId>>)

  datatype Step =
    | CreateTopic(b: BrokerId, topic: string, n: u32, factor: u32, alive: seq<BrokerId>)
    | Receive(b: BrokerId, entries: seq<Entry>)
    | CopyTable(b: BrokerId)
    | Reconcile(b: BrokerId, copy: Table, key: Key)
    | NoteFetch(b: BrokerId, key: Key, replica: BrokerId, offset: u64, now: u64)
    | Recompute(b: BrokerId, key: Key, leo: u64, now: u64)
    | TakeReport(b: BrokerId, r: Report)
    | FailOver(b: BrokerId, alive: seq<BrokerId>, unclean: bool)
    | Crash(b: BrokerId)

  predicate Enabled(c: Cluster, s: Step) {
    match s
    case CreateTopic(b, topic, n, factor, alive) =>
      b in c.tables && alive != [] && Distinct(alive)
    case Receive(b, entries) => b in c.tables && entries in c.broadcasts
    case CopyTable(b) => b in c.tables
    case Reconcile(b, copy, key) => (b, copy) in c.copies && key in copy
    case NoteFetch(b, key, replica, offset, now) => (b, key) in c.leading
    case Recompute(b, key, leo, now) => (b, key) in c.leading
    case TakeReport(b, r) => b in c.tables && r in c.reports && r.key in c.tables[b]
    case FailOver(b, alive, unclean) => b in c.tables
    case Crash(b) => b in c.tables
  }

  function LeadingState(c: Cluster, b: BrokerId, key: Key): Option<IsrState> {
    if (b, key) in c.leading then Some(c.leading[(b, key)]) else None
  }

  /** reconcile_replication for one partition. */
  function Reconciled(c: Cluster, b: BrokerId, key: Key, pa: PartitionAssignment): Cluster {
    if pa.leader == b then c.(leading := c.leading[(b, key) := SetLed(LeadingState(c, b, key), pa.replicas)])
    else if b in pa.replicas then c.(leading := c.leading - {(b, key)})
    else c
  }

  /** The table a broker loads after a crash from the file it saved. */
  function Reloaded(t: Table): Table {
    match LoadFile(FileOf(t)) { case Some(u) => u case None => map[] }
  }

  /** The replicas each partition of the entries has. */
  function CreatedBy(created: map<Key, seq<BrokerId>>, entries: seq<Entry>): map<Key, seq<BrokerId>> {
    if entries == [] then created
    else
      var last := entries[|entries| - 1];
      CreatedBy(created, entries[..|entries| - 1])[last.key := last.pa.replicas]
  }

  function Next(c: Cluster, s: Step): Cluster {
    if !Enabled(c, s) then c else
    match s
    case CreateTopic(b, topic, n, factor, alive) =>
      var entries := Placements(alive, EffectiveFactor(factor, |alive|), topic, n);
      c.(tables := c.tables[b := Applied(c.tables[b], entries)], broadcasts := c.broadcasts + {entries},
         created := CreatedBy(c.created, entries))
    case Receive(b, entries) => c.(tables := c.tables[b := Applied(c.tables[b], entries)])
    case CopyTable(b) => c.(copies := c.copies + {(b, c.tables[b])})
    case Reconcile(b, copy, key) => Reconciled(c, b, key, copy[key])
    case NoteFetch(b, key, replica, offset, now) =>
      c.(leading := c.leading[(b, key) := Fetched(c.leading[(b, key)], replica, offset, now)])
    case Recompute(b, key, leo, now) =>
      var st := Recomputed(c.leading[(b, key)], b, leo, now).0;
      c.(leading := c.leading[(b, key) := st], reports := c.reports + {Report(key, st.isr)})
    case TakeReport(b, r) =>
      var pa := c.tables[b][r.key].(isr := r.isr);
      c.(tables := c.tables[b := c.tables[b][r.key := pa]], broadcasts := c.broadcasts + {[Entry(r.key, pa)]})
    case FailOver(b, alive, unclean) =>
      c.(tables := c.tables[b := Repaired(c.tables[b], alive, unclean)],
         broadcasts := c.broadcasts + {Reassigned(KeysInOrder(c.tables[b]), c.tables[b], alive, unclean)})
    case Crash(b) =>
      c.(tables := c.tables[b := Reloaded(c.tables[b])], copies := (set t | t in c.copies && t.0 != b),
         leading := map k | k in c.leading && k.0 != b :: c.leading[k])
  }

  /** A cluster where nothing was created yet. */
  function Boot(brokers: set<BrokerId>): Cluster {
    Cluster(map b | b in brokers :: map[], {}, map[], {}, {}, map[])
  }

  // ---- The runs in which assignments stay sound ----

  /** No partition of the topic was created before. */
  predicate FreshTopic(c: Cluster, topic: string) {
    forall k <- c.created :: k.topic != topic
  }

  /** Every topic reads back from the file as one word. */
  predicate WordTopics(t: Table) {
    forall k <- t :: IsWord(k.topic)
  }

  /** The step neither creates a topic again nor crashes a broker whose file would be misread. */
  predicate Careful(c: Cluster, s: Step) {
    match s
    case CreateTopic(b, topic, n, factor, alive) => FreshTopic(c, topic)
    case Crash(b) => b in c.tables ==> WordTopics(c.tables[b])
    case _ => true
  }

  predicate CarefulRun(brokers: set<BrokerId>, steps: seq<Step>) {
    forall i :: 0 <= i < |steps| ==> Careful(Run(Next, Boot(brokers), steps[..i]), steps[i])
  }

  // ---- The invariant ----

  predicate SoundFor(created: map<Key, seq<BrokerId>>, e: Entry) {
    e.key in created && Sound(created[e.key], e.pa) && |created[e.key]| < TWO_32
  }

  predicate TableOk(created: map<Key, seq<BrokerId>>, t: Table) {
    forall k <- t :: SoundFor(created, Entry(k, t[k]))
  }

  predicate EntriesOk(created: map<Key, seq<BrokerId>>, entries: seq<Entry>) {
    forall e <- entries :: SoundFor(created, e)
  }

  /** A broker leads only as one of the partition's replicas. */
  predicate LeadingOk(created: map<Key, seq<BrokerId>>, b: BrokerId, key: Key, st: IsrState) {
    key in created && st.replicas == created[key] && Distinct(st.replicas) && b in st.replicas
  }

  predicate ReportOk(created: map<Key, seq<BrokerId>>, r: Report) {
    r.key in created && SoundIsr(created[r.key], r.isr)
  }

  predicate Inv(c: Cluster) {
    && (forall b <- c.tables :: TableOk(c.created, c.tables[b]))
    && (forall t <- c.copies :: TableOk(c.created, t.1))
    && (forall l <- c.leading :: LeadingOk(c.created, l.0, l.1, c.leading[l]))
    && (forall es <- c.broadcasts :: EntriesOk(c.created, es))
    && (forall r <- c.reports :: ReportOk(c.created, r))
  }

  predicate Grows(p: map<Key, seq<BrokerId>>, q: map<Key, seq<BrokerId>>) {
    forall k <- p :: k in q && q[k] == p[k]
  }

  lemma GrowsKeepsTable(p: map<Key, seq<BrokerId>>, q: map<Key, seq<BrokerId>>, t: Table)
    requires Grows(p, q) && TableOk(p, t)
    ensures TableOk(q, t)
  {
    hide Sound;
    forall k <- t ensures SoundFor(q, Entry(k, t[k])) {
      assert SoundFor(p, Entry(k, t[k]));
    }
  }

  lemma GrowsKeepsEntries(p: map<Key, seq<BrokerId>>, q: map<Key, seq<BrokerId>>, entries: seq<Entry>)
    requires Grows(p, q) && EntriesOk(p, entries)
    ensures EntriesOk(q, entries)
  {
    hide Sound;
    forall e <- entries ensures SoundFor(q, e) {
      assert SoundFor(p, e);
    }
  }

  lemma GrowsKeeps(c: Cluster, created: map<Key, seq<BrokerId>>)
    requires Inv(c) && Grows(c.created, created)
    ensures Inv(c.(created := created))
  {
    hide Sound, SoundIsr, TableOk, EntriesOk;
    forall b <- c.tables ensures TableOk(created, c.tables[b]) {
      GrowsKeepsTable(c.created, created, c.tables[b]);
    }
    forall t <- c.copies ensures TableOk(created, t.1) {
      GrowsKeepsTable(c.created, created, t.1);
    }
    forall es <- c.broadcasts ensures EntriesOk(created, es) {
      GrowsKeepsEntries(c.created, created, es);
    }
  }

  lemma {:induction false} AppliedOk(created: map<Key, seq<BrokerId>>, t: Table, entries: seq<Entry>)
    requires TableOk(created, t) && EntriesOk(created, entries)
    ensures TableOk(created, Applied(t, entries))
  {
    hide Sound;
    if entries != [] {
      AppliedOk(created, t, entries[..|entries| - 1]);
      assert entries[|entries| - 1] in entries;
    }
  }

  /** One more created partition, with its sound placement. */
  lemma OneMoreCreated(p: map<Key, seq<BrokerId>>, before: seq<Entry>, last: Entry)
    requires EntriesOk(p, before) && last.key !in p
    requires Sound(last.pa.replicas, last.pa) && |last.pa.replicas| < TWO_32
    ensures Grows(p, p[last.key := last.pa.replicas])
    ensures EntriesOk(p[last.key := last.pa.replicas], before + [last])
  {
    hide Sound;
    var q := p[last.key := last.pa.replicas];
    GrowsKeepsEntries(p, q, before);
    forall e <- before + [last] ensures SoundFor(q, e) {
      assert e in before || e == last;
    }
  }

  lemma CreatedBySnoc(created: map<Key, seq<BrokerId>>, before: seq<Entry>, last: Entry)
    ensures CreatedBy(created, before + [last]) == CreatedBy(created, before)[last.key := last.pa.replicas]
  {
    assert (before + [last])[..|before|] == before;
  }

  lemma PlacementsSnoc(alive: seq<BrokerId>, rf: nat, topic: string, n: u32)
    requires 0 < |alive| && 0 < n
    ensures Placements(alive, rf, topic, n)
         == Placements(alive, rf, topic, n - 1) + [Entry(Key(topic, n - 1), Placement(alive, rf, n - 1))]
  {
  }

  lemma NothingCreated(created: map<Key, seq<BrokerId>>, alive: seq<BrokerId>, rf: nat, topic: string)
    requires 0 < |alive|
    ensures Placements(alive, rf, topic, 0) == [] && CreatedBy(created, []) == created
  {
  }

  /** The partitions of a topic that did not exist are new, and their placements are sound. */
  lemma {:induction false} CreationOk(created: map<Key, seq<BrokerId>>, alive: seq<BrokerId>, rf: nat, topic: string,
      n: u32)
    requires Distinct(alive) && 1 <= rf <= |alive| && rf < TWO_32
    requires forall k <- created :: k.topic != topic
    ensures var entries := Placements(alive, rf, topic, n);
            var all := CreatedBy(created, entries);
            && Grows(created, all) && EntriesOk(all, entries)
            && (forall k <- all :: k in created || (k.topic == topic && k.partition < n))
  {
    hide Sound, Placement, Placements, CreatedBy, SoundFor;
    if n == 0 {
      NothingCreated(created, alive, rf, topic);
    } else {
      CreationOk(created, alive, rf, topic, n - 1);
      hide EntriesOk;
      var before := Placements(alive, rf, topic, n - 1);
      var last := Entry(Key(topic, n - 1), Placement(alive, rf, n - 1));
      PlacementsSnoc(alive, rf, topic, n);
      CreatedBySnoc(created, before, last);
      PlacementSound(alive, rf, n - 1);
      OneMoreCreated(CreatedBy(created, before), before, last);
    }
  }

  /** A broker's table changes to a sound one and sound entries are broadcast. */
  lemma TableMoves(c: Cluster, b: BrokerId, t: Table, more: set<seq<Entry>>)
    requires Inv(c) && b in c.tables && TableOk(c.created, t) && forall es <- more :: EntriesOk(c.created, es)
    ensures Inv(c.(tables := c.tables[b := t], broadcasts := c.broadcasts + more))
  {
    hide TableOk, EntriesOk, LeadingOk, ReportOk;
  }

  lemma TableIsOk(c: Cluster, b: BrokerId)
    requires Inv(c) && b in c.tables
    ensures TableOk(c.created, c.tables[b])
  {
  }

  lemma CreateOk(c: Cluster, b: BrokerId, topic: string, n: u32, factor: u32, alive: seq<BrokerId>)
    requires Inv(c) && Enabled(c, CreateTopic(b, topic, n, factor, alive)) && FreshTopic(c, topic)
    ensures Inv(Next(c, CreateTopic(b, topic, n, factor, alive)))
    ensures Grows(c.created, Next(c, CreateTopic(b, topic, n, factor, alive)).created)
  {
    hide Inv, TableOk, EntriesOk, Grows, Placements, CreatedBy, Applied;
    var rf := EffectiveFactor(factor, |alive|);
    var entries := Placements(alive, rf, topic, n);
    var all := CreatedBy(c.created, entries);
    CreationOk(c.created, alive, rf, topic, n);
    GrowsKeeps(c, all);
    var c1 := c.(created := all);
    assert TableOk(all, c1.tables[b]) by { TableIsOk(c1, b); }
    AppliedOk(all, c1.tables[b], entries);
    TableMoves(c1, b, Applied(c1.tables[b], entries), {entries});
  }

  lemma ReconcileOk(c: Cluster, b: BrokerId, copy: Table, key: Key)
    requires Inv(c) && (b, copy) in c.copies && key in copy
    ensures Inv(Reconciled(c, b, key, copy[key]))
  {
    assert TableOk(c.created, (b, copy).1);
    assert SoundFor(c.created, Entry(key, copy[key]));
    hide TableOk, EntriesOk, ReportOk;
  }

  lemma LeadOk(c: Cluster, b: BrokerId, key: Key, st: IsrState)
    requires Inv(c) && (b, key) in c.leading && st.replicas == c.leading[(b, key)].replicas
    ensures Inv(c.(leading := c.leading[(b, key) := st]))
  {
    hide TableOk, EntriesOk, ReportOk;
    assert LeadingOk(c.created, b, key, c.leading[(b, key)]);
  }

  /** A leader's in-sync set always contains the leader, so a report is never empty. */
  lemma RecomputeOk(c: Cluster, b: BrokerId, key: Key, leo: u64, now: u64)
    requires Inv(c) && Enabled(c, Recompute(b, key, leo, now))
    ensures Inv(Next(c, Recompute(b, key, leo, now)))
  {
    hide Recomputed, TableOk, EntriesOk;
    var was := c.leading[(b, key)];
    var st := Recomputed(was, b, leo, now).0;
    assert LeadingOk(c.created, b, key, was);
    assert st.replicas == was.replicas && ReportOk(c.created, Report(key, st.isr)) by {
      RecomputeMeans(was, b, leo, now);
    }
    hide LeadingOk, ReportOk;
    LeadOk(c, b, key, st);
  }

  lemma TakeReportOk(c: Cluster, b: BrokerId, r: Report)
    requires Inv(c) && Enabled(c, TakeReport(b, r))
    ensures Inv(Next(c, TakeReport(b, r)))
  {
    var t := c.tables[b];
    assert TableOk(c.created, t) && ReportOk(c.created, r) && SoundFor(c.created, Entry(r.key, t[r.key]));
    var pa := t[r.key].(isr := r.isr);
    assert TableOk(c.created, t[r.key := pa]) && EntriesOk(c.created, [Entry(r.key, pa)]);
    TableMoves(c, b, t[r.key := pa], {[Entry(r.key, pa)]});
  }

  /** A duplicate-free part of a list is not longer than the list. */
  lemma PartIsNotLonger(part: seq<BrokerId>, whole: seq<BrokerId>)
    requires Distinct(part) && forall id :: id in part ==> id in whole
    ensures |part| <= |whole|
  {
    MemberCount(part);
    MemberCount(whole);
    SubsetSize(Members(part), Members(whole));
  }

  function Members(s: seq<BrokerId>): set<BrokerId> {
    set id | id in s
  }

  lemma {:induction false} MemberCount(s: seq<BrokerId>)
    ensures |Members(s)| <= |s| && (Distinct(s) ==> |Members(s)| == |s|)
  {
    if s == [] {
      assert Members(s) == {};
    } else {
      var front, last := s[..|s| - 1], s[|s| - 1];
      MemberCount(front);
      assert s == front + [last];
      assert Members(s) == Members(front) + {last};
      assert Distinct(s) ==> last !in Members(front);
    }
  }

  /** A sound table survives a crash, so that its file gives it back, exactly when its topics are words. */
  lemma SoundTableReloads(created: map<Key, seq<BrokerId>>, t: Table)
    requires TableOk(created, t)
    ensures LoadFile(FileOf(t)) == Some(t) <==> WordTopics(t)
  {
    forall k <- t ensures Writable(Entry(k, t[k])) <==> IsWord(k.topic) {
      assert SoundFor(created, Entry(k, t[k]));
      PartIsNotLonger(t[k].isr, t[k].replicas);
    }
    hide LoadFile, FileOf, Writable, IsWord;
    FileRoundTrip(t);
  }

  lemma CrashOk(c: Cluster, b: BrokerId)
    requires Inv(c) && b in c.tables && WordTopics(c.tables[b])
    ensures Inv(Next(c, Crash(b)))
  {
    SoundTableReloads(c.created, c.tables[b]);
    hide TableOk, EntriesOk, LeadingOk, ReportOk, LoadFile, FileOf, WordTopics;
    assert Next(c, Crash(b)).tables == c.tables;
  }

  lemma {:induction false} ReassignedOk(created: map<Key, seq<BrokerId>>, keys: seq<Key>, t: Table,
      alive: seq<BrokerId>, unclean: bool)
    requires (forall k :: k in keys ==> k in t)
    requires forall k <- t | FailedOver(t[k], alive, unclean).Some? ::
               SoundFor(created, Entry(k, FailedOver(t[k], alive, unclean).value))
    ensures EntriesOk(created, Reassigned(keys, t, alive, unclean))
  {
    hide FailedOver, SoundFor;
    if keys != [] {
      ReassignedOk(created, keys[..|keys| - 1], t, alive, unclean);
    }
  }

  lemma FailOverOk(c: Cluster, b: BrokerId, alive: seq<BrokerId>, unclean: bool)
    requires Inv(c) && b in c.tables
    ensures Inv(Next(c, FailOver(b, alive, unclean)))
  {
    hide FailedOver, Sound;
    var t := c.tables[b];
    var d, entries := Repaired(t, alive, unclean), Reassigned(KeysInOrder(t), t, alive, unclean);
    assert TableOk(c.created, t);
    forall k <- t | FailedOver(t[k], alive, unclean).Some?
      ensures SoundFor(c.created, Entry(k, FailedOver(t[k], alive, unclean).value))
    {
      assert SoundFor(c.created, Entry(k, t[k]));
      FailoverSound(c.created[k], t[k], alive, unclean);
    }
    forall k <- d ensures SoundFor(c.created, Entry(k, d[k])) {
      assert SoundFor(c.created, Entry(k, t[k]));
    }
    ReassignedOk(c.created, KeysInOrder(t), t, alive, unclean);
    TableMoves(c, b, d, {entries});
  }

  lemma StepOk(c: Cluster, s: Step)
    requires Inv(c) && Careful(c, s)
    ensures Inv(Next(c, s)) && Grows(c.created, Next(c, s).created)
  {
    hide TableOk, EntriesOk, LeadingOk, ReportOk, Recomputed, FreshTopic, WordTopics;
    if !Enabled(c, s) {
      return;
    }
    match s
    case CreateTopic(b, topic, n, factor, alive) => CreateOk(c, b, topic, n, factor, alive);
    case Receive(b, entries) =>
      AppliedOk(c.created, c.tables[b], entries);
      TableMoves(c, b, Applied(c.tables[b], entries), {});
      assert c.broadcasts + {} == c.broadcasts;
    case CopyTable(b) =>
    case Reconcile(b, copy, key) => ReconcileOk(c, b, copy, key);
    case NoteFetch(b, key, replica, offset, now) =>
      LeadOk(c, b, key, Fetched(c.leading[(b, key)], replica, offset, now));
    case Recompute(b, key, leo, now) => RecomputeOk(c, b, key, leo, now);
    case TakeReport(b, r) => TakeReportOk(c, b, r);
    case FailOver(b, alive, unclean) => FailOverOk(c, b, alive, unclean);
    case Crash(b) => CrashOk(c, b);
  }

  lemma CarefulFront(brokers: set<BrokerId>, steps: seq<Step>, j: nat)
    requires CarefulRun(brokers, steps) && j <= |steps|
    ensures CarefulRun(brokers, steps[..j])
    ensures j < |steps| ==> Careful(Run(Next, Boot(brokers), steps[..j]), steps[j])
  {
    hide Next, Boot, Careful, Run;
    forall i | 0 <= i < j ensures Careful(Run(Next, Boot(brokers), steps[..j][..i]), steps[..j][i]) {
      assert steps[..j][..i] == steps[..i];
    }
  }

  lemma {:induction false} RunOk(brokers: set<BrokerId>, steps: seq<Step>)
    requires CarefulRun(brokers, steps)
    ensures Inv(Run(Next, Boot(brokers), steps))
  {
    hide Inv, Next, CarefulRun, Careful;
    if steps == [] {
      assert Inv(Run(Next, Boot(brokers), [])) by { BootOk(brokers); }
    } else {
      CarefulFront(brokers, steps, |steps| - 1);
      RunOk(brokers, steps[..|steps| - 1]);
      StepOk(Run(Next, Boot(brokers), steps[..|steps| - 1]), steps[|steps| - 1]);
    }
  }

  lemma BootOk(brokers: set<BrokerId>)
    ensures Inv(Run(Next, Boot(brokers), []))
  {
  }

  lemma {:induction false} CreatedStays(brokers: set<BrokerId>, steps: seq<Step>, j: nat)
    requires j <= |steps| && CarefulRun(brokers, steps)
    ensures Grows(Run(Next, Boot(brokers), steps[..j]).created, Run(Next, Boot(brokers), steps).created)
  {
    hide Inv, Next, CarefulRun, Careful;
    if j == |steps| {
      assert steps[..j] == steps;
    } else {
      var front := steps[..|steps| - 1];
      CarefulFront(brokers, steps, |steps| - 1);
      CreatedStays(brokers, front, j);
      assert front[..j] == steps[..j];
      RunOk(brokers, front);
      StepOk(Run(Next, Boot(brokers), front), steps[|steps| - 1]);
    }
  }

  /** Some broker's cached table or some broadcast under way says e. */
  predicate Known(c: Cluster, e: Entry) {
    || (exists b :: b in c.tables && e.key in c.tables[b] && c.tables[b][e.key] == e.pa)
    || (exists es :: es in c.broadcasts && e in es)
  }

  /**
   * At any two moments of a careful run, what any broker or broadcast says
   * about a partition agrees on its replicas, which are not empty and without
   * duplicates; and each such assignment's leader is a replica and its in-sync
   * set is a non-empty, duplicate-free part of the replicas. The runs at the
   * end show that neither part of the care can be dropped.
   */
  lemma AssignmentsStaySound(brokers: set<BrokerId>, steps: seq<Step>, j: nat, e: Entry, f: Entry)
    requires CarefulRun(brokers, steps) && j <= |steps| && e.key == f.key
    requires Known(Run(Next, Boot(brokers), steps[..j]), e) && Known(Run(Next, Boot(brokers), steps), f)
    ensures e.pa.replicas == f.pa.replicas && Sound(e.pa.replicas, e.pa) && Sound(f.pa.replicas, f.pa)
  {
    hide Next, CarefulRun, Careful;
    CarefulFront(brokers, steps, j);
    RunOk(brokers, steps[..j]);
    RunOk(brokers, steps);
    CreatedStays(brokers, steps, j);
    KnownIsSound(Run(Next, Boot(brokers), steps[..j]), e);
    KnownIsSound(Run(Next, Boot(brokers), steps), f);
  }

  lemma KnownIsSound(c: Cluster, e: Entry)
    requires Inv(c) && Known(c, e)
    ensures SoundFor(c.created, e)
  {
    hide Sound;
    if es :| es in c.broadcasts && e in es {
      assert EntriesOk(c.created, es);
    } else {
      var b :| b in c.tables && e.key in c.tables[b] && c.tables[b][e.key] == e.pa;
      assert TableOk(c.created, c.tables[b]);
      assert SoundFor(c.created, Entry(e.key, c.tables[b][e.key]));
    }
  }

  // ---- Topics that are words and created once ----

  /** Every topic that is created is a word, and is created once. */
  predicate WordsOnce(steps: seq<Step>) {
    && (forall i :: 0 <= i < |steps| && steps[i].CreateTopic? ==> IsWord(steps[i].topic))
    && (forall i, j :: 0 <= i < j < |steps| && steps[i].CreateTopic? && steps[j].CreateTopic? ==>
                         steps[i].topic != steps[j].topic)
  }

  predicate CreatedIn(steps: seq<Step>, topic: string) {
    exists i :: 0 <= i < |steps| && steps[i].CreateTopic? && steps[i].topic == topic
  }

  /** What was created was created by a step. */
  predicate AllCreatedIn(c: Cluster, steps: seq<Step>) {
    forall k <- c.created :: CreatedIn(steps, k.topic)
  }

  lemma CreatedInStep(c: Cluster, steps: seq<Step>, s: Step)
    requires AllCreatedIn(c, steps) && (s.CreateTopic? ==> FreshTopic(c, s.topic))
    ensures AllCreatedIn(Next(c, s), steps + [s])
  {
    var all := steps + [s];
    forall k <- c.created ensures CreatedIn(all, k.topic) {
      var i :| 0 <= i < |steps| && steps[i].CreateTopic? && steps[i].topic == k.topic;
      assert all[i] == steps[i];
    }
    if s.CreateTopic? && Enabled(c, s) {
      assert all[|steps|] == s;
      CreationOk(c.created, s.alive, EffectiveFactor(s.factor, |s.alive|), s.topic, s.n);
    }
  }

  /** A run over topics that are words and created once is careful. */
  lemma {:induction false} WordsOnceAreCareful(brokers: set<BrokerId>, steps: seq<Step>)
    requires WordsOnce(steps)
    ensures CarefulRun(brokers, steps) && AllCreatedIn(Run(Next, Boot(brokers), steps), steps)
  {
    hide Next, Careful, Inv;
    if steps == [] {
      BootCreatedNothing(brokers);
    } else {
      var front, s := steps[..|steps| - 1], steps[|steps| - 1];
      var c := Run(Next, Boot(brokers), front);
      assert steps == front + [s];
      WordsOnceAreCareful(brokers, front);
      RunOk(brokers, front);
      NextIsCareful(c, front, s);
      CreatedInStep(c, front, s);
      forall i | 0 <= i < |steps| ensures Careful(Run(Next, Boot(brokers), steps[..i]), steps[i]) {
        if i < |front| {
          assert steps[..i] == front[..i] && steps[i] == front[i];
        }
      }
    }
  }

  lemma BootCreatedNothing(brokers: set<BrokerId>)
    ensures AllCreatedIn(Run(Next, Boot(brokers), []), [])
  {
  }

  lemma NextIsCareful(c: Cluster, front: seq<Step>, s: Step)
    requires Inv(c) && AllCreatedIn(c, front) && WordsOnce(front + [s])
    ensures Careful(c, s) && (s.CreateTopic? ==> FreshTopic(c, s.topic))
  {
    var steps := front + [s];
    forall k <- c.created ensures IsWord(k.topic) && (s.CreateTopic? ==> k.topic != s.topic) {
      var i :| 0 <= i < |front| && front[i].CreateTopic? && front[i].topic == k.topic;
      assert steps[i] == front[i] && steps[|front|] == s;
    }
    if s.Crash? && s.b in c.tables {
      assert TableOk(c.created, c.tables[s.b]);
      forall k <- c.tables[s.b] ensures IsWord(k.topic) {
        assert SoundFor(c.created, Entry(k, c.tables[s.b][k]));
      }
    }
  }

  /** The same for every run over topics that are words and created once. */
  lemma WordAssignmentsStaySound(brokers: set<BrokerId>, steps: seq<Step>, j: nat, e: Entry, f: Entry)
    requires WordsOnce(steps) && j <= |steps| && e.key == f.key
    requires Known(Run(Next, Boot(brokers), steps[..j]), e) && Known(Run(Next, Boot(brokers), steps), f)
    ensures e.pa.replicas == f.pa.replicas && Sound(e.pa.replicas, e.pa) && Sound(f.pa.replicas, f.pa)
  {
    hide *;
    WordsOnceAreCareful(brokers, steps);
    AssignmentsStaySound(brokers, steps, j, e, f);
  }

  // ---- Runs that show why care is needed ----

  /** A topic whose lines in the file read as a line for y and a line for z. */
  const ODD_TOPIC := "y 0 7 0 0\nz"

  function Alone(id: BrokerId): PartitionAssignment {
    PartitionAssignment(id, [id], [id])
  }

  lemma OnePlacement(topic: string, id: BrokerId)
    ensures Placements([id], EffectiveFactor(1, 1), topic, 1) == [Entry(Key(topic, 0), Alone(id))]
  {
    assert Placements([id], 1, topic, 0) == [];
    assert Ring([id], 0, 1) == [id];
  }

  /** Broker 1 creates a topic of one partition with one replica. */
  lemma Creates(c: Cluster, topic: string, id: BrokerId)
    requires 1 in c.tables
    ensures var d := Next(c, CreateTopic(1, topic, 1, 1, [id]));
            && d.tables == c.tables[1 := c.tables[1][Key(topic, 0) := Alone(id)]]
            && d.copies == c.copies && d.leading == c.leading && d.reports == c.reports
  {
    var e := Entry(Key(topic, 0), Alone(id));
    OnePlacement(topic, id);
    OneApplied(c.tables[1], e);
    hide Applied, CreatedBy, Placements, EffectiveFactor;
    assert |[id]| == 1 && Distinct([id]);
  }

  lemma OneApplied(t: Table, e: Entry)
    ensures Applied(t, [e]) == t[e.key := e.pa]
  {
    assert [e][..0] == [] && Applied(t, []) == t;
  }

  lemma Digits()
    ensures Decimal(0) == "0" && Decimal(1) == "1" && Decimal(7) == "7"
  {
  }

  /** The table of the odd topic. */
  function OddTable(): Table {
    map[Key(ODD_TOPIC, 0) := Alone(1)]
  }

  function OddEntry(): Entry {
    Entry(Key("y", 0), PartitionAssignment(7, [], []))
  }

  function RestEntry(): Entry {
    Entry(Key("z", 0), Alone(1))
  }

  lemma OddFile()
    ensures FileOf(OddTable()) == Spaced(LineWords(OddEntry())) + "\n" + (Spaced(LineWords(RestEntry())) + "\n")
  {
    hide Spaced, LineWords, KeysInOrder;
    var t, k := OddTable(), Key(ODD_TOPIC, 0);
    var keys := KeysInOrder(t);
    KeysInOrderIsExact(t);
    assert keys == [k] by { OnlyKey(keys, k); }
    assert keys[..0] == [] && FileText(t, keys[..0]) == [];
    OddLine();
  }

  lemma OnlyKey(keys: seq<Key>, k: Key)
    requires (forall x :: x in keys <==> x == k) && Distinct(keys)
    ensures keys == [k]
  {
    assert k in keys && (|keys| > 1 ==> keys[0] != keys[1]);
    forall i | 0 <= i < |keys| ensures keys[i] == k {
      assert keys[i] in keys;
    }
  }

  /** A first word that is longer in front makes the line longer in front. */
  lemma {:induction false} LongerInFront(front: string, words: seq<string>)
    requires words != []
    ensures Spaced([front + words[0]] + words[1..]) == front + Spaced(words)
  {
    var longer := [front + words[0]] + words[1..];
    if |words| > 1 {
      LongerInFront(front, words[..|words| - 1]);
      assert longer[..|words| - 1] == [front + words[0]] + words[..|words| - 1][1..];
    }
  }

  lemma OddWords()
    ensures Spaced(LineWords(OddEntry())) + "\n" + "z" == ODD_TOPIC
  {
    Digits();
    var ws := LineWords(OddEntry());
    assert ws == ["y", "0", "7", "0", "0"];
    ThreeWords(ws[..3]);
    assert ws[..4] == ws[..3] + [ws[3]] && ws == ws[..4] + [ws[4]];
    SpacedSnoc(ws[..3], ws[3]);
    SpacedSnoc(ws[..4], ws[4]);
  }

  lemma OddLine()
    ensures Spaced(LineWords(Entry(Key(ODD_TOPIC, 0), Alone(1))))
         == Spaced(LineWords(OddEntry())) + "\n" + Spaced(LineWords(RestEntry()))
  {
    hide Spaced, Decimal;
    OddWords();
    var front, rest := Spaced(LineWords(OddEntry())) + "\n", LineWords(RestEntry());
    assert LineWords(Entry(Key(ODD_TOPIC, 0), Alone(1))) == [front + rest[0]] + rest[1..];
    LongerInFront(front, rest);
  }

  lemma OddFileLoads()
    ensures LoadFile(FileOf(OddTable()))
         == Some(map[OddEntry().key := OddEntry().pa, RestEntry().key := RestEntry().pa])
  {
    hide Spaced, LineWords, Words, FileOf, TakeEntry;
    OddFile();
    var odd, rest := OddEntry(), RestEntry();
    var tail := Spaced(LineWords(rest)) + "\n";
    assert IsWord(odd.key.topic) && IsWord(rest.key.topic);
    LineIsWords(odd);
    LineIsWords(rest);
    SpacedWords(LineWords(odd), '\n', tail);
    SpacedWords(LineWords(rest), '\n', []);
    assert tail + [] == tail && Words([]) == [] by { WordsAfterSpace([]); NoWords(); }
    TakesEntry(odd, LineWords(rest));
    TakesEntry(rest, []);
    assert LineWords(rest) + [] == LineWords(rest);
    assert map[][odd.key := odd.pa][rest.key := rest.pa] == map[odd.key := odd.pa, rest.key := rest.pa];
  }

  lemma NoWords()
    ensures Words([]) == []
  {
  }

  /** Broker 1 reads its file again. */
  lemma Crashes(c: Cluster)
    requires 1 in c.tables
    ensures Next(c, Crash(1)).tables == c.tables[1 := Reloaded(c.tables[1])]
  {
    hide LoadFile, FileOf;
  }

  /**
   * With a topic that is no word a crash can make an unsound assignment out of
   * a sound one: the broker reads its file as a partition of y without replicas.
   */
  lemma OddTopicIsMisread() returns (steps: seq<Step>, e: Entry)
    ensures steps == [CreateTopic(1, ODD_TOPIC, 1, 1, [1]), Crash(1)]
    ensures Known(Run(Next, Boot({1}), steps), e) && !Sound(e.pa.replicas, e.pa)
  {
    hide Run, Next, FileOf, LoadFile;
    var c0 := Boot({1});
    RunNone(Next, c0);
    Creates(c0, ODD_TOPIC, 1);
    var s1, c1 := Extend(Next, c0, [], c0, CreateTopic(1, ODD_TOPIC, 1, 1, [1]));
    assert c1.tables[1] == OddTable();
    OddFileLoads();
    Crashes(c1);
    var c2;
    steps, c2 := Extend(Next, c0, s1, c1, Crash(1));
    e := OddEntry();
    assert e.key in c2.tables[1] && c2.tables[1][e.key] == e.pa;
  }

  /** Broker 1 reconciles one partition with a copy of its table, and leads it. */
  lemma Leads(c: Cluster, k: Key)
    requires 1 in c.tables && k in c.tables[1] && c.tables[1][k] == Alone(1)
    ensures var d := Next(Next(c, CopyTable(1)), Reconcile(1, c.tables[1], k));
            d.tables == c.tables && (1, k) in d.leading && d.leading[(1, k)].replicas == [1]
  {
    assert (1, c.tables[1]) in Next(c, CopyTable(1)).copies;
  }

  /** Broker 1 reports the in-sync set of a partition of which it is the one replica. */
  lemma Reports(c: Cluster, k: Key) returns (isr: seq<BrokerId>)
    requires (1, k) in c.leading && c.leading[(1, k)].replicas == [1]
    ensures var d := Next(c, Recompute(1, k, 0, 0));
            d.tables == c.tables && Report(k, isr) in d.reports && 1 in isr
  {
    hide Recomputed;
    isr := Recomputed(c.leading[(1, k)], 1, 0, 0).0.isr;
    RecomputeMeans(c.leading[(1, k)], 1, 0, 0);
  }

  /** Broker 1 takes a report about a partition it knows. */
  lemma TakesReport(c: Cluster, k: Key, isr: seq<BrokerId>)
    requires 1 in c.tables && k in c.tables[1] && Report(k, isr) in c.reports
    ensures Next(c, TakeReport(1, Report(k, isr))).tables
         == c.tables[1 := c.tables[1][k := c.tables[1][k].(isr := isr)]]
  {
  }

  /**
   * With a topic that is created again a report under way for the old replicas
   * makes the new assignment unsound: its in-sync set is not among its replicas.
   */
  lemma RecreatedTopicIsUnsound() returns (steps: seq<Step>, e: Entry)
    ensures forall s :: s in steps && s.CreateTopic? ==> s.topic == "t"
    ensures Known(Run(Next, Boot({1}), steps), e) && !Sound(e.pa.replicas, e.pa)
  {
    hide Run, Next;
    var c0, k := Boot({1}), Key("t", 0);
    RunNone(Next, c0);
    Creates(c0, "t", 1);
    var s1, c1 := Extend(Next, c0, [], c0, CreateTopic(1, "t", 1, 1, [1]));
    Leads(c1, k);
    var s2, c2 := Extend(Next, c0, s1, c1, CopyTable(1));
    var s3, c3 := Extend(Next, c0, s2, c2, Reconcile(1, c1.tables[1], k));
    var isr := Reports(c3, k);
    var s4, c4 := Extend(Next, c0, s3, c3, Recompute(1, k, 0, 0));
    Creates(c4, "t", 2);
    var s5, c5 := Extend(Next, c0, s4, c4, CreateTopic(1, "t", 1, 1, [2]));
    TakesReport(c5, k, isr);
    var c6;
    steps, c6 := Extend(Next, c0, s5, c5, TakeReport(1, Report(k, isr)));
    e := Entry(k, PartitionAssignment(2, [2], isr));
    assert k in c6.tables[1] && c6.tables[1][k] == e.pa;
    assert 1 in e.pa.isr && 1 !in e.pa.replicas;
  }
}

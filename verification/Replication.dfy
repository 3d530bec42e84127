/**
 * Every run of one leader's tenure over one partition, from empty logs. A step is one block under a lock; requests and
 * answers stay in the network, so they may be late, repeated or lost; the clock reading of every step is arbitrary.
 */
module Replication {
  import opened Types
  import opened Election
  import opened Records
  import opened Scanning
  import opened SparseIndex
  import opened LogRead
  import opened Isr
  import opened Assignments
  import opened Runs

  const MAX_FETCH_BYTES: u32 := 0x10_0000

  type ProducerId = nat

  /** A follower's partition and whether its fetcher waits for an answer. */
  datatype Follower = Replica(log: seq<Record>, next: u64, asked: bool)

  datatype Request = Request(replica: BrokerId, offset: u64)
  datatype Answered = Answered(to: Request, records: seq<Record>)

  /** A produce with acks=all, with its batch as stamped by the leader. */
  datatype Produce =
    | Appended(base: nat, batch: seq<Record>)
    | Waiting(base: nat, batch: seq<Record>)
    | Done(base: nat, batch: seq<Record>)
    | TimedOut

  /** What the block that holds the in-sync lock does after it wrote the high watermark. */
  datatype After = SweepOn | AppendNoted(p: ProducerId) | FetchNoted(a: Answered)

  /** A recomputation that has read the log end; the partition's lock is free meanwhile. */
  datatype Computing = Computing(leo: u64, now: u64, after: After)

  datatype Tenure = Tenure(
    self: BrokerId,
    log: seq<Record>,
    next: u64,
    hwm: int,
    part: IsrState,
    followers: map<BrokerId, Follower>,
    requests: set<Request>,
    /** Reads made for a follower whose progress is not noted yet. */
    readings: set<Answered>,
    answers: set<Answered>,
    produces: map<ProducerId, Produce>,
    /** The block that holds the in-sync lock, if there is one. */
    computing: Option<Computing>,
    /** An append raised the high watermark and no recomputation followed yet. */
    bumped: bool)

  datatype Step =
    | Append(p: ProducerId, records: seq<Record>, ts: u64)
    | NoteAppend(p: ProducerId, now: u64)
    | Acknowledge(p: ProducerId)
    | GiveUp(p: ProducerId)
    | Sweep(now: u64)
    | Ask(r: BrokerId)
    | LoseConnection(r: BrokerId)
    | Read(q: Request)
    | NoteFetch(a: Answered, now: u64)
    | Apply(r: BrokerId, a: Answered)
    | WriteMark

  /** A recomputation takes the in-sync lock and reads the log end. */
  function ReadEnd(c: Tenure, part: IsrState, now: u64, after: After): Tenure {
    c.(part := part, computing := Some(Computing(c.next, now, after)))
  }

  /** It overwrites the high watermark, whatever was appended since it read the log end. */
  function MarkWritten(c: Tenure): Tenure
    requires c.computing.Some?
  {
    var k := c.computing.value;
    var (st, hwm) := Recomputed(c.part, c.self, k.leo, k.now);
    c.(part := st, hwm := hwm, computing := None, bumped := false)
  }

  /** The produce whose append was noted waits, or is done when it brought nothing. */
  function Noted(t: Produce): Produce
    requires t.Appended?
  {
    if t.batch == [] then Done(t.base, t.batch) else Waiting(t.base, t.batch)
  }

  /** The rest of the block: the produce goes on to wait, or the answer is sent. */
  function Continued(c: Tenure, after: After): Tenure {
    match after
    case SweepOn => c
    case AppendNoted(p) =>
      if p in c.produces && c.produces[p].Appended? then c.(produces := c.produces[p := Noted(c.produces[p])]) else c
    case FetchNoted(a) => c.(answers := c.answers + {a})
  }

  /** Partition.append: it raises the high watermark to the new end at once. */
  function AppendBatch(c: Tenure, p: ProducerId, records: seq<Record>, ts: u64): Tenure
    requires c.next + |records| < TWO_63
  {
    var batch := Stamped(records, c.next, ts);
    if records == [] then c.(produces := c.produces[p := Appended(c.next, [])])
    else c.(log := c.log + batch, next := c.next + |records|, hwm := c.next + |records|,
            produces := c.produces[p := Appended(c.next, batch)], bumped := true)
  }

  /** Partition.append_replicated with the records of an answer. */
  function Replicated(f: Follower, records: seq<Record>): Follower {
    if records == [] then f.(asked := false)
    else Replica(f.log + records, (records[|records| - 1].offset + 1) % TWO_64, false)
  }

  predicate Enabled(c: Tenure, s: Step) {
    match s
    case Append(p, records, _) => p !in c.produces && c.next + |records| < TWO_63
    case NoteAppend(p, _) => c.computing == None && p in c.produces && c.produces[p].Appended?
    case Acknowledge(p) =>
      && c.computing == None && p in c.produces && c.produces[p].Waiting?
      && c.hwm > c.produces[p].base + |c.produces[p].batch| - 1
    case GiveUp(p) => c.computing == None && p in c.produces && c.produces[p].Waiting?
    case Sweep(_) => c.computing == None
    case Ask(r) => r in c.followers && !c.followers[r].asked
    case LoseConnection(r) => r in c.followers
    case Read(q) => q in c.requests
    case NoteFetch(a, _) => c.computing == None && a in c.readings
    case Apply(r, a) =>
      r in c.followers && c.followers[r].asked && a in c.answers && a.to == Request(r, c.followers[r].next)
    case WriteMark => c.computing.Some?
  }

  function Next(c: Tenure, s: Step): Tenure {
    if !Enabled(c, s) then c else
    match s
    case Append(p, records, ts) => AppendBatch(c, p, records, ts)
    case NoteAppend(p, now) => ReadEnd(c, c.part, now, AppendNoted(p))
    case Acknowledge(p) => c.(produces := c.produces[p := Done(c.produces[p].base, c.produces[p].batch)])
    case GiveUp(p) => c.(produces := c.produces[p := TimedOut])
    case Sweep(now) => ReadEnd(c, c.part, now, SweepOn)
    case Ask(r) =>
      var f := c.followers[r];
      c.(followers := c.followers[r := f.(asked := true)], requests := c.requests + {Request(r, f.next)})
    case LoseConnection(r) => c.(followers := c.followers[r := c.followers[r].(asked := false)])
    case Read(q) =>
      c.(readings := c.readings + {Answered(q, Answer(c.log, ToSigned64(q.offset), c.next, MAX_FETCH_BYTES))})
    case NoteFetch(a, now) => ReadEnd(c, Fetched(c.part, a.to.replica, a.to.offset, now), now, FetchNoted(a))
    case Apply(r, a) => c.(followers := c.followers[r := Replicated(c.followers[r], a.records)])
    case WriteMark => Continued(MarkWritten(c), c.computing.value.after)
  }

  /** A tenure begins: everyone's log is empty and nobody has fetched. */
  function Begin(self: BrokerId, replicas: seq<BrokerId>): Tenure {
    Tenure(self, [], 0, 0, IsrState(replicas, map[], map[], replicas),
           map r | r in replicas && r != self :: Replica([], 0, false), {}, {}, {}, map[], None, false)
  }

  // ---- The invariant ----

  predicate FollowerOk(log: seq<Record>, f: Follower) {
    f.log <= log && f.next == |f.log|
  }

  /** The request names a place the follower's log has reached. */
  predicate RequestOk(followers: map<BrokerId, Follower>, q: Request) {
    q.replica in followers && q.offset <= |followers[q.replica].log|
  }

  /** The answer is the piece of the leader's log from the requested place on. */
  predicate AnswerOk(log: seq<Record>, followers: map<BrokerId, Follower>, a: Answered) {
    && RequestOk(followers, a.to)
    && a.to.offset + |a.records| <= |log|
    && a.records == log[a.to.offset..a.to.offset + |a.records|]
  }

  predicate ProgressOk(followers: map<BrokerId, Follower>, progress: map<BrokerId, u64>) {
    forall r <- progress :: r in followers && progress[r] <= |followers[r].log|
  }

  /** Every in-sync follower's log reaches the mark. */
  predicate Reaches(followers: map<BrokerId, Follower>, self: BrokerId, isr: seq<BrokerId>, mark: int) {
    forall r <- isr :: r != self ==> r in followers && mark <= |followers[r].log|
  }

  /** The produce's batch is in the leader's log at its base offset. */
  predicate ProduceOk(log: seq<Record>, t: Produce) {
    !t.TimedOut? ==> t.base + |t.batch| <= |log| && log[t.base..t.base + |t.batch|] == t.batch
  }

  /** Some producer stands between its append and the recomputation that follows it. */
  predicate MidAppend(produces: map<ProducerId, Produce>) {
    exists p :: p in produces && produces[p].Appended?
  }

  ghost predicate LogOk(log: seq<Record>, next: u64, hwm: int) {
    next == |log| < TWO_63 && Contiguous(log, 0) && 0 <= hwm <= |log|
  }

  /** The log end that was read is in the log, and what comes after is in order. */
  predicate ComputingOk(c: Tenure, k: Computing) {
    && k.leo <= |c.log|
    && (k.after.FetchNoted? ==> AnswerOk(c.log, c.followers, k.after.a))
  }

  ghost predicate Inv(c: Tenure) {
    && LogOk(c.log, c.next, c.hwm)
    && (forall r <- c.followers :: FollowerOk(c.log, c.followers[r]))
    && (forall q <- c.requests :: RequestOk(c.followers, q))
    && (forall a <- c.readings :: AnswerOk(c.log, c.followers, a))
    && (forall a <- c.answers :: AnswerOk(c.log, c.followers, a))
    && ProgressOk(c.followers, c.part.progress)
    && (!c.bumped ==> Reaches(c.followers, c.self, c.part.isr, c.hwm))
    && (forall p <- c.produces :: ProduceOk(c.log, c.produces[p]))
    && (c.bumped ==> MidAppend(c.produces))
    && (c.computing.Some? ==> ComputingOk(c, c.computing.value))
  }

  lemma BeginOk(self: BrokerId, replicas: seq<BrokerId>)
    ensures Inv(Begin(self, replicas))
  {
  }

  lemma ReadEndOk(c: Tenure, part: IsrState, now: u64, after: After)
    requires Inv(c) && ProgressOk(c.followers, part.progress) && part.isr == c.part.isr
    requires after.FetchNoted? ==> AnswerOk(c.log, c.followers, after.a)
    ensures Inv(ReadEnd(c, part, now, after))
  {
    hide Contiguous;
  }

  /**
   * Writing the mark restores what an append broke: the high watermark is again
   * below every in-sync log, even when an append fell between.
   */
  lemma MarkWrittenOk(c: Tenure)
    requires Inv(c) && c.computing.Some?
    ensures Inv(MarkWritten(c))
  {
    hide Recomputed, Contiguous;
    RecomputeMeans(c.part, c.self, c.computing.value.leo, c.computing.value.now);
  }

  /** What was true of a log stays true of a longer one. */
  lemma LongerLog(log: seq<Record>, longer: seq<Record>, followers: map<BrokerId, Follower>)
    requires log <= longer
    ensures forall f :: FollowerOk(log, f) ==> FollowerOk(longer, f)
    ensures forall a :: AnswerOk(log, followers, a) ==> AnswerOk(longer, followers, a)
    ensures forall t :: ProduceOk(log, t) ==> ProduceOk(longer, t)
  {
    forall a | AnswerOk(log, followers, a) ensures AnswerOk(longer, followers, a) {
      assert log[a.to.offset..a.to.offset + |a.records|] == longer[a.to.offset..a.to.offset + |a.records|];
    }
    forall t | ProduceOk(log, t) ensures ProduceOk(longer, t) {
      assert !t.TimedOut? ==> log[t.base..t.base + |t.batch|] == longer[t.base..t.base + |t.batch|];
    }
  }

  lemma AppendOk(c: Tenure, p: ProducerId, records: seq<Record>, ts: u64)
    requires Inv(c) && Enabled(c, Append(p, records, ts))
    ensures Inv(AppendBatch(c, p, records, ts))
  {
    var d := AppendBatch(c, p, records, ts);
    var batch := Stamped(records, c.next, ts);
    StampedContiguous(records, c.next, ts);
    hide Stamped;
    LongerLog(c.log, d.log, c.followers);
    assert ProduceOk(d.log, d.produces[p]);
    assert p in d.produces && d.produces[p].Appended?;
    assert LogOk(d.log, d.next, d.hwm);
    hide AnswerOk, FollowerOk, ProduceOk, LogOk, ProgressOk;
    assert d.computing.Some? ==> ComputingOk(d, d.computing.value) by {
      if c.computing.Some? {
        assert ComputingOk(c, c.computing.value);
      }
    }
  }

  /** A follower whose log grows to a longer prefix disturbs nothing. */
  lemma FollowerGrows(c: Tenure, r: BrokerId, f: Follower)
    requires Inv(c) && r in c.followers && FollowerOk(c.log, f) && |c.followers[r].log| <= |f.log|
    ensures Inv(c.(followers := c.followers[r := f]))
  {
    hide LogOk, ProduceOk;
    var d := c.(followers := c.followers[r := f]);
    forall a <- d.readings + d.answers ensures AnswerOk(d.log, d.followers, a) {
      assert AnswerOk(c.log, c.followers, a);
    }
  }

  lemma ApplyOk(c: Tenure, r: BrokerId, a: Answered)
    requires Inv(c) && Enabled(c, Apply(r, a))
    ensures Inv(Next(c, Apply(r, a)))
  {
    var f := c.followers[r];
    assert FollowerOk(c.log, f) && AnswerOk(c.log, c.followers, a);
    assert f.log == c.log[..f.next];
    assert f.log + a.records == c.log[..f.next + |a.records|];
    assert FollowerOk(c.log, Replicated(f, a.records));
    hide FollowerOk, AnswerOk, LogOk, ProduceOk, RequestOk, Reaches, ProgressOk, ComputingOk;
    FollowerGrows(c, r, Replicated(f, a.records));
  }

  lemma AskOk(c: Tenure, r: BrokerId)
    requires Inv(c) && Enabled(c, Ask(r))
    ensures Inv(Next(c, Ask(r)))
  {
    var f := c.followers[r];
    assert FollowerOk(c.log, f);
    FollowerGrows(c, r, f.(asked := true));
  }

  lemma ReadOk(c: Tenure, q: Request)
    requires Inv(c) && Enabled(c, Read(q))
    ensures Inv(Next(c, Read(q)))
  {
    hide LogRead.Answer, Contiguous;
    assert RequestOk(c.followers, q) && FollowerOk(c.log, c.followers[q.replica]);
    AnswerIsPiece(c.log, q.offset, MAX_FETCH_BYTES);
  }

  lemma NoteFetchOk(c: Tenure, a: Answered, now: u64)
    requires Inv(c) && Enabled(c, NoteFetch(a, now))
    ensures Inv(Next(c, NoteFetch(a, now)))
  {
    assert AnswerOk(c.log, c.followers, a);
    ReadEndOk(c, Fetched(c.part, a.to.replica, a.to.offset, now), now, FetchNoted(a));
  }

  /** A produce whose batch is in the log moves on; only leaving Appended needs a recomputation. */
  lemma ProduceMoves(c: Tenure, p: ProducerId, t: Produce)
    requires Inv(c) && p in c.produces && ProduceOk(c.log, t)
    requires c.bumped ==> !c.produces[p].Appended?
    ensures Inv(c.(produces := c.produces[p := t]))
  {
    hide LogOk, AnswerOk;
    var d := c.(produces := c.produces[p := t]);
    if c.bumped {
      var m :| m in c.produces && c.produces[m].Appended?;
      assert m in d.produces && d.produces[m].Appended?;
    }
  }

  lemma WriteMarkOk(c: Tenure)
    requires Inv(c) && c.computing.Some?
    ensures Inv(Next(c, WriteMark))
  {
    hide Recomputed, LogOk;
    MarkWrittenOk(c);
    var d, after := MarkWritten(c), c.computing.value.after;
    match after
    case SweepOn =>
    case AppendNoted(p) =>
      if p in d.produces && d.produces[p].Appended? {
        assert ProduceOk(d.log, d.produces[p]);
        ProduceMoves(d, p, Noted(d.produces[p]));
      }
    case FetchNoted(a) =>
      hide ProduceOk, FollowerOk, AnswerOk;
      assert ComputingOk(c, c.computing.value);
  }

  lemma StepOk(c: Tenure, s: Step)
    requires Inv(c)
    ensures Inv(Next(c, s))
  {
    if !Enabled(c, s) {
      return;
    }
    match s
    case Append(p, records, ts) => AppendOk(c, p, records, ts);
    case NoteAppend(p, now) => ReadEndOk(c, c.part, now, AppendNoted(p));
    case Acknowledge(p) =>
      assert ProduceOk(c.log, c.produces[p]);
      ProduceMoves(c, p, Done(c.produces[p].base, c.produces[p].batch));
    case GiveUp(p) => ProduceMoves(c, p, TimedOut);
    case Sweep(now) => ReadEndOk(c, c.part, now, SweepOn);
    case Ask(r) => AskOk(c, r);
    case LoseConnection(r) =>
      assert FollowerOk(c.log, c.followers[r]);
      FollowerGrows(c, r, c.followers[r].(asked := false));
    case Read(q) => ReadOk(c, q);
    case NoteFetch(a, now) => NoteFetchOk(c, a, now);
    case Apply(r, a) => ApplyOk(c, r, a);
    case WriteMark => WriteMarkOk(c);
  }

  lemma {:induction false} RunOk(c: Tenure, steps: seq<Step>)
    requires Inv(c)
    ensures Inv(Run(Next, c, steps))
  {
    if steps != [] {
      RunOk(c, steps[..|steps| - 1]);
      StepOk(Run(Next, c, steps[..|steps| - 1]), steps[|steps| - 1]);
    }
  }

  // ---- Over whole runs ----

  /** The state after the first k steps of a tenure. */
  function At(self: BrokerId, replicas: seq<BrokerId>, steps: seq<Step>, k: nat): Tenure
    requires k <= |steps|
  {
    Run(Next, Begin(self, replicas), steps[..k])
  }

  lemma AtNext(self: BrokerId, replicas: seq<BrokerId>, steps: seq<Step>, k: nat)
    requires k < |steps|
    ensures At(self, replicas, steps, k + 1) == Next(At(self, replicas, steps, k), steps[k])
  {
    RunStep(Next, Begin(self, replicas), steps, k);
  }

  lemma AtOk(self: BrokerId, replicas: seq<BrokerId>, steps: seq<Step>, k: nat)
    requires k <= |steps|
    ensures Inv(At(self, replicas, steps, k)) && At(self, replicas, steps, k).self == self
  {
    BeginOk(self, replicas);
    RunOk(Begin(self, replicas), steps[..k]);
    SelfStays(Begin(self, replicas), steps[..k]);
  }

  lemma {:induction false} SelfStays(c: Tenure, steps: seq<Step>)
    ensures Run(Next, c, steps).self == c.self
  {
    hide Recomputed, Enabled, LogRead.Answer, Replicated;
    if steps != [] {
      SelfStays(c, steps[..|steps| - 1]);
    }
  }

  /**
   * Replication safety. At every moment of a tenure each follower's log is a
   * prefix of the leader's, no follower is recorded as further than it is, and
   * the high watermark is inside the leader's log; and unless some producer is
   * between its append and the recomputation after it, the high watermark is
   * also inside the log of every member of the in-sync set.
   */
  lemma ReplicationSafety(self: BrokerId, replicas: seq<BrokerId>, steps: seq<Step>, k: nat)
    requires k <= |steps|
    ensures var c := At(self, replicas, steps, k);
            && (forall r <- c.followers :: c.followers[r].log <= c.log)
            && (forall r <- c.part.progress :: r in c.followers && c.part.progress[r] <= |c.followers[r].log|)
            && 0 <= c.hwm <= |c.log|
            && (!MidAppend(c.produces) ==>
                  forall r <- c.part.isr :: r != self ==> r in c.followers && c.hwm <= |c.followers[r].log|)
  {
    hide AnswerOk, RequestOk, ProduceOk, Run;
    AtOk(self, replicas, steps, k);
    var c := At(self, replicas, steps, k);
    forall r <- c.followers ensures c.followers[r].log <= c.log {
      assert FollowerOk(c.log, c.followers[r]);
    }
  }

  /** The produce stands at base with this batch, or gave up. */
  predicate Stands(c: Tenure, p: ProducerId, base: nat, batch: seq<Record>) {
    p in c.produces && (c.produces[p].TimedOut? || (c.produces[p].base == base && c.produces[p].batch == batch))
  }

  lemma StandsStays(c: Tenure, s: Step, p: ProducerId, base: nat, batch: seq<Record>)
    requires Stands(c, p, base, batch)
    ensures Stands(Next(c, s), p, base, batch)
  {
    hide Recomputed, LogRead.Answer, Replicated;
  }

  lemma {:induction false} StandsUntil(self: BrokerId, replicas: seq<BrokerId>, steps: seq<Step>,
                                       i: nat, k: nat, p: ProducerId, base: nat, batch: seq<Record>)
    requires i <= k <= |steps| && Stands(At(self, replicas, steps, i), p, base, batch)
    ensures Stands(At(self, replicas, steps, k), p, base, batch)
  {
    hide Run, Stands;
    if i < k {
      StandsUntil(self, replicas, steps, i, k - 1, p, base, batch);
      AtNext(self, replicas, steps, k - 1);
      StandsStays(At(self, replicas, steps, k - 1), steps[k - 1], p, base, batch);
    }
  }

  /** Every in-sync replica, the leader included, holds the batch at its offsets. */
  predicate HeldByIsr(c: Tenure, base: nat, batch: seq<Record>) {
    && base + |batch| <= |c.log| && c.log[base..base + |batch|] == batch
    && forall r <- c.part.isr :: r != c.self ==>
         && r in c.followers && base + |batch| <= |c.followers[r].log|
         && c.followers[r].log[base..base + |batch|] == batch
  }

  lemma MarkCovers(c: Tenure, base: nat, batch: seq<Record>)
    requires Inv(c) && !c.bumped && base + |batch| <= c.hwm && c.log[base..base + |batch|] == batch
    ensures HeldByIsr(c, base, batch)
  {
    hide AnswerOk, RequestOk, ProduceOk;
    forall r <- c.part.isr | r != c.self
      ensures r in c.followers && base + |batch| <= |c.followers[r].log|
              && c.followers[r].log[base..base + |batch|] == batch
    {
      assert FollowerOk(c.log, c.followers[r]);
      assert c.followers[r].log == c.log[..|c.followers[r].log|];
    }
  }

  /**
   * acks=all is honest. If a produce of records begins at step i and later may
   * be answered without error, and at that moment no producer is between its
   * append and the recomputation after it, then every in-sync replica holds the
   * stamped records at offsets base, base + 1, ...
   */
  lemma AcksAllHonest(self: BrokerId, replicas: seq<BrokerId>, steps: seq<Step>,
                      i: nat, p: ProducerId, records: seq<Record>, ts: u64)
    requires i < |steps| && steps[i] == Append(p, records, ts) && Enabled(At(self, replicas, steps, i), steps[i])
    requires var c := At(self, replicas, steps, |steps|);
             Enabled(c, Acknowledge(p)) && !MidAppend(c.produces)
    ensures var base := At(self, replicas, steps, i).next;
            HeldByIsr(At(self, replicas, steps, |steps|), base, Stamped(records, base, ts))
  {
    hide Run, HeldByIsr, AnswerOk, RequestOk, FollowerOk, Reaches, Contiguous, Begin;
    var d, base := At(self, replicas, steps, |steps|), At(self, replicas, steps, i).next;
    AtOk(self, replicas, steps, |steps|);
    ProduceStands(self, replicas, steps, i, p, records, ts);
    MarkCovers(d, base, Stamped(records, base, ts));
  }

  lemma AppendStands(c: Tenure, p: ProducerId, records: seq<Record>, ts: u64)
    requires Enabled(c, Append(p, records, ts))
    ensures Stands(Next(c, Append(p, records, ts)), p, c.next, Stamped(records, c.next, ts))
  {
  }

  /**
   * acks=all, exactly: at any moment of any tenure the in-sync set holds a batch
   * that stands in the leader's log if and only if every member's log reaches
   * past it.
   */
  lemma HeldExactly(self: BrokerId, replicas: seq<BrokerId>, steps: seq<Step>, base: nat, batch: seq<Record>)
    requires var c := At(self, replicas, steps, |steps|);
             base + |batch| <= |c.log| && c.log[base..base + |batch|] == batch
    ensures var c := At(self, replicas, steps, |steps|);
            HeldByIsr(c, base, batch) <==> Reaches(c.followers, self, c.part.isr, base + |batch|)
  {
    hide Run, AnswerOk, RequestOk, ProduceOk, Contiguous;
    AtOk(self, replicas, steps, |steps|);
    var c := At(self, replicas, steps, |steps|);
    forall r <- c.followers | base + |batch| <= |c.followers[r].log|
      ensures c.followers[r].log[base..base + |batch|] == batch
    {
      assert FollowerOk(c.log, c.followers[r]);
      assert c.followers[r].log == c.log[..|c.followers[r].log|];
    }
  }

  /**
   * When an acks=all produce that began at step i may be answered without
   * error, that answer is honest if and only if every in-sync log reaches past
   * its batch, whoever else is appending.
   */
  lemma AcksAllHonestExactly(self: BrokerId, replicas: seq<BrokerId>, steps: seq<Step>,
                             i: nat, p: ProducerId, records: seq<Record>, ts: u64)
    requires i < |steps| && steps[i] == Append(p, records, ts) && Enabled(At(self, replicas, steps, i), steps[i])
    requires Enabled(At(self, replicas, steps, |steps|), Acknowledge(p))
    ensures var c, base := At(self, replicas, steps, |steps|), At(self, replicas, steps, i).next;
            HeldByIsr(c, base, Stamped(records, base, ts))
            <==> Reaches(c.followers, self, c.part.isr, base + |records|)
  {
    hide Run, HeldByIsr, Reaches, Begin;
    ProduceStands(self, replicas, steps, i, p, records, ts);
    var base := At(self, replicas, steps, i).next;
    HeldExactly(self, replicas, steps, base, Stamped(records, base, ts));
  }

  /** Until it is answered, a produce's batch stands in the leader's log where it was appended. */
  lemma ProduceStands(self: BrokerId, replicas: seq<BrokerId>, steps: seq<Step>,
                      i: nat, p: ProducerId, records: seq<Record>, ts: u64)
    requires i < |steps| && steps[i] == Append(p, records, ts) && Enabled(At(self, replicas, steps, i), steps[i])
    requires Enabled(At(self, replicas, steps, |steps|), Acknowledge(p))
    ensures var d, base := At(self, replicas, steps, |steps|), At(self, replicas, steps, i).next;
            var batch := Stamped(records, base, ts);
            && d.produces[p] == Waiting(base, batch)
            && base + |batch| <= |d.log| && d.log[base..base + |batch|] == batch
  {
    hide Run, AnswerOk, RequestOk, FollowerOk, Reaches, Contiguous, Begin;
    var c, d := At(self, replicas, steps, i), At(self, replicas, steps, |steps|);
    var batch := Stamped(records, c.next, ts);
    AtOk(self, replicas, steps, |steps|);
    AtNext(self, replicas, steps, i);
    assert Stands(At(self, replicas, steps, i + 1), p, c.next, batch) by { AppendStands(c, p, records, ts); }
    StandsUntil(self, replicas, steps, i + 1, |steps|, p, c.next, batch);
    assert ProduceOk(d.log, d.produces[p]);
  }

  // ---- When a produce is answered ----

  /** A replica in sync at that clock reading has not fetched up to the offset. */
  predicate HoldsUp(c: Tenure, now: u64, offset: nat) {
    exists id :: id in c.part.replicas && id != c.self && InSync(c.part, c.self, id, c.next, now)
                 && c.part.progress[id] < offset
  }

  /** A sweep that runs undisturbed. */
  lemma SweepWrites(c: Tenure, now: u64)
    requires c.computing == None
    ensures Next(Next(c, Sweep(now)), WriteMark) == MarkWritten(ReadEnd(c, c.part, now, SweepOn))
  {
  }

  lemma SweepDecides(c: Tenure, now: u64, p: ProducerId)
    requires Inv(c) && c.computing == None && p in c.produces && c.produces[p].Waiting?
    ensures var d := Next(Next(c, Sweep(now)), WriteMark);
            Enabled(d, Acknowledge(p)) <==> !HoldsUp(c, now, c.produces[p].base + |c.produces[p].batch|)
  {
    SweepWrites(c, now);
    assert ProduceOk(c.log, c.produces[p]);
    hide Recomputed, Inv, InSync;
    RecomputeMeans(c.part, c.self, c.next, now);
  }

  /**
   * When acks=all is answered. At any moment of any tenure a sweep lets a
   * waiting produce be answered if and only if every follower that is in sync
   * when it runs has fetched past the produce's batch.
   */
  lemma SweepAnswersExactly(self: BrokerId, replicas: seq<BrokerId>, steps: seq<Step>, p: ProducerId, now: u64)
    requires var c := At(self, replicas, steps, |steps|);
             c.computing == None && p in c.produces && c.produces[p].Waiting?
    ensures var c, d := At(self, replicas, steps, |steps|), Run(Next, Begin(self, replicas),
                            steps + [Sweep(now)] + [WriteMark]);
            Enabled(d, Acknowledge(p)) <==> !HoldsUp(c, now, c.produces[p].base + |c.produces[p].batch|)
  {
    hide Run, Begin, HoldsUp, Inv, Next, Enabled;
    AtOk(self, replicas, steps, |steps|);
    assert steps[..|steps|] == steps;
    RunSnoc(Next, Begin(self, replicas), steps, Sweep(now));
    RunSnoc(Next, Begin(self, replicas), steps + [Sweep(now)], WriteMark);
    SweepDecides(At(self, replicas, steps, |steps|), now, p);
  }

  /**
   * Followers that are dead do not block acks=all: when every follower has been
   * silent for more than 1000 ms, or never fetched, a sweep lets any waiting
   * produce be answered.
   */
  lemma DeadFollowersDoNotBlock(self: BrokerId, replicas: seq<BrokerId>, steps: seq<Step>, p: ProducerId, now: u64)
    requires var c := At(self, replicas, steps, |steps|);
             && c.computing == None && p in c.produces && c.produces[p].Waiting?
             && forall id <- c.part.lastFetch :: id != self ==> c.part.lastFetch[id] + 1000 < now
    ensures Enabled(Run(Next, Begin(self, replicas), steps + [Sweep(now)] + [WriteMark]), Acknowledge(p))
  {
    hide Run, Begin, Enabled;
    var c := At(self, replicas, steps, |steps|);
    AtOk(self, replicas, steps, |steps|);
    InSyncExactly(c.part, self, c.next, now);
    RecomputeMeans(c.part, self, c.next, now);
    hide Recomputed, InSync;
    assert !HoldsUp(c, now, c.produces[p].base + |c.produces[p].batch|);
    SweepAnswersExactly(self, replicas, steps, p, now);
  }

  // ---- Produces one after the other ----

  /** p has been called and has not returned. */
  predicate Open(c: Tenure, p: ProducerId) {
    p in c.produces && (c.produces[p].Appended? || c.produces[p].Waiting?)
  }

  predicate AllReturned(c: Tenure) {
    forall p <- c.produces :: !Open(c, p)
  }

  ghost predicate AtMostOneOpen(c: Tenure) {
    forall p, q :: Open(c, p) && Open(c, q) ==> p == q
  }

  /** Every produce is called after all earlier ones returned. */
  predicate Serial(self: BrokerId, replicas: seq<BrokerId>, steps: seq<Step>) {
    forall i :: 0 <= i < |steps| && steps[i].Append? ==> AllReturned(At(self, replicas, steps, i))
  }

  lemma OneOpenStays(c: Tenure, s: Step)
    requires AtMostOneOpen(c) && (s.Append? ==> AllReturned(c))
    ensures AtMostOneOpen(Next(c, s))
  {
    hide Recomputed, LogRead.Answer, Replicated;
    var d := Next(c, s);
    forall p, q | Open(d, p) && Open(d, q) ensures p == q {
      if s.Append? {
        assert !Open(c, p) && !Open(c, q) by { assert p in c.produces ==> !Open(c, p); }
      } else {
        assert Open(c, p) && Open(c, q);
      }
    }
  }

  lemma {:induction false} SerialOneOpen(self: BrokerId, replicas: seq<BrokerId>, steps: seq<Step>, k: nat)
    requires Serial(self, replicas, steps) && k <= |steps|
    ensures AtMostOneOpen(At(self, replicas, steps, k))
  {
    hide AtMostOneOpen, Next;
    if k == 0 {
      assert AtMostOneOpen(At(self, replicas, steps, 0)) by { NothingOpen(self, replicas); }
    } else {
      SerialOneOpen(self, replicas, steps, k - 1);
      AtNext(self, replicas, steps, k - 1);
      OneOpenStays(At(self, replicas, steps, k - 1), steps[k - 1]);
    }
  }

  lemma NothingOpen(self: BrokerId, replicas: seq<BrokerId>)
    ensures AtMostOneOpen(Run(Next, Begin(self, replicas), []))
  {
  }

  /** With produces one after the other, acks=all is honest without further conditions. */
  lemma SerialAcksHonest(self: BrokerId, replicas: seq<BrokerId>, steps: seq<Step>,
                         i: nat, p: ProducerId, records: seq<Record>, ts: u64)
    requires Serial(self, replicas, steps)
    requires i < |steps| && steps[i] == Append(p, records, ts) && Enabled(At(self, replicas, steps, i), steps[i])
    requires Enabled(At(self, replicas, steps, |steps|), Acknowledge(p))
    ensures var base := At(self, replicas, steps, i).next;
            HeldByIsr(At(self, replicas, steps, |steps|), base, Stamped(records, base, ts))
  {
    hide Run, HeldByIsr, Begin, Serial;
    SerialOneOpen(self, replicas, steps, |steps|);
    var c := At(self, replicas, steps, |steps|);
    assert Open(c, p);
    assert forall q :: q in c.produces && c.produces[q].Appended? ==> Open(c, q);
    AcksAllHonest(self, replicas, steps, i, p, records, ts);
  }

  // ---- When the high watermark falls ----

  /**
   * The recomputation under way will find the mark too high: the log end it
   * read is below the mark, or some replica is in sync with a progress below it.
   */
  predicate InSyncBelow(c: Tenure, k: Computing) {
    || k.leo < c.hwm
    || exists id :: id in c.part.replicas && id != c.self
                 && InSync(c.part, c.self, id, k.leo, k.now) && c.part.progress[id] < c.hwm
  }

  /** A recomputation writes a mark below the current one. */
  predicate LowersMark(c: Tenure, s: Step) {
    s.WriteMark? && c.computing.Some? && InSyncBelow(c, c.computing.value)
  }

  /** A step lowers the high watermark exactly when it is such a write. */
  lemma MarkFallsExactly(c: Tenure, s: Step)
    requires Inv(c)
    ensures Next(c, s).hwm < c.hwm <==> LowersMark(c, s)
  {
    hide Recomputed, LogRead.Answer, Replicated, Stamped, InSync;
    if c.computing.Some? {
      RecomputeMeans(c.part, c.self, c.computing.value.leo, c.computing.value.now);
    }
  }

  /** In every run the high watermark goes back at a step exactly when the step is such a write. */
  lemma MarkFallsInRuns(self: BrokerId, replicas: seq<BrokerId>, steps: seq<Step>, k: nat)
    requires k < |steps|
    ensures At(self, replicas, steps, k + 1).hwm < At(self, replicas, steps, k).hwm
       <==> LowersMark(At(self, replicas, steps, k), steps[k])
  {
    hide Next, LowersMark, Inv;
    AtOk(self, replicas, steps, k);
    AtNext(self, replicas, steps, k);
    MarkFallsExactly(At(self, replicas, steps, k), steps[k]);
  }

  /** In a stretch of a run without such a write the high watermark never goes back. */
  lemma {:induction false} MarkNeverFalls(self: BrokerId, replicas: seq<BrokerId>, steps: seq<Step>, j: nat, k: nat)
    requires j <= k <= |steps|
    requires forall m :: j <= m < k ==> !LowersMark(At(self, replicas, steps, m), steps[m])
    ensures At(self, replicas, steps, j).hwm <= At(self, replicas, steps, k).hwm
  {
    hide Next, LowersMark, Inv;
    if j < k {
      MarkNeverFalls(self, replicas, steps, j, k - 1);
      MarkFallsInRuns(self, replicas, steps, k - 1);
    }
  }

  // ---- Failover ----

  /** What a promoted follower serves: its whole log, up to its own end. */
  function PromotedMark(f: Follower): int {
    f.next
  }

  /** Every record below the mark is in the follower's log, at its place. */
  predicate HoldsBelow(f: Follower, log: seq<Record>, mark: int) {
    mark <= |f.log| && forall i :: 0 <= i < mark && i < |log| ==> f.log[i] == log[i]
  }

  /**
   * A promotion, exactly: at any moment of any tenure a follower holds every
   * record below the leader's high watermark if and only if the mark it would
   * serve, its own log end, is not below that watermark.
   */
  lemma PromotionKeepsExactly(self: BrokerId, replicas: seq<BrokerId>, steps: seq<Step>, b: BrokerId)
    requires b in At(self, replicas, steps, |steps|).followers
    ensures var c := At(self, replicas, steps, |steps|);
            HoldsBelow(c.followers[b], c.log, c.hwm) <==> PromotedMark(c.followers[b]) >= c.hwm
  {
    hide Run, AnswerOk, RequestOk, ProduceOk, Contiguous;
    AtOk(self, replicas, steps, |steps|);
    var c := At(self, replicas, steps, |steps|);
    assert FollowerOk(c.log, c.followers[b]);
  }

  /** Any member of the in-sync set may be promoted when no producer is between append and recomputation. */
  lemma InSyncPromotionKeeps(self: BrokerId, replicas: seq<BrokerId>, steps: seq<Step>, b: BrokerId)
    requires var c := At(self, replicas, steps, |steps|);
             !MidAppend(c.produces) && b in c.part.isr && b != self
    ensures var c := At(self, replicas, steps, |steps|);
            && b in c.followers && 0 <= c.hwm <= |c.log|
            && HoldsBelow(c.followers[b], c.log, c.hwm) && PromotedMark(c.followers[b]) >= c.hwm
  {
    hide Run, AnswerOk, RequestOk, ProduceOk, Contiguous;
    AtOk(self, replicas, steps, |steps|);
    var c := At(self, replicas, steps, |steps|);
    assert FollowerOk(c.log, c.followers[b]);
  }

  /**
   * A clean failover keeps the committed prefix. The leader dies; unclean
   * election is off; the in-sync set the controller knows is part of the last
   * one the leader computed; no producer is between its append and the
   * recomputation after it. Then the broker the controller chooses has every
   * record below the old high watermark, and its own mark is not below it.
   */
  lemma CleanFailover(self: BrokerId, replicas: seq<BrokerId>, steps: seq<Step>, pa: PartitionAssignment,
      alive: seq<BrokerId>)
    requires pa.leader == self && FailedOver(pa, alive, false).Some?
    requires var c := At(self, replicas, steps, |steps|);
             !MidAppend(c.produces) && forall id <- pa.isr :: id in c.part.isr
    ensures var c, b := At(self, replicas, steps, |steps|), FailedOver(pa, alive, false).value.leader;
            && b in alive && b in c.followers && 0 <= c.hwm <= |c.log|
            && HoldsBelow(c.followers[b], c.log, c.hwm) && PromotedMark(c.followers[b]) >= c.hwm
  {
    hide Run, FailedOver, HoldsBelow, MidAppend;
    FailoverChooses(pa, alive, false);
    InSyncPromotionKeeps(self, replicas, steps, FailedOver(pa, alive, false).value.leader);
  }

  // ---- Runs that mark the limits ----

  /** Leader 1, follower 2. */
  const REPLICAS: seq<BrokerId> := [1, 2]

  lemma Start() returns (c: Tenure)
    ensures c == Begin(1, REPLICAS) == Run(Next, c, []) && Ready(c) && c.log == [] && c.next == 0 && c.hwm == 0
    ensures c.part == IsrState(REPLICAS, map[], map[], REPLICAS) && c.produces == map[] && c.requests == {}
    ensures 2 in c.followers && c.followers[2] == Replica([], 0, false)
  {
    c := Begin(1, REPLICAS);
    assert 2 in REPLICAS by { assert REPLICAS[1] == 2; }
  }

  /** What writing the mark leaves untouched, and what it decides about follower 2. */
  lemma Recomputes(c: Tenure)
    requires c.self == 1 && c.part.replicas == REPLICAS && c.computing.Some?
    ensures var d, leo, now := MarkWritten(c), c.computing.value.leo, c.computing.value.now;
            && d == c.(part := d.part, hwm := d.hwm, computing := None, bumped := false)
            && d.part == c.part.(isr := d.part.isr)
            && (2 in d.part.isr <==> InSync(c.part, 1, 2, leo, now))
            && (2 in d.part.isr ==> 2 in c.part.progress && d.hwm <= c.part.progress[2])
            && (2 !in d.part.isr ==> d.hwm == leo)
            && 0 <= d.hwm
  {
    hide Recomputed;
    RecomputeMeans(c.part, 1, c.computing.value.leo, c.computing.value.now);
    assert REPLICAS[1] == 2;
    assert forall id :: id in REPLICAS ==> id == 1 || id == 2;
  }

  lemma WritesMark(c: Tenure)
    requires c.computing.Some?
    ensures Next(c, WriteMark) == Continued(MarkWritten(c), c.computing.value.after)
  {
  }

  lemma NotesAppend(c: Tenure, p: ProducerId)
    requires Enabled(c, NoteAppend(p, 0))
    ensures Next(c, NoteAppend(p, 0)) == ReadEnd(c, c.part, 0, AppendNoted(p))
  {
  }

  lemma BeginsNote(c: Tenure, a: Answered)
    requires Enabled(c, NoteFetch(a, 0))
    ensures Next(c, NoteFetch(a, 0)) == ReadEnd(c, Fetched(c.part, a.to.replica, a.to.offset, 0), 0, FetchNoted(a))
  {
  }

  predicate Ready(c: Tenure) {
    c.self == 1 && c.part.replicas == REPLICAS && c.next < 10 && c.computing == None
  }

  /** One append of one record and the recomputation after it, at clock reading 0. */
  lemma Produces(c0: Tenure, steps: seq<Step>, c: Tenure, p: ProducerId, rec: Record)
    returns (steps': seq<Step>, c': Tenure)
    requires c == Run(Next, c0, steps) && p !in c.produces && Ready(c) && c.next < 5
    ensures c' == Run(Next, c0, steps') && steps < steps' && Ready(c')
    ensures c'.next == c.next + 1 && |c'.log| == |c.log| + 1 && c'.followers == c.followers
    ensures p in c'.produces && c'.produces[p].Waiting? && c'.produces[p].base == c.next && |c'.produces[p].batch| == 1
    ensures c'.produces.Keys == c.produces.Keys + {p} && c'.requests == c.requests
    ensures c'.part == c.part.(isr := c'.part.isr)
    ensures 2 in c'.part.isr <==> InSync(c.part, 1, 2, c'.next, 0)
    ensures 2 in c'.part.isr ==> 2 in c.part.progress && c'.hwm <= c.part.progress[2]
    ensures 2 !in c'.part.isr ==> c'.hwm == c'.next
  {
    hide Run;
    var s1, c1 := Extend(Next, c0, steps, c, Append(p, [rec], 0));
    assert |c1.produces[p].batch| == 1 && Ready(c1);
    NotesAppend(c1, p);
    hide Next, Stamped;
    var s2, c2 := Extend(Next, c0, s1, c1, NoteAppend(p, 0));
    Recomputes(c2);
    WritesMark(c2);
    hide MarkWritten;
    steps', c' := Extend(Next, c0, s2, c2, WriteMark);
  }

  lemma NotesFetch(c0: Tenure, steps: seq<Step>, c: Tenure, a: Answered) returns (steps': seq<Step>, c': Tenure)
    requires c == Run(Next, c0, steps) && Ready(c) && a in c.readings && a.to == Request(2, 0)
    ensures c' == Run(Next, c0, steps') && steps < steps' && Ready(c')
    ensures c'.next == c.next && c'.log == c.log && c'.produces == c.produces && c'.followers == c.followers
    ensures c'.part == c.part.(progress := c.part.progress[2 := 0], lastFetch := c.part.lastFetch[2 := 0],
          isr := c'.part.isr)
    ensures 2 in c'.part.isr && c'.hwm == 0
  {
    hide Run, Next;
    BeginsNote(c, a);
    var s1, c1 := Extend(Next, c0, steps, c, NoteFetch(a, 0));
    Recomputes(c1);
    WritesMark(c1);
    hide MarkWritten;
    steps', c' := Extend(Next, c0, s1, c1, WriteMark);
  }

  /** Follower 2 asks, the leader reads and notes the fetch, all at clock reading 0. */
  lemma Fetches(c0: Tenure, steps: seq<Step>, c: Tenure) returns (steps': seq<Step>, c': Tenure)
    requires c == Run(Next, c0, steps) && Ready(c)
    requires 2 in c.followers && c.followers[2] == Replica([], 0, false)
    ensures c' == Run(Next, c0, steps') && steps < steps' && Ready(c')
    ensures c'.next == c.next && c'.log == c.log && c'.produces == c.produces
    ensures c'.part == c.part.(progress := c.part.progress[2 := 0], lastFetch := c.part.lastFetch[2 := 0],
          isr := c'.part.isr)
    ensures 2 in c'.part.isr && c'.hwm == 0
    ensures 2 in c'.followers && c'.followers[2].log == []
  {
    hide LogRead.Answer, Run;
    var s1, c1 := Extend(Next, c0, steps, c, Ask(2));
    var q := Request(2, 0);
    assert c1.followers[2].log == [] && q in c1.requests;
    var s2, c2 := Extend(Next, c0, s1, c1, Read(q));
    var a := Answered(q, LogRead.Answer(c1.log, ToSigned64(0), c1.next, MAX_FETCH_BYTES));
    assert a in c2.readings && c2.followers == c1.followers && c2.part == c.part && Ready(c2);
    hide Next;
    steps', c' := NotesFetch(c0, s2, c2, a);
  }

  /**
   * The high watermark can fall: with follower 2 out of the in-sync set an
   * append raises it to 1, and follower 2's first fetch takes it back to 0.
   */
  lemma HighWatermarkCanFall(rec: Record) returns (steps: seq<Step>, i: nat)
    ensures i < |steps| && At(1, REPLICAS, steps, i).hwm == 1 && At(1, REPLICAS, steps, |steps|).hwm == 0
  {
    hide Run, Begin;
    var c0 := Start();
    var s1, c1 := Produces(c0, [], c0, 0, rec);
    assert 2 !in c1.part.isr && c1.hwm == 1;
    var s2, c2 := Fetches(c0, s1, c1);
    steps, i := s2, |s1|;
    assert steps[..|steps|] == steps;
    assert steps[..i] == s1;
  }

  /**
   * With two producers at once acks=all can lie: the second one's append lifts
   * the high watermark for a moment, the first one wakes up in that moment, and
   * in-sync follower 2 has nothing.
   */
  lemma ConcurrentAcksCanLie(rec: Record) returns (steps: seq<Step>)
    ensures var c := At(1, REPLICAS, steps, |steps|);
            && Enabled(c, Acknowledge(0)) && c.produces[0].base == 0 && |c.produces[0].batch| == 1
            && 2 in c.part.isr && 2 in c.followers && c.followers[2].log == []
  {
    hide Run, Begin;
    var c0 := Start();
    var s1, c1 := Fetches(c0, [], c0);
    var s2, c2 := Produces(c0, s1, c1, 0, rec);
    assert InSync(c1.part, 1, 2, c2.next, 0);
    var s3, c3 := Extend(Next, c0, s2, c2, Append(1, [rec], 0));
    steps := s3;
    assert steps[..|steps|] == steps;
  }

  /**
   * With a stale in-sync set at the controller a failover without unclean
   * election can lose a committed record: the leader has dropped follower 2 and
   * committed alone, but the controller still lists 2 and promotes it.
   */
  lemma StaleIsrCanLose(rec: Record) returns (steps: seq<Step>, pa: PartitionAssignment, alive: seq<BrokerId>)
    ensures pa.leader == 1 && pa.isr == REPLICAS && FailedOver(pa, alive, false).Some?
    ensures var c, b := At(1, REPLICAS, steps, |steps|), FailedOver(pa, alive, false).value.leader;
            !MidAppend(c.produces) && b in c.followers && |c.followers[b].log| < c.hwm
  {
    hide Run, Begin, FailedOver;
    var c0 := Start();
    var s1, c1 := Produces(c0, [], c0, 0, rec);
    assert 2 !in c1.part.isr && c1.hwm == 1;
    steps, pa, alive := s1, PartitionAssignment(1, REPLICAS, REPLICAS), [2];
    assert steps[..|steps|] == steps;
    assert REPLICAS[1] == 2 && 2 in pa.isr && 2 in alive;
    assert HasCandidate(pa.isr, 1, alive);
    FailoverChooses(pa, alive, false);
    assert c1.produces.Keys == {0} && !MidAppend(c1.produces);
  }
}

/**
 * Every run of one consumer group during one incarnation of its coordinator. A step is one block under the group's lock
 * or one message a client sends. A client joins anew under a new name each time: a session is one join and one sync.
 */
module GroupProtocol {
  import opened Types
  import opened Sorting
  import opened Strings
  import opened RangeAssignment
  import opened Groups
  import opened Runs

  datatype Session =
    | Named
    | Joining(deadline: u64)
    | HasJoined(reply: JoinReply)
    | SyncSent(generation: u32, shares: seq<Share>)
    | SyncWaiting(generation: u32)
    | Synced(generation: u32, partitions: seq<u32>)
    | Refused(error: ErrorCode)

  /**
   * leaders, posts, postedTwice and wrapped record the past: the leader of each
   * generation, the assignment posted for it, whether any generation got a
   * second one, and whether the generation counter ever went back to zero.
   */
  datatype Service = Service(
    groupId: string,
    group: Group,
    nextSeq: nat,
    sessions: map<MemberId, Session>,
    leaders: map<u32, MemberId>,
    posts: map<u32, Assignment>,
    postedTwice: bool,
    wrapped: bool)

  datatype Step =
    | DrawName
    | OtherGroupDraws
    | Join(id: MemberId, timeoutMs: u32, now: u64)
    | JoinWakes(id: MemberId, now: u64)
    | SendSync(id: MemberId, count: u32)
    | HandleSync(id: MemberId)
    | SyncWakes(id: MemberId)
    | HandleHeartbeat(id: MemberId, generation: u32, now: u64)
    | HandleLeave(id: MemberId)

  /** The shares of an assignment in the order of its keys. */
  function SharesIn(order: seq<MemberId>, a: Assignment): seq<Share>
    requires forall m :: m in order ==> m in a
  {
    if order == [] then []
    else SharesIn(order[..|order| - 1], a) + [Share(order[|order| - 1], a[order[|order| - 1]])]
  }

  function SharesOf(a: Assignment): seq<Share> {
    MemberListIsExact(a.Keys);
    SharesIn(MemberList(a.Keys), a)
  }

  /** What a client sends after joining: its leader sends everyone's share, the others nothing. */
  function ClientShares(id: MemberId, reply: JoinReply, count: u32): seq<Share> {
    if id == reply.leader then SharesOf(RangeOf(reply.members, count)) else []
  }

  predicate Enabled(c: Service, s: Step) {
    match s
    case DrawName => true
    case OtherGroupDraws => true
    case Join(id, _, _) => id in c.sessions && c.sessions[id].Named?
    case JoinWakes(id, now) =>
      id in c.sessions && c.sessions[id].Joining? && JoinMayReturn(c.group, c.sessions[id].deadline, now)
    case SendSync(id, count) => id in c.sessions && c.sessions[id].HasJoined? && count > 0
    case HandleSync(id) => id in c.sessions && c.sessions[id].SyncSent?
    case SyncWakes(id) => id in c.sessions && c.sessions[id].SyncWaiting?
    case HandleHeartbeat(_, _, _) => true
    case HandleLeave(_) => true
  }

  function SessionAfter(reply: SyncReply, generation: u32): Session {
    if reply.error == NoError then Synced(generation, reply.partitions) else Refused(reply.error)
  }

  /** A client's request is given the next number, which all groups share, under a lock of its own. */
  function NameDrawn(c: Service): Service {
    c.(nextSeq := c.nextSeq + 1, sessions := c.sessions[MemberName(c.groupId, c.nextSeq) := Named])
  }

  function Joins(c: Service, id: MemberId, timeoutMs: u32, now: u64): Service {
    var g := JoinEnter(c.group, id, timeoutMs, now);
    c.(group := g, sessions := c.sessions[id := Joining(g.joinDeadlineMs)])
  }

  function JoinDone(c: Service, id: MemberId): Service {
    var (g, reply) := JoinReturn(c.group, id);
    c.(group := g, sessions := c.sessions[id := HasJoined(reply)], leaders := c.leaders[g.generation := g.leader],
       wrapped := c.wrapped || (c.group.rebalancing && g.generation <= c.group.generation))
  }

  function SyncHandled(c: Service, id: MemberId): Service
    requires id in c.sessions && c.sessions[id].SyncSent?
  {
    var gen, shares := c.sessions[id].generation, c.sessions[id].shares;
    var (g, reply) := SyncEnter(c.group, id, gen, shares);
    match reply
    case None => c.(sessions := c.sessions[id := SyncWaiting(gen)])
    case Some(r) =>
      var d := c.(group := g, sessions := c.sessions[id := SessionAfter(r, gen)]);
      if r.error == NoError
      then d.(posts := c.posts[gen := g.assignment], postedTwice := c.postedTwice || gen in c.posts)
      else d
  }

  function Next(c: Service, s: Step): Service {
    if !Enabled(c, s) then c else
    match s
    case DrawName => NameDrawn(c)
    case OtherGroupDraws => c.(nextSeq := c.nextSeq + 1)
    case Join(id, timeoutMs, now) => Joins(c, id, timeoutMs, now)
    case JoinWakes(id, _) => JoinDone(c, id)
    case SendSync(id, count) =>
      var reply := c.sessions[id].reply;
      c.(sessions := c.sessions[id := SyncSent(reply.generation, ClientShares(id, reply, count))])
    case HandleSync(id) => SyncHandled(c, id)
    case SyncWakes(id) =>
      var gen := c.sessions[id].generation;
      c.(sessions := c.sessions[id := SessionAfter(SyncReturn(c.group, id, gen), gen)])
    case HandleHeartbeat(id, generation, now) => c.(group := Beat(c.group, id, generation, now).0)
    case HandleLeave(id) => c.(group := Leave(c.group, id))
  }

  function Boot(groupId: string): Service {
    Service(groupId, EMPTY, 0, map[], map[0 := ""], map[], false, false)
  }

  // ---- The invariant ----

  /** A range assignment of some distinct members. */
  ghost predicate IsRange(a: Assignment) {
    exists members: seq<MemberId>, count: u32 :: Distinct(members) && a == RangeOf(members, count)
  }

  predicate Leads(leaders: map<u32, MemberId>, generation: u32, id: MemberId) {
    generation in leaders && leaders[generation] == id
  }

  ghost predicate SessionOk(leaders: map<u32, MemberId>, posts: map<u32, Assignment>, id: MemberId, s: Session) {
    match s
    case HasJoined(r) => r.member == id && Leads(leaders, r.generation, r.leader) && Distinct(r.members)
    case SyncSent(gen, shares) => shares != [] ==> Leads(leaders, gen, id) && IsRange(Posted(map[], shares))
    case Synced(gen, partitions) => gen in posts && partitions == PartitionsOf(posts[gen], id)
    case _ => true
  }

  /** A posted assignment is a range assignment, and its generation's leader is done. */
  ghost predicate PostOk(leaders: map<u32, MemberId>, sessions: map<MemberId, Session>, gen: u32, a: Assignment) {
    && gen in leaders && leaders[gen] in sessions
    && sessions[leaders[gen]].Synced? && sessions[leaders[gen]].generation == gen
    && IsRange(a)
  }

  predicate GroupOk(g: Group, leaders: map<u32, MemberId>, posts: map<u32, Assignment>) {
    && Leads(leaders, g.generation, g.leader)
    && (forall n <- leaders :: n <= g.generation)
    && (g.syncReady ==> g.generation in posts && posts[g.generation] == g.assignment)
  }

  ghost predicate NameOk(groupId: string, nextSeq: nat, id: MemberId) {
    exists n :: 0 <= n < nextSeq && id == MemberName(groupId, n)
  }

  ghost predicate Inv(c: Service) {
    && GroupOk(c.group, c.leaders, c.posts)
    && (forall id <- c.sessions :: NameOk(c.groupId, c.nextSeq, id))
    && (forall id <- c.sessions :: SessionOk(c.leaders, c.posts, id, c.sessions[id]))
    && (forall n <- c.posts :: PostOk(c.leaders, c.sessions, n, c.posts[n]))
    && !c.postedTwice
  }

  lemma NameIsNew(c: Service)
    requires Inv(c)
    ensures MemberName(c.groupId, c.nextSeq) !in c.sessions
  {
    var id := MemberName(c.groupId, c.nextSeq);
    if id in c.sessions {
      assert NameOk(c.groupId, c.nextSeq, id);
      var n :| 0 <= n < c.nextSeq && id == MemberName(c.groupId, n);
      MemberNamesDiffer(c.groupId, n, c.nextSeq);
      assert false;
    }
  }

  /** One session moves on, and is not one that had synced. */
  lemma SessionMoves(c: Service, id: MemberId, s: Session)
    requires Inv(c) && id in c.sessions && !c.sessions[id].Synced? && SessionOk(c.leaders, c.posts, id, s)
    ensures Inv(c.(sessions := c.sessions[id := s]))
  {
    hide GroupOk, NameOk, SessionOk, IsRange;
    var d := c.(sessions := c.sessions[id := s]);
    forall n <- d.posts ensures PostOk(d.leaders, d.sessions, n, d.posts[n]) {
      assert PostOk(c.leaders, c.sessions, n, c.posts[n]);
    }
  }

  lemma NameDrawnOk(c: Service)
    requires Inv(c)
    ensures Inv(NameDrawn(c))
  {
    NameIsNew(c);
    hide SessionOk, MemberName, IsRange;
    var d := NameDrawn(c);
    var name := MemberName(c.groupId, c.nextSeq);
    forall id <- d.sessions ensures NameOk(d.groupId, d.nextSeq, id) {
      assert id == name || NameOk(c.groupId, c.nextSeq, id);
    }
    forall id <- d.sessions ensures SessionOk(d.leaders, d.posts, id, d.sessions[id]) {
      if id == name {
        EarlyOk(d.leaders, d.posts, id, d.sessions[id]);
      }
    }
    forall n <- d.posts ensures PostOk(d.leaders, d.sessions, n, d.posts[n]) {
      assert PostOk(c.leaders, c.sessions, n, c.posts[n]);
    }
  }

  lemma EarlyOk(leaders: map<u32, MemberId>, posts: map<u32, Assignment>, id: MemberId, s: Session)
    requires s.Named? || s.Joining?
    ensures SessionOk(leaders, posts, id, s)
  {
  }

  lemma OtherGroupDrawsOk(c: Service)
    requires Inv(c)
    ensures Inv(c.(nextSeq := c.nextSeq + 1))
  {
    hide GroupOk, SessionOk, PostOk, MemberName;
    forall id <- c.sessions ensures NameOk(c.groupId, c.nextSeq + 1, id) {
      assert NameOk(c.groupId, c.nextSeq, id);
    }
  }

  lemma JoinsOk(c: Service, id: MemberId, timeoutMs: u32, now: u64)
    requires Inv(c) && Enabled(c, Join(id, timeoutMs, now))
    ensures Inv(Joins(c, id, timeoutMs, now))
  {
    hide SessionOk, NameOk, PostOk;
    var g := JoinEnter(c.group, id, timeoutMs, now);
    EarlyOk(c.leaders, c.posts, id, Joining(g.joinDeadlineMs));
    GroupMoves(c, g);
    SessionMoves(c.(group := g), id, Joining(g.joinDeadlineMs));
  }

  /** A new generation gets its leader on record and starts without an assignment. */
  lemma FinalizeOk(c: Service)
    requires Inv(c) && Finalized(c.group).generation > c.group.generation
    ensures var g := Finalized(c.group); Inv(c.(group := g, leaders := c.leaders[g.generation := g.leader]))
  {
    var g := Finalized(c.group);
    var d := c.(group := g, leaders := c.leaders[g.generation := g.leader]);
    hide NameOk, IsRange;
    forall id <- d.sessions ensures SessionOk(d.leaders, d.posts, id, d.sessions[id]) {
      assert SessionOk(c.leaders, c.posts, id, c.sessions[id]);
    }
    forall n <- d.posts ensures PostOk(d.leaders, d.sessions, n, d.posts[n]) {
      assert PostOk(c.leaders, c.sessions, n, c.posts[n]);
    }
  }

  lemma JoinDoneOk(c: Service, id: MemberId, now: u64)
    requires Inv(c) && Enabled(c, JoinWakes(id, now)) && !JoinDone(c, id).wrapped
    ensures Inv(JoinDone(c, id))
  {
    var (g, reply) := JoinReturn(c.group, id);
    MemberListIsExact(g.members.Keys);
    var d := c.(group := g, leaders := c.leaders[g.generation := g.leader]);
    if c.group.rebalancing {
      FinalizeOk(c);
    } else {
      assert c.leaders[g.generation := g.leader] == c.leaders;
      assert d == c;
    }
    hide MemberList, NameOk, PostOk, IsRange;
    SessionMoves(d, id, HasJoined(reply));
    var e := d.(sessions := d.sessions[id := HasJoined(reply)]);
    OnlyHistory(e, JoinDone(c, id).wrapped);
    assert JoinDone(c, id) == e.(wrapped := JoinDone(c, id).wrapped);
  }

  lemma OnlyHistory(c: Service, wrapped: bool)
    requires Inv(c)
    ensures Inv(c.(wrapped := wrapped))
  {
    hide GroupOk, NameOk, SessionOk, PostOk;
  }

  lemma {:induction false} PostedShares(order: seq<MemberId>, a: Assignment)
    requires Distinct(order) && forall m :: m in order ==> m in a
    ensures Posted(map[], SharesIn(order, a)) == SharesMap(order, a)
  {
    hide SharesMap;
    if order == [] {
      SharesMapSnoc([], "", a);
    } else {
      var front, last := order[..|order| - 1], order[|order| - 1];
      PostedShares(front, a);
      assert order == front + [last];
      SharesMapSnoc(front, last, a);
      var shares := SharesIn(order, a);
      assert shares[..|shares| - 1] == SharesIn(front, a);
    }
  }

  /** The part of an assignment that these members' shares make up. */
  function SharesMap(order: seq<MemberId>, a: Assignment): Assignment {
    map m | m in a && m in order :: a[m]
  }

  lemma SharesMapSnoc(front: seq<MemberId>, last: MemberId, a: Assignment)
    ensures SharesMap([], a) == map[]
    ensures last in a ==> SharesMap(front + [last], a) == SharesMap(front, a)[last := a[last]]
  {
  }

  /** What the coordinator stores is what the leader computed. */
  lemma PostIsComputed(a: Assignment)
    ensures Posted(map[], SharesOf(a)) == a
  {
    MemberListIsExact(a.Keys);
    PostedShares(MemberList(a.Keys), a);
    assert SharesMap(MemberList(a.Keys), a) == a;
  }

  lemma SendSyncOk(c: Service, id: MemberId, count: u32)
    requires Inv(c) && Enabled(c, SendSync(id, count))
    ensures Inv(Next(c, SendSync(id, count)))
  {
    var reply := c.sessions[id].reply;
    assert SessionOk(c.leaders, c.posts, id, c.sessions[id]);
    PostIsComputed(RangeOf(reply.members, count));
    hide GroupOk, NameOk, PostOk, SharesOf, Posted, RangeOf;
    var shares := ClientShares(id, reply, count);
    if shares != [] {
      assert Posted(map[], shares) == RangeOf(reply.members, count);
      assert IsRange(Posted(map[], shares));
    }
    SessionMoves(c, id, SyncSent(reply.generation, shares));
  }

  /** An accepted post is the first one of its generation. */
  lemma PostOnce(c: Service, id: MemberId)
    requires Inv(c) && Enabled(c, HandleSync(id)) && c.sessions[id].shares != []
    ensures c.sessions[id].generation !in c.posts
  {
    var gen := c.sessions[id].generation;
    assert SessionOk(c.leaders, c.posts, id, c.sessions[id]);
    assert gen in c.posts ==> PostOk(c.leaders, c.sessions, gen, c.posts[gen]);
  }

  /** The state after the current generation's leader posts a. */
  function WithPost(c: Service, id: MemberId, a: Assignment): Service {
    var gen := c.group.generation;
    c.(group := c.group.(assignment := a, syncReady := true), posts := c.posts[gen := a],
       sessions := c.sessions[id := Synced(gen, PartitionsOf(a, id))])
  }

  lemma WithPostOk(c: Service, id: MemberId, a: Assignment)
    requires Inv(c) && id in c.sessions && !c.sessions[id].Synced? && IsRange(a)
    requires c.group.generation !in c.posts && c.group.leader == id
    ensures Inv(WithPost(c, id, a))
  {
    hide NameOk, IsRange, PartitionsOf;
    var d, gen := WithPost(c, id, a), c.group.generation;
    forall x <- d.sessions ensures SessionOk(d.leaders, d.posts, x, d.sessions[x]) {
      assert x != id ==> SessionOk(c.leaders, c.posts, x, c.sessions[x]);
    }
    forall n <- d.posts ensures PostOk(d.leaders, d.sessions, n, d.posts[n]) {
      assert n != gen ==> PostOk(c.leaders, c.sessions, n, c.posts[n]);
    }
  }

  lemma PostAccepted(c: Service, id: MemberId)
    requires Inv(c) && Enabled(c, HandleSync(id)) && c.sessions[id].shares != []
    requires c.sessions[id].generation == c.group.generation && id in c.group.members
    ensures Inv(SyncHandled(c, id))
  {
    PostOnce(c, id);
    assert SessionOk(c.leaders, c.posts, id, c.sessions[id]) && GroupOk(c.group, c.leaders, c.posts);
    hide Inv, Posted, IsRange;
    var a := Posted(map[], c.sessions[id].shares);
    WithPostOk(c, id, a);
    assert SyncHandled(c, id) == WithPost(c, id, a);
  }

  lemma SyncHandledOk(c: Service, id: MemberId)
    requires Inv(c) && Enabled(c, HandleSync(id))
    ensures Inv(SyncHandled(c, id))
  {
    var gen, shares := c.sessions[id].generation, c.sessions[id].shares;
    if gen == c.group.generation && id in c.group.members && shares != [] {
      PostAccepted(c, id);
    } else {
      hide Inv, Posted;
      var (g, reply) := SyncEnter(c.group, id, gen, shares);
      SessionMoves(c, id, match reply { case None => SyncWaiting(gen) case Some(r) => SessionAfter(r, gen) });
    }
  }

  lemma SyncWakesOk(c: Service, id: MemberId)
    requires Inv(c) && Enabled(c, SyncWakes(id))
    ensures Inv(Next(c, SyncWakes(id)))
  {
    var gen := c.sessions[id].generation;
    assert GroupOk(c.group, c.leaders, c.posts);
    hide NameOk, PostOk;
    SessionMoves(c, id, SessionAfter(SyncReturn(c.group, id, gen), gen));
  }

  /** Heartbeats, evictions and leaves touch neither generation nor assignment. */
  lemma GroupMoves(c: Service, g: Group)
    requires Inv(c)
    requires g.generation == c.group.generation && g.leader == c.group.leader
    requires g.syncReady == c.group.syncReady && g.assignment == c.group.assignment
    ensures Inv(c.(group := g))
  {
    hide NameOk, SessionOk, PostOk;
  }

  lemma StepOk(c: Service, s: Step)
    requires Inv(c) && !Next(c, s).wrapped
    ensures Inv(Next(c, s))
  {
    hide Inv, JoinReturn, SyncEnter, ClientShares, Unevicted;
    if !Enabled(c, s) {
      return;
    }
    match s
    case DrawName => NameDrawnOk(c);
    case OtherGroupDraws => OtherGroupDrawsOk(c);
    case Join(id, timeoutMs, now) => JoinsOk(c, id, timeoutMs, now);
    case JoinWakes(id, now) => JoinDoneOk(c, id, now);
    case SendSync(id, count) => SendSyncOk(c, id, count);
    case HandleSync(id) => SyncHandledOk(c, id);
    case SyncWakes(id) => SyncWakesOk(c, id);
    case HandleHeartbeat(id, generation, now) => GroupMoves(c, Beat(c.group, id, generation, now).0);
    case HandleLeave(id) => GroupMoves(c, Leave(c.group, id));
  }

  /** The step finalizes a window at the last generation, so that the counter goes back to zero. */
  predicate WrapsGeneration(c: Service, s: Step) {
    s.JoinWakes? && Enabled(c, s) && c.group.rebalancing && c.group.generation == TWO_32 - 1
  }

  lemma NextWraps(c: Service, s: Step)
    ensures Next(c, s).wrapped <==> c.wrapped || WrapsGeneration(c, s)
  {
    hide MemberList, LeastMember, SyncEnter, ClientShares, Unevicted;
  }

  /** The state after the first k steps. */
  function At(groupId: string, steps: seq<Step>, k: nat): Service
    requires k <= |steps|
  {
    Run(Next, Boot(groupId), steps[..k])
  }

  /** The counter has wrapped exactly when some step so far finalized a window at the last generation. */
  lemma {:induction false} WrappedMeans(groupId: string, steps: seq<Step>, k: nat)
    requires k <= |steps|
    ensures At(groupId, steps, k).wrapped
       <==> exists i :: 0 <= i < k && WrapsGeneration(At(groupId, steps, i), steps[i])
  {
    hide Next, WrapsGeneration;
    if k > 0 {
      WrappedMeans(groupId, steps, k - 1);
      RunStep(Next, Boot(groupId), steps, k - 1);
      NextWraps(At(groupId, steps, k - 1), steps[k - 1]);
    }
  }

  lemma {:induction false} RunOk(groupId: string, steps: seq<Step>)
    requires !Run(Next, Boot(groupId), steps).wrapped
    ensures Inv(Run(Next, Boot(groupId), steps))
  {
    hide Inv, Next;
    if steps == [] {
      assert Inv(Run(Next, Boot(groupId), [])) by { BootOk(groupId); }
    } else {
      var c := Run(Next, Boot(groupId), steps[..|steps| - 1]);
      NextWraps(c, steps[|steps| - 1]);
      RunOk(groupId, steps[..|steps| - 1]);
      StepOk(c, steps[|steps| - 1]);
    }
  }

  lemma BootOk(groupId: string)
    ensures Inv(Run(Next, Boot(groupId), []))
  {
  }

  /**
   * Exclusive ownership. In every run in which the generation counter does not
   * wrap, no generation gets a second assignment, and two members that sync
   * successfully for one generation hold disjoint partitions: both lists are
   * the members' slices of the one range assignment posted for it.
   */
  lemma ExclusiveOwnership(groupId: string, steps: seq<Step>, a: MemberId, b: MemberId)
    requires var c := Run(Next, Boot(groupId), steps);
             && !c.wrapped && a in c.sessions && b in c.sessions && a != b
             && c.sessions[a].Synced? && c.sessions[b].Synced?
             && c.sessions[a].generation == c.sessions[b].generation
    ensures var c := Run(Next, Boot(groupId), steps);
            var p, q := c.sessions[a].partitions, c.sessions[b].partitions;
            && !c.postedTwice
            && (forall x :: x in p ==> x !in q)
            && exists members: seq<MemberId>, count: u32 :: Distinct(members)
                 && p == PartitionsOf(RangeOf(members, count), a) && q == PartitionsOf(RangeOf(members, count), b)
  {
    hide Run, RangeOf, NameOk, GroupOk;
    RunOk(groupId, steps);
    var c := Run(Next, Boot(groupId), steps);
    assert SessionOk(c.leaders, c.posts, a, c.sessions[a]) && SessionOk(c.leaders, c.posts, b, c.sessions[b]);
    var gen := c.sessions[a].generation;
    assert PostOk(c.leaders, c.sessions, gen, c.posts[gen]);
    var members: seq<MemberId>, count: u32 :| Distinct(members) && c.posts[gen] == RangeOf(members, count);
    RangeIsExclusive(members, count);
  }

  /** Whatever happens, no generation of a run gets a second assignment before the counter wraps. */
  lemma OnePostPerGeneration(groupId: string, steps: seq<Step>)
    requires !Run(Next, Boot(groupId), steps).wrapped
    ensures !Run(Next, Boot(groupId), steps).postedTwice
  {
    RunOk(groupId, steps);
  }

  // ---- Runs too short to wrap the counter ----

  /** A step finalizes at most one window. */
  lemma OneGenerationAStep(c: Service, s: Step, n: nat)
    requires c.group.generation <= n < TWO_32 - 1 && !c.wrapped
    ensures Next(c, s).group.generation <= n + 1 && !Next(c, s).wrapped
  {
    hide MemberList, LeastMember, Posted, ClientShares, Unevicted, MemberName;
  }

  /** A run of fewer than 2^32 steps does not wrap the generation counter. */
  lemma {:induction false} ShortRunsDoNotWrap(groupId: string, steps: seq<Step>)
    requires |steps| < TWO_32
    ensures !Run(Next, Boot(groupId), steps).wrapped
    ensures Run(Next, Boot(groupId), steps).group.generation <= |steps|
  {
    hide Next;
    if steps != [] {
      var front := steps[..|steps| - 1];
      ShortRunsDoNotWrap(groupId, front);
      OneGenerationAStep(Run(Next, Boot(groupId), front), steps[|steps| - 1], |front|);
    }
  }

  /** Exclusive ownership in every run of fewer than 2^32 steps. */
  lemma ExclusiveOwnershipInShortRuns(groupId: string, steps: seq<Step>, a: MemberId, b: MemberId)
    requires |steps| < TWO_32
    requires var c := Run(Next, Boot(groupId), steps);
             && a in c.sessions && b in c.sessions && a != b
             && c.sessions[a].Synced? && c.sessions[b].Synced?
             && c.sessions[a].generation == c.sessions[b].generation
    ensures var c := Run(Next, Boot(groupId), steps);
            var p, q := c.sessions[a].partitions, c.sessions[b].partitions;
            && (forall x :: x in p ==> x !in q)
            && exists members: seq<MemberId>, count: u32 :: Distinct(members)
                 && p == PartitionsOf(RangeOf(members, count), a) && q == PartitionsOf(RangeOf(members, count), b)
  {
    hide Run, RangeOf;
    ShortRunsDoNotWrap(groupId, steps);
    ExclusiveOwnership(groupId, steps, a, b);
  }

  /** No generation gets a second assignment in a run of fewer than 2^32 steps. */
  lemma OnePostInShortRuns(groupId: string, steps: seq<Step>)
    requires |steps| < TWO_32
    ensures !Run(Next, Boot(groupId), steps).postedTwice
  {
    hide Run;
    ShortRunsDoNotWrap(groupId, steps);
    OnePostPerGeneration(groupId, steps);
  }

  // ---- A run that shows the join windows at their loosest ----

  /** A client draws the next name and enters the window. */
  lemma Enters(c0: Service, steps: seq<Step>, c: Service, now: u64)
    returns (steps': seq<Step>, c': Service, id: MemberId)
    requires c == Run(Next, c0, steps)
    ensures c' == Run(Next, c0, steps') && id == MemberName(c.groupId, c.nextSeq)
    ensures c'.group == JoinEnter(c.group, id, 6000, now)
    ensures c'.sessions == c.sessions[id := Joining(c'.group.joinDeadlineMs)]
    ensures c'.groupId == c.groupId && c'.nextSeq == c.nextSeq + 1 && c'.wrapped == c.wrapped
  {
    hide Run, MemberName, JoinEnter;
    id := MemberName(c.groupId, c.nextSeq);
    var s1, c1 := Extend(Next, c0, steps, c, DrawName);
    steps', c' := Extend(Next, c0, s1, c1, Join(id, 6000, now));
  }

  /** What a finalization leaves for the waiter that brings it about. */
  lemma Finalizes(c: Service, id: MemberId, now: u64)
    requires id in c.sessions && c.sessions[id] == Joining(1000) && c.group.rebalancing && now >= 1000
    requires c.group.generation < 10
    ensures var d := Next(c, JoinWakes(id, now));
            && d.group == Finalized(c.group) && id in d.sessions && d.sessions[id].HasJoined?
            && d.sessions[id].reply.generation == c.group.generation + 1
            && d.sessions == c.sessions[id := d.sessions[id]]
            && d.groupId == c.groupId && d.nextSeq == c.nextSeq && d.wrapped == c.wrapped
  {
    hide Finalized, MemberList;
    assert Finalized(c.group).generation == c.group.generation + 1 by { FinalizedFacts(c.group); }
  }

  /**
   * A waiter of an earlier window that wakes up late, when a new window is
   * open, finalizes that window: it is told the new generation without being a
   * member of it. (Its sync is then refused, so ownership stays exclusive.)
   */
  lemma LateWaiterFinalizes() returns (steps: seq<Step>, id: MemberId)
    ensures var c := Run(Next, Boot("g"), steps);
            && !c.wrapped && c.group.generation == 2 && !c.group.rebalancing && c.group.members != map[]
            && id in c.sessions && c.sessions[id].HasJoined? && c.sessions[id].reply.generation == 2
            && id !in c.group.members
  {
    hide Run, Next, Finalized, MemberName, MemberList;
    var c0 := Boot("g");
    RunNone(Next, c0);
    NamesApart();
    var s1, c1, m0 := Enters(c0, [], c0, 0);
    var s2, c2, m1 := Enters(c0, s1, c1, 0);
    Finalizes(c2, m1, 1000);
    var s3, c3 := Extend(Next, c0, s2, c2, JoinWakes(m1, 1000));
    FinalizedFacts(c2.group);
    var s4, c4, m2 := Enters(c0, s3, c3, 1500);
    Finalizes(c4, m0, 1500);
    var s5, c5 := Extend(Next, c0, s4, c4, JoinWakes(m0, 1500));
    FinalizedFacts(c4.group);
    assert m2 in c4.group.members;
    steps, id := s5, m0;
  }

  lemma FinalizedFacts(g: Group)
    requires g.generation < 10
    ensures var f := Finalized(g); f.generation == g.generation + 1 && !f.rebalancing && f.members == g.members
  {
  }

  lemma NamesApart()
    ensures MemberName("g", 0) != MemberName("g", 1)
    ensures MemberName("g", 0) != MemberName("g", 2)
    ensures MemberName("g", 1) != MemberName("g", 2)
  {
    hide MemberName;
    if MemberName("g", 0) == MemberName("g", 1) { MemberNamesDiffer("g", 0, 1); }
    if MemberName("g", 0) == MemberName("g", 2) { MemberNamesDiffer("g", 0, 2); }
    if MemberName("g", 1) == MemberName("g", 2) { MemberNamesDiffer("g", 1, 2); }
  }

  // ---- Members that keep beating ----

  predicate Accepted(c: Service, s: Step) {
    s.HandleHeartbeat? && s.id in c.group.members && s.generation == c.group.generation && !c.group.needsRebalance
  }

  /** When a's latest accepted heartbeat was, the one before the steps being at t. */
  function Heard(c: Service, a: MemberId, t: u64, steps: seq<Step>): u64 {
    if steps == [] then t
    else
      var front, last := steps[..|steps| - 1], steps[|steps| - 1];
      if last.HandleHeartbeat? && last.id == a && Accepted(Run(Next, c, front), last) then last.now
      else Heard(c, a, t, front)
  }

  /**
   * The step is not a's leave, and no join of a or one that opens a window. If it is another
   * member's accepted heartbeat, a was heard of at most timeoutMs before.
   */
  predicate Spares(c: Service, s: Step, a: MemberId, heard: u64, timeoutMs: u32) {
    match s
    case Join(id, _, _) => Enabled(c, s) ==> id != a && c.group.rebalancing
    case HandleLeave(id) => id != a
    case HandleHeartbeat(id, _, now) => id != a && Accepted(c, s) ==> heard <= now <= heard + timeoutMs
    case _ => true
  }

  lemma SyncMovesNoMember(g: Group, id: MemberId, generation: u32, shares: seq<Share>)
    ensures var h := SyncEnter(g, id, generation, shares).0;
            h.members == g.members && h.needsRebalance == g.needsRebalance
  {
    hide Posted;
  }

  lemma SyncMovesNobody(c: Service, id: MemberId)
    requires id in c.sessions && c.sessions[id].SyncSent?
    ensures var g, h := SyncHandled(c, id).group, c.group;
            g.members == h.members && g.needsRebalance == h.needsRebalance
  {
    hide SyncEnter;
    SyncMovesNoMember(c.group, id, c.sessions[id].generation, c.sessions[id].shares);
  }

  lemma SparedStays(c: Service, s: Step, a: MemberId, heard: u64, timeoutMs: u32)
    requires a in c.group.members && c.group.members[a] == Member(timeoutMs, heard) && Spares(c, s, a, heard, timeoutMs)
    ensures var g := Next(c, s).group;
            && a in g.members
            && g.members[a] == Member(timeoutMs, if Accepted(c, s) && s.id == a then s.now else heard)
  {
    hide MemberList, LeastMember, Beat, SyncHandled, MemberName, ClientShares;
    if s.HandleSync? && Enabled(c, s) {
      SyncMovesNobody(c, s.id);
    } else if s.HandleHeartbeat? {
      BeatExactly(c.group, s.id, s.generation, s.now);
    }
  }

  /**
   * Members that keep beating stay. After a member's accepted heartbeat, whatever others
   * do in whatever order: as long as it does not leave, no new window opens and every
   * accepted heartbeat of another comes within the member's timeout of its own latest one,
   * it remains a member, dated by that latest heartbeat.
   */
  lemma {:induction false} BeatingMemberStays(c: Service, a: MemberId, generation: u32, t: u64, steps: seq<Step>)
    requires a in c.group.members && generation == c.group.generation && !c.group.needsRebalance
    requires var b, timeoutMs := Next(c, HandleHeartbeat(a, generation, t)), c.group.members[a].sessionTimeoutMs;
             forall k :: 0 <= k < |steps| ==>
               Spares(Run(Next, b, steps[..k]), steps[k], a, Heard(b, a, t, steps[..k]), timeoutMs)
    ensures var b := Next(c, HandleHeartbeat(a, generation, t));
            var g := Run(Next, b, steps).group;
            && a in g.members
            && g.members[a] == Member(c.group.members[a].sessionTimeoutMs, Heard(b, a, t, steps))
  {
    hide Next, Spares;
    var b, timeoutMs := Next(c, HandleHeartbeat(a, generation, t)), c.group.members[a].sessionTimeoutMs;
    if steps == [] {
      BeatIsAccepted(c, a, generation, t);
    } else {
      var n := |steps| - 1;
      var front, s := steps[..n], steps[n];
      forall k | 0 <= k < n
        ensures Spares(Run(Next, b, front[..k]), front[k], a, Heard(b, a, t, front[..k]), timeoutMs)
      {
        assert front[..k] == steps[..k];
      }
      BeatingMemberStays(c, a, generation, t, front);
      SparedStays(Run(Next, b, front), s, a, Heard(b, a, t, front), timeoutMs);
    }
  }

  lemma BeatIsAccepted(c: Service, a: MemberId, generation: u32, t: u64)
    requires a in c.group.members && generation == c.group.generation && !c.group.needsRebalance
    ensures var g := Next(c, HandleHeartbeat(a, generation, t)).group;
            a in g.members && g.members[a] == Member(c.group.members[a].sessionTimeoutMs, t)
  {
    hide Beat;
    BeatExactly(c.group, a, generation, t);
  }

  /**
   * Members that stop beating go. At the first accepted heartbeat of another member after
   * the silent one's timeout it is evicted, in any state, and until a window ends it does
   * not come back unless it joins again, and nobody's heartbeat is accepted.
   */
  lemma {:induction false} SilentMemberGoes(c: Service, a: MemberId, s: Step, steps: seq<Step>)
    requires a in c.group.members && Accepted(c, s) && s.id != a
    requires var m := c.group.members[a]; m.lastHeartbeatMs <= s.now && s.now - m.lastHeartbeatMs > m.sessionTimeoutMs
    requires forall k :: 0 <= k < |steps| ==> !steps[k].JoinWakes? && (steps[k].Join? ==> steps[k].id != a)
    ensures var g := Run(Next, Next(c, s), steps).group;
            && a !in g.members && g.needsRebalance
            && forall id, generation, now :: Beat(g, id, generation, now).1 != NoError
  {
    hide Next;
    if steps == [] {
      EvictedNow(c, a, s);
    } else {
      var front := steps[..|steps| - 1];
      SilentMemberGoes(c, a, s, front);
      GoneStaysGone(Run(Next, Next(c, s), front), a, steps[|steps| - 1]);
    }
  }

  lemma EvictedNow(c: Service, a: MemberId, s: Step)
    requires a in c.group.members && Accepted(c, s) && s.id != a
    requires var m := c.group.members[a]; m.lastHeartbeatMs <= s.now && s.now - m.lastHeartbeatMs > m.sessionTimeoutMs
    ensures var g := Next(c, s).group;
            && a !in g.members && g.needsRebalance
            && forall id, generation, now :: Beat(g, id, generation, now).1 != NoError
  {
    BeatExactly(c.group, s.id, s.generation, s.now);
    hide Unevicted;
  }

  lemma GoneStaysGone(c: Service, a: MemberId, s: Step)
    requires a !in c.group.members && c.group.needsRebalance && !s.JoinWakes? && (s.Join? ==> s.id != a)
    ensures var g := Next(c, s).group;
            && a !in g.members && g.needsRebalance
            && forall id, generation, now :: Beat(g, id, generation, now).1 != NoError
  {
    hide SyncHandled, Unevicted, MemberName, ClientShares;
    if s.HandleSync? && Enabled(c, s) {
      SyncMovesNobody(c, s.id);
    }
  }

  // ---- A generation in which nobody fails ----

  /** These clients have drawn their names and nothing else. */
  predicate AllNamed(c: Service, ids: seq<MemberId>) {
    Distinct(ids) && forall i :: 0 <= i < |ids| ==> ids[i] in c.sessions && c.sessions[ids[i]] == Named
  }

  /** n clients draw their names. */
  lemma {:induction false} Draw(c: Service, n: nat) returns (more: seq<Step>, d: Service, ids: seq<MemberId>)
    ensures d == Run(Next, c, more) && d.group == c.group && |ids| == n && AllNamed(d, ids)
    ensures d.groupId == c.groupId && d.nextSeq == c.nextSeq + n
    ensures forall i :: 0 <= i < n ==> ids[i] == MemberName(c.groupId, c.nextSeq + i)
  {
    hide MemberName;
    if n == 0 {
      more, d, ids := [], c, [];
    } else {
      var some, e, front := Draw(c, n - 1);
      var id := MemberName(e.groupId, e.nextSeq);
      forall i | 0 <= i < n - 1 ensures front[i] != id {
        if front[i] == id {
          MemberNamesDiffer(c.groupId, c.nextSeq + i, c.nextSeq + n - 1);
        }
      }
      RunSnoc(Next, c, some, DrawName);
      more, d, ids := some + [DrawName], Next(e, DrawName), front + [id];
      hide Run;
      assert d == NameDrawn(e);
    }
  }

  /** The first k clients have entered the window that the first of them opened at now. */
  ghost predicate Entered(c: Service, d: Service, ids: seq<MemberId>, k: nat, now: u64)
    requires k <= |ids|
  {
    && (k == 0 ==> d == c)
    && d.group.generation == c.group.generation
    && (k > 0 ==> d.group.rebalancing && d.group.joinDeadlineMs == now + 1000)
    && (k > 0 ==> forall m :: m in d.group.members <==> m in ids[..k])
    && (forall i :: 0 <= i < |ids| ==> ids[i] in d.sessions)
    && (forall i :: 0 <= i < k ==> d.sessions[ids[i]] == Joining(now + 1000))
    && (forall i :: k <= i < |ids| ==> d.sessions[ids[i]] == Named)
  }

  lemma EntersNext(c: Service, d: Service, ids: seq<MemberId>, k: nat, timeoutMs: u32, now: u64)
    requires k < |ids| && Distinct(ids) && now < TWO_64 - 1000 && !c.group.rebalancing && Entered(c, d, ids, k, now)
    ensures Entered(c, Next(d, Join(ids[k], timeoutMs, now)), ids, k + 1, now)
  {
    var id := ids[k];
    var e := Joins(d, id, timeoutMs, now);
    assert Next(d, Join(id, timeoutMs, now)) == e;
    WindowExactly(d.group, id, timeoutMs, now);
    hide JoinEnter, Next;
    assert ids[..k + 1] == ids[..k] + [id];
    assert k == 0 ==> ids[..k] == [];
  }

  lemma {:induction false} EnterSome(c: Service, ids: seq<MemberId>, k: nat, timeoutMs: u32, now: u64)
    returns (more: seq<Step>, d: Service)
    requires k <= |ids| && AllNamed(c, ids) && now < TWO_64 - 1000 && !c.group.rebalancing
    ensures d == Run(Next, c, more) && Entered(c, d, ids, k, now)
  {
    hide Next, Run;
    if k == 0 {
      RunNone(Next, c);
      more, d := [], c;
    } else {
      var some, e := EnterSome(c, ids, k - 1, timeoutMs, now);
      EntersNext(c, e, ids, k - 1, timeoutMs, now);
      hide Entered;
      var s := Join(ids[k - 1], timeoutMs, now);
      RunSnoc(Next, c, some, s);
      more, d := some + [s], Next(e, s);
    }
  }

  /** The first k clients have returned from the window with the one reply there is. */
  ghost predicate Returned(d: Service, ids: seq<MemberId>, k: nat, reply: JoinReply, deadline: u64) {
    && k <= |ids| && !d.group.rebalancing && !d.group.syncReady
    && d.group.generation == reply.generation && d.group.leader == reply.leader
    && (forall m :: m in d.group.members <==> m in ids)
    && reply.members == MemberList(d.group.members.Keys)
    && (forall i :: 0 <= i < |ids| ==> ids[i] in d.sessions)
    && (forall i :: 0 <= i < k ==> d.sessions[ids[i]] == HasJoined(reply.(member := ids[i])))
    && (forall i :: k <= i < |ids| ==> d.sessions[ids[i]] == Joining(deadline))
  }

  /** The first client that wakes up ends the window. */
  lemma FirstReturns(c: Service, d: Service, ids: seq<MemberId>, now: u64) returns (reply: JoinReply)
    requires ids != [] && Distinct(ids) && now < TWO_64 - 1000 && Entered(c, d, ids, |ids|, now)
    ensures Returned(Next(d, JoinWakes(ids[0], now + 1000)), ids, 1, reply, now + 1000)
    ensures reply.generation == NextGeneration(c.group.generation) && reply.members != [] && reply.leader in ids
    ensures Distinct(reply.members) && (forall m :: m in reply.members <==> m in ids)
    ensures reply.leader == reply.members[0] && IsSortedBy(StringLe, reply.members)
  {
    hide MemberList, LeastMember, IsSortedBy;
    var id := ids[0];
    assert ids[..|ids|] == ids && id in ids;
    reply := JoinReturn(d.group, id).1;
    Wakes(d, id, now + 1000);
    JoinExactly(d.group, id);
    hide Next, JoinReturn;
    assert id in reply.members && reply.members[0] in reply.members;
  }

  lemma Wakes(d: Service, id: MemberId, now: u64)
    requires id in d.sessions && d.sessions[id].Joining? && d.sessions[id].deadline <= now
    ensures var e, (g, reply) := Next(d, JoinWakes(id, now)), JoinReturn(d.group, id);
            && e.group == g && e.sessions == d.sessions[id := HasJoined(reply)]
            && reply.members == MemberList(g.members.Keys)
  {
    hide MemberList, LeastMember;
  }

  lemma ReturnsNext(d: Service, ids: seq<MemberId>, k: nat, reply: JoinReply, deadline: u64)
    requires 0 < k < |ids| && Distinct(ids) && Returned(d, ids, k, reply, deadline)
    ensures Returned(Next(d, JoinWakes(ids[k], deadline)), ids, k + 1, reply, deadline)
  {
    hide MemberList;
  }

  lemma {:induction false} ReturnSome(c: Service, ids: seq<MemberId>, k: nat, reply: JoinReply, deadline: u64)
    returns (more: seq<Step>, d: Service)
    requires 0 < k <= |ids| && Distinct(ids) && Returned(c, ids, 1, reply, deadline)
    ensures d == Run(Next, c, more) && Returned(d, ids, k, reply, deadline)
  {
    hide Next, Run;
    if k == 1 {
      RunNone(Next, c);
      more, d := [], c;
    } else {
      var some, e := ReturnSome(c, ids, k - 1, reply, deadline);
      ReturnsNext(e, ids, k - 1, reply, deadline);
      hide Returned;
      var s := JoinWakes(ids[k - 1], deadline);
      RunSnoc(Next, c, some, s);
      more, d := some + [s], Next(e, s);
    }
  }

  /** The assignment is posted, and the leader and the first k other clients have their lists. */
  ghost predicate Holding(d: Service, ids: seq<MemberId>, k: nat, reply: JoinReply, a: Assignment) {
    && k <= |ids| && d.group.generation == reply.generation && d.group.syncReady && d.group.assignment == a
    && (forall m :: m in d.group.members <==> m in ids)
    && (forall i :: 0 <= i < |ids| ==> ids[i] in d.sessions)
    && (forall i :: 0 <= i < |ids| && (i < k || ids[i] == reply.leader) ==>
          d.sessions[ids[i]] == Synced(reply.generation, PartitionsOf(a, ids[i])))
    && (forall i :: k <= i < |ids| && ids[i] != reply.leader ==>
          d.sessions[ids[i]] == HasJoined(reply.(member := ids[i])))
  }

  /** The leader computes, posts and gets its own list. */
  lemma LeaderPosts(c: Service, ids: seq<MemberId>, reply: JoinReply, deadline: u64, count: u32)
    requires Returned(c, ids, |ids|, reply, deadline) && Distinct(ids) && reply.leader in ids && count > 0
    requires Distinct(reply.members) && reply.members != [] && forall m :: m in reply.members <==> m in ids
    ensures var d := Next(Next(c, SendSync(reply.leader, count)), HandleSync(reply.leader));
            Holding(d, ids, 0, reply, RangeOf(reply.members, count))
  {
    hide RangeOf, SharesOf, Posted, MemberList, Next, ClientShares;
    var id, a := reply.leader, RangeOf(reply.members, count);
    var i :| 0 <= i < |ids| && ids[i] == id;
    Sends(c, id, count);
    LeaderSendsShares(id, reply.(member := id), count);
    var c1 := Next(c, SendSync(id, count));
    HandlesPost(c1, id, a);
  }

  /** The leader's shares are its range assignment, and there are some. */
  lemma LeaderSendsShares(id: MemberId, reply: JoinReply, count: u32)
    requires id == reply.leader && Distinct(reply.members) && id in reply.members
    ensures ClientShares(id, reply, count) != []
    ensures Posted(map[], ClientShares(id, reply, count)) == RangeOf(reply.members, count)
  {
    hide RangeOf, SharesOf;
    var a := RangeOf(reply.members, count);
    RangeIsExact(reply.members, count);
    assert id in a;
    PostIsComputed(a);
  }

  lemma Sends(c: Service, id: MemberId, count: u32)
    requires id in c.sessions && c.sessions[id].HasJoined? && count > 0
    ensures var reply := c.sessions[id].reply;
            Next(c, SendSync(id, count))
            == c.(sessions := c.sessions[id := SyncSent(reply.generation, ClientShares(id, reply, count))])
  {
    hide ClientShares;
  }

  /** A member's shares for the group's generation are stored, and the sender gets its own. */
  lemma HandlesPost(c: Service, id: MemberId, a: Assignment)
    requires id in c.sessions && c.sessions[id].SyncSent? && c.sessions[id].generation == c.group.generation
    requires id in c.group.members && c.sessions[id].shares != [] && Posted(map[], c.sessions[id].shares) == a
    ensures var d := Next(c, HandleSync(id));
            && d.group == c.group.(assignment := a, syncReady := true)
            && d.sessions == c.sessions[id := Synced(c.group.generation, PartitionsOf(a, id))]
  {
    hide Posted, PartitionsOf;
  }

  /** A member without shares waits, and once there is an assignment gets its list. */
  lemma WaitsAndWakes(c: Service, id: MemberId)
    requires id in c.sessions && c.sessions[id] == SyncSent(c.group.generation, [])
    requires id in c.group.members && c.group.syncReady
    ensures Next(Next(c, HandleSync(id)), SyncWakes(id))
         == c.(sessions := c.sessions[id := Synced(c.group.generation, PartitionsOf(c.group.assignment, id))])
  {
    hide Posted, PartitionsOf;
    var d := Next(c, HandleSync(id));
    assert d == c.(sessions := c.sessions[id := SyncWaiting(c.group.generation)]);
  }

  /** Another client sends no shares, waits and gets its list. */
  lemma FollowerSyncs(d: Service, ids: seq<MemberId>, k: nat, reply: JoinReply, a: Assignment, count: u32)
    requires k < |ids| && Distinct(ids) && ids[k] != reply.leader && Holding(d, ids, k, reply, a) && count > 0
    ensures Holding(Next(Next(Next(d, SendSync(ids[k], count)), HandleSync(ids[k])), SyncWakes(ids[k])), ids, k + 1,
              reply, a)
  {
    hide Next, PartitionsOf;
    var id := ids[k];
    Sends(d, id, count);
    WaitsAndWakes(Next(d, SendSync(id, count)), id);
  }

  lemma ThreeMore(c: Service, steps: seq<Step>, s: Step, t: Step, u: Step)
    ensures Run(Next, c, steps + [s] + [t] + [u]) == Next(Next(Next(Run(Next, c, steps), s), t), u)
  {
    hide Next, Run;
    RunSnoc(Next, c, steps, s);
    RunSnoc(Next, c, steps + [s], t);
    RunSnoc(Next, c, steps + [s] + [t], u);
  }

  lemma {:induction false} SyncSome(c: Service, ids: seq<MemberId>, k: nat, reply: JoinReply, a: Assignment, count: u32)
    returns (more: seq<Step>, d: Service)
    requires k <= |ids| && Distinct(ids) && Holding(c, ids, 0, reply, a) && count > 0
    ensures d == Run(Next, c, more) && Holding(d, ids, k, reply, a)
  {
    hide Next, Run;
    if k == 0 {
      RunNone(Next, c);
      more, d := [], c;
    } else {
      var some, e := SyncSome(c, ids, k - 1, reply, a, count);
      var id := ids[k - 1];
      if id == reply.leader {
        more, d := some, e;
      } else {
        FollowerSyncs(e, ids, k - 1, reply, a, count);
        hide Holding;
        ThreeMore(c, some, SendSync(id, count), HandleSync(id), SyncWakes(id));
        more := some + [SendSync(id, count)] + [HandleSync(id)] + [SyncWakes(id)];
        d := Next(Next(Next(e, SendSync(id, count)), HandleSync(id)), SyncWakes(id));
      }
    }
  }

  /**
   * A generation in which nobody fails. Whatever happened to the group before,
   * unless a window is open: any number of clients can join within one window,
   * return when its 1000 ms are over with the next generation, and sync, and
   * then they are the members and hold their slices of one range assignment:
   * in name order these are 0, 1, ..., count - 1.
   */
  lemma EveryoneGetsItsShare(c: Service, n: nat, timeoutMs: u32, now: u64, count: u32)
    returns (more: seq<Step>, ids: seq<MemberId>, members: seq<MemberId>)
    requires 0 < n && now < TWO_64 - 1000 && 0 < count && !c.group.rebalancing
    ensures |ids| == n && Distinct(ids) && Distinct(members) && (forall m :: m in members <==> m in ids)
    ensures var d, a := Run(Next, c, more), RangeOf(members, count);
            && d.group.generation == NextGeneration(c.group.generation)
            && (forall m :: m in d.group.members <==> m in ids)
            && (forall id :: id in ids ==>
                  id in a && id in d.sessions && d.sessions[id] == Synced(d.group.generation, a[id]))
            && (forall m :: m in members ==> m in a) && IsSortedBy(StringLe, members)
            && Joined(members, a) == Span(0, count)
  {
    hide Next, Run, RangeOf, SortedMembers, Returned, IsSortedBy;
    var s1, c1, reply;
    s1, c1, ids, reply := JoinTogether(c, n, timeoutMs, now);
    members := reply.members;
    RangeIsExact(members, count);
    SortedMembersStay(members);
    var s2, c2 := SyncTogether(c1, ids, reply, now + 1000, count);
    more := s1 + s2;
    RunConcat(Next, c, s1, s2);
  }

  /** n clients draw names, join within one window and return from it. */
  lemma JoinTogether(c: Service, n: nat, timeoutMs: u32, now: u64)
    returns (more: seq<Step>, d: Service, ids: seq<MemberId>, reply: JoinReply)
    requires 0 < n && now < TWO_64 - 1000 && !c.group.rebalancing
    ensures d == Run(Next, c, more) && |ids| == n && Distinct(ids) && Returned(d, ids, n, reply, now + 1000)
    ensures reply.generation == NextGeneration(c.group.generation) && reply.members != [] && reply.leader in ids
    ensures Distinct(reply.members) && (forall m :: m in reply.members <==> m in ids)
    ensures IsSortedBy(StringLe, reply.members)
  {
    hide Next, Run, MemberList, Entered, Returned, AllNamed, IsSortedBy;
    var s1, c1;
    s1, c1, ids := Draw(c, n);
    assert Distinct(ids) by { NamedAreDistinct(c1, ids); }
    var s2, c2 := EnterSome(c1, ids, n, timeoutMs, now);
    reply := FirstReturns(c1, c2, ids, now);
    var wake := JoinWakes(ids[0], now + 1000);
    var s3;
    s3, d := ReturnSome(Next(c2, wake), ids, n, reply, now + 1000);
    more := s1 + s2 + [wake] + s3;
    RunConcat(Next, c, s1, s2);
    RunSnoc(Next, c, s1 + s2, wake);
    RunConcat(Next, c, s1 + s2 + [wake], s3);
  }

  /** The leader posts, and everyone syncs. */
  lemma SyncTogether(c: Service, ids: seq<MemberId>, reply: JoinReply, deadline: u64, count: u32)
    returns (more: seq<Step>, d: Service)
    requires Returned(c, ids, |ids|, reply, deadline) && Distinct(ids) && reply.leader in ids && count > 0
    requires Distinct(reply.members) && reply.members != [] && forall m :: m in reply.members <==> m in ids
    ensures d == Run(Next, c, more) && d.group.generation == reply.generation
    ensures forall m :: m in d.group.members <==> m in ids
    ensures var a := RangeOf(reply.members, count);
            forall id :: id in ids ==> id in a && id in d.sessions && d.sessions[id] == Synced(reply.generation, a[id])
  {
    hide Next, Run, RangeOf, Returned, Holding, IsSortedBy;
    LeaderPosts(c, ids, reply, deadline, count);
    var send, handle := SendSync(reply.leader, count), HandleSync(reply.leader);
    var s1;
    s1, d := SyncSome(Next(Next(c, send), handle), ids, |ids|, reply, RangeOf(reply.members, count), count);
    RangeIsExact(reply.members, count);
    HoldingMeans(d, ids, reply, RangeOf(reply.members, count));
    more := [] + [send] + [handle] + s1;
    RunNone(Next, c);
    RunSnoc(Next, c, [], send);
    RunSnoc(Next, c, [] + [send], handle);
    RunConcat(Next, c, [] + [send] + [handle], s1);
  }

  lemma NamedAreDistinct(c: Service, ids: seq<MemberId>)
    requires AllNamed(c, ids)
    ensures Distinct(ids)
  {
  }

  lemma HoldingMeans(d: Service, ids: seq<MemberId>, reply: JoinReply, a: Assignment)
    requires Holding(d, ids, |ids|, reply, a) && forall id :: id in ids ==> id in a
    ensures d.group.generation == reply.generation && forall m :: m in d.group.members <==> m in ids
    ensures forall id :: id in ids ==> id in d.sessions && d.sessions[id] == Synced(reply.generation, a[id])
  {
  }
}

/**
 * The group coordinator's state for one consumer group. Each function is what
 * one block under the group's lock does; the class performs those blocks in place.
 */
module Groups {
  import opened Types
  import opened Sorting
  import opened Strings
  import opened RangeAssignment
  import Isr

  const REBALANCE_WINDOW_MS := 1000

  datatype ErrorCode = NoError | UnknownMemberId | RebalanceInProgress | RequestTimedOut

  datatype Member = Member(sessionTimeoutMs: u32, lastHeartbeatMs: u64)

  /** One member's list in a SyncGroup request. */
  datatype Share = Share(member: MemberId, partitions: seq<u32>)

  type Assignment = map<MemberId, seq<u32>>

  datatype Group = Group(
    generation: u32,
    leader: MemberId,
    members: map<MemberId, Member>,
    /** A join window is open. */
    rebalancing: bool,
    /** Survivors of an eviction or a leave have to rejoin. */
    needsRebalance: bool,
    joinDeadlineMs: u64,
    /** The assignment of this generation was posted. */
    syncReady: bool,
    assignment: Assignment)

  datatype JoinReply = JoinReply(generation: u32, member: MemberId, leader: MemberId, members: seq<MemberId>)

  datatype SyncReply = SyncReply(error: ErrorCode, partitions: seq<u32>)

  const EMPTY := Group(0, "", map[], false, false, 0, false, map[])

  function NextGeneration(g: u32): u32 {
    (g + 1) % TWO_32
  }

  /** Member ids are numbered through for one incarnation of the coordinator. */
  function MemberName(groupId: string, n: nat): MemberId {
    groupId + "-member-" + Decimal(n)
  }

  lemma MemberNamesDiffer(groupId: string, m: nat, n: nat)
    requires MemberName(groupId, m) == MemberName(groupId, n)
    ensures m == n
  {
    var front := groupId + "-member-";
    assert MemberName(groupId, m)[|front|..] == Decimal(m);
    assert MemberName(groupId, n)[|front|..] == Decimal(n);
    DecimalRoundTrip(m);
    DecimalRoundTrip(n);
  }

  lemma SomeMemberName()
    ensures MemberName("orders", 12) == "orders-member-12"
  {
  }

  // ---- Member ids in the order of their names ----

  function LeastMember(s: set<MemberId>): (x: MemberId)
    requires s != {}
    ensures IsLeast(StringLe, x, s)
  {
    StringOrder();
    Least(StringLe, s)
  }

  function MemberList(s: set<MemberId>): seq<MemberId> {
    StringOrder();
    Ascending(StringLe, s)
  }

  /** The list is exactly the members, each once, in the order of their names. */
  lemma MemberListIsExact(s: set<MemberId>)
    ensures forall x :: x in MemberList(s) <==> x in s
    ensures Distinct(MemberList(s)) && IsSortedBy(StringLe, MemberList(s))
  {
    StringOrder();
    AscendingMembers(StringLe, s);
  }

  // ---- The blocks ----

  /** join_group up to its wait: open a window with no members yet, or enter the open one. */
  function JoinEnter(g: Group, id: MemberId, timeoutMs: u32, now: u64): Group {
    var w := if g.rebalancing then g
             else g.(rebalancing := true, members := map[], joinDeadlineMs := (now + REBALANCE_WINDOW_MS) % TWO_64);
    w.(members := w.members[id := Member(timeoutMs, now)])
  }

  /** The wait is over when no window is open or the deadline read on entry has passed. */
  predicate JoinMayReturn(g: Group, deadline: u64, now: u64) {
    !g.rebalancing || now >= deadline
  }

  /** The end of a window, brought about by whichever waiter wakes up first. */
  function Finalized(g: Group): Group {
    g.(generation := NextGeneration(g.generation),
       leader := if g.members == map[] then "" else LeastMember(g.members.Keys),
       rebalancing := false, needsRebalance := false, syncReady := false, assignment := map[])
  }

  /** join_group after its wait. The waiter need not be a member of the window it finalizes. */
  function JoinReturn(g: Group, id: MemberId): (Group, JoinReply) {
    var w := if g.rebalancing then Finalized(g) else g;
    (w, JoinReply(w.generation, id, w.leader, MemberList(w.members.Keys)))
  }

  function Posted(a: Assignment, shares: seq<Share>): Assignment {
    if shares == [] then a
    else Posted(a, shares[..|shares| - 1])[shares[|shares| - 1].member := shares[|shares| - 1].partitions]
  }

  function PartitionsOf(a: Assignment, id: MemberId): seq<u32> {
    if id in a then a[id] else []
  }

  /** sync_group up to its wait: the group, and the reply unless the caller has to wait. */
  function SyncEnter(g: Group, id: MemberId, generation: u32, shares: seq<Share>): (Group, Option<SyncReply>) {
    if generation != g.generation then (g, Some(SyncReply(RebalanceInProgress, [])))
    else if id !in g.members then (g, Some(SyncReply(UnknownMemberId, [])))
    else if shares == [] then (g, None)
    else
      var posted := g.(assignment := Posted(map[], shares), syncReady := true);
      (posted, Some(SyncReply(NoError, PartitionsOf(posted.assignment, id))))
  }

  /** sync_group after its wait, which ends when the predicate holds or after a time. */
  function SyncReturn(g: Group, id: MemberId, generation: u32): SyncReply {
    if !g.syncReady && g.generation == generation then SyncReply(RequestTimedOut, [])
    else if g.generation != generation then SyncReply(RebalanceInProgress, [])
    else SyncReply(NoError, PartitionsOf(g.assignment, id))
  }

  predicate Stale(m: Member, now: u64) {
    Isr.Age(now, m.lastHeartbeatMs) > m.sessionTimeoutMs
  }

  /** The members that are left when the silent ones other than id are evicted. */
  function Unevicted(members: map<MemberId, Member>, id: MemberId, now: u64): map<MemberId, Member> {
    map m | m in members && (m == id || !Stale(members[m], now)) :: members[m]
  }

  /** A heartbeat renews its member and evicts the others that have been silent too long. */
  function Beat(g: Group, id: MemberId, generation: u32, now: u64): (Group, ErrorCode) {
    if id !in g.members then (g, UnknownMemberId)
    else if generation != g.generation || g.needsRebalance then (g, RebalanceInProgress)
    else
      var renewed := g.members[id := g.members[id].(lastHeartbeatMs := now)];
      var kept := Unevicted(renewed, id, now);
      (g.(members := kept, needsRebalance := kept != renewed), NoError)
  }

  function Leave(g: Group, id: MemberId): Group {
    if id in g.members then g.(members := g.members - {id}, needsRebalance := true) else g
  }

  // ---- What the blocks mean for clients ----

  /**
   * A heartbeat, exactly. It is refused for a non-member, for another generation
   * and when survivors have to rejoin, and then changes nothing. An accepted one
   * dates its member anew, keeps every other member that was heard of within
   * that member's own timeout as it is, and evicts the rest; the survivors have
   * to rejoin exactly when somebody was evicted.
   */
  lemma BeatExactly(g: Group, id: MemberId, generation: u32, now: u64)
    ensures var (h, error) := Beat(g, id, generation, now);
            if id !in g.members then error == UnknownMemberId && h == g
            else if generation != g.generation || g.needsRebalance then error == RebalanceInProgress && h == g
            else
              && error == NoError && h == g.(members := h.members, needsRebalance := h.needsRebalance)
              && id in h.members && h.members[id] == Member(g.members[id].sessionTimeoutMs, now)
              && (forall m :: m in h.members && m != id ==> m in g.members && h.members[m] == g.members[m])
              && (forall m :: m in g.members && m != id ==>
                    (m in h.members <==>
                     if g.members[m].lastHeartbeatMs <= now
                     then now - g.members[m].lastHeartbeatMs <= g.members[m].sessionTimeoutMs
                     else now + TWO_64 - g.members[m].lastHeartbeatMs <= g.members[m].sessionTimeoutMs))
              && (h.needsRebalance <==> exists m :: m in g.members && m !in h.members)
  {
    if id in g.members && generation == g.generation && !g.needsRebalance {
      UnevictedExactly(g.members[id := g.members[id].(lastHeartbeatMs := now)], id, now);
      hide Unevicted;
    }
  }

  lemma UnevictedExactly(members: map<MemberId, Member>, id: MemberId, now: u64)
    ensures var kept := Unevicted(members, id, now);
            && (forall m :: m in kept ==> m in members && kept[m] == members[m])
            && (forall m :: m in members ==>
                  (m in kept <==> m == id ||
                                  if members[m].lastHeartbeatMs <= now
                                  then now - members[m].lastHeartbeatMs <= members[m].sessionTimeoutMs
                                  else now + TWO_64 - members[m].lastHeartbeatMs <= members[m].sessionTimeoutMs))
            && (kept != members <==> exists m :: m in members && m !in kept)
  {
    var kept := Unevicted(members, id, now);
    assert (forall m :: m in members ==> m in kept) ==> kept == members;
  }

  /**
   * A member that beats is not evicted for its silence before: its beat at t
   * protects it from every other beat up to t and its timeout.
   */
  lemma BeatKeepsAlive(g: Group, a: MemberId, b: MemberId, generation: u32, t: u64, u: u64)
    requires a in g.members && a != b && t <= u && u - t <= g.members[a].sessionTimeoutMs
    requires Beat(g, a, generation, t).1 == NoError
    ensures a in Beat(Beat(g, a, generation, t).0, b, generation, u).0.members
  {
    hide Beat;
    BeatExactly(g, a, generation, t);
    BeatExactly(Beat(g, a, generation, t).0, b, generation, u);
  }

  /**
   * A member silent for longer than its timeout is gone after any other member's
   * accepted beat, and from then on it is unknown and every survivor is told to rejoin.
   */
  lemma SilentMemberIsEvicted(g: Group, a: MemberId, b: MemberId, generation: u32, now: u64, c: MemberId, later: u64)
    requires a in g.members && a != b && c in g.members
    requires g.members[a].lastHeartbeatMs <= now && now - g.members[a].lastHeartbeatMs > g.members[a].sessionTimeoutMs
    requires Beat(g, b, generation, now).1 == NoError
    ensures var h := Beat(g, b, generation, now).0;
            && a !in h.members && Beat(h, a, generation, later) == (h, UnknownMemberId)
            && (c in h.members ==> Beat(h, c, generation, later) == (h, RebalanceInProgress))
  {
    hide Beat;
    BeatExactly(g, b, generation, now);
    var h := Beat(g, b, generation, now).0;
    BeatExactly(h, a, generation, later);
    BeatExactly(h, c, generation, later);
  }

  /** A leave removes its member and makes every other one rejoin; of a stranger it changes nothing. */
  lemma LeaveExactly(g: Group, id: MemberId, other: MemberId, generation: u32, now: u64)
    ensures var h := Leave(g, id);
            && h.members == g.members - {id} && h == g.(members := h.members, needsRebalance := h.needsRebalance)
            && (id !in g.members ==> h == g)
            && (id in g.members && other in h.members ==> Beat(h, other, generation, now) == (h, RebalanceInProgress))
  {
    assert id !in g.members ==> g.members - {id} == g.members;
  }

  /**
   * A join window. Whoever opens it starts it empty and for 1000 ms; later joins
   * keep its deadline and its members; nobody it has let in returns before that
   * deadline while it is open.
   */
  lemma WindowExactly(g: Group, id: MemberId, timeoutMs: u32, now: u64)
    ensures var h := JoinEnter(g, id, timeoutMs, now);
            && h.rebalancing && h == g.(rebalancing := true, members := h.members, joinDeadlineMs := h.joinDeadlineMs)
            && h.members == (if g.rebalancing then g.members else map[])[id := Member(timeoutMs, now)]
            && (g.rebalancing ==> h.joinDeadlineMs == g.joinDeadlineMs)
            && (!g.rebalancing && now < TWO_64 - 1000 ==> h.joinDeadlineMs == now + 1000)
    ensures forall h: Group, deadline: u64, later: u64 ::
              JoinMayReturn(h, deadline, later) <==> !h.rebalancing || deadline <= later
  {
  }

  /**
   * What a join brings. The end of a window starts the next generation, without
   * an assignment and without anything to rejoin for; everyone who returns is
   * told the same members, each once in name order, of which the first leads.
   */
  lemma JoinExactly(g: Group, id: MemberId)
    ensures var (h, reply) := JoinReturn(g, id);
            && h.members == g.members && !h.rebalancing && h.joinDeadlineMs == g.joinDeadlineMs
            && (if g.rebalancing
                then && h.generation == (if g.generation == 0xFFFF_FFFF then 0 else g.generation + 1)
                     && !h.needsRebalance && !h.syncReady && h.assignment == map[]
                     && h.leader == (if reply.members == [] then "" else reply.members[0])
                else h == g)
            && reply.generation == h.generation && reply.leader == h.leader && reply.member == id
            && (forall m :: m in reply.members <==> m in g.members)
            && Distinct(reply.members) && IsSortedBy(StringLe, reply.members)
  {
    MemberListIsExact(g.members.Keys);
    hide MemberList;
    var list := MemberList(g.members.Keys);
    if g.members == map[] {
      EmptyList(list);
    } else {
      FirstIsLeast(list, g.members.Keys);
    }
  }

  lemma EmptyList(list: seq<MemberId>)
    ensures (forall x :: x !in list) ==> list == []
  {
    assert list != [] ==> list[0] in list;
  }

  /** The first of an ordered list of all is the least. */
  lemma FirstIsLeast(list: seq<MemberId>, s: set<MemberId>)
    requires s != {} && (forall x :: x in list <==> x in s) && IsSortedBy(StringLe, list)
    ensures list != [] && list[0] == LeastMember(s)
  {
    StringOrder();
    var x := LeastMember(s);
    assert x in list;
    assert list[0] in list && list[0] in s;
    var i :| 0 <= i < |list| && list[i] == x;
    assert StringLe(x, list[0]);
    assert StringLe(list[0], list[i]) || i == 0;
  }

  /**
   * A sync up to its wait: refused for another generation and for a non-member;
   * shares are stored as the assignment, each member's last one, and answered
   * with the sender's own; no shares wait.
   */
  lemma SyncEnterExactly(g: Group, id: MemberId, generation: u32, shares: seq<Share>)
    ensures var (h, reply) := SyncEnter(g, id, generation, shares);
            && (generation != g.generation ==> h == g && reply == Some(SyncReply(RebalanceInProgress, [])))
            && (generation == g.generation && id !in g.members ==>
                  h == g && reply == Some(SyncReply(UnknownMemberId, [])))
            && (generation == g.generation && id in g.members && shares == [] ==> h == g && reply == None)
            && (generation == g.generation && id in g.members && shares != [] ==>
                  && h == g.(assignment := h.assignment, syncReady := true)
                  && (forall m :: m in h.assignment <==> exists i :: 0 <= i < |shares| && shares[i].member == m)
                  && (forall i :: 0 <= i < |shares| && (forall j :: i < j < |shares| ==>
                                                                     shares[j].member != shares[i].member) ==>
                        h.assignment[shares[i].member] == shares[i].partitions)
                  && reply == Some(SyncReply(NoError, if id in h.assignment then h.assignment[id] else [])))
  {
    PostedExactly(shares);
  }

  lemma PostedExactly(shares: seq<Share>)
    ensures var a := Posted(map[], shares);
            && (forall m :: m in a <==> exists i :: 0 <= i < |shares| && shares[i].member == m)
            && (forall i :: 0 <= i < |shares| && (forall j :: i < j < |shares| ==> shares[j].member != shares[i].member)
                  ==> a[shares[i].member] == shares[i].partitions)
  {
    hide Posted;
    forall m ensures m in Posted(map[], shares) <==> exists i :: 0 <= i < |shares| && shares[i].member == m {
      PostedAt(shares, m, 0);
    }
    forall i | 0 <= i < |shares| && forall j :: i < j < |shares| ==> shares[j].member != shares[i].member
      ensures Posted(map[], shares)[shares[i].member] == shares[i].partitions
    {
      PostedAt(shares, shares[i].member, i);
    }
  }

  lemma {:induction false} PostedAt(shares: seq<Share>, m: MemberId, i: nat)
    ensures var a := Posted(map[], shares);
            && (m in a <==> exists k :: 0 <= k < |shares| && shares[k].member == m)
            && (i < |shares| && shares[i].member == m && (forall j :: i < j < |shares| ==> shares[j].member != m) ==>
                  m in a && a[m] == shares[i].partitions)
  {
    if shares != [] {
      var n := |shares| - 1;
      var front := shares[..n];
      PostedAt(front, m, i);
      if shares[n].member != m {
        assert forall k :: 0 <= k < n ==> (shares[k].member == m <==> front[k].member == m);
      }
    }
  }

  /** A sync after its wait: the member's own list, if this generation's assignment was posted. */
  lemma SyncReturnExactly(g: Group, id: MemberId, generation: u32)
    ensures SyncReturn(g, id, generation) ==
            if g.generation != generation then SyncReply(RebalanceInProgress, [])
            else if !g.syncReady then SyncReply(RequestTimedOut, [])
            else SyncReply(NoError, if id in g.assignment then g.assignment[id] else [])
  {
  }

  /** The state of one group, changed in place. */
  class GroupState {
    var generationId: u32
    var leaderId: MemberId
    var members: map<MemberId, Member>
    var rebalanceInProgress: bool
    var needsRebalance: bool
    var joinDeadlineMs: u64
    var syncReady: bool
    var assignment: Assignment

    function State(): Group
      reads this
    {
      Group(generationId, leaderId, members, rebalanceInProgress, needsRebalance, joinDeadlineMs, syncReady, assignment)
    }

    constructor ()
      ensures State() == EMPTY
    {
      generationId, leaderId, members := 0, "", map[];
      rebalanceInProgress, needsRebalance, joinDeadlineMs := false, false, 0;
      syncReady, assignment := false, map[];
    }

    method BeginJoin(id: MemberId, timeoutMs: u32, now: u64) returns (deadline: u64)
      modifies this
      ensures State() == JoinEnter(old(State()), id, timeoutMs, now) && deadline == joinDeadlineMs
    {
      if !rebalanceInProgress {
        rebalanceInProgress := true;
        members := map[];
        joinDeadlineMs := (now + REBALANCE_WINDOW_MS) % TWO_64;
      }
      members := members[id := Member(timeoutMs, now)];
      deadline := joinDeadlineMs;
    }

    method EndJoin(id: MemberId) returns (reply: JoinReply)
      modifies this
      ensures (State(), reply) == JoinReturn(old(State()), id)
    {
      if rebalanceInProgress {
        generationId := NextGeneration(generationId);
        leaderId := if members == map[] then "" else LeastMember(members.Keys);
        rebalanceInProgress := false;
        needsRebalance := false;
        syncReady := false;
        assignment := map[];
      }
      reply := JoinReply(generationId, id, leaderId, MemberList(members.Keys));
    }

    method BeginSync(id: MemberId, generation: u32, shares: seq<Share>) returns (reply: Option<SyncReply>)
      modifies this
      ensures (State(), reply) == SyncEnter(old(State()), id, generation, shares)
    {
      if generation != generationId {
        return Some(SyncReply(RebalanceInProgress, []));
      }
      if id !in members {
        return Some(SyncReply(UnknownMemberId, []));
      }
      if shares == [] {
        return None;
      }
      assignment := map[];
      var i := 0;
      while i < |shares|
        invariant 0 <= i <= |shares| && assignment == Posted(map[], shares[..i])
        invariant State() == old(State()).(assignment := assignment)
      {
        assert shares[..i + 1][..i] == shares[..i];
        assignment := assignment[shares[i].member := shares[i].partitions];
        i := i + 1;
      }
      assert shares[..i] == shares;
      syncReady := true;
      return Some(SyncReply(NoError, PartitionsOf(assignment, id)));
    }

    method EndSync(id: MemberId, generation: u32) returns (reply: SyncReply)
      ensures reply == SyncReturn(State(), id, generation)
    {
      var ready := syncReady || generationId != generation;
      if !ready {
        return SyncReply(RequestTimedOut, []);
      }
      if generationId != generation {
        return SyncReply(RebalanceInProgress, []);
      }
      return SyncReply(NoError, PartitionsOf(assignment, id));
    }

    method Heartbeat(id: MemberId, generation: u32, now: u64) returns (error: ErrorCode)
      modifies this
      ensures (State(), error) == Beat(old(State()), id, generation, now)
    {
      if id !in members {
        return UnknownMemberId;
      }
      if generation != generationId || needsRebalance {
        return RebalanceInProgress;
      }
      members := members[id := members[id].(lastHeartbeatMs := now)];
      EvictStale(id, now);
      return NoError;
    }

    method EvictStale(id: MemberId, now: u64)
      requires !needsRebalance
      modifies this`members, this`needsRebalance
      ensures members == Unevicted(old(members), id, now) && needsRebalance == (members != old(members))
    {
      var rest := members.Keys;
      while rest != {}
        invariant rest <= members.Keys <= old(members).Keys
        invariant forall m <- old(members) :: m in members <==> m in rest || m == id || !Stale(old(members)[m], now)
        invariant forall m <- members :: members[m] == old(members)[m]
        invariant needsRebalance <==> members != old(members)
      {
        var m :| m in rest;
        if m != id && Stale(members[m], now) {
          members := members - {m};
          needsRebalance := true;
        }
        rest := rest - {m};
      }
    }

    method LeaveGroup(id: MemberId)
      modifies this
      ensures State() == Leave(old(State()), id)
    {
      if id in members {
        members := members - {id};
        needsRebalance := true;
      }
    }
  }
}

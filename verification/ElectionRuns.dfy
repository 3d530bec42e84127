/**
 * The limits of what the election promises: who can win, runs with wrapping term counters, and under which term a
 * leader heartbeats. The role is read in one block and the term in a later one.
 */
module ElectionRuns {
  import opened Types
  import opened Election
  import opened ElectionProtocol
  import opened Runs

  // ---- What single steps do, field by field ----

  /** Nothing but a node or a task changed. */
  predicate Quiet(c: Cluster, d: Cluster) {
    d.elected == c.elected && d.wrapped == c.wrapped && d.nodes.Keys == c.nodes.Keys && d.tasks.Keys == c.tasks.Keys
  }

  /** b reads a role that is not Leader, times out and starts an election. */
  lemma Candidacy(c0: Cluster, steps: seq<Step>, c: Cluster, b: BrokerId)
    returns (steps': seq<Step>, c': Cluster)
    requires c == Run(Next, c0, steps) && Member(c, b) && c.tasks[b] == Idle && c.nodes[b].role != Leader
    ensures c' == Run(Next, c0, steps') && steps < steps'
    ensures var n := BeginElection(c.nodes[b], b);
            && c'.nodes == c.nodes[b := n] && c'.tasks == c.tasks[b := Electing(n.term, Peers(c, b), 1, {})]
            && c.net + VoteRequests(b, n.term, Peers(c, b)) <= c'.net
            && c'.elected == c.elected && c'.wrapped == (c.wrapped || n.term <= c.nodes[b].term)
  {
    hide Run, BeginElection, Note;
    var s1, c1 := Extend(Next, c0, steps, c, ReadRole(b));
    steps', c' := Extend(Next, c0, s1, c1, TimeOut(b));
  }

  /** The broker has not voted in the term for anyone else. */
  predicate WouldGrant(n: Node, b: BrokerId, t: u32) {
    n.term < t || (n.term == t && n.votedFor in {NOBODY, b})
  }

  /** A node as it was, or in the term and no new leader. */
  predicate Moved(n: Node, m: Node, t: u32) {
    m == n || (m.term == t && (n.role != Leader ==> m.role != Leader))
  }

  lemma Grants(c: Cluster, b: BrokerId, peer: BrokerId, t: u32)
    requires Member(c, peer) && VoteRequest(b, peer, t) in c.net && WouldGrant(c.nodes[peer], b, t)
    ensures var d := Next(c, ReceiveVoteRequest(VoteRequest(b, peer, t)));
            && d.nodes == c.nodes[peer := OnRequestVote(c.nodes[peer], b, t).0] && d.tasks == c.tasks
            && Moved(c.nodes[peer], d.nodes[peer], t) && d.nodes[peer].term == t
            && d.net == c.net + {VoteResponse(peer, b, t, VoteReply(t, true))} && Quiet(c, d)
  {
    hide Note;
    assert c.tasks[peer := c.tasks[peer]] == c.tasks;
  }

  lemma Counts(c: Cluster, b: BrokerId, peer: BrokerId, t: u32)
    requires Member(c, b) && VoteResponse(peer, b, t, VoteReply(t, true)) in c.net && c.nodes[b].term == t
    requires c.tasks[b].Electing? && c.tasks[b].asked == t && peer in c.tasks[b].waiting
    ensures var d, k := Next(c, ReceiveVoteResponse(VoteResponse(peer, b, t, VoteReply(t, true)))), c.tasks[b];
            && d.nodes == c.nodes
            && d.tasks == c.tasks[b := Electing(t, k.waiting - {peer}, k.votes + 1, k.counted + {peer})]
            && d.net == c.net && Quiet(c, d)
  {
    hide Note;
    assert c.nodes[b := c.nodes[b]] == c.nodes;
  }

  lemma WinsElection(c: Cluster, b: BrokerId, t: u32)
    requires Member(c, b) && c.tasks[b].Electing? && c.tasks[b].asked == t && c.tasks[b].waiting == {}
    requires 2 * c.tasks[b].votes > |c.nodes| && c.nodes[b].term == t && c.nodes[b].role == Candidate
    ensures Wins(c, CountVotes(b), b, t)
    ensures var d := Next(c, CountVotes(b));
            && d.nodes == c.nodes[b := c.nodes[b].(role := Leader, leaderId := b)] && d.tasks == c.tasks[b := Idle]
            && d.net == c.net && d.elected == c.elected + {(t, b)} && d.wrapped == c.wrapped
  {
    hide Note;
  }

  lemma Crashes(c: Cluster, b: BrokerId)
    requires Member(c, b)
    ensures Next(c, Crash(b)) == c.(nodes := c.nodes[b := Restart(c.nodes[b].disk)], tasks := c.tasks[b := Idle])
  {
  }

  // ---- Winning an election ----

  /** b asks for votes of the term, would get one from each broker it still waits for, and would then have q. */
  predicate Gathering(c: Cluster, b: BrokerId, t: u32, q: nat) {
    && Member(c, b) && c.nodes[b].term == t && c.nodes[b].role == Candidate
    && c.tasks[b].Electing? && c.tasks[b].asked == t && c.tasks[b].votes + |c.tasks[b].waiting| == q
    && c.tasks[b].waiting <= c.nodes.Keys - {b} && c.nodes.Keys == c.tasks.Keys
    && forall p <- c.tasks[b].waiting :: VoteRequest(b, p, t) in c.net && WouldGrant(c.nodes[p], b, t)
  }

  /** What a gathering changes: where b stands, and the peers that vote. */
  predicate Gathered(c: Cluster, d: Cluster, b: BrokerId, t: u32, voters: set<BrokerId>) {
    && Quiet(c, d) && b in d.tasks && d.tasks == c.tasks[b := d.tasks[b]]
    && (forall p <- c.nodes :: p in d.nodes && Moved(c.nodes[p], d.nodes[p], t))
    && (forall p <- c.nodes :: p !in voters ==> d.nodes[p] == c.nodes[p])
    && (forall p <- voters :: p in d.nodes && d.nodes[p].term == t)
  }

  lemma GatheredMore(c: Cluster, c1: Cluster, d: Cluster, b: BrokerId, t: u32, p: BrokerId, voters: set<BrokerId>)
    requires Gathered(c, c1, b, t, {p}) && Gathered(c1, d, b, t, voters)
    ensures Gathered(c, d, b, t, voters + {p})
  {
    hide Moved;
    forall q <- c.nodes ensures Moved(c.nodes[q], d.nodes[q], t) {
      MovedTwice(c.nodes[q], c1.nodes[q], d.nodes[q], t);
    }
    assert d.nodes[p].term == t by { MovedTwice(c1.nodes[p], c1.nodes[p], d.nodes[p], t); }
  }

  lemma MovedTwice(n: Node, m: Node, k: Node, t: u32)
    requires Moved(n, m, t) && Moved(m, k, t)
    ensures Moved(n, k, t) && (m.term == t ==> k.term == t)
  {
  }

  /** One more peer grants its vote, and it is counted. */
  lemma GathersOne(c0: Cluster, steps: seq<Step>, c: Cluster, b: BrokerId, t: u32, q: nat, p: BrokerId)
    returns (steps': seq<Step>, c': Cluster)
    requires c == Run(Next, c0, steps) && Gathering(c, b, t, q) && p in c.tasks[b].waiting
    ensures c' == Run(Next, c0, steps') && steps < steps' && Gathering(c', b, t, q)
    ensures c'.tasks[b].waiting == c.tasks[b].waiting - {p} && Gathered(c, c', b, t, {p})
  {
    hide Run, Next, OnRequestVote;
    Grants(c, b, p, t);
    var s1, c1 := Extend(Next, c0, steps, c, ReceiveVoteRequest(VoteRequest(b, p, t)));
    Counts(c1, b, p, t);
    steps', c' := Extend(Next, c0, s1, c1, ReceiveVoteResponse(VoteResponse(p, b, t, VoteReply(t, true))));
  }

  lemma {:induction false} GathersAll(c0: Cluster, steps: seq<Step>, c: Cluster, b: BrokerId, t: u32, q: nat)
    returns (steps': seq<Step>, c': Cluster)
    requires c == Run(Next, c0, steps) && Gathering(c, b, t, q)
    ensures c' == Run(Next, c0, steps') && steps <= steps'
    ensures Gathering(c', b, t, q) && c'.tasks[b].waiting == {} && Gathered(c, c', b, t, c.tasks[b].waiting)
    decreases c.tasks[b].waiting
  {
    hide Run, Next, WouldGrant, Moved;
    if c.tasks[b].waiting == {} {
      steps', c' := steps, c;
      assert forall n: Node :: Moved(n, n, t) by { hide *; NotMoved(t); }
    } else {
      var p :| p in c.tasks[b].waiting;
      var s1, c1 := GathersOne(c0, steps, c, b, t, q, p);
      steps', c' := GathersAll(c0, s1, c1, b, t, q);
      hide Gathered, Gathering;
      GatheredMore(c, c1, c', b, t, p, c1.tasks[b].waiting);
      assert c1.tasks[b].waiting + {p} == c.tasks[b].waiting;
    }
  }

  lemma NotMoved(t: u32)
    ensures forall n: Node :: Moved(n, n, t)
  {
  }

  /** Calls to these peers fail. */
  lemma {:induction false} CallsFail(c0: Cluster, steps: seq<Step>, c: Cluster, b: BrokerId, silent: set<BrokerId>)
    returns (steps': seq<Step>, c': Cluster)
    requires c == Run(Next, c0, steps) && Member(c, b) && c.tasks[b].Electing? && silent <= c.tasks[b].waiting
    ensures c' == Run(Next, c0, steps') && steps <= steps'
    ensures c' == c.(tasks := c.tasks[b := c.tasks[b].(waiting := c.tasks[b].waiting - silent)])
    decreases silent
  {
    hide Run, Next;
    if silent == {} {
      steps', c' := steps, c;
      assert c.tasks[b].waiting - silent == c.tasks[b].waiting && c.tasks[b := c.tasks[b]] == c.tasks;
    } else {
      var p :| p in silent;
      OneCallFails(c, b, p);
      var s1, c1 := Extend(Next, c0, steps, c, CallFails(b, p));
      assert c1.tasks[b].waiting - (silent - {p}) == c.tasks[b].waiting - silent;
      steps', c' := CallsFail(c0, s1, c1, b, silent - {p});
    }
  }

  lemma OneCallFails(c: Cluster, b: BrokerId, p: BrokerId)
    requires Waits(c, b, p) && c.tasks[b].Electing?
    ensures Next(c, CallFails(b, p)) == c.(tasks := c.tasks[b := c.tasks[b].(waiting := c.tasks[b].waiting - {p})])
  {
  }

  /** A broker that may start an election and has, with itself, more than half of the brokers for it. */
  predicate Electable(c: Cluster, b: BrokerId, supporters: set<BrokerId>) {
    && Member(c, b) && c.nodes.Keys == c.tasks.Keys && c.tasks[b] == Idle && c.nodes[b].role != Leader
    && supporters <= c.nodes.Keys - {b} && 2 * (1 + |supporters|) > |c.nodes|
    && forall p <- supporters :: WouldGrant(c.nodes[p], b, NextTerm(c.nodes[b].term))
  }

  lemma StartsGathering(c0: Cluster, steps: seq<Step>, c: Cluster, b: BrokerId, supporters: set<BrokerId>)
    returns (steps': seq<Step>, c': Cluster)
    requires c == Run(Next, c0, steps) && Electable(c, b, supporters)
    ensures c' == Run(Next, c0, steps') && steps < steps'
    ensures Gathering(c', b, NextTerm(c.nodes[b].term), 1 + |supporters|)
    ensures var n := BeginElection(c.nodes[b], b);
            && c'.nodes == c.nodes[b := n] && c'.tasks == c.tasks[b := Electing(n.term, supporters, 1, {})]
            && c'.elected == c.elected && c'.wrapped == (c.wrapped || n.term <= c.nodes[b].term)
  {
    hide Run, Next, WouldGrant;
    var s1, c1 := Candidacy(c0, steps, c, b);
    steps', c' := CallsFail(c0, s1, c1, b, Peers(c, b) - supporters);
    assert Peers(c, b) - (Peers(c, b) - supporters) == supporters;
  }

  /**
   * Such a broker's election is won, although every call to the other brokers
   * fails: a cluster that has lost fewer than half of its brokers still elects.
   */
  lemma Victory(c0: Cluster, steps: seq<Step>, c: Cluster, b: BrokerId, supporters: set<BrokerId>)
    returns (steps': seq<Step>, c': Cluster, i: nat)
    requires c == Run(Next, c0, steps) && Electable(c, b, supporters)
    ensures var t := NextTerm(c.nodes[b].term);
            && c' == Run(Next, c0, steps') && steps < steps'
            && |steps| <= i < |steps'| && Wins(Run(Next, c0, steps'[..i]), steps'[i], b, t)
            && c'.nodes.Keys == c.nodes.Keys && c'.tasks == c.tasks
            && c'.nodes[b].role == Leader && c'.nodes[b].term == t
            && (forall p <- supporters :: Moved(c.nodes[p], c'.nodes[p], t) && c'.nodes[p].term == t)
            && (forall p <- c.nodes :: p != b && p !in supporters ==> c'.nodes[p] == c.nodes[p])
            && c'.elected == c.elected + {(t, b)} && c'.wrapped == (c.wrapped || t <= c.nodes[b].term)
  {
    hide Run, Next, Wins, Electable, Gathering, NextTerm, Moved;
    assert Member(c, b) && c.tasks[b] == Idle && 2 * (1 + |supporters|) > |c.nodes|
           && supporters <= c.nodes.Keys - {b} by { Electables(c, b, supporters); }
    var t, q := NextTerm(c.nodes[b].term), 1 + |supporters|;
    var s1, c1 := StartsGathering(c0, steps, c, b, supporters);
    var s2, c2 := GathersAll(c0, s1, c1, b, t, q);
    assert |c2.nodes| == |c2.nodes.Keys| == |c.nodes.Keys| == |c.nodes|;
    CountsAllVotes(c2, b, t, q);
    steps', c' := Extend(Next, c0, s2, c2, CountVotes(b));
    i := |s2|;
    assert steps'[..i] == s2 && c'.tasks == c.tasks;
  }

  lemma CountsAllVotes(c: Cluster, b: BrokerId, t: u32, q: nat)
    requires Gathering(c, b, t, q) && c.tasks[b].waiting == {} && 2 * q > |c.nodes|
    ensures Wins(c, CountVotes(b), b, t) && b in c.nodes && c.nodes[b].term == t
    ensures var d := Next(c, CountVotes(b));
            && d.nodes == c.nodes[b := c.nodes[b].(role := Leader, leaderId := b)] && d.tasks == c.tasks[b := Idle]
            && d.elected == c.elected + {(t, b)} && d.wrapped == c.wrapped
  {
    hide Next, Wins;
    WinsElection(c, b, t);
  }

  lemma Electables(c: Cluster, b: BrokerId, supporters: set<BrokerId>)
    requires Electable(c, b, supporters)
    ensures Member(c, b) && c.tasks[b] == Idle && c.nodes.Keys == c.tasks.Keys
    ensures 2 * (1 + |supporters|) > |c.nodes| && supporters <= c.nodes.Keys - {b}
  {
  }

  // ---- Turning a term counter round ----

  /** An idle follower at the term, with its state on file. */
  predicate Resting(c: Cluster, b: BrokerId, t: u32) {
    Member(c, b) && c.tasks[b] == Idle && c.nodes[b].role == Follower && c.nodes[b].term == t && Durable(c.nodes[b])
  }

  /** Brokers but these are as they were. */
  predicate Others(c: Cluster, d: Cluster, bs: set<BrokerId>) {
    && d.nodes.Keys == c.nodes.Keys && d.tasks.Keys == c.tasks.Keys
    && (forall p <- c.nodes :: p !in bs ==> d.nodes[p] == c.nodes[p])
    && (forall p <- c.tasks :: p !in bs ==> d.tasks[p] == c.tasks[p])
  }

  /** How many elections take a term counter to the goal. */
  function Ahead(t: u32, goal: u32): nat {
    if t <= goal then goal - t else TWO_32 - t + goal
  }

  lemma CrashRests(c0: Cluster, steps: seq<Step>, c: Cluster, b: BrokerId) returns (steps': seq<Step>, c': Cluster)
    requires c == Run(Next, c0, steps) && Member(c, b)
    ensures c' == Run(Next, c0, steps') && steps < steps'
    ensures Resting(c', b, c.nodes[b].disk.term) && Others(c, c', {b})
  {
    hide Run, Next;
    Crashes(c, b);
    steps', c' := Extend(Next, c0, steps, c, Crash(b));
  }

  /** An election that a crash cuts short leaves the next term behind. */
  lemma RaisesOnce(c0: Cluster, steps: seq<Step>, c: Cluster, b: BrokerId, t: u32)
    returns (steps': seq<Step>, c': Cluster)
    requires c == Run(Next, c0, steps) && Resting(c, b, t)
    ensures c' == Run(Next, c0, steps') && steps < steps' && Resting(c', b, NextTerm(t)) && Others(c, c', {b})
  {
    hide Run, Next;
    var s1, c1 := Candidacy(c0, steps, c, b);
    steps', c' := CrashRests(c0, s1, c1, b);
  }

  lemma {:induction false} Raises(c0: Cluster, steps: seq<Step>, c: Cluster, b: BrokerId, t: u32, goal: u32)
    returns (steps': seq<Step>, c': Cluster)
    requires c == Run(Next, c0, steps) && Resting(c, b, t)
    ensures c' == Run(Next, c0, steps') && steps <= steps' && Resting(c', b, goal) && Others(c, c', {b})
    decreases Ahead(t, goal)
  {
    hide Run, Next, Resting;
    if t == goal {
      steps', c' := steps, c;
    } else {
      var s1, c1 := RaisesOnce(c0, steps, c, b, t);
      steps', c' := Raises(c0, s1, c1, b, NextTerm(t), goal);
    }
  }

  /** Crashes and failed elections take these brokers to any term. */
  lemma {:induction false} RaisesAll(c0: Cluster, steps: seq<Step>, c: Cluster, bs: set<BrokerId>, goal: u32)
    returns (steps': seq<Step>, c': Cluster)
    requires c == Run(Next, c0, steps) && bs <= c.nodes.Keys == c.tasks.Keys
    ensures c' == Run(Next, c0, steps') && steps <= steps'
    ensures (forall p <- bs :: Resting(c', p, goal)) && Others(c, c', bs)
    decreases bs
  {
    hide Run, Next;
    if bs == {} {
      steps', c' := steps, c;
    } else {
      var b :| b in bs;
      var s1, c1 := CrashRests(c0, steps, c, b);
      var s2, c2 := Raises(c0, s1, c1, b, c.nodes[b].disk.term, goal);
      steps', c' := RaisesAll(c0, s2, c2, bs - {b}, goal);
    }
  }

  /** With everyone at the term before, anyone wins the term. */
  lemma AnyoneWins(c0: Cluster, steps: seq<Step>, c: Cluster, b: BrokerId, t: u32)
    returns (steps': seq<Step>, c': Cluster, i: nat)
    requires c == Run(Next, c0, steps) && b in c.nodes && c.nodes.Keys == c.tasks.Keys && 0 < t
    ensures c' == Run(Next, c0, steps') && steps <= steps' && c'.nodes.Keys == c.nodes.Keys == c'.tasks.Keys
    ensures |steps| <= i < |steps'| && Wins(Run(Next, c0, steps'[..i]), steps'[i], b, t)
  {
    hide Run, Next, Wins, Moved, Resting, Electable;
    var s1, c1 := RaisesAll(c0, steps, c, c.nodes.Keys, t - 1);
    AllSupport(c1, b, t);
    steps', c', i := Victory(c0, s1, c1, b, Peers(c1, b));
  }

  lemma AllSupport(c: Cluster, b: BrokerId, t: u32)
    requires b in c.nodes && c.nodes.Keys == c.tasks.Keys && 0 < t && forall p <- c.nodes :: Resting(c, p, t - 1)
    ensures Electable(c, b, Peers(c, b)) && NextTerm(c.nodes[b].term) == t
  {
    assert Resting(c, b, t - 1);
    hide WouldGrant;
    forall p <- c.nodes ensures WouldGrant(c.nodes[p], b, t) {
      assert Resting(c, p, t - 1);
      EarlierWouldGrant(c.nodes[p], b, t);
    }
    AllButOne(c, b);
  }

  lemma EarlierWouldGrant(n: Node, b: BrokerId, t: u32)
    ensures n.term < t ==> WouldGrant(n, b, t)
  {
  }

  lemma AllButOne(c: Cluster, b: BrokerId)
    ensures b in c.nodes ==> 1 + |Peers(c, b)| == |c.nodes|
  {
    assert |c.nodes| == |c.nodes.Keys|;
    if b in c.nodes {
      assert Peers(c, b) + {b} == c.nodes.Keys;
    }
  }

  lemma SamePrefix(disks: map<BrokerId, RaftState>, s: seq<Step>, t: seq<Step>, i: nat)
    requires s <= t && i < |s|
    ensures At(disks, s, i) == At(disks, t, i) && s[i] == t[i]
  {
    assert s[..i] == t[..i];
  }

  lemma BootKeys(disks: map<BrokerId, RaftState>)
    ensures Boot(disks).nodes.Keys == disks.Keys == Boot(disks).tasks.Keys
  {
  }

  /**
   * Without the condition on term counters election safety fails, from every
   * start: whatever the raft_state files of two or more brokers say, any two of
   * them can both execute become_leader for any term but 0.
   */
  lemma WrapBreaksSafety(disks: map<BrokerId, RaftState>, a: BrokerId, b: BrokerId, t: u32)
    returns (steps: seq<Step>, i: nat, j: nat)
    requires a in disks && b in disks && 0 < t
    ensures i < j < |steps| && Wins(At(disks, steps, i), steps[i], a, t) && Wins(At(disks, steps, j), steps[j], b, t)
  {
    hide Run, Next, Boot, Wins;
    var c0 := Boot(disks);
    RunNone(Next, c0);
    BootKeys(disks);
    var s1, c1;
    s1, c1, i := AnyoneWins(c0, [], c0, a, t);
    var c2;
    steps, c2, j := AnyoneWins(c0, s1, c1, b, t);
    SamePrefix(disks, s1, steps, i);
  }

  /** Three brokers boot with these terms and no votes. */
  lemma BootThree(t1: u32, t2: u32, t3: u32) returns (disks: map<BrokerId, RaftState>, c: Cluster)
    ensures Bootable(disks) && c == Boot(disks) == Run(Next, c, [])
    ensures c.nodes.Keys == {1, 2, 3} == c.tasks.Keys
    ensures c.nodes[1] == Restart(RaftState(t1, NOBODY)) && c.nodes[2] == Restart(RaftState(t2, NOBODY))
    ensures c.nodes[3] == Restart(RaftState(t3, NOBODY))
    ensures c.tasks[1] == c.tasks[2] == Idle && c.elected == {} && !c.wrapped
  {
    disks := map[1 := RaftState(t1, NOBODY), 2 := RaftState(t2, NOBODY), 3 := RaftState(t3, NOBODY)];
    assert disks.Keys == {1, 2, 3};
    c := Boot(disks);
    assert c.nodes.Keys == disks.Keys == c.tasks.Keys;
  }

  lemma BeatsAtTerm(c: Cluster, b: BrokerId, peer: BrokerId)
    requires Member(c, b) && c.tasks[b] == SawLeader && peer in c.nodes && peer != b
    ensures var d := Next(c, ReadTermAndBeat(b));
            d.nodes == c.nodes && d.tasks.Keys == c.tasks.Keys && Heartbeat(b, peer, c.nodes[b].term) in d.net
                  && Quiet(c, d)
  {
    assert c.nodes[b := c.nodes[b]] == c.nodes;
  }

  lemma Believes(c: Cluster, b: BrokerId, peer: BrokerId, t: u32)
    requires Member(c, peer) && Heartbeat(b, peer, t) in c.net && c.nodes[peer].term <= t
    ensures var d := Next(c, ReceiveHeartbeat(Heartbeat(b, peer, t)));
            peer in d.nodes && d.nodes[peer].term == t && d.nodes[peer].leaderId == b && Quiet(c, d)
  {
  }

  lemma ReadsLeader(c: Cluster, b: BrokerId)
    requires Member(c, b) && c.tasks[b] == Idle && c.nodes[b].role == Leader
    ensures Next(c, ReadRole(b)) == c.(tasks := c.tasks[b := SawLeader])
  {
  }

  /**
   * A leader that steps down between reading its role and reading its term
   * heartbeats under a term it never won, and a peer takes it for the leader of
   * that term: brokers do not agree on leaderId within a term.
   */
  lemma HeartbeatUnderForeignTerm() returns (disks: map<BrokerId, RaftState>, steps: seq<Step>)
    ensures Bootable(disks) && var c := At(disks, steps, |steps|);
            && !c.wrapped && 3 in c.nodes && c.nodes[3].term == 2 && c.nodes[3].leaderId == 1
            && (2, 1) !in c.elected
  {
    hide Run, Wins, Next, Boot, Bootable, Moved;
    var c0;
    disks, c0 := BootThree(0, 1, 1);
    assert Electable(c0, 1, {2, 3}) by { ThreeElect(c0); }
    hide Electable;
    var s2, c2, _ := Victory(c0, [], c0, 1, {2, 3});
    ReadsLeader(c2, 1);
    var s3, c3 := Extend(Next, c0, s2, c2, ReadRole(1));
    assert c3.nodes[2].role != Leader by { MovedFollower(c0.nodes[2], c2.nodes[2], 1); }
    var s4, c4 := Candidacy(c0, s3, c3, 2);
    assert VoteRequest(2, 1, 2) in VoteRequests(2, 2, Peers(c3, 2));
    Grants(c4, 2, 1, 2);
    var s5, c5 := Extend(Next, c0, s4, c4, ReceiveVoteRequest(VoteRequest(2, 1, 2)));
    BeatsAtTerm(c5, 1, 3);
    var s6, c6 := Extend(Next, c0, s5, c5, ReadTermAndBeat(1));
    Believes(c6, 1, 3, 2);
    var s7, c7 := Extend(Next, c0, s6, c6, ReceiveHeartbeat(Heartbeat(1, 3, 2)));
    steps := s7;
    assert steps[..|steps|] == steps;
  }

  lemma ThreeElect(c: Cluster)
    requires c.nodes.Keys == {1, 2, 3} == c.tasks.Keys && c.tasks[1] == Idle && c.nodes[1].role != Leader
    requires WouldGrant(c.nodes[2], 1, NextTerm(c.nodes[1].term))
    requires WouldGrant(c.nodes[3], 1, NextTerm(c.nodes[1].term))
    ensures Electable(c, 1, {2, 3})
  {
    assert |c.nodes| == |c.nodes.Keys|;
  }

  lemma MovedFollower(n: Node, m: Node, t: u32)
    requires Moved(n, m, t) && n.role != Leader
    ensures m.role != Leader
  {
  }

  // ---- Exactly when a heartbeat's term was won: executions of become_leader ----

  /** Up to moment k, b executed become_leader for the term. */
  ghost predicate WonBefore(disks: map<BrokerId, RaftState>, steps: seq<Step>, k: nat, b: BrokerId, term: u32)
    requires k <= |steps|
  {
    exists h :: 0 <= h < k && BecameLeader(At(disks, steps, h), At(disks, steps, h + 1), b, term)
  }

  /** A step records an election exactly when it makes that broker leader of that term. */
  lemma NewElectionWins(c: Cluster, s: Step, b: BrokerId, term: u32)
    requires Inv(c) && Inv(Next(c, s))
    ensures (term, b) in Next(c, s).elected <==> (term, b) in c.elected || Wins(c, s, b, term)
  {
    hide TaskOk, MessageOk, Backed, Note, OnRequestVote, OnVoteReply, OnHeartbeat, OnHeartbeatReply, BeginElection;
    if Wins(c, s, b, term) {
      WinnerIsElected(Next(c, s), b);
    } else if s.CountVotes? && Enabled(c, s) {
      assert NodeOk(c.ballots, c.elected, s.b, c.nodes[s.b]);
    }
  }

  /** The recorded elections are exactly the executions of become_leader so far. */
  lemma {:induction false} ElectedMeansWon(disks: map<BrokerId, RaftState>, steps: seq<Step>, k: nat, b: BrokerId,
      term: u32)
    requires Bootable(disks) && k <= |steps| && !At(disks, steps, k).wrapped
    ensures (term, b) in At(disks, steps, k).elected <==> WonBefore(disks, steps, k, b, term)
  {
    hide Inv, Next, BecameLeader, Remembers;
    if k > 0 {
      PastIsKept(disks, steps, k - 1, k);
      ElectedMeansWon(disks, steps, k - 1, b, term);
      AtNext(disks, steps, k - 1);
      NewElectionWins(At(disks, steps, k - 1), steps[k - 1], b, term);
    }
  }

  // ---- Elections and terms ----

  /** Nobody was elected for a term above its own. */
  predicate ElectionsBelow(c: Cluster) {
    forall e <- c.elected :: e.1 in c.nodes && e.0 <= c.nodes[e.1].term
  }

  lemma ElectionsStayBelow(c: Cluster, s: Step)
    requires Inv(c) && ElectionsBelow(c) && !Next(c, s).wrapped
    ensures ElectionsBelow(Next(c, s))
  {
    StepOk(c, s);
    var d := Next(c, s);
    forall e <- d.elected ensures e.1 in d.nodes && e.0 <= d.nodes[e.1].term {
      if e !in c.elected {
        NewElectionWins(c, s, e.1, e.0);
      }
    }
  }

  lemma {:induction false} RunElectionsBelow(disks: map<BrokerId, RaftState>, steps: seq<Step>, k: nat)
    requires Bootable(disks) && k <= |steps| && !At(disks, steps, k).wrapped
    ensures ElectionsBelow(At(disks, steps, k))
  {
    hide Inv, Next, ElectionsBelow, Remembers;
    if k == 0 {
      assert ElectionsBelow(At(disks, steps, 0)) by { NoElectionAtBoot(disks); }
    } else {
      PastIsKept(disks, steps, k - 1, k);
      RunElectionsBelow(disks, steps, k - 1);
      AtNext(disks, steps, k - 1);
      ElectionsStayBelow(At(disks, steps, k - 1), steps[k - 1]);
    }
  }

  lemma NoElectionAtBoot(disks: map<BrokerId, RaftState>)
    ensures ElectionsBelow(Boot(disks))
  {
  }

  // ---- Between the two reads ----

  /** b saw itself as leader of term t; since then its term may have grown, but it won no other election. */
  predicate LastWon(c: Cluster, b: BrokerId, t: u32) {
    && (t, b) in c.elected && b in c.nodes && t <= c.nodes[b].term
    && forall e <- c.elected :: e.1 == b ==> e.0 <= t
  }

  /** So its current term is one it won exactly when the term has not grown. */
  lemma WonExactlyWhenSame(c: Cluster, b: BrokerId, t: u32)
    requires LastWon(c, b, t)
    ensures (c.nodes[b].term, b) in c.elected <==> c.nodes[b].term == t
  {
  }

  lemma SeesLastWon(c: Cluster, b: BrokerId)
    requires Inv(c) && ElectionsBelow(c) && Member(c, b) && c.nodes[b].role == Leader
    ensures LastWon(c, b, c.nodes[b].term)
  {
    WinnerIsElected(c, b);
  }

  lemma ReadKeepsLastWon(c: Cluster, b: BrokerId, t: u32)
    requires Member(c, b) && LastWon(c, b, t)
    ensures LastWon(Next(c, ReadRole(b)), b, t)
  {
  }

  lemma LastWonStays(c: Cluster, s: Step, b: BrokerId, t: u32)
    requires Inv(c) && LastWon(c, b, t) && !Next(c, s).wrapped && Member(c, b) && c.tasks[b] == SawLeader
    ensures LastWon(Next(c, s), b, t)
  {
    StepOk(c, s);
    var d := Next(c, s);
    forall e <- d.elected | e.1 == b ensures e.0 <= t {
      if e !in c.elected {
        NewElectionWins(c, s, b, e.0);
        OnlyCountingWins(c, s, b, e.0);
      }
    }
  }

  /** Broker b read its role as leader at step i and stands between its two reads until moment k. */
  ghost predicate Between(disks: map<BrokerId, RaftState>, steps: seq<Step>, i: nat, k: nat, b: BrokerId)
    requires i < k <= |steps|
  {
    && steps[i] == ReadRole(b) && Enabled(At(disks, steps, i), steps[i])
    && At(disks, steps, i).nodes[b].role == Leader
    && forall m :: i < m <= k ==> Stands(At(disks, steps, m), b)
  }

  predicate Stands(c: Cluster, b: BrokerId) {
    Member(c, b) && c.tasks[b] == SawLeader
  }

  lemma {:induction false} BetweenReads(disks: map<BrokerId, RaftState>, steps: seq<Step>, i: nat, k: nat, b: BrokerId)
    requires Bootable(disks) && i < k <= |steps| && !At(disks, steps, k).wrapped && Between(disks, steps, i, k, b)
    ensures LastWon(At(disks, steps, k), b, At(disks, steps, i).nodes[b].term)
  {
    hide Inv, Next, LastWon, Remembers, Run;
    PastIsKept(disks, steps, k - 1, k);
    AtNext(disks, steps, k - 1);
    var c := At(disks, steps, k - 1);
    if k == i + 1 {
      RunElectionsBelow(disks, steps, i);
      SeesLastWon(c, b);
      ReadKeepsLastWon(c, b, c.nodes[b].term);
    } else {
      assert Between(disks, steps, i, k - 1, b);
      BetweenReads(disks, steps, i, k - 1, b);
      assert Stands(c, b);
      LastWonStays(c, steps[k - 1], b, At(disks, steps, i).nodes[b].term);
    }
  }

  // ---- Heartbeats ----

  /** Step k sends b's heartbeats. */
  predicate Beats(disks: map<BrokerId, RaftState>, steps: seq<Step>, k: nat, b: BrokerId)
    requires k < |steps|
  {
    steps[k] == ReadTermAndBeat(b) && Enabled(At(disks, steps, k), steps[k])
  }

  lemma BeatCarriesTerm(c: Cluster, b: BrokerId, m: Message)
    requires Enabled(c, ReadTermAndBeat(b)) && m.Heartbeat? && m in Next(c, ReadTermAndBeat(b)).net && m !in c.net
    ensures m.from == b && m.term == c.nodes[b].term
  {
  }

  /**
   * Exactly when a heartbeat's term is one its sender won. The heartbeats sent at
   * step k by a broker that read its role at step i carry a term it was elected
   * for if and only if its term did not change between the two reads.
   */
  lemma BeatTermIsWonExactly(disks: map<BrokerId, RaftState>, steps: seq<Step>, i: nat, k: nat, b: BrokerId, m: Message)
    requires Bootable(disks) && i < k < |steps| && !At(disks, steps, k).wrapped
    requires Between(disks, steps, i, k, b) && Beats(disks, steps, k, b)
    requires m.Heartbeat? && m in At(disks, steps, k + 1).net && m !in At(disks, steps, k).net
    ensures m.from == b && b in At(disks, steps, k).nodes && m.term == At(disks, steps, k).nodes[b].term
    ensures WonBefore(disks, steps, k, b, m.term)
       <==> At(disks, steps, k).nodes[b].term == At(disks, steps, i).nodes[b].term
  {
    hide Inv, Next, Remembers, Run, WonBefore;
    AtNext(disks, steps, k);
    BeatCarriesTerm(At(disks, steps, k), b, m);
    BetweenReads(disks, steps, i, k, b);
    WonExactlyWhenSame(At(disks, steps, k), b, At(disks, steps, i).nodes[b].term);
    ElectedMeansWon(disks, steps, k, b, m.term);
  }

  /** Whoever stands before its second read has made the first one. */
  lemma {:induction false} ReadBefore(disks: map<BrokerId, RaftState>, steps: seq<Step>, k: nat, b: BrokerId)
    returns (i: nat)
    requires k <= |steps| && Stands(At(disks, steps, k), b)
    ensures i < k && Between(disks, steps, i, k, b)
  {
    hide Next;
    assert k > 0 by { NobodyStandsAtBoot(disks, b); }
    AtNext(disks, steps, k - 1);
    var c := At(disks, steps, k - 1);
    if Stands(c, b) {
      i := ReadBefore(disks, steps, k - 1, b);
    } else {
      i := k - 1;
      OnlyReadingStands(c, steps[i], b);
    }
  }

  lemma NobodyStandsAtBoot(disks: map<BrokerId, RaftState>, b: BrokerId)
    ensures !Stands(Boot(disks), b)
  {
  }

  lemma OnlyReadingStands(c: Cluster, s: Step, b: BrokerId)
    requires !Stands(c, b) && Stands(Next(c, s), b)
    ensures s == ReadRole(b) && Enabled(c, s) && c.nodes[b].role == Leader
  {
    hide Note, OnRequestVote, OnVoteReply, OnHeartbeat, OnHeartbeatReply, FinishElection, BeginElection;
  }

  /** No broker's term changes between its two reads before a beat. */
  ghost predicate Steady(disks: map<BrokerId, RaftState>, steps: seq<Step>) {
    forall i, k, b :: 0 <= i < k < |steps| && Between(disks, steps, i, k, b) && Beats(disks, steps, k, b) ==>
      At(disks, steps, k).nodes[b].term == At(disks, steps, i).nodes[b].term
  }

  /** In a steady run every heartbeat ever sent carries a term its sender was elected for. */
  lemma {:induction false} SteadyBeatsAreWon(disks: map<BrokerId, RaftState>, steps: seq<Step>, n: nat, m: Message)
    requires Bootable(disks) && n <= |steps| && !At(disks, steps, n).wrapped && Steady(disks, steps)
    requires m.Heartbeat? && m in At(disks, steps, n).net
    ensures WonBefore(disks, steps, n, m.from, m.term)
  {
    hide Inv, Next, Remembers, Between, WonBefore;
    assert n > 0;
    var k := n - 1;
    PastIsKept(disks, steps, k, n);
    AtNext(disks, steps, k);
    if m in At(disks, steps, k).net {
      SteadyBeatsAreWon(disks, steps, k, m);
      WonStays(disks, steps, k, n, m.from, m.term);
    } else {
      OnlyBeatsSend(At(disks, steps, k), steps[k], m);
      assert Beats(disks, steps, k, m.from);
      var i := ReadBefore(disks, steps, k, m.from);
      BeatTermIsWonExactly(disks, steps, i, k, m.from, m);
      WonStays(disks, steps, k, n, m.from, m.term);
    }
  }

  lemma WonStays(disks: map<BrokerId, RaftState>, steps: seq<Step>, j: nat, k: nat, b: BrokerId, term: u32)
    requires j <= k <= |steps| && WonBefore(disks, steps, j, b, term)
    ensures WonBefore(disks, steps, k, b, term)
  {
    hide BecameLeader;
  }

  lemma OnlyBeatsSend(c: Cluster, s: Step, m: Message)
    requires m.Heartbeat? && m !in c.net && m in Next(c, s).net
    ensures s == ReadTermAndBeat(m.from) && Enabled(c, s) && Stands(c, m.from)
  {
    hide Note, OnRequestVote, OnVoteReply, OnHeartbeat, OnHeartbeatReply, FinishElection, BeginElection;
  }
}

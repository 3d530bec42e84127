/**
 * Every run of the election among a fixed set of brokers. A step is one block holding a controller's mutex, or the
 * failure of a call. Requests and replies stay in the network: they may arrive late, twice, out of order or never.
 */
module ElectionProtocol {
  import opened Types
  import opened Election
  import opened Runs

  datatype Message =
    | VoteRequest(from: BrokerId, to: BrokerId, term: u32)
    | VoteResponse(from: BrokerId, to: BrokerId, asked: u32, vote: VoteReply)
    | Heartbeat(from: BrokerId, to: BrokerId, term: u32)
    | HeartbeatResponse(from: BrokerId, to: BrokerId, beat: HeartbeatReply)

  /**
   * Where a broker's background thread stands. The role is read in one block
   * and acted on in a later one, so the role may have changed in between.
   */
  datatype Task =
    | Idle
    | SawLeader
    | SawOther
    | Beating(waiting: set<BrokerId>)
    | Electing(asked: u32, waiting: set<BrokerId>, votes: nat, counted: set<BrokerId>)

  /** The vote each broker's raft_state has shown for a term. */
  type Ballots = map<(BrokerId, u32), BrokerId>

  /**
   * ballots, elected and wrapped record the past: every vote that reached a
   * raft_state file, every execution of become_leader, and whether a term
   * counter ever went back to zero.
   */
  datatype Cluster = Cluster(
    nodes: map<BrokerId, Node>,
    tasks: map<BrokerId, Task>,
    net: set<Message>,
    ballots: Ballots,
    elected: set<(u32, BrokerId)>,
    wrapped: bool)

  datatype Step =
    | ReadRole(b: BrokerId)
    | TimeOut(b: BrokerId)
    | WaitLonger(b: BrokerId)
    | ReceiveVoteRequest(m: Message)
    | ReceiveVoteResponse(m: Message)
    | CallFails(b: BrokerId, peer: BrokerId)
    | CountVotes(b: BrokerId)
    | ReadTermAndBeat(b: BrokerId)
    | ReceiveHeartbeat(m: Message)
    | ReceiveHeartbeatResponse(m: Message)
    | BeatsDone(b: BrokerId)
    | Crash(b: BrokerId)

  function Note(ballots: Ballots, b: BrokerId, disk: RaftState): Ballots {
    if 0 <= disk.votedFor < TWO_32 then ballots[(b, disk.term) := disk.votedFor] else ballots
  }

  /** Broker b moves to node n and task t and sends msgs. */
  function Advance(c: Cluster, b: BrokerId, n: Node, t: Task, msgs: set<Message>): Cluster {
    c.(nodes := c.nodes[b := n], tasks := c.tasks[b := t], net := c.net + msgs,
       ballots := Note(c.ballots, b, n.disk))
  }

  predicate Member(c: Cluster, b: BrokerId) {
    b in c.nodes && b in c.tasks
  }

  function Peers(c: Cluster, b: BrokerId): set<BrokerId> {
    c.nodes.Keys - {b}
  }

  function VoteRequests(b: BrokerId, term: u32, peers: set<BrokerId>): set<Message> {
    set p | p in peers :: VoteRequest(b, p, term)
  }

  function Heartbeats(b: BrokerId, term: u32, peers: set<BrokerId>): set<Message> {
    set p | p in peers :: Heartbeat(b, p, term)
  }

  /** start_election up to the point where it waits for its peers. */
  function StartsElection(c: Cluster, b: BrokerId): Cluster
    requires Member(c, b)
  {
    var n := BeginElection(c.nodes[b], b);
    var started := Advance(c, b, n, Electing(n.term, Peers(c, b), 1, {}), VoteRequests(b, n.term, Peers(c, b)));
    started.(wrapped := c.wrapped || n.term <= c.nodes[b].term)
  }

  function VotesCounted(c: Cluster, b: BrokerId): Cluster
    requires Member(c, b) && c.tasks[b].Electing?
  {
    var t := c.tasks[b];
    var n := FinishElection(c.nodes[b], b, t.asked, t.votes, |c.nodes|);
    var done := Advance(c, b, n, Idle, {});
    if n.role == Leader then done.(elected := c.elected + {(n.term, b)}) else done
  }

  function VoteRequestReceived(c: Cluster, m: Message): Cluster
    requires m.VoteRequest? && Member(c, m.to)
  {
    var (n, reply) := OnRequestVote(c.nodes[m.to], m.from, m.term);
    Advance(c, m.to, n, c.tasks[m.to], {VoteResponse(m.to, m.from, m.term, reply)})
  }

  function VoteResponseReceived(c: Cluster, m: Message): Cluster
    requires m.VoteResponse? && Member(c, m.to) && c.tasks[m.to].Electing?
  {
    var t := c.tasks[m.to];
    var (n, counts) := OnVoteReply(c.nodes[m.to], t.asked, m.vote);
    var left := t.waiting - {m.from};
    var t' := if counts then Electing(t.asked, left, t.votes + 1, t.counted + {m.from})
              else t.(waiting := left);
    Advance(c, m.to, n, t', {})
  }

  function HeartbeatReceived(c: Cluster, m: Message): Cluster
    requires m.Heartbeat? && Member(c, m.to)
  {
    var (n, reply) := OnHeartbeat(c.nodes[m.to], m.from, m.term);
    Advance(c, m.to, n, c.tasks[m.to], {HeartbeatResponse(m.to, m.from, reply)})
  }

  function HeartbeatResponseReceived(c: Cluster, m: Message): Cluster
    requires m.HeartbeatResponse? && Member(c, m.to) && c.tasks[m.to].Beating?
  {
    var t := c.tasks[m.to];
    Advance(c, m.to, OnHeartbeatReply(c.nodes[m.to], m.beat), Beating(t.waiting - {m.from}), {})
  }

  predicate Waits(c: Cluster, b: BrokerId, peer: BrokerId) {
    Member(c, b) && match c.tasks[b]
      case Beating(waiting) => peer in waiting
      case Electing(_, waiting, _, _) => peer in waiting
      case _ => false
  }

  predicate Enabled(c: Cluster, s: Step) {
    match s
    case ReadRole(b) => Member(c, b) && c.tasks[b].Idle?
    case TimeOut(b) => Member(c, b) && c.tasks[b].SawOther?
    case WaitLonger(b) => Member(c, b) && c.tasks[b].SawOther?
    case ReceiveVoteRequest(m) => m in c.net && m.VoteRequest? && Member(c, m.to)
    case ReceiveVoteResponse(m) =>
      m in c.net && m.VoteResponse? && Waits(c, m.to, m.from)
      && c.tasks[m.to].Electing? && m.asked == c.tasks[m.to].asked
    case CallFails(b, peer) => Waits(c, b, peer)
    case CountVotes(b) => Member(c, b) && c.tasks[b].Electing? && c.tasks[b].waiting == {}
    case ReadTermAndBeat(b) => Member(c, b) && c.tasks[b].SawLeader?
    case ReceiveHeartbeat(m) => m in c.net && m.Heartbeat? && Member(c, m.to)
    case ReceiveHeartbeatResponse(m) =>
      m in c.net && m.HeartbeatResponse? && Waits(c, m.to, m.from) && c.tasks[m.to].Beating?
    case BeatsDone(b) => Member(c, b) && c.tasks[b].Beating? && c.tasks[b].waiting == {}
    case Crash(b) => Member(c, b)
  }

  function Next(c: Cluster, s: Step): Cluster {
    if !Enabled(c, s) then c else
    match s
    case ReadRole(b) =>
      c.(tasks := c.tasks[b := if c.nodes[b].role == Leader then SawLeader else SawOther])
    case TimeOut(b) => StartsElection(c, b)
    case WaitLonger(b) => c.(tasks := c.tasks[b := Idle])
    case ReceiveVoteRequest(m) => VoteRequestReceived(c, m)
    case ReceiveVoteResponse(m) => VoteResponseReceived(c, m)
    case CallFails(b, peer) =>
      var t := c.tasks[b];
      c.(tasks := c.tasks[b := t.(waiting := t.waiting - {peer})])
    case CountVotes(b) => VotesCounted(c, b)
    case ReadTermAndBeat(b) =>
      Advance(c, b, c.nodes[b], Beating(Peers(c, b)), Heartbeats(b, c.nodes[b].term, Peers(c, b)))
    case ReceiveHeartbeat(m) => HeartbeatReceived(c, m)
    case ReceiveHeartbeatResponse(m) => HeartbeatResponseReceived(c, m)
    case BeatsDone(b) => c.(tasks := c.tasks[b := Idle])
    case Crash(b) => c.(nodes := c.nodes[b := Restart(c.nodes[b].disk)], tasks := c.tasks[b := Idle])
  }

  /** All brokers start from whatever raft_state files they have. */
  function Boot(disks: map<BrokerId, RaftState>): Cluster {
    Cluster(map b | b in disks :: Restart(disks[b]), map b | b in disks :: Idle, {},
            map b: BrokerId, t: u32 | b in disks && t == disks[b].term && 0 <= disks[b].votedFor < TWO_32
              :: (b, t) := disks[b].votedFor,
            {}, false)
  }

  /** The files name a broker or nobody. */
  predicate Bootable(disks: map<BrokerId, RaftState>) {
    forall b <- disks :: disks[b].votedFor == NOBODY || 0 <= disks[b].votedFor < TWO_32
  }

  // ---- The invariant ----

  /** b's vote for the term is on record and is for cand. */
  predicate Voted(ballots: Ballots, b: BrokerId, term: u32, cand: BrokerId) {
    (b, term) in ballots && ballots[(b, term)] == cand
  }

  predicate NoVoteYet(ballots: Ballots, b: BrokerId, term: u32) {
    (b, term) !in ballots
  }

  predicate NodeOk(ballots: Ballots, elected: set<(u32, BrokerId)>, b: BrokerId, n: Node) {
    && Durable(n)
    && (n.votedFor == NOBODY || (0 <= n.votedFor < TWO_32 && Voted(ballots, b, n.term, n.votedFor)))
    && (n.votedFor == NOBODY ==> NoVoteYet(ballots, b, n.term))
    && (forall t: u32 :: n.term < t ==> NoVoteYet(ballots, b, t))
    && (n.role == Leader ==> (n.term, b) in elected)
  }

  /** The votes of an election under way are those of the broker itself and of peers it no longer waits for. */
  predicate TaskOk(ballots: Ballots, brokers: set<BrokerId>, b: BrokerId, t: Task) {
    t.Electing? ==>
      && t.votes == 1 + |t.counted|
      && t.counted <= brokers - {b} - t.waiting
      && t.waiting <= brokers - {b}
      && Voted(ballots, b, t.asked, b)
      && forall p <- t.counted :: Voted(ballots, p, t.asked, b)
  }

  predicate MessageOk(ballots: Ballots, m: Message) {
    m.VoteResponse? && m.vote.granted && m.vote.term == m.asked ==> Voted(ballots, m.from, m.asked, m.to)
  }

  /** The brokers whose recorded vote for the term is cand. */
  function Backers(ballots: Ballots, brokers: set<BrokerId>, term: u32, cand: BrokerId): set<BrokerId> {
    set b | b in brokers && Voted(ballots, b, term, cand)
  }

  predicate Backed(ballots: Ballots, brokers: set<BrokerId>, e: (u32, BrokerId)) {
    e.1 in brokers && |Backers(ballots, brokers, e.0, e.1)| >= Majority(|brokers|)
  }

  predicate Inv(c: Cluster) {
    && c.tasks.Keys == c.nodes.Keys
    && (forall b <- c.nodes :: NodeOk(c.ballots, c.elected, b, c.nodes[b]))
    && (forall b <- c.tasks :: TaskOk(c.ballots, c.nodes.Keys, b, c.tasks[b]))
    && (forall m <- c.net :: MessageOk(c.ballots, m))
    && (forall e <- c.elected :: Backed(c.ballots, c.nodes.Keys, e))
  }

  predicate Extends(p: Ballots, q: Ballots) {
    forall k <- p :: k in q && q[k] == p[k]
  }

  predicate TermsNotBack(c: Cluster, d: Cluster) {
    forall b <- c.nodes :: b in d.nodes && c.nodes[b].term <= d.nodes[b].term
  }

  /** Everything the past of c recorded is still recorded, unchanged, in d. */
  predicate Remembers(c: Cluster, d: Cluster) {
    && d.nodes.Keys == c.nodes.Keys
    && c.elected <= d.elected
    && Extends(c.ballots, d.ballots)
    && TermsNotBack(c, d)
    && (c.wrapped ==> d.wrapped)
  }

  lemma BackedStays(p: Ballots, q: Ballots, brokers: set<BrokerId>, e: (u32, BrokerId))
    requires Extends(p, q) && Backed(p, brokers, e)
    ensures Backed(q, brokers, e)
  {
    SubsetSize(Backers(p, brokers, e.0, e.1), Backers(q, brokers, e.0, e.1));
  }

  lemma TaskStays(p: Ballots, q: Ballots, brokers: set<BrokerId>, b: BrokerId, t: Task)
    requires Extends(p, q) && TaskOk(p, brokers, b, t)
    ensures TaskOk(q, brokers, b, t)
  {
    if t.Electing? {
      assert (b, t.asked) in p;
      forall x <- t.counted ensures Voted(q, x, t.asked, b) {
        assert (x, t.asked) in p;
      }
    }
  }

  /** A block that keeps the broker's vote overwrites no recorded vote. */
  lemma NoteOk(p: Ballots, elected: set<(u32, BrokerId)>, b: BrokerId, n: Node, m: Node)
    requires NodeOk(p, elected, b, n) && Durable(m) && VoteKept(n, m)
    requires NoNewLeader(n, m) || (m.term, b) in elected
    requires m.votedFor == NOBODY || 0 <= m.votedFor < TWO_32
    ensures Extends(p, Note(p, b, m.disk))
    ensures NodeOk(Note(p, b, m.disk), elected, b, m)
  {
    assert NoVoteYet(p, b, m.term) || Voted(p, b, m.term, m.votedFor);
    forall t: u32 | m.term < t ensures NoVoteYet(Note(p, b, m.disk), b, t) {
      assert NoVoteYet(p, b, t);
    }
  }

  lemma OtherNodeStays(p: Ballots, elected: set<(u32, BrokerId)>, b: BrokerId, disk: RaftState, other: BrokerId,
      n: Node)
    requires NodeOk(p, elected, other, n) && other != b
    ensures NodeOk(Note(p, b, disk), elected, other, n)
  {
    forall t: u32 | n.term < t ensures NoVoteYet(Note(p, b, disk), other, t) {
      assert NoVoteYet(p, other, t);
    }
  }

  /** A block that keeps the broker's vote keeps the whole invariant. */
  lemma AdvanceOk(c: Cluster, b: BrokerId, n: Node, t: Task, msgs: set<Message>)
    requires Inv(c) && Member(c, b)
    requires Durable(n) && VoteKept(c.nodes[b], n) && NoNewLeader(c.nodes[b], n)
    requires n.votedFor == NOBODY || 0 <= n.votedFor < TWO_32
    requires TaskOk(Note(c.ballots, b, n.disk), c.nodes.Keys, b, t)
    requires forall m <- msgs :: MessageOk(Note(c.ballots, b, n.disk), m)
    ensures Inv(Advance(c, b, n, t, msgs)) && Remembers(c, Advance(c, b, n, t, msgs))
  {
    var d := Advance(c, b, n, t, msgs);
    NoteOk(c.ballots, c.elected, b, c.nodes[b], n);
    hide NodeOk, TaskOk, Note, Durable, VoteKept, NoNewLeader, Backed;
    assert d.nodes.Keys == c.nodes.Keys;
    forall p <- d.nodes ensures NodeOk(d.ballots, d.elected, p, d.nodes[p]) {
      if p != b {
        OtherNodeStays(c.ballots, c.elected, b, n.disk, p, c.nodes[p]);
      }
    }
    forall p <- d.tasks ensures TaskOk(d.ballots, d.nodes.Keys, p, d.tasks[p]) {
      if p != b {
        TaskStays(c.ballots, d.ballots, c.nodes.Keys, p, c.tasks[p]);
      }
    }
    forall e <- d.elected ensures Backed(d.ballots, d.nodes.Keys, e) {
      BackedStays(c.ballots, d.ballots, c.nodes.Keys, e);
    }
    assert TermsNotBack(c, d) by { TermKept(c, b, n, t, msgs); }
    forall m <- d.net ensures MessageOk(d.ballots, m) {
      if m !in msgs {
        MessageStays(c.ballots, d.ballots, m);
      }
    }
  }

  lemma TermKept(c: Cluster, b: BrokerId, n: Node, t: Task, msgs: set<Message>)
    requires Member(c, b) && VoteKept(c.nodes[b], n)
    ensures TermsNotBack(c, Advance(c, b, n, t, msgs))
  {
  }

  lemma MessageStays(p: Ballots, q: Ballots, m: Message)
    requires Extends(p, q) && MessageOk(p, m)
    ensures MessageOk(q, m)
  {
  }

  /** Moving only the background thread keeps the invariant. */
  lemma TaskMoves(c: Cluster, b: BrokerId, t: Task)
    requires Inv(c) && Member(c, b) && TaskOk(c.ballots, c.nodes.Keys, b, t)
    ensures var d := c.(tasks := c.tasks[b := t]); Inv(d) && Remembers(c, d)
  {
    hide NodeOk, TaskOk, Backed, MessageOk;
  }

  lemma StartElectionOk(c: Cluster, b: BrokerId)
    requires Inv(c) && Member(c, b) && !StartsElection(c, b).wrapped
    ensures Inv(StartsElection(c, b)) && Remembers(c, StartsElection(c, b))
  {
    var n := BeginElection(c.nodes[b], b);
    var t := Electing(n.term, Peers(c, b), 1, {});
    var msgs := VoteRequests(b, n.term, Peers(c, b));
    AdvanceOk(c, b, n, t, msgs);
    assert StartsElection(c, b) == Advance(c, b, n, t, msgs);
  }

  lemma VoteRequestOk(c: Cluster, m: Message)
    requires Inv(c) && m.VoteRequest? && Member(c, m.to)
    ensures Inv(VoteRequestReceived(c, m)) && Remembers(c, VoteRequestReceived(c, m))
  {
    var b := m.to;
    var (n, reply) := OnRequestVote(c.nodes[b], m.from, m.term);
    RequestVoteKeepsVote(c.nodes[b], m.from, m.term);
    NoteOk(c.ballots, c.elected, b, c.nodes[b], n);
    TaskStays(c.ballots, Note(c.ballots, b, n.disk), c.nodes.Keys, b, c.tasks[b]);
    AdvanceOk(c, b, n, c.tasks[b], {VoteResponse(b, m.from, m.term, reply)});
  }

  lemma VoteReplyKeepsVote(n: Node, asked: u32, reply: VoteReply)
    requires Durable(n)
    ensures var (m, counts) := OnVoteReply(n, asked, reply);
            Durable(m) && VoteKept(n, m) && NoNewLeader(n, m)
            && (m.votedFor == n.votedFor || m.votedFor == NOBODY)
            && (counts ==> m == n && reply.granted && reply.term == asked)
  {
  }

  /** A granted reply from a peer still waited for is one more recorded vote. */
  lemma OneMoreVote(p: Ballots, brokers: set<BrokerId>, b: BrokerId, t: Task, peer: BrokerId)
    requires TaskOk(p, brokers, b, t) && t.Electing? && peer in t.waiting
    requires Voted(p, peer, t.asked, b)
    ensures TaskOk(p, brokers, b, Electing(t.asked, t.waiting - {peer}, t.votes + 1, t.counted + {peer}))
  {
  }

  lemma NoMoreVote(p: Ballots, brokers: set<BrokerId>, b: BrokerId, t: Task, peer: BrokerId)
    requires TaskOk(p, brokers, b, t) && t.Electing?
    ensures TaskOk(p, brokers, b, t.(waiting := t.waiting - {peer}))
  {
  }

  lemma VoteResponseOk(c: Cluster, m: Message)
    requires Inv(c) && Enabled(c, ReceiveVoteResponse(m))
    ensures Inv(VoteResponseReceived(c, m)) && Remembers(c, VoteResponseReceived(c, m))
  {
    var b, t := m.to, c.tasks[m.to];
    var (n, counts) := OnVoteReply(c.nodes[b], t.asked, m.vote);
    assert NodeOk(c.ballots, c.elected, b, c.nodes[b]);
    VoteReplyKeepsVote(c.nodes[b], t.asked, m.vote);
    NoteOk(c.ballots, c.elected, b, c.nodes[b], n);
    hide NodeOk, TaskOk, OnVoteReply, Advance;
    var t' := if counts then Electing(t.asked, t.waiting - {m.from}, t.votes + 1, t.counted + {m.from})
              else t.(waiting := t.waiting - {m.from});
    if counts {
      assert MessageOk(c.ballots, m);
      OneMoreVote(c.ballots, c.nodes.Keys, b, t, m.from);
    } else {
      NoMoreVote(c.ballots, c.nodes.Keys, b, t, m.from);
    }
    TaskStays(c.ballots, Note(c.ballots, b, n.disk), c.nodes.Keys, b, t');
    AdvanceOk(c, b, n, t', {});
  }

  /** The candidate itself and the peers it counted are all among its backers. */
  lemma CountedAreBackers(p: Ballots, brokers: set<BrokerId>, b: BrokerId, t: Task)
    requires TaskOk(p, brokers, b, t) && t.Electing? && b in brokers
    ensures t.votes <= |Backers(p, brokers, t.asked, b)|
  {
    SubsetSize(t.counted + {b}, Backers(p, brokers, t.asked, b));
  }

  /** Adding an election that is backed keeps the invariant, and the winner may lead. */
  lemma ElectOk(c: Cluster, b: BrokerId, n: Node)
    requires Inv(c) && Member(c, b) && Backed(c.ballots, c.nodes.Keys, (n.term, b))
    requires n == c.nodes[b].(role := Leader, leaderId := b)
    ensures var d := c.(nodes := c.nodes[b := n], elected := c.elected + {(n.term, b)});
            Inv(d) && Remembers(c, d)
  {
    hide TaskOk, Backed, MessageOk;
    var d := c.(nodes := c.nodes[b := n], elected := c.elected + {(n.term, b)});
    assert d.nodes.Keys == c.nodes.Keys;
    forall p <- d.nodes ensures NodeOk(d.ballots, d.elected, p, d.nodes[p]) {
      assert NodeOk(c.ballots, c.elected, p, c.nodes[p]);
    }
  }

  lemma NoteAgain(p: Ballots, elected: set<(u32, BrokerId)>, b: BrokerId, n: Node)
    requires NodeOk(p, elected, b, n)
    ensures Note(p, b, n.disk) == p
  {
  }

  lemma CountVotesOk(c: Cluster, b: BrokerId)
    requires Inv(c) && Enabled(c, CountVotes(b))
    ensures Inv(VotesCounted(c, b)) && Remembers(c, VotesCounted(c, b))
  {
    var t, was := c.tasks[b], c.nodes[b];
    var n := FinishElection(was, b, t.asked, t.votes, |c.nodes|);
    NoteAgain(c.ballots, c.elected, b, was);
    assert NodeOk(c.ballots, c.elected, b, was) && TaskOk(c.ballots, c.nodes.Keys, b, t);
    assert n.disk == was.disk && |c.nodes| == |c.nodes.Keys|;
    CountedAreBackers(c.ballots, c.nodes.Keys, b, t);
    hide Inv, NodeOk, TaskOk, Remembers, Note, VotesCounted, Advance;
    PlainTask(c, b, Idle);
    var mid, d := c.(tasks := c.tasks[b := Idle]), VotesCounted(c, b);
    if was.role == Candidate && was.term == t.asked && t.votes >= Majority(|c.nodes|) {
      ElectOk(mid, b, n);
      VotesWon(c, b, n);
      RemembersTrans(c, mid, d);
    } else {
      VotesLost(c, b);
    }
  }

  lemma VotesWon(c: Cluster, b: BrokerId, n: Node)
    requires Member(c, b) && c.tasks[b].Electing? && Note(c.ballots, b, n.disk) == c.ballots
    requires var t := c.tasks[b]; n == FinishElection(c.nodes[b], b, t.asked, t.votes, |c.nodes|) && n.role == Leader
    ensures VotesCounted(c, b)
         == c.(tasks := c.tasks[b := Idle], nodes := c.nodes[b := n], elected := c.elected + {(n.term, b)})
  {
    hide Note, FinishElection;
  }

  lemma VotesLost(c: Cluster, b: BrokerId)
    requires Inv(c) && Enabled(c, CountVotes(b)) && Note(c.ballots, b, c.nodes[b].disk) == c.ballots
    requires var t := c.tasks[b]; FinishElection(c.nodes[b], b, t.asked, t.votes, |c.nodes|) == c.nodes[b]
    requires c.nodes[b].role == Leader ==> (c.nodes[b].term, b) in c.elected
    ensures VotesCounted(c, b) == c.(tasks := c.tasks[b := Idle])
  {
    hide Inv, Note;
    var d := VotesCounted(c, b);
    assert d.nodes == c.nodes && d.elected == c.elected && d.net == c.net;
  }

  lemma RemembersTrans(a: Cluster, b: Cluster, c: Cluster)
    requires Remembers(a, b) && Remembers(b, c)
    ensures Remembers(a, c)
  {
    assert forall k <- a.ballots :: k in b.ballots;
  }

  lemma HeartbeatOk(c: Cluster, m: Message)
    requires Inv(c) && m.Heartbeat? && Member(c, m.to)
    ensures Inv(HeartbeatReceived(c, m)) && Remembers(c, HeartbeatReceived(c, m))
  {
    var b := m.to;
    var (n, reply) := OnHeartbeat(c.nodes[b], m.from, m.term);
    HeartbeatKeepsVote(c.nodes[b], m.from, m.term);
    NoteOk(c.ballots, c.elected, b, c.nodes[b], n);
    TaskStays(c.ballots, Note(c.ballots, b, n.disk), c.nodes.Keys, b, c.tasks[b]);
    AdvanceOk(c, b, n, c.tasks[b], {HeartbeatResponse(b, m.from, reply)});
  }

  lemma HeartbeatReplyOk(c: Cluster, b: BrokerId, reply: HeartbeatReply, left: set<BrokerId>)
    requires Inv(c) && Member(c, b)
    ensures var d := Advance(c, b, OnHeartbeatReply(c.nodes[b], reply), Beating(left), {}); Inv(d) && Remembers(c, d)
  {
    assert NodeOk(c.ballots, c.elected, b, c.nodes[b]);
    AdvanceOk(c, b, OnHeartbeatReply(c.nodes[b], reply), Beating(left), {});
  }

  lemma BeatOk(c: Cluster, b: BrokerId)
    requires Inv(c) && Member(c, b)
    ensures var d := Advance(c, b, c.nodes[b], Beating(Peers(c, b)), Heartbeats(b, c.nodes[b].term, Peers(c, b)));
            Inv(d) && Remembers(c, d)
  {
    assert NodeOk(c.ballots, c.elected, b, c.nodes[b]);
    AdvanceOk(c, b, c.nodes[b], Beating(Peers(c, b)), Heartbeats(b, c.nodes[b].term, Peers(c, b)));
  }

  /** A crash is a block that records nothing new. */
  lemma CrashAdvances(c: Cluster, b: BrokerId)
    requires Member(c, b) && Note(c.ballots, b, c.nodes[b].disk) == c.ballots
    ensures Next(c, Crash(b)) == Advance(c, b, Restart(c.nodes[b].disk), Idle, {})
  {
    hide Note;
  }

  lemma CrashOk(c: Cluster, b: BrokerId)
    requires Inv(c) && Member(c, b)
    ensures var d := Next(c, Crash(b)); Inv(d) && Remembers(c, d)
  {
    var n := c.nodes[b];
    assert NodeOk(c.ballots, c.elected, b, n);
    NoteAgain(c.ballots, c.elected, b, n);
    AdvanceOk(c, b, Restart(n.disk), Idle, {});
    hide Next, Inv, Advance;
    CrashAdvances(c, b);
  }

  /** Every step keeps the invariant and everything recorded. */
  lemma StepOk(c: Cluster, s: Step)
    requires Inv(c) && !Next(c, s).wrapped
    ensures Inv(Next(c, s)) && Remembers(c, Next(c, s))
  {
    hide TaskOk, NodeOk, MessageOk, Backed, Advance, OnHeartbeatReply, StartsElection;
    if !Enabled(c, s) {
      return;
    }
    match s
    case ReadRole(b) => PlainTask(c, b, if c.nodes[b].role == Leader then SawLeader else SawOther);
    case TimeOut(b) => StartElectionOk(c, b);
    case WaitLonger(b) => PlainTask(c, b, Idle);
    case ReceiveVoteRequest(m) => VoteRequestOk(c, m);
    case ReceiveVoteResponse(m) => VoteResponseOk(c, m);
    case CallFails(b, peer) => CallFailsOk(c, b, peer);
    case CountVotes(b) => CountVotesOk(c, b);
    case ReadTermAndBeat(b) => BeatOk(c, b);
    case ReceiveHeartbeat(m) => HeartbeatOk(c, m);
    case ReceiveHeartbeatResponse(m) => HeartbeatReplyOk(c, m.to, m.beat, c.tasks[m.to].waiting - {m.from});
    case BeatsDone(b) => PlainTask(c, b, Idle);
    case Crash(b) => CrashOk(c, b);
  }

  lemma PlainTask(c: Cluster, b: BrokerId, t: Task)
    requires Inv(c) && Member(c, b) && !t.Electing?
    ensures var d := c.(tasks := c.tasks[b := t]); Inv(d) && Remembers(c, d)
  {
    TaskMoves(c, b, t);
  }

  lemma CallFailsOk(c: Cluster, b: BrokerId, peer: BrokerId)
    requires Inv(c) && Waits(c, b, peer)
    ensures var d := c.(tasks := c.tasks[b := c.tasks[b].(waiting := c.tasks[b].waiting - {peer})]);
            Inv(d) && Remembers(c, d)
  {
    var t := c.tasks[b];
    if t.Electing? {
      NoMoreVote(c.ballots, c.nodes.Keys, b, t, peer);
    }
    TaskMoves(c, b, t.(waiting := t.waiting - {peer}));
  }

  // ---- Over whole runs ----

  /** The state after the first k steps. */
  function At(disks: map<BrokerId, RaftState>, steps: seq<Step>, k: nat): Cluster
    requires k <= |steps|
  {
    Run(Next, Boot(disks), steps[..k])
  }

  lemma AtNext(disks: map<BrokerId, RaftState>, steps: seq<Step>, k: nat)
    requires k < |steps|
    ensures At(disks, steps, k + 1) == Next(At(disks, steps, k), steps[k])
  {
    RunStep(Next, Boot(disks), steps, k);
  }

  lemma BootOk(disks: map<BrokerId, RaftState>)
    requires Bootable(disks)
    ensures Inv(Boot(disks))
  {
    var c := Boot(disks);
    forall b <- c.nodes ensures NodeOk(c.ballots, c.elected, b, c.nodes[b]) {
      assert disks[b].votedFor == NOBODY || 0 <= disks[b].votedFor < TWO_32;
    }
  }

  /** The step starts an election at the last term, so that the counter goes back to zero. */
  predicate WrapsTerm(c: Cluster, s: Step) {
    s.TimeOut? && Enabled(c, s) && c.nodes[s.b].term == TWO_32 - 1
  }

  lemma NextWraps(c: Cluster, s: Step)
    ensures Next(c, s).wrapped <==> c.wrapped || WrapsTerm(c, s)
  {
    hide Note, OnRequestVote, OnVoteReply, OnHeartbeat, OnHeartbeatReply, FinishElection, Waits;
  }

  /** A term counter has wrapped exactly when some step so far started an election at the last term. */
  lemma {:induction false} WrappedMeans(disks: map<BrokerId, RaftState>, steps: seq<Step>, k: nat)
    requires k <= |steps|
    ensures At(disks, steps, k).wrapped <==> exists i :: 0 <= i < k && WrapsTerm(At(disks, steps, i), steps[i])
  {
    hide Next, WrapsTerm;
    if k > 0 {
      WrappedMeans(disks, steps, k - 1);
      AtNext(disks, steps, k - 1);
      NextWraps(At(disks, steps, k - 1), steps[k - 1]);
    }
  }

  lemma WrapStays(disks: map<BrokerId, RaftState>, steps: seq<Step>, j: nat, k: nat)
    requires j <= k <= |steps| && At(disks, steps, j).wrapped
    ensures At(disks, steps, k).wrapped
  {
    hide Run, WrapsTerm;
    WrappedMeans(disks, steps, j);
    WrappedMeans(disks, steps, k);
  }

  /**
   * Between any two moments of a run in which no term counter wraps: terms do
   * not go back, no recorded vote changes, no election is forgotten, and the
   * invariant holds at both.
   */
  lemma {:induction false} PastIsKept(disks: map<BrokerId, RaftState>, steps: seq<Step>, j: nat, k: nat)
    requires Bootable(disks) && j <= k <= |steps| && !At(disks, steps, k).wrapped
    ensures Inv(At(disks, steps, j)) && Inv(At(disks, steps, k))
    ensures Remembers(At(disks, steps, j), At(disks, steps, k)) && !At(disks, steps, j).wrapped
    ensures At(disks, steps, k).nodes.Keys == disks.Keys
    decreases k
  {
    hide Inv, Next, Extends, TermsNotBack;
    if k == 0 {
      BootOk(disks);
      RemembersSelf(At(disks, steps, 0));
      return;
    }
    var c := At(disks, steps, k - 1);
    if c.wrapped {
      WrapStays(disks, steps, k - 1, k);
    }
    AtNext(disks, steps, k - 1);
    PastIsKept(disks, steps, if j < k then j else k - 1, k - 1);
    StepOk(c, steps[k - 1]);
    if j < k {
      RemembersTrans(At(disks, steps, j), c, At(disks, steps, k));
    } else {
      RemembersSelf(At(disks, steps, k));
    }
  }

  lemma RemembersSelf(c: Cluster)
    ensures Remembers(c, c)
  {
  }

  /** Between two states b became leader of the term. */
  predicate BecameLeader(c: Cluster, d: Cluster, b: BrokerId, term: u32) {
    b in c.nodes && b in d.nodes && c.nodes[b].role != Leader && d.nodes[b].role == Leader && d.nodes[b].term == term
  }

  /** The step makes b leader of the term. */
  predicate Wins(c: Cluster, s: Step, b: BrokerId, term: u32) {
    BecameLeader(c, Next(c, s), b, term)
  }

  /** A broker whose raft_state names cand for the term at some moment up to k. */
  predicate VotedOnDisk(disks: map<BrokerId, RaftState>, steps: seq<Step>, k: nat, b: BrokerId, term: u32,
      cand: BrokerId)
    requires k <= |steps|
  {
    exists i :: 0 <= i <= k && ShowsVote(At(disks, steps, i), b, term, cand)
  }

  predicate ShowsVote(c: Cluster, b: BrokerId, term: u32, cand: BrokerId) {
    b in c.nodes && c.nodes[b].disk == RaftState(term, cand)
  }

  /** Each recorded vote was at some moment what the file said. */
  lemma {:induction false} RecordedVoteWasOnDisk(
      disks: map<BrokerId, RaftState>, steps: seq<Step>, k: nat, b: BrokerId, term: u32, cand: BrokerId)
    requires Bootable(disks) && k <= |steps|
    requires Voted(At(disks, steps, k).ballots, b, term, cand)
    ensures VotedOnDisk(disks, steps, k, b, term, cand)
  {
    if k == 0 {
      assert ShowsVote(At(disks, steps, 0), b, term, cand);
      return;
    }
    var c, d := At(disks, steps, k - 1), At(disks, steps, k);
    AtNext(disks, steps, k - 1);
    if Voted(c.ballots, b, term, cand) {
      RecordedVoteWasOnDisk(disks, steps, k - 1, b, term, cand);
      var i :| 0 <= i <= k - 1 && ShowsVote(At(disks, steps, i), b, term, cand);
      assert ShowsVote(At(disks, steps, i), b, term, cand);
    } else {
      NewVoteShows(c, steps[k - 1], b, term, cand);
      assert ShowsVote(At(disks, steps, k), b, term, cand);
    }
  }

  lemma NewVoteShows(c: Cluster, s: Step, b: BrokerId, term: u32, cand: BrokerId)
    requires !Voted(c.ballots, b, term, cand) && Voted(Next(c, s).ballots, b, term, cand)
    ensures ShowsVote(Next(c, s), b, term, cand)
  {
    hide OnRequestVote, OnVoteReply, OnHeartbeat, OnHeartbeatReply, FinishElection, Waits, BeginElection, Restart;
  }

  /**
   * Election safety. However messages are delayed, repeated and lost and
   * whichever brokers crash, two executions of become_leader for one term are
   * by one broker; and each is backed by more than half of the brokers, whose raft_state
   * named that broker for that term before. It needs that no term counter wrapped.
   */
  lemma ElectionSafety(disks: map<BrokerId, RaftState>, steps: seq<Step>, i: nat, j: nat, a: BrokerId, b: BrokerId,
      term: u32)
    requires Bootable(disks) && i <= j < |steps| && !At(disks, steps, j + 1).wrapped
    requires BecameLeader(At(disks, steps, i), At(disks, steps, i + 1), a, term)
    requires BecameLeader(At(disks, steps, j), At(disks, steps, j + 1), b, term)
    ensures a == b
    ensures exists q: set<BrokerId> :: q <= disks.Keys && 2 * |q| > |disks|
              && forall p <- q :: VotedOnDisk(disks, steps, i, p, term, a)
  {
    hide Inv, Next, VotedOnDisk, Run, Extends, TermsNotBack;
    PastIsKept(disks, steps, i + 1, j + 1);
    PastIsKept(disks, steps, i, i + 1);
    PastIsKept(disks, steps, i, i);
    AtNext(disks, steps, i);
    AtNext(disks, steps, j);
    var c, d, e := At(disks, steps, i), At(disks, steps, i + 1), At(disks, steps, j + 1);
    assert Wins(c, steps[i], a, term) && Wins(At(disks, steps, j), steps[j], b, term);
    WinnerIsBacked(c, steps[i], a, term);
    WinnerIsElected(d, a);
    WinnerIsElected(e, b);
    ElectedOnce(e, (term, a), (term, b));
    BackersHaveFiles(disks, steps, i, a, term);
  }

  lemma BackersHaveFiles(disks: map<BrokerId, RaftState>, steps: seq<Step>, i: nat, a: BrokerId, term: u32)
    requires Bootable(disks) && i <= |steps| && At(disks, steps, i).nodes.Keys == disks.Keys
    requires var c := At(disks, steps, i); |Backers(c.ballots, c.nodes.Keys, term, a)| >= Majority(|disks.Keys|)
    ensures exists q: set<BrokerId> :: q <= disks.Keys && 2 * |q| > |disks|
              && forall p <- q :: VotedOnDisk(disks, steps, i, p, term, a)
  {
    hide VotedOnDisk, Run;
    var q := Backers(At(disks, steps, i).ballots, disks.Keys, term, a);
    forall p <- q ensures VotedOnDisk(disks, steps, i, p, term, a) {
      RecordedVoteWasOnDisk(disks, steps, i, p, term, a);
    }
    assert q <= disks.Keys && |disks.Keys| == |disks|;
  }

  lemma WinnerIsElected(c: Cluster, b: BrokerId)
    requires Inv(c) && b in c.nodes && c.nodes[b].role == Leader
    ensures (c.nodes[b].term, b) in c.elected
  {
    assert NodeOk(c.ballots, c.elected, b, c.nodes[b]);
  }

  /** Two majorities of one set of brokers share a broker, and that broker has one vote. */
  lemma ElectedOnce(c: Cluster, e: (u32, BrokerId), f: (u32, BrokerId))
    requires Inv(c) && e in c.elected && f in c.elected && e.0 == f.0
    ensures e == f
  {
    hide NodeOk, TaskOk, MessageOk;
    var all := c.nodes.Keys;
    assert Backed(c.ballots, all, e) && Backed(c.ballots, all, f);
    var p, q := Backers(c.ballots, all, e.0, e.1), Backers(c.ballots, all, f.0, f.1);
    SubsetSize(p + q, all);
    assert |p + q| + |p * q| == |p| + |q|;
    var x :| x in p * q;
  }

  /** A step that makes a broker leader finds a majority on record already. */
  lemma WinnerIsBacked(c: Cluster, s: Step, b: BrokerId, term: u32)
    requires Inv(c) && Wins(c, s, b, term)
    ensures |Backers(c.ballots, c.nodes.Keys, term, b)| >= Majority(|c.nodes.Keys|)
  {
    OnlyCountingWins(c, s, b, term);
    var t := c.tasks[b];
    assert TaskOk(c.ballots, c.nodes.Keys, b, t);
    CountedAreBackers(c.ballots, c.nodes.Keys, b, t);
    assert |c.nodes| == |c.nodes.Keys|;
  }

  lemma OnlyCountingWins(c: Cluster, s: Step, b: BrokerId, term: u32)
    requires Wins(c, s, b, term)
    ensures s == CountVotes(b) && Enabled(c, s) && c.tasks[b].asked == term && c.tasks[b].votes >= Majority(|c.nodes|)
  {
    hide Note, Waits;
  }

  /** At no moment of such a run do two brokers hold the leader role in the same term. */
  lemma OneLeaderAtATime(disks: map<BrokerId, RaftState>, steps: seq<Step>, a: BrokerId, b: BrokerId)
    requires Bootable(disks) && !At(disks, steps, |steps|).wrapped
    requires var c := At(disks, steps, |steps|);
             && a in c.nodes && b in c.nodes && c.nodes[a].role == Leader && c.nodes[b].role == Leader
             && c.nodes[a].term == c.nodes[b].term
    ensures a == b
  {
    hide Inv, Run;
    PastIsKept(disks, steps, 0, |steps|);
    var c := At(disks, steps, |steps|);
    WinnerIsElected(c, a);
    WinnerIsElected(c, b);
    ElectedOnce(c, (c.nodes[a].term, a), (c.nodes[b].term, b));
  }

  /** A vote a broker's file shows for a term is what it shows whenever it shows that term again, across crashes. */
  lemma VoteIsWriteOnce(disks: map<BrokerId, RaftState>, steps: seq<Step>, j: nat, k: nat, b: BrokerId)
    requires Bootable(disks) && j <= k <= |steps| && !At(disks, steps, k).wrapped && b in disks
    ensures b in At(disks, steps, j).nodes && b in At(disks, steps, k).nodes
    ensures var f, g := At(disks, steps, j).nodes[b].disk, At(disks, steps, k).nodes[b].disk;
            f.term <= g.term && (f.term == g.term && f.votedFor != NOBODY ==> g == f)
  {
    hide Run;
    PastIsKept(disks, steps, j, k);
    PastIsKept(disks, steps, j, j);
    var c, d := At(disks, steps, j), At(disks, steps, k);
    assert b in c.nodes && b in d.nodes;
    assert NodeOk(c.ballots, c.elected, b, c.nodes[b]) && NodeOk(d.ballots, d.elected, b, d.nodes[b]);
  }

  // ---- Runs too short to wrap a term counter ----

  function TermOf(m: Message): u32 {
    match m
    case VoteRequest(_, _, term) => term
    case VoteResponse(_, _, _, vote) => vote.term
    case Heartbeat(_, _, term) => term
    case HeartbeatResponse(_, _, beat) => beat.term
  }

  predicate NodeBelow(n: Node, t: nat) {
    n.term <= t && n.disk.term <= t
  }

  /** No broker, file or message has seen a term above t. */
  predicate TermsBelow(c: Cluster, t: nat) {
    (forall b <- c.nodes :: NodeBelow(c.nodes[b], t)) && (forall m <- c.net :: TermOf(m) <= t)
  }

  lemma AdvanceBelow(c: Cluster, b: BrokerId, n: Node, t: Task, msgs: set<Message>, bound: nat)
    requires TermsBelow(c, bound) && Member(c, b) && NodeBelow(n, bound + 1)
    requires forall m <- msgs :: TermOf(m) <= bound + 1
    ensures TermsBelow(Advance(c, b, n, t, msgs), bound + 1)
  {
    hide Note;
  }

  lemma StartBelow(c: Cluster, b: BrokerId, bound: nat)
    requires TermsBelow(c, bound) && bound < TWO_32 - 1 && Member(c, b)
    ensures TermsBelow(StartsElection(c, b), bound + 1) && StartsElection(c, b).wrapped == c.wrapped
  {
    hide Advance;
    assert NodeBelow(c.nodes[b], bound);
    var n := BeginElection(c.nodes[b], b);
    AdvanceBelow(c, b, n, Electing(n.term, Peers(c, b), 1, {}), VoteRequests(b, n.term, Peers(c, b)), bound);
    StartedElection(c, b);
  }

  /** A step raises the highest term by at most one, and below the last term it does not wrap. */
  lemma OneTermAStep(c: Cluster, s: Step, bound: nat)
    requires TermsBelow(c, bound) && bound < TWO_32 - 1 && !c.wrapped
    ensures TermsBelow(Next(c, s), bound + 1) && !Next(c, s).wrapped
  {
    if !Enabled(c, s) {
      return;
    }
    hide Note, Advance, StartsElection;
    match s
    case TimeOut(b) =>
      StartBelow(c, b, bound);
    case ReceiveVoteRequest(m) =>
      var (n, reply) := OnRequestVote(c.nodes[m.to], m.from, m.term);
      AdvanceBelow(c, m.to, n, c.tasks[m.to], {VoteResponse(m.to, m.from, m.term, reply)}, bound);
      AdvanceKeepsFlag(c, m.to, n, c.tasks[m.to], {VoteResponse(m.to, m.from, m.term, reply)});
    case ReceiveVoteResponse(m) =>
      var t := c.tasks[m.to];
      var (n, counts) := OnVoteReply(c.nodes[m.to], t.asked, m.vote);
      var left := t.waiting - {m.from};
      var t' := if counts then Electing(t.asked, left, t.votes + 1, t.counted + {m.from}) else t.(waiting := left);
      AdvanceBelow(c, m.to, n, t', {}, bound);
      AdvanceKeepsFlag(c, m.to, n, t', {});
    case CountVotes(b) =>
      var n := FinishElection(c.nodes[b], b, c.tasks[b].asked, c.tasks[b].votes, |c.nodes|);
      AdvanceBelow(c, b, n, Idle, {}, bound);
      AdvanceKeepsFlag(c, b, n, Idle, {});
    case ReadTermAndBeat(b) =>
      var msgs := Heartbeats(b, c.nodes[b].term, Peers(c, b));
      AdvanceBelow(c, b, c.nodes[b], Beating(Peers(c, b)), msgs, bound);
      AdvanceKeepsFlag(c, b, c.nodes[b], Beating(Peers(c, b)), msgs);
    case ReceiveHeartbeat(m) =>
      var (n, reply) := OnHeartbeat(c.nodes[m.to], m.from, m.term);
      AdvanceBelow(c, m.to, n, c.tasks[m.to], {HeartbeatResponse(m.to, m.from, reply)}, bound);
      AdvanceKeepsFlag(c, m.to, n, c.tasks[m.to], {HeartbeatResponse(m.to, m.from, reply)});
    case ReceiveHeartbeatResponse(m) =>
      var n := OnHeartbeatReply(c.nodes[m.to], m.beat);
      AdvanceBelow(c, m.to, n, Beating(c.tasks[m.to].waiting - {m.from}), {}, bound);
      AdvanceKeepsFlag(c, m.to, n, Beating(c.tasks[m.to].waiting - {m.from}), {});
    case Crash(b) =>
      assert NodeBelow(c.nodes[b], bound);
    case _ =>
  }

  lemma AdvanceKeepsFlag(c: Cluster, b: BrokerId, n: Node, t: Task, msgs: set<Message>)
    ensures Advance(c, b, n, t, msgs).wrapped == c.wrapped
  {
  }

  lemma StartedElection(c: Cluster, b: BrokerId)
    requires Member(c, b) && c.nodes[b].term < TWO_32 - 1
    ensures var n := BeginElection(c.nodes[b], b);
            var d := Advance(c, b, n, Electing(n.term, Peers(c, b), 1, {}), VoteRequests(b, n.term, Peers(c, b)));
            StartsElection(c, b).nodes == d.nodes && StartsElection(c, b).net == d.net
            && StartsElection(c, b).wrapped == c.wrapped
  {
    hide Note;
  }

  /**
   * When the files start at terms up to t and there are fewer steps than terms
   * left above t, no term counter wraps.
   */
  lemma {:induction false} ShortRunsDoNotWrap(disks: map<BrokerId, RaftState>, steps: seq<Step>, t: nat, k: nat)
    requires (forall b <- disks :: disks[b].term <= t) && k <= |steps| && t + k < TWO_32
    ensures !At(disks, steps, k).wrapped && TermsBelow(At(disks, steps, k), t + k)
  {
    hide Next;
    if k == 0 {
      assert TermsBelow(Boot(disks), t);
    } else {
      ShortRunsDoNotWrap(disks, steps, t, k - 1);
      AtNext(disks, steps, k - 1);
      OneTermAStep(At(disks, steps, k - 1), steps[k - 1], t + k - 1);
    }
  }

  /** Election safety in every run that has fewer steps than there are terms above those on file. */
  lemma ElectionSafetyInShortRuns(
      disks: map<BrokerId, RaftState>, steps: seq<Step>, t: nat, i: nat, j: nat, a: BrokerId, b: BrokerId, term: u32)
    requires Bootable(disks) && (forall x <- disks :: disks[x].term <= t) && t + |steps| < TWO_32
    requires i <= j < |steps|
    requires BecameLeader(At(disks, steps, i), At(disks, steps, i + 1), a, term)
    requires BecameLeader(At(disks, steps, j), At(disks, steps, j + 1), b, term)
    ensures a == b
    ensures exists q: set<BrokerId> :: q <= disks.Keys && 2 * |q| > |disks|
              && forall p <- q :: VotedOnDisk(disks, steps, i, p, term, a)
  {
    hide Run, BecameLeader, VotedOnDisk, TermsBelow;
    ShortRunsDoNotWrap(disks, steps, t, j + 1);
    ElectionSafety(disks, steps, i, j, a, b, term);
  }

  /** In such a run no two brokers hold the leader role in one term at once. */
  lemma OneLeaderInShortRuns(disks: map<BrokerId, RaftState>, steps: seq<Step>, t: nat, a: BrokerId, b: BrokerId)
    requires Bootable(disks) && (forall x <- disks :: disks[x].term <= t) && t + |steps| < TWO_32
    requires var c := At(disks, steps, |steps|);
             && a in c.nodes && b in c.nodes && c.nodes[a].role == Leader && c.nodes[b].role == Leader
             && c.nodes[a].term == c.nodes[b].term
    ensures a == b
  {
    hide Run, TermsBelow;
    ShortRunsDoNotWrap(disks, steps, t, |steps|);
    OneLeaderAtATime(disks, steps, a, b);
  }

  /**
   * In such a run a vote on file is what the file shows whenever it shows that
   * term again, and terms do not go back.
   */
  lemma VoteIsWriteOnceInShortRuns(
      disks: map<BrokerId, RaftState>, steps: seq<Step>, t: nat, j: nat, k: nat, b: BrokerId)
    requires Bootable(disks) && (forall x <- disks :: disks[x].term <= t) && t + |steps| < TWO_32
    requires j <= k <= |steps| && b in disks
    ensures b in At(disks, steps, j).nodes && b in At(disks, steps, k).nodes
    ensures var f, g := At(disks, steps, j).nodes[b].disk, At(disks, steps, k).nodes[b].disk;
            f.term <= g.term && (f.term == g.term && f.votedFor != NOBODY ==> g == f)
  {
    hide Run, TermsBelow;
    ShortRunsDoNotWrap(disks, steps, t, k);
    VoteIsWriteOnce(disks, steps, j, k, b);
  }
}

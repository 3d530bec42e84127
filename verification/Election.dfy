/**
 * One broker's part in the controller election: role, term, vote and the
 * raft_state file. Each function is what one block holding the controller's
 * mutex does to that state; the class performs those blocks in place.
 */
module Election {
  import opened Types

  type BrokerId = u32
  const NOBODY := -1

  datatype Role = Follower | Candidate | Leader

  /** Contents of the raft_state file. A missing file reads as (0, NOBODY). */
  datatype RaftState = RaftState(term: u32, votedFor: int)

  datatype Node = Node(role: Role, term: u32, votedFor: int, leaderId: int, disk: RaftState)

  datatype VoteReply = VoteReply(term: u32, granted: bool)
  datatype HeartbeatReply = HeartbeatReply(term: u32, ok: bool)

  function NextTerm(t: u32): u32 {
    (t + 1) % TWO_32
  }

  function Majority(brokerCount: nat): nat {
    brokerCount / 2 + 1
  }

  function StepDown(n: Node, newTerm: u32): Node {
    if newTerm > n.term
    then n.(role := Follower, term := newTerm, votedFor := NOBODY, disk := RaftState(newTerm, NOBODY))
    else n.(role := Follower)
  }

  function OnRequestVote(n: Node, candidate: BrokerId, term: u32): (Node, VoteReply) {
    var m := if term > n.term then StepDown(n, term) else n;
    if term == m.term && (m.votedFor == NOBODY || m.votedFor == candidate)
    then (m.(votedFor := candidate, disk := RaftState(m.term, candidate)), VoteReply(m.term, true))
    else (m, VoteReply(m.term, false))
  }

  /** Note that a heartbeat of the current term is believed whoever sends it. */
  function OnHeartbeat(n: Node, from: BrokerId, term: u32): (Node, HeartbeatReply) {
    if term < n.term then
      (n, HeartbeatReply(n.term, false))
    else
      var m := if term > n.term then n.(term := term, votedFor := NOBODY, disk := RaftState(term, NOBODY)) else n;
      (m.(role := Follower, leaderId := from), HeartbeatReply(term, true))
  }

  function BeginElection(n: Node, self: BrokerId): Node {
    var t := NextTerm(n.term);
    n.(role := Candidate, term := t, votedFor := self, disk := RaftState(t, self))
  }

  /** The block that handles one peer's answer, and whether it counts one more vote. */
  function OnVoteReply(n: Node, asked: u32, reply: VoteReply): (Node, bool) {
    if reply.term > n.term then (StepDown(n, reply.term), false) else (n, reply.term == asked && reply.granted)
  }

  function FinishElection(n: Node, self: BrokerId, asked: u32, votes: nat, brokerCount: nat): Node {
    if n.role == Candidate && n.term == asked && votes >= Majority(brokerCount)
    then n.(role := Leader, leaderId := self)
    else n
  }

  function OnHeartbeatReply(n: Node, reply: HeartbeatReply): Node {
    if reply.term > n.term then StepDown(n, reply.term) else n
  }

  /** A process that starts over with only the raft_state file. */
  function Restart(disk: RaftState): Node {
    Node(Follower, disk.term, disk.votedFor, NOBODY, disk)
  }

  /** Memory and raft_state agree on the term and the vote. */
  predicate Durable(n: Node) {
    n.disk == RaftState(n.term, n.votedFor)
  }

  /** Between n and m the term did not go back, and within one term a vote was not changed. */
  predicate VoteKept(n: Node, m: Node) {
    n.term < m.term || (n.term == m.term && (n.votedFor == NOBODY || m.votedFor == n.votedFor))
  }

  /** Who may be leader after a block: only a broker that already led that very term. */
  predicate NoNewLeader(n: Node, m: Node) {
    m.role == Leader ==> n.role == Leader && m.term == n.term
  }

  lemma RequestVoteKeepsVote(n: Node, candidate: BrokerId, term: u32)
    requires Durable(n)
    ensures var (m, reply) := OnRequestVote(n, candidate, term);
            Durable(m) && VoteKept(n, m) && NoNewLeader(n, m)
            && (reply.granted <==> term > n.term || (term == n.term && n.votedFor in {NOBODY, candidate}))
            && (reply.granted ==> m.votedFor == candidate) && (!reply.granted ==> m == n)
            && m.term == reply.term == Max(n.term, term) && m.leaderId == n.leaderId
            && m.role == if term > n.term then Follower else n.role
  {
  }

  lemma HeartbeatKeepsVote(n: Node, from: BrokerId, term: u32)
    requires Durable(n)
    ensures var (m, reply) := OnHeartbeat(n, from, term);
            Durable(m) && VoteKept(n, m) && NoNewLeader(n, m) && m.term == Max(n.term, term)
            && (term == n.term ==> m.votedFor == n.votedFor) && (term > n.term ==> m.votedFor == NOBODY)
            && (reply.ok <==> term >= n.term) && reply.term == m.term
            && (if reply.ok then m.role == Follower && m.leaderId == from else m == n)
  {
  }

  /** Whatever shows a broker a term above its own makes it a follower of that term, on file, with no vote yet. */
  predicate StoodDown(n: Node, m: Node, term: u32) {
    m == n.(role := Follower, term := term, votedFor := NOBODY, disk := RaftState(term, NOBODY))
  }

  /**
   * The answer of a peer: a higher term ends a candidacy or a leadership; a vote
   * counts exactly when it was granted for the term that was asked.
   */
  lemma ReplyDecides(n: Node, asked: u32, vote: VoteReply, beat: HeartbeatReply)
    ensures var (m, counts) := OnVoteReply(n, asked, vote);
            && (if vote.term > n.term then StoodDown(n, m, vote.term) else m == n)
            && (counts <==> vote.term <= n.term && vote.term == asked && vote.granted)
    ensures var m := OnHeartbeatReply(n, beat);
            if beat.term > n.term then StoodDown(n, m, beat.term) else m == n
  {
  }

  /** An election starts in the next term, in 32 bits, with the broker's own vote on file. */
  lemma ElectionStarts(n: Node, self: BrokerId)
    ensures var m := BeginElection(n, self);
            && m.role == Candidate && m.leaderId == n.leaderId && m.votedFor == self && Durable(m)
            && m.term == if n.term == 0xFFFF_FFFF then 0 else n.term + 1
  {
  }

  /** A candidate still in the asked term becomes leader exactly when more than half of the brokers voted for it. */
  lemma MoreThanHalfWins(n: Node, self: BrokerId, asked: u32, votes: nat, brokerCount: nat)
    ensures var m := FinishElection(n, self, asked, votes, brokerCount);
            if n.role == Candidate && n.term == asked && 2 * votes > brokerCount
            then m == n.(role := Leader, leaderId := self) else m == n
  {
  }

  /** The broker's copy of the election state, changed in place by the blocks of the controller. */
  class ClusterController {
    const self: BrokerId
    const brokerCount: nat
    var role: Role
    var term: u32
    var votedFor: int
    var leaderId: int
    /** The raft_state file. */
    var stateFile: RaftState

    function State(): Node
      reads this
    {
      Node(role, term, votedFor, leaderId, stateFile)
    }

    constructor (self: BrokerId, brokerCount: nat, stateFile: RaftState)
      ensures State() == Restart(stateFile) == Node(Follower, stateFile.term, stateFile.votedFor, -1, stateFile)
      ensures this.self == self && this.brokerCount == brokerCount
    {
      this.self, this.brokerCount, this.stateFile := self, brokerCount, stateFile;
      role, leaderId := Follower, NOBODY;
      term, votedFor := stateFile.term, stateFile.votedFor;
    }

    method PersistState()
      modifies this`stateFile
      ensures stateFile == RaftState(term, votedFor)
    {
      stateFile := RaftState(term, votedFor);
    }

    method DoStepDown(newTerm: u32)
      modifies this
      ensures State() == StepDown(old(State()), newTerm)
      ensures if newTerm > old(term) then StoodDown(old(State()), State(), newTerm)
              else State() == old(State()).(role := Follower)
    {
      if newTerm > term {
        term := newTerm;
        votedFor := NOBODY;
        PersistState();
      }
      role := Follower;
    }

    method HandleRequestVote(candidate: BrokerId, reqTerm: u32) returns (reply: VoteReply)
      modifies this
      ensures (State(), reply) == OnRequestVote(old(State()), candidate, reqTerm)
    {
      if reqTerm > term {
        DoStepDown(reqTerm);
      }
      var grant := false;
      if reqTerm == term && (votedFor == NOBODY || votedFor == candidate) {
        votedFor := candidate;
        PersistState();
        grant := true;
      }
      reply := VoteReply(term, grant);
    }

    method HandleControllerHeartbeat(from: BrokerId, reqTerm: u32) returns (reply: HeartbeatReply)
      modifies this
      ensures (State(), reply) == OnHeartbeat(old(State()), from, reqTerm)
    {
      if reqTerm < term {
        return HeartbeatReply(term, false);
      }
      if reqTerm > term {
        term := reqTerm;
        votedFor := NOBODY;
        PersistState();
      }
      role := Follower;
      leaderId := from;
      reply := HeartbeatReply(term, true);
    }

    /** The first block of an election; the rest of it runs without the mutex. */
    method StartElection() returns (asked: u32)
      modifies this
      ensures State() == BeginElection(old(State()), self) && asked == term
    {
      role := Candidate;
      term := NextTerm(term);
      votedFor := self;
      PersistState();
      asked := term;
    }

    method TakeVoteReply(asked: u32, reply: VoteReply, votes: nat) returns (votes': nat)
      modifies this
      ensures var (n, counted) := OnVoteReply(old(State()), asked, reply);
              State() == n && votes' == if counted then votes + 1 else votes
    {
      votes' := votes;
      if reply.term > term {
        DoStepDown(reply.term);
        return;
      }
      if reply.term == asked && reply.granted {
        votes' := votes + 1;
      }
    }

    method EndElection(asked: u32, votes: nat)
      modifies this
      ensures State() == FinishElection(old(State()), self, asked, votes, brokerCount)
      ensures old(role) == Candidate && term == asked ==> (role == Leader <==> 2 * votes > brokerCount)
    {
      if role != Candidate || term != asked {
        return;
      }
      if votes >= Majority(brokerCount) {
        role := Leader;
        leaderId := self;
      }
    }

    method TakeHeartbeatReply(reply: HeartbeatReply)
      modifies this
      ensures State() == OnHeartbeatReply(old(State()), reply)
    {
      if reply.term > term {
        DoStepDown(reply.term);
      }
    }
  }
}

/**
 * The vote and term state machine of src/distributed/replication.rs: one replica as a value,
 * the handlers as functions, and the class whose methods carry them out in place.
 */
module Replication {
  import opened Wrappers

  type Id = string

  const U64_MAX: nat := 0xffff_ffff_ffff_ffff

  datatype Role = Follower | Candidate | Leader

  datatype LogEntry = LogEntry(term: nat, index: nat, command: seq<bv8>)

  datatype Message =
    | RequestVote(term: nat, candidateId: Id, lastLogIndex: nat, lastLogTerm: nat)
    | VoteResponse(term: nat, granted: bool)
    | AppendEntries(term: nat, leaderId: Id, prevLogIndex: nat, prevLogTerm: nat,
                    entries: seq<LogEntry>, leaderCommit: nat)
    | AppendResponse(term: nat, success: bool, matchIndex: nat)

  datatype Replica = Replica(
    role: Role,
    term: nat,
    votedFor: Option<Id>,
    log: seq<LogEntry>,
    commitIndex: nat,
    leaderId: Option<Id>,
    nextIndex: map<Id, nat>,
    matchIndex: map<Id, nat>)

  const FRESH: Replica := Replica(Follower, 0, None, [], 0, None, map[], map[])

  function LastTerm(log: seq<LogEntry>): nat {
    if log == [] then 0 else log[|log| - 1].term
  }

  /** A message from a later term makes any replica a follower of that term with no vote cast. */
  function StepDown(r: Replica, term: nat): Replica {
    if term > r.term then r.(term := term, votedFor := None, role := Follower) else r
  }

  predicate LogUpToDate(r: Replica, lastLogIndex: nat, lastLogTerm: nat) {
    || lastLogTerm > LastTerm(r.log)
    || (lastLogTerm == LastTerm(r.log) && lastLogIndex >= |r.log|)
  }

  function OnRequestVote(r: Replica, m: Message): (Replica, Message)
    requires m.RequestVote?
  {
    var r1 := StepDown(r, m.term);
    if m.term < r1.term || (r1.votedFor.Some? && r1.votedFor != Some(m.candidateId)) then
      (r1, VoteResponse(r1.term, false))
    else if LogUpToDate(r1, m.lastLogIndex, m.lastLogTerm) then
      (r1.(votedFor := Some(m.candidateId)), VoteResponse(r1.term, true))
    else
      (r1, VoteResponse(r1.term, false))
  }

  /** The entries pushed by an append: those whose index lies beyond the end of the growing log. */
  function AppendMissing(log: seq<LogEntry>, entries: seq<LogEntry>): seq<LogEntry>
    decreases |entries|
  {
    if entries == [] then log
    else AppendMissing(if entries[0].index > |log| then log + [entries[0]] else log, entries[1..])
  }

  function OnAppendEntries(r: Replica, m: Message): (Replica, Message)
    requires m.AppendEntries?
  {
    if m.term < r.term then
      (r, AppendResponse(r.term, false, 0))
    else
      var r1 := StepDown(r, m.term).(role := Follower, leaderId := Some(m.leaderId));
      if m.prevLogIndex > |r1.log| then
        (r1, AppendResponse(r1.term, false, |r1.log|))
      else if m.prevLogIndex > 0 && r1.log[m.prevLogIndex - 1].term != m.prevLogTerm then
        (r1.(log := r1.log[..m.prevLogIndex - 1]), AppendResponse(r1.term, false, m.prevLogIndex - 1))
      else
        var log := AppendMissing(r1.log, m.entries);
        var commit := if m.leaderCommit <= r1.commitIndex then r1.commitIndex
                      else if m.leaderCommit <= |log| then m.leaderCommit
                      else |log|;
        (r1.(log := log, commitIndex := commit), AppendResponse(r1.term, true, |log|))
  }

  function OnMessage(r: Replica, m: Message): (Replica, Option<Message>) {
    match m
    case RequestVote(_, _, _, _) => var (r', reply) := OnRequestVote(r, m); (r', Some(reply))
    case AppendEntries(_, _, _, _, _, _) => var (r', reply) := OnAppendEntries(r, m); (r', Some(reply))
    case VoteResponse(term, _) => (StepDown(r, term), None)
    case AppendResponse(term, _, _) => (StepDown(r, term), None)
  }

  function StartElection(r: Replica, me: Id): (Replica, Message) {
    (r.(term := r.term + 1, role := Candidate, votedFor := Some(me)),
     RequestVote(r.term + 1, me, |r.log|, LastTerm(r.log)))
  }

  function SetAll(m: map<Id, nat>, peers: seq<Id>, index: nat): map<Id, nat>
    decreases |peers|
  {
    if peers == [] then m else SetAll(m[peers[0] := index], peers[1..], index)
  }

  function BecomeLeader(r: Replica, me: Id, peers: seq<Id>): Replica {
    r.(role := Leader,
       leaderId := Some(me),
       nextIndex := SetAll(r.nextIndex, peers, |r.log| + 1),
       matchIndex := SetAll(r.matchIndex, peers, 0))
  }

  function AppendCommand(r: Replica, command: seq<bv8>): (Replica, Result<nat>) {
    if r.role.Leader? then
      (r.(log := r.log + [LogEntry(r.term, |r.log| + 1, command)]), Ok(|r.log| + 1))
    else
      (r, Err)
  }

  /** `ReplicaSet`: one node's replica, changed in place by the messages it processes. */
  class ReplicaSet {
    const nodeId: Id
    const peers: seq<Id>
    var role: Role
    var term: nat
    var votedFor: Option<Id>
    var log: seq<LogEntry>
    var commitIndex: nat
    var leaderId: Option<Id>
    var nextIndex: map<Id, nat>
    var matchIndex: map<Id, nat>

    ghost function View(): Replica
      reads this
    {
      Replica(role, term, votedFor, log, commitIndex, leaderId, nextIndex, matchIndex)
    }

    constructor (nodeId: Id, peers: seq<Id>)
      ensures View() == FRESH && this.nodeId == nodeId && this.peers == peers
    {
      this.nodeId, this.peers := nodeId, peers;
      role, term, votedFor, log := Follower, 0, None, [];
      commitIndex, leaderId, nextIndex, matchIndex := 0, None, map[], map[];
    }

    method ProcessMessage(m: Message) returns (reply: Option<Message>)
      modifies this
      ensures (View(), reply) == OnMessage(old(View()), m)
    {
      match m
      case RequestVote(_, _, _, _) =>
        var answer := HandleRequestVote(m);
        reply := Some(answer);
      case AppendEntries(_, _, _, _, _, _) =>
        var answer := HandleAppendEntries(m);
        reply := Some(answer);
      case VoteResponse(t, _) =>
        ObserveTerm(t);
        reply := None;
      case AppendResponse(t, _, _) =>
        ObserveTerm(t);
        reply := None;
    }

    method ObserveTerm(t: nat)
      modifies this
      ensures View() == StepDown(old(View()), t)
    {
      if t > term {
        term := t;
        votedFor := None;
        role := Follower;
      }
    }

    method HandleRequestVote(m: Message) returns (reply: Message)
      requires m.RequestVote?
      modifies this
      ensures (View(), reply) == OnRequestVote(old(View()), m)
    {
      ObserveTerm(m.term);
      var granted := false;
      if !(m.term < term || (votedFor.Some? && votedFor != Some(m.candidateId))) {
        var ourLastTerm := LastTerm(log);
        var logOk := m.lastLogTerm > ourLastTerm || (m.lastLogTerm == ourLastTerm && m.lastLogIndex >= |log|);
        if logOk {
          votedFor := Some(m.candidateId);
          granted := true;
        }
      }
      reply := VoteResponse(term, granted);
    }

    method HandleAppendEntries(m: Message) returns (reply: Message)
      requires m.AppendEntries?
      modifies this
      ensures (View(), reply) == OnAppendEntries(old(View()), m)
    {
      if m.term < term {
        return AppendResponse(term, false, 0);
      }
      ObserveTerm(m.term);
      role := Follower;
      leaderId := Some(m.leaderId);
      if m.prevLogIndex > 0 {
        if m.prevLogIndex > |log| {
          return AppendResponse(term, false, |log|);
        }
        if log[m.prevLogIndex - 1].term != m.prevLogTerm {
          log := log[..m.prevLogIndex - 1];
          return AppendResponse(term, false, |log|);
        }
      }
      ghost var before := log;
      for i := 0 to |m.entries|
        invariant AppendMissing(log, m.entries[i..]) == AppendMissing(before, m.entries)
        invariant View() == StepDown(old(View()), m.term).(role := Follower, leaderId := Some(m.leaderId), log := log)
      {
        if m.entries[i].index > |log| {
          log := log + [m.entries[i]];
        }
      }
      if m.leaderCommit > commitIndex {
        commitIndex := if m.leaderCommit <= |log| then m.leaderCommit else |log|;
      }
      reply := AppendResponse(term, true, |log|);
    }

    /** The term is a 64-bit counter: an election past its last value overflows. */
    method BeginElection() returns (request: Message)
      requires term < U64_MAX
      modifies this
      ensures (View(), request) == StartElection(old(View()), nodeId)
    {
      term := term + 1;
      role := Candidate;
      votedFor := Some(nodeId);
      request := RequestVote(term, nodeId, |log|, LastTerm(log));
    }

    method TakeOffice()
      modifies this
      ensures View() == BecomeLeader(old(View()), nodeId, peers)
    {
      role := Leader;
      leaderId := Some(nodeId);
      var next: map<Id, nat>, matched: map<Id, nat> := nextIndex, matchIndex;
      for i := 0 to |peers|
        modifies {}
        invariant SetAll(next, peers[i..], |log| + 1) == SetAll(nextIndex, peers, |log| + 1)
        invariant SetAll(matched, peers[i..], 0) == SetAll(matchIndex, peers, 0)
      {
        next := next[peers[i] := |log| + 1];
        matched := matched[peers[i] := 0];
      }
      nextIndex, matchIndex := next, matched;
    }

    method Append(command: seq<bv8>) returns (index: Result<nat>)
      modifies this
      ensures (View(), index) == AppendCommand(old(View()), command)
    {
      if role != Leader {
        return Err;
      }
      log := log + [LogEntry(term, |log| + 1, command)];
      index := Ok(|log|);
    }
  }

  /**
   * What every replica step keeps: the term never falls, a vote cast in a term is never
   * taken back in it, and a leader is only ever kept, never made.
   */
  ghost predicate Steady(r: Replica, r': Replica) {
    && r.term <= r'.term
    && (r.term == r'.term && r.votedFor.Some? ==> r'.votedFor == r.votedFor)
    && (r'.role.Leader? ==> r.role.Leader? && r'.term == r.term)
  }

  /** A replica takes over the term of any message from a later one, as a follower, and no other term. */
  lemma MessageIsSteady(r: Replica, m: Message)
    ensures Steady(r, OnMessage(r, m).0)
    ensures m.term > r.term ==> OnMessage(r, m).0.term == m.term && OnMessage(r, m).0.role == Follower
    ensures m.term <= r.term ==> OnMessage(r, m).0.term == r.term
  {
  }

  /** Requests are answered in kind, responses are not answered, and each goes to its handler. */
  lemma MessageReplies(r: Replica, m: Message)
    ensures m.RequestVote? ==> OnMessage(r, m) == (OnRequestVote(r, m).0, Some(OnRequestVote(r, m).1))
    ensures m.AppendEntries? ==> OnMessage(r, m) == (OnAppendEntries(r, m).0, Some(OnAppendEntries(r, m).1))
    ensures m.VoteResponse? || m.AppendResponse? ==> OnMessage(r, m).1 == None
    ensures (m.VoteResponse? || m.AppendResponse?) && m.term <= r.term ==> OnMessage(r, m).0 == r
  {
  }

  /** A log is no better than one of length `index` whose last entry has term `term`: by last term, then by length. */
  predicate NoBetterThan(log: seq<LogEntry>, index: nat, term: nat) {
    |log| > 0 ==> var last := log[|log| - 1].term; last < term || (last == term && |log| <= index)
  }

  /**
   * A vote is granted exactly to a candidate of the current or a later term with no other vote in
   * its way and a log at least as good; it is then the vote the replica holds in its current term.
   */
  lemma GrantIsRecorded(r: Replica, m: Message)
    requires m.RequestVote?
    ensures var (r', reply) := OnRequestVote(r, m);
            && reply == VoteResponse(r'.term, reply.granted)
            && (reply.granted <==>
                  && (m.term > r.term || (m.term == r.term && (r.votedFor.None? || r.votedFor == Some(m.candidateId))))
                  && NoBetterThan(r.log, m.lastLogIndex, m.lastLogTerm))
            && (!reply.granted && m.term <= r.term ==> r' == r)
            && (reply.granted ==> r'.term == m.term && r'.votedFor == Some(m.candidateId))
  {
  }

  /** A new leader assumes nothing about its peers: it will send each the entry after its own last one. */
  lemma {:induction false} SetAllPeers(m: map<Id, nat>, peers: seq<Id>, index: nat)
    ensures var m' := SetAll(m, peers, index);
            && m'.Keys == m.Keys + (set p | p in peers)
            && (forall p :: p in peers ==> m'[p] == index)
            && (forall p :: p in m && p !in peers ==> m'[p] == m[p])
    decreases |peers|
  {
    if peers != [] {
      SetAllPeers(m[peers[0] := index], peers[1..], index);
      assert peers == [peers[0]] + peers[1..];
    }
  }

  /** Appending never rewrites: the old log stays a prefix, whatever terms the new entries carry. */
  lemma {:induction false} AppendOnlyExtends(log: seq<LogEntry>, entries: seq<LogEntry>)
    ensures log <= AppendMissing(log, entries)
    decreases |entries|
  {
    if entries != [] {
      AppendOnlyExtends(if entries[0].index > |log| then log + [entries[0]] else log, entries[1..]);
    }
  }

  /** The message names an entry the replica holds with another term, and its own term is current. */
  predicate Conflicts(r: Replica, m: Message) {
    && m.AppendEntries? && m.term >= r.term
    && 0 < m.prevLogIndex <= |r.log| && r.log[m.prevLogIndex - 1].term != m.prevLogTerm
  }

  /** The commit index stays within the log and never falls, and the entries it covers do not change. */
  ghost predicate KeepsCommitted(r: Replica, r': Replica) {
    && r.commitIndex <= r'.commitIndex <= |r'.log|
    && r.commitIndex <= |r.log| && r.log[..r.commitIndex] == r'.log[..r.commitIndex]
  }

  /**
   * A message keeps what is committed if and only if it is not a conflict at or below the commit
   * index: the handler truncates there without looking at how far the log is committed.
   */
  lemma CommittedExact(r: Replica, m: Message)
    requires r.commitIndex <= |r.log|
    ensures KeepsCommitted(r, OnMessage(r, m).0) <==> !(Conflicts(r, m) && m.prevLogIndex <= r.commitIndex)
  {
    if m.AppendEntries? {
      AppendOnlyExtends(r.log, m.entries);
    }
  }

  /** Two messages to a new replica: one commits an entry, the next, from a later term, removes it. */
  lemma CommittedEntryLost(leader: Id, other: Id)
    ensures var entry := LogEntry(1, 1, []);
            var r1 := OnMessage(FRESH, AppendEntries(1, leader, 0, 0, [entry], 1)).0;
            var r2 := OnMessage(r1, AppendEntries(2, other, 1, 2, [], 1)).0;
            r1.log == [entry] && r1.commitIndex == 1 && r2.log == [] && r2.commitIndex == 1
  {
    var entry := LogEntry(1, 1, []);
    assert [entry][1..] == [];
    assert AppendMissing([entry], []) == [entry];
    assert [] + [entry] == [entry];
    assert AppendMissing([], [entry]) == [entry];
  }

  /** A successful append reports the whole log, which holds the old one and the entry it was to follow. */
  lemma SuccessMatches(r: Replica, m: Message)
    requires m.AppendEntries?
    ensures var (r', reply) := OnAppendEntries(r, m);
            reply.AppendResponse? && (reply.success ==>
              && reply.matchIndex == |r'.log| && r.log <= r'.log && r'.leaderId == Some(m.leaderId) && r'.term == m.term
              && (m.prevLogIndex > 0 ==>
                m.prevLogIndex <= |r'.log| && r'.log[m.prevLogIndex - 1].term == m.prevLogTerm))
  {
    AppendOnlyExtends(r.log, m.entries);
  }

  /**
   * An append succeeds exactly when the message is current and the entry it follows is there; it
   * then moves the commit index to the leader's, as far as the log goes. When it fails on a
   * conflict the log is cut off before the conflicting entry, otherwise nothing is lost or added.
   */
  lemma AppendExact(r: Replica, m: Message)
    requires m.AppendEntries?
    ensures var (r', reply) := OnAppendEntries(r, m);
            && reply == AppendResponse(r'.term, reply.success, if m.term < r.term then 0 else |r'.log|)
            && (reply.success <==> m.term >= r.term && m.prevLogIndex <= |r.log| && !Conflicts(r, m))
            && (!reply.success ==> r'.commitIndex == r.commitIndex)
            && (!reply.success ==> r'.log == if Conflicts(r, m) then r.log[..m.prevLogIndex - 1] else r.log)
            && (reply.success && m.leaderCommit <= r.commitIndex ==> r'.commitIndex == r.commitIndex)
            && (reply.success && m.leaderCommit > r.commitIndex ==>
                  && r'.commitIndex <= m.leaderCommit && r'.commitIndex <= |r'.log|
                  && r'.commitIndex in {m.leaderCommit, |r'.log|})
            && (m.term < r.term ==> r' == r)
            && (m.term >= r.term ==> r'.role == Follower && r'.leaderId == Some(m.leaderId))
  {
    AppendOnlyExtends(r.log, m.entries);
  }

  /** Consecutive entries that start within the log or right after it end up in it, as far as they reach beyond it. */
  lemma {:induction false} AppendsAllNew(log: seq<LogEntry>, entries: seq<LogEntry>, start: nat)
    requires start <= |log| && forall i :: 0 <= i < |entries| ==> entries[i].index == start + i + 1
    ensures AppendMissing(log, entries) == if |log| - start <= |entries| then log + entries[|log| - start..] else log
    decreases |entries|
  {
    if entries != [] {
      var rest := entries[1..];
      forall i | 0 <= i < |rest| ensures rest[i].index == start + 1 + i + 1 {
        assert rest[i] == entries[i + 1];
      }
      if start < |log| {
        AppendsAllNew(log, rest, start + 1);
      } else {
        AppendsAllNew(log + [entries[0]], rest, start + 1);
        assert log + entries == log + [entries[0]] + rest;
      }
    }
  }

  /** A candidate stands in the next term with its own vote, and asks with its own last entry. */
  lemma ElectionStarts(r: Replica, me: Id)
    ensures var (r', m) := StartElection(r, me);
            && r' == r.(role := Candidate, term := m.term, votedFor := Some(me))
            && m.RequestVote? && m.term == r.term + 1 && m.candidateId == me && Described(r.log, m)
  {
  }

  /** The request gives the log's length and the term of its last entry, 0 for an empty log. */
  predicate Described(log: seq<LogEntry>, m: Message)
    requires m.RequestVote?
  {
    m.lastLogIndex == |log| && m.lastLogTerm == if |log| == 0 then 0 else log[|log| - 1].term
  }

  /** A new leader expects to send every peer the entry after its own last one and takes nothing for replicated. */
  lemma LeaderStarts(r: Replica, me: Id, peers: seq<Id>)
    ensures var r' := BecomeLeader(r, me, peers);
            && r' == r.(role := Leader, leaderId := Some(me), nextIndex := r'.nextIndex, matchIndex := r'.matchIndex)
            && forall p :: p in peers ==>
                 p in r'.nextIndex && r'.nextIndex[p] == |r.log| + 1 && p in r'.matchIndex && r'.matchIndex[p] == 0
  {
    SetAllPeers(r.nextIndex, peers, |r.log| + 1);
    SetAllPeers(r.matchIndex, peers, 0);
  }

  /** A leader's command becomes the last entry, of its term, at the index reported; nobody else appends. */
  lemma CommandIsAppended(r: Replica, command: seq<bv8>)
    ensures var (r', index) := AppendCommand(r, command);
            && (index.Ok? <==> r.role.Leader?) && (index.Err? ==> r' == r)
            && (index.Ok? ==> r' == r.(log := r'.log) && |r'.log| == index.value && r'.log[..|r.log|] == r.log
                              && |r'.log| == |r.log| + 1 && r'.log[|r.log|] == LogEntry(r.term, index.value, command))
  {
  }
}

/**
 * A cluster of replicas exchanging messages that may be lost, repeated and reordered.
 * `sent` keeps every vote message ever produced, so any of them can be delivered at any time,
 * any number of times, or never.
 */
module Elections {
  import opened Wrappers
  import opened Replication

  /** A vote request goes to everybody; a reply goes to one candidate. */
  datatype Packet = Broadcast(src: Id, msg: Message) | Reply(src: Id, dst: Id, msg: Message)

  datatype Cluster = Cluster(replicas: map<Id, Replica>, sent: set<Packet>)

  datatype Step =
    | Timeout(node: Id)
    | Deliver(node: Id, packet: Packet)
    | AppendTraffic(node: Id, msg: Message)
    | Client(node: Id, command: seq<bv8>)
    | Elect(node: Id, peers: seq<Id>, voters: set<Id>)

  ghost predicate Init(c: Cluster) {
    c.sent == {} && forall n :: n in c.replicas ==> c.replicas[n] == FRESH
  }

  /** `voter` has granted its vote of term `term` to `candidate`; a candidate grants its own by asking. */
  ghost predicate Granted(c: Cluster, voter: Id, term: nat, candidate: Id) {
    if voter == candidate then
      exists m :: Broadcast(candidate, m) in c.sent && m.RequestVote? && m.term == term
    else
      Reply(voter, candidate, VoteResponse(term, true)) in c.sent
  }

  ghost predicate Quorum(c: Cluster, voters: set<Id>, term: nat, candidate: Id) {
    && voters <= c.replicas.Keys
    && 2 * |voters| > |c.replicas|
    && forall v :: v in voters ==> Granted(c, v, term, candidate)
  }

  ghost predicate NextStep(c: Cluster, c': Cluster, s: Step) {
    s.node in c.replicas &&
    var n, r := s.node, c.replicas[s.node];
    match s
    case Timeout(_) =>
      && r.term < U64_MAX
      && var (r', m) := StartElection(r, n);
         c' == Cluster(c.replicas[n := r'], c.sent + {Broadcast(n, m)})
    case Deliver(_, p) =>
      && p in c.sent && p.src != n
      && (match p
          case Broadcast(src, m) =>
            && m.RequestVote?
            && var (r', reply) := OnRequestVote(r, m);
               c' == Cluster(c.replicas[n := r'], c.sent + {Reply(n, src, reply)})
          case Reply(_, dst, m) =>
            && dst == n && m.VoteResponse?
            && c' == Cluster(c.replicas[n := OnMessage(r, m).0], c.sent))
    case AppendTraffic(_, m) =>
      // any replication message at all, whoever made it up
      && (m.AppendEntries? || m.AppendResponse?)
      && c' == Cluster(c.replicas[n := OnMessage(r, m).0], c.sent)
    case Client(_, command) =>
      c' == Cluster(c.replicas[n := AppendCommand(r, command).0], c.sent)
    case Elect(_, peers, voters) =>
      && r.role.Candidate?
      && Quorum(c, voters, r.term, n)
      && c' == Cluster(c.replicas[n := BecomeLeader(r, n, peers)], c.sent)
  }

  ghost predicate Next(c: Cluster, c': Cluster) {
    exists s :: NextStep(c, c', s)
  }

  ghost predicate IsRun(run: seq<Cluster>) {
    && |run| > 0 && Init(run[0])
    && forall k :: 0 <= k < |run| - 1 ==> Next(run[k], run[k + 1])
  }

  // ---------- the invariant ----------

  /** Requests are made in the sender's own name. */
  ghost predicate HonestRequests(c: Cluster) {
    forall src, m :: Broadcast(src, m) in c.sent ==> m.RequestVote? && m.candidateId == src
  }

  /** Every vote granted is held by the voter until it moves to a later term. */
  ghost predicate VotesHeld(c: Cluster) {
    forall v, t: nat, w :: v in c.replicas && Granted(c, v, t, w) ==>
      && t <= c.replicas[v].term
      && (t == c.replicas[v].term ==> c.replicas[v].votedFor == Some(w))
  }

  ghost predicate OneVotePerTerm(c: Cluster) {
    forall v, t: nat, w, w' :: v in c.replicas && Granted(c, v, t, w) && Granted(c, v, t, w') ==> w == w'
  }

  ghost predicate LeadersElected(c: Cluster) {
    forall n :: n in c.replicas && c.replicas[n].role.Leader? ==>
      exists voters :: Quorum(c, voters, c.replicas[n].term, n)
  }

  ghost predicate Inv(c: Cluster) {
    HonestRequests(c) && VotesHeld(c) && OneVotePerTerm(c) && LeadersElected(c)
  }

  /** Replicas move steadily and no message is ever forgotten. */
  ghost predicate Grows(c: Cluster, c': Cluster) {
    && c.replicas.Keys == c'.replicas.Keys
    && c.sent <= c'.sent
    && forall n :: n in c.replicas ==> c.replicas[n].term <= c'.replicas[n].term
  }

  lemma NextGrows(c: Cluster, c': Cluster)
    requires Next(c, c')
    ensures Grows(c, c')
  {
    var s :| NextStep(c, c', s);
    var n, r' := s.node, c'.replicas[s.node];
    assert c'.replicas == c.replicas[n := r'];
    match s
    case Deliver(_, p) => MessageIsSteady(c.replicas[n], p.msg);
    case AppendTraffic(_, m) => MessageIsSteady(c.replicas[n], m);
    case _ =>
  }

  lemma GrowsTransitive(a: Cluster, b: Cluster, c: Cluster)
    requires Grows(a, b) && Grows(b, c)
    ensures Grows(a, c)
  {
    forall n | n in a.replicas ensures a.replicas[n].term <= c.replicas[n].term {
      assert n in b.replicas.Keys;
    }
  }

  lemma QuorumGrows(c: Cluster, c': Cluster, voters: set<Id>, term: nat, candidate: Id)
    requires Grows(c, c') && Quorum(c, voters, term, candidate)
    ensures Quorum(c', voters, term, candidate)
  {
    assert |c.replicas| == |c.replicas.Keys| == |c'.replicas.Keys| == |c'.replicas|;
    forall v | v in voters ensures Granted(c', v, term, candidate) {
      assert Granted(c, v, term, candidate);
    }
  }

  /** A step that adds no grant and moves one replica steadily keeps the invariant. */
  lemma SteadyStep(c: Cluster, c': Cluster, n: Id, r': Replica)
    requires Inv(c) && n in c.replicas && Steady(c.replicas[n], r')
    requires c' == Cluster(c.replicas[n := r'], c.sent)
    ensures Inv(c')
  {
    assert c'.replicas.Keys == c.replicas.Keys;
    assert forall v, t: nat, w :: Granted(c', v, t, w) == Granted(c, v, t, w);
    forall m | m in c'.replicas && c'.replicas[m].role.Leader?
      ensures exists voters :: Quorum(c', voters, c'.replicas[m].term, m)
    {
      assert c.replicas[m].role.Leader? && c.replicas[m].term == c'.replicas[m].term;
      var voters :| Quorum(c, voters, c.replicas[m].term, m);
      QuorumGrows(c, c', voters, c.replicas[m].term, m);
    }
  }

  /** A step that grants one vote, recorded by the voter, keeps the invariant. */
  lemma GrantingStep(c: Cluster, c': Cluster, n: Id, r': Replica, p: Packet, t: nat, w: Id)
    requires Inv(c) && HonestRequests(c') && n in c.replicas
    requires c' == Cluster(c.replicas[n := r'], c.sent + {p})
    requires Steady(c.replicas[n], r') && r'.term == t && r'.votedFor == Some(w)
    requires forall v, u: nat, x :: Granted(c', v, u, x) ==> Granted(c, v, u, x) || (v, u, x) == (n, t, w)
    ensures Inv(c')
  {
    assert c'.replicas.Keys == c.replicas.Keys;
    forall v, u: nat, x | v in c'.replicas && Granted(c', v, u, x)
      ensures u <= c'.replicas[v].term && (u == c'.replicas[v].term ==> c'.replicas[v].votedFor == Some(x))
    {
      assert Granted(c, v, u, x) || (v, u, x) == (n, t, w);
    }
    forall v, u: nat, x, x' | v in c'.replicas && Granted(c', v, u, x) && Granted(c', v, u, x')
      ensures x == x'
    {
      assert Granted(c, v, u, x) || (v, u, x) == (n, t, w);
      assert Granted(c, v, u, x') || (v, u, x') == (n, t, w);
    }
    forall m | m in c'.replicas && c'.replicas[m].role.Leader?
      ensures exists voters :: Quorum(c', voters, c'.replicas[m].term, m)
    {
      assert c.replicas[m].role.Leader? && c.replicas[m].term == c'.replicas[m].term;
      var voters :| Quorum(c, voters, c.replicas[m].term, m);
      QuorumGrows(c, c', voters, c.replicas[m].term, m);
    }
  }

  lemma TimeoutKeeps(c: Cluster, c': Cluster, n: Id)
    requires Inv(c) && NextStep(c, c', Timeout(n))
    ensures Inv(c')
  {
    var (r', m) := StartElection(c.replicas[n], n);
    GrantingStep(c, c', n, r', Broadcast(n, m), r'.term, n);
  }

  lemma VoteRequestKeeps(c: Cluster, c': Cluster, n: Id, p: Packet)
    requires Inv(c) && p.Broadcast? && NextStep(c, c', Deliver(n, p))
    ensures Inv(c')
  {
    var r := c.replicas[n];
    var (r', reply) := OnRequestVote(r, p.msg);
    MessageIsSteady(r, p.msg);
    GrantIsRecorded(r, p.msg);
    assert Broadcast(p.src, p.msg) in c.sent;
    if reply.granted {
      GrantingStep(c, c', n, r', Reply(n, p.src, reply), r'.term, p.src);
    } else {
      var mid := Cluster(c.replicas[n := r'], c.sent);
      SteadyStep(c, mid, n, r');
      assert forall v, t: nat, w :: Granted(c', v, t, w) == Granted(mid, v, t, w);
      forall m | m in c'.replicas && c'.replicas[m].role.Leader?
        ensures exists voters :: Quorum(c', voters, c'.replicas[m].term, m)
      {
        var voters :| Quorum(mid, voters, mid.replicas[m].term, m);
        QuorumGrows(mid, c', voters, mid.replicas[m].term, m);
      }
    }
  }

  lemma ElectKeeps(c: Cluster, c': Cluster, n: Id, peers: seq<Id>, voters: set<Id>)
    requires Inv(c) && NextStep(c, c', Elect(n, peers, voters))
    ensures Inv(c')
  {
    assert c'.replicas.Keys == c.replicas.Keys;
    assert forall v, t: nat, w :: Granted(c', v, t, w) == Granted(c, v, t, w);
    forall m | m in c'.replicas && c'.replicas[m].role.Leader?
      ensures exists vs :: Quorum(c', vs, c'.replicas[m].term, m)
    {
      var vs := voters;
      if m != n {
        vs :| Quorum(c, vs, c.replicas[m].term, m);
      }
      QuorumGrows(c, c', vs, c.replicas[m].term, m);
    }
  }

  lemma NextKeeps(c: Cluster, c': Cluster)
    requires Inv(c) && Next(c, c')
    ensures Inv(c')
  {
    var s :| NextStep(c, c', s);
    var r := c.replicas[s.node];
    match s
    case Timeout(n) => TimeoutKeeps(c, c', n);
    case Deliver(n, p) =>
      if p.Broadcast? {
        VoteRequestKeeps(c, c', n, p);
      } else {
        MessageIsSteady(r, p.msg);
        SteadyStep(c, c', n, OnMessage(r, p.msg).0);
      }
    case AppendTraffic(n, m) =>
      MessageIsSteady(r, m);
      SteadyStep(c, c', n, OnMessage(r, m).0);
    case Client(n, command) => SteadyStep(c, c', n, AppendCommand(r, command).0);
    case Elect(n, peers, voters) => ElectKeeps(c, c', n, peers, voters);
  }

  lemma {:induction false} RunInv(run: seq<Cluster>, k: nat)
    requires IsRun(run) && k < |run|
    ensures Inv(run[k])
  {
    if k > 0 {
      RunInv(run, k - 1);
      assert Next(run[k - 1], run[k - 1 + 1]);
      NextKeeps(run[k - 1], run[k]);
    }
  }

  /** Along every run terms never fall and messages are never forgotten. */
  lemma {:induction false} RunGrows(run: seq<Cluster>, j: nat, k: nat)
    requires IsRun(run) && j <= k < |run|
    ensures Grows(run[j], run[k])
    decreases k - j
  {
    if j < k {
      RunGrows(run, j, k - 1);
      assert Next(run[k - 1], run[k - 1 + 1]);
      NextGrows(run[k - 1], run[k]);
      GrowsTransitive(run[j], run[k - 1], run[k]);
    }
  }

  lemma SetsOverlap(a: set<Id>, b: set<Id>, all: set<Id>) returns (x: Id)
    requires a <= all && b <= all && |a| + |b| > |all|
    ensures x in a && x in b
  {
    assert |a + b| + |a * b| == |a| + |b|;
    assert |a + b| + |all - (a + b)| == |all| by { assert (a + b) + (all - (a + b)) == all; }
    assert a * b != {};
    x :| x in a * b;
  }

  /** Two quorums of one term name the same candidate. */
  lemma QuorumsAgree(c: Cluster, vs: set<Id>, ws: set<Id>, term: nat, a: Id, b: Id)
    requires OneVotePerTerm(c) && Quorum(c, vs, term, a) && Quorum(c, ws, term, b)
    ensures a == b
  {
    var v := SetsOverlap(vs, ws, c.replicas.Keys);
    assert Granted(c, v, term, a) && Granted(c, v, term, b);
  }

  /** Over any run, one node at most casts each term's vote of a given voter for one candidate. */
  lemma VoteOnce(run: seq<Cluster>, j: nat, k: nat, v: Id, term: nat, a: Id, b: Id)
    requires IsRun(run) && j <= k < |run| && v in run[j].replicas
    requires Granted(run[j], v, term, a) && Granted(run[k], v, term, b)
    ensures a == b
  {
    RunGrows(run, j, k);
    RunInv(run, k);
    assert Granted(run[k], v, term, a);
  }

  /**
   * Election safety: in a cluster of any size, over any run, no two nodes are ever leader in
   * the same term, at the same moment or at different ones.
   */
  lemma ElectionSafety(run: seq<Cluster>, j: nat, k: nat, a: Id, b: Id)
    requires IsRun(run) && j <= k < |run|
    requires a in run[j].replicas && run[j].replicas[a].role.Leader?
    requires b in run[k].replicas && run[k].replicas[b].role.Leader?
    requires run[j].replicas[a].term == run[k].replicas[b].term
    ensures a == b
  {
    var term := run[j].replicas[a].term;
    RunInv(run, j);
    RunInv(run, k);
    RunGrows(run, j, k);
    var vs :| Quorum(run[j], vs, term, a);
    var ws :| Quorum(run[k], ws, term, b);
    QuorumGrows(run[j], run[k], vs, term, a);
    QuorumsAgree(run[k], vs, ws, term, a, b);
  }

  // ---------- why the grants must be of the current term ----------

  /** The count the vote-response handler sketches: any grant received while a candidate, whatever its term. */
  ghost predicate LooseQuorum(c: Cluster, voters: set<Id>, candidate: Id) {
    && voters <= c.replicas.Keys
    && 2 * |voters| > |c.replicas|
    && forall v :: v in voters ==> exists t: nat :: Granted(c, v, t, candidate)
  }

  function Voted(i: Id, t: nat): Replica { FRESH.(term := t, votedFor := Some(i)) }

  function Standing(i: Id, t: nat): Replica { FRESH.(role := Candidate, term := t, votedFor := Some(i)) }

  function Asks(i: Id, t: nat): Packet { Broadcast(i, RequestVote(t, i, 0, 0)) }

  function Grants(v: Id, i: Id, t: nat): Packet { Reply(v, i, VoteResponse(t, true)) }

  function Three(a: Replica, b: Replica, c: Replica, sent: set<Packet>): (k: Cluster)
    ensures k.replicas.Keys == {"a", "b", "c"} && |k.replicas| == 3
  {
    var m := map["a" := a, "b" := b, "c" := c];
    assert m.Keys == {"a", "b", "c"} && |m| == |m.Keys|;
    Cluster(m, sent)
  }

  lemma OneStep(run: seq<Cluster>, c: Cluster, c': Cluster, s: Step) returns (run': seq<Cluster>)
    requires IsRun(run) && run[|run| - 1] == c && NextStep(c, c', s)
    ensures IsRun(run') && run'[|run'| - 1] == c'
  {
    run' := run + [c'];
    assert Next(run'[|run| - 1], run'[|run|]);
  }

  lemma FirstRequest() returns (run: seq<Cluster>)
    ensures IsRun(run)
    ensures run[|run| - 1] == Three(Standing("a", 1), FRESH, FRESH, {Asks("a", 1)})
  {
    var k0 := Three(FRESH, FRESH, FRESH, {});
    var k1 := Three(Standing("a", 1), FRESH, FRESH, {Asks("a", 1)});
    assert k1.replicas == k0.replicas["a" := Standing("a", 1)];
    run := OneStep([k0], k0, k1, Timeout("a"));
  }

  /** Both other nodes vote for "a" in term 1. */
  lemma FirstElection() returns (run: seq<Cluster>)
    ensures IsRun(run)
    ensures run[|run| - 1] == Three(Standing("a", 1), Voted("a", 1), Voted("a", 1),
                                    {Asks("a", 1), Grants("b", "a", 1), Grants("c", "a", 1)})
  {
    run := FirstRequest();
    var k1 := Three(Standing("a", 1), FRESH, FRESH, {Asks("a", 1)});
    var k2 := Three(Standing("a", 1), Voted("a", 1), FRESH, {Asks("a", 1), Grants("b", "a", 1)});
    var k3 := Three(Standing("a", 1), Voted("a", 1), Voted("a", 1),
                    {Asks("a", 1), Grants("b", "a", 1), Grants("c", "a", 1)});
    assert k2.replicas == k1.replicas["b" := Voted("a", 1)];
    run := OneStep(run, k1, k2, Deliver("b", Asks("a", 1)));
    assert k3.replicas == k2.replicas["c" := Voted("a", 1)];
    run := OneStep(run, k2, k3, Deliver("c", Asks("a", 1)));
  }

  /** "a" and "c" both stand in term 2, and "b" votes for "c". */
  lemma SecondElection() returns (run: seq<Cluster>)
    ensures IsRun(run)
    ensures run[|run| - 1] == Three(Standing("a", 2), Voted("c", 2), Standing("c", 2),
                                    {Asks("a", 1), Grants("b", "a", 1), Grants("c", "a", 1),
                                     Asks("a", 2), Asks("c", 2), Grants("b", "c", 2)})
  {
    run := FirstElection();
    var sent := {Asks("a", 1), Grants("b", "a", 1), Grants("c", "a", 1)};
    var k3 := Three(Standing("a", 1), Voted("a", 1), Voted("a", 1), sent);
    var k4 := Three(Standing("a", 2), Voted("a", 1), Voted("a", 1), sent + {Asks("a", 2)});
    var k5 := Three(Standing("a", 2), Voted("a", 1), Standing("c", 2), sent + {Asks("a", 2), Asks("c", 2)});
    var k6 := Three(Standing("a", 2), Voted("c", 2), Standing("c", 2),
                    sent + {Asks("a", 2), Asks("c", 2), Grants("b", "c", 2)});
    assert k4.replicas == k3.replicas["a" := Standing("a", 2)];
    run := OneStep(run, k3, k4, Timeout("a"));
    assert k5.replicas == k4.replicas["c" := Standing("c", 2)];
    run := OneStep(run, k4, k5, Timeout("c"));
    assert k6.replicas == k5.replicas["b" := Voted("c", 2)];
    run := OneStep(run, k5, k6, Deliver("b", Asks("c", 2)));
  }

  /**
   * Counting grants without comparing terms is unsafe: three nodes reach a state where one is
   * leader of term 2 while another is a candidate of term 2 holding a majority of old grants.
   */
  lemma StaleGrantsAreUnsafe() returns (run: seq<Cluster>)
    ensures IsRun(run)
    ensures var c := run[|run| - 1];
            && c.replicas.Keys == {"a", "b", "c"}
            && c.replicas["c"].role.Leader? && c.replicas["a"].role.Candidate?
            && c.replicas["c"].term == c.replicas["a"].term == 2
            && LooseQuorum(c, {"b", "c"}, "a")
  {
    run := SecondElection();
    var before := run[|run| - 1];
    var led := BecomeLeader(Standing("c", 2), "c", []);
    var after := Three(Standing("a", 2), Voted("c", 2), led, before.sent);
    assert Asks("c", 2) in before.sent;
    assert Granted(before, "c", 2, "c") && Granted(before, "b", 2, "c");
    run := OneStep(run, before, after, Elect("c", [], {"b", "c"}));
    assert Granted(after, "b", 1, "a") && Granted(after, "c", 1, "a");
  }
}

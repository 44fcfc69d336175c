/**
 * The log half of a vote, over whole runs of the cluster in Elections: a vote goes only to a
 * candidate whose log, when it asked, was at least as good as the voter's log when it answered.
 */
module ElectionLogs {
  import opened Replication
  import opened Elections

  /** One log is no better than another: by the term of the last entry, then by length. */
  predicate NoBetter(log: seq<LogEntry>, other: seq<LogEntry>) {
    || |log| == 0
    || (|other| > 0 && log[|log| - 1].term < other[|other| - 1].term)
    || (|other| > 0 && log[|log| - 1].term == other[|other| - 1].term && |log| <= |other|)
  }

  lemma DescribedCompares(log: seq<LogEntry>, other: seq<LogEntry>, m: Message)
    requires m.RequestVote? && Described(other, m) && NoBetterThan(log, m.lastLogIndex, m.lastLogTerm)
    ensures NoBetter(log, other)
  {
  }

  /** At step `j` node `w` asked with `m`: in the term after its own, describing its own log. */
  ghost predicate AskedAt(run: seq<Cluster>, j: nat, w: Id, m: Message) {
    && j + 1 < |run| && w in run[j].replicas && Broadcast(w, m) in run[j + 1].sent
    && m.RequestVote? && m.candidateId == w && m.term == run[j].replicas[w].term + 1
    && Described(run[j].replicas[w].log, m)
  }

  /** Every request in flight was made by its sender at some earlier step. */
  lemma {:induction false} RequestWasAsked(run: seq<Cluster>, k: nat, w: Id, m: Message) returns (j: nat)
    requires IsRun(run) && k < |run| && Broadcast(w, m) in run[k].sent
    ensures j < k && AskedAt(run, j, w, m)
  {
    assert k > 0;
    if Broadcast(w, m) in run[k - 1].sent {
      j := RequestWasAsked(run, k - 1, w, m);
    } else {
      assert Next(run[k - 1], run[k - 1 + 1]);
      var s :| NextStep(run[k - 1], run[k], s);
      assert s == Timeout(w);
      ElectionStarts(run[k - 1].replicas[w], w);
      j := k - 1;
    }
  }

  /** A node asks at most once in a term. */
  lemma {:induction false} AsksOnce(run: seq<Cluster>, k: nat, w: Id, m: Message, m': Message)
    requires IsRun(run) && k < |run| && Broadcast(w, m) in run[k].sent && Broadcast(w, m') in run[k].sent
    requires m.term == m'.term
    ensures m == m'
  {
    assert k > 0;
    var c := run[k - 1];
    RunInv(run, k - 1);
    assert Next(c, run[k - 1 + 1]);
    var s :| NextStep(c, run[k], s);
    if Broadcast(w, m) in c.sent && Broadcast(w, m') in c.sent {
      AsksOnce(run, k - 1, w, m, m');
    } else if m != m' {
      assert s == Timeout(w);
      var old_ := if Broadcast(w, m) in c.sent then m else m';
      assert Broadcast(w, old_) in c.sent;
      assert Granted(c, w, old_.term, w);
    }
  }

  /**
   * Every grant, repeated ones included: at the moment the voter answers, its log is no better
   * than the candidate's own log was when it asked.
   */
  lemma GrantNeedsLog(run: seq<Cluster>, k: nat, v: Id, p: Packet) returns (j: nat)
    requires IsRun(run) && k + 1 < |run| && p.Broadcast? && NextStep(run[k], run[k + 1], Deliver(v, p))
    requires OnRequestVote(run[k].replicas[v], p.msg).1.granted
    ensures j < k && AskedAt(run, j, p.src, p.msg)
    ensures NoBetter(run[k].replicas[v].log, run[j].replicas[p.src].log)
  {
    j := RequestWasAsked(run, k, p.src, p.msg);
    GrantIsRecorded(run[k].replicas[v], p.msg);
    DescribedCompares(run[k].replicas[v].log, run[j].replicas[p.src].log, p.msg);
  }

  /** A grant on record was made at some step, to a request of its term, on a log no better than the request says. */
  lemma {:induction false} ReplyWasGranted(run: seq<Cluster>, k: nat, v: Id, w: Id, t: nat) returns (i: nat, m: Message)
    requires IsRun(run) && k < |run| && Reply(v, w, VoteResponse(t, true)) in run[k].sent
    ensures i < k && v in run[i].replicas && Broadcast(w, m) in run[i].sent && m.RequestVote? && m.term == t
    ensures NoBetterThan(run[i].replicas[v].log, m.lastLogIndex, m.lastLogTerm)
  {
    assert k > 0;
    if Reply(v, w, VoteResponse(t, true)) in run[k - 1].sent {
      i, m := ReplyWasGranted(run, k - 1, v, w, t);
    } else {
      assert Next(run[k - 1], run[k - 1 + 1]);
      var s :| NextStep(run[k - 1], run[k], s);
      assert s.Deliver? && s.packet.Broadcast? && s.node == v && s.packet.src == w;
      i, m := k - 1, s.packet.msg;
      GrantIsRecorded(run[i].replicas[v], m);
    }
  }

  /** Some step before `k` at which the voter's log was no better than `log`. */
  ghost predicate OnceNoBetter(run: seq<Cluster>, k: nat, v: Id, log: seq<LogEntry>) {
    exists i: nat :: i < k && i < |run| && v in run[i].replicas && NoBetter(run[i].replicas[v].log, log)
  }

  /**
   * Behind every leader stand a majority of nodes, each of which, when it voted, had a log no
   * better than the leader's own log was when it stood for that term.
   */
  lemma LeaderLogIsGood(run: seq<Cluster>, k: nat, n: Id) returns (j: nat, m: Message, voters: set<Id>)
    requires IsRun(run) && k < |run| && n in run[k].replicas && run[k].replicas[n].role.Leader?
    ensures j < k && AskedAt(run, j, n, m) && m.term == run[k].replicas[n].term
    ensures voters <= run[k].replicas.Keys && 2 * |voters| > |run[k].replicas|
    ensures forall v :: v in voters ==> v == n || OnceNoBetter(run, k, v, run[j].replicas[n].log)
  {
    RunInv(run, k);
    var t := run[k].replicas[n].term;
    voters :| Quorum(run[k], voters, t, n);
    var someone :| someone in voters;
    m := RequestBehind(run, k, someone, t, n);
    j := RequestWasAsked(run, k, n, m);
    forall v | v in voters && v != n ensures OnceNoBetter(run, k, v, run[j].replicas[n].log) {
      assert Granted(run[k], v, t, n);
      var i, m' := ReplyWasGranted(run, k, v, n, t);
      RunGrows(run, i, k);
      AsksOnce(run, k, n, m, m');
      DescribedCompares(run[i].replicas[v].log, run[j].replicas[n].log, m);
    }
  }

  lemma RequestBehind(run: seq<Cluster>, k: nat, v: Id, t: nat, n: Id) returns (m: Message)
    requires IsRun(run) && k < |run| && Granted(run[k], v, t, n)
    ensures Broadcast(n, m) in run[k].sent && m.RequestVote? && m.term == t
  {
    if v == n {
      m :| Broadcast(n, m) in run[k].sent && m.RequestVote? && m.term == t;
    } else {
      var i: nat;
      i, m := ReplyWasGranted(run, k, v, n, t);
      RunGrows(run, i, k);
    }
  }
}

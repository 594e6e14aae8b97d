/** What the election and log protocol does not provide: two runs of a cluster of three. */
module ElectionLimits {
  import opened Nodes
  import opened Options
  import opened Election
  import opened ElectionProtocol

  ghost predicate Reachable(members: set<NodeId>, w: World) {
    exists run :: IsRun(members, run) && run[|run| - 1] == w
  }

  lemma ReachableStart(members: set<NodeId>)
    ensures Reachable(members, ElectionProtocol.Start(members))
  {
    assert IsRun(members, [ElectionProtocol.Start(members)]);
  }

  lemma ReachableNext(members: set<NodeId>, w: World, a: Action)
    requires Reachable(members, w) && Enabled(w, a)
    ensures Reachable(members, Next(w, a)) && Next(w, a).peers.Keys == w.peers.Keys
  {
    var run :| IsRun(members, run) && run[|run| - 1] == w;
    var longer := run + [Next(w, a)];
    forall i | 0 <= i < |longer| - 1 ensures CanStep(longer[i], longer[i + 1]) {
      if i < |run| - 1 { assert CanStep(run[i], run[i + 1]); }
    }
    assert IsRun(members, longer);
  }

  // ------------------------------------------------------------- compound steps

  /** A node between elections, with everything it committed applied. */
  ghost predicate Stands(w: World, n: NodeId, role: Role, term: nat, log: seq<LogEntry>, applied: seq<LogEntry>) {
    n in w.peers && w.peers[n].campaign == None &&
    var s := w.peers[n].state;
    && s.id == n && s.role == role && s.term == term && s.log == log
    && s.applied == applied && s.commitIndex == s.lastApplied == |applied|
  }

  ghost predicate OthersStay(w: World, w': World, moved: set<NodeId>) {
    w'.peers.Keys == w.peers.Keys && forall n :: n in w.peers && n !in moved ==> w'.peers[n] == w.peers[n]
  }

  /** In a cluster of three one vote besides its own makes a node leader. */
  lemma Elect(members: set<NodeId>, w: World, n: NodeId, v: NodeId, role: Role, term: nat, log: seq<LogEntry>,
              applied: seq<LogEntry>, role2: Role, term2: nat, log2: seq<LogEntry>, applied2: seq<LogEntry>)
    returns (w': World)
    requires Reachable(members, w) && |w.peers.Keys| == 3 && n != v && role != LEADER
    requires Stands(w, n, role, term, log, applied) && Stands(w, v, role2, term2, log2, applied2)
    requires term2 <= term && UpToDate(log2, |log|, LastTerm(log))
    ensures Reachable(members, w') && OthersStay(w, w', {n, v})
    ensures Stands(w', n, LEADER, term + 1, log, applied) && Stands(w', v, FOLLOWER, term + 1, log2, applied2)
  {
    ReachableNext(members, w, Begin(n));
    var w1 := Next(w, Begin(n));
    var ask := Deliver(v, VoteRequest(n, term + 1, |log|, LastTerm(log)));
    ReachableNext(members, w1, ask);
    var w2 := Next(w1, ask);
    assert VoteReply(v, n, term + 1, true) in w2.sent;
    w' := Win(members, w2, n, v, term + 1);
  }

  lemma Win(members: set<NodeId>, w: World, n: NodeId, v: NodeId, term: nat) returns (w': World)
    requires Reachable(members, w) && |w.peers.Keys| == 3 && n in w.peers && v in w.peers && n != v
    requires w.peers[n].campaign == Some(Campaign(term, 1, {}))
    requires w.peers[n].state.role == CANDIDATE && w.peers[n].state.term == term
    requires VoteReply(v, n, term, true) in w.sent
    ensures Reachable(members, w') && OthersStay(w, w', {n})
    ensures w'.peers[n] == Peer(w.peers[n].state.(role := LEADER, leaderId := Some(w.peers[n].state.id)), None)
  {
    ReachableNext(members, w, Count(n, v, true));
    var w1 := Next(w, Count(n, v, true));
    assert |w1.peers| == |w1.peers.Keys| == 3;
    ReachableNext(members, w1, Conclude(n));
    w' := Next(w1, Conclude(n));
  }

  lemma Suggest(members: set<NodeId>, w: World, n: NodeId, term: nat, log: seq<LogEntry>, applied: seq<LogEntry>,
      value: string)
    returns (w': World)
    requires Reachable(members, w) && Stands(w, n, LEADER, term, log, applied)
    ensures Reachable(members, w') && OthersStay(w, w', {n})
    ensures Stands(w', n, LEADER, term, log + [LogEntry(term, |log| + 1, "SET", "k", value)], applied)
  {
    var a := Action.Propose(n, "SET", "k", value);
    ReachableNext(members, w, a);
    w' := Next(w, a);
  }

  /** A heartbeat makes a node of an older term a follower of the sender's. */
  lemma Hear(members: set<NodeId>, w: World, n: NodeId, v: NodeId, role: Role, term: nat, log: seq<LogEntry>,
      applied: seq<LogEntry>)
    returns (w': World)
    requires Reachable(members, w) && n in w.peers && n != v && w.peers[n].state.term > term
    requires Stands(w, v, role, term, log, applied)
    ensures Reachable(members, w') && OthersStay(w, w', {v})
    ensures Stands(w', v, FOLLOWER, w.peers[n].state.term, log, applied)
  {
    ReachableNext(members, w, Action.Beat(n));
    var w1 := Next(w, Action.Beat(n));
    var a := Deliver(v, Heartbeat(n, w.peers[n].state.term));
    ReachableNext(members, w1, a);
    w' := Next(w1, a);
  }

  /** The leader ships a slice of its log, and the follower answers. */
  lemma Ships(members: set<NodeId>, w: World, n: NodeId, v: NodeId, to: nat) returns (w': World)
    requires Reachable(members, w) && n in w.peers && v in w.peers && n != v
    requires w.peers[n].state.role == LEADER && w.peers[n].state.id == n && to <= |w.peers[n].state.log|
    requires Indexed(w.peers[n].state.log[..to])
    ensures Reachable(members, w') && OthersStay(w, w', {v})
    ensures var s, f := w.peers[n].state, w.peers[v].state;
            var (f', success, matchIndex) := HandleAppendEntries(f, n, s.term, 0, 0, s.log[..to], s.commitIndex);
            && w'.peers[v] == w.peers[v].(state := f')
            && AppendReply(f.id, n, f'.term, to, success, matchIndex) in w'.sent && w.sent <= w'.sent
  {
    var s := w.peers[n].state;
    var m := Slice(s, 0, to);
    assert s.log[0..to] == s.log[..to];
    ReachableNext(members, w, Ship(n, 0, to));
    var w1 := Next(w, Ship(n, 0, to));
    ReachableNext(members, w1, Deliver(v, m));
    w' := Next(w1, Deliver(v, m));
  }

  lemma FillEmpty(s: State, leader: NodeId, term: nat, entries: seq<LogEntry>)
    requires s.log == [] && term >= s.term && s.commitIndex == 0 && ContiguousFrom(entries, 0)
    ensures Indexed(entries)
    ensures HandleAppendEntries(s, leader, term, 0, 0, entries, 0)
            == (ReceiveHeartbeat(s, leader, term).(log := entries), true, |entries|)
  {
    AbsorbPastEnd([], entries, 0);
    assert [] + entries == entries;
  }

  /** An empty slice from the very beginning is accepted by every log, and the reported match
      index is the whole length of that log. */
  lemma EmptySlice(s: State, leader: NodeId, term: nat, leaderCommit: nat)
    requires term >= s.term
    ensures HandleAppendEntries(s, leader, term, 0, 0, [], leaderCommit)
            == (AdvanceCommit(ReceiveHeartbeat(s, leader, term), leaderCommit), true, |s.log|)
  {
    assert AbsorbAll(s.log, []) == s.log;
  }

  const MEMBERS: set<NodeId> := {"a", "b", "c"}

  lemma ThreeNodes()
    ensures "a" != "b" && "b" != "c" && "a" != "c" && |MEMBERS| == 3
  {
    assert "a"[0] != "b"[0] && "b"[0] != "c"[0] && "a"[0] != "c"[0];
    assert |{"a", "b", "c"}| == 3;
  }

  const X1 := LogEntry(1, 1, "SET", "k", "x")
  const X2 := LogEntry(1, 2, "SET", "k", "x")
  const X3 := LogEntry(1, 3, "SET", "k", "x")
  const Y1 := LogEntry(2, 1, "SET", "k", "y")
  const Z2 := LogEntry(4, 2, "SET", "k", "z")

  // -------------------------------------------------------- diverging state machines

  /** b elects a, which proposes x; nobody receives it. */
  lemma LoneProposal() returns (w: World)
    ensures Reachable(MEMBERS, w) && w.peers.Keys == MEMBERS
    ensures Stands(w, "a", LEADER, 1, [X1], []) && Stands(w, "b", FOLLOWER, 1, [], [])
            && Stands(w, "c", FOLLOWER, 0, [], [])
  {
    ThreeNodes();
    ReachableStart(MEMBERS);
    assert ElectionProtocol.Start(MEMBERS).peers.Keys == MEMBERS;
    w := Elect(MEMBERS, ElectionProtocol.Start(MEMBERS), "a", "b", FOLLOWER, 0, [], [], FOLLOWER, 0, [], []);
    w := Suggest(MEMBERS, w, "a", 1, [], [], "x");
  }

  /** c, whose log is still empty, elects b, which proposes y. */
  lemma RivalProposal() returns (w: World)
    ensures Reachable(MEMBERS, w) && w.peers.Keys == MEMBERS
    ensures Stands(w, "a", LEADER, 1, [X1], []) && Stands(w, "b", LEADER, 2, [Y1], [])
            && Stands(w, "c", FOLLOWER, 2, [], [])
  {
    ThreeNodes();
    w := LoneProposal();
    w := Elect(MEMBERS, w, "b", "c", FOLLOWER, 1, [], [], FOLLOWER, 0, [], []);
    w := Suggest(MEMBERS, w, "b", 2, [], [], "y");
  }

  /** b replicates y to c and commits it. */
  lemma RivalCommits() returns (w: World)
    ensures Reachable(MEMBERS, w) && w.peers.Keys == MEMBERS
    ensures Stands(w, "a", LEADER, 1, [X1], []) && Stands(w, "b", LEADER, 2, [Y1], [Y1])
  {
    ThreeNodes();
    w := RivalProposal();
    assert [Y1][..1] == [Y1];
    FillEmpty(w.peers["c"].state, "b", 2, [Y1]);
    w := Ships(MEMBERS, w, "b", "c", 1);
    CommitOfOne(w.peers["b"].state, Y1);
    assert |w.peers| == |w.peers.Keys|;
    ReachableNext(MEMBERS, w, Action.Commit("b", [1]));
    w := Next(w, Action.Commit("b", [1]));
  }

  lemma CommitOfOne(s: State, y: LogEntry)
    requires s.role == LEADER && s.log == [y] && s.term == y.term && s.commitIndex == s.lastApplied == 0
            && s.applied == []
    ensures CommitEntries(s, [1], 3) == s.(commitIndex := 1, lastApplied := 1, applied := [y])
  {
    var ys: seq<nat> := [1, 1];
    assert [1] + [1] == ys && ys[1..] == [1] && [1][1..] == [];
    assert SortDescending([1]) == [1];
    assert SortDescending(ys) == ys;
    assert CountAtLeast([1], 1) == 1;
    assert CountAtLeast(ys, 1) == 2;
    assert s.log[0..1] == [y] && [] + [y] == [y];
  }

  /** `commitIndex` is capped by the length of the follower's log, not by the last entry the
      message vouches for. So a node can hand an entry to its callback that no leader ever
      committed: here a applies its own entry x at position 1, where leader b, elected later
      by a majority, committed and applied y. */
  lemma StateMachinesCanDiverge() returns (w: World)
    ensures Reachable(MEMBERS, w) && "a" in w.peers && "b" in w.peers
    ensures w.peers["a"].state.applied == [X1] && w.peers["b"].state.applied == [Y1]
  {
    ThreeNodes();
    w := RivalCommits();
    var s := w.peers["a"].state;
    assert w.peers["b"].state.log[..0] == [];
    EmptySlice(s, "b", 2, 1);
    assert s.log[0..1] == [X1] && [] + [X1] == [X1];
    w := Ships(MEMBERS, w, "b", "a", 0);
  }

  // ---------------------------------------------------------- a stalled commit index

  lemma LongLog() returns (w: World)
    ensures Reachable(MEMBERS, w) && w.peers.Keys == MEMBERS
    ensures Stands(w, "a", LEADER, 1, [X1, X2, X3], []) && Stands(w, "b", LEADER, 2, [Y1], [])
    ensures Stands(w, "c", FOLLOWER, 2, [], [])
  {
    ThreeNodes();
    w := RivalProposal();
    w := Suggest(MEMBERS, w, "a", 1, [X1], [], "x");
    assert [X1] + [X2] == [X1, X2];
    w := Suggest(MEMBERS, w, "a", 1, [X1, X2], [], "x");
    assert [X1, X2] + [X3] == [X1, X2, X3];
  }

  /** a hears of term 2, wins term 3 with c's vote and copies its long log to c. */
  lemma LongLogSpreads() returns (w: World)
    ensures Reachable(MEMBERS, w) && w.peers.Keys == MEMBERS
    ensures Stands(w, "a", LEADER, 3, [X1, X2, X3], []) && Stands(w, "b", LEADER, 2, [Y1], [])
    ensures Stands(w, "c", FOLLOWER, 3, [X1, X2, X3], [])
  {
    ThreeNodes();
    var long := [X1, X2, X3];
    w := LongLog();
    w := Hear(MEMBERS, w, "b", "a", LEADER, 1, long, []);
    w := Elect(MEMBERS, w, "a", "c", FOLLOWER, 2, long, [], FOLLOWER, 2, [], []);
    assert long[..3] == long;
    FillEmpty(w.peers["c"].state, "a", 3, long);
    w := Ships(MEMBERS, w, "a", "c", 3);
  }

  /** b hears of term 3, wins term 4 with c's vote, for its last term is newer, and proposes z. */
  lemma ShortLogWins() returns (w: World)
    ensures Reachable(MEMBERS, w) && w.peers.Keys == MEMBERS
    ensures Stands(w, "a", LEADER, 3, [X1, X2, X3], []) && Stands(w, "b", LEADER, 4, [Y1, Z2], [])
    ensures Stands(w, "c", FOLLOWER, 4, [X1, X2, X3], [])
  {
    ThreeNodes();
    w := LongLogSpreads();
    w := Hear(MEMBERS, w, "a", "b", LEADER, 2, [Y1], []);
    w := Elect(MEMBERS, w, "b", "c", FOLLOWER, 3, [Y1], [], FOLLOWER, 3, [X1, X2, X3], []);
    w := Suggest(MEMBERS, w, "b", 4, [Y1], [], "z");
    assert [Y1] + [Z2] == [Y1, Z2];
  }

  /** A reachable leader whose commit index does not move although by the reports index 2 is
      committable: both followers answer an empty slice with the length of their own longer
      logs, and the scan stops at the index past the leader's log. */
  lemma OverreportStallsCommit() returns (w: World)
    ensures Reachable(MEMBERS, w) && |w.peers| == 3 && "b" in w.peers
    ensures AppendReply("a", "b", 4, 0, true, 3) in w.sent && AppendReply("c", "b", 4, 0, true, 3) in w.sent
    ensures var s := w.peers["b"].state;
            && s.role == LEADER && s.term == 4
            && CommitEntries(s, [3, 3], 3) == s && Committable(s, [3, 3], 3, 2)
  {
    ThreeNodes();
    w := ShortLogWins();
    assert w.peers["b"].state.log[..0] == [];
    EmptySlice(w.peers["a"].state, "b", 4, 0);
    w := Ships(MEMBERS, w, "b", "a", 0);
    EmptySlice(w.peers["c"].state, "b", 4, 0);
    w := Ships(MEMBERS, w, "b", "c", 0);
    assert |w.peers| == |w.peers.Keys|;
    StalledScan(w.peers["b"].state);
  }

  lemma StalledScan(s: State)
    requires s.role == LEADER && s.log == [Y1, Z2] && s.term == 4 && s.commitIndex == 0
    ensures CommitEntries(s, [3, 3], 3) == s && Committable(s, [3, 3], 3, 2)
  {
    var all: seq<nat> := [3, 3] + [2];
    assert all == [3, 3, 2] && all[1..] == [3, 2] && [3, 2][1..] == [2] && [2][1..] == [];
    assert CountAtLeast([2], 3) == 0 && CountAtLeast([2], 2) == 1;
    assert CountAtLeast([3, 2], 3) == 1 && CountAtLeast([3, 2], 2) == 2;
    assert CountAtLeast(all, 3) == 2 && CountAtLeast(all, 2) == 3;
    SortKeeps(all, 3);
    ScanStopsPastLog(s, SortDescending(all), 0, Majority(3));
  }
}

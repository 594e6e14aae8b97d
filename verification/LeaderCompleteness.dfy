/** Leader completeness: an entry that a majority of the cluster has taken over from the
    leader of the entry's term is in the log of every later leader. It holds in every run;
    what the replies call the match index plays no part in it. */
module LeaderCompleteness {
  import opened Nodes
  import opened Options
  import opened Election
  import opened ElectionProtocol
  import Quorums

  // ------------------------------------------------------------- chosen entries

  /** The node once accepted everything up to position k from the leader of term t. */
  ghost predicate Reported(w: World, n: NodeId, t: nat, k: nat) {
    exists l, x: nat :: AppendReply(n, l, t, k, true, x) in w.sent
  }

  ghost predicate Holds(w: World, n: NodeId, t: nat, m: nat) {
    && t in w.reigns && m <= |w.reigns[t].log|
    && (w.reigns[t].leader == n || exists k: nat :: k >= m && Reported(w, n, t, k))
  }

  ghost function Holders(w: World, t: nat, m: nat): set<NodeId> {
    set n | n in w.peers && Holds(w, n, t, m)
  }

  /** Position m of term t's log was filled in that term. */
  ghost predicate Entered(w: World, t: nat, m: nat) {
    t in w.reigns && 1 <= m <= |w.reigns[t].log| && w.reigns[t].log[m - 1].term == t
  }

  ghost predicate Chosen(w: World, t: nat, m: nat) {
    Entered(w, t, m) && |Holders(w, t, m)| >= Majority(|w.peers|)
  }

  /** The nodes that hold the entry or, not being past its term, may still come to hold it. */
  ghost function Supporters(w: World, t: nat, m: nat): set<NodeId> {
    set n | n in w.peers && (w.peers[n].state.term <= t || Holds(w, n, t, m))
  }

  /** The entry is chosen or may still be. */
  ghost predicate Open(w: World, t: nat, m: nat) {
    Entered(w, t, m) && |Supporters(w, t, m)| >= Majority(|w.peers|)
  }

  lemma ChosenIsOpen(w: World, t: nat, m: nat)
    requires Chosen(w, t, m)
    ensures Open(w, t, m)
  {
    Quorums.SubsetSize(Holders(w, t, m), Supporters(w, t, m));
  }

  // --------------------------------------------------------------- the invariant

  predicate Shares(a: seq<LogEntry>, b: seq<LogEntry>, m: nat) {
    m <= |a| && m <= |b| && a[..m] == b[..m]
  }

  lemma SharesLess(a: seq<LogEntry>, b: seq<LogEntry>, m: nat, k: nat)
    requires Shares(a, b, k) && m <= k
    ensures Shares(a, b, m)
  {
    assert a[..m] == a[..k][..m] && b[..m] == b[..k][..m];
  }

  lemma SharedAt(a: seq<LogEntry>, b: seq<LogEntry>, m: nat, i: nat)
    requires Shares(a, b, m)
    ensures i < m ==> a[i] == b[i]
  {
    if i < m { assert a[..m][i] == a[i] && b[..m][i] == b[i]; }
  }

  lemma SharesGrown(a: seq<LogEntry>, a': seq<LogEntry>, b: seq<LogEntry>, b': seq<LogEntry>, m: nat)
    requires Shares(a, b, m) && a <= a' && b <= b'
    ensures Shares(a', b', m)
  {
    assert a'[..m] == a'[..|a|][..m] && b'[..m] == b'[..|b|][..m];
  }

  /** The log has the first m entries of term t's leader. */
  ghost predicate Carries(w: World, log: seq<LogEntry>, t: nat, m: nat) {
    t in w.reigns && Shares(log, w.reigns[t].log, m)
  }

  ghost predicate LeadersCarry(w: World, t: nat, m: nat) {
    forall u :: u in w.reigns && t < u ==> Carries(w, w.reigns[u].log, t, m)
  }

  ghost predicate HoldersCarry(w: World, t: nat, m: nat) {
    forall n :: n in w.peers && Holds(w, n, t, m) ==> Carries(w, w.peers[n].state.log, t, m)
  }

  /** Whoever got the vote of a holder in a later term, and still runs in it, has the entry. */
  ghost predicate BallotsCarry(w: World, t: nat, m: nat) {
    forall b :: b in w.ballots && t < b.term && Holds(w, b.voter, t, m) && Running(w, b.candidate, b.term) ==>
      Carries(w, w.peers[b.candidate].state.log, t, m)
  }

  ghost predicate Running(w: World, n: NodeId, t: nat) {
    n in w.peers && w.peers[n].state.role == CANDIDATE && w.peers[n].state.term == t
  }

  ghost predicate SafeAt(w: World, t: nat, m: nat) {
    Open(w, t, m) ==> LeadersCarry(w, t, m) && HoldersCarry(w, t, m) && BallotsCarry(w, t, m)
  }

  ghost predicate SafeInv(w: World) {
    forall t: nat, m: nat :: SafeAt(w, t, m)
  }

  /** Who has sent or been given what. */
  ghost predicate RequestsKnown(w: World) {
    forall c, t: nat, li: nat, lt: nat :: VoteRequest(c, t, li, lt) in w.sent ==>
      && c in w.peers && t <= w.peers[c].state.term
      && (Running(w, c, t) ==> li == |w.peers[c].state.log| && lt == LastTerm(w.peers[c].state.log))
  }

  ghost predicate CandidatesKnown(w: World) {
    forall b :: b in w.ballots ==> b.candidate in w.peers && b.term <= w.peers[b.candidate].state.term
  }

  ghost predicate RepliesKnown(w: World) {
    forall f, l, t: nat, k: nat, x: nat :: AppendReply(f, l, t, k, true, x) in w.sent ==>
      && f in w.peers && t <= w.peers[f].state.term
      && t in w.reigns && k <= |w.reigns[t].log|
  }

  ghost predicate Known(w: World) {
    RequestsKnown(w) && CandidatesKnown(w) && RepliesKnown(w)
  }

  lemma HolderIsPast(w: World, n: NodeId, t: nat, m: nat)
    requires VotesInv(w) && RepliesKnown(w) && Holds(w, n, t, m)
    ensures n in w.peers && t <= w.peers[n].state.term
  {
    if w.reigns[t].leader != n {
      var k: nat :| k >= m && Reported(w, n, t, k);
      var l, x: nat :| AppendReply(n, l, t, k, true, x) in w.sent;
    }
  }

  // ------------------------------------------------------- what a step can change

  /** Whatever the log shared with f, it still shares. */
  ghost predicate KeepsShared(log: seq<LogEntry>, log': seq<LogEntry>, f: seq<LogEntry>) {
    forall m: nat :: Shares(log, f, m) ==> Shares(log', f, m)
  }

  /** A node's log after AppendEntries from the leader with log f: nothing shared is lost,
      and after success everything sent is shared. */
  lemma {:induction false} AcceptSlice(r: map<nat, Reign>, s: State, m: Message)
    requires m.AppendEntries? && SliceOf(r, m) && Indexed(m.entries) && m.term >= s.term
    requires Coherent(r, s.log) && Coherent(r, r[m.term].log)
    ensures var (s', success, _) :=
              HandleAppendEntries(s, m.leader, m.term, m.prevIndex, m.prevTerm, m.entries, m.leaderCommit);
            && KeepsShared(s.log, s'.log, r[m.term].log)
            && (success ==> Shares(s'.log, r[m.term].log, m.prevIndex + |m.entries|))
  {
    var f, p, es := r[m.term].log, m.prevIndex, m.entries;
    if PrevMissing(s.log, p) {
    } else if PrevConflict(s.log, p, m.prevTerm) {
      CutKeepsShared(s.log, f, p);
    } else {
      AbsorbKeepsShared(r, s.log, f, es, p);
      AdvanceKeepsLog(ReceiveHeartbeat(s, m.leader, m.term).(log := AbsorbAll(s.log, es)), m.leaderCommit);
    }
  }

  lemma CutKeepsShared(log: seq<LogEntry>, f: seq<LogEntry>, p: nat)
    requires 0 < p <= |log| && p <= |f| && log[p - 1].term != f[p - 1].term
    ensures KeepsShared(log, log[..p - 1], f)
  {
    forall m: nat | Shares(log, f, m) ensures Shares(log[..p - 1], f, m) {
      SharedAt(log, f, m, p - 1);
      assert log[..p - 1][..m] == log[..m];
    }
  }

  lemma AbsorbKeepsShared(r: map<nat, Reign>, log: seq<LogEntry>, f: seq<LogEntry>, es: seq<LogEntry>, p: nat)
    requires Coherent(r, log) && Coherent(r, f) && p <= |log| && Indexed(es)
    requires p + |es| <= |f| && es == f[p..p + |es|] && (p > 0 ==> log[p - 1].term == f[p - 1].term)
    ensures KeepsShared(log, AbsorbAll(log, es), f) && Shares(AbsorbAll(log, es), f, p + |es|)
  {
    SliceContinues(r, f, p, p + |es|);
    AbsorbFromLeader(r, log, f, es, p);
    forall m: nat | Shares(log, f, m) ensures Shares(AbsorbAll(log, es), f, m) { SharedSurvives(log, f, es, p, m); }
    if AbsorbAll(log, es) == log { AllEntriesShared(r, log, f, es, p); }
  }

  lemma AllEntriesShared(r: map<nat, Reign>, log: seq<LogEntry>, f: seq<LogEntry>, es: seq<LogEntry>, p: nat)
    requires Coherent(r, log) && Coherent(r, f) && p <= |log| && Indexed(es) && ContiguousFrom(es, p)
    requires p + |es| <= |f| && es == f[p..p + |es|] && (p > 0 ==> log[p - 1].term == f[p - 1].term)
    requires AbsorbAll(log, es) == log
    ensures Shares(log, f, p + |es|)
  {
    AbsorbedHasEntries(log, es, p);
    if |es| > 0 { assert log[p + (|es| - 1)].term == es[|es| - 1].term; }
    CommonPrefix(r, log, f, p + |es|);
  }

  lemma SharedSurvives(log: seq<LogEntry>, f: seq<LogEntry>, es: seq<LogEntry>, p: nat, m: nat)
    requires ContiguousFrom(es, p) && Indexed(es) && p <= |log|
    requires p + |es| <= |f| && es == f[p..p + |es|] && Shares(log, f, m)
    ensures Shares(AbsorbAll(log, es), f, m)
  {
    AbsorbAllKeepsPrefix(log, es, p, m);
    forall i | 0 <= i < |es| && p + i < |log| && p + i < m ensures log[p + i].term == es[i].term {
      SharedAt(log, f, m, p + i);
    }
  }

  /** How the acting node's log moves. */
  ghost predicate LogMoves(r: map<nat, Reign>, s: State, s': State) {
    || s'.log == s.log
    || (s.role == LEADER && s'.role == LEADER && s'.term == s.term && |s'.log| == |s.log| + 1 && s.log <= s'.log
        && s'.log[|s.log|].term == s.term)
    || (s'.role == FOLLOWER && s'.term in r && KeepsShared(s.log, s'.log, r[s'.term].log))
  }

  ghost predicate RepliesFollow(w: World, w': World, n: NodeId)
    requires n in w.peers && n in w'.peers
  {
    forall f, l, t: nat, k: nat, x: nat ::
      AppendReply(f, l, t, k, true, x) in w'.sent && AppendReply(f, l, t, k, true, x) !in w.sent ==>
      && f == n && w.peers[n].state.term <= t == w'.peers[n].state.term
      && t in w.reigns && Shares(w'.peers[n].state.log, w.reigns[t].log, k)
  }

  ghost predicate RequestsFollow(w: World, w': World, n: NodeId)
    requires n in w.peers && n in w'.peers
  {
    var s, s' := w.peers[n].state, w'.peers[n].state;
    forall c, t: nat, li: nat, lt: nat ::
      VoteRequest(c, t, li, lt) in w'.sent && VoteRequest(c, t, li, lt) !in w.sent ==>
      c == n && t == s'.term && li == |s'.log| && lt == LastTerm(s'.log)
  }

  /** The vote was given on a request of the candidate whose log is up to date. */
  ghost predicate Solicited(w: World, b: Ballot, log: seq<LogEntry>) {
    exists li: nat, lt: nat :: VoteRequest(b.candidate, b.term, li, lt) in w.sent && UpToDate(log, li, lt)
  }

  ghost predicate BallotsFollow(w: World, w': World, n: NodeId)
    requires n in w.peers && n in w'.peers
  {
    var s, s' := w.peers[n].state, w'.peers[n].state;
    forall b :: b in w'.ballots && b !in w.ballots ==>
      && b.voter == n && b.term == s'.term && s'.log == s.log
      && (b.candidate == n || Solicited(w, b, s.log))
  }

  ghost predicate Moves(w: World, w': World, n: NodeId) {
    && Lawful(w, w', n) && ReignsFollow(w, w', n) && ReignsGrow(w.reigns, w'.reigns)
    && w.sent <= w'.sent
    && LogMoves(w.reigns, w.peers[n].state, w'.peers[n].state)
    && RepliesFollow(w, w', n) && RequestsFollow(w, w', n) && BallotsFollow(w, w', n)
  }

  lemma AppendMoves(r: map<nat, Reign>, p: Peer, m: Message)
    requires m.AppendEntries? && SliceOf(r, m) && Indexed(m.entries)
    requires Coherent(r, p.state.log) && Coherent(r, r[m.term].log)
    ensures var s, s' := p.state, Receive(p, m).peer.state;
            && LogMoves(r, s, s')
            && forall f, l, t: nat, k: nat, x: nat :: AppendReply(f, l, t, k, true, x) in Receive(p, m).messages ==>
                 f == s.id && s.term <= t == s'.term && t in r && Shares(s'.log, r[t].log, k)
  {
    AppendIsSteady(p.state, m.leader, m.term, m.prevIndex, m.prevTerm, m.entries, m.leaderCommit);
    if m.term >= p.state.term {
      AcceptSlice(r, p.state, m);
      NewTerm(p.state, m);
    } else {
      assert !HandleAppendEntries(p.state, m.leader, m.term, m.prevIndex, m.prevTerm, m.entries, m.leaderCommit).1;
    }
  }

  lemma NewTerm(s: State, m: Message)
    requires m.AppendEntries? && Indexed(m.entries) && m.term >= s.term
    ensures var s' := HandleAppendEntries(s, m.leader, m.term, m.prevIndex, m.prevTerm, m.entries, m.leaderCommit).0;
            s'.term == m.term && s'.role == FOLLOWER
  {}

  lemma ReceiveMoves(w: World, a: Action)
    requires Inv(w) && Enabled(w, a) && a.Deliver?
    ensures LogMoves(w.reigns, w.peers[a.n].state, Act(w, a).peer.state)
    ensures RepliesFollow(w, Next(w, a), a.n)
  {
    if a.message.AppendEntries? {
      assert SliceOf(w.reigns, a.message);
      AppendMoves(w.reigns, w.peers[a.n], a.message);
    }
  }

  lemma OnlyDeliveryReplies(w: World, a: Action)
    requires Enabled(w, a) && !a.Deliver?
    ensures forall m :: m in Act(w, a).messages ==> !m.AppendReply?
  {}

  lemma OwnLogStep(w: World, a: Action)
    requires Enabled(w, a) && !a.Deliver?
    ensures LogMoves(w.reigns, w.peers[a.n].state, Act(w, a).peer.state)
  {
    match a
    case Commit(n, matches) => CommitIsSteady(w.peers[n].state, matches, |w.peers|);
    case Propose(n, c, k, v) => ProposeAppends(w.peers[n].state, c, k, v);
    case _ =>
  }

  lemma LogStepMoves(w: World, a: Action)
    requires Inv(w) && Enabled(w, a)
    ensures LogMoves(w.reigns, w.peers[a.n].state, Act(w, a).peer.state)
    ensures RepliesFollow(w, Next(w, a), a.n)
  {
    if a.Deliver? {
      ReceiveMoves(w, a);
    } else {
      OwnLogStep(w, a);
      OnlyDeliveryReplies(w, a);
    }
  }

  lemma OnlyBeginRequests(w: World, a: Action)
    requires Enabled(w, a)
    ensures RequestsFollow(w, Next(w, a), a.n)
  {}

  lemma VoteSolicited(w: World, a: Action)
    requires Wellknown(w) && Enabled(w, a) && a.Deliver? && a.message.VoteRequest?
    ensures BallotsFollow(w, Next(w, a), a.n)
  {
    var s, m := w.peers[a.n].state, a.message;
    if HandleVoteRequest(s, m.candidate, m.term, m.lastIndex, m.lastTerm).1 {
      assert Solicited(w, Ballot(s.id, m.term, m.candidate), s.log);
    }
  }

  lemma BallotStepMoves(w: World, a: Action)
    requires Wellknown(w) && Enabled(w, a)
    ensures RequestsFollow(w, Next(w, a), a.n) && BallotsFollow(w, Next(w, a), a.n)
  {
    OnlyBeginRequests(w, a);
    if a.Deliver? && a.message.VoteRequest? { VoteSolicited(w, a); }
  }

  lemma StepMoves(w: World, a: Action)
    requires Inv(w) && Enabled(w, a)
    ensures Moves(w, Next(w, a), a.n)
  {
    StepIsLawful(w, a);
    StepRecordsReign(w, a);
    StepGrowsReigns(w, a);
    LogStepMoves(w, a);
    BallotStepMoves(w, a);
  }

  // ------------------------------------------------------------ knowing is kept

  lemma RepliesKnownKept(w: World, w': World, n: NodeId)
    requires Moves(w, w', n) && RepliesKnown(w)
    ensures RepliesKnown(w')
  {
    forall f, l, t: nat, k: nat, x: nat | AppendReply(f, l, t, k, true, x) in w'.sent
      ensures f in w'.peers && t <= w'.peers[f].state.term && t in w'.reigns && k <= |w'.reigns[t].log|
    {
      if AppendReply(f, l, t, k, true, x) in w.sent { assert w.reigns[t].log <= w'.reigns[t].log; }
    }
  }

  lemma CandidateKeepsLog(w: World, w': World, n: NodeId, t: nat)
    requires Moves(w, w', n) && Running(w', n, t)
    ensures w.peers[n].state.term < t || (Running(w, n, t) && w'.peers[n].state.log == w.peers[n].state.log)
  {}

  lemma RequestsKnownKept(w: World, w': World, n: NodeId)
    requires Moves(w, w', n) && RequestsKnown(w)
    ensures RequestsKnown(w')
  {
    forall c, t: nat, li: nat, lt: nat | VoteRequest(c, t, li, lt) in w'.sent
      ensures c in w'.peers && t <= w'.peers[c].state.term
      ensures Running(w', c, t) ==> li == |w'.peers[c].state.log| && lt == LastTerm(w'.peers[c].state.log)
    {
      if VoteRequest(c, t, li, lt) in w.sent && c == n && Running(w', n, t) { CandidateKeepsLog(w, w', n, t); }
    }
  }

  lemma CandidatesKnownKept(w: World, w': World, n: NodeId)
    requires Moves(w, w', n) && CandidatesKnown(w) && RequestsKnown(w)
    ensures CandidatesKnown(w')
  {
    forall b | b in w'.ballots ensures b.candidate in w'.peers && b.term <= w'.peers[b.candidate].state.term {
      if b !in w.ballots && b.candidate != n {
        var li: nat, lt: nat :| VoteRequest(b.candidate, b.term, li, lt) in w.sent
          && UpToDate(w.peers[n].state.log, li, lt);
      }
    }
  }

  // ------------------------------------------------------ one entry over one step

  /** Holding is never lost, and it is newly gained only by the acting node in the entry's
      own term. */
  lemma HeldBefore(w: World, w': World, n: NodeId, t: nat, m: nat, v: NodeId)
    requires Moves(w, w', n) && Entered(w, t, m) && Holds(w', v, t, m)
    ensures Holds(w, v, t, m)
            || (v == n && w.peers[n].state.term <= t == w'.peers[n].state.term
                && Shares(w'.peers[n].state.log, w.reigns[t].log, m))
  {
    assert w'.reigns[t].leader == w.reigns[t].leader;
    if w.reigns[t].leader != v {
      var k: nat :| k >= m && Reported(w', v, t, k);
      var l, x: nat :| AppendReply(v, l, t, k, true, x) in w'.sent;
      if AppendReply(v, l, t, k, true, x) in w.sent {
        assert Reported(w, v, t, k);
      } else {
        SharesLess(w'.peers[n].state.log, w.reigns[t].log, m, k);
      }
    }
  }

  lemma OpenBefore(w: World, w': World, n: NodeId, t: nat, m: nat)
    requires Moves(w, w', n) && Entered(w, t, m) && Open(w', t, m)
    ensures Open(w, t, m)
  {
    forall v | v in Supporters(w', t, m) ensures v in Supporters(w, t, m) {
      if Holds(w', v, t, m) { HeldBefore(w, w', n, t, m, v); }
    }
    Quorums.SubsetSize(Supporters(w', t, m), Supporters(w, t, m));
    assert |w.peers| == |w.peers.Keys| && |w'.peers| == |w'.peers.Keys|;
  }

  /** Two majorities meet in a node that voted in the later term and holds the entry. */
  lemma VoterHolds(w: World, t: nat, m: nat, u: nat, c: NodeId) returns (v: NodeId)
    requires VotesInv(w) && Open(w, t, m) && t < u && |Voters(w, u, c)| >= Majority(|w.peers|)
    ensures Ballot(v, u, c) in w.ballots && Holds(w, v, t, m)
  {
    assert |w.peers| == |w.peers.Keys|;
    v := Quorums.Intersect(w.peers.Keys, Supporters(w, t, m), Voters(w, u, c));
  }

  lemma LeadersCarryKept(w: World, w': World, n: NodeId, t: nat, m: nat, u: nat)
    requires VotesInv(w) && Moves(w, w', n) && Open(w, t, m) && LeadersCarry(w, t, m) && BallotsCarry(w, t, m)
    requires u in w'.reigns && t < u
    ensures Carries(w', w'.reigns[u].log, t, m)
  {
    var log;
    if u in w.reigns {
      log := w.reigns[u].log;
    } else {
      var v := VoterHolds(w, t, m, u, n);
      log := w.peers[n].state.log;
    }
    assert Carries(w, log, t, m);
    SharesGrown(log, w'.reigns[u].log, w.reigns[t].log, w'.reigns[t].log, m);
  }

  /** A holder's new log still has the entry. */
  lemma HolderKeeps(w: World, w': World, n: NodeId, t: nat, m: nat)
    requires VotesInv(w) && RepliesKnown(w) && Moves(w, w', n) && LeadersCarry(w, t, m) && HoldersCarry(w, t, m)
    requires Holds(w, n, t, m)
    ensures Shares(w'.peers[n].state.log, w.reigns[t].log, m)
  {
    var s, s' := w.peers[n].state, w'.peers[n].state;
    var p := w.reigns[t].log;
    assert Carries(w, s.log, t, m);
    HolderIsPast(w, n, t, m);
    if s'.log != s.log {
      if s.log <= s'.log {
        SharesGrown(s.log, s'.log, p, p, m);
      } else {
        var f := w.reigns[s'.term].log;
        if t < s'.term { assert Carries(w, f, t, m); }
        assert Shares(s.log, f, m);
      }
    }
  }

  lemma HoldersCarryKept(w: World, w': World, n: NodeId, t: nat, m: nat, v: NodeId)
    requires VotesInv(w) && RepliesKnown(w) && Moves(w, w', n) && LeadersCarry(w, t, m) && HoldersCarry(w, t, m)
    requires Entered(w, t, m) && v in w'.peers && Holds(w', v, t, m)
    ensures Carries(w', w'.peers[v].state.log, t, m)
  {
    HeldBefore(w, w', n, t, m, v);
    if v == n && Holds(w, v, t, m) { HolderKeeps(w, w', n, t, m); }
    assert Shares(w'.peers[v].state.log, w.reigns[t].log, m) by {
      if v != n { assert Carries(w, w.peers[v].state.log, t, m); }
    }
    SharesGrown(w'.peers[v].state.log, w'.peers[v].state.log, w.reigns[t].log, w'.reigns[t].log, m);
  }

  /** A candidate at least as far as a log with the entry has the entry itself. */
  lemma FurtherLogCarries(w: World, t: nat, m: nat, log: seq<LogEntry>, bound: nat, other: seq<LogEntry>, bound': nat)
    requires LogsInv(w) && Entered(w, t, m) && LeadersCarry(w, t, m)
    requires Coherent(w.reigns, log) && Ordered(log, bound) && Coherent(w.reigns, other) && Ordered(other, bound')
    requires Carries(w, log, t, m) && UpToDate(log, |other|, LastTerm(other))
    ensures Carries(w, other, t, m)
  {
    var p := w.reigns[t].log;
    assert log[m - 1] == log[..m][m - 1] == p[..m][m - 1] == p[m - 1];
    assert t <= LastTerm(log) <= LastTerm(other) && other != [];
    var u := LastTerm(other);
    assert Traced(w.reigns, other, |other| - 1) && other[..|other|] == other;
    var f := w.reigns[u].log;
    if u == LastTerm(log) {
      assert Traced(w.reigns, log, |log| - 1) && log[..|log|] == log;
      assert other[..m] == f[..|other|][..m] == f[..m] == f[..|log|][..m] == log[..m];
    } else {
      assert Carries(w, f, t, m);
      var i := |other| - 1;
      SharedAt(f, p, m, i);
      SharedAt(other, f, |other|, i);
      assert i < |p| ==> p[i].term <= t;
      assert other[..m] == f[..|other|][..m] == f[..m];
    }
  }

  lemma OldBallotCarries(w: World, w': World, n: NodeId, t: nat, m: nat, b: Ballot)
    requires Moves(w, w', n) && CandidatesKnown(w) && BallotsCarry(w, t, m)
    requires b in w.ballots && t < b.term && Holds(w, b.voter, t, m) && Running(w', b.candidate, b.term)
    ensures Carries(w, w'.peers[b.candidate].state.log, t, m)
  {
    if b.candidate == n { CandidateKeepsLog(w, w', n, b.term); }
    assert Running(w, b.candidate, b.term);
  }

  lemma NewBallotCarries(w: World, w': World, n: NodeId, t: nat, m: nat, b: Ballot)
    requires Inv(w) && Known(w) && Moves(w, w', n) && Entered(w, t, m) && LeadersCarry(w, t, m) && HoldersCarry(w, t, m)
    requires b in w'.ballots && b !in w.ballots && Holds(w, b.voter, t, m) && Running(w', b.candidate, b.term)
    ensures Carries(w, w'.peers[b.candidate].state.log, t, m)
  {
    var s := w.peers[n].state;
    assert Carries(w, s.log, t, m);
    if b.candidate != n {
      var c := b.candidate;
      var li: nat, lt: nat :| VoteRequest(c, b.term, li, lt) in w.sent && UpToDate(s.log, li, lt);
      var k := w.peers[c].state;
      assert Running(w, c, b.term);
      FurtherLogCarries(w, t, m, s.log, s.term, k.log, k.term);
    }
  }

  lemma BallotsCarryKept(w: World, w': World, n: NodeId, t: nat, m: nat, b: Ballot)
    requires Inv(w) && Known(w) && Moves(w, w', n) && BallotsBind2(w') && Entered(w, t, m)
    requires LeadersCarry(w, t, m) && HoldersCarry(w, t, m) && BallotsCarry(w, t, m)
    requires b in w'.ballots && t < b.term && Holds(w', b.voter, t, m) && Running(w', b.candidate, b.term)
    ensures Carries(w', w'.peers[b.candidate].state.log, t, m)
  {
    HeldBefore(w, w', n, t, m, b.voter);
    if b in w.ballots { OldBallotCarries(w, w', n, t, m, b); } else { NewBallotCarries(w, w', n, t, m, b); }
    var log := w'.peers[b.candidate].state.log;
    SharesGrown(log, log, w.reigns[t].log, w'.reigns[t].log, m);
  }

  /** No ballot is of a later term than its voter. */
  ghost predicate BallotsBind2(w: World) {
    forall b :: b in w.ballots ==> b.voter in w.peers && b.term <= w.peers[b.voter].state.term
  }

  /** An entry that was there before the step stays safe. */
  lemma OldEntrySafe(w: World, w': World, n: NodeId, t: nat, m: nat)
    requires Inv(w) && Known(w) && Moves(w, w', n) && BallotsBind2(w')
    requires SafeAt(w, t, m) && Entered(w, t, m)
    ensures SafeAt(w', t, m)
  {
    if Open(w', t, m) {
      OpenBefore(w, w', n, t, m);
      forall u | u in w'.reigns && t < u ensures Carries(w', w'.reigns[u].log, t, m) {
        LeadersCarryKept(w, w', n, t, m, u);
      }
      forall v | v in w'.peers && Holds(w', v, t, m) ensures Carries(w', w'.peers[v].state.log, t, m) {
        HoldersCarryKept(w, w', n, t, m, v);
      }
      forall b | b in w'.ballots && t < b.term && Holds(w', b.voter, t, m) && Running(w', b.candidate, b.term)
        ensures Carries(w', w'.peers[b.candidate].state.log, t, m)
      {
        BallotsCarryKept(w, w', n, t, m, b);
      }
    }
  }

  // -------------------------------------------------------- an entry newly made

  /** A new entry is the last one of the acting leader's log. */
  lemma NewEntryIsLast(w: World, w': World, n: NodeId, t: nat, m: nat)
    requires Inv(w) && Moves(w, w', n) && Entered(w', t, m) && !Entered(w, t, m)
    ensures t == w'.peers[n].state.term && w'.peers[n].state.role == LEADER
            && w'.reigns[t] == Reign(n, w'.peers[n].state.log)
    ensures t in w.reigns && m == |w.reigns[t].log| + 1
  {
    var s, s' := w.peers[n].state, w'.peers[n].state;
    if s'.log == s.log { assert Traced(w.reigns, s.log, m - 1); }
    if t in w.reigns { WinnerIsFirst(w, w', n); }
  }

  lemma ReportsStayBelow(w: World, w': World, n: NodeId, t: nat, m: nat, v: NodeId)
    requires Moves(w, w', n) && RepliesKnown(w) && t in w.reigns && m == |w.reigns[t].log| + 1
    ensures forall k: nat :: Reported(w', v, t, k) ==> k < m
  {
    forall k: nat | Reported(w', v, t, k) ensures k < m {
      var l, x: nat :| AppendReply(v, l, t, k, true, x) in w'.sent;
      if AppendReply(v, l, t, k, true, x) !in w.sent { assert Shares(w'.peers[n].state.log, w.reigns[t].log, k); }
    }
  }

  /** Only the leader itself holds it. */
  lemma NewEntryHeldByLeader(w: World, w': World, n: NodeId, t: nat, m: nat, v: NodeId)
    requires Moves(w, w', n) && RepliesKnown(w) && t in w.reigns && m == |w.reigns[t].log| + 1
    requires t in w'.reigns && w'.reigns[t].leader == n && Holds(w', v, t, m)
    ensures v == n
  {
    ReportsStayBelow(w, w', n, t, m, v);
  }

  /** An entry that only a node of its own term holds is not open once there are later leaders. */
  lemma NoLaterReign(w: World, n: NodeId, t: nat, m: nat, u: nat)
    requires VotesInv(w) && Open(w, t, m) && n in w.peers && w.peers[n].state.term == t
    requires forall v :: Holds(w, v, t, m) ==> v == n
    requires u in w.reigns
    ensures u <= t
  {
    if t < u {
      var v := VoterHolds(w, t, m, u, w.reigns[u].leader);
      assert false;
    }
  }

  lemma NewEntrySafe(w: World, w': World, n: NodeId, t: nat, m: nat)
    requires Inv(w) && RepliesKnown(w) && Moves(w, w', n) && VotesInv(w')
    requires Entered(w', t, m) && !Entered(w, t, m)
    ensures SafeAt(w', t, m)
  {
    NewEntryIsLast(w, w', n, t, m);
    forall v | Holds(w', v, t, m) ensures v == n { NewEntryHeldByLeader(w, w', n, t, m, v); }
    if Open(w', t, m) {
      forall u | u in w'.reigns ensures u <= t { NoLaterReign(w', n, t, m, u); }
    }
  }

  // --------------------------------------------------------------- whole runs

  ghost predicate Complete(w: World) {
    Inv(w) && Known(w) && SafeInv(w)
  }

  lemma CompleteKept(w: World, a: Action)
    requires Complete(w) && Enabled(w, a)
    ensures Complete(Next(w, a))
  {
    var w' := Next(w, a);
    VotesInvKept(w, a);
    LogsInvKept(w, a);
    StepMoves(w, a);
    RepliesKnownKept(w, w', a.n);
    RequestsKnownKept(w, w', a.n);
    CandidatesKnownKept(w, w', a.n);
    forall t: nat, m: nat ensures SafeAt(w', t, m) {
      assert SafeAt(w, t, m);
      if Entered(w, t, m) { OldEntrySafe(w, w', a.n, t, m); }
      else if Entered(w', t, m) { NewEntrySafe(w, w', a.n, t, m); }
    }
  }

  lemma {:induction false} CompleteAlways(members: set<NodeId>, run: seq<World>, i: nat)
    requires IsRun(members, run) && i < |run|
    ensures Complete(run[i]) && run[i].peers.Keys == members
  {
    InvAlways(members, run, i);
    if i > 0 {
      CompleteAlways(members, run, i - 1);
      CompleteKept(run[i - 1], Taken(run[i - 1], run[i - 1 + 1]));
    }
  }

  /** What is chosen stays chosen. */
  lemma ChosenStays(w: World, w': World, t: nat, m: nat)
    requires Chosen(w, t, m) && ReignsGrow(w.reigns, w'.reigns) && w.sent <= w'.sent && w.peers.Keys == w'.peers.Keys
    ensures Chosen(w', t, m) && Shares(w'.reigns[t].log, w.reigns[t].log, m)
  {
    assert w.reigns[t].log <= w'.reigns[t].log;
    forall n | n in Holders(w, t, m) ensures n in Holders(w', t, m) { HoldsStays(w, w', n, t, m); }
    Quorums.SubsetSize(Holders(w, t, m), Holders(w', t, m));
    assert |w.peers| == |w.peers.Keys| && |w'.peers| == |w'.peers.Keys|;
  }

  lemma HoldsStays(w: World, w': World, n: NodeId, t: nat, m: nat)
    requires Holds(w, n, t, m) && ReignsGrow(w.reigns, w'.reigns) && w.sent <= w'.sent
    ensures Holds(w', n, t, m)
  {
    assert w.reigns[t].log <= w'.reigns[t].log;
    if w.reigns[t].leader != n {
      var k: nat :| k >= m && Reported(w, n, t, k);
      var l, x: nat :| AppendReply(n, l, t, k, true, x) in w.sent;
      assert Reported(w', n, t, k);
    }
  }

  lemma {:induction false} SentGrows(members: set<NodeId>, run: seq<World>, i: nat, j: nat)
    requires IsRun(members, run) && i <= j < |run|
    ensures run[i].sent <= run[j].sent
    decreases j
  {
    if i < j {
      SentGrows(members, run, i, j - 1);
      assert CanStep(run[j - 1], run[j - 1 + 1]);
    }
  }

  /** Leader completeness. If at any time of a run a majority has taken over position m of
      term t's log, filled in that term, then every node that is leader of a later term, then
      or at any later time, has the same first m entries. */
  lemma LaterLeadersHaveChosen(members: set<NodeId>, run: seq<World>, i: nat, j: nat, t: nat, m: nat, b: NodeId)
    requires IsRun(members, run) && i <= j < |run| && b in members && Chosen(run[i], t, m)
    ensures b in run[j].peers
    ensures var s := run[j].peers[b].state;
            s.role == LEADER && s.term > t ==> Shares(s.log, run[i].reigns[t].log, m)
  {
    CompleteAlways(members, run, i);
    CompleteAlways(members, run, j);
    ReignsOnlyGrow(members, run, i, j);
    SentGrows(members, run, i, j);
    ChosenStays(run[i], run[j], t, m);
    ChosenIsOpen(run[j], t, m);
    var s := run[j].peers[b].state;
    if s.role == LEADER && s.term > t {
      assert SafeAt(run[j], t, m);
      assert Carries(run[j], run[j].reigns[s.term].log, t, m);
    }
  }
}

/** State machine safety. The program caps a follower's commit index by the length of its log
    (minidb/cluster/election.py:379-382), which can commit entries that no leader vouches for.
    Here is exactly when a delivery commits only what the leader has, and the proof that runs
    in which every delivery does, and in which leaders count only what followers took over
    from them, never let two nodes apply different entries at one position. */
module StateMachineSafety {
  import opened Nodes
  import opened Options
  import opened Election
  import opened ElectionProtocol
  import opened LeaderCompleteness
  import Quorums

  // ------------------------------------------------------------- one delivery

  ghost function After(s: State, m: Message): (State, bool, nat)
    requires m.AppendEntries? && Indexed(m.entries)
  {
    HandleAppendEntries(s, m.leader, m.term, m.prevIndex, m.prevTerm, m.entries, m.leaderCommit)
  }

  /** The delivery succeeds and moves the commit index. */
  ghost predicate Commits(s: State, m: Message)
    requires m.AppendEntries? && Indexed(m.entries)
  {
    After(s, m).1 && After(s, m).0.commitIndex > s.commitIndex
  }

  /** The commit index stays within what the message covers, or the two logs agree there. */
  ghost predicate VouchedFor(s: State, m: Message, f: seq<LogEntry>)
    requires m.AppendEntries? && Indexed(m.entries)
  {
    Commits(s, m) ==>
      var s' := After(s, m).0;
      var c := s'.commitIndex;
      c <= m.prevIndex + |m.entries|
      || (c <= |f| && c <= |s'.log| && s'.log[c - 1].term == f[c - 1].term)
  }

  lemma CommitWithinLog(s: State, m: Message)
    requires m.AppendEntries? && Indexed(m.entries) && Commits(s, m)
    ensures var s' := After(s, m).0;
            s'.commitIndex <= |s'.log| && s'.commitIndex <= m.leaderCommit && s'.term == m.term && m.term >= s.term
    ensures !PrevMissing(s.log, m.prevIndex) && !PrevConflict(s.log, m.prevIndex, m.prevTerm)
  {}

  lemma AgreementAtCommit(r: map<nat, Reign>, s: State, m: Message, f: seq<LogEntry>)
    requires m.AppendEntries? && Indexed(m.entries) && Commits(s, m)
    requires Coherent(r, After(s, m).0.log) && Coherent(r, f)
    requires Shares(After(s, m).0.log, f, m.prevIndex + |m.entries|)
    ensures Shares(After(s, m).0.log, f, After(s, m).0.commitIndex) <==> VouchedFor(s, m, f)
  {
    CommitWithinLog(s, m);
    var log, c, q := After(s, m).0.log, After(s, m).0.commitIndex, m.prevIndex + |m.entries|;
    if c <= q {
      SharesLess(log, f, c, q);
    } else if c <= |f| {
      SharedAt2(log, f, c, c - 1);
      if log[c - 1].term == f[c - 1].term { CommonPrefix(r, log, f, c); }
    }
  }

  /** A delivery in a reachable state that moves the commit index commits exactly entries of
      the leader's log if and only if the new commit index stays within what the message
      covers or the two logs have the same term there. */
  lemma CommitsLeadersEntriesExactly(w: World, n: NodeId, m: Message)
    requires LogsInv(w) && n in w.peers && m in w.sent && m.AppendEntries? && Indexed(m.entries)
    requires Commits(w.peers[n].state, m)
    ensures m.term in w.reigns
    ensures var s', f := After(w.peers[n].state, m).0, w.reigns[m.term].log;
            Shares(s'.log, f, s'.commitIndex) <==> VouchedFor(w.peers[n].state, m, f)
  {
    SliceFacts(w, m);
    LogFacts(w, n);
    DeliveryAgreement(w.reigns, w.peers[n].state, m);
  }

  lemma SliceFacts(w: World, m: Message)
    requires LogsInv(w) && m in w.sent && m.AppendEntries?
    ensures SliceOf(w.reigns, m) && Coherent(w.reigns, w.reigns[m.term].log) && Ordered(w.reigns[m.term].log, m.term)
  {}

  lemma LogFacts(w: World, n: NodeId)
    requires LogsInv(w) && n in w.peers
    ensures Coherent(w.reigns, w.peers[n].state.log) && Ordered(w.peers[n].state.log, w.peers[n].state.term)
  {}

  lemma DeliveryAgreement(r: map<nat, Reign>, s: State, m: Message)
    requires m.AppendEntries? && Indexed(m.entries) && Commits(s, m) && SliceOf(r, m)
    requires Coherent(r, s.log) && Ordered(s.log, s.term)
    requires Coherent(r, r[m.term].log) && Ordered(r[m.term].log, m.term)
    ensures Shares(After(s, m).0.log, r[m.term].log, After(s, m).0.commitIndex) <==> VouchedFor(s, m, r[m.term].log)
  {
    CommitWithinLog(s, m);
    AcceptSlice(r, s, m);
    AppendCoherent(r, s, m);
    AgreementAtCommit(r, s, m, r[m.term].log);
  }

  lemma SharedAt2(a: seq<LogEntry>, b: seq<LogEntry>, m: nat, i: nat)
    requires i < m && m <= |a| && m <= |b|
    ensures Shares(a, b, m) ==> a[i] == b[i]
  {
    if Shares(a, b, m) { SharedAt(a, b, m, i); }
  }

  /** What the sender can check: a message whose commit index it covers itself is always
      vouched for, whatever the receiver's state. */
  lemma CoveredCommitIsVouched(s: State, m: Message, f: seq<LogEntry>)
    requires m.AppendEntries? && Indexed(m.entries) && m.leaderCommit <= m.prevIndex + |m.entries|
    ensures VouchedFor(s, m, f)
  {
    if Commits(s, m) { CommitWithinLog(s, m); }
  }

  // --------------------------------------------------------------- careful runs

  /** Every match index stands for another node that took over that many entries from this
      leader in this term. */
  ghost predicate Truthful(w: World, n: NodeId, matches: seq<nat>)
    requires n in w.peers
  {
    exists who: seq<NodeId> :: Backers(w, n, matches, who)
  }

  ghost predicate Backers(w: World, n: NodeId, matches: seq<nat>, who: seq<NodeId>)
    requires n in w.peers
  {
    && |who| == |matches| && Quorums.Distinct(who) && n !in who
    && forall i :: 0 <= i < |who| ==> who[i] in w.peers && TookOver(w, who[i], w.peers[n].state.term, matches[i])
  }

  ghost predicate TookOver(w: World, n: NodeId, t: nat, m: nat) {
    m == 0 || exists k: nat :: k >= m && Reported(w, n, t, k)
  }

  ghost predicate Careful(w: World, a: Action)
    requires Enabled(w, a)
  {
    && (a.Deliver? && a.message.AppendEntries? && a.message.term in w.reigns ==>
          VouchedFor(w.peers[a.n].state, a.message, w.reigns[a.message.term].log))
    && (a.Commit? && w.peers[a.n].state.role == LEADER ==> Truthful(w, a.n, a.matches))
  }

  ghost predicate CarefulStep(w: World, w': World) {
    exists a :: Enabled(w, a) && w' == Next(w, a) && Careful(w, a)
  }

  ghost predicate CarefulRun(members: set<NodeId>, run: seq<World>) {
    && run != [] && run[0] == ElectionProtocol.Start(members)
    && forall i :: 0 <= i < |run| - 1 ==> CarefulStep(run[i], run[i + 1])
  }

  lemma CarefulRunIsRun(members: set<NodeId>, run: seq<World>)
    requires CarefulRun(members, run)
    ensures IsRun(members, run)
  {
    forall i | 0 <= i < |run| - 1 ensures CanStep(run[i], run[i + 1]) { assert CarefulStep(run[i], run[i + 1]); }
  }

  // ------------------------------------------------------------- backed commits

  /** The first c entries of the log are chosen ones, of a term up to the bound. */
  ghost predicate BackedBy(w: World, log: seq<LogEntry>, c: nat, bound: nat, t: nat, m: nat) {
    t <= bound && c <= m && Chosen(w, t, m) && Shares(log, w.reigns[t].log, c)
  }

  ghost predicate Backed(w: World, log: seq<LogEntry>, c: nat, bound: nat) {
    c == 0 || exists t: nat, m: nat :: BackedBy(w, log, c, bound, t, m)
  }

  ghost predicate NodeBacked(w: World, n: NodeId)
    requires n in w.peers
  {
    var s := w.peers[n].state;
    Backed(w, s.log, s.commitIndex, s.term) && AppliedPrefix(s)
  }

  ghost predicate MessagesBacked(w: World) {
    forall m :: m in w.sent && m.AppendEntries? ==>
      m.term in w.reigns && Backed(w, w.reigns[m.term].log, m.leaderCommit, m.term)
  }

  ghost predicate CommitInv(w: World) {
    Complete(w) && (forall n :: n in w.peers ==> NodeBacked(w, n)) && MessagesBacked(w)
  }

  /** What no step takes back. */
  ghost predicate Grown(w: World, w': World) {
    ReignsGrow(w.reigns, w'.reigns) && w.sent <= w'.sent && w.peers.Keys == w'.peers.Keys
  }

  lemma SharesThrough(a: seq<LogEntry>, b: seq<LogEntry>, c: seq<LogEntry>, m: nat)
    requires Shares(a, b, m) && Shares(b, c, m)
    ensures Shares(a, c, m)
  {}

  lemma BackedStays(w: World, w': World, log: seq<LogEntry>, log': seq<LogEntry>, c: nat, bound: nat, bound': nat)
    requires Backed(w, log, c, bound) && Grown(w, w') && Shares(log', log, c) && bound <= bound'
    ensures Backed(w', log', c, bound')
  {
    if c > 0 {
      var t: nat, m: nat :| BackedBy(w, log, c, bound, t, m);
      ChosenStays(w, w', t, m);
      SharesThrough(log', log, w.reigns[t].log, c);
      SharesGrown(log', log', w.reigns[t].log, w'.reigns[t].log, c);
      assert BackedBy(w', log', c, bound', t, m);
    }
  }

  lemma BackedLess(w: World, log: seq<LogEntry>, c: nat, bound: nat, c': nat, log': seq<LogEntry>)
    requires Backed(w, log, c, bound) && c' <= c && Shares(log', log, c')
    ensures Backed(w, log', c', bound)
  {
    if c' > 0 {
      var t: nat, m: nat :| BackedBy(w, log, c, bound, t, m);
      SharesLess(log, w.reigns[t].log, c', c);
      SharesThrough(log', log, w.reigns[t].log, c');
      assert BackedBy(w, log', c', bound, t, m);
    }
  }

  /** A later leader's log has every committed entry. */
  lemma LeaderHasCommitted(w: World, log: seq<LogEntry>, c: nat, bound: nat, t: nat, m: nat, u: nat)
    requires SafeInv(w) && BackedBy(w, log, c, bound, t, m) && t <= u && u in w.reigns
    ensures Shares(log, w.reigns[u].log, c)
  {
    if t < u {
      assert SafeAt(w, t, m);
      ChosenIsOpen(w, t, m);
      assert Carries(w, w.reigns[u].log, t, m);
      SharesLess(w.reigns[u].log, w.reigns[t].log, c, m);
      SharesThrough(log, w.reigns[t].log, w.reigns[u].log, c);
    }
  }

  // ---------------------------------------------------------------- deliveries

  lemma NoConflict(s: State, m: Message, f: seq<LogEntry>)
    requires m.AppendEntries? && Indexed(m.entries) && Shares(s.log, f, s.commitIndex)
    requires m.prevIndex + |m.entries| <= |f| && m.entries == f[m.prevIndex..m.prevIndex + |m.entries|]
    requires m.prevIndex > 0 ==> f[m.prevIndex - 1].term == m.prevTerm
    ensures !ConflictsWithCommitted(s, m.term, m.prevIndex, m.prevTerm, m.entries)
  {
    var p, es, c := m.prevIndex, m.entries, s.commitIndex;
    if p > 0 { SharedAt(s.log, f, c, p - 1); }
    forall i | 0 <= i < |es| && p + i < |s.log| && p + i < c ensures s.log[p + i].term == es[i].term {
      SharedAt(s.log, f, c, p + i);
    }
  }

  /** A leader of the node's term or a later one has everything the node committed. */
  lemma LeaderHasNodesCommits(w: World, s: State, u: nat)
    requires SafeInv(w) && Backed(w, s.log, s.commitIndex, s.term) && u in w.reigns && s.term <= u
    ensures Shares(s.log, w.reigns[u].log, s.commitIndex)
  {
    if s.commitIndex > 0 {
      var t: nat, k: nat :| BackedBy(w, s.log, s.commitIndex, s.term, t, k);
      LeaderHasCommitted(w, s.log, s.commitIndex, s.term, t, k, u);
    }
  }

  lemma SharedDeliveryKeeps(s: State, m: Message, f: seq<LogEntry>)
    requires m.AppendEntries? && Indexed(m.entries) && AppliedPrefix(s) && ContiguousFrom(m.entries, m.prevIndex)
    requires m.term >= s.term ==> Shares(s.log, f, s.commitIndex)
    requires m.prevIndex + |m.entries| <= |f| && m.entries == f[m.prevIndex..m.prevIndex + |m.entries|]
    requires m.prevIndex > 0 ==> f[m.prevIndex - 1].term == m.prevTerm
    ensures AppliedPrefix(After(s, m).0) && Extends(s, After(s, m).0)
  {
    if m.term >= s.term { NoConflict(s, m, f); }
    AppendKeepsCommitted(s, m.leader, m.term, m.prevIndex, m.prevTerm, m.entries, m.leaderCommit);
  }

  /** What is known of a receiver and a message to it. */
  ghost predicate DeliveryFacts(w: World, s: State, m: Message) {
    && m.AppendEntries? && Indexed(m.entries) && SliceOf(w.reigns, m) && SafeInv(w)
    && Coherent(w.reigns, w.reigns[m.term].log) && Ordered(w.reigns[m.term].log, m.term)
    && Coherent(w.reigns, s.log) && Ordered(s.log, s.term)
    && AppliedPrefix(s) && Backed(w, s.log, s.commitIndex, s.term)
    && Backed(w, w.reigns[m.term].log, m.leaderCommit, m.term)
  }

  lemma FactsOfDelivery(w: World, n: NodeId, m: Message)
    requires CommitInv(w) && n in w.peers && m in w.sent && m.AppendEntries? && Indexed(m.entries)
    ensures DeliveryFacts(w, w.peers[n].state, m)
  {
    assert NodeBacked(w, n);
    SliceFacts(w, m);
    LogFacts(w, n);
  }

  lemma DeliveryKeepsCommitted(w: World, s: State, m: Message)
    requires DeliveryFacts(w, s, m)
    ensures AppliedPrefix(After(s, m).0) && Extends(s, After(s, m).0)
  {
    var f := w.reigns[m.term].log;
    SliceContinues(w.reigns, f, m.prevIndex, m.prevIndex + |m.entries|);
    if m.term >= s.term { LeaderHasNodesCommits(w, s, m.term); }
    SharedDeliveryKeeps(s, m, f);
  }

  lemma DeliveryBacked(w: World, s: State, m: Message)
    requires DeliveryFacts(w, s, m) && VouchedFor(s, m, w.reigns[m.term].log)
    ensures var s' := After(s, m).0;
            AppliedPrefix(s') && Backed(w, s'.log, s'.commitIndex, s'.term)
  {
    DeliveryKeepsCommitted(w, s, m);
    if Commits(s, m) { CommittingDelivery(w, s, m); } else { QuietDelivery(w, s, m); }
  }

  lemma CommittingDelivery(w: World, s: State, m: Message)
    requires DeliveryFacts(w, s, m) && VouchedFor(s, m, w.reigns[m.term].log) && Commits(s, m)
    ensures var s' := After(s, m).0; Backed(w, s'.log, s'.commitIndex, s'.term)
  {
    var s' := After(s, m).0;
    DeliveryAgreement(w.reigns, s, m);
    CommitWithinLog(s, m);
    BackedLess(w, w.reigns[m.term].log, m.leaderCommit, m.term, s'.commitIndex, s'.log);
  }

  lemma QuietDelivery(w: World, s: State, m: Message)
    requires m.AppendEntries? && Indexed(m.entries) && !Commits(s, m) && Extends(s, After(s, m).0)
    requires Backed(w, s.log, s.commitIndex, s.term)
    ensures var s' := After(s, m).0; Backed(w, s'.log, s'.commitIndex, s'.term)
  {
    var s' := After(s, m).0;
    NoCommitNoMove(s, m);
    AppendIsSteady(s, m.leader, m.term, m.prevIndex, m.prevTerm, m.entries, m.leaderCommit);
    assert Shares(s'.log, s.log, s.commitIndex) && Grown(w, w);
    BackedStays(w, w, s.log, s'.log, s.commitIndex, s.term, s'.term);
  }

  lemma NoCommitNoMove(s: State, m: Message)
    requires m.AppendEntries? && Indexed(m.entries) && !Commits(s, m) && Extends(s, After(s, m).0)
    ensures After(s, m).0.commitIndex == s.commitIndex
  {}

  // ------------------------------------------------------------------- commits

  lemma ScanGives(s: State, ys: seq<nat>, i: nat, majority: nat)
    requires i <= |ys|
    ensures var c := CommitScan(s, ys, i, majority);
            c != s.commitIndex ==>
              s.commitIndex < c <= |s.log| && CountAtLeast(ys, c) >= majority && s.log[c - 1].term == s.term
    decreases |ys| - i
  {}

  /** The nodes whose match index reaches c. */
  ghost function Reaching(matches: seq<nat>, who: seq<NodeId>, c: nat): set<NodeId>
    requires |who| == |matches|
  {
    set i | 0 <= i < |who| && matches[i] >= c :: who[i]
  }

  lemma {:induction false} CountReaching(matches: seq<nat>, who: seq<NodeId>, c: nat)
    requires |who| == |matches| && Quorums.Distinct(who)
    ensures |Reaching(matches, who, c)| == CountAtLeast(matches, c)
  {
    if who == [] {
      assert Reaching(matches, who, c) == {};
    } else {
      var rest := Reaching(matches[1..], who[1..], c);
      CountReaching(matches[1..], who[1..], c);
      ReachingFirst(matches, who, c);
      assert who[0] !in rest;
    }
  }

  lemma ReachingFirst(matches: seq<nat>, who: seq<NodeId>, c: nat)
    requires |who| == |matches| > 0
    ensures Reaching(matches, who, c)
            == Reaching(matches[1..], who[1..], c) + if matches[0] >= c then {who[0]} else {}
  {
    var all, rest := Reaching(matches, who, c), Reaching(matches[1..], who[1..], c);
    forall x | x in all ensures x in rest || (matches[0] >= c && x == who[0]) {
      var i :| 0 <= i < |who| && matches[i] >= c && who[i] == x;
      if i > 0 { assert matches[1..][i - 1] >= c && who[1..][i - 1] == x; }
    }
    forall x | x in rest ensures x in all {
      var i :| 0 <= i < |who[1..]| && matches[1..][i] >= c && who[1..][i] == x;
      assert matches[i + 1] >= c && who[i + 1] == x;
    }
  }

  lemma {:induction false} CountAppend(xs: seq<nat>, x: nat, v: nat)
    ensures CountAtLeast(xs + [x], v) == CountAtLeast(xs, v) + if x >= v then 1 else 0
  {
    if xs == [] {
      assert xs + [x] == [x] && [x][1..] == [];
    } else {
      assert (xs + [x])[1..] == xs[1..] + [x];
      CountAppend(xs[1..], x, v);
    }
  }

  lemma CommitChooses(w: World, n: NodeId, matches: seq<nat>, c: nat)
    requires n in w.peers && Truthful(w, n, matches)
    requires var s := w.peers[n].state;
             && s.term in w.reigns && w.reigns[s.term] == Reign(n, s.log)
             && 1 <= c <= |s.log| && s.log[c - 1].term == s.term
             && CountAtLeast(matches + [|s.log|], c) >= Majority(|w.peers|)
    ensures Chosen(w, w.peers[n].state.term, c)
  {
    var s := w.peers[n].state;
    var who :| Backers(w, n, matches, who);
    CountReaching(matches, who, c);
    CountAppend(matches, |s.log|, c);
    var reaching := Reaching(matches, who, c);
    assert n !in reaching;
    forall x | x in reaching + {n} ensures x in Holders(w, s.term, c) { ReachingHold(w, n, matches, who, c, x); }
    Quorums.SubsetSize(reaching + {n}, Holders(w, s.term, c));
  }

  lemma ReachingHold(w: World, n: NodeId, matches: seq<nat>, who: seq<NodeId>, c: nat, x: NodeId)
    requires n in w.peers && Backers(w, n, matches, who)
    requires var s := w.peers[n].state;
             1 <= c <= |s.log| && s.term in w.reigns && w.reigns[s.term] == Reign(n, s.log)
    requires x in Reaching(matches, who, c) + {n}
    ensures x in Holders(w, w.peers[n].state.term, c)
  {
    if x != n {
      var i :| 0 <= i < |who| && matches[i] >= c && who[i] == x;
      assert TookOver(w, who[i], w.peers[n].state.term, matches[i]);
    }
  }

  lemma LeaderReigns(w: World, n: NodeId)
    requires VotesInv(w) && n in w.peers && w.peers[n].state.role == LEADER
    ensures var s := w.peers[n].state; s.term in w.reigns && w.reigns[s.term] == Reign(n, s.log)
  {}

  /** What the commit rule does: nothing, or a commit index that a majority reaches. */
  lemma CommitOutcome(s: State, matches: seq<nat>, size: nat)
    ensures var s' := CommitEntries(s, matches, size);
            s' == s
            || (var c := s'.commitIndex;
                && s.role == LEADER && s.commitIndex < c <= |s.log| && s' == ApplyCommitted(s.(commitIndex := c))
                && s.log[c - 1].term == s.term && CountAtLeast(matches + [|s.log|], c) >= Majority(size))
  {
    var ys := SortDescending(matches + [|s.log|]);
    ScanGives(s, ys, 0, Majority(size));
    SortKeeps(matches + [|s.log|], CommitScan(s, ys, 0, Majority(size)));
  }

  lemma CommitBacked(w: World, n: NodeId, matches: seq<nat>)
    requires CommitInv(w) && n in w.peers && (w.peers[n].state.role == LEADER ==> Truthful(w, n, matches))
    ensures var s' := CommitEntries(w.peers[n].state, matches, |w.peers|);
            AppliedPrefix(s') && Backed(w, s'.log, s'.commitIndex, s'.term)
  {
    var s := w.peers[n].state;
    var s' := CommitEntries(s, matches, |w.peers|);
    assert NodeBacked(w, n);
    CommitOutcome(s, matches, |w.peers|);
    if s' != s {
      var c := s'.commitIndex;
      LeaderReigns(w, n);
      CommitChooses(w, n, matches, c);
      CommitKeepsApplied(s, c);
      assert BackedBy(w, s'.log, c, s.term, s.term, c);
    }
  }

  // ------------------------------------------------------------------ all steps

  /** Every other step leaves the commit index and the applied entries alone. */
  lemma OtherStepsStill(w: World, a: Action)
    requires Enabled(w, a) && !a.Commit? && !(a.Deliver? && a.message.AppendEntries?)
    ensures var s, s' := w.peers[a.n].state, Act(w, a).peer.state;
            s.log <= s'.log && s'.commitIndex == s.commitIndex && s'.lastApplied == s.lastApplied
            && s'.applied == s.applied
  {}

  lemma OtherBacked(w: World, a: Action)
    requires CommitInv(w) && Enabled(w, a) && !a.Commit? && !(a.Deliver? && a.message.AppendEntries?)
    ensures var s' := Act(w, a).peer.state;
            AppliedPrefix(s') && Backed(w, s'.log, s'.commitIndex, s'.term)
  {
    assert NodeBacked(w, a.n);
    OtherStepsStill(w, a);
    TermsDoNotFall(w, a);
    StillBacked(w, w.peers[a.n].state, Act(w, a).peer.state);
  }

  lemma TermsDoNotFall(w: World, a: Action)
    requires Inv(w) && Enabled(w, a)
    ensures w.peers[a.n].state.term <= Act(w, a).peer.state.term
  {
    ActIsLawful(w, a);
  }

  lemma StillBacked(w: World, s: State, s': State)
    requires AppliedPrefix(s) && Backed(w, s.log, s.commitIndex, s.term)
    requires s.log <= s'.log && s.term <= s'.term
    requires s'.commitIndex == s.commitIndex && s'.lastApplied == s.lastApplied && s'.applied == s.applied
    ensures AppliedPrefix(s') && Backed(w, s'.log, s'.commitIndex, s'.term)
  {
    assert s'.log[..s.commitIndex] == s.log[..s.commitIndex] && s'.log[..s.lastApplied] == s.log[..s.lastApplied];
    assert Grown(w, w);
    BackedStays(w, w, s.log, s'.log, s.commitIndex, s.term, s'.term);
  }

  /** The acting node, judged by what was chosen before the step. */
  lemma ActorBacked(w: World, a: Action)
    requires CommitInv(w) && Enabled(w, a) && Careful(w, a)
    ensures var s' := Act(w, a).peer.state;
            AppliedPrefix(s') && Backed(w, s'.log, s'.commitIndex, s'.term)
  {
    if a.Commit? {
      CommitBacked(w, a.n, a.matches);
    } else if a.Deliver? && a.message.AppendEntries? {
      FactsOfDelivery(w, a.n, a.message);
      DeliveryBacked(w, w.peers[a.n].state, a.message);
    } else {
      OtherBacked(w, a);
    }
  }

  lemma StepGrown(w: World, a: Action)
    requires Inv(w) && Enabled(w, a)
    ensures Grown(w, Next(w, a))
  {
    StepGrowsReigns(w, a);
  }

  lemma NodeBackedKept(w: World, a: Action, n: NodeId)
    requires CommitInv(w) && Enabled(w, a) && Careful(w, a) && n in w.peers && Grown(w, Next(w, a))
    ensures NodeBacked(Next(w, a), n)
  {
    var w' := Next(w, a);
    var s' := w'.peers[n].state;
    if n == a.n { ActorBacked(w, a); } else { assert NodeBacked(w, n); }
    BackedStays(w, w', s'.log, s'.log, s'.commitIndex, s'.term, s'.term);
  }

  lemma NewMessageBacked(w: World, a: Action, m: Message)
    requires CommitInv(w) && Enabled(w, a) && m in Act(w, a).messages && m.AppendEntries?
    ensures m.term in w.reigns && Backed(w, w.reigns[m.term].log, m.leaderCommit, m.term)
  {
    assert a.Ship? && NodeBacked(w, a.n);
    LeaderReigns(w, a.n);
  }

  lemma MessageBackedStays(w: World, w': World, t: nat, c: nat)
    requires Grown(w, w') && t in w.reigns && Backed(w, w.reigns[t].log, c, t)
    ensures t in w'.reigns && Backed(w', w'.reigns[t].log, c, t)
  {
    var f, f' := w.reigns[t].log, w'.reigns[t].log;
    BackedWithin(w, f, c, t);
    SharesGrown(f, f', f, f, c);
    BackedStays(w, w', f, f', c, t, t);
  }

  lemma MessageBackedKept(w: World, a: Action, m: Message)
    requires CommitInv(w) && Enabled(w, a) && Grown(w, Next(w, a)) && m in Next(w, a).sent && m.AppendEntries?
    ensures var w' := Next(w, a);
            m.term in w'.reigns && Backed(w', w'.reigns[m.term].log, m.leaderCommit, m.term)
  {
    if m !in w.sent { NewMessageBacked(w, a, m); }
    MessageBackedStays(w, Next(w, a), m.term, m.leaderCommit);
  }

  lemma BackedWithin(w: World, log: seq<LogEntry>, c: nat, bound: nat)
    requires Backed(w, log, c, bound)
    ensures Shares(log, log, c)
  {}

  lemma CommitInvKept(w: World, a: Action)
    requires CommitInv(w) && Enabled(w, a) && Careful(w, a)
    ensures CommitInv(Next(w, a))
  {
    var w' := Next(w, a);
    CompleteKept(w, a);
    StepGrown(w, a);
    forall n | n in w'.peers ensures NodeBacked(w', n) { NodeBackedKept(w, a, n); }
    forall m | m in w'.sent && m.AppendEntries?
      ensures m.term in w'.reigns && Backed(w', w'.reigns[m.term].log, m.leaderCommit, m.term)
    {
      MessageBackedKept(w, a, m);
    }
  }

  lemma {:induction false} CommitInvAlways(members: set<NodeId>, run: seq<World>, i: nat)
    requires CarefulRun(members, run) && i < |run|
    ensures CommitInv(run[i])
  {
    CarefulRunIsRun(members, run);
    CompleteAlways(members, run, i);
    if i > 0 {
      CommitInvAlways(members, run, i - 1);
      assert CarefulStep(run[i - 1], run[i - 1 + 1]);
      var a :| Enabled(run[i - 1], a) && run[i] == Next(run[i - 1], a) && Careful(run[i - 1], a);
      CommitInvKept(run[i - 1], a);
    }
  }

  // ---------------------------------------------------------------- the theorem

  /** Two committed prefixes of one world are prefixes of one leader's log. */
  lemma CommittedComparable(w: World, x: seq<LogEntry>, c: nat, bound: nat, y: seq<LogEntry>, d: nat, bound': nat)
    requires SafeInv(w) && Backed(w, x, c, bound) && Backed(w, y, d, bound') && c <= d
    ensures Shares(x, y, c)
  {
    if c > 0 {
      var t: nat, m: nat :| BackedBy(w, x, c, bound, t, m);
      var u: nat, k: nat :| BackedBy(w, y, d, bound', u, k);
      var top := if t <= u then u else t;
      LeaderHasCommitted(w, x, c, bound, t, m, top);
      LeaderHasCommitted(w, y, d, bound', u, k, top);
      SharesLess(y, w.reigns[top].log, c, d);
    }
  }

  /** Over every careful run no two nodes ever apply different entries at one position: of
      what any two nodes have applied at any two times, one is a prefix of the other. */
  lemma AppliedNeverDiverge(members: set<NodeId>, run: seq<World>, i: nat, j: nat, a: NodeId, b: NodeId)
    requires CarefulRun(members, run) && i <= j < |run| && a in members && b in members
    ensures a in run[i].peers && b in run[j].peers
    ensures var x, y := run[i].peers[a].state.applied, run[j].peers[b].state.applied; x <= y || y <= x
  {
    CarefulRunIsRun(members, run);
    InvAlways(members, run, i);
    InvAlways(members, run, j);
    CommitInvAlways(members, run, i);
    CommitInvAlways(members, run, j);
    ReignsOnlyGrow(members, run, i, j);
    SentGrows(members, run, i, j);
    var s, s' := run[i].peers[a].state, run[j].peers[b].state;
    assert NodeBacked(run[i], a) && NodeBacked(run[j], b);
    BackedWithin(run[i], s.log, s.commitIndex, s.term);
    BackedStays(run[i], run[j], s.log, s.log, s.commitIndex, s.term, s.term);
    PrefixesComparable(run[j], s, s');
  }

  lemma PrefixesComparable(w: World, s: State, s': State)
    requires SafeInv(w) && AppliedPrefix(s) && AppliedPrefix(s')
    requires Backed(w, s.log, s.commitIndex, s.term) && Backed(w, s'.log, s'.commitIndex, s'.term)
    ensures s.applied <= s'.applied || s'.applied <= s.applied
  {
    var least := Min(s.lastApplied, s'.lastApplied);
    if s.commitIndex <= s'.commitIndex {
      CommittedComparable(w, s.log, s.commitIndex, s.term, s'.log, s'.commitIndex, s'.term);
      SharesLess(s.log, s'.log, least, s.commitIndex);
    } else {
      CommittedComparable(w, s'.log, s'.commitIndex, s'.term, s.log, s.commitIndex, s.term);
      SharesLess(s'.log, s.log, least, s'.commitIndex);
    }
  }
}

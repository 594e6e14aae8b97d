/** The election and log protocol of a whole cluster: nodes that run the steps of
    `Election` and a network that may lose, delay, reorder and repeat messages.
    The membership is constant and nodes do not restart. */
module ElectionProtocol {
  import opened Nodes
  import opened Options
  import opened Election
  import Quorums

  /** An election in progress: the votes counted so far and who was counted. */
  datatype Campaign = Campaign(term: nat, votes: nat, asked: set<NodeId>)

  datatype Peer = Peer(state: State, campaign: Option<Campaign>)

  datatype Message =
    | VoteRequest(candidate: NodeId, term: nat, lastIndex: nat, lastTerm: nat)
    | VoteReply(voter: NodeId, candidate: NodeId, term: nat, granted: bool)
    | Heartbeat(leader: NodeId, term: nat)
    | AppendEntries(leader: NodeId, term: nat, prevIndex: nat, prevTerm: nat,
                    entries: seq<LogEntry>, leaderCommit: nat)
    | AppendReply(follower: NodeId, leader: NodeId, term: nat, upTo: nat, success: bool, matchIndex: nat)

  datatype Ballot = Ballot(voter: NodeId, term: nat, candidate: NodeId)

  datatype Reign = Reign(leader: NodeId, log: seq<LogEntry>)

  /** `sent` holds every message ever sent. The `upTo` of a reply is the last position of the
      request it answers; the sender knows it, and the reply itself carries `matchIndex`.
      `ballots` and `reigns` record history for the proofs; no step reads them. A reign is a
      term's leader and the log it had when it last acted as leader. */
  datatype World = World(peers: map<NodeId, Peer>, sent: set<Message>, ballots: set<Ballot>, reigns: map<nat, Reign>)

  datatype Action =
    | Begin(n: NodeId)
    | Count(n: NodeId, voter: NodeId, granted: bool)
    | Conclude(n: NodeId)
    | Resign(n: NodeId)
    | Beat(n: NodeId)
    | Propose(n: NodeId, command: string, key: string, value: string)
    | Ship(n: NodeId, from: nat, to: nat)
    | Commit(n: NodeId, matches: seq<nat>)
    | Deliver(n: NodeId, message: Message)

  function Start(members: set<NodeId>): World {
    World(map n | n in members :: Peer(Fresh(n), None), {}, {}, map[])
  }

  /** The guards that the program tests before each step. */
  predicate Enabled(w: World, a: Action) {
    a.n in w.peers &&
    var p := w.peers[a.n];
    match a
    case Begin(n) => p.state.role != LEADER && p.campaign == None
    case Count(n, voter, granted) =>
      p.campaign.Some? && voter in w.peers && voter != n && voter !in p.campaign.value.asked
      && VoteReply(voter, n, p.campaign.value.term, granted) in w.sent
    case Conclude(n) => p.campaign.Some?
    case Resign(n) => true
    case Beat(n) => true
    case Propose(n, _, _, _) => true
    case Ship(n, from, to) => p.state.role == LEADER && from <= to <= |p.state.log|
    case Commit(n, matches) => true
    case Deliver(n, m) =>
      m in w.sent
      && (match m
          case VoteRequest(c, _, _, _) => c != n
          case VoteReply(_, _, _, _) => false
          case AppendReply(_, _, _, _, _, _) => false
          case Heartbeat(l, _) => l != n
          case AppendEntries(l, _, _, _, es, _) => l != n && Indexed(es))
  }

  /** What one step does: the acting node's next state, what it sends, what it votes. */
  datatype Effect = Effect(peer: Peer, messages: set<Message>, ballots: set<Ballot>)

  function Receive(p: Peer, m: Message): Effect
    requires m.AppendEntries? ==> Indexed(m.entries)
  {
    var s := p.state;
    match m
    case VoteRequest(c, t, li, lt) =>
      var (s', granted) := HandleVoteRequest(s, c, t, li, lt);
      Effect(p.(state := s'), {VoteReply(s.id, c, t, granted)}, if granted then {Ballot(s.id, t, c)} else {})
    case VoteReply(_, _, _, _) => Effect(p, {}, {})
    case AppendReply(_, _, _, _, _, _) => Effect(p, {}, {})
    case Heartbeat(l, t) => Effect(p.(state := ReceiveHeartbeat(s, l, t)), {}, {})
    case AppendEntries(l, t, pi, pt, es, lc) =>
      var (s', success, matchIndex) := HandleAppendEntries(s, l, t, pi, pt, es, lc);
      Effect(p.(state := s'), {AppendReply(s.id, l, s'.term, pi + |es|, success, matchIndex)}, {})
  }

  function Act(w: World, a: Action): Effect
    requires Enabled(w, a)
  {
    var n := a.n;
    var p := w.peers[n];
    var s := p.state;
    match a
    case Begin(_) =>
      var s' := StartElection(s);
      Effect(Peer(s', Some(Campaign(s'.term, 1, {}))), {VoteRequest(n, s'.term, |s.log|, LastTerm(s.log))},
             {Ballot(n, s'.term, n)})
    case Count(_, voter, granted) =>
      var c := p.campaign.value;
      var votes := if granted then c.votes + 1 else c.votes;
      Effect(p.(campaign := Some(Campaign(c.term, votes, c.asked + {voter}))), {}, {})
    case Conclude(_) =>
      Effect(Peer(FinishElection(s, p.campaign.value.term, p.campaign.value.votes, |w.peers|), None), {}, {})
    case Resign(_) => Effect(p.(state := StepDown(s)), {}, {})
    case Beat(_) => Effect(p, {Heartbeat(n, s.term)}, {})
    case Propose(_, c, k, v) => Effect(p.(state := AppendEntry(s, c, k, v)), {}, {})
    case Ship(_, from, to) => Effect(p, {Slice(s, from, to)}, {})
    case Commit(_, matches) => Effect(p.(state := CommitEntries(s, matches, |w.peers|)), {}, {})
    case Deliver(_, m) => Receive(p, m)
  }

  /** The AppendEntries message carrying the leader's log positions from..to. */
  function Slice(s: State, from: nat, to: nat): Message
    requires from <= to <= |s.log|
  {
    AppendEntries(s.id, s.term, from, if from > 0 then s.log[from - 1].term else 0, s.log[from..to], s.commitIndex)
  }

  function Next(w: World, a: Action): World
    requires Enabled(w, a)
  {
    var e := Act(w, a);
    var s := e.peer.state;
    World(w.peers[a.n := e.peer], w.sent + e.messages, w.ballots + e.ballots,
          if s.role == LEADER then w.reigns[s.term := Reign(a.n, s.log)] else w.reigns)
  }

  /** A run is a sequence of worlds; each comes from the one before by an enabled action. */
  ghost predicate IsRun(members: set<NodeId>, run: seq<World>) {
    run != [] && run[0] == Start(members)
    && forall i :: 0 <= i < |run| - 1 ==> CanStep(run[i], run[i + 1])
  }

  ghost predicate CanStep(w: World, w': World) {
    exists a :: Enabled(w, a) && w' == Next(w, a)
  }

  // ------------------------------------------------------------ election safety

  ghost predicate Wellknown(w: World) {
    && (forall n :: n in w.peers ==> w.peers[n].state.id == n)
    && (forall b :: b in w.ballots ==> b.voter in w.peers)
  }

  /** A recorded ballot binds its voter: terms only grow, and within its current term a
      node stands by its vote. */
  ghost predicate BallotsBind(w: World)
    requires Wellknown(w)
  {
    forall b :: b in w.ballots ==>
      var s := w.peers[b.voter].state;
      b.term <= s.term && (b.term == s.term ==> s.votedFor == Some(b.candidate))
  }

  ghost predicate OneBallotPerTerm(w: World) {
    forall b, c :: b in w.ballots && c in w.ballots && b.voter == c.voter && b.term == c.term ==> b == c
  }

  ghost predicate RepliesAreBallots(w: World) {
    forall v, c, t :: VoteReply(v, c, t, true) in w.sent ==> Ballot(v, t, c) in w.ballots
  }

  ghost function Voters(w: World, term: nat, candidate: NodeId): set<NodeId> {
    set b | b in w.ballots && b.term == term && b.candidate == candidate :: b.voter
  }

  ghost predicate CampaignSound(w: World, n: NodeId)
    requires n in w.peers
  {
    w.peers[n].campaign.Some? ==>
      var c := w.peers[n].campaign.value;
      && c.term <= w.peers[n].state.term
      && Ballot(n, c.term, n) in w.ballots
      && n !in c.asked
      && c.votes <= 1 + |Voters(w, c.term, n) * c.asked|
  }

  /** Every reign rests on a majority of ballots; its leader is never again a candidate in
      that term, and a node that is leader is the recorded one, with its whole log. */
  ghost predicate ReignsSound(w: World) {
    && (forall t :: t in w.reigns ==>
          && w.reigns[t].leader in w.peers
          && |Voters(w, t, w.reigns[t].leader)| >= Majority(|w.peers|)
          && t <= w.peers[w.reigns[t].leader].state.term
          && (t == w.peers[w.reigns[t].leader].state.term ==> w.peers[w.reigns[t].leader].state.role != CANDIDATE))
    && (forall n :: n in w.peers && w.peers[n].state.role == LEADER ==>
          w.peers[n].state.term in w.reigns && w.reigns[w.peers[n].state.term] == Reign(n, w.peers[n].state.log))
  }

  ghost predicate VotesInv(w: World) {
    && Wellknown(w) && BallotsBind(w) && OneBallotPerTerm(w) && RepliesAreBallots(w)
    && (forall n :: n in w.peers ==> CampaignSound(w, n))
    && ReignsSound(w)
  }

  /** Two candidates of one term cannot both have a majority of the ballots. */
  lemma MajorityIsUnique(w: World, t: nat, a: NodeId, b: NodeId)
    requires Wellknown(w) && OneBallotPerTerm(w)
    requires |Voters(w, t, a)| >= Majority(|w.peers|) && |Voters(w, t, b)| >= Majority(|w.peers|)
    ensures a == b
  {
    var members := w.peers.Keys;
    assert |members| == |w.peers|;
    var m := Quorums.Intersect(members, Voters(w, t, a), Voters(w, t, b));
    assert Ballot(m, t, a) in w.ballots && Ballot(m, t, b) in w.ballots;
  }

  lemma VotersGrow(w: World, w': World, t: nat, c: NodeId)
    requires w.ballots <= w'.ballots
    ensures Voters(w, t, c) <= Voters(w', t, c) && |Voters(w, t, c)| <= |Voters(w', t, c)|
  {
    Quorums.SubsetSize(Voters(w, t, c), Voters(w', t, c));
  }

  /** What the steps of one node have in common: its term never shrinks, its vote stands
      within a term, and new ballots agree with its new state. */
  ghost predicate Lawful(w: World, w': World, n: NodeId) {
    && n in w.peers && w'.peers.Keys == w.peers.Keys
    && (forall m :: m in w.peers && m != n ==> w'.peers[m] == w.peers[m])
    && w'.peers[n].state.id == n
    && w.peers[n].state.term <= w'.peers[n].state.term
    && (w.peers[n].state.term == w'.peers[n].state.term && w.peers[n].state.votedFor.Some?
        ==> w'.peers[n].state.votedFor == w.peers[n].state.votedFor)
    && w.ballots <= w'.ballots
    && (forall b :: b in w'.ballots - w.ballots ==>
          b.voter == n && b.term == w'.peers[n].state.term && w'.peers[n].state.votedFor == Some(b.candidate))
    && (forall v, c, t :: VoteReply(v, c, t, true) in w'.sent - w.sent ==> Ballot(v, t, c) in w'.ballots)
  }

  /** What every handler does to a node's standing: only an election makes a node more
      than a follower, and nothing takes back a vote within a term. */
  ghost predicate Steady(s: State, s': State) {
    && s'.id == s.id && s.term <= s'.term
    && (s.term == s'.term && s.votedFor.Some? ==> s'.votedFor == s.votedFor)
    && (s'.role != FOLLOWER ==> s'.role == s.role && s'.term == s.term)
  }

  lemma AppendIsSteady(s: State, l: NodeId, t: nat, pi: nat, pt: nat, es: seq<LogEntry>, lc: nat)
    requires Indexed(es)
    ensures var s' := HandleAppendEntries(s, l, t, pi, pt, es, lc).0;
            Steady(s, s') && (t >= s.term ==> s'.role == FOLLOWER) && (t < s.term ==> s' == s)
  {}

  lemma CommitIsSteady(s: State, matches: seq<nat>, size: nat)
    ensures var s' := CommitEntries(s, matches, size);
            Steady(s, s') && s'.log == s.log && s'.role == s.role && s'.term == s.term
  {}

  ghost predicate LawfulEffect(s: State, e: Effect) {
    && s.id == e.peer.state.id && s.term <= e.peer.state.term
    && (s.term == e.peer.state.term && s.votedFor.Some? ==> e.peer.state.votedFor == s.votedFor)
    && (forall b :: b in e.ballots ==>
          b.voter == s.id && b.term == e.peer.state.term && e.peer.state.votedFor == Some(b.candidate))
    && (forall v, c, t :: VoteReply(v, c, t, true) in e.messages ==> Ballot(v, t, c) in e.ballots)
  }

  lemma ReceiveIsLawful(p: Peer, m: Message)
    requires m.AppendEntries? ==> Indexed(m.entries)
    ensures LawfulEffect(p.state, Receive(p, m)) && Steady(p.state, Receive(p, m).peer.state)
    ensures Receive(p, m).peer.campaign == p.campaign
  {
    if m.AppendEntries? {
      AppendIsSteady(p.state, m.leader, m.term, m.prevIndex, m.prevTerm, m.entries, m.leaderCommit);
    }
  }

  lemma ActIsLawful(w: World, a: Action)
    requires Wellknown(w) && Enabled(w, a)
    ensures LawfulEffect(w.peers[a.n].state, Act(w, a))
  {
    match a
    case Deliver(n, m) => ReceiveIsLawful(w.peers[n], m);
    case Commit(n, matches) => CommitIsSteady(w.peers[n].state, matches, |w.peers|);
    case _ =>
  }

  lemma StepIsLawful(w: World, a: Action)
    requires VotesInv(w) && Enabled(w, a)
    ensures Lawful(w, Next(w, a), a.n)
  {
    ActIsLawful(w, a);
  }

  lemma BallotsKept(w: World, w': World, n: NodeId)
    requires VotesInv(w) && Lawful(w, w', n)
    ensures Wellknown(w') && BallotsBind(w') && OneBallotPerTerm(w') && RepliesAreBallots(w')
  {
    forall b, c | b in w'.ballots && c in w'.ballots && b.voter == c.voter && b.term == c.term ensures b == c {
      if b in w.ballots - w'.ballots || c in w.ballots - w'.ballots {}
    }
  }

  lemma OthersCampaignsKept(w: World, w': World, n: NodeId, m: NodeId)
    requires VotesInv(w) && Lawful(w, w', n) && m in w.peers && m != n
    ensures CampaignSound(w', m)
  {
    if w.peers[m].campaign.Some? {
      CampaignVotersGrow(w, w', m, w.peers[m].campaign.value);
    }
  }

  lemma CampaignVotersGrow(w: World, w': World, m: NodeId, c: Campaign)
    requires w.ballots <= w'.ballots
    ensures |Voters(w, c.term, m) * c.asked| <= |Voters(w', c.term, m) * c.asked|
  {
    VotersGrow(w, w', c.term, m);
    Quorums.SubsetSize(Voters(w, c.term, m) * c.asked, Voters(w', c.term, m) * c.asked);
  }

  lemma CountEffect(w: World, a: Action)
    requires Enabled(w, a) && a.Count?
    ensures var p, p' := w.peers[a.n], Next(w, a).peers[a.n];
            var c := p.campaign.value;
            && Next(w, a).ballots == w.ballots && p'.state == p.state
            && p'.campaign == Some(Campaign(c.term, if a.granted then c.votes + 1 else c.votes, c.asked + {a.voter}))
  {}

  lemma CountKept(w: World, a: Action)
    requires VotesInv(w) && Enabled(w, a) && a.Count?
    ensures CampaignSound(Next(w, a), a.n)
  {
    var n := a.n;
    var c := w.peers[n].campaign.value;
    CountEffect(w, a);
    assert CampaignSound(w, n);
    if a.granted { GrantedIsBallot(w, a.voter, n, c.term); }
    VotersGrow(w, Next(w, a), c.term, n);
    OneMoreAsked(Voters(w, c.term, n), Voters(Next(w, a), c.term, n), c.asked, a.voter, a.granted);
  }

  lemma GrantedIsBallot(w: World, voter: NodeId, n: NodeId, t: nat)
    requires RepliesAreBallots(w) && VoteReply(voter, n, t, true) in w.sent
    ensures voter in Voters(w, t, n)
  {
    assert Ballot(voter, t, n) in w.ballots;
  }

  lemma OneMoreAsked(voters: set<NodeId>, voters': set<NodeId>, asked: set<NodeId>, voter: NodeId, granted: bool)
    requires voters <= voters' && voter !in asked && (granted ==> voter in voters)
    ensures |voters' * (asked + {voter})| >= |voters * asked| + if granted then 1 else 0
  {
    if granted {
      Quorums.SubsetSize(voters * asked + {voter}, voters' * (asked + {voter}));
    } else {
      Quorums.SubsetSize(voters * asked, voters' * (asked + {voter}));
    }
  }

  lemma CampaignChanges(w: World, a: Action)
    requires Wellknown(w) && Enabled(w, a) && !a.Count?
    ensures var c := Act(w, a).peer.campaign;
            c == None || c == w.peers[a.n].campaign || c == Some(Campaign(w.peers[a.n].state.term + 1, 1, {}))
    ensures a.Begin? ==> Ballot(a.n, w.peers[a.n].state.term + 1, a.n) in Act(w, a).ballots
                         && Act(w, a).peer.state.term == w.peers[a.n].state.term + 1
    ensures !a.Begin? ==> Act(w, a).peer.campaign == None || Act(w, a).peer.campaign == w.peers[a.n].campaign
  {
    if a.Deliver? { ReceiveIsLawful(w.peers[a.n], a.message); }
  }

  lemma OwnCampaignKept(w: World, a: Action)
    requires VotesInv(w) && Enabled(w, a)
    ensures CampaignSound(Next(w, a), a.n)
  {
    if a.Count? {
      CountKept(w, a);
    } else {
      var w' := Next(w, a);
      StepIsLawful(w, a);
      CampaignChanges(w, a);
      if w'.peers[a.n].campaign == w.peers[a.n].campaign && w.peers[a.n].campaign.Some? {
        assert CampaignSound(w, a.n);
        CampaignVotersGrow(w, w', a.n, w.peers[a.n].campaign.value);
      }
    }
  }

  /** A node that wins holds a majority of its term's ballots. */
  lemma WinnerHasMajority(w: World, n: NodeId)
    requires VotesInv(w) && n in w.peers && w.peers[n].campaign.Some?
    requires w.peers[n].campaign.value.votes >= Majority(|w.peers|)
    ensures |Voters(w, w.peers[n].campaign.value.term, n)| >= Majority(|w.peers|)
  {
    var c := w.peers[n].campaign.value;
    assert CampaignSound(w, n);
    var yes := Voters(w, c.term, n) * c.asked;
    assert n in Voters(w, c.term, n) by { assert Ballot(n, c.term, n) in w.ballots; }
    Quorums.SubsetSize(yes + {n}, Voters(w, c.term, n));
  }

  /** How the record of reigns changes in one step. */
  ghost predicate ReignsFollow(w: World, w': World, n: NodeId)
    requires n in w.peers && n in w'.peers
  {
    var s, s' := w.peers[n].state, w'.peers[n].state;
    && (s'.role == LEADER ==>
          && s.term == s'.term
          && (s.role == LEADER || (s.role == CANDIDATE && |Voters(w, s.term, n)| >= Majority(|w.peers|)))
          && w'.reigns == w.reigns[s'.term := Reign(n, s'.log)])
    && (s'.role != LEADER ==> w'.reigns == w.reigns)
    && (s'.role == CANDIDATE ==> s'.term > s.term || (s.role == CANDIDATE && s.term == s'.term))
  }

  /** Who may lead or run after a step. */
  lemma DeliverIsSteady(p: Peer, m: Message)
    requires m.AppendEntries? ==> Indexed(m.entries)
    ensures Steady(p.state, Receive(p, m).peer.state)
  {
    ReceiveIsLawful(p, m);
  }

  lemma QuietAct(w: World, a: Action)
    requires Enabled(w, a) && (a.Begin? || a.Count? || a.Resign? || a.Beat? || a.Ship?)
    ensures var s, s' := w.peers[a.n].state, Act(w, a).peer.state;
            && s'.log == s.log
            && (s' == s
                || (s'.term > s.term && s'.role == CANDIDATE)
                || (s'.term == s.term && s'.role == FOLLOWER))
  {}

  lemma StandingFollows(w: World, a: Action)
    requires VotesInv(w) && Enabled(w, a)
    ensures var s, s' := w.peers[a.n].state, Act(w, a).peer.state;
            && (s'.role == LEADER ==>
                  s.term == s'.term
                  && (s.role == LEADER || (s.role == CANDIDATE && |Voters(w, s.term, a.n)| >= Majority(|w.peers|))))
            && (s'.role == CANDIDATE ==> s'.term > s.term || (s.role == CANDIDATE && s.term == s'.term))
  {
    match a
    case Deliver(n, m) => DeliverIsSteady(w.peers[n], m);
    case Commit(n, matches) => CommitIsSteady(w.peers[n].state, matches, |w.peers|);
    case Conclude(_) => ConcludeStanding(w, a);
    case Propose(n, c, k, v) =>
    case _ => QuietAct(w, a);
  }

  lemma ConcludeStanding(w: World, a: Action)
    requires VotesInv(w) && Enabled(w, a) && a.Conclude?
    ensures var s, s' := w.peers[a.n].state, Act(w, a).peer.state;
            s' == s || (s.role == CANDIDATE && s'.term == s.term && s'.role == LEADER
                        && |Voters(w, s.term, a.n)| >= Majority(|w.peers|))
  {
    if w.peers[a.n].campaign.value.votes >= Majority(|w.peers|) { WinnerHasMajority(w, a.n); }
  }

  lemma StepRecordsReign(w: World, a: Action)
    requires VotesInv(w) && Enabled(w, a)
    ensures ReignsFollow(w, Next(w, a), a.n)
  {
    StandingFollows(w, a);
  }

  /** A term is never won twice. */
  lemma WinnerIsFirst(w: World, w': World, n: NodeId)
    requires VotesInv(w) && Lawful(w, w', n) && ReignsFollow(w, w', n)
    requires w'.peers[n].state.role == LEADER && w'.peers[n].state.term in w.reigns
    ensures w.peers[n].state.role == LEADER && w.reigns[w'.peers[n].state.term].leader == n
  {
    var s := w.peers[n].state;
    if s.role == CANDIDATE {
      MajorityIsUnique(w, s.term, n, w.reigns[s.term].leader);
      assert false;
    }
  }

  lemma ReignStands(w: World, w': World, n: NodeId, t: nat)
    requires VotesInv(w) && Lawful(w, w', n) && ReignsFollow(w, w', n) && t in w'.reigns
    ensures t in w.reigns ==> w'.reigns[t].leader == w.reigns[t].leader
    ensures var l := w'.reigns[t].leader;
            && l in w'.peers && |Voters(w', t, l)| >= Majority(|w'.peers|)
            && t <= w'.peers[l].state.term
            && (t == w'.peers[l].state.term ==> w'.peers[l].state.role != CANDIDATE)
  {
    assert |w'.peers| == |w'.peers.Keys| && |w.peers| == |w.peers.Keys|;
    var s' := w'.peers[n].state;
    if s'.role == LEADER && t == s'.term {
      VotersGrow(w, w', t, n);
      if t in w.reigns {
        WinnerIsFirst(w, w', n);
        assert |Voters(w, t, n)| >= Majority(|w.peers|);
      }
    } else {
      VotersGrow(w, w', t, w.reigns[t].leader);
    }
  }

  lemma ReignsKept(w: World, w': World, n: NodeId)
    requires VotesInv(w) && Lawful(w, w', n) && ReignsFollow(w, w', n)
    ensures ReignsSound(w')
    ensures forall t :: t in w.reigns ==> t in w'.reigns && w'.reigns[t].leader == w.reigns[t].leader
  {
    forall t | t in w'.reigns
      ensures t in w.reigns ==> w'.reigns[t].leader == w.reigns[t].leader
      ensures w'.reigns[t].leader in w'.peers
      ensures |Voters(w', t, w'.reigns[t].leader)| >= Majority(|w'.peers|)
      ensures t <= w'.peers[w'.reigns[t].leader].state.term
      ensures t == w'.peers[w'.reigns[t].leader].state.term ==> w'.peers[w'.reigns[t].leader].state.role != CANDIDATE
    {
      ReignStands(w, w', n, t);
    }
    forall m | m in w'.peers && w'.peers[m].state.role == LEADER
      ensures w'.peers[m].state.term in w'.reigns
      ensures w'.reigns[w'.peers[m].state.term] == Reign(m, w'.peers[m].state.log)
    {
      LeaderRecorded(w, w', n, m);
    }
  }

  lemma LeaderRecorded(w: World, w': World, n: NodeId, m: NodeId)
    requires VotesInv(w) && Lawful(w, w', n) && ReignsFollow(w, w', n) && m in w'.peers
            && w'.peers[m].state.role == LEADER
    ensures w'.peers[m].state.term in w'.reigns
    ensures w'.reigns[w'.peers[m].state.term] == Reign(m, w'.peers[m].state.log)
  {
    var t := w'.peers[m].state.term;
    if m != n && w'.peers[n].state.role == LEADER && t == w'.peers[n].state.term {
      assert w.reigns[t] == Reign(m, w.peers[m].state.log);
      WinnerIsFirst(w, w', n);
      assert false;
    }
  }

  lemma VotesInvKept(w: World, a: Action)
    requires VotesInv(w) && Enabled(w, a)
    ensures VotesInv(Next(w, a))
    ensures forall t :: t in w.reigns ==> t in Next(w, a).reigns && Next(w, a).reigns[t].leader == w.reigns[t].leader
  {
    var w' := Next(w, a);
    StepIsLawful(w, a);
    BallotsKept(w, w', a.n);
    forall m | m in w'.peers ensures CampaignSound(w', m) {
      if m == a.n { OwnCampaignKept(w, a); } else { OthersCampaignsKept(w, w', a.n, m); }
    }
    StepRecordsReign(w, a);
    ReignsKept(w, w', a.n);
  }

  // --------------------------------------------------------------- log matching

  /** The entry at position i has index i + 1, and the log up to it is what the leader of
      the entry's term had. */
  ghost predicate Traced(reigns: map<nat, Reign>, log: seq<LogEntry>, i: nat)
    requires i < |log|
  {
    && log[i].index == i + 1
    && log[i].term in reigns
    && i < |reigns[log[i].term].log|
    && log[..i + 1] == reigns[log[i].term].log[..i + 1]
  }

  ghost predicate Coherent(reigns: map<nat, Reign>, log: seq<LogEntry>) {
    forall i: nat :: i < |log| ==> Traced(reigns, log, i)
  }

  ghost predicate Ordered(log: seq<LogEntry>, bound: nat) {
    && (forall i, j :: 0 <= i <= j < |log| ==> log[i].term <= log[j].term)
    && (forall i :: 0 <= i < |log| ==> log[i].term <= bound)
  }

  /** An AppendEntries message is a slice of the log of its term's leader. */
  ghost predicate SliceOf(reigns: map<nat, Reign>, m: Message) {
    m.AppendEntries? ==>
      && m.term in reigns && reigns[m.term].leader == m.leader
      && m.prevIndex + |m.entries| <= |reigns[m.term].log|
      && m.entries == reigns[m.term].log[m.prevIndex..m.prevIndex + |m.entries|]
      && (m.prevIndex > 0 ==> reigns[m.term].log[m.prevIndex - 1].term == m.prevTerm)
  }

  ghost predicate LogsInv(w: World) {
    && (forall n :: n in w.peers ==> Coherent(w.reigns, w.peers[n].state.log))
    && (forall n :: n in w.peers ==> Ordered(w.peers[n].state.log, w.peers[n].state.term))
    && (forall t :: t in w.reigns ==> Coherent(w.reigns, w.reigns[t].log) && Ordered(w.reigns[t].log, t))
    && (forall m :: m in w.sent ==> SliceOf(w.reigns, m))
  }

  ghost predicate ReignsGrow(r: map<nat, Reign>, r': map<nat, Reign>) {
    forall t :: t in r ==> t in r' && r'[t].leader == r[t].leader && r[t].log <= r'[t].log
  }

  lemma CoherentGrows(r: map<nat, Reign>, r': map<nat, Reign>, log: seq<LogEntry>)
    requires Coherent(r, log) && ReignsGrow(r, r')
    ensures Coherent(r', log)
  {
    forall i: nat | i < |log| ensures Traced(r', log, i) {
      assert Traced(r, log, i);
      var f, f' := r[log[i].term].log, r'[log[i].term].log;
      assert f'[..i + 1] == f'[..|f|][..i + 1];
    }
  }

  lemma SliceGrows(r: map<nat, Reign>, r': map<nat, Reign>, m: Message)
    requires SliceOf(r, m) && ReignsGrow(r, r')
    ensures SliceOf(r', m)
  {
    if m.AppendEntries? {
      var f, f' := r[m.term].log, r'[m.term].log;
      assert f == f'[..|f|];
      assert f[m.prevIndex..m.prevIndex + |m.entries|] == f'[m.prevIndex..m.prevIndex + |m.entries|];
    }
  }

  lemma CoherentPrefix(r: map<nat, Reign>, log: seq<LogEntry>, n: nat)
    requires Coherent(r, log) && n <= |log|
    ensures Coherent(r, log[..n])
  {
    forall i: nat | i < n ensures Traced(r, log[..n], i) {
      assert Traced(r, log, i);
      assert log[..n][..i + 1] == log[..i + 1];
    }
  }

  /** Log matching between any two coherent logs. */
  lemma CoherentMatch(r: map<nat, Reign>, a: seq<LogEntry>, b: seq<LogEntry>, k: nat)
    requires Coherent(r, a) && Coherent(r, b) && k < |a| && k < |b| && a[k].term == b[k].term
    ensures a[..k + 1] == b[..k + 1]
  {
    assert Traced(r, a, k) && Traced(r, b, k);
  }

  lemma SliceContinues(r: map<nat, Reign>, f: seq<LogEntry>, p: nat, q: nat)
    requires Coherent(r, f) && p <= q <= |f|
    ensures ContiguousFrom(f[p..q], p) && Indexed(f[p..q])
  {
    forall i: nat | i < q - p ensures f[p..q][i].index == p + i + 1 { assert Traced(r, f, p + i); }
  }

  /** Two coherent logs agree on a prefix as soon as they agree on its last term. */
  lemma CommonPrefix(r: map<nat, Reign>, a: seq<LogEntry>, b: seq<LogEntry>, k: nat)
    requires Coherent(r, a) && Coherent(r, b) && k <= |a| && k <= |b|
    requires k > 0 ==> a[k - 1].term == b[k - 1].term
    ensures a[..k] == b[..k]
  {
    if k > 0 { CoherentMatch(r, a, b, k - 1); }
  }

  /** Where the log first departs from a slice es of f that starts at p. */
  lemma DeparturePoint(log: seq<LogEntry>, f: seq<LogEntry>, es: seq<LogEntry>, p: nat)
    requires p + |es| <= |f| && es == f[p..p + |es|] && p <= |log|
    requires p > 0 ==> log[p - 1].term == f[p - 1].term
    ensures var k := p + Agreement(log, es, p);
            k <= |log| && k <= |f| && (k > 0 ==> log[k - 1].term == f[k - 1].term)
  {
    var n := Agreement(log, es, p);
    if n > 0 {
      var last := n - 1;
      assert log[p + last].term == es[last].term;
    }
  }

  /** Absorbing a slice es of f, when the log shares with f everything before the point of
      departure, gives back the log itself or the prefix of f that ends with the slice. */
  lemma AbsorbSlice(log: seq<LogEntry>, f: seq<LogEntry>, es: seq<LogEntry>, p: nat, n: nat, r: seq<LogEntry>)
    requires p + |es| <= |f| && es == f[p..p + |es|] && n <= |es|
    requires p + n <= |log| && p + n <= |f| && log[..p + n] == f[..p + n]
    requires r == if n == |es| then log else log[..p + n] + es[n..]
    ensures r == log || r == f[..p + |es|]
  {
    SplicePrefix(log, f, es, p, n);
  }

  lemma AbsorbShared(log: seq<LogEntry>, f: seq<LogEntry>, es: seq<LogEntry>, p: nat, n: nat)
    requires p + |es| <= |f| && es == f[p..p + |es|] && n == Agreement(log, es, p) && p <= |log|
    requires p + n <= |log| && p + n <= |f| && log[..p + n] == f[..p + n]
    requires ContiguousFrom(es, p) && Indexed(es)
    ensures AbsorbAll(log, es) == log || AbsorbAll(log, es) == f[..p + |es|]
  {
    AbsorbAllShape(log, es, p);
    AbsorbSlice(log, f, es, p, n, AbsorbAll(log, es));
  }

  lemma AbsorbFromLeader(r: map<nat, Reign>, log: seq<LogEntry>, f: seq<LogEntry>, es: seq<LogEntry>, p: nat)
    requires Coherent(r, log) && Coherent(r, f)
    requires p + |es| <= |f| && es == f[p..p + |es|] && p <= |log| && Indexed(es)
    requires p > 0 ==> log[p - 1].term == f[p - 1].term
    ensures AbsorbAll(log, es) == log || AbsorbAll(log, es) == f[..p + |es|]
  {
    SliceContinues(r, f, p, p + |es|);
    var n := SharedUpTo(r, log, f, es, p);
    AbsorbShared(log, f, es, p, n);
  }

  /** The logs share everything before the point of departure. */
  lemma SharedUpTo(r: map<nat, Reign>, log: seq<LogEntry>, f: seq<LogEntry>, es: seq<LogEntry>, p: nat) returns (n: nat)
    requires Coherent(r, log) && Coherent(r, f)
    requires p + |es| <= |f| && es == f[p..p + |es|] && p <= |log|
    requires p > 0 ==> log[p - 1].term == f[p - 1].term
    ensures n == Agreement(log, es, p) && p + n <= |log| && p + n <= |f| && log[..p + n] == f[..p + n]
  {
    n := Agreement(log, es, p);
    DeparturePoint(log, f, es, p);
    CommonPrefix(r, log, f, p + n);
  }

  lemma SplicePrefix(log: seq<LogEntry>, f: seq<LogEntry>, es: seq<LogEntry>, p: nat, n: nat)
    requires p + |es| <= |f| && es == f[p..p + |es|] && n <= |es| && p + n <= |log|
    requires log[..p + n] == f[..p + n]
    ensures log[..p + n] + es[n..] == f[..p + |es|]
  {}

  lemma HandledLog(s: State, l: NodeId, t: nat, pi: nat, pt: nat, es: seq<LogEntry>, lc: nat)
    requires Indexed(es)
    ensures var s' := HandleAppendEntries(s, l, t, pi, pt, es, lc).0;
            && s.term <= s'.term
            && (s'.log == s.log
                || (0 < pi <= |s.log| && s'.log == s.log[..pi - 1])
                || (t <= s'.term && pi <= |s.log| && (pi > 0 ==> s.log[pi - 1].term == pt)
                    && s'.log == AbsorbAll(s.log, es)))
  {}

  lemma OrderedPrefix(log: seq<LogEntry>, bound: nat, n: nat, bound': nat)
    requires Ordered(log, bound) && n <= |log| && bound <= bound'
    ensures Ordered(log[..n], bound')
  {}

  lemma AbsorbedCoherent(r: map<nat, Reign>, log: seq<LogEntry>, bound: nat, f: seq<LogEntry>, term: nat,
      es: seq<LogEntry>, p: nat, bound': nat)
    requires Coherent(r, log) && Ordered(log, bound) && Coherent(r, f) && Ordered(f, term)
    requires p + |es| <= |f| && es == f[p..p + |es|] && p <= |log| && Indexed(es)
    requires p > 0 ==> log[p - 1].term == f[p - 1].term
    requires bound <= bound' && term <= bound'
    ensures Coherent(r, AbsorbAll(log, es)) && Ordered(AbsorbAll(log, es), bound')
  {
    AbsorbFromLeader(r, log, f, es, p);
    if AbsorbAll(log, es) != log { PrefixCoherent(r, f, term, p + |es|, bound'); }
  }

  /** A follower whose log passes the consistency check ends with its own log or with a
      prefix of the leader's. */
  lemma AppendCoherent(r: map<nat, Reign>, s: State, m: Message)
    requires m.AppendEntries? && SliceOf(r, m) && Coherent(r, s.log)
    requires Coherent(r, r[m.term].log) && Ordered(r[m.term].log, m.term) && Ordered(s.log, s.term)
    requires Indexed(m.entries)
    ensures var s' := HandleAppendEntries(s, m.leader, m.term, m.prevIndex, m.prevTerm, m.entries, m.leaderCommit).0;
            Coherent(r, s'.log) && Ordered(s'.log, s'.term)
  {
    var s' := HandleAppendEntries(s, m.leader, m.term, m.prevIndex, m.prevTerm, m.entries, m.leaderCommit).0;
    HandledLog(s, m.leader, m.term, m.prevIndex, m.prevTerm, m.entries, m.leaderCommit);
    var p := m.prevIndex;
    if s'.log == s.log {
    } else if 0 < p <= |s.log| && s'.log == s.log[..p - 1] {
      PrefixCoherent(r, s.log, s.term, p - 1, s'.term);
    } else {
      AbsorbedCoherent(r, s.log, s.term, r[m.term].log, m.term, m.entries, p, s'.term);
    }
  }

  lemma PrefixCoherent(r: map<nat, Reign>, log: seq<LogEntry>, bound: nat, n: nat, bound': nat)
    requires Coherent(r, log) && Ordered(log, bound) && n <= |log| && bound <= bound'
    ensures Coherent(r, log[..n]) && Ordered(log[..n], bound')
  {
    CoherentPrefix(r, log, n);
    OrderedPrefix(log, bound, n, bound');
  }

  /** The log of the acting node after a step: unchanged, one entry longer as leader, or
      what AppendEntries makes of it. */
  ghost predicate LogStep(r: map<nat, Reign>, s: State, s': State) {
    && s.term <= s'.term
    && (s.role == LEADER && s'.role == LEADER ==> s.log <= s'.log)
    && (s'.log == s.log
        || (s.role == LEADER && s'.role == LEADER && s'.term == s.term && |s'.log| == |s.log| + 1
            && s'.log[..|s.log|] == s.log
            && s'.log[|s.log|].term == s.term && s'.log[|s.log|].index == |s'.log|)
        || (s'.role == FOLLOWER && Coherent(r, s'.log) && Ordered(s'.log, s'.term)))
  }

  lemma DeliverKeepsLog(w: World, n: NodeId, m: Message)
    requires LogsInv(w) && Enabled(w, Deliver(n, m))
    ensures LogStep(w.reigns, w.peers[n].state, Receive(w.peers[n], m).peer.state)
  {
    if m.AppendEntries? { AppendKeepsLog(w, n, m); } else { OtherKeepsLog(w.peers[n], m); }
  }

  lemma StepKeepsLog(w: World, a: Action)
    requires LogsInv(w) && Enabled(w, a)
    ensures LogStep(w.reigns, w.peers[a.n].state, Act(w, a).peer.state)
  {
    match a
    case Deliver(n, m) => DeliverKeepsLog(w, n, m);
    case Commit(n, matches) => CommitIsSteady(w.peers[n].state, matches, |w.peers|);
    case Propose(n, c, k, v) => ProposeAppends(w.peers[n].state, c, k, v);
    case Conclude(_) =>
    case _ => QuietAct(w, a);
  }

  lemma ProposeAppends(s: State, c: string, k: string, v: string)
    ensures var s' := AppendEntry(s, c, k, v);
            && s'.term == s.term && s'.role == s.role && s.log <= s'.log
            && (s'.log == s.log
                || (s.role == LEADER && |s'.log| == |s.log| + 1 && s'.log[..|s.log|] == s.log
                    && s'.log[|s.log|].term == s.term && s'.log[|s.log|].index == |s'.log|))
  {}

  lemma AppendKeepsLog(w: World, n: NodeId, m: Message)
    requires LogsInv(w) && n in w.peers && m in w.sent && m.AppendEntries? && Indexed(m.entries)
    ensures var s, s' := w.peers[n].state, Receive(w.peers[n], m).peer.state;
            && s.term <= s'.term
            && (s'.log == s.log || (s'.role == FOLLOWER && Coherent(w.reigns, s'.log) && Ordered(s'.log, s'.term)))
  {
    var s := w.peers[n].state;
    assert SliceOf(w.reigns, m);
    AppendCoherent(w.reigns, s, m);
    AppendIsSteady(s, m.leader, m.term, m.prevIndex, m.prevTerm, m.entries, m.leaderCommit);
  }

  lemma OtherKeepsLog(p: Peer, m: Message)
    requires !m.AppendEntries?
    ensures Receive(p, m).peer.state.log == p.state.log && p.state.term <= Receive(p, m).peer.state.term
  {}

  lemma FollowGrows(r: map<nat, Reign>, r': map<nat, Reign>, t: nat, n: NodeId, log: seq<LogEntry>, log': seq<LogEntry>)
    requires r' == r || r' == r[t := Reign(n, log')]
    requires t in r && r' != r ==> r[t] == Reign(n, log) && log <= log'
    ensures ReignsGrow(r, r')
  {}

  lemma StepGrowsReigns(w: World, a: Action)
    requires VotesInv(w) && LogsInv(w) && Enabled(w, a)
    ensures ReignsGrow(w.reigns, Next(w, a).reigns)
  {
    var w' := Next(w, a);
    var s, s' := w.peers[a.n].state, Act(w, a).peer.state;
    StepKeepsLog(w, a);
    StepIsLawful(w, a);
    StepRecordsReign(w, a);
    if s'.role == LEADER && s'.term in w.reigns {
      WinnerIsFirst(w, w', a.n);
      assert w.reigns[s'.term] == Reign(a.n, s.log);
    }
    FollowGrows(w.reigns, w'.reigns, s'.term, a.n, s.log, s'.log);
  }

  lemma ExtendedLogCoherent(r: map<nat, Reign>, log: seq<LogEntry>, log': seq<LogEntry>, t: nat)
    requires Coherent(r, log) && |log'| == |log| + 1 && log'[..|log|] == log
    requires log'[|log|].term == t && log'[|log|].index == |log'|
    requires t in r && r[t].log == log'
    ensures Coherent(r, log')
  {
    forall i: nat | i < |log'| ensures Traced(r, log', i) {
      if i < |log| {
        assert Traced(r, log, i);
        assert log[i] == log'[i] && log'[..i + 1] == log[..i + 1];
      }
    }
  }

  lemma OwnLogCoherent(r: map<nat, Reign>, r': map<nat, Reign>, s: State, s': State)
    requires Coherent(r, s.log) && Ordered(s.log, s.term) && ReignsGrow(r, r') && s.term <= s'.term
    requires s'.log == s.log
             || (Coherent(r, s'.log) && Ordered(s'.log, s'.term))
             || (s'.term == s.term && s.term in r' && r'[s.term].log == s'.log && |s'.log| == |s.log| + 1
                 && s'.log[..|s.log|] == s.log
                 && s'.log[|s.log|].term == s.term && s'.log[|s.log|].index == |s'.log|)
    ensures Coherent(r', s'.log) && Ordered(s'.log, s'.term)
  {
    CoherentGrows(r, r', s.log);
    if s'.log == s.log {
    } else if Coherent(r, s'.log) && Ordered(s'.log, s'.term) {
      CoherentGrows(r, r', s'.log);
    } else {
      ExtendedLogCoherent(r', s.log, s'.log, s.term);
      assert forall i :: 0 <= i < |s.log| ==> s'.log[i] == s'.log[..|s.log|][i];
    }
  }

  lemma OwnLogKept(w: World, a: Action)
    requires VotesInv(w) && LogsInv(w) && Enabled(w, a)
    ensures var s' := Act(w, a).peer.state;
            Coherent(Next(w, a).reigns, s'.log) && Ordered(s'.log, s'.term)
  {
    StepKeepsLog(w, a);
    StepGrowsReigns(w, a);
    OwnLogCoherent(w.reigns, Next(w, a).reigns, w.peers[a.n].state, Act(w, a).peer.state);
  }

  lemma NewSlice(w: World, a: Action, m: Message)
    requires VotesInv(w) && Enabled(w, a) && m in Act(w, a).messages && m.AppendEntries?
    ensures SliceOf(w.reigns, m)
  {
    assert a.Ship?;
  }

  lemma LogsInvKept(w: World, a: Action)
    requires VotesInv(w) && LogsInv(w) && Enabled(w, a)
    ensures LogsInv(Next(w, a))
  {
    var w' := Next(w, a);
    StepGrowsReigns(w, a);
    OwnLogKept(w, a);
    forall n | n in w'.peers
      ensures Coherent(w'.reigns, w'.peers[n].state.log) && Ordered(w'.peers[n].state.log, w'.peers[n].state.term) {
      if n != a.n { CoherentGrows(w.reigns, w'.reigns, w.peers[n].state.log); }
    }
    forall t | t in w'.reigns ensures Coherent(w'.reigns, w'.reigns[t].log) && Ordered(w'.reigns[t].log, t) {
      ReignLogKept(w, a, t);
    }
    forall m | m in w'.sent ensures SliceOf(w'.reigns, m) { SliceKept(w, a, m); }
  }

  lemma ReignLogKept(w: World, a: Action, t: nat)
    requires LogsInv(w) && Enabled(w, a) && t in Next(w, a).reigns && ReignsGrow(w.reigns, Next(w, a).reigns)
    requires var s' := Act(w, a).peer.state; Coherent(Next(w, a).reigns, s'.log) && Ordered(s'.log, s'.term)
    ensures var r' := Next(w, a).reigns; Coherent(r', r'[t].log) && Ordered(r'[t].log, t)
  {
    var s' := Act(w, a).peer.state;
    if !(s'.role == LEADER && t == s'.term) { CoherentGrows(w.reigns, Next(w, a).reigns, w.reigns[t].log); }
  }

  lemma SliceKept(w: World, a: Action, m: Message)
    requires VotesInv(w) && LogsInv(w) && Enabled(w, a) && m in Next(w, a).sent
    requires ReignsGrow(w.reigns, Next(w, a).reigns)
    ensures SliceOf(Next(w, a).reigns, m)
  {
    if m !in w.sent && m.AppendEntries? { NewSlice(w, a, m); }
    SliceGrows(w.reigns, Next(w, a).reigns, m);
  }

  // ----------------------------------------------------------- whole-run theorems

  ghost predicate Inv(w: World) {
    VotesInv(w) && LogsInv(w)
  }

  lemma InvKept(w: World, w': World)
    requires Inv(w) && CanStep(w, w')
    ensures Inv(w') && w'.peers.Keys == w.peers.Keys
  {
    var a := Taken(w, w');
    VotesInvKept(w, a);
    LogsInvKept(w, a);
  }

  lemma {:induction false} InvAlways(members: set<NodeId>, run: seq<World>, i: nat)
    requires IsRun(members, run) && i < |run|
    ensures Inv(run[i]) && run[i].peers.Keys == members
  {
    if i > 0 {
      InvAlways(members, run, i - 1);
      assert CanStep(run[i - 1], run[i - 1 + 1]);
      InvKept(run[i - 1], run[i]);
    }
  }

  ghost function Taken(w: World, w': World): (a: Action)
    requires CanStep(w, w')
    ensures Enabled(w, a) && w' == Next(w, a)
  {
    var a :| Enabled(w, a) && w' == Next(w, a);
    a
  }

  lemma GrowsTransitive(a: map<nat, Reign>, b: map<nat, Reign>, c: map<nat, Reign>)
    requires ReignsGrow(a, b) && ReignsGrow(b, c)
    ensures ReignsGrow(a, c)
  {}

  lemma ReignsGrowOnce(members: set<NodeId>, run: seq<World>, i: nat)
    requires IsRun(members, run) && i + 1 < |run|
    ensures ReignsGrow(run[i].reigns, run[i + 1].reigns)
  {
    InvAlways(members, run, i);
    StepGrowsReigns(run[i], Taken(run[i], run[i + 1]));
  }

  lemma {:induction false} ChainGrows(chain: seq<map<nat, Reign>>, i: nat, j: nat)
    requires i <= j < |chain| && forall k :: 0 <= k < |chain| - 1 ==> ReignsGrow(chain[k], chain[k + 1])
    ensures ReignsGrow(chain[i], chain[j])
    decreases j
  {
    if i < j {
      ChainGrows(chain, i, j - 1);
      GrowsTransitive(chain[i], chain[j - 1], chain[j]);
    }
  }

  lemma ReignsOnlyGrow(members: set<NodeId>, run: seq<World>, i: nat, j: nat)
    requires IsRun(members, run) && i <= j < |run|
    ensures ReignsGrow(run[i].reigns, run[j].reigns)
  {
    var chain := seq(|run|, k requires 0 <= k < |run| => run[k].reigns);
    forall k | 0 <= k < |chain| - 1 ensures ReignsGrow(chain[k], chain[k + 1]) { ReignsGrowOnce(members, run, k); }
    ChainGrows(chain, i, j);
  }

  /** Election safety: over a whole run no two nodes are ever leaders of the same term,
      not even at different times. */
  lemma ElectionSafety(members: set<NodeId>, run: seq<World>, i: nat, j: nat, a: NodeId, b: NodeId)
    requires IsRun(members, run) && i <= j < |run|
    requires a in members && b in members
    ensures a in run[i].peers && b in run[j].peers
    ensures var s, s' := run[i].peers[a].state, run[j].peers[b].state;
            s.role == LEADER && s'.role == LEADER && s.term == s'.term ==> a == b
  {
    InvAlways(members, run, i);
    InvAlways(members, run, j);
    ReignsOnlyGrow(members, run, i, j);
  }

  /** Log matching: if the logs of any two nodes, at any two times of a run, hold entries
      of the same term at the same position, they are identical up to it; and the entry at
      position k always carries index k + 1. */
  lemma LogMatching(members: set<NodeId>, run: seq<World>, i: nat, j: nat, a: NodeId, b: NodeId, k: nat)
    requires IsRun(members, run) && i <= j < |run|
    requires a in members && b in members
    ensures a in run[i].peers && b in run[j].peers
    ensures k < |run[i].peers[a].state.log| ==> run[i].peers[a].state.log[k].index == k + 1
    ensures var x, y := run[i].peers[a].state.log, run[j].peers[b].state.log;
            k < |x| && k < |y| && x[k].term == y[k].term ==> x[..k + 1] == y[..k + 1]
  {
    InvAlways(members, run, i);
    InvAlways(members, run, j);
    ReignsOnlyGrow(members, run, i, j);
    var x, y := run[i].peers[a].state.log, run[j].peers[b].state.log;
    CoherentGrows(run[i].reigns, run[j].reigns, x);
    if k < |x| { assert Traced(run[i].reigns, x, k); }
    if k < |x| && k < |y| && x[k].term == y[k].term { CoherentMatch(run[j].reigns, x, y, k); }
  }

  lemma TermGrowsOnce(members: set<NodeId>, run: seq<World>, i: nat, a: NodeId)
    requires IsRun(members, run) && i + 1 < |run| && a in members
    ensures a in run[i].peers && a in run[i + 1].peers
    ensures run[i].peers[a].state.term <= run[i + 1].peers[a].state.term
  {
    InvAlways(members, run, i);
    StepIsLawful(run[i], Taken(run[i], run[i + 1]));
  }

  lemma {:induction false} Climbs(terms: seq<nat>, i: nat, j: nat)
    requires i <= j < |terms| && forall k :: 0 <= k < |terms| - 1 ==> terms[k] <= terms[k + 1]
    ensures terms[i] <= terms[j]
    decreases j
  {
    if i < j { Climbs(terms, i, j - 1); }
  }

  lemma MembersStay(members: set<NodeId>, run: seq<World>, i: nat, a: NodeId)
    requires IsRun(members, run) && i < |run| && a in members
    ensures a in run[i].peers
  {
    InvAlways(members, run, i);
  }

  /** No node's term ever decreases. */
  lemma TermsOnlyGrow(members: set<NodeId>, run: seq<World>, i: nat, j: nat, a: NodeId)
    requires IsRun(members, run) && i <= j < |run| && a in members
    ensures a in run[i].peers && a in run[j].peers
    ensures run[i].peers[a].state.term <= run[j].peers[a].state.term
  {
    forall k: nat | k < |run| ensures a in run[k].peers { MembersStay(members, run, k, a); }
    var terms := seq(|run|, k requires 0 <= k < |run| => run[k].peers[a].state.term);
    forall k | 0 <= k < |terms| - 1 ensures terms[k] <= terms[k + 1] { TermGrowsOnce(members, run, k, a); }
    Climbs(terms, i, j);
  }

  /** A leader only ever appends to its log while it keeps its term. */
  lemma LeaderAppendsOnly(members: set<NodeId>, run: seq<World>, i: nat, j: nat, a: NodeId)
    requires IsRun(members, run) && i <= j < |run| && a in members
    ensures a in run[i].peers && a in run[j].peers
    ensures var s, s' := run[i].peers[a].state, run[j].peers[a].state;
            s.role == LEADER && s'.role == LEADER && s.term == s'.term ==> s.log <= s'.log
  {
    InvAlways(members, run, i);
    InvAlways(members, run, j);
    ReignsOnlyGrow(members, run, i, j);
  }

  /** On every reachable leader the commit rule picks the greatest committable index, or
      leaves the old one, exactly unless the reports of a majority go past its log while
      something is committable. */
  lemma CommitRuleAlways(members: set<NodeId>, run: seq<World>, i: nat, a: NodeId, matches: seq<nat>)
    requires IsRun(members, run) && i < |run| && a in members
    ensures a in run[i].peers
    ensures var s := run[i].peers[a].state;
            s.role == LEADER ==>
              (PicksGreatest(s, matches, |members|)
               <==> !Overreported(s, matches, |members|) || !exists n: nat :: Committable(s, matches, |members|, n))
  {
    InvAlways(members, run, i);
    var s := run[i].peers[a].state;
    assert TermsOrdered(s);
    if s.role == LEADER { CommitRuleExactly(s, matches, |members|); }
  }
}

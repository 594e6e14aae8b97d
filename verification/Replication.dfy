/** Sending a prepared write to followers and counting what comes back
    (minidb/cluster/replication.py), and the follower's side of prepare and commit
    (minidb/cluster/coordinator.py). */
module Replication {
  import opened Nodes
  import opened Storage

  datatype Consistency = ONE | QUORUM | ALL | ANY | STRONG

  /** Copies a write must reach, the leader's own included. */
  function RequiredTotal(c: Consistency, replicationFactor: nat): nat {
    match c
    case QUORUM => replicationFactor / 2 + 1
    case ALL => replicationFactor
    case STRONG => replicationFactor
    case _ => 1
  }

  function RequiredAcks(c: Consistency, replicationFactor: nat): nat {
    if RequiredTotal(c, replicationFactor) == 0 then 0 else RequiredTotal(c, replicationFactor) - 1
  }

  function CountTrue(xs: seq<bool>): nat {
    if xs == [] then 0 else CountTrue(xs[..|xs| - 1]) + (if xs[|xs| - 1] then 1 else 0)
  }

  /** How many calls came back. */
  function Successes(xs: seq<bool>): nat {
    |set i | 0 <= i < |xs| && xs[i]|
  }

  lemma {:induction false} CountTrueIsSuccesses(xs: seq<bool>)
    ensures CountTrue(xs) == Successes(xs) <= |xs|
  {
    if xs != [] {
      var n := |xs| - 1;
      CountTrueIsSuccesses(xs[..n]);
      var before := set i | 0 <= i < |xs[..n]| && xs[..n][i];
      assert (set i | 0 <= i < |xs| && xs[i]) == if xs[n] then before + {n} else before;
    }
  }

  /** What a consistency level asks for, in terms of the calls that came back and of the copy
      at the leader: all copies, more than half of them, or nothing. */
  predicate Enough(c: Consistency, replicationFactor: nat, successes: nat) {
    match c
    case ALL => successes + 1 >= replicationFactor
    case STRONG => successes + 1 >= replicationFactor
    case QUORUM => 2 * (successes + 1) > replicationFactor
    case _ => true
  }

  lemma CountTrueStep(xs: seq<bool>, i: nat)
    requires i < |xs|
    ensures CountTrue(xs[..i + 1]) == CountTrue(xs[..i]) + (if xs[i] then 1 else 0)
  {
    assert xs[..i + 1][..i] == xs[..i];
  }

  /** The answers of the peers other than the node itself. */
  function OthersOnly(self: NodeId, peers: seq<NodeId>, granted: seq<bool>): (answers: seq<bool>)
    requires |granted| == |peers|
    ensures |answers| <= |peers|
  {
    if peers == [] then []
    else
      var n := |peers| - 1;
      OthersOnly(self, peers[..n], granted[..n]) + if peers[n] != self then [granted[n]] else []
  }

  lemma OthersOnlyStep(self: NodeId, peers: seq<NodeId>, granted: seq<bool>, i: nat)
    requires |granted| == |peers| && i < |peers|
    ensures CountTrue(OthersOnly(self, peers[..i + 1], granted[..i + 1]))
            == CountTrue(OthersOnly(self, peers[..i], granted[..i])) + (if peers[i] != self && granted[i] then 1 else 0)
  {
    assert peers[..i + 1][..i] == peers[..i] && granted[..i + 1][..i] == granted[..i];
    var before := OthersOnly(self, peers[..i], granted[..i]);
    var after := OthersOnly(self, peers[..i + 1], granted[..i + 1]);
    if peers[i] != self {
      assert after == before + [granted[i]] && after[..|before|] == before;
    } else {
      assert after == before + [] == before;
    }
  }

  /** The positions of the other peers that granted. */
  function Granting(self: NodeId, peers: seq<NodeId>, granted: seq<bool>): set<int>
    requires |granted| == |peers|
  {
    set i | 0 <= i < |peers| && peers[i] != self && granted[i]
  }

  lemma GrantingStep(self: NodeId, peers: seq<NodeId>, granted: seq<bool>)
    requires |granted| == |peers| > 0
    ensures var n := |peers| - 1;
            |Granting(self, peers, granted)|
            == |Granting(self, peers[..n], granted[..n])| + (if peers[n] != self && granted[n] then 1 else 0)
  {
    var n := |peers| - 1;
    var before := Granting(self, peers[..n], granted[..n]);
    assert n !in before;
    assert Granting(self, peers, granted) == if peers[n] != self && granted[n] then before + {n} else before;
  }

  lemma {:induction false} OthersCounted(self: NodeId, peers: seq<NodeId>, granted: seq<bool>)
    requires |granted| == |peers|
    ensures CountTrue(OthersOnly(self, peers, granted)) == |Granting(self, peers, granted)|
  {
    if peers != [] {
      var n := |peers| - 1;
      OthersCounted(self, peers[..n], granted[..n]);
      OthersOnlyStep(self, peers, granted, n);
      assert peers[..n + 1] == peers && granted[..n + 1] == granted;
      GrantingStep(self, peers, granted);
    }
  }

  /** The write is refused outright when the targets cannot supply the acknowledgements. */
  predicate Contacts(c: Consistency, replicationFactor: nat, targets: seq<NodeId>) {
    c != ONE && c != ANY && RequiredAcks(c, replicationFactor) > 0
    && |targets| >= RequiredAcks(c, replicationFactor)
  }

  predicate Replicates(c: Consistency, replicationFactor: nat, targets: seq<NodeId>, outcomes: seq<bool>) {
    c == ONE || c == ANY || RequiredAcks(c, replicationFactor) == 0
    || (|targets| >= RequiredAcks(c, replicationFactor) && CountTrue(outcomes) >= RequiredAcks(c, replicationFactor))
  }

  lemma ReplicatesExactly(c: Consistency, replicationFactor: nat, targets: seq<NodeId>, outcomes: seq<bool>)
    requires |outcomes| == |targets|
    ensures Replicates(c, replicationFactor, targets, outcomes) <==> Enough(c, replicationFactor, Successes(outcomes))
    ensures Contacts(c, replicationFactor, targets)
            <==> Enough(c, replicationFactor, |targets|) && !Enough(c, replicationFactor, 0)
  {
    CountTrueIsSuccesses(outcomes);
  }

  datatype Request = Request(requiredAcks: nat, receivedAcks: nat, success: bool)

  class ReplicationManager {
    const replicationFactor: nat
    var pending: map<nat, Request>
    var asyncQueue: seq<(nat, seq<NodeId>)>
    /** The prepare calls made, in order. */
    var calls: seq<(NodeId, nat)>

    constructor (replicationFactor: nat)
      ensures this.replicationFactor == replicationFactor && pending == map[] && asyncQueue == [] && calls == []
    {
      this.replicationFactor := replicationFactor;
      pending, asyncQueue, calls := map[], [], [];
    }

    method Acknowledge(index: nat)
      modifies this`pending
      ensures index !in old(pending) ==> pending == old(pending)
      ensures index in old(pending) ==>
                var r := old(pending)[index];
                pending == old(pending)[index := Request(r.requiredAcks, r.receivedAcks + 1,
                                                         r.success || r.receivedAcks + 1 >= r.requiredAcks)]
    {
      if index !in pending { return; }
      var request := pending[index];
      var received := request.receivedAcks + 1;
      pending := pending[index :=
          Request(request.requiredAcks, received, request.success || received >= request.requiredAcks)];
    }

    /** `outcomes[i]` tells whether the prepare call to `targets[i]` came back successful. */
    method Replicate(index: nat, consistency: Consistency, targets: seq<NodeId>, outcomes: seq<bool>)
        returns (success: bool)
      requires |outcomes| == |targets| && index !in pending
      modifies this
      ensures success == Replicates(consistency, replicationFactor, targets, outcomes)
      ensures success == Enough(consistency, replicationFactor, Successes(outcomes))
      ensures calls == old(calls) + if Enough(consistency, replicationFactor, |targets|)
                                       && !Enough(consistency, replicationFactor, 0)
                                    then seq(|targets|, i requires 0 <= i < |targets| => (targets[i], index)) else []
      ensures pending == old(pending)
      ensures asyncQueue == old(asyncQueue) + if (consistency == ONE || consistency == ANY) && targets != []
                                              then [(index, targets)] else []
    {
      ReplicatesExactly(consistency, replicationFactor, targets, outcomes);
      if consistency == ONE || consistency == ANY {
        if targets != [] { asyncQueue := asyncQueue + [(index, targets)]; }
        return true;
      }
      var required := RequiredAcks(consistency, replicationFactor);
      if required == 0 { return true; }
      if targets == [] || |targets| < required { return false; }
      pending := pending[index := Request(required, 0, false)];
      var i := 0;
      while i < |targets|
        invariant 0 <= i <= |targets|
        invariant pending == old(pending)[index :=
                Request(required, CountTrue(outcomes[..i]), CountTrue(outcomes[..i]) >= required)]
        invariant calls == old(calls) + seq(i, j requires 0 <= j < i => (targets[j], index))
        invariant asyncQueue == old(asyncQueue)
      {
        calls := calls + [(targets[i], index)];
        CountTrueStep(outcomes, i);
        if outcomes[i] { Acknowledge(index); }
        i := i + 1;
      }
      assert outcomes[..i] == outcomes;
      success := pending[index].success || pending[index].receivedAcks >= required;
      pending := pending - {index};
      assert pending == old(pending);
    }
  }

  // ----------------------------------------------------------- the follower's side

  datatype Replica = Replica(table: Table, staged: map<nat, WriteEntry>)

  /** Prepare only stages: nothing becomes visible. */
  function Prepare(r: Replica, e: WriteEntry): Replica {
    r.(staged := r.staged[e.index := e])
  }

  /** Commit applies what was staged under the index, or else the entry it carries. */
  function CommitOn(r: Replica, e: WriteEntry): Replica {
    Replica(ApplyEntry(r.table, if e.index in r.staged then r.staged[e.index] else e), r.staged - {e.index})
  }

  class ClusterCoordinator {
    const node: DatabaseNode
    var staged: map<nat, WriteEntry>

    constructor (node: DatabaseNode)
      ensures this.node == node && staged == map[]
    {
      this.node := node;
      staged := map[];
    }

    function Abs(): Replica
      reads this, node.store
    {
      Replica(node.store.table, staged)
    }

    /** `granted[i]` tells whether the call to peers[i] came back with a vote; the node does
        not ask itself. */
    method RequestVotes(self: NodeId, peers: seq<NodeId>, granted: seq<bool>) returns (votes: nat)
      requires |granted| == |peers|
      ensures votes == 1 + |Granting(self, peers, granted)|
    {
      OthersCounted(self, peers, granted);
      votes := 1;
      var i := 0;
      while i < |peers|
        invariant 0 <= i <= |peers|
        invariant votes == 1 + CountTrue(OthersOnly(self, peers[..i], granted[..i]))
      {
        OthersOnlyStep(self, peers, granted, i);
        if peers[i] != self {
          if granted[i] { votes := votes + 1; }
        }
        i := i + 1;
      }
      assert peers[..i] == peers && granted[..i] == granted;
    }

    /** `confirmed[i]` tells whether the commit call to targets[i] came back successful. */
    method CommitToFollowers(targets: seq<NodeId>, confirmed: seq<bool>) returns (committed: nat)
      requires |confirmed| == |targets|
      ensures committed == CountTrue(confirmed) == Successes(confirmed)
    {
      CountTrueIsSuccesses(confirmed);
      committed := 0;
      var i := 0;
      while i < |targets|
        invariant 0 <= i <= |targets| && committed == CountTrue(confirmed[..i])
      {
        CountTrueStep(confirmed, i);
        if confirmed[i] { committed := committed + 1; }
        i := i + 1;
      }
      assert confirmed[..i] == confirmed;
    }

    method HandlePrepare(entry: WriteEntry)
      modifies this
      ensures Abs() == Prepare(old(Abs()), entry)
      ensures staged == old(staged)[entry.index := entry] && node.store.table == old(node.store.table)
    {
      staged := staged[entry.index := entry];
    }

    method HandleCommit(entry: WriteEntry)
      modifies this, node`aof, node.store
      ensures Abs() == CommitOn(old(Abs()), entry)
      ensures staged == old(staged) - {entry.index}
      ensures Applied(old(node.store.table), if entry.index in old(staged) then old(staged)[entry.index] else entry,
                      node.store.table)
      ensures old(node.Mirrored()) ==> node.Mirrored()
    {
      var toApply := entry;
      if entry.index in staged {
        toApply := staged[entry.index];
        staged := staged - {entry.index};
      }
      node.ApplyLogEntry(toApply);
    }
  }
}

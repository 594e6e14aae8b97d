/** A write as the leader carries it out (minidb/node.py:496-589), and its agreement with the
    steps of the cluster machine when nothing comes between them. */
module LeaderWrite {
  import opened Nodes
  import opened Storage
  import opened Replication
  import opened WritePath
  import opened ReadAfterWrite
  import Quorums

  datatype Response = NotLeader | NotReady | Unavailable | ReplicationFailed | CommitFailed | Done

  /** The nodes other than the leader, in order. */
  function Remotes(alive: seq<NodeId>, self: NodeId): seq<NodeId> {
    if alive == [] then []
    else
      var last := alive[|alive| - 1];
      Remotes(alive[..|alive| - 1], self) + if last != self then [last] else []
  }

  lemma {:induction false} RemotesExactly(alive: seq<NodeId>, self: NodeId)
    ensures forall n :: n in Remotes(alive, self) <==> n in alive && n != self
    ensures Quorums.Distinct(alive) ==> Quorums.Distinct(Remotes(alive, self))
  {
    if alive != [] {
      var front, last := alive[..|alive| - 1], alive[|alive| - 1];
      RemotesExactly(front, self);
      assert alive == front + [last];
      assert Quorums.Distinct(alive) ==> Quorums.Distinct(front) && last !in front;
    }
  }

  function Reachable(remotes: seq<NodeId>, alive: set<NodeId>): seq<NodeId> {
    if remotes == [] then []
    else
      var last := remotes[|remotes| - 1];
      Reachable(remotes[..|remotes| - 1], alive) + if last in alive then [last] else []
  }

  lemma {:induction false} ReachableAll(remotes: seq<NodeId>, alive: set<NodeId>)
    ensures |Reachable(remotes, alive)| <= |remotes|
    ensures |Reachable(remotes, alive)| == |remotes| <==> forall n :: n in remotes ==> n in alive
    ensures |Reachable(remotes, alive)| == |remotes| ==> Reachable(remotes, alive) == remotes
  {
    if remotes != [] {
      var front, last := remotes[..|remotes| - 1], remotes[|remotes| - 1];
      ReachableAll(front, alive);
      assert remotes == front + [last];
    }
  }

  /** Every target is asked to prepare, once and in order, unless they are too few or the
      level asks for nothing. */
  function CallsTo(targets: seq<NodeId>, consistency: Consistency, replicationFactor: nat, index: nat)
    : seq<(NodeId, nat)>
  {
    if Enough(consistency, replicationFactor, |targets|) && !Enough(consistency, replicationFactor, 0)
    then seq(|targets|, i requires 0 <= i < |targets| => (targets[i], index)) else []
  }

  /** Enough prepare calls came back, and enough commit calls after them. */
  predicate Accepted(consistency: Consistency, replicationFactor: nat, prepared: seq<bool>, confirmed: seq<bool>) {
    && Enough(consistency, replicationFactor, Successes(prepared))
    && Enough(consistency, replicationFactor, Successes(confirmed))
  }

  class LeaderNode {
    const nodeId: NodeId
    const consistency: Consistency
    const replicationFactor: nat
    const coordinator: ClusterCoordinator
    const replication: ReplicationManager
    var writeSequence: nat

    constructor (nodeId: NodeId, consistency: Consistency, replicationFactor: nat, coordinator: ClusterCoordinator,
                 replication: ReplicationManager)
      requires replication.replicationFactor == replicationFactor && replication.pending == map[]
      ensures this.nodeId == nodeId && this.consistency == consistency && this.replicationFactor == replicationFactor
      ensures this.coordinator == coordinator && this.replication == replication && writeSequence == 0 && Valid()
    {
      this.nodeId, this.consistency, this.replicationFactor := nodeId, consistency, replicationFactor;
      this.coordinator, this.replication := coordinator, replication;
      writeSequence := 0;
    }

    predicate Valid()
      reads this, replication
    {
      replication.replicationFactor == replicationFactor && replication.pending == map[]
    }

    /** The write of this number as it would be issued now. */
    function Entry(index: nat, command: Command, key: string, value: Value, now: real): WriteEntry
      reads this, coordinator, coordinator.node, coordinator.node.store
    {
      EntryFor(coordinator.node.store.table, index, command, key, value, now, nodeId)
    }

    /** One more than the version at the leader, or 1. */
    function NextVersion(key: string): int
      reads this, coordinator, coordinator.node, coordinator.node.store
    {
      var table := coordinator.node.store.table;
      if key in table then table[key].version + 1 else 1
    }

    function FirstWritten(key: string, now: real): real
      reads this, coordinator, coordinator.node, coordinator.node.store
    {
      var table := coordinator.node.store.table;
      if key in table then table[key].createdAt else now
    }

    /** `alive` and `stillAlive` are the two readings of the membership; `prepared` and
        `confirmed` are the fates of the calls, target by target. A write is either applied
        and logged as a whole and acknowledged, or leaves nothing at the leader but the
        write number it used up. */
    method ApplyPartitionWrite(isLeader: bool, ringSize: nat, alive: seq<NodeId>, stillAlive: set<NodeId>,
                               command: Command, key: string, value: Value, now: real,
                               prepared: seq<bool>, confirmed: seq<bool>)
      returns (response: Response)
      requires Valid() && |prepared| == |confirmed| == |Remotes(alive, nodeId)|
      modifies this, replication, coordinator.node`aof, coordinator.node.store
      ensures Valid()
      ensures response == NotLeader <==> !isLeader
      ensures response == NotReady <==> isLeader && ringSize < replicationFactor
      ensures response == Unavailable <==>
                isLeader && ringSize >= replicationFactor
                && exists n :: n in alive && n != nodeId && n !in stillAlive
      ensures response in {ReplicationFailed, CommitFailed, Done} ==>
                && (response == Done <==> Accepted(consistency, replicationFactor, prepared, confirmed))
                && (response == ReplicationFailed
                    <==> !Enough(consistency, replicationFactor, Successes(prepared)))
      ensures writeSequence == old(writeSequence) + if response in {NotLeader, NotReady} then 0 else 1
      ensures response in {NotLeader, NotReady, Unavailable} ==> replication.calls == old(replication.calls)
      ensures response in {ReplicationFailed, CommitFailed, Done} ==>
                replication.calls == old(replication.calls)
                  + CallsTo(Remotes(alive, nodeId), consistency, replicationFactor, writeSequence)
      ensures response != Done ==>
                coordinator.node.store.table == old(coordinator.node.store.table)
                && coordinator.node.aof == old(coordinator.node.aof)
      ensures response == Done && command == SET ==>
                var item := Item(value, old(NextVersion(key)), old(FirstWritten(key, now)), now, nodeId);
                && coordinator.node.store.table == old(coordinator.node.store.table)[key := item]
                && coordinator.node.aof == old(coordinator.node.aof) + [SetLine(key, item)]
      ensures response == Done && command == DELETE ==>
                && coordinator.node.store.table == old(coordinator.node.store.table) - {key}
                && coordinator.node.aof == old(coordinator.node.aof) + [DeleteLine(key)]
    {
      if !isLeader { return NotLeader; }
      if ringSize < replicationFactor { return NotReady; }
      var entry := NextEntry(command, key, value, now);
      var remotes := Remotes(alive, nodeId);
      var targets := Reachable(remotes, stillAlive);
      ReachableAll(remotes, stillAlive);
      RemotesExactly(alive, nodeId);
      if remotes != [] && |targets| < |remotes| { return Unavailable; }
      response := Settle(entry, targets, prepared, confirmed);
    }

    method NextEntry(command: Command, key: string, value: Value, now: real) returns (entry: WriteEntry)
      modifies this`writeSequence
      ensures writeSequence == old(writeSequence) + 1
      ensures entry == old(Entry(writeSequence + 1, command, key, value, now))
      ensures entry == WriteEntry(writeSequence, command, key, value, now, old(NextVersion(key)),
                                  old(FirstWritten(key, now)), nodeId)
    {
      var table := coordinator.node.store.table;
      var version, createdAt := 1, now;
      if key in table { version, createdAt := table[key].version + 1, table[key].createdAt; }
      writeSequence := writeSequence + 1;
      entry := WriteEntry(writeSequence, command, key, value, now, version, createdAt, nodeId);
    }

    /** Replicate, commit at the followers, and only then apply here. */
    method Settle(entry: WriteEntry, targets: seq<NodeId>, prepared: seq<bool>, confirmed: seq<bool>)
        returns (response: Response)
      requires Valid() && |prepared| == |confirmed| == |targets|
      modifies replication, coordinator.node`aof, coordinator.node.store
      ensures Valid() && response in {Done, ReplicationFailed, CommitFailed}
      ensures replication.calls == old(replication.calls)
                                   + CallsTo(targets, consistency, replicationFactor, entry.index)
      ensures response == Done <==> Accepted(consistency, replicationFactor, prepared, confirmed)
      ensures response == ReplicationFailed <==> !Enough(consistency, replicationFactor, Successes(prepared))
      ensures response != Done ==>
                coordinator.node.store.table == old(coordinator.node.store.table)
                && coordinator.node.aof == old(coordinator.node.aof)
      ensures response == Done ==>
                && coordinator.node.store.table == ApplyEntry(old(coordinator.node.store.table), entry)
                && Applied(old(coordinator.node.store.table), entry, coordinator.node.store.table)
                && coordinator.node.aof == old(coordinator.node.aof) + [LineOf(entry)]
    {
      var success := replication.Replicate(entry.index, consistency, targets, prepared);
      if !success { return ReplicationFailed; }
      var committed := coordinator.CommitToFollowers(targets, confirmed);
      if committed + 1 < RequiredTotal(consistency, replicationFactor) { return CommitFailed; }
      coordinator.node.ApplyLogEntry(entry);
      return Done;
    }
  }

  // ------------------------------------------------- agreement with the machine

  /** A call is processed or not, and if so its reply arrives or not. */
  datatype Fate = Fate(processed: bool, replied: bool)

  function Replies(fates: seq<Fate>): (replies: seq<bool>)
    ensures |replies| == |fates|
  {
    seq(|fates|, i requires 0 <= i < |fates| => fates[i].processed && fates[i].replied)
  }

  lemma RepliesStep(fates: seq<Fate>, d: nat)
    requires d < |fates|
    ensures CountTrue(Replies(fates)[..d + 1])
            == CountTrue(Replies(fates)[..d]) + (if fates[d].processed && fates[d].replied then 1 else 0)
  {
    CountTrueStep(Replies(fates), d);
  }

  /** The calls change nothing at the leader and no acknowledgement. */
  ghost predicate SameAtLeader(c: Config, w: World, w': World) {
    && c.leader in w.replicas && c.leader in w'.replicas
    && w'.replicas[c.leader].table == w.replicas[c.leader].table
    && w'.issued == w.issued && w'.acked == w.acked
  }

  lemma {:induction false} PrepareCalls(c: Config, w: World, fates: seq<Fate>) returns (w': World)
    requires Reaches(c, w) && w.phase.Preparing? && w.issued != [] && |w.phase.targets| == |fates| >= c.Acks()
    requires w.phase.done <= |fates| && w.phase.acks == CountTrue(Replies(fates)[..w.phase.done])
    ensures Reaches(c, w') && SameAtLeader(c, w, w')
    ensures w'.phase == Preparing(w.phase.targets, |fates|, CountTrue(Replies(fates)))
    decreases |fates| - w.phase.done
  {
    ReachesInv(c, w);
    var d := w.phase.done;
    if d == |fates| {
      assert Replies(fates)[..d] == Replies(fates);
      w' := w;
    } else {
      assert w.phase.targets[d] in Quorums.Members(w.phase.targets);
      var a := PrepareCall(fates[d].processed, fates[d].replied);
      ReachesNext(c, w, a);
      RepliesStep(fates, d);
      w' := PrepareCalls(c, Next(c, w, a), fates);
    }
  }

  lemma {:induction false} CommitCalls(c: Config, w: World, fates: seq<Fate>) returns (w': World)
    requires Reaches(c, w) && w.phase.Committing? && w.issued != [] && |w.phase.targets| == |fates|
    requires w.phase.done <= |fates| && w.phase.committed == CountTrue(Replies(fates)[..w.phase.done])
    ensures Reaches(c, w') && SameAtLeader(c, w, w')
    ensures w'.phase == Committing(w.phase.targets, |fates|, CountTrue(Replies(fates)))
    decreases |fates| - w.phase.done
  {
    ReachesInv(c, w);
    var d := w.phase.done;
    if d == |fates| {
      assert Replies(fates)[..d] == Replies(fates);
      w' := w;
    } else {
      assert w.phase.targets[d] in Quorums.Members(w.phase.targets);
      var a := CommitCall(fates[d].processed, fates[d].replied);
      ReachesNext(c, w, a);
      RepliesStep(fates, d);
      w' := CommitCalls(c, Next(c, w, a), fates);
    }
  }

  /** Carried out without interruption, the steps of a write come to what the method above
      promises: it is acknowledged and applied at the leader exactly when it is accepted. */
  lemma MachineAgrees(c: Config, w: World, command: Command, key: string, value: Value, now: real,
                      targets: seq<NodeId>, prepares: seq<Fate>, commits: seq<Fate>)
    returns (w': World)
    requires Reaches(c, w) && Enabled(c, w, Issue(command, key, value, now, targets))
    requires |prepares| == |commits| == |targets|
    ensures Reaches(c, w') && w'.phase == Idle && c.leader in w'.replicas
    ensures |w'.issued| == |w.issued| + 1 && w'.issued[..|w.issued|] == w.issued
    ensures IssuedFor(c, w, Issue(command, key, value, now, targets), Last(w'))
    ensures var table, table' := w.replicas[c.leader].table, w'.replicas[c.leader].table;
            var ok := Accepted(c.consistency, |c.members|, Replies(prepares), Replies(commits));
            && w'.acked == (if ok then w.acked + [|w.issued|] else w.acked)
            && (if ok then Applied(table, Last(w'), table') else table' == table)
  {
    ReachesInv(c, w);
    CountTrueIsSuccesses(Replies(prepares));
    var issue := Issue(command, key, value, now, targets);
    ReachesNext(c, w, issue);
    var w1 := Next(c, w, issue);
    IssuedFields(c, w, issue);
    if |targets| < c.Acks() {
      ReachesNext(c, w1, EndPrepare);
      w' := Next(c, w1, EndPrepare);
    } else {
      var w2 := PrepareCalls(c, w1, prepares);
      ReachesNext(c, w2, EndPrepare);
      w' := Next(c, w2, EndPrepare);
      if w'.phase.Committing? { w' := CommitAndConclude(c, w', commits); }
    }
  }

  lemma CommitAndConclude(c: Config, w: World, commits: seq<Fate>) returns (w': World)
    requires Reaches(c, w) && w.phase.Committing? && w.issued != [] && w.phase.done == w.phase.committed == 0
    requires |w.phase.targets| == |commits|
    ensures Reaches(c, w') && w'.phase == Idle && w'.issued == w.issued && c.leader in w'.replicas
            && c.leader in w.replicas
    ensures var table, table' := w.replicas[c.leader].table, w'.replicas[c.leader].table;
            var ok := Enough(c.consistency, |c.members|, Successes(Replies(commits)));
            && w'.acked == (if ok then w.acked + [|w.issued| - 1] else w.acked)
            && (if ok then Applied(table, Last(w), table') else table' == table)
  {
    ReachesInv(c, w);
    CountTrueIsSuccesses(Replies(commits));
    EntryIsApplied(w.replicas[c.leader].table, Last(w));
    var w1 := CommitCalls(c, w, commits);
    ReachesNext(c, w1, EndCommit);
    w' := Next(c, w1, EndCommit);
  }
}

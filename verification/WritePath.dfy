/** The prepare/commit write path of a cluster with one leader (minidb/node.py:496-589) and
    the repair messages that reads send meanwhile. The membership is exactly the replica
    set, the leader's clock strictly increases, and each call to a follower is processed
    within the call or never, with its reply possibly lost. */
module WritePath {
  import opened Nodes
  import opened Storage
  import opened Replication
  import Quorums

  /** `required` is the number of copies a write needs: a majority of the members for
      QUORUM, all of them for ALL and STRONG. */
  datatype Config = Config(members: set<NodeId>, leader: NodeId, consistency: Consistency) {
    function Required(): nat { RequiredTotal(consistency, |members|) }
    function Acks(): nat { RequiredAcks(consistency, |members|) }
    predicate Valid() {
      leader in members && leader != "" && consistency in {QUORUM, ALL, STRONG}
    }
  }

  datatype Phase =
    | Idle
    | Preparing(targets: seq<NodeId>, done: nat, acks: nat)
    | Committing(targets: seq<NodeId>, done: nat, committed: nat)

  datatype RepairMessage = RepairMessage(target: NodeId, key: string, item: Item)

  /** The write in progress is the last one issued; the write with index i is issued[i - 1].
      `acked` lists the acknowledged writes by position and `stagedBy` records who ever
      staged each write; no step reads these two. */
  datatype World = World(replicas: map<NodeId, Replica>, phase: Phase, issued: seq<WriteEntry>,
                         repairs: set<RepairMessage>, acked: seq<nat>, stagedBy: seq<set<NodeId>>)

  datatype Action =
    | Issue(command: Command, key: string, value: Value, now: real, targets: seq<NodeId>)
    | PrepareCall(processed: bool, replied: bool)
    | EndPrepare
    | CommitCall(processed: bool, replied: bool)
    | EndCommit
    | Observe(source: NodeId, key: string, target: NodeId)
    | DeliverRepair(message: RepairMessage)

  ghost function Start(c: Config): World {
    World(map n | n in c.members :: Replica(map[], map[]), Idle, [], {}, [], [])
  }

  function Last(w: World): WriteEntry
    requires w.issued != []
  {
    w.issued[|w.issued| - 1]
  }

  function NewEntry(c: Config, w: World, command: Command, key: string, value: Value, now: real): WriteEntry
    requires c.leader in w.replicas
  {
    EntryFor(w.replicas[c.leader].table, |w.issued| + 1, command, key, value, now, c.leader)
  }

  ghost predicate Enabled(c: Config, w: World, a: Action) {
    match a
    case Issue(_, _, _, now, targets) =>
      && w.phase == Idle && c.leader in w.replicas
      && now > 0.0 && (w.issued != [] ==> now > Last(w).timestamp)
      && Quorums.Distinct(targets) && Quorums.Members(targets) <= c.members - {c.leader}
    case PrepareCall(_, _) =>
      && w.phase.Preparing? && w.issued != [] && |w.stagedBy| == |w.issued|
      && w.phase.done < |w.phase.targets| && |w.phase.targets| >= c.Acks()
      && w.phase.targets[w.phase.done] in w.replicas
    case EndPrepare =>
      w.phase.Preparing? && (w.phase.done == |w.phase.targets| || |w.phase.targets| < c.Acks())
    case CommitCall(_, _) =>
      && w.phase.Committing? && w.issued != []
      && w.phase.done < |w.phase.targets| && w.phase.targets[w.phase.done] in w.replicas
    case EndCommit =>
      w.phase.Committing? && w.phase.done == |w.phase.targets| && w.issued != [] && c.leader in w.replicas
    case Observe(source, key, target) =>
      source in w.replicas && target in w.replicas && key in w.replicas[source].table
    case DeliverRepair(m) => m in w.repairs && m.target in w.replicas
  }

  ghost function Next(c: Config, w: World, a: Action): World
    requires Enabled(c, w, a)
  {
    match a
    case Issue(command, key, value, now, targets) =>
      w.(phase := Preparing(targets, 0, 0), issued := w.issued + [NewEntry(c, w, command, key, value, now)],
         stagedBy := w.stagedBy + [{}])
    case PrepareCall(processed, replied) =>
      var f := w.phase.targets[w.phase.done];
      var i := |w.issued| - 1;
      var w1 := w.(phase := Preparing(w.phase.targets, w.phase.done + 1,
                                      w.phase.acks + (if processed && replied then 1 else 0)));
      if !processed then w1
      else w1.(replicas := w.replicas[f := Prepare(w.replicas[f], Last(w))],
               stagedBy := w.stagedBy[i := w.stagedBy[i] + {f}])
    case EndPrepare =>
      w.(phase := if w.phase.acks >= c.Acks() then Committing(w.phase.targets, 0, 0) else Idle)
    case CommitCall(processed, replied) =>
      var f := w.phase.targets[w.phase.done];
      var w1 := w.(phase := Committing(w.phase.targets, w.phase.done + 1,
                                       w.phase.committed + (if processed && replied then 1 else 0)));
      if processed then w1.(replicas := w.replicas[f := CommitOn(w.replicas[f], Last(w))]) else w1
    case EndCommit =>
      if w.phase.committed + 1 < c.Required() then w.(phase := Idle)
      else
        var r := w.replicas[c.leader];
        w.(phase := Idle, acked := w.acked + [|w.issued| - 1],
           replicas := w.replicas[c.leader := r.(table := ApplyEntry(r.table, Last(w)))])
    case Observe(source, key, target) =>
      w.(repairs := w.repairs + {RepairMessage(target, key, w.replicas[source].table[key])})
    case DeliverRepair(m) =>
      var r := w.replicas[m.target];
      w.(replicas := w.replicas[m.target := r.(table := Offer(r.table, m.key, m.item))])
  }

  ghost predicate CanStep(c: Config, w: World, w': World) {
    exists a :: Enabled(c, w, a) && w' == Next(c, w, a)
  }

  ghost function Taken(c: Config, w: World, w': World): (a: Action)
    requires CanStep(c, w, w')
    ensures Enabled(c, w, a) && w' == Next(c, w, a)
  {
    var a :| Enabled(c, w, a) && w' == Next(c, w, a);
    a
  }

  ghost predicate IsRun(c: Config, run: seq<World>) {
    run != [] && c.Valid() && run[0] == Start(c)
    && forall i :: 0 <= i < |run| - 1 ==> CanStep(c, run[i], run[i + 1])
  }

  // ---------------------------------------------------------------- bookkeeping

  ghost predicate EntryShape(c: Config, w: World, i: nat)
    requires i < |w.issued|
  {
    var e := w.issued[i];
    && e.index == i + 1 && e.coordinator == c.leader && e.timestamp > 0.0
    && (i > 0 ==> w.issued[i - 1].timestamp < e.timestamp)
  }

  ghost predicate Shape(c: Config, w: World) {
    && c.Valid()
    && w.replicas.Keys == c.members
    && |w.stagedBy| == |w.issued|
    && (forall i: nat :: i < |w.issued| ==> EntryShape(c, w, i))
    && (forall i: nat :: i < |w.stagedBy| ==> w.stagedBy[i] <= c.members - {c.leader})
    && (forall i :: i in w.acked ==> i < |w.issued|)
    && (w.phase != Idle ==>
          && w.issued != [] && w.phase.done <= |w.phase.targets|
          && Quorums.Distinct(w.phase.targets) && Quorums.Members(w.phase.targets) <= c.members - {c.leader})
  }

  /** Every staged entry is the one issued under that index, and its holder is on record. */
  ghost predicate StagedAsIssued(w: World) {
    |w.stagedBy| == |w.issued|
    && forall n, i :: n in w.replicas && i in w.replicas[n].staged ==>
         1 <= i <= |w.issued| && w.replicas[n].staged[i] == w.issued[i - 1] && n in w.stagedBy[i - 1]
  }

  /** Enough distinct followers staged the write with position i. */
  ghost predicate Prepared(c: Config, w: World, i: nat)
    requires i < |w.stagedBy|
  {
    |w.stagedBy[i]| >= c.Acks()
  }

  ghost predicate AcksCounted(c: Config, w: World) {
    |w.stagedBy| == |w.issued|
    && (w.phase.Preparing? && w.issued != [] && w.phase.done <= |w.phase.targets| ==>
          w.phase.acks <= |w.stagedBy[|w.issued| - 1] * Quorums.Members(w.phase.targets[..w.phase.done])|)
    && (w.phase.Committing? && w.issued != [] ==> Prepared(c, w, |w.issued| - 1))
  }

  /** The item was written under this key by a write that gathered its prepare quorum. */
  ghost predicate Written(c: Config, w: World, key: string, item: Item) {
    exists i: nat :: WrittenBy(c, w, i, key, item)
  }

  ghost predicate WrittenBy(c: Config, w: World, i: nat, key: string, item: Item) {
    && i < |w.issued| && i < |w.stagedBy|
    && w.issued[i].command == SET && w.issued[i].key == key && ItemOf(w.issued[i]) == item
    && Prepared(c, w, i)
  }

  /** The item is just what the write carries. */
  predicate WrittenAs(e: WriteEntry, key: string, item: Item) {
    && e.command == SET && e.key == key && item.value == e.value && item.version == e.version
    && item.createdAt == e.createdAt && item.updatedAt == e.timestamp && item.coordinator == e.coordinator
  }

  ghost predicate AllWritten(c: Config, w: World) {
    && (forall n, key :: n in w.replicas && key in w.replicas[n].table ==> Written(c, w, key, w.replicas[n].table[key]))
    && (forall m :: m in w.repairs ==> Written(c, w, m.key, m.item))
  }

  /** Versions are positive: a stored version is, and a new one is one more. */
  ghost predicate PositiveVersions(w: World) {
    forall i: nat :: i < |w.issued| ==> w.issued[i].version >= 1
  }

  ghost predicate Inv(c: Config, w: World) {
    Shape(c, w) && StagedAsIssued(w) && AcksCounted(c, w) && AllWritten(c, w) && PositiveVersions(w)
  }

  /** What a client asks for is what is issued, with the next index, the leader's clock and
      name, and a version one past the leader's own copy. */
  predicate IssuedFor(c: Config, w: World, a: Action, e: WriteEntry)
    requires a.Issue? && c.leader in w.replicas
  {
    var table := w.replicas[c.leader].table;
    && e.index == |w.issued| + 1 && e.command == a.command && e.key == a.key && e.value == a.value
    && e.timestamp == a.now && e.coordinator == c.leader
    && (e.version == if a.key in table then table[a.key].version + 1 else 1)
    && (e.createdAt == if a.key in table then table[a.key].createdAt else a.now)
  }

  lemma IssuedFields(c: Config, w: World, a: Action)
    requires Enabled(c, w, a) && a.Issue?
    ensures var w' := Next(c, w, a);
            |w'.issued| == |w.issued| + 1 && w'.issued[..|w.issued|] == w.issued && IssuedFor(c, w, a, Last(w'))
  {}

  lemma OnlyIssueIssues(c: Config, w: World, a: Action)
    requires Enabled(c, w, a) && !a.Issue?
    ensures Next(c, w, a).issued == w.issued
  {}

  /** Over every run, each issued write carries the key, the command and the value of the
      client's request that issued it, at the step at which it was issued. */
  lemma {:induction false} WritesCarryRequests(c: Config, run: seq<World>, i: nat, p: nat) returns (j: nat, a: Action)
    requires IsRun(c, run) && i < |run| && p < |run[i].issued|
    ensures j < i && Enabled(c, run[j], a) && a.Issue? && run[j + 1] == Next(c, run[j], a)
    ensures |run[j].issued| == p && c.leader in run[j].replicas && IssuedFor(c, run[j], a, run[i].issued[p])
  {
    var step := Taken(c, run[i - 1], run[i - 1 + 1]);
    if p < |run[i - 1].issued| {
      j, a := WritesCarryRequests(c, run, i - 1, p);
      if step.Issue? { IssuedFields(c, run[i - 1], step); } else { OnlyIssueIssues(c, run[i - 1], step); }
    } else {
      j, a := i - 1, step;
      if step.Issue? { IssuedFields(c, run[i - 1], step); } else { OnlyIssueIssues(c, run[i - 1], step); }
    }
  }

  lemma PutIssued(t: Table, e: WriteEntry)
    requires e.version >= 1
    ensures Put(t, e.key, ItemOf(e)) == t[e.key := ItemOf(e)]
  {}

  lemma ShapeKept(c: Config, w: World, a: Action)
    requires Shape(c, w) && Enabled(c, w, a)
    ensures Shape(c, Next(c, w, a))
  {
    var w' := Next(c, w, a);
    forall i: nat | i < |w'.issued| ensures EntryShape(c, w', i) {
      if i < |w.issued| {
        assert EntryShape(c, w, i);
        assert i > 0 ==> w'.issued[i - 1] == w.issued[i - 1];
      }
    }
  }

  lemma VersionsKept(c: Config, w: World, a: Action)
    requires Inv(c, w) && Enabled(c, w, a)
    ensures PositiveVersions(Next(c, w, a))
  {
    if a.Issue? && a.key in w.replicas[c.leader].table {
      var item := w.replicas[c.leader].table[a.key];
      assert Written(c, w, a.key, item);
      var i: nat :| WrittenBy(c, w, i, a.key, item);
    }
  }

  lemma StagedKept(c: Config, w: World, a: Action)
    requires Shape(c, w) && StagedAsIssued(w) && Enabled(c, w, a)
    ensures StagedAsIssued(Next(c, w, a))
  {
    var w' := Next(c, w, a);
    if a.PrepareCall? {
      assert EntryShape(c, w, |w.issued| - 1);
    }
  }

  lemma OneMoreTarget(staged: set<NodeId>, ts: seq<NodeId>, d: nat, added: bool)
    requires d < |ts| && Quorums.Distinct(ts)
    ensures var before := |staged * Quorums.Members(ts[..d])|;
            var after := |(if added then staged + {ts[d]} else staged) * Quorums.Members(ts[..d + 1])|;
            after >= if added then before + 1 else before
  {
    assert ts[..d + 1] == ts[..d] + [ts[d]];
    var before := staged * Quorums.Members(ts[..d]);
    var after := (if added then staged + {ts[d]} else staged) * Quorums.Members(ts[..d + 1]);
    assert ts[d] !in Quorums.Members(ts[..d]);
    if added {
      Quorums.SubsetSize(before + {ts[d]}, after);
    } else {
      Quorums.SubsetSize(before, after);
    }
  }

  lemma PrepareCounted(c: Config, w: World, a: Action)
    requires Shape(c, w) && AcksCounted(c, w) && Enabled(c, w, a) && a.PrepareCall?
    ensures AcksCounted(c, Next(c, w, a))
  {
    OneMoreTarget(w.stagedBy[|w.issued| - 1], w.phase.targets, w.phase.done, a.processed);
  }

  lemma EnoughCounted(c: Config, w: World, a: Action)
    requires Shape(c, w) && AcksCounted(c, w) && Enabled(c, w, a) && a.EndPrepare?
    ensures AcksCounted(c, Next(c, w, a))
  {
    var staged := w.stagedBy[|w.issued| - 1];
    Quorums.SubsetSize(staged * Quorums.Members(w.phase.targets[..w.phase.done]), staged);
  }

  lemma AcksKept(c: Config, w: World, a: Action)
    requires Shape(c, w) && AcksCounted(c, w) && Enabled(c, w, a)
    ensures AcksCounted(c, Next(c, w, a))
  {
    if a.PrepareCall? {
      PrepareCounted(c, w, a);
    } else if a.EndPrepare? {
      EnoughCounted(c, w, a);
    }
  }

  lemma StepKeepsHistory(c: Config, w: World, a: Action)
    requires Shape(c, w) && Enabled(c, w, a)
    ensures var w' := Next(c, w, a);
            && w.issued <= w'.issued && |w.stagedBy| <= |w'.stagedBy|
            && forall i: nat :: i < |w.stagedBy| ==> w.stagedBy[i] <= w'.stagedBy[i]
  {}

  lemma WrittenGrows(c: Config, w: World, w': World, key: string, item: Item)
    requires Written(c, w, key, item)
    requires w.issued <= w'.issued && |w.stagedBy| <= |w'.stagedBy|
    requires forall i: nat :: i < |w.stagedBy| ==> w.stagedBy[i] <= w'.stagedBy[i]
    ensures Written(c, w', key, item)
  {
    var i: nat :| WrittenBy(c, w, i, key, item);
    Quorums.SubsetSize(w.stagedBy[i], w'.stagedBy[i]);
    assert WrittenBy(c, w', i, key, item);
  }

  lemma LastIsWritten(c: Config, w: World)
    requires Inv(c, w) && w.phase.Committing? && Last(w).command == SET
    ensures Written(c, w, Last(w).key, ItemOf(Last(w)))
  {
    assert WrittenBy(c, w, |w.issued| - 1, Last(w).key, ItemOf(Last(w)));
  }

  /** A commit applies exactly the issued entry. */
  lemma CommitAppliesIssued(c: Config, w: World, f: NodeId)
    requires Inv(c, w) && w.phase.Committing? && f in w.replicas
    ensures CommitOn(w.replicas[f], Last(w)).table == ApplyEntry(w.replicas[f].table, Last(w))
  {
    assert EntryShape(c, w, |w.issued| - 1);
  }

  lemma TablesWritten(c: Config, w: World, a: Action, n: NodeId, key: string)
    requires Inv(c, w) && Enabled(c, w, a)
    requires n in Next(c, w, a).replicas && key in Next(c, w, a).replicas[n].table
    ensures Written(c, w, key, Next(c, w, a).replicas[n].table[key])
  {
    var item := Next(c, w, a).replicas[n].table[key];
    if n in w.replicas && key in w.replicas[n].table && w.replicas[n].table[key] == item {
    } else {
      match a
      case CommitCall(_, _) =>
        CommitAppliesIssued(c, w, w.phase.targets[w.phase.done]);
        PutIssued(w.replicas[n].table, Last(w));
        LastIsWritten(c, w);
      case EndCommit =>
        PutIssued(w.replicas[n].table, Last(w));
        LastIsWritten(c, w);
      case DeliverRepair(m) =>
        assert Written(c, w, m.key, m.item);
        var i: nat :| WrittenBy(c, w, i, m.key, m.item);
        assert m.item.version >= 1;
    }
  }

  lemma RepairsWritten(c: Config, w: World, a: Action, m: RepairMessage)
    requires Inv(c, w) && Enabled(c, w, a) && m in Next(c, w, a).repairs
    ensures Written(c, w, m.key, m.item)
  {
    if m !in w.repairs { assert a.Observe? && m.item == w.replicas[a.source].table[a.key]; }
  }

  lemma WrittenKept(c: Config, w: World, a: Action)
    requires Inv(c, w) && Enabled(c, w, a)
    ensures AllWritten(c, Next(c, w, a))
  {
    var w' := Next(c, w, a);
    StepKeepsHistory(c, w, a);
    forall n, key | n in w'.replicas && key in w'.replicas[n].table
      ensures Written(c, w', key, w'.replicas[n].table[key]) {
      TablesWritten(c, w, a, n, key);
      WrittenGrows(c, w, w', key, w'.replicas[n].table[key]);
    }
    forall m | m in w'.repairs ensures Written(c, w', m.key, m.item) {
      RepairsWritten(c, w, a, m);
      WrittenGrows(c, w, w', m.key, m.item);
    }
  }

  lemma InvKept(c: Config, w: World, a: Action)
    requires Inv(c, w) && Enabled(c, w, a)
    ensures Inv(c, Next(c, w, a))
  {
    ShapeKept(c, w, a);
    StagedKept(c, w, a);
    AcksKept(c, w, a);
    WrittenKept(c, w, a);
    VersionsKept(c, w, a);
  }

  lemma {:induction false} InvAlways(c: Config, run: seq<World>, i: nat)
    requires IsRun(c, run) && i < |run|
    ensures Inv(c, run[i])
  {
    if i > 0 {
      InvAlways(c, run, i - 1);
      InvKept(c, run[i - 1], Taken(c, run[i - 1], run[i - 1 + 1]));
    }
  }

  lemma PreparedExactly(c: Config, w: World, i: nat)
    requires c.Valid() && i < |w.stagedBy|
    ensures Prepared(c, w, i) <==> Enough(c.consistency, |c.members|, |w.stagedBy[i]|)
  {}

  /** No value becomes visible without its prepare quorum: whatever any replica stores is
      exactly an issued SET that at least the required number of distinct followers staged;
      and whatever a follower has staged under an index is the entry issued under it. */
  lemma NoValueWithoutPrepareQuorum(c: Config, run: seq<World>, t: nat, n: NodeId)
    requires IsRun(c, run) && t < |run| && n in c.members
    ensures var w := run[t];
            && n in w.replicas && |w.stagedBy| == |w.issued|
            && (forall key :: key in w.replicas[n].table ==>
                  exists i: nat :: i < |w.issued| && WrittenAs(w.issued[i], key, w.replicas[n].table[key])
                    && w.stagedBy[i] <= c.members - {c.leader}
                    && Enough(c.consistency, |c.members|, |w.stagedBy[i]|))
            && (forall i :: i in w.replicas[n].staged ==>
                  1 <= i <= |w.issued| && w.replicas[n].staged[i] == w.issued[i - 1])
  {
    InvAlways(c, run, t);
    var w := run[t];
    forall key | key in w.replicas[n].table
      ensures exists i: nat :: i < |w.issued| && WrittenAs(w.issued[i], key, w.replicas[n].table[key])
                && w.stagedBy[i] <= c.members - {c.leader} && Enough(c.consistency, |c.members|, |w.stagedBy[i]|)
    {
      assert Written(c, w, key, w.replicas[n].table[key]);
      var i: nat :| WrittenBy(c, w, i, key, w.replicas[n].table[key]);
      PreparedExactly(c, w, i);
      assert WrittenAs(w.issued[i], key, w.replicas[n].table[key]);
    }
  }
}

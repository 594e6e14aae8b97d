/** What the write path guarantees about acknowledged writes. */
module AckedWrites {
  import opened Nodes
  import opened Ordering
  import opened Storage
  import opened Replication
  import opened WritePath
  import Quorums

  ghost predicate SetOnly(w: World) {
    forall i: nat :: i < |w.issued| ==> w.issued[i].command == SET
  }

  function EntryRank(e: WriteEntry): Rank {
    RankOf(ItemOf(e))
  }

  function LeaderVersion(c: Config, w: World, key: string): int
    requires c.leader in w.replicas
  {
    if key in w.replicas[c.leader].table then w.replicas[c.leader].table[key].version else 0
  }

  // ------------------------------------------------- issued writes are ever newer

  /** Although failed writes leave their version to be used again, each new write outranks
      every earlier write of its key. */
  ghost predicate Outranks(w: World, i: nat, j: nat)
    requires i < j < |w.issued|
  {
    w.issued[i].key == w.issued[j].key ==> Less(EntryRank(w.issued[i]), EntryRank(w.issued[j]))
  }

  ghost predicate Ordered(c: Config, w: World) {
    && c.leader in w.replicas
    && (forall i: nat, j: nat :: i < j < |w.issued| ==> Outranks(w, i, j))
    && (forall i: nat :: i < |w.issued| ==> w.issued[i].version <= LeaderVersion(c, w, w.issued[i].key) + 1)
  }

  ghost predicate TablesGrow(w: World, w': World) {
    w'.replicas.Keys == w.replicas.Keys
    && forall n :: n in w.replicas ==> TableGrows(w.replicas[n].table, w'.replicas[n].table)
  }

  lemma {:induction false} TimesIncrease(c: Config, w: World, i: nat, j: nat)
    requires Shape(c, w) && i < j < |w.issued|
    ensures w.issued[i].timestamp < w.issued[j].timestamp
  {
    assert EntryShape(c, w, j);
    if i < j - 1 { TimesIncrease(c, w, i, j - 1); }
  }

  /** Writing the latest issued entry over an older copy raises its rank. */
  lemma LatestRaises(c: Config, w: World, t: Table)
    requires Inv(c, w) && SetOnly(w) && Ordered(c, w) && w.issued != []
    requires forall key :: key in t ==> Written(c, w, key, t[key])
    ensures TableGrows(t, ApplyEntry(t, Last(w)))
    ensures ApplyEntry(t, Last(w)) == t[Last(w).key := ItemOf(Last(w))]
  {
    var e := Last(w);
    PutIssued(t, e);
    if e.key in t {
      assert Written(c, w, e.key, t[e.key]);
      var i: nat :| WrittenBy(c, w, i, e.key, t[e.key]);
      if i < |w.issued| - 1 { assert Outranks(w, i, |w.issued| - 1); }
    }
  }

  lemma OfferRaises(t: Table, key: string, item: Item)
    requires item.version >= 1
    ensures TableGrows(t, Offer(t, key, item))
  {
    if key in t { RankTotal(RankOf(t[key]), RankOf(item)); }
  }

  lemma ReplicaRaises(w: World, w': World, n: NodeId)
    requires w'.replicas.Keys == w.replicas.Keys && n in w.replicas
    requires forall m :: m in w.replicas && m != n ==> w'.replicas[m].table == w.replicas[m].table
    requires TableGrows(w.replicas[n].table, w'.replicas[n].table)
    ensures TablesGrow(w, w')
  {}

  lemma CommitRaises(c: Config, w: World, a: Action)
    requires Inv(c, w) && SetOnly(w) && Ordered(c, w) && Enabled(c, w, a) && a.CommitCall?
    ensures TablesGrow(w, Next(c, w, a))
  {
    var f := w.phase.targets[w.phase.done];
    CommitAppliesIssued(c, w, f);
    LatestRaises(c, w, w.replicas[f].table);
    ReplicaRaises(w, Next(c, w, a), f);
  }

  lemma AcknowledgeRaises(c: Config, w: World, a: Action)
    requires Inv(c, w) && SetOnly(w) && Ordered(c, w) && Enabled(c, w, a) && a.EndCommit?
    ensures TablesGrow(w, Next(c, w, a))
  {
    LatestRaises(c, w, w.replicas[c.leader].table);
  }

  lemma RepairRaises(c: Config, w: World, a: Action)
    requires Inv(c, w) && Enabled(c, w, a) && a.DeliverRepair?
    ensures TablesGrow(w, Next(c, w, a))
  {
    var m := a.message;
    assert Written(c, w, m.key, m.item);
    var i: nat :| WrittenBy(c, w, i, m.key, m.item);
    OfferRaises(w.replicas[m.target].table, m.key, m.item);
  }

  lemma StepRaises(c: Config, w: World, a: Action)
    requires Inv(c, w) && SetOnly(w) && Ordered(c, w) && Enabled(c, w, a)
    ensures TablesGrow(w, Next(c, w, a))
  {
    match a
    case CommitCall(_, _) => CommitRaises(c, w, a);
    case EndCommit => AcknowledgeRaises(c, w, a);
    case DeliverRepair(_) => RepairRaises(c, w, a);
    case _ =>
  }

  lemma NewEntryOutranks(c: Config, w: World, a: Action, i: nat)
    requires Inv(c, w) && Ordered(c, w) && Enabled(c, w, a) && a.Issue? && i < |w.issued|
    ensures Outranks(Next(c, w, a), i, |w.issued|)
  {
    if i < |w.issued| - 1 { TimesIncrease(c, w, i, |w.issued| - 1); }
  }

  lemma VersionStaysNear(c: Config, w: World, w': World, i: nat)
    requires Inv(c, w) && Inv(c, w') && Ordered(c, w) && TablesGrow(w, w') && w.issued <= w'.issued && i < |w.issued|
    ensures c.leader in w'.replicas && w'.issued[i].version <= LeaderVersion(c, w', w'.issued[i].key) + 1
  {
    assert w.issued[i].version <= LeaderVersion(c, w, w.issued[i].key) + 1;
    LeaderVersionGrows(c, w, w', w.issued[i].key);
  }

  lemma NewVersionNear(c: Config, w: World, a: Action)
    requires Enabled(c, w, a) && a.Issue?
    ensures var w' := Next(c, w, a);
            c.leader in w'.replicas && Last(w').version <= LeaderVersion(c, w', Last(w').key) + 1
  {}

  lemma OrderedKept(c: Config, w: World, a: Action)
    requires Inv(c, w) && SetOnly(w) && Ordered(c, w) && Enabled(c, w, a)
    ensures Ordered(c, Next(c, w, a))
  {
    var w' := Next(c, w, a);
    StepRaises(c, w, a);
    InvKept(c, w, a);
    IssuedGrow(c, w, a);
    forall i: nat, j: nat | i < j < |w'.issued| ensures Outranks(w', i, j) {
      if j < |w.issued| { assert Outranks(w, i, j); } else { NewEntryOutranks(c, w, a, i); }
    }
    forall i: nat | i < |w'.issued| ensures w'.issued[i].version <= LeaderVersion(c, w', w'.issued[i].key) + 1 {
      if i < |w.issued| { VersionStaysNear(c, w, w', i); } else { NewVersionNear(c, w, a); }
    }
  }

  lemma LeaderVersionGrows(c: Config, w: World, w': World, key: string)
    requires Inv(c, w) && Inv(c, w') && TablesGrow(w, w') && c.leader in w.replicas && c.leader in w'.replicas
    ensures LeaderVersion(c, w, key) <= LeaderVersion(c, w', key)
  {
    var t, t' := w.replicas[c.leader].table, w'.replicas[c.leader].table;
    assert TableGrows(t, t');
    if key in t {
      assert AtMost(RankOf(t[key]), RankOf(t'[key]));
    } else if key in t' {
      assert Written(c, w', key, t'[key]);
      var i: nat :| WrittenBy(c, w', i, key, t'[key]);
    }
  }

  // ------------------------------------------------------- acknowledged writes stay

  ghost predicate Held(w: World, n: NodeId, e: WriteEntry)
    requires n in w.replicas
  {
    e.key in w.replicas[n].table && AtMost(EntryRank(e), RankOf(w.replicas[n].table[e.key]))
  }

  ghost function Holders(w: World, e: WriteEntry): set<NodeId> {
    set n | n in w.replicas && Held(w, n, e)
  }

  /** The leader and at least the required number of members hold the write or better. */
  ghost predicate Secured(c: Config, w: World, e: WriteEntry) {
    c.leader in Holders(w, e) && |Holders(w, e)| >= c.Required()
  }

  ghost predicate AllSecured(c: Config, w: World) {
    forall p :: p in w.acked && p < |w.issued| ==> Secured(c, w, w.issued[p])
  }

  /** The commit confirmations counted so far come from members that hold the write. */
  ghost predicate CommitsCounted(w: World) {
    w.phase.Committing? && w.issued != [] && w.phase.done <= |w.phase.targets| ==>
      w.phase.committed <= |Holders(w, Last(w)) * Quorums.Members(w.phase.targets[..w.phase.done])|
  }

  ghost predicate AckedSecured(c: Config, w: World) {
    AllSecured(c, w) && CommitsCounted(w)
  }

  lemma HoldersGrow(w: World, w': World, e: WriteEntry)
    requires TablesGrow(w, w')
    ensures Holders(w, e) <= Holders(w', e) && |Holders(w, e)| <= |Holders(w', e)|
  {
    forall n | n in Holders(w, e) ensures n in Holders(w', e) {
      var t, t' := w.replicas[n].table, w'.replicas[n].table;
      assert TableGrows(t, t');
      RankTransitive(EntryRank(e), RankOf(t[e.key]), RankOf(t'[e.key]));
    }
    Quorums.SubsetSize(Holders(w, e), Holders(w', e));
  }

  lemma ProcessedCommitHolds(c: Config, w: World, a: Action)
    requires Inv(c, w) && SetOnly(w) && Ordered(c, w) && Enabled(c, w, a) && a.CommitCall? && a.processed
    ensures Held(Next(c, w, a), w.phase.targets[w.phase.done], Last(w))
  {
    var f := w.phase.targets[w.phase.done];
    CommitAppliesIssued(c, w, f);
    LatestRaises(c, w, w.replicas[f].table);
  }

  lemma CommitCallPhase(c: Config, w: World, a: Action)
    requires Enabled(c, w, a) && a.CommitCall?
    ensures var w' := Next(c, w, a);
            && w'.issued == w.issued
            && w'.phase == Committing(w.phase.targets, w.phase.done + 1,
                                      w.phase.committed + (if a.processed && a.replied then 1 else 0))
  {}

  lemma HoldersCounted(w: World, w': World, e: WriteEntry, ts: seq<NodeId>, d: nat, added: bool)
    requires TablesGrow(w, w') && d < |ts| && Quorums.Distinct(ts)
    requires added ==> ts[d] in w'.replicas && Held(w', ts[d], e)
    ensures |Holders(w', e) * Quorums.Members(ts[..d + 1])|
            >= |Holders(w, e) * Quorums.Members(ts[..d])| + (if added then 1 else 0)
  {
    HoldersGrow(w, w', e);
    CountOneMore(Holders(w, e), Holders(w', e), ts, d, added);
  }

  lemma CountOneMore(before: set<NodeId>, after: set<NodeId>, ts: seq<NodeId>, d: nat, added: bool)
    requires before <= after && d < |ts| && Quorums.Distinct(ts) && (added ==> ts[d] in after)
    ensures |after * Quorums.Members(ts[..d + 1])| >= |before * Quorums.Members(ts[..d])| + (if added then 1 else 0)
  {
    OneMoreTarget(before, ts, d, added);
    var grown := if added then before + {ts[d]} else before;
    Quorums.SubsetSize(grown * Quorums.Members(ts[..d + 1]), after * Quorums.Members(ts[..d + 1]));
  }

  lemma AckSecures(c: Config, w: World, a: Action)
    requires Inv(c, w) && SetOnly(w) && Ordered(c, w) && AckedSecured(c, w) && Enabled(c, w, a) && a.EndCommit?
    requires w.phase.committed + 1 >= c.Required() && TablesGrow(w, Next(c, w, a))
    ensures Secured(c, Next(c, w, a), Last(w))
  {
    var w' := Next(c, w, a);
    var e, ts := Last(w), w.phase.targets;
    LatestRaises(c, w, w.replicas[c.leader].table);
    HoldersGrow(w, w', e);
    assert Held(w', c.leader, e);
    assert ts[..w.phase.done] == ts;
    LeaderJoins(Holders(w, e), Holders(w', e), Quorums.Members(ts), c.leader);
  }

  lemma LeaderJoins(before: set<NodeId>, after: set<NodeId>, targets: set<NodeId>, leader: NodeId)
    requires before <= after && leader in after && leader !in targets
    ensures |after| >= |before * targets| + 1
  {
    Quorums.SubsetSize(before * targets + {leader}, after);
  }

  lemma NewlyAcked(c: Config, w: World, a: Action, p: nat)
    requires Enabled(c, w, a) && p in Next(c, w, a).acked && p !in w.acked
    ensures a.EndCommit? && w.phase.committed + 1 >= c.Required() && p == |w.issued| - 1
    ensures Next(c, w, a).issued == w.issued
  {}

  lemma SecuredStays(c: Config, w: World, w': World, e: WriteEntry)
    requires TablesGrow(w, w') && Secured(c, w, e)
    ensures Secured(c, w', e)
  {
    HoldersGrow(w, w', e);
  }

  lemma CommitCallTargets(c: Config, w: World, a: Action)
    requires Shape(c, w) && Enabled(c, w, a) && a.CommitCall?
    ensures Quorums.Distinct(w.phase.targets) && w.phase.done < |w.phase.targets| && w.issued != []
    ensures w.phase.targets[w.phase.done] in Next(c, w, a).replicas
  {}

  lemma CommitCountKept(c: Config, w: World, a: Action, w': World)
    requires Inv(c, w) && SetOnly(w) && Ordered(c, w) && Enabled(c, w, a) && a.CommitCall? && w' == Next(c, w, a)
    requires CommitsCounted(w) && TablesGrow(w, w')
    ensures CommitsCounted(w')
  {
    CommitCallTargets(c, w, a);
    CommitCallPhase(c, w, a);
    if a.processed { ProcessedCommitHolds(c, w, a); }
    OneMoreCounted(w, w', a.processed, a.replied);
  }

  lemma OneMoreCounted(w: World, w': World, processed: bool, replied: bool)
    requires w.phase.Committing? && w.issued != [] && w.phase.done < |w.phase.targets| && w'.issued == w.issued
    requires w'.phase == Committing(w.phase.targets, w.phase.done + 1,
                                    w.phase.committed + (if processed && replied then 1 else 0))
    requires CommitsCounted(w) && TablesGrow(w, w') && Quorums.Distinct(w.phase.targets)
    requires w.phase.targets[w.phase.done] in w'.replicas
    requires processed ==> Held(w', w.phase.targets[w.phase.done], Last(w))
    ensures CommitsCounted(w')
  {
    CallCounted(w, w', w.phase.targets, w.phase.done, w.phase.committed, Last(w), processed, replied);
  }

  lemma CountedAt(w: World, ts: seq<NodeId>, k: nat, n: nat, e: WriteEntry)
    requires w.phase == Committing(ts, k, n) && w.issued != [] && Last(w) == e && k <= |ts|
    requires n <= |Holders(w, e) * Quorums.Members(ts[..k])|
    ensures CommitsCounted(w)
  {}

  lemma CallCounted(w: World, w': World, ts: seq<NodeId>, d: nat, n: nat, e: WriteEntry, processed: bool, replied: bool)
    requires d < |ts| && Quorums.Distinct(ts) && TablesGrow(w, w') && n <= |Holders(w, e) * Quorums.Members(ts[..d])|
    requires w'.phase == Committing(ts, d + 1, n + (if processed && replied then 1 else 0))
    requires w'.issued != [] && Last(w') == e
    requires processed ==> ts[d] in w'.replicas && Held(w', ts[d], e)
    ensures CommitsCounted(w')
  {
    HoldersCounted(w, w', e, ts, d, processed);
    CountedAt(w', ts, d + 1, n + (if processed && replied then 1 else 0), e);
  }

  lemma PhaseKept(w: World, w': World, ts: set<NodeId>, e: WriteEntry, n: nat)
    requires TablesGrow(w, w') && n <= |Holders(w, e) * ts|
    ensures n <= |Holders(w', e) * ts|
  {
    HoldersGrow(w, w', e);
    Quorums.SubsetSize(Holders(w, e) * ts, Holders(w', e) * ts);
  }

  lemma PhaseChanges(c: Config, w: World, a: Action, w': World)
    requires Enabled(c, w, a) && w' == Next(c, w, a) && w'.phase.Committing? && !a.CommitCall?
    ensures (a.EndPrepare? && w'.phase.committed == 0) || (w'.phase == w.phase && w'.issued == w.issued)
  {}

  lemma CommitsKeptElsewhere(c: Config, w: World, a: Action, w': World)
    requires CommitsCounted(w) && Enabled(c, w, a) && !a.CommitCall?
    requires w' == Next(c, w, a) && TablesGrow(w, w')
    ensures CommitsCounted(w')
  {
    if w'.phase.Committing? {
      PhaseChanges(c, w, a, w');
      if w'.phase == w.phase && w.issued != [] && w.phase.done <= |w.phase.targets| {
        PhaseKept(w, w', Quorums.Members(w.phase.targets[..w.phase.done]), Last(w), w.phase.committed);
      }
    }
  }

  lemma CommitsKept(c: Config, w: World, a: Action, w': World)
    requires Inv(c, w) && SetOnly(w) && Ordered(c, w) && CommitsCounted(w) && Enabled(c, w, a)
    requires w' == Next(c, w, a) && TablesGrow(w, w')
    ensures CommitsCounted(w')
  {
    if a.CommitCall? {
      CommitCountKept(c, w, a, w');
    } else {
      CommitsKeptElsewhere(c, w, a, w');
    }
  }

  lemma OneSecured(c: Config, w: World, a: Action, w': World, p: nat)
    requires Inv(c, w) && SetOnly(w) && Ordered(c, w) && AckedSecured(c, w) && Enabled(c, w, a)
    requires w' == Next(c, w, a) && TablesGrow(w, w') && w.issued <= w'.issued
    requires p in w'.acked && p < |w'.issued|
    ensures Secured(c, w', w'.issued[p])
  {
    if p in w.acked {
      assert p < |w.issued| && w'.issued[p] == w.issued[p];
      SecuredStays(c, w, w', w.issued[p]);
    } else {
      NewlyAcked(c, w, a, p);
      AckSecures(c, w, a);
    }
  }

  lemma AckedKept(c: Config, w: World, a: Action)
    requires Inv(c, w) && SetOnly(w) && Ordered(c, w) && AckedSecured(c, w) && Enabled(c, w, a)
    ensures AckedSecured(c, Next(c, w, a))
  {
    var w' := Next(c, w, a);
    StepRaises(c, w, a);
    IssuedGrow(c, w, a);
    CommitsKept(c, w, a, w');
    forall p | p in w'.acked && p < |w'.issued| ensures Secured(c, w', w'.issued[p]) {
      OneSecured(c, w, a, w', p);
    }
  }

  lemma IssuedGrow(c: Config, w: World, a: Action)
    requires Enabled(c, w, a)
    ensures w.issued <= Next(c, w, a).issued && w.acked <= Next(c, w, a).acked
  {}

  lemma {:induction false} HistoryGrows(c: Config, run: seq<World>, i: nat, j: nat)
    requires IsRun(c, run) && i <= j < |run|
    ensures run[i].issued <= run[j].issued && run[i].acked <= run[j].acked
    decreases j
  {
    if i < j {
      HistoryGrows(c, run, i, j - 1);
      IssuedGrow(c, run[j - 1], Taken(c, run[j - 1], run[j - 1 + 1]));
    }
  }

  lemma SetOnlyBefore(c: Config, run: seq<World>, i: nat, j: nat)
    requires IsRun(c, run) && i <= j < |run| && SetOnly(run[j])
    ensures SetOnly(run[i])
  {
    HistoryGrows(c, run, i, j);
  }

  lemma {:induction false} SecuredAlways(c: Config, run: seq<World>, i: nat)
    requires IsRun(c, run) && i < |run| && SetOnly(run[i])
    ensures Inv(c, run[i]) && Ordered(c, run[i]) && AckedSecured(c, run[i])
  {
    InvAlways(c, run, i);
    if i > 0 {
      SetOnlyBefore(c, run, i - 1, i);
      SecuredAlways(c, run, i - 1);
      var a := Taken(c, run[i - 1], run[i - 1 + 1]);
      OrderedKept(c, run[i - 1], a);
      AckedKept(c, run[i - 1], a);
    }
  }

  lemma TablesGrowOnce(c: Config, run: seq<World>, i: nat)
    requires IsRun(c, run) && i + 1 < |run| && SetOnly(run[i + 1])
    ensures TablesGrow(run[i], run[i + 1])
  {
    SetOnlyBefore(c, run, i, i + 1);
    SecuredAlways(c, run, i);
    StepRaises(c, run[i], Taken(c, run[i], run[i + 1]));
  }

  lemma {:induction false} ChainOfTables(worlds: seq<World>, i: nat, j: nat)
    requires i <= j < |worlds| && forall k :: i <= k < j ==> TablesGrow(worlds[k], worlds[k + 1])
    ensures TablesGrow(worlds[i], worlds[j])
    decreases j
  {
    if i < j {
      ChainOfTables(worlds, i, j - 1);
      assert TablesGrow(worlds[j - 1], worlds[j - 1 + 1]);
      GrowTransitive(worlds[i], worlds[j - 1], worlds[j]);
    } else {
      assert forall n :: n in worlds[i].replicas ==>
        TableGrows(worlds[i].replicas[n].table, worlds[i].replicas[n].table);
    }
  }

  lemma TablesOnlyGrow(c: Config, run: seq<World>, i: nat, j: nat)
    requires IsRun(c, run) && i <= j < |run| && SetOnly(run[j])
    ensures TablesGrow(run[i], run[j])
  {
    forall k | i <= k < j ensures TablesGrow(run[k], run[k + 1]) {
      SetOnlyBefore(c, run, k + 1, j);
      TablesGrowOnce(c, run, k);
    }
    ChainOfTables(run, i, j);
  }

  lemma GrowTransitive(a: World, b: World, c: World)
    requires TablesGrow(a, b) && TablesGrow(b, c)
    ensures TablesGrow(a, c)
  {
    forall n, key | n in a.replicas && key in a.replicas[n].table
      ensures key in c.replicas[n].table && AtMost(RankOf(a.replicas[n].table[key]), RankOf(c.replicas[n].table[key]))
    {
      assert TableGrows(a.replicas[n].table, b.replicas[n].table);
      assert TableGrows(b.replicas[n].table, c.replicas[n].table);
      RankTransitive(RankOf(a.replicas[n].table[key]), RankOf(b.replicas[n].table[key]),
          RankOf(c.replicas[n].table[key]));
    }
    forall n | n in a.replicas ensures TableGrows(a.replicas[n].table, c.replicas[n].table) {}
  }

  /** In a run of SETs an acknowledged write is never lost: from its acknowledgement on, the
      leader and the required number of members hold it, or a write that outranks it. */
  lemma AckedWritesStay(c: Config, run: seq<World>, i: nat, j: nat, p: nat)
    requires IsRun(c, run) && i <= j < |run| && SetOnly(run[j]) && p in run[i].acked
    ensures p < |run[j].issued| && Secured(c, run[j], run[j].issued[p])
  {
    HistoryGrows(c, run, i, j);
    SecuredAlways(c, run, j);
    assert run[i].acked == run[j].acked[..|run[i].acked|];
    assert p in run[j].acked;
  }

  /** The node holds the write at position p, or a later write of its key, just as issued. */
  ghost predicate Keeps(w: World, n: NodeId, p: nat)
    requires n in w.replicas && p < |w.issued|
  {
    var key, table := w.issued[p].key, w.replicas[n].table;
    key in table && LaterWrite(w, p, table[key])
  }

  ghost predicate LaterWrite(w: World, p: nat, item: Item)
    requires p < |w.issued|
  {
    exists q: nat :: p <= q < |w.issued| && WrittenAs(w.issued[q], w.issued[p].key, item)
  }

  ghost function Keepers(w: World, p: nat): set<NodeId>
    requires p < |w.issued|
  {
    set n | n in w.replicas && Keeps(w, n, p)
  }

  /** Ranks identify writes: what ranks at least as high as a write of the key is that write
      or one issued later. */
  lemma RankIdentifiesWrite(c: Config, w: World, p: nat, item: Item)
    requires Inv(c, w) && Ordered(c, w) && p < |w.issued| && Written(c, w, w.issued[p].key, item)
    requires AtMost(EntryRank(w.issued[p]), RankOf(item))
    ensures LaterWrite(w, p, item)
  {
    var q: nat :| WrittenBy(c, w, q, w.issued[p].key, item);
    if q < p {
      assert Outranks(w, q, p);
      RankTotal(EntryRank(w.issued[p]), RankOf(item));
    }
    assert WrittenAs(w.issued[q], w.issued[p].key, item);
  }

  /** Equal rank means the very same write, value and all. */
  lemma SameRankSameWrite(c: Config, w: World, p: nat, item: Item)
    requires Inv(c, w) && Ordered(c, w) && p < |w.issued| && Written(c, w, w.issued[p].key, item)
    requires RankOf(item) == EntryRank(w.issued[p]) && w.issued[p].command == SET
    ensures WrittenAs(w.issued[p], w.issued[p].key, item)
  {
    var q: nat :| WrittenBy(c, w, q, w.issued[p].key, item);
    if q < p { assert Outranks(w, q, p); } else if p < q { assert Outranks(w, p, q); }
    RankTotal(RankOf(item), RankOf(item));
  }

  lemma HoldersKeep(c: Config, w: World, p: nat)
    requires Inv(c, w) && Ordered(c, w) && p < |w.issued|
    ensures Holders(w, w.issued[p]) <= Keepers(w, p)
  {
    var key := w.issued[p].key;
    forall n | n in Holders(w, w.issued[p]) ensures Keeps(w, n, p) {
      assert Written(c, w, key, w.replicas[n].table[key]);
      RankIdentifiesWrite(c, w, p, w.replicas[n].table[key]);
    }
  }

  /** How many copies an acknowledgement stands for. In a run of SETs, from the acknowledgement
      on, the leader holds the write itself or a later write of its key, exactly as issued; so
      do all members after an ALL or STRONG write, and more than half after a QUORUM write. */
  lemma AckedCopies(c: Config, run: seq<World>, i: nat, j: nat, p: nat)
    requires IsRun(c, run) && i <= j < |run| && SetOnly(run[j]) && p in run[i].acked
    ensures p < |run[j].issued| && c.leader in Keepers(run[j], p)
    ensures c.consistency in {ALL, STRONG} ==> Keepers(run[j], p) == c.members
    ensures c.consistency == QUORUM ==> 2 * |Keepers(run[j], p)| > |c.members|
  {
    AckedWritesStay(c, run, i, j, p);
    SecuredAlways(c, run, j);
    HoldersKeep(c, run[j], p);
    Quorums.SubsetSize(Holders(run[j], run[j].issued[p]), Keepers(run[j], p));
    if |Keepers(run[j], p)| >= |c.members| { Quorums.WholeGroup(Keepers(run[j], p), c.members); }
  }

  // --------------------------------------- the leader's table is a sequential map

  /** The acknowledged writes applied one after the other to an empty table. */
  ghost function Ledger(issued: seq<WriteEntry>, acked: seq<nat>): Table {
    if acked == [] then map[]
    else
      var before := Ledger(issued, acked[..|acked| - 1]);
      var p := acked[|acked| - 1];
      if p < |issued| then ApplyEntry(before, issued[p]) else before
  }

  lemma {:induction false} LedgerStable(issued: seq<WriteEntry>, issued': seq<WriteEntry>, acked: seq<nat>)
    requires issued <= issued' && (forall k :: 0 <= k < |acked| ==> acked[k] < |issued|)
    ensures Ledger(issued, acked) == Ledger(issued', acked)
  {
    if acked != [] {
      assert acked[|acked| - 1] in acked;
      LedgerStable(issued, issued', acked[..|acked| - 1]);
    }
  }

  /** Every step is explained by something other than a repair that reaches the leader. */
  ghost predicate LeaderUnrepaired(c: Config, run: seq<World>) {
    forall i :: 0 <= i < |run| - 1 ==> StepWithoutRepair(c, run[i], run[i + 1])
  }

  ghost predicate StepWithoutRepair(c: Config, w: World, w': World) {
    exists a :: Enabled(c, w, a) && w' == Next(c, w, a) && !(a.DeliverRepair? && a.message.target == c.leader)
  }

  lemma LedgerKept(c: Config, w: World, w': World)
    requires Inv(c, w) && StepWithoutRepair(c, w, w') && w.replicas[c.leader].table == Ledger(w.issued, w.acked)
    ensures c.leader in w'.replicas && w'.replicas[c.leader].table == Ledger(w'.issued, w'.acked)
  {
    var a :| Enabled(c, w, a) && w' == Next(c, w, a) && !(a.DeliverRepair? && a.message.target == c.leader);
    IssuedGrow(c, w, a);
    AckedWithinIssued(c, w);
    LedgerStable(w.issued, w'.issued, w.acked);
    LedgerStep(c, w, a);
  }

  lemma AckedWithinIssued(c: Config, w: World)
    requires Shape(c, w)
    ensures forall k :: 0 <= k < |w.acked| ==> w.acked[k] < |w.issued|
  {
    forall k | 0 <= k < |w.acked| ensures w.acked[k] < |w.issued| { assert w.acked[k] in w.acked; }
  }

  /** With SETs and DELETEs alike and no repair of the leader, the leader's table is always
      the acknowledged writes applied in order: failed writes leave no trace in it. */
  lemma {:induction false} LeaderIsLedger(c: Config, run: seq<World>, i: nat)
    requires IsRun(c, run) && LeaderUnrepaired(c, run) && i < |run|
    ensures c.leader in run[i].replicas
    ensures run[i].replicas[c.leader].table == Ledger(run[i].issued, run[i].acked)
  {
    if i > 0 {
      LeaderIsLedger(c, run, i - 1);
      InvAlways(c, run, i - 1);
      assert StepWithoutRepair(c, run[i - 1], run[i - 1 + 1]);
      LedgerKept(c, run[i - 1], run[i]);
    }
  }

  lemma LedgerStep(c: Config, w: World, a: Action)
    requires Inv(c, w) && Enabled(c, w, a) && !(a.DeliverRepair? && a.message.target == c.leader)
    requires w.replicas[c.leader].table == Ledger(w.issued, w.acked) == Ledger(Next(c, w, a).issued, w.acked)
    ensures Next(c, w, a).replicas[c.leader].table == Ledger(Next(c, w, a).issued, Next(c, w, a).acked)
  {
    if a.PrepareCall? || a.CommitCall? {
      assert w.phase.targets[w.phase.done] in Quorums.Members(w.phase.targets);
    } else if a.EndCommit? {
      assert (w.acked + [|w.issued| - 1])[..|w.acked|] == w.acked;
    }
  }
}

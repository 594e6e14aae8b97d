/** Quorum reads and read repair (minidb/cluster/read_coordinator.py, and the two read
    callbacks of minidb/node.py). A remote read that fails is reported by the callback as
    "not found, version 0", so it counts as a response like any other. */
module ReadPath {
  import opened Nodes
  import opened Options
  import opened Ordering
  import opened Storage
  import opened Replication
  import Quorums

  datatype ReadResult = ReadResult(
    value: Value, version: int, node: NodeId, updatedAt: real, createdAt: real, coordinator: string)

  function Missing(node: NodeId): ReadResult {
    ReadResult(Null, 0, node, 0.0, 0.0, "")
  }

  /** What a replica that is reached answers. */
  function Answer(t: Table, key: string, node: NodeId): ReadResult {
    if key in t then
      ReadResult(t[key].value, t[key].version, node, t[key].updatedAt, t[key].createdAt, t[key].coordinator)
    else Missing(node)
  }

  predicate IsPresent(r: ReadResult) {
    !(r.version == 0 && r.value == Null)
  }

  function SortKey(r: ReadResult): Rank {
    Rank(r.version, r.updatedAt, if r.coordinator != "" then r.coordinator else r.node)
  }

  function Present(results: seq<ReadResult>): seq<ReadResult> {
    if results == [] then []
    else
      var last := results[|results| - 1];
      Present(results[..|results| - 1]) + if IsPresent(last) then [last] else []
  }

  /** The response of a replica that has nothing. */
  predicate IsMissing(r: ReadResult) {
    r.version == 0 && r.value == Null
  }

  /** a is of a later write than b: of a higher version, else of a later time, else of a
      coordinator, or of a node where none is named, whose name comes later. */
  predicate Newer(a: ReadResult, b: ReadResult) {
    a.version > b.version
    || (a.version == b.version && a.updatedAt > b.updatedAt)
    || (a.version == b.version && a.updatedAt == b.updatedAt && LexLess(Origin(b), Origin(a)))
  }

  function Origin(r: ReadResult): string {
    if r.coordinator == "" then r.node else r.coordinator
  }

  /** The first of the highest-ranked results. */
  function Best(results: seq<ReadResult>): ReadResult
    requires results != []
  {
    if |results| == 1 then results[0]
    else
      var best, last := Best(results[..|results| - 1]), results[|results| - 1];
      if Less(SortKey(best), SortKey(last)) then last else best
  }

  datatype Outcome = Failed | Absent | Found(result: ReadResult)

  /** Shared by QUORUM and ALL reads, which differ in the number of results they need. */
  function Select(results: seq<ReadResult>, needed: nat): Outcome {
    if |results| < needed then Failed
    else if Present(results) == [] then Absent
    else Found(Best(Present(results)))
  }

  predicate Inconsistent(results: seq<ReadResult>) {
    var present := Present(results);
    |set r | r in present :: r.version| > 1 || |present| < |results|
  }

  /** The best result: it is not a missing one, no other present result is newer, and all
      present ones before it are older. */
  predicate FirstNewest(results: seq<ReadResult>, i: int)
    requires 0 <= i < |results|
  {
    && !IsMissing(results[i])
    && (forall j :: 0 <= j < |results| && !IsMissing(results[j]) ==> !Newer(results[j], results[i]))
    && (forall j :: 0 <= j < i && !IsMissing(results[j]) ==> Newer(results[i], results[j]))
  }

  /** What a read answers, given what it gathered and whether that is enough. */
  predicate Answers(results: seq<ReadResult>, enough: bool, outcome: Outcome) {
    match outcome
    case Failed => !enough
    case Absent => enough && forall r :: r in results ==> IsMissing(r)
    case Found(best) => enough && exists i :: 0 <= i < |results| && results[i] == best && FirstNewest(results, i)
  }

  /** A read that found something also met a replica that lacks it or has another version. */
  predicate MetStale(results: seq<ReadResult>, outcome: Outcome) {
    outcome.Found? && exists r :: r in results && (IsMissing(r) || r.version != outcome.result.version)
  }

  datatype RepairCall = RepairCall(key: string, target: NodeId, item: Item)

  function AsItem(r: ReadResult): Item {
    Item(r.value, r.version, r.createdAt, r.updatedAt, r.coordinator)
  }

  /** One call for every result that ranks below the best. */
  function RepairsFor(key: string, best: ReadResult, results: seq<ReadResult>): seq<RepairCall> {
    if results == [] then []
    else
      var last := results[|results| - 1];
      RepairsFor(key, best, results[..|results| - 1])
      + if Less(SortKey(last), SortKey(best)) then [RepairCall(key, last.node, AsItem(best))] else []
  }

  /** The repair calls of a whole read. */
  function RepairsOf(key: string, results: seq<ReadResult>, needed: nat): seq<RepairCall> {
    var outcome := Select(results, needed);
    if outcome.Found? && Inconsistent(results) then RepairsFor(key, outcome.result, results) else []
  }

  function QuorumSize(replicationFactor: nat): nat {
    if replicationFactor / 2 + 1 >= 1 then replicationFactor / 2 + 1 else 1
  }

  /** More than half, and no more than it takes. */
  predicate LeastMajority(m: nat, replicationFactor: nat) {
    2 * m > replicationFactor && 2 * (m - 1) <= replicationFactor
  }

  lemma QuorumIsLeastMajority(replicationFactor: nat, m: nat)
    ensures LeastMajority(m, replicationFactor) <==> m == QuorumSize(replicationFactor)
  {}

  /** The results are the local one and the first n replies; gathering stops at the first
      reply that makes them enough. */
  predicate StoppedAt(own: seq<ReadResult>, replies: seq<ReadResult>, enough: nat, results: seq<ReadResult>, n: nat) {
    && n <= |replies| && results == own + replies[..n]
    && (n < |replies| ==> |results| >= enough)
    && (n > 1 ==> |results| - 1 < enough)
  }

  function Own(local: Option<ReadResult>): seq<ReadResult> {
    if local.Some? then [local.value] else []
  }

  ghost predicate Gathered(local: Option<ReadResult>, replies: seq<ReadResult>, enough: nat, results: seq<ReadResult>) {
    exists n: nat :: StoppedAt(Own(local), replies, enough, results, n)
  }

  class ReadCoordinator {
    const localNode: NodeId
    const replicationFactor: nat
    var quorumReads: nat
    var staleReadsDetected: nat
    var readRepairs: nat
    /** The repair calls made, in order. */
    var repairs: seq<RepairCall>

    constructor (localNode: NodeId, replicationFactor: nat)
      ensures this.localNode == localNode && this.replicationFactor == replicationFactor
      ensures quorumReads == staleReadsDetected == readRepairs == 0 && repairs == []
    {
      this.localNode, this.replicationFactor := localNode, replicationFactor;
      quorumReads, staleReadsDetected, readRepairs := 0, 0, 0;
      repairs := [];
    }

    /** `replies` are the remote results in order of completion, up to the read timeout.
        The method changes nothing. */
    method ReadFromReplicas(local: Option<ReadResult>, replies: seq<ReadResult>, minResponses: nat)
        returns (results: seq<ReadResult>)
      ensures Gathered(local, replies, minResponses, results)
    {
      results := Own(local);
      ghost var own := results;
      var i := 0;
      while i < |replies|
        invariant 0 <= i <= |replies| && results == own + replies[..i]
        invariant i > 0 ==> |results| < minResponses
      {
        results := results + [replies[i]];
        i := i + 1;
        if |results| >= minResponses { break; }
      }
      assert StoppedAt(own, replies, minResponses, results, i);
    }

    method TriggerReadRepair(key: string, best: ReadResult, results: seq<ReadResult>)
      modifies this`readRepairs, this`repairs
      ensures readRepairs == old(readRepairs) + 1
      ensures repairs == old(repairs) + RepairsFor(key, best, results)
    {
      readRepairs := readRepairs + 1;
      var i := 0;
      while i < |results|
        invariant 0 <= i <= |results| && readRepairs == old(readRepairs) + 1
        invariant repairs == old(repairs) + RepairsFor(key, best, results[..i])
      {
        assert results[..i + 1][..i] == results[..i];
        if Less(SortKey(results[i]), SortKey(best)) {
          repairs := repairs + [RepairCall(key, results[i].node, AsItem(best))];
        }
        i := i + 1;
      }
      assert results[..i] == results;
    }

    /** The part of a QUORUM or ALL read after the responses are in. */
    method Conclude(key: string, results: seq<ReadResult>, needed: nat) returns (outcome: Outcome)
      modifies this`staleReadsDetected, this`readRepairs, this`repairs
      ensures outcome == Select(results, needed)
      ensures Answers(results, |results| >= needed, outcome)
      ensures repairs == old(repairs) + RepairsOf(key, results, needed)
      ensures repairs == old(repairs)
                         + if MetStale(results, outcome) then RepairsFor(key, outcome.result, results) else []
      ensures staleReadsDetected == old(staleReadsDetected) + if MetStale(results, outcome) then 1 else 0
      ensures readRepairs == old(readRepairs) + if MetStale(results, outcome) then 1 else 0
    {
      SelectAnswers(results, needed);
      InconsistentExactly(results, needed);
      if |results| < needed { return Failed; }
      var present := Present(results);
      if present == [] { return Absent; }
      var best := Best(present);
      var versions := set r | r in present :: r.version;
      if |versions| > 1 || |present| < |results| {
        staleReadsDetected := staleReadsDetected + 1;
        TriggerReadRepair(key, best, results);
      }
      return Found(best);
    }

    method ReadQuorum(key: string, local: Option<ReadResult>, replies: seq<ReadResult>)
        returns (outcome: Outcome, ghost results: seq<ReadResult>)
      modifies this
      ensures quorumReads == old(quorumReads) + 1
      ensures outcome == Select(results, QuorumSize(replicationFactor))
      ensures Answers(results, 2 * |results| > replicationFactor, outcome)
      ensures exists m: nat :: LeastMajority(m, replicationFactor) && Gathered(local, replies, m, results)
      ensures staleReadsDetected == old(staleReadsDetected) + if MetStale(results, outcome) then 1 else 0
      ensures readRepairs == old(readRepairs) + if MetStale(results, outcome) then 1 else 0
      ensures repairs == old(repairs) + RepairsOf(key, results, QuorumSize(replicationFactor))
    {
      QuorumIsLeastMajority(replicationFactor, QuorumSize(replicationFactor));
      quorumReads := quorumReads + 1;
      var got := ReadFromReplicas(local, replies, QuorumSize(replicationFactor));
      outcome := Conclude(key, got, QuorumSize(replicationFactor));
      results := got;
    }

    /** Unlike a QUORUM read, an ALL read needs a result from every replica. */
    method ReadAll(key: string, local: Option<ReadResult>, replies: seq<ReadResult>)
        returns (outcome: Outcome, ghost results: seq<ReadResult>)
      modifies this
      ensures quorumReads == old(quorumReads)
      ensures outcome == Select(results, replicationFactor)
      ensures Answers(results, |results| >= replicationFactor, outcome)
      ensures staleReadsDetected == old(staleReadsDetected) + if MetStale(results, outcome) then 1 else 0
      ensures readRepairs == old(readRepairs) + if MetStale(results, outcome) then 1 else 0
      ensures Gathered(local, replies, replicationFactor, results)
      ensures repairs == old(repairs) + RepairsOf(key, results, replicationFactor)
    {
      var got := ReadFromReplicas(local, replies, replicationFactor);
      outcome := Conclude(key, got, replicationFactor);
      results := got;
    }
  }

  // ------------------------------------------------------------ what is selected

  lemma {:induction false} PresentMembers(results: seq<ReadResult>, r: ReadResult)
    ensures r in Present(results) <==> r in results && IsPresent(r)
  {
    if results != [] {
      var front := results[..|results| - 1];
      PresentMembers(front, r);
      assert results == front + [results[|results| - 1]];
    }
  }

  lemma {:induction false} BestIsGreatest(results: seq<ReadResult>)
    requires results != []
    ensures Best(results) in results
    ensures forall r :: r in results ==> AtMost(SortKey(r), SortKey(Best(results)))
  {
    if |results| > 1 {
      var front, last := results[..|results| - 1], results[|results| - 1];
      BestIsGreatest(front);
      assert results == front + [last];
      var before := Best(front);
      RankTotal(SortKey(last), SortKey(before));
      forall r | r in front ensures AtMost(SortKey(r), SortKey(Best(results))) {
        if Best(results) == last { RankTransitive(SortKey(r), SortKey(before), SortKey(last)); }
      }
    }
  }

  lemma NotAbove(a: Rank, b: Rank, c: Rank)
    requires AtMost(a, b) && Less(b, c)
    ensures Less(a, c)
  {
    RankTransitive(a, b, c);
    RankTotal(b, c);
    RankTotal(a, b);
  }

  lemma NewerIsLess(a: ReadResult, b: ReadResult)
    ensures Newer(a, b) <==> Less(SortKey(b), SortKey(a))
  {}

  /** Of the first n results, number i is the first of the highest-ranked present ones. */
  predicate StandsAt(results: seq<ReadResult>, n: nat, i: nat) {
    && i < n <= |results| && IsPresent(results[i])
    && (forall j :: 0 <= j < n && IsPresent(results[j]) ==> AtMost(SortKey(results[j]), SortKey(results[i])))
    && (forall j :: 0 <= j < i && IsPresent(results[j]) ==> Less(SortKey(results[j]), SortKey(results[i])))
  }

  lemma PresentStep(results: seq<ReadResult>, n: nat)
    requires n < |results|
    ensures Present(results[..n + 1]) == Present(results[..n]) + if IsPresent(results[n]) then [results[n]] else []
  {
    assert results[..n + 1][..n] == results[..n];
  }

  lemma NothingStandsBefore(results: seq<ReadResult>, n: nat)
    requires n <= |results| && Present(results[..n]) == []
    ensures forall j :: 0 <= j < n ==> !IsPresent(results[j])
  {
    forall j | 0 <= j < n ensures !IsPresent(results[j]) { PresentMembers(results[..n], results[..n][j]); }
  }

  lemma BestStep(present: seq<ReadResult>, last: ReadResult)
    ensures Best(present + [last])
            == if present != [] && !Less(SortKey(Best(present)), SortKey(last)) then Best(present) else last
  {
    assert (present + [last])[..|present|] == present;
  }

  lemma StandsLast(results: seq<ReadResult>, n: nat, i: nat)
    requires StandsAt(results, n, i) && n < |results| && IsPresent(results[n])
    requires Less(SortKey(results[i]), SortKey(results[n]))
    ensures StandsAt(results, n + 1, n)
  {
    forall j | 0 <= j < n && IsPresent(results[j]) ensures Less(SortKey(results[j]), SortKey(results[n])) {
      NotAbove(SortKey(results[j]), SortKey(results[i]), SortKey(results[n]));
    }
  }

  lemma StandsOn(results: seq<ReadResult>, n: nat, i: nat)
    requires StandsAt(results, n, i) && n < |results|
    requires IsPresent(results[n]) ==> !Less(SortKey(results[i]), SortKey(results[n]))
    ensures StandsAt(results, n + 1, i)
  {
    RankTotal(SortKey(results[n]), SortKey(results[i]));
  }

  /** Where the selected result stands. */
  lemma {:induction false} FirstOfTheBest(results: seq<ReadResult>, n: nat) returns (i: nat)
    requires n <= |results| && Present(results[..n]) != []
    ensures StandsAt(results, n, i) && results[i] == Best(Present(results[..n]))
  {
    var m := n - 1;
    PresentStep(results, m);
    BestStep(Present(results[..m]), results[m]);
    assert results[..m + 1] == results[..n];
    if Present(results[..m]) == [] {
      NothingStandsBefore(results, m);
      assert [] + [results[m]] == [results[m]];
      i := m;
    } else {
      i := FirstOfTheBest(results, m);
      if IsPresent(results[m]) {
        if Less(SortKey(results[i]), SortKey(results[m])) {
          StandsLast(results, m, i);
          i := m;
        } else {
          StandsOn(results, m, i);
        }
      } else {
        StandsOn(results, m, i);
        assert Present(results[..m]) + [] == Present(results[..m]);
      }
    }
  }

  lemma SelectAnswers(results: seq<ReadResult>, needed: nat)
    ensures Answers(results, |results| >= needed, Select(results, needed))
  {
    SelectedIsNewest(results, needed);
    if Select(results, needed).Found? {
      assert results[..|results|] == results;
      var i := FirstOfTheBest(results, |results|);
      forall j | 0 <= j < |results| && !IsMissing(results[j])
        ensures !Newer(results[j], results[i]) && (j < i ==> Newer(results[i], results[j])) {
        NewerIsLess(results[j], results[i]);
        NewerIsLess(results[i], results[j]);
        RankTotal(SortKey(results[j]), SortKey(results[i]));
      }
      assert FirstNewest(results, i);
    }
  }

  lemma InconsistentExactly(results: seq<ReadResult>, needed: nat)
    ensures var outcome := Select(results, needed);
            outcome.Found? ==> (Inconsistent(results) <==> MetStale(results, outcome))
  {
    if Select(results, needed).Found? {
      SelectedIsNewest(results, needed);
      PresentLength(results);
      forall x ensures x in Present(results) <==> x in results && IsPresent(x) { PresentMembers(results, x); }
      SeveralVersions(Present(results), Select(results, needed).result);
    }
  }

  /** A read fails exactly when too few results came in, reports absence exactly when none
      of enough results is present, and otherwise returns a present result that no other
      present result outranks. */
  lemma SelectedIsNewest(results: seq<ReadResult>, needed: nat)
    ensures Select(results, needed) == Failed <==> |results| < needed
    ensures Select(results, needed) == Absent <==> |results| >= needed && forall r :: r in results ==> !IsPresent(r)
    ensures Select(results, needed).Found? ==>
              var best := Select(results, needed).result;
              best in results && IsPresent(best)
              && forall r :: r in results && IsPresent(r) ==> AtMost(SortKey(r), SortKey(best))
  {
    forall r ensures r in Present(results) <==> r in results && IsPresent(r) { PresentMembers(results, r); }
    if Present(results) != [] {
      BestIsGreatest(Present(results));
      assert Best(Present(results)) in results;
    }
  }

  /** Repair goes to exactly the nodes whose result ranks below the best, and carries the
      best item unchanged. */
  lemma {:induction false} RepairsReachTheStale(key: string, best: ReadResult, results: seq<ReadResult>,
      call: RepairCall)
    ensures call in RepairsFor(key, best, results) <==>
              && call.key == key
              && call.item == Item(best.value, best.version, best.createdAt, best.updatedAt, best.coordinator)
              && exists r :: r in results && r.node == call.target && Newer(best, r)
  {
    if results != [] {
      NewerIsLess(best, results[|results| - 1]);
      var front, last := results[..|results| - 1], results[|results| - 1];
      RepairsReachTheStale(key, best, front, call);
      assert results == front + [last];
    }
  }

  /** One call for each, in the order of the results. */
  lemma {:induction false} RepairsInOrder(key: string, best: ReadResult, a: seq<ReadResult>, b: seq<ReadResult>)
    ensures RepairsFor(key, best, a + b) == RepairsFor(key, best, a) + RepairsFor(key, best, b)
    ensures |b| == 1 ==> |RepairsFor(key, best, b)| == if Newer(best, b[0]) then 1 else 0
  {
    if b == [] {
      assert a + b == a;
    } else {
      var front, last := b[..|b| - 1], b[|b| - 1];
      RepairsInOrder(key, best, a, front);
      NewerIsLess(best, last);
      assert (a + b)[..|a + b| - 1] == a + front && (a + b)[|a + b| - 1] == last;
    }
  }

  lemma {:induction false} PresentLength(results: seq<ReadResult>)
    ensures |Present(results)| <= |results|
    ensures |Present(results)| == |results| <==> forall r :: r in results ==> IsPresent(r)
  {
    if results != [] {
      var front, last := results[..|results| - 1], results[|results| - 1];
      PresentLength(front);
      assert results == front + [last];
    }
  }

  lemma SeveralVersions(results: seq<ReadResult>, best: ReadResult)
    requires best in results
    ensures |set r | r in results :: r.version| > 1 <==> exists r :: r in results && r.version != best.version
  {
    var versions := set r | r in results :: r.version;
    assert best.version in versions;
    if r :| r in results && r.version != best.version {
      assert {best.version, r.version} <= versions;
      Quorums.SubsetSize({best.version, r.version}, versions);
    } else {
      assert versions == {best.version};
    }
  }

  /** Which stale results go unrepaired: a gathered result that ranks below the best is sent a
      repair if and only if some gathered result is missing or of another version than the
      best. Versions alone are compared, so a replica that holds an older write under a
      reused version number is left as it is when all the others agree on the version. */
  lemma StaleRepairedExactly(key: string, results: seq<ReadResult>, needed: nat, r: ReadResult)
    requires Select(results, needed).Found? && r in results
    requires Less(SortKey(r), SortKey(Select(results, needed).result))
    ensures var best := Select(results, needed).result;
            RepairCall(key, r.node, AsItem(best)) in RepairsOf(key, results, needed)
            <==> exists x :: x in results && (IsMissing(x) || x.version != best.version)
  {
    var best := Select(results, needed).result;
    InconsistentExactly(results, needed);
    RepairsReachTheStale(key, best, results, RepairCall(key, r.node, AsItem(best)));
  }

  /** A repair call taken from a replica's own answer carries exactly what it stores. */
  lemma RepairCarriesStoredItem(t: Table, key: string, node: NodeId)
    requires key in t
    ensures AsItem(Answer(t, key, node)) == t[key]
    ensures t[key].coordinator != "" ==> SortKey(Answer(t, key, node)) == RankOf(t[key])
  {}
}

/** When a quorum read is certain to see an acknowledged write. */
module ReadAfterWrite {
  import opened Nodes
  import opened Ordering
  import opened Storage
  import opened Replication
  import opened WritePath
  import opened AckedWrites
  import opened ReadPath
  import Quorums

  /** One response of a read: a replica reached at some time of the run, or one that was
      not reached. */
  datatype Probe = Reached(node: NodeId, at: nat) | Unreached(node: NodeId)

  function ResultOf(run: seq<World>, key: string, probe: Probe): ReadResult {
    match probe
    case Unreached(n) => Missing(n)
    case Reached(n, t) =>
      if t < |run| && n in run[t].replicas then Answer(run[t].replicas[n].table, key, n) else Missing(n)
  }

  function Results(run: seq<World>, key: string, probes: seq<Probe>): seq<ReadResult> {
    seq(|probes|, i requires 0 <= i < |probes| => ResultOf(run, key, probes[i]))
  }

  ghost function Responders(probes: seq<Probe>): set<NodeId> {
    set p | p in probes && p.Reached? :: p.node
  }

  /** A read of enough distinct members, begun at time i or later of a run of SETs, after
      the write with position p was acknowledged. */
  ghost predicate ReadBegun(c: Config, run: seq<World>, i: nat, p: nat, probes: seq<Probe>) {
    && IsRun(c, run) && i < |run| && SetOnly(run[|run| - 1]) && p in run[i].acked && p < |run[i].issued|
    && 2 * |probes| > |c.members|
    && (forall j, k :: 0 <= j < k < |probes| ==> probes[j].node != probes[k].node)
    && (forall j :: 0 <= j < |probes| ==> probes[j].node in c.members)
    && (forall j :: 0 <= j < |probes| && probes[j].Reached? ==> i <= probes[j].at < |run|)
  }

  /** The result is the write at position p or a later write of its key, just as issued. */
  ghost predicate ReturnsWrite(run: seq<World>, p: nat, r: ReadResult)
    requires run != [] && p < |run[|run| - 1].issued|
  {
    LaterWrite(run[|run| - 1], p, AsItem(r))
  }

  /** The read returns the write or a later one of its key. */
  ghost predicate SeesWrite(c: Config, run: seq<World>, i: nat, p: nat, probes: seq<Probe>)
    requires ReadBegun(c, run, i, p, probes)
  {
    HistoryGrows(c, run, i, |run| - 1);
    var outcome := Select(Results(run, run[i].issued[p].key, probes), QuorumSize(|c.members|));
    outcome.Found? && ReturnsWrite(run, p, outcome.result)
  }

  lemma HolderAnswers(c: Config, run: seq<World>, i: nat, p: nat, probe: Probe)
    requires IsRun(c, run) && i < |run| && SetOnly(run[|run| - 1]) && p < |run[i].issued|
    requires probe.Reached? && i <= probe.at < |run|
    requires probe.node in Holders(run[i], run[i].issued[p])
    ensures var r := ResultOf(run, run[i].issued[p].key, probe);
            IsPresent(r) && AtMost(EntryRank(run[i].issued[p]), SortKey(r))
  {
    var e, n, w := run[i].issued[p], probe.node, run[probe.at];
    SetOnlyBefore(c, run, probe.at, |run| - 1);
    TablesOnlyGrow(c, run, i, probe.at);
    HoldersGrow(run[i], w, e);
    assert Held(w, n, e);
    InvAlways(c, run, probe.at);
    var item := w.replicas[n].table[e.key];
    assert Written(c, w, e.key, item);
    var j: nat :| WrittenBy(c, w, j, e.key, item);
    assert EntryShape(c, w, j);
    RepairCarriesStoredItem(w.replicas[n].table, e.key, n);
  }

  lemma ResultIsStored(c: Config, run: seq<World>, key: string, probe: Probe)
    requires IsRun(c, run) && IsPresent(ResultOf(run, key, probe))
    ensures probe.Reached? && probe.at < |run| && probe.node in run[probe.at].replicas
    ensures var table := run[probe.at].replicas[probe.node].table;
            key in table && AsItem(ResultOf(run, key, probe)) == table[key]
  {
    InvAlways(c, run, if probe.Reached? && probe.at < |run| then probe.at else 0);
  }

  /** A present result that ranks at least as high as a write is that write or a later one. */
  lemma ResultIsLaterWrite(c: Config, run: seq<World>, i: nat, p: nat, probe: Probe)
    requires IsRun(c, run) && i < |run| && SetOnly(run[|run| - 1]) && p < |run[i].issued|
    requires probe.Reached? ==> i <= probe.at
    requires var r := ResultOf(run, run[i].issued[p].key, probe);
             IsPresent(r) && AtMost(EntryRank(run[i].issued[p]), SortKey(r))
    ensures p < |run[|run| - 1].issued|
    ensures ReturnsWrite(run, p, ResultOf(run, run[i].issued[p].key, probe))
  {
    var e, n, at := run[i].issued[p], probe.node, probe.at;
    ResultIsStored(c, run, e.key, probe);
    var w, item := run[at], run[at].replicas[n].table[e.key];
    HistoryGrows(c, run, i, at);
    HistoryGrows(c, run, at, |run| - 1);
    SetOnlyBefore(c, run, at, |run| - 1);
    SecuredAlways(c, run, at);
    assert Written(c, w, e.key, item);
    StoredRank(c, w, e.key, n);
    RankIdentifiesWrite(c, w, p, item);
    var q: nat :| p <= q < |w.issued| && WrittenAs(w.issued[q], w.issued[p].key, item);
    assert WrittenAs(run[|run| - 1].issued[q], e.key, item);
  }

  lemma StoredRank(c: Config, w: World, key: string, n: NodeId)
    requires Inv(c, w) && n in w.replicas && key in w.replicas[n].table
    ensures SortKey(Answer(w.replicas[n].table, key, n)) == RankOf(w.replicas[n].table[key])
  {
    var item := w.replicas[n].table[key];
    assert Written(c, w, key, item);
    var j: nat :| WrittenBy(c, w, j, key, item);
    assert EntryShape(c, w, j);
  }

  /** If the leader answered, or the replicas that answered and a write quorum together
      outnumber the members, the read sees the write. */
  lemma ReadSeesAckedWrite(c: Config, run: seq<World>, i: nat, p: nat, probes: seq<Probe>)
    requires ReadBegun(c, run, i, p, probes)
    requires c.leader in Responders(probes) || |Responders(probes)| + c.Required() > |c.members|
    ensures SeesWrite(c, run, i, p, probes)
  {
    var e := run[i].issued[p];
    SetOnlyBefore(c, run, i, |run| - 1);
    AckedWritesStay(c, run, i, i, p);
    InvAlways(c, run, i);
    var n := CommonNode(c, run[i], e, probes);
    var probe :| probe in probes && probe.Reached? && probe.node == n;
    HolderAnswers(c, run, i, p, probe);
    var j :| 0 <= j < |probes| && probes[j] == probe;
    OneHolderSuffices(c, run, i, p, probes, j);
  }

  /** A single response that holds the write makes the read see it. */
  lemma OneHolderSuffices(c: Config, run: seq<World>, i: nat, p: nat, probes: seq<Probe>, j: nat)
    requires ReadBegun(c, run, i, p, probes) && j < |probes|
    requires var r := ResultOf(run, run[i].issued[p].key, probes[j]);
             IsPresent(r) && AtMost(EntryRank(run[i].issued[p]), SortKey(r))
    ensures SeesWrite(c, run, i, p, probes)
  {
    var e := run[i].issued[p];
    var results := Results(run, e.key, probes);
    assert results[j] in results;
    QuorumIsLeastMajority(|c.members|, QuorumSize(|c.members|));
    SelectedIsNewest(results, QuorumSize(|c.members|));
    var best := Select(results, QuorumSize(|c.members|)).result;
    RankTransitive(EntryRank(e), SortKey(results[j]), SortKey(best));
    var k :| 0 <= k < |results| && results[k] == best;
    ResultIsLaterWrite(c, run, i, p, probes[k]);
  }

  /** An ALL read that does not fail selects what a QUORUM read of the same results would, so
      it sees the write under the same condition. */
  lemma ReadAllSeesAckedWrite(c: Config, run: seq<World>, i: nat, p: nat, probes: seq<Probe>)
    requires ReadBegun(c, run, i, p, probes) && |probes| >= |c.members|
    requires c.leader in Responders(probes) || |Responders(probes)| + c.Required() > |c.members|
    ensures p < |run[|run| - 1].issued|
    ensures var outcome := Select(Results(run, run[i].issued[p].key, probes), |c.members|);
            outcome.Found? && ReturnsWrite(run, p, outcome.result)
  {
    HistoryGrows(c, run, i, |run| - 1);
    ReadSeesAckedWrite(c, run, i, p, probes);
  }

  lemma CommonNode(c: Config, w: World, e: WriteEntry, probes: seq<Probe>) returns (n: NodeId)
    requires w.replicas.Keys == c.members && Secured(c, w, e)
    requires forall j :: 0 <= j < |probes| ==> probes[j].node in c.members
    requires c.leader in Responders(probes) || |Responders(probes)| + c.Required() > |c.members|
    ensures n in Holders(w, e) && n in Responders(probes)
  {
    if c.leader in Responders(probes) {
      n := c.leader;
    } else {
      n := Quorums.Intersect(c.members, Responders(probes), Holders(w, e));
    }
  }

  // ------------------------------------------------------------ and when it is not

  ghost predicate Reaches(c: Config, w: World) {
    exists run :: IsRun(c, run) && run[|run| - 1] == w
  }

  lemma ReachesNext(c: Config, w: World, a: Action)
    requires Reaches(c, w) && Enabled(c, w, a)
    ensures Reaches(c, Next(c, w, a))
  {
    var run :| IsRun(c, run) && run[|run| - 1] == w;
    var longer := run + [Next(c, w, a)];
    forall i | 0 <= i < |longer| - 1 ensures CanStep(c, longer[i], longer[i + 1]) {
      if i < |run| - 1 { assert CanStep(c, run[i], run[i + 1]); }
    }
    assert IsRun(c, longer);
  }

  lemma ReachesInv(c: Config, w: World)
    requires Reaches(c, w)
    ensures Inv(c, w)
  {
    var run :| IsRun(c, run) && run[|run| - 1] == w;
    InvAlways(c, run, |run| - 1);
  }

  /** A group of the given size that contains x. */
  lemma {:induction false} GroupOf(s: set<NodeId>, x: NodeId, size: nat) returns (g: set<NodeId>)
    requires x in s && 1 <= size <= |s|
    ensures g <= s && x in g && |g| == size
  {
    if size == 1 {
      g := {x};
    } else {
      assert |s - {x}| == |s| - 1;
      var y :| y in s - {x};
      var rest := GroupOf(s - {y}, x, size - 1);
      g := rest + {y};
    }
  }

  /** All prepare calls from position done on succeed. */
  lemma {:induction false} PrepareRest(c: Config, w: World) returns (w': World)
    requires Reaches(c, w) && w.phase.Preparing? && w.phase.acks == w.phase.done
    requires |w.phase.targets| >= c.Acks() && w.issued != []
    ensures Reaches(c, w') && w'.phase == Preparing(w.phase.targets, |w.phase.targets|, |w.phase.targets|)
    ensures w'.issued == w.issued && w'.acked == w.acked && w'.replicas.Keys == w.replicas.Keys
    ensures forall n :: n in w.replicas ==> w'.replicas[n].table == w.replicas[n].table
    decreases |w.phase.targets| - w.phase.done
  {
    ReachesInv(c, w);
    if w.phase.done == |w.phase.targets| {
      w' := w;
    } else {
      assert w.phase.targets[w.phase.done] in Quorums.Members(w.phase.targets);
      var a := PrepareCall(true, true);
      ReachesNext(c, w, a);
      w' := PrepareRest(c, Next(c, w, a));
    }
  }

  /** From position done on, the commit reaches exactly the targets in `lucky`. */
  lemma {:induction false} CommitRest(c: Config, w: World, lucky: set<NodeId>) returns (w': World)
    requires Reaches(c, w) && w.phase.Committing? && w.issued != []
    requires w.phase.done <= |w.phase.targets|
    requires w.phase.committed == |lucky * Quorums.Members(w.phase.targets[..w.phase.done])|
    ensures Reaches(c, w')
    ensures w'.phase == Committing(w.phase.targets, |w.phase.targets|, |lucky * Quorums.Members(w.phase.targets)|)
    ensures w'.issued == w.issued && w'.acked == w.acked && w'.replicas.Keys == w.replicas.Keys
    ensures forall n :: n in w.replicas && n !in lucky ==> w'.replicas[n].table == w.replicas[n].table
    decreases |w.phase.targets| - w.phase.done
  {
    ReachesInv(c, w);
    var ts, d := w.phase.targets, w.phase.done;
    if d == |ts| {
      assert ts[..d] == ts;
      w' := w;
    } else {
      assert ts[d] in Quorums.Members(ts);
      var hit := ts[d] in lucky;
      var a := CommitCall(hit, hit);
      ReachesNext(c, w, a);
      CommitCallPhase(c, w, a);
      HitsCounted(lucky, ts, d);
      w' := CommitRest(c, Next(c, w, a), lucky);
    }
  }

  lemma HitsCounted(lucky: set<NodeId>, ts: seq<NodeId>, d: nat)
    requires d < |ts| && Quorums.Distinct(ts)
    ensures |lucky * Quorums.Members(ts[..d + 1])|
            == |lucky * Quorums.Members(ts[..d])| + (if ts[d] in lucky then 1 else 0)
  {
    assert ts[..d + 1] == ts[..d] + [ts[d]];
    var before, after := lucky * Quorums.Members(ts[..d]), lucky * Quorums.Members(ts[..d + 1]);
    assert after == if ts[d] in lucky then before + {ts[d]} else before;
    assert ts[d] !in before;
  }

  lemma FirstWrite(c: Config) returns (w: World)
    requires c.Valid()
    ensures Reaches(c, w) && w.phase.Preparing? && w.phase.done == w.phase.acks == 0
    ensures Quorums.Members(w.phase.targets) == c.members - {c.leader} && |w.phase.targets| == |c.members| - 1
    ensures |w.issued| == 1 && w.issued[0].command == SET && w.issued[0].key == "k" && w.acked == []
    ensures w.replicas.Keys == c.members && forall n :: n in c.members ==> w.replicas[n].table == map[]
  {
    var start := Start(c);
    assert IsRun(c, [start]);
    var targets := Quorums.Enumerate(c.members - {c.leader});
    var a := Issue(SET, "k", Text("v"), 1.0, targets);
    ReachesNext(c, start, a);
    w := Next(c, start, a);
  }

  /** The first write of a run, prepared everywhere and not yet committed anywhere. */
  lemma PreparedWrite(c: Config) returns (w: World)
    requires c.Valid()
    ensures Reaches(c, w) && w.phase.Committing? && w.phase.done == w.phase.committed == 0
    ensures Quorums.Members(w.phase.targets) == c.members - {c.leader}
    ensures |w.issued| == 1 && w.issued[0].command == SET && w.issued[0].key == "k" && w.acked == []
    ensures w.replicas.Keys == c.members && forall n :: n in c.members ==> w.replicas[n].table == map[]
  {
    var w1 := FirstWrite(c);
    var w2 := PrepareRest(c, w1);
    ReachesNext(c, w2, EndPrepare);
    w := Next(c, w2, EndPrepare);
  }

  /** For any group that excludes the leader and leaves room for a write quorum outside it,
      a write can be acknowledged without any member of the group holding anything. */
  lemma WriteAroundGroup(c: Config, group: set<NodeId>) returns (w: World)
    requires c.Valid() && group <= c.members && c.leader !in group
    requires |group| + c.Required() <= |c.members|
    ensures Reaches(c, w) && w.acked == [0] && |w.issued| == 1 && w.issued[0].command == SET && w.issued[0].key == "k"
    ensures w.replicas.Keys == c.members && forall n :: n in group ==> w.replicas[n].table == map[]
  {
    var w3 := PreparedWrite(c);
    var quorum := QuorumAround(c, group);
    assert w3.phase.targets[..0] == [];
    var w4 := CommitRest(c, w3, quorum);
    QuorumTargets(c, quorum, Quorums.Members(w3.phase.targets));
    w := Acknowledge(c, w4);
  }

  lemma QuorumAround(c: Config, group: set<NodeId>) returns (quorum: set<NodeId>)
    requires c.Valid() && group <= c.members && c.leader !in group && |group| + c.Required() <= |c.members|
    ensures quorum <= c.members - group && c.leader in quorum && |quorum| == c.Required()
  {
    assert |c.members - group| == |c.members| - |group| by { assert c.members == (c.members - group) + group; }
    quorum := GroupOf(c.members - group, c.leader, c.Required());
  }

  lemma QuorumTargets(c: Config, quorum: set<NodeId>, targets: set<NodeId>)
    requires quorum <= c.members && c.leader in quorum && targets == c.members - {c.leader}
    ensures |quorum * targets| == |quorum| - 1
  {
    assert quorum * targets == quorum - {c.leader};
  }

  /** Enough commits are confirmed, so the write is applied at the leader and acknowledged. */
  lemma Acknowledge(c: Config, w: World) returns (w': World)
    requires Reaches(c, w) && w.phase.Committing? && w.phase.done == |w.phase.targets|
    requires w.phase.committed + 1 >= c.Required() && |w.issued| == 1 && w.acked == []
    ensures Reaches(c, w') && w'.acked == [0] && w'.issued == w.issued && w'.replicas.Keys == w.replicas.Keys
    ensures forall n :: n in w.replicas && n != c.leader ==> w'.replicas[n].table == w.replicas[n].table
  {
    ReachesInv(c, w);
    ReachesNext(c, w, EndCommit);
    w' := Next(c, w, EndCommit);
    assert w.acked + [0] == [0];
  }

  /** A QUORUM read can return "absent" for an acknowledged write: every response but those
      of the group is a failed call that counts as a missing value. */
  lemma StaleReadPossible(c: Config, group: set<NodeId>) returns (run: seq<World>, probes: seq<Probe>)
    requires c.Valid() && group <= c.members && c.leader !in group
    requires |group| + c.Required() <= |c.members|
    ensures run != [] && ReadBegun(c, run, |run| - 1, 0, probes) && Responders(probes) == group
    ensures LeastMajority(|probes|, |c.members|)
    ensures Select(Results(run, "k", probes), |probes|) == Absent
    ensures !SeesWrite(c, run, |run| - 1, 0, probes)
  {
    var w := WriteAroundGroup(c, group);
    run :| IsRun(c, run) && run[|run| - 1] == w;
    QuorumIsLeastMajority(|c.members|, QuorumSize(|c.members|));
    probes := ProbesOf(c, group, |run| - 1);
    NothingSelected(run, group, probes, |run| - 1, QuorumSize(|c.members|));
  }

  lemma NothingSelected(run: seq<World>, group: set<NodeId>, probes: seq<Probe>, i: nat, needed: nat)
    requires i < |run| && Responders(probes) == group && |probes| >= needed
    requires forall n :: n in group ==> n in run[i].replicas && run[i].replicas[n].table == map[]
    requires forall j :: 0 <= j < |probes| && probes[j].Reached? ==> probes[j].at == i
    ensures Select(Results(run, "k", probes), needed) == Absent
  {
    NothingPresent(run, group, probes, i);
    SelectedIsNewest(Results(run, "k", probes), needed);
  }

  /** A read of quorum size answered by exactly the group. */
  lemma ProbesOf(c: Config, group: set<NodeId>, i: nat) returns (probes: seq<Probe>)
    requires c.Valid() && group <= c.members && |group| + c.Required() <= |c.members|
    ensures |probes| == QuorumSize(|c.members|) && Responders(probes) == group
    ensures forall j, k :: 0 <= j < k < |probes| ==> probes[j].node != probes[k].node
    ensures forall j :: 0 <= j < |probes| ==> probes[j].node in c.members
    ensures forall j :: 0 <= j < |probes| && probes[j].Reached? ==> probes[j].at == i
  {
    var up := Quorums.Enumerate(group);
    assert |c.members - group| == |c.members| - |group| by { assert c.members == (c.members - group) + group; }
    var down := Quorums.Enumerate(c.members - group);
    probes := seq(QuorumSize(|c.members|), j requires 0 <= j < QuorumSize(|c.members|) =>
                  if j < |up| then Reached(up[j], i) else Unreached(down[j - |up|]));
    ProbesFit(c, group, up, down, probes, i);
  }

  lemma NothingPresent(run: seq<World>, group: set<NodeId>, probes: seq<Probe>, i: nat)
    requires i < |run| && Responders(probes) == group
    requires forall n :: n in group ==> n in run[i].replicas && run[i].replicas[n].table == map[]
    requires forall j :: 0 <= j < |probes| && probes[j].Reached? ==> probes[j].at == i
    ensures forall r :: r in Results(run, "k", probes) ==> !IsPresent(r)
  {
    var results := Results(run, "k", probes);
    forall r | r in results ensures !IsPresent(r) {
      var j :| 0 <= j < |results| && results[j] == r;
      assert probes[j] in probes;
    }
  }

  lemma ProbesFit(c: Config, group: set<NodeId>, up: seq<NodeId>, down: seq<NodeId>, probes: seq<Probe>, i: nat)
    requires group <= c.members && Quorums.Distinct(up) && Quorums.Distinct(down)
    requires Quorums.Members(up) == group && Quorums.Members(down) == c.members - group
    requires |up| <= |probes| <= |up| + |down|
    requires forall j :: 0 <= j < |probes| ==>
               probes[j] == (if j < |up| then Reached(up[j], i) else Unreached(down[j - |up|]))
    ensures forall j, k :: 0 <= j < k < |probes| ==> probes[j].node != probes[k].node
    ensures forall j :: 0 <= j < |probes| ==> probes[j].node in c.members
    ensures Responders(probes) == group
  {
    forall j | 0 <= j < |up| ensures up[j] in group { assert up[j] in Quorums.Members(up); }
    forall j | 0 <= j < |down| ensures down[j] in c.members - group { assert down[j] in Quorums.Members(down); }
    forall n | n in group ensures n in Responders(probes) {
      var j :| 0 <= j < |up| && up[j] == n;
      assert probes[j] in probes;
    }
  }

  ghost predicate AlwaysFresh(c: Config, responders: set<NodeId>) {
    forall run, i, p, probes :: ReadBegun(c, run, i, p, probes) && Responders(probes) == responders
                                ==> SeesWrite(c, run, i, p, probes)
  }

  /** Any majority shares a member with the group, or for ALL and STRONG writes, any one
      member is in the group. */
  predicate MeetsWriteQuorum(c: Config, group: set<NodeId>) {
    if c.consistency == QUORUM then 2 * |group| >= |c.members| else group != {}
  }

  lemma MeetsExactly(c: Config, group: set<NodeId>)
    requires c.Valid() && group <= c.members
    ensures MeetsWriteQuorum(c, group) <==> |group| + c.Required() > |c.members|
  {}

  /** Read-after-write, exactly: reads answered by a given set of members see every
      acknowledged write, in every run, if and only if the leader is among them or they are
      enough to meet every write quorum: at least half of the members for QUORUM writes, and
      one for ALL and STRONG writes. */
  lemma FreshExactlyWhenQuorumAnswers(c: Config, responders: set<NodeId>)
    requires c.Valid() && responders <= c.members
    ensures AlwaysFresh(c, responders) <==> c.leader in responders || MeetsWriteQuorum(c, responders)
  {
    MeetsExactly(c, responders);
    if c.leader in responders || MeetsWriteQuorum(c, responders) {
      forall run, i, p, probes | ReadBegun(c, run, i, p, probes) && Responders(probes) == responders
        ensures SeesWrite(c, run, i, p, probes)
      {
        ReadSeesAckedWrite(c, run, i, p, probes);
      }
    } else {
      var run, probes := StaleReadPossible(c, responders);
      assert !AlwaysFresh(c, responders);
    }
  }

  /** Answers from a majority of the members always suffice; the responses that count must
      come from replicas that were reached. */
  lemma QuorumOfAnswersSuffices(c: Config, responders: set<NodeId>)
    requires c.Valid() && responders <= c.members && 2 * |responders| > |c.members|
    ensures AlwaysFresh(c, responders)
  {
    FreshExactlyWhenQuorumAnswers(c, responders);
  }
}

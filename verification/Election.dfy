/** One node's election and log state (minidb/cluster/election.py).
    Every lock-protected method is one atomic step. Each step is a function on `State`,
    and `ElectionManager` performs the same steps on its fields. */
module Election {
  import opened Nodes
  import opened Options

  datatype Role = FOLLOWER | CANDIDATE | LEADER

  datatype LogEntry = LogEntry(term: nat, index: nat, command: string, key: string, value: string)

  /** `applied` is the sequence of calls made to the apply callback. */
  datatype State = State(
    id: NodeId, term: nat, votedFor: Option<NodeId>, role: Role, leaderId: Option<NodeId>,
    log: seq<LogEntry>, commitIndex: nat, lastApplied: nat, applied: seq<LogEntry>)

  function Fresh(id: NodeId): State {
    State(id, 0, None, FOLLOWER, None, [], 0, 0, [])
  }

  function LastTerm(log: seq<LogEntry>): nat {
    if log == [] then 0 else log[|log| - 1].term
  }

  function Majority(clusterSize: nat): nat {
    clusterSize / 2 + 1
  }

  // ---------------------------------------------------------------- elections

  function StartElection(s: State): State {
    s.(term := s.term + 1, role := CANDIDATE, votedFor := Some(s.id))
  }

  /** The second lock-protected half of an election: the votes are in. */
  function FinishElection(s: State, term: nat, votes: nat, clusterSize: nat): State {
    if s.role != CANDIDATE || s.term != term || votes < Majority(clusterSize) then s
    else s.(role := LEADER, leaderId := Some(s.id))
  }

  function ReceiveHeartbeat(s: State, leader: NodeId, term: nat): State {
    if term < s.term then s
    else
      var newer := if term > s.term then s.(term := term, votedFor := None) else s;
      newer.(role := FOLLOWER, leaderId := Some(leader))
  }

  function StepDown(s: State): State {
    if s.role == LEADER then s.(role := FOLLOWER, leaderId := None) else s
  }

  predicate UpToDate(log: seq<LogEntry>, lastIndex: nat, lastTerm: nat) {
    log == []
    || (if lastTerm != LastTerm(log) then lastTerm > LastTerm(log) else lastIndex >= |log|)
  }

  function HandleVoteRequest(s: State, candidate: NodeId, term: nat, lastIndex: nat, lastTerm: nat): (State, bool) {
    if term < s.term then (s, false)
    else
      var s1 := if term > s.term then s.(term := term, votedFor := None, role := FOLLOWER) else s;
      if (s1.votedFor == None || s1.votedFor == Some(candidate)) && UpToDate(s1.log, lastIndex, lastTerm)
      then (s1.(votedFor := Some(candidate)), true)
      else (s1, false)
  }

  // -------------------------------------------------------------- log handling

  function AppendEntry(s: State, command: string, key: string, value: string): State {
    if s.role != LEADER then s
    else s.(log := s.log + [LogEntry(s.term, |s.log| + 1, command, key, value)])
  }

  predicate Indexed(entries: seq<LogEntry>) {
    forall i :: 0 <= i < |entries| ==> entries[i].index >= 1
  }

  /** One received entry: keep, replace from its index on, or append. */
  function Absorb(log: seq<LogEntry>, e: LogEntry): seq<LogEntry>
    requires e.index >= 1
  {
    if e.index <= |log| then
      if log[e.index - 1].term != e.term then log[..e.index - 1] + [e] else log
    else log + [e]
  }

  function AbsorbAll(log: seq<LogEntry>, entries: seq<LogEntry>): seq<LogEntry>
    requires Indexed(entries)
    decreases |entries|
  {
    if entries == [] then log else AbsorbAll(Absorb(log, entries[0]), entries[1..])
  }

  function Min(a: nat, b: nat): nat { if a <= b then a else b }

  /** Hands every entry between `lastApplied` and `commitIndex` to the callback. */
  function ApplyCommitted(s: State): State
    requires s.commitIndex <= |s.log|
  {
    if s.lastApplied < s.commitIndex
    then s.(lastApplied := s.commitIndex, applied := s.applied + s.log[s.lastApplied..s.commitIndex])
    else s
  }

  function AdvanceCommit(s: State, leaderCommit: nat): State {
    if leaderCommit > s.commitIndex then ApplyCommitted(s.(commitIndex := Min(leaderCommit, |s.log|))) else s
  }

  predicate PrevMissing(log: seq<LogEntry>, prevIndex: nat) {
    |log| < prevIndex
  }

  predicate PrevConflict(log: seq<LogEntry>, prevIndex: nat, prevTerm: nat) {
    0 < prevIndex <= |log| && log[prevIndex - 1].term != prevTerm
  }

  /** Result: new state, the success flag and the reported match index. */
  function HandleAppendEntries(s: State, leader: NodeId, term: nat, prevIndex: nat, prevTerm: nat,
                               entries: seq<LogEntry>, leaderCommit: nat): (State, bool, nat)
    requires Indexed(entries)
  {
    if term < s.term then (s, false, 0)
    else
      var s1 := ReceiveHeartbeat(s, leader, term);
      if PrevMissing(s.log, prevIndex) then (s1, false, |s.log|)
      else if PrevConflict(s.log, prevIndex, prevTerm) then (s1.(log := s.log[..prevIndex - 1]), false, prevIndex - 1)
      else
        var s2 := AdvanceCommit(s1.(log := AbsorbAll(s.log, entries)), leaderCommit);
        (s2, true, |s2.log|)
  }

  // --------------------------------------------------------------- commit rule

  function CountAtLeast(xs: seq<nat>, v: nat): nat {
    if xs == [] then 0 else (if xs[0] >= v then 1 else 0) + CountAtLeast(xs[1..], v)
  }

  function InsertDescending(x: nat, xs: seq<nat>): seq<nat> {
    if xs == [] || x >= xs[0] then [x] + xs else [xs[0]] + InsertDescending(x, xs[1..])
  }

  function SortDescending(xs: seq<nat>): seq<nat> {
    if xs == [] then [] else InsertDescending(xs[0], SortDescending(xs[1..]))
  }

  /** Scans the sorted indices from position i: the new commit index. */
  function CommitScan(s: State, indices: seq<nat>, i: nat, majority: nat): nat
    requires i <= |indices|
    decreases |indices| - i
  {
    if i == |indices| || indices[i] <= s.commitIndex then s.commitIndex
    else if CountAtLeast(indices, indices[i]) >= majority then
      if indices[i] <= |s.log| && s.log[indices[i] - 1].term == s.term then indices[i] else s.commitIndex
    else CommitScan(s, indices, i + 1, majority)
  }

  function CommitEntries(s: State, matchIndices: seq<nat>, clusterSize: nat): (r: State) {
    if s.role != LEADER then s
    else
      var target := CommitScan(s, SortDescending(matchIndices + [|s.log|]), 0, Majority(clusterSize));
      if target > s.commitIndex && target <= |s.log| then ApplyCommitted(s.(commitIndex := target)) else s
  }

  /** What the commit rule is for: index n is past the old commit point, a majority of
      the cluster (the leader's own log included) reaches n, and n is an entry of the
      leader's own term. */
  predicate Committable(s: State, matchIndices: seq<nat>, clusterSize: nat, n: nat) {
    && s.commitIndex < n <= |s.log|
    && 2 * CountAtLeast(matchIndices + [|s.log|], n) > clusterSize
    && s.log[n - 1].term == s.term
  }

  /** Log terms never decrease and never exceed the current term. */
  predicate TermsOrdered(s: State) {
    && (forall i, j :: 0 <= i <= j < |s.log| ==> s.log[i].term <= s.log[j].term)
    && (forall i :: 0 <= i < |s.log| ==> s.log[i].term <= s.term)
  }

  predicate Descending(xs: seq<nat>) {
    forall i, j :: 0 <= i <= j < |xs| ==> xs[i] >= xs[j]
  }

  lemma {:induction false} InsertKeeps(x: nat, xs: seq<nat>, v: nat)
    requires Descending(xs)
    ensures Descending(InsertDescending(x, xs))
    ensures CountAtLeast(InsertDescending(x, xs), v) == CountAtLeast([x] + xs, v)
    ensures forall y :: y in InsertDescending(x, xs) <==> y == x || y in xs
  {
    var ys := InsertDescending(x, xs);
    assert ([x] + xs)[1..] == xs;
    if xs != [] && x < xs[0] {
      InsertKeeps(x, xs[1..], v);
      var rest := InsertDescending(x, xs[1..]);
      assert ys[1..] == rest && ([x] + xs[1..])[1..] == xs[1..];
      forall i, j | 0 <= i <= j < |ys| ensures ys[i] >= ys[j] {
        if i == 0 && j > 0 { assert rest[j - 1] in rest; }
      }
    }
  }

  lemma {:induction false} SortKeeps(xs: seq<nat>, v: nat)
    ensures Descending(SortDescending(xs))
    ensures CountAtLeast(SortDescending(xs), v) == CountAtLeast(xs, v)
    ensures forall y :: y in SortDescending(xs) <==> y in xs
  {
    if xs != [] {
      SortKeeps(xs[1..], v);
      var rest := SortDescending(xs[1..]);
      InsertKeeps(xs[0], rest, v);
      assert ([xs[0]] + rest)[1..] == rest;
    }
  }

  lemma {:induction false} CountBounds(xs: seq<nat>, v: nat, i: nat)
    requires Descending(xs)
    ensures i < |xs| && xs[i] >= v ==> CountAtLeast(xs, v) >= i + 1
    ensures i < |xs| && xs[i] < v ==> CountAtLeast(xs, v) <= i
    ensures i == |xs| ==> CountAtLeast(xs, v) <= i
  {
    if xs != [] {
      if i > 0 { CountBounds(xs[1..], v, i - 1); }
      else { AllSmaller(xs, v); }
    }
  }

  lemma {:induction false} AllSmaller(xs: seq<nat>, v: nat)
    requires Descending(xs)
    ensures xs != [] && xs[0] < v ==> CountAtLeast(xs, v) == 0
  {
    if xs != [] && xs[0] < v { AllSmaller(xs[1..], v); }
  }

  lemma {:induction false} CountLast(xs: seq<nat>, x: nat, v: nat)
    ensures CountAtLeast(xs + [x], v) == CountAtLeast(xs, v) + (if x >= v then 1 else 0)
  {
    if xs == [] {
      assert xs + [x] == [x] && [x][1..] == [];
    } else {
      CountLast(xs[1..], x, v);
      assert (xs + [x])[1..] == xs[1..] + [x];
    }
  }

  /** How many of the indices reach v. */
  lemma {:induction false} CountAtLeastIsSize(xs: seq<nat>, v: nat)
    ensures CountAtLeast(xs, v) == |set i | 0 <= i < |xs| && xs[i] >= v|
  {
    if xs != [] {
      var n := |xs| - 1;
      CountAtLeastIsSize(xs[..n], v);
      CountLast(xs[..n], xs[n], v);
      assert xs == xs[..n] + [xs[n]];
      var before := set i | 0 <= i < |xs[..n]| && xs[..n][i] >= v;
      assert (set i | 0 <= i < |xs| && xs[i] >= v) == if xs[n] >= v then before + {n} else before;
    }
  }

  lemma {:induction false} CountMonotone(xs: seq<nat>, v: nat, w: nat)
    requires v <= w
    ensures CountAtLeast(xs, w) <= CountAtLeast(xs, v)
  {
    if xs != [] { CountMonotone(xs[1..], v, w); }
  }

  lemma {:induction false} NoneCounted(xs: seq<nat>, v: nat)
    requires forall x :: x in xs ==> x < v
    ensures CountAtLeast(xs, v) == 0
  {
    if xs != [] {
      assert xs[0] in xs && forall x: nat :: x in xs[1..] ==> x in xs;
      NoneCounted(xs[1..], v);
    }
  }

  /** A majority of the reported indices lies past the end of the leader's log. */
  predicate Overreported(s: State, matchIndices: seq<nat>, clusterSize: nat) {
    2 * CountAtLeast(matchIndices + [|s.log|], |s.log| + 1) > clusterSize
  }

  /** A committable index is at or below whatever the scan has not passed yet. */
  lemma CommittableAhead(s: State, matches: seq<nat>, size: nat, ys: seq<nat>, i: nat, n: nat)
    requires ys == SortDescending(matches + [|s.log|]) && i <= |ys|
    requires i > 0 ==> CountAtLeast(ys, ys[i - 1]) < Majority(size)
    requires Committable(s, matches, size, n)
    ensures i < |ys| && n <= ys[i]
  {
    SortKeeps(matches + [|s.log|], n);
    CountBounds(ys, n, i);
    if i > 0 {
      CountBounds(ys, n, i - 1);
      CountBounds(ys, ys[i - 1], i - 1);
    }
  }

  /** Unless too much is reported, the scan reads the greatest index that a majority reaches,
      so it never skips a committable one. */
  lemma {:induction false} ScanFindsGreatest(s: State, matches: seq<nat>, size: nat, ys: seq<nat>, i: nat)
    requires ys == SortDescending(matches + [|s.log|]) && i <= |ys|
    requires TermsOrdered(s) && !Overreported(s, matches, size)
    requires i > 0 ==> CountAtLeast(ys, ys[i - 1]) < Majority(size)
    ensures var c := CommitScan(s, ys, i, Majority(size));
            (c == s.commitIndex || Committable(s, matches, size, c))
            && forall n: nat :: Committable(s, matches, size, n) ==> n <= c
    decreases |ys| - i
  {
    forall n: nat | Committable(s, matches, size, n) ensures i < |ys| && n <= ys[i] {
      CommittableAhead(s, matches, size, ys, i, n);
    }
    if i < |ys| && ys[i] > s.commitIndex {
      SortKeeps(matches + [|s.log|], ys[i]);
      if CountAtLeast(ys, ys[i]) < Majority(size) {
        ScanFindsGreatest(s, matches, size, ys, i + 1);
      } else if ys[i] > |s.log| {
        CountMonotone(matches + [|s.log|], |s.log| + 1, ys[i]);
      }
    }
  }

  /** If too much is reported, the scan stops at an index past the log. */
  lemma {:induction false} ScanStopsPastLog(s: State, ys: seq<nat>, i: nat, majority: nat)
    requires Descending(ys) && i <= |ys| && majority >= 1
    requires CountAtLeast(ys, |s.log| + 1) >= majority
    requires i > 0 ==> CountAtLeast(ys, ys[i - 1]) < majority
    ensures CommitScan(s, ys, i, majority) == s.commitIndex
    decreases |ys| - i
  {
    CountBounds(ys, |s.log| + 1, i);
    if i > 0 { CountBounds(ys, ys[i - 1], i - 1); }
    if i < |ys| && CountAtLeast(ys, ys[i]) < majority { ScanStopsPastLog(s, ys, i + 1, majority); }
  }

  /** The new commit index is the greatest committable index, or the old one if that is at
      least as great. */
  ghost predicate PicksGreatest(s: State, matchIndices: seq<nat>, clusterSize: nat) {
    var c := CommitEntries(s, matchIndices, clusterSize).commitIndex;
    && (c == s.commitIndex || Committable(s, matchIndices, clusterSize, c))
    && forall n: nat :: Committable(s, matchIndices, clusterSize, n) ==> n <= c
  }

  /** The commit rule, exactly: a leader picks the greatest committable index unless a
      majority of the reported indices lies past the end of its log; then it commits nothing,
      which is right only if nothing is committable. */
  lemma CommitRuleExactly(s: State, matchIndices: seq<nat>, clusterSize: nat)
    requires s.role == LEADER && TermsOrdered(s)
    ensures PicksGreatest(s, matchIndices, clusterSize)
            <==> !Overreported(s, matchIndices, clusterSize)
                 || !exists n: nat :: Committable(s, matchIndices, clusterSize, n)
  {
    var all := matchIndices + [|s.log|];
    var ys := SortDescending(all);
    if !Overreported(s, matchIndices, clusterSize) {
      ScanFindsGreatest(s, matchIndices, clusterSize, ys, 0);
    } else {
      SortKeeps(all, |s.log| + 1);
      ScanStopsPastLog(s, ys, 0, Majority(clusterSize));
    }
  }

  /** Match indices that lie within the leader's log are never too many, and then the commit
      index stays exactly when nothing is committable. */
  lemma CommitRule(s: State, matchIndices: seq<nat>, clusterSize: nat)
    requires s.role == LEADER && TermsOrdered(s)
    requires forall m :: m in matchIndices ==> m <= |s.log|
    ensures PicksGreatest(s, matchIndices, clusterSize)
    ensures CommitEntries(s, matchIndices, clusterSize).commitIndex == s.commitIndex
            <==> !exists n: nat :: Committable(s, matchIndices, clusterSize, n)
  {
    NoneCounted(matchIndices + [|s.log|], |s.log| + 1);
    CommitRuleExactly(s, matchIndices, clusterSize);
  }

  // --------------------------------------------------- what AppendEntries does

  /** Entries that continue the log right after prevIndex, as a leader sends them. */
  predicate ContiguousFrom(entries: seq<LogEntry>, prevIndex: nat) {
    forall i :: 0 <= i < |entries| ==> entries[i].index == prevIndex + i + 1
  }

  /** Some received entry falls on a log position holding another term. */
  predicate Contradicts(log: seq<LogEntry>, entries: seq<LogEntry>, prevIndex: nat, bound: nat) {
    exists i :: 0 <= i < |entries| && prevIndex + i < |log| && prevIndex + i < bound
                && log[prevIndex + i].term != entries[i].term
  }

  /** How many leading entries the log already holds with the same term. */
  function Agreement(log: seq<LogEntry>, entries: seq<LogEntry>, prevIndex: nat): (n: nat)
    ensures n <= |entries|
    ensures prevIndex <= |log| ==> prevIndex + n <= |log|
    ensures forall i :: 0 <= i < n ==> prevIndex + i < |log| && log[prevIndex + i].term == entries[i].term
    ensures n < |entries| && prevIndex + n < |log| ==> log[prevIndex + n].term != entries[n].term
    decreases |entries|
  {
    if entries == [] || prevIndex >= |log| || log[prevIndex].term != entries[0].term then 0
    else
      var rest := entries[1..];
      1 + Agreement(log, rest, prevIndex + 1)
  }

  lemma ContiguousTail(entries: seq<LogEntry>, prevIndex: nat)
    requires ContiguousFrom(entries, prevIndex) && entries != []
    ensures ContiguousFrom(entries[1..], prevIndex + 1) && Indexed(entries) && entries[0].index == prevIndex + 1
  {}

  /** One received entry, whatever its index: it is dropped if the log has its term at its
      index, and otherwise ends the log, right behind what precedes its index. */
  lemma AbsorbPlaces(log: seq<LogEntry>, e: LogEntry)
    requires e.index >= 1
    ensures var r := AbsorbAll(log, [e]);
            if e.index <= |log| && log[e.index - 1].term == e.term then r == log
            else |r| == Min(e.index, |log| + 1) && r[|r| - 1] == e && r[..|r| - 1] == log[..|r| - 1]
  {
    assert [e][1..] == [];
    assert AbsorbAll(log, [e]) == AbsorbAll(Absorb(log, e), []);
  }

  /** Closed form of the entry loop. A log that agrees with all entries is kept, tail and
      all; otherwise the log is cut at the first entry it lacks and takes the rest. */
  lemma {:induction false} AbsorbAllShape(log: seq<LogEntry>, entries: seq<LogEntry>, prevIndex: nat)
    requires ContiguousFrom(entries, prevIndex) && prevIndex <= |log|
    ensures Indexed(entries)
    ensures var n := Agreement(log, entries, prevIndex);
            AbsorbAll(log, entries) == (if n == |entries| then log else log[..prevIndex + n] + entries[n..])
    decreases |entries|
  {
    if entries != [] {
      ContiguousTail(entries, prevIndex);
      if prevIndex < |log| && log[prevIndex].term == entries[0].term {
        AbsorbAllShape(log, entries[1..], prevIndex + 1);
        AgreedStep(log, entries, prevIndex);
      } else {
        AbsorbMismatch(log, entries, prevIndex);
      }
    }
  }

  /** An entry the log already holds changes nothing. */
  lemma AgreedStep(log: seq<LogEntry>, entries: seq<LogEntry>, p: nat)
    requires entries != [] && p < |log| && log[p].term == entries[0].term && entries[0].index == p + 1
            && Indexed(entries)
    ensures AbsorbAll(log, entries) == AbsorbAll(log, entries[1..])
    ensures var n := Agreement(log, entries[1..], p + 1);
            && Agreement(log, entries, p) == n + 1 && entries[1..][n..] == entries[n + 1..]
            && log[..p + 1 + n] == log[..p + (n + 1)]
  {
    assert Absorb(log, entries[0]) == log;
  }

  lemma AbsorbMismatch(log: seq<LogEntry>, entries: seq<LogEntry>, prevIndex: nat)
    requires ContiguousFrom(entries, prevIndex) && prevIndex <= |log| && entries != []
    requires prevIndex < |log| ==> log[prevIndex].term != entries[0].term
    ensures Indexed(entries) && AbsorbAll(log, entries) == log[..prevIndex] + entries
  {
    var cut, rest := log[..prevIndex] + [entries[0]], entries[1..];
    AbsorbOne(log, entries[0], prevIndex);
    assert ContiguousFrom(rest, prevIndex + 1);
    AbsorbPastEnd(cut, rest, prevIndex + 1);
    Spliced(log[..prevIndex], entries);
  }

  lemma Spliced(a: seq<LogEntry>, b: seq<LogEntry>)
    requires b != []
    ensures a + [b[0]] + b[1..] == a + b
  {}

  lemma AbsorbOne(log: seq<LogEntry>, e: LogEntry, prevIndex: nat)
    requires e.index == prevIndex + 1 && prevIndex <= |log|
    requires prevIndex < |log| ==> log[prevIndex].term != e.term
    ensures Absorb(log, e) == log[..prevIndex] + [e]
  {
    assert log[..|log|] == log;
  }

  /** Entries past the end of the log are simply appended. */
  lemma {:induction false} AbsorbPastEnd(log: seq<LogEntry>, entries: seq<LogEntry>, prevIndex: nat)
    requires |log| == prevIndex && ContiguousFrom(entries, prevIndex)
    ensures Indexed(entries) && AbsorbAll(log, entries) == log + entries
    decreases |entries|
  {
    if entries != [] {
      AbsorbPastEnd(log + [entries[0]], entries[1..], prevIndex + 1);
      assert log + [entries[0]] + entries[1..] == log + entries;
    }
  }

  /** The answer to AppendEntries says what the log holds now. Success comes exactly when the
      term is not old and the predecessor matches, and then the log has every entry sent, by
      term, within the reported match index. A refused predecessor yields a match index
      before it, at which the log now ends or always ended. */
  lemma AppendAnswer(s: State, leader: NodeId, term: nat, prevIndex: nat, prevTerm: nat, entries: seq<LogEntry>,
      leaderCommit: nat)
    requires ContiguousFrom(entries, prevIndex) && Indexed(entries)
    ensures var (s', success, matchIndex) :=
            HandleAppendEntries(s, leader, term, prevIndex, prevTerm, entries, leaderCommit);
            && (success
                <==> term >= s.term && prevIndex <= |s.log|
                     && (prevIndex > 0 ==> s.log[prevIndex - 1].term == prevTerm))
            && (success ==> prevIndex + |entries| <= matchIndex == |s'.log|
                            && s'.log[..prevIndex] == s.log[..prevIndex]
                            && forall i :: 0 <= i < |entries| ==> s'.log[prevIndex + i].term == entries[i].term)
            && (!success && term >= s.term ==> matchIndex < prevIndex && matchIndex == |s'.log| && s'.log <= s.log)
  {
    if term >= s.term && !PrevMissing(s.log, prevIndex) && !PrevConflict(s.log, prevIndex, prevTerm) {
      AbsorbedHasEntries(s.log, entries, prevIndex);
      AdvanceKeepsLog(ReceiveHeartbeat(s, leader, term).(log := AbsorbAll(s.log, entries)), leaderCommit);
    }
  }

  lemma AbsorbedHasEntries(log: seq<LogEntry>, entries: seq<LogEntry>, prevIndex: nat)
    requires ContiguousFrom(entries, prevIndex) && Indexed(entries) && prevIndex <= |log|
    ensures var r := AbsorbAll(log, entries);
            && prevIndex + |entries| <= |r| && r[..prevIndex] == log[..prevIndex]
            && forall i :: 0 <= i < |entries| ==> r[prevIndex + i].term == entries[i].term
  {
    AbsorbAllShape(log, entries, prevIndex);
    SpliceHasEntries(log, entries, prevIndex, Agreement(log, entries, prevIndex));
  }

  lemma SpliceHasEntries(log: seq<LogEntry>, entries: seq<LogEntry>, p: nat, n: nat)
    requires n <= |entries| && p + n <= |log|
    requires forall i :: 0 <= i < n ==> log[p + i].term == entries[i].term
    ensures var r := if n == |entries| then log else log[..p + n] + entries[n..];
            && p + |entries| <= |r| && r[..p] == log[..p]
            && forall i :: 0 <= i < |entries| ==> r[p + i].term == entries[i].term
  {
    var r := if n == |entries| then log else log[..p + n] + entries[n..];
    forall i | 0 <= i < |entries| ensures p + i < |r| && r[p + i].term == entries[i].term {
      if n < |entries| && i >= n { assert r[p + i] == entries[n..][i - n]; }
    }
  }

  lemma AdvanceKeepsLog(s: State, leaderCommit: nat)
    ensures AdvanceCommit(s, leaderCommit).log == s.log
  {}

  /** c is the greatest commit index that the leader's and the log's length allow. */
  predicate Furthest(c: nat, leaderCommit: nat, length: nat) {
    c <= leaderCommit && c <= length && (c == leaderCommit || c == length)
  }

  /** A success takes over the leader's commit index as far as the log goes and applies
      everything up to it that was not applied; nothing else moves either. */
  predicate CommitsAsFar(s: State, s': State, success: bool, leaderCommit: nat) {
    if success && leaderCommit > s.commitIndex then
      && Furthest(s'.commitIndex, leaderCommit, |s'.log|)
      && (s.lastApplied <= s.commitIndex <= |s'.log| ==>
            s'.lastApplied == s'.commitIndex && s'.applied == s.applied + s'.log[s.lastApplied..s'.commitIndex])
    else
      s'.commitIndex == s.commitIndex && s'.lastApplied == s.lastApplied && s'.applied == s.applied
  }

  /** A message of an old term changes nothing; any other makes the node a follower of its
      sender in its term, with the vote kept only within a term. */
  predicate FollowsSender(s: State, s': State, leader: NodeId, term: nat) {
    if term < s.term then s' == s
    else
      && s'.id == s.id && s'.term == term && s'.role == FOLLOWER && s'.leaderId == Some(leader)
      && (s'.votedFor == if term > s.term then None else s.votedFor)
  }

  /** What a delivery commits and applies. */
  lemma DeliveryCommits(s: State, leader: NodeId, term: nat, prevIndex: nat, prevTerm: nat,
                        entries: seq<LogEntry>, leaderCommit: nat)
    requires Indexed(entries)
    ensures var (s', success, _) := HandleAppendEntries(s, leader, term, prevIndex, prevTerm, entries, leaderCommit);
            CommitsAsFar(s, s', success, leaderCommit)
  {}

  /** What a delivery does to the rest of the node. A missing predecessor leaves the log alone
      and a conflicting one cuts it right before. */
  lemma DeliveryFollows(s: State, leader: NodeId, term: nat, prevIndex: nat, prevTerm: nat,
                        entries: seq<LogEntry>, leaderCommit: nat)
    requires Indexed(entries)
    ensures var (s', success, matchIndex) :=
              HandleAppendEntries(s, leader, term, prevIndex, prevTerm, entries, leaderCommit);
            && FollowsSender(s, s', leader, term)
            && (term < s.term ==> !success && matchIndex == 0)
            && (term >= s.term && prevIndex > |s.log| ==> s'.log == s.log && matchIndex == |s.log|)
            && (term >= s.term && 0 < prevIndex <= |s.log| && s.log[prevIndex - 1].term != prevTerm ==>
                  s'.log == s.log[..prevIndex - 1] && matchIndex == prevIndex - 1)
  {}

  // --------------------------------------------------------------- the vote rule

  /** How far a log has come: the term of its last entry first, then its length. */
  predicate AtLeastAsFar(lastTerm: nat, lastIndex: nat, log: seq<LogEntry>) {
    lastTerm > LastTerm(log) || (lastTerm == LastTerm(log) && lastIndex >= |log|)
  }

  /** A vote is granted exactly when the term is not old, no other candidate has this node's
      vote in it, and the candidate's log has come at least as far. The node ends in the
      newer of the two terms, and within a term it never takes back a vote. */
  lemma VoteGrantedExactly(s: State, candidate: NodeId, term: nat, lastIndex: nat, lastTerm: nat)
    ensures var (s', granted) := HandleVoteRequest(s, candidate, term, lastIndex, lastTerm);
            && (granted <==> && term >= s.term
                             && (term == s.term && s.votedFor.Some? ==> s.votedFor == Some(candidate))
                             && AtLeastAsFar(lastTerm, lastIndex, s.log))
            && s'.term == (if term > s.term then term else s.term) && s'.log == s.log
            && (granted ==> s'.votedFor == Some(candidate))
            && (!granted ==> s'.votedFor == if term > s.term then None else s.votedFor)
            && (s'.role == if term > s.term then FOLLOWER else s.role)
            && s'.leaderId == s.leaderId && s'.id == s.id
            && s'.commitIndex == s.commitIndex && s'.lastApplied == s.lastApplied && s'.applied == s.applied
  {
    UpToDateMeans(s.log, lastIndex, lastTerm);
  }

  lemma UpToDateMeans(log: seq<LogEntry>, lastIndex: nat, lastTerm: nat)
    ensures UpToDate(log, lastIndex, lastTerm) <==> AtLeastAsFar(lastTerm, lastIndex, log)
  {}

  /** Of any two logs one has come at least as far as the other, and the relation is
      transitive, so in every group some member may be voted for by all. */
  lemma UpToDateOrder(a: seq<LogEntry>, b: seq<LogEntry>, c: seq<LogEntry>)
    ensures UpToDate(a, |b|, LastTerm(b)) || UpToDate(b, |a|, LastTerm(a))
    ensures UpToDate(a, |b|, LastTerm(b)) && UpToDate(b, |c|, LastTerm(c)) ==> UpToDate(a, |c|, LastTerm(c))
  {
    UpToDateMeans(a, |b|, LastTerm(b));
    UpToDateMeans(b, |a|, LastTerm(a));
    UpToDateMeans(b, |c|, LastTerm(c));
    UpToDateMeans(a, |c|, LastTerm(c));
  }

  // ------------------------------------------------ exactly-once application

  /** The callback has been given exactly the first `lastApplied` log entries, in order. */
  predicate AppliedPrefix(s: State) {
    s.lastApplied <= s.commitIndex <= |s.log| && s.applied == s.log[..s.lastApplied]
  }

  /** The message asks the node to cut or replace a committed entry. */
  predicate ConflictsWithCommitted(s: State, term: nat, prevIndex: nat, prevTerm: nat, entries: seq<LogEntry>) {
    && term >= s.term
    && !PrevMissing(s.log, prevIndex)
    && (if PrevConflict(s.log, prevIndex, prevTerm) then prevIndex <= s.commitIndex
        else Contradicts(s.log, entries, prevIndex, s.commitIndex))
  }

  /** s2 only ever adds to what s1 committed and applied. */
  predicate Extends(s1: State, s2: State) {
    && s1.commitIndex <= s2.commitIndex <= |s2.log|
    && s1.commitIndex <= |s1.log|
    && s1.lastApplied <= s2.lastApplied
    && s2.log[..s1.commitIndex] == s1.log[..s1.commitIndex]
    && s1.applied <= s2.applied
  }

  lemma CommitKeepsApplied(s: State, commit: nat)
    requires s.lastApplied <= s.commitIndex <= commit <= |s.log| && s.applied == s.log[..s.lastApplied]
    ensures var s' := ApplyCommitted(s.(commitIndex := commit));
            AppliedPrefix(s') && Extends(s, s') && s'.lastApplied == commit && s'.log == s.log
  {
    assert s.log[..s.lastApplied] + s.log[s.lastApplied..commit] == s.log[..commit];
  }

  lemma AbsorbAllKeepsPrefix(log: seq<LogEntry>, entries: seq<LogEntry>, prevIndex: nat, n: nat)
    requires ContiguousFrom(entries, prevIndex) && prevIndex <= |log| && n <= |log|
    requires Indexed(entries)
    ensures var r := AbsorbAll(log, entries);
            Contradicts(log, entries, prevIndex, n) <==> !(n <= |r| && r[..n] == log[..n])
  {
    AbsorbAllShape(log, entries, prevIndex);
    var r := AbsorbAll(log, entries);
    var k := Agreement(log, entries, prevIndex);
    if k < |entries| && prevIndex + k < n {
      assert Contradicts(log, entries, prevIndex, n);
      if n <= |r| {
        assert r[..n][prevIndex + k] == entries[k] && log[..n][prevIndex + k] == log[prevIndex + k];
      }
    }
  }

  /** Exactly when an AppendEntries message is safe for the committed prefix: it keeps the
      prefix, the commit index and the applied record if and only if it does not conflict
      with a committed entry. */
  lemma AppendKeepsCommitted(s: State, leader: NodeId, term: nat, prevIndex: nat, prevTerm: nat,
                             entries: seq<LogEntry>, leaderCommit: nat)
    requires AppliedPrefix(s) && ContiguousFrom(entries, prevIndex)
    ensures Indexed(entries)
    ensures var s' := HandleAppendEntries(s, leader, term, prevIndex, prevTerm, entries, leaderCommit).0;
            !ConflictsWithCommitted(s, term, prevIndex, prevTerm, entries) <==> AppliedPrefix(s') && Extends(s, s')
  {
    assert Indexed(entries);
    if term >= s.term && !PrevMissing(s.log, prevIndex) && !PrevConflict(s.log, prevIndex, prevTerm) {
      AbsorbAllKeepsPrefix(s.log, entries, prevIndex, s.commitIndex);
      var r := AbsorbAll(s.log, entries);
      var s1 := ReceiveHeartbeat(s, leader, term).(log := r);
      if s.commitIndex <= |r| && r[..s.commitIndex] == s.log[..s.commitIndex] {
        assert r[..s.lastApplied] == r[..s.commitIndex][..s.lastApplied];
        assert s.log[..s.lastApplied] == s.log[..s.commitIndex][..s.lastApplied];
        if leaderCommit > s.commitIndex {
          CommitKeepsApplied(s1, Min(leaderCommit, |r|));
        }
      }
    }
  }

  /** The same node under any mix of operations; AppendEntries is the only operation that
      can touch committed entries. */
  datatype Event =
    | Start
    | Finish(term: nat, votes: nat, size: nat)
    | Beat(leader: NodeId, term: nat)
    | Down
    | Vote(candidate: NodeId, term: nat, lastIndex: nat, lastTerm: nat)
    | Propose(command: string, key: string, value: string)
    | Append(leader: NodeId, term: nat, prevIndex: nat, prevTerm: nat, entries: seq<LogEntry>, leaderCommit: nat)
    | Commit(matches: seq<nat>, size: nat)

  predicate WellFormed(e: Event) {
    e.Append? ==> ContiguousFrom(e.entries, e.prevIndex)
  }

  function Step(s: State, e: Event): State
    requires WellFormed(e)
  {
    match e
    case Start => StartElection(s)
    case Finish(term, votes, size) => FinishElection(s, term, votes, size)
    case Beat(leader, term) => ReceiveHeartbeat(s, leader, term)
    case Down => StepDown(s)
    case Vote(c, term, li, lt) => HandleVoteRequest(s, c, term, li, lt).0
    case Propose(c, k, v) => AppendEntry(s, c, k, v)
    case Append(l, t, pi, pt, es, lc) => HandleAppendEntries(s, l, t, pi, pt, es, lc).0
    case Commit(m, size) => CommitEntries(s, m, size)
  }

  function Play(s: State, events: seq<Event>): State
    requires forall e :: e in events ==> WellFormed(e)
    decreases |events|
  {
    if events == [] then s else Play(Step(s, events[0]), events[1..])
  }

  /** No AppendEntries along the run conflicts with what was committed when it arrived. */
  predicate NeverConflicts(s: State, events: seq<Event>)
    requires forall e :: e in events ==> WellFormed(e)
    decreases |events|
  {
    events == []
    || ((events[0].Append? ==>
           !ConflictsWithCommitted(s, events[0].term, events[0].prevIndex, events[0].prevTerm, events[0].entries))
        && NeverConflicts(Step(s, events[0]), events[1..]))
  }

  lemma ScanInRange(s: State, ys: seq<nat>, i: nat, majority: nat)
    requires i <= |ys|
    ensures var c := CommitScan(s, ys, i, majority); c == s.commitIndex || s.commitIndex < c <= |s.log|
    decreases |ys| - i
  {}

  lemma StepExtends(s: State, e: Event)
    requires AppliedPrefix(s) && WellFormed(e)
    requires e.Append? ==> !ConflictsWithCommitted(s, e.term, e.prevIndex, e.prevTerm, e.entries)
    ensures AppliedPrefix(Step(s, e)) && Extends(s, Step(s, e))
  {
    match e
    case Append(l, t, pi, pt, es, lc) => AppendKeepsCommitted(s, l, t, pi, pt, es, lc);
    case Commit(m, size) =>
      var ys := SortDescending(m + [|s.log|]);
      ScanInRange(s, ys, 0, Majority(size));
      var c := CommitScan(s, ys, 0, Majority(size));
      if s.role == LEADER && c > s.commitIndex { CommitKeepsApplied(s, c); }
    case Propose(c, k, v) =>
      assert Step(s, e).log[..s.lastApplied] == s.log[..s.lastApplied];
    case _ =>
  }

  /** Exactly-once, in-order application over a whole run of one node. */
  lemma {:induction false} AppliedExactlyOnce(s: State, events: seq<Event>)
    requires forall e :: e in events ==> WellFormed(e)
    requires AppliedPrefix(s) && NeverConflicts(s, events)
    ensures AppliedPrefix(Play(s, events)) && Extends(s, Play(s, events))
    decreases |events|
  {
    if events != [] {
      var mid := Step(s, events[0]);
      StepExtends(s, events[0]);
      AppliedExactlyOnce(mid, events[1..]);
      var last := Play(mid, events[1..]);
      assert last.log[..s.commitIndex] == last.log[..mid.commitIndex][..s.commitIndex];
      assert mid.log[..s.commitIndex] == mid.log[..mid.commitIndex][..s.commitIndex];
    }
  }

  // ------------------------------------------------------------------ the class

  /** The log, what is committed and what was applied are as before. */
  predicate KeptLog(s: State, s': State) {
    s'.log == s.log && s'.commitIndex == s.commitIndex && s'.lastApplied == s.lastApplied && s'.applied == s.applied
  }

  class ElectionManager {
    const nodeId: NodeId
    var currentTerm: nat
    var votedFor: Option<NodeId>
    var role: Role
    var leaderId: Option<NodeId>
    var log: seq<LogEntry>
    var commitIndex: nat
    var lastApplied: nat
    var applied: seq<LogEntry>

    function Abs(): State
      reads this
    {
      State(nodeId, currentTerm, votedFor, role, leaderId, log, commitIndex, lastApplied, applied)
    }

    constructor (id: NodeId)
      ensures Abs() == Fresh(id) && nodeId == id
      ensures currentTerm == 0 && votedFor == None && role == FOLLOWER && leaderId == None
      ensures log == [] && commitIndex == lastApplied == 0 && applied == []
    {
      nodeId := id;
      currentTerm, votedFor, role, leaderId := 0, None, FOLLOWER, None;
      log, commitIndex, lastApplied, applied := [], 0, 0, [];
    }

    method BeginElection() returns (term: nat, lastIndex: nat, lastTerm: nat)
      modifies this
      ensures Abs() == StartElection(old(Abs()))
      ensures currentTerm == old(currentTerm) + 1 && role == CANDIDATE && votedFor == Some(nodeId)
      ensures leaderId == old(leaderId) && KeptLog(old(Abs()), Abs())
      ensures term == currentTerm && lastIndex == |log| && (log == [] ==> lastTerm == 0)
      ensures log != [] ==> lastTerm == log[|log| - 1].term
    {
      currentTerm := currentTerm + 1;
      role := CANDIDATE;
      votedFor := Some(nodeId);
      term, lastIndex := currentTerm, |log|;
      lastTerm := if log != [] then log[|log| - 1].term else 0;
    }

    method EndElection(term: nat, votes: nat, clusterSize: nat)
      modifies this
      ensures Abs() == FinishElection(old(Abs()), term, votes, clusterSize)
      ensures var won := old(role) == CANDIDATE && old(currentTerm) == term && 2 * votes > clusterSize;
              && (role == if won then LEADER else old(role))
              && (leaderId == if won then Some(nodeId) else old(leaderId))
      ensures currentTerm == old(currentTerm) && votedFor == old(votedFor) && KeptLog(old(Abs()), Abs())
    {
      if role != CANDIDATE || currentTerm != term { return; }
      var required := if 1 > clusterSize / 2 + 1 then 1 else clusterSize / 2 + 1;
      if votes >= required {
        role := LEADER;
        leaderId := Some(nodeId);
      }
    }

    method Heartbeat(leader: NodeId, term: nat) returns (accepted: bool)
      modifies this
      ensures Abs() == ReceiveHeartbeat(old(Abs()), leader, term)
      ensures accepted == (term >= old(currentTerm))
      ensures FollowsSender(old(Abs()), Abs(), leader, term)
      ensures KeptLog(old(Abs()), Abs())
    {
      if term < currentTerm { return false; }
      if term > currentTerm {
        currentTerm := term;
        votedFor := None;
      }
      if role != FOLLOWER || leaderId != Some(leader) {
        role := FOLLOWER;
        leaderId := Some(leader);
      }
      return true;
    }

    method Resign()
      modifies this
      ensures Abs() == StepDown(old(Abs()))
      ensures old(role) == LEADER ==> role == FOLLOWER && leaderId == None
      ensures old(role) != LEADER ==> Abs() == old(Abs())
      ensures currentTerm == old(currentTerm) && votedFor == old(votedFor) && KeptLog(old(Abs()), Abs())
    {
      if role == LEADER {
        role := FOLLOWER;
        leaderId := None;
      }
    }

    method VoteRequest(candidate: NodeId, term: nat, lastIndex: nat, lastTerm: nat)
        returns (current: nat, granted: bool)
      modifies this
      ensures (Abs(), granted) == HandleVoteRequest(old(Abs()), candidate, term, lastIndex, lastTerm)
      ensures current == currentTerm
      ensures leaderId == old(leaderId) && KeptLog(old(Abs()), Abs())
    {
      if term < currentTerm { return currentTerm, false; }
      if term > currentTerm {
        currentTerm := term;
        votedFor := None;
        role := FOLLOWER;
      }
      if (votedFor == None || votedFor == Some(candidate)) && UpToDate(log, lastIndex, lastTerm) {
        votedFor := Some(candidate);
        return currentTerm, true;
      }
      return currentTerm, false;
    }

    method ProposeEntry(command: string, key: string, value: string) returns (entry: Option<LogEntry>)
      modifies this
      ensures Abs() == AppendEntry(old(Abs()), command, key, value)
      ensures entry == if role == LEADER then Some(LogEntry(currentTerm, |old(log)| + 1, command, key, value)) else None
      ensures log == if role == LEADER then old(log) + [entry.value] else old(log)
      ensures Abs() == old(Abs()).(log := log)
    {
      if role != LEADER { return None; }
      var e := LogEntry(currentTerm, |log| + 1, command, key, value);
      log := log + [e];
      return Some(e);
    }

    method AppendEntries(leader: NodeId, term: nat, prevIndex: nat, prevTerm: nat,
                         entries: seq<LogEntry>, leaderCommit: nat)
      returns (current: nat, success: bool, matchIndex: nat)
      requires Indexed(entries)
      modifies this
      ensures (Abs(), success, matchIndex)
              == HandleAppendEntries(old(Abs()), leader, term, prevIndex, prevTerm, entries, leaderCommit)
      ensures current == currentTerm
      ensures CommitsAsFar(old(Abs()), Abs(), success, leaderCommit)
      ensures FollowsSender(old(Abs()), Abs(), leader, term)
      ensures term < old(currentTerm) ==> !success && matchIndex == 0
    {
      DeliveryCommits(Abs(), leader, term, prevIndex, prevTerm, entries, leaderCommit);
      DeliveryFollows(Abs(), leader, term, prevIndex, prevTerm, entries, leaderCommit);
      if term < currentTerm { return currentTerm, false, 0; }
      var _ := Heartbeat(leader, term);
      if prevIndex > 0 {
        if |log| < prevIndex { return currentTerm, false, |log|; }
        if log[prevIndex - 1].term != prevTerm {
          log := log[..prevIndex - 1];
          return currentTerm, false, |log|;
        }
      }
      var i := 0;
      ghost var before := Abs();
      while i < |entries|
        invariant 0 <= i <= |entries|
        invariant Abs() == before.(log := log)
        invariant AbsorbAll(log, entries[i..]) == AbsorbAll(before.log, entries)
      {
        var entry := entries[i];
        assert entries[i..][0] == entry && entries[i..][1..] == entries[i + 1..];
        if entry.index <= |log| {
          if log[entry.index - 1].term != entry.term {
            log := log[..entry.index - 1];
            log := log + [entry];
          }
        } else {
          log := log + [entry];
        }
        i := i + 1;
      }
      if leaderCommit > commitIndex {
        commitIndex := Min(leaderCommit, |log|);
        ApplyCommittedEntries();
      }
      return currentTerm, true, |log|;
    }

    method ApplyCommittedEntries()
      requires commitIndex <= |log|
      modifies `lastApplied, `applied
      ensures Abs() == ApplyCommitted(old(Abs()))
      ensures old(lastApplied) <= commitIndex ==>
                lastApplied == commitIndex && applied == old(applied) + log[old(lastApplied)..commitIndex]
      ensures old(lastApplied) > commitIndex ==> lastApplied == old(lastApplied) && applied == old(applied)
    {
      while lastApplied < commitIndex
        invariant old(lastApplied) <= lastApplied
        invariant lastApplied <= commitIndex || lastApplied == old(lastApplied)
        invariant commitIndex <= |log|
        invariant lastApplied <= commitIndex ==> applied == old(applied) + log[old(lastApplied)..lastApplied]
        invariant lastApplied > commitIndex ==> applied == old(applied)
      {
        lastApplied := lastApplied + 1;
        applied := applied + [log[lastApplied - 1]];
      }
    }

    method CommitFrom(matchIndices: seq<nat>, clusterSize: nat)
      modifies this
      ensures Abs() == CommitEntries(old(Abs()), matchIndices, clusterSize)
      ensures old(commitIndex) <= commitIndex && (commitIndex == old(commitIndex) ==> Abs() == old(Abs()))
      ensures old(lastApplied) <= old(commitIndex) < commitIndex ==>
                commitIndex <= |log| && lastApplied == commitIndex
                && applied == old(applied) + log[old(lastApplied)..commitIndex]
      ensures Abs() == old(Abs()).(commitIndex := commitIndex, lastApplied := lastApplied, applied := applied)
    {
      if role != LEADER { return; }
      var indices := SortDescending(matchIndices + [|log|]);
      var majority := clusterSize / 2 + 1;
      var i := 0;
      while i < |indices|
        invariant 0 <= i <= |indices|
        invariant Abs() == old(Abs())
        invariant CommitScan(Abs(), indices, 0, majority) == CommitScan(Abs(), indices, i, majority)
      {
        var idx := indices[i];
        if idx <= commitIndex { break; }
        var count := CountAtLeast(indices, idx);
        if count >= majority {
          if idx > 0 && idx <= |log| {
            if log[idx - 1].term == currentTerm {
              commitIndex := idx;
              ApplyCommittedEntries();
            }
          }
          break;
        }
        i := i + 1;
      }
    }
  }
}

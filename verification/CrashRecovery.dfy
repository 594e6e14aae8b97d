/** Crashes and recovery. A node logs its updates, some of them forced to stable storage and
    some not, takes snapshots and compacts the log; a crash at any moment keeps some
    whole-line prefix of the log that covers the lines on stable storage, and every other
    file as it is. What a restart finds in the log is on stable storage from then on. */
module CrashRecovery {
  import opened Options
  import opened Ordering
  import opened Storage
  import opened Persistence
  import Quorums

  // ------------------------------------------------------------------ the machine

  /** A running node: what it holds in memory, the files (with every line appended so far in
      the log), and how many lines of the log are on stable storage. */
  datatype System = System(memory: Table, disk: Directory, synced: nat)

  const FRESH := System(map[], map[AOF := Lines([])], 0)

  /** A logged update, forced to stable storage or not; the periodic sync; a snapshot, or one
      followed by a compaction, where `order` is the iteration order of the keys. */
  datatype Step =
    | LogWrite(line: Line, sync: bool)
    | Sync
    | Snapshot
    | SnapshotAndCompact(order: seq<string>)

  predicate Possible(s: System, step: Step) {
    AOF in s.disk && s.disk[AOF].Lines? &&
    match step
    case LogWrite(line, _) => ProperLine(line)
    case Sync => true
    case Snapshot => true
    case SnapshotAndCompact(order) => Quorums.Distinct(order) && Quorums.Members(order) == s.memory.Keys
  }

  /** A moment at which a crash may fall. */
  datatype Moment = Moment(files: Directory, synced: nat)

  function AppendLine(d: Directory, line: Line): Directory {
    d[AOF := Lines(LoggedLines(d) + [line])]
  }

  lemma OrderInMemory(memory: Table, order: seq<string>)
    requires Quorums.Members(order) == memory.Keys
    ensures forall key :: key in order ==> key in memory
  {
    forall key | key in order ensures key in memory { assert key in Quorums.Members(order); }
  }

  function Saved(s: System): Directory {
    ExecAll(s.disk, SaveOps(s.disk, s.memory))
  }

  /** The moments of a save: the log is as it was. */
  function SaveMoments(s: System): (ms: seq<Moment>)
    ensures |ms| > 0
  {
    var ds := Trace(s.disk, SaveOps(s.disk, s.memory));
    seq(|ds|, i requires 0 <= i < |ds| => Moment(ds[i], s.synced))
  }

  /** The moments of a compaction: it begins by forcing the log to stable storage, and the
      rewritten log is on stable storage before it takes its place. */
  function CompactMoments(s: System, order: seq<string>): (ms: seq<Moment>)
    requires Quorums.Members(order) == s.memory.Keys
    ensures |ms| > 0
  {
    OrderInMemory(s.memory, order);
    var ds := Trace(Saved(s), CompactOps(Saved(s), s.memory, order));
    seq(|ds|, i requires 0 <= i < |ds| => Moment(ds[i], |LoggedLines(ds[i])|))
  }

  /** All moments of a step, first to last. */
  function Moments(s: System, step: Step): (ms: seq<Moment>)
    requires Possible(s, step)
    ensures |ms| > 0
  {
    match step
    case LogWrite(line, sync) =>
      var d := AppendLine(s.disk, line);
      [Moment(s.disk, s.synced), Moment(d, s.synced)] + if sync then [Moment(d, |LoggedLines(d)|)] else []
    case Sync => [Moment(s.disk, s.synced), Moment(s.disk, |LoggedLines(s.disk)|)]
    case Snapshot => SaveMoments(s)
    case SnapshotAndCompact(order) => SaveMoments(s) + CompactMoments(s, order)
  }

  function After(s: System, step: Step): System
    requires Possible(s, step)
  {
    var ms := Moments(s, step);
    var last := ms[|ms| - 1];
    System(if step.LogWrite? then ApplyLine(s.memory, step.line) else s.memory, last.files, last.synced)
  }

  /** What each step leaves when it completes, in the words of the methods it stands for: one
      more line, synced or not; every line synced; a snapshot of the memory; a snapshot and
      then a rewritten and synced log. */
  lemma StepLeaves(s: System, step: Step)
    requires Possible(s, step)
    ensures var s', lines := After(s, step), LoggedLines(s.disk);
            match step
            case LogWrite(line, sync) =>
              && s'.memory == ApplyLine(s.memory, line) && s'.disk == s.disk[AOF := Lines(lines + [line])]
              && s'.synced == if sync then |lines| + 1 else s.synced
            case Sync => s' == s.(synced := |lines|)
            case Snapshot =>
              s'.memory == s.memory && s'.synced == s.synced && Snapshotted(s.disk, s.memory, s'.disk)
            case SnapshotAndCompact(order) =>
              && (forall key :: key in order ==> key in s.memory)
              && s'.memory == s.memory && s'.synced == |order|
              && exists saved :: Snapshotted(s.disk, s.memory, saved)
                                 && Compacted(saved, lines, s.memory, order, s'.disk)
  {
    match step
    case LogWrite(line, sync) =>
    case Sync =>
    case Snapshot =>
      SnapshotCompletes(s);
      SavedDirectory(s);
    case SnapshotAndCompact(order) =>
      OrderInMemory(s.memory, order);
      SavedDirectory(s);
      CompactionLeaves(s, order);
      assert After(s, step) == System(s.memory, Compacting(s, order).files, Compacting(s, order).synced);
  }

  lemma SnapshotCompletes(s: System)
    requires Possible(s, Snapshot)
    ensures After(s, Snapshot) == System(s.memory, Saved(s), s.synced)
  {
    SaveEnds(s);
    assert Moments(s, Snapshot) == SaveMoments(s);
  }

  lemma SavedDirectory(s: System)
    ensures Snapshotted(s.disk, s.memory, Saved(s))
  {
    SaveEffect(s.disk, s.memory);
  }

  lemma SaveEnds(s: System)
    ensures SaveMoments(s)[|SaveMoments(s)| - 1] == Moment(Saved(s), s.synced)
  {
    TraceEnds(s.disk, SaveOps(s.disk, s.memory));
  }

  /** The last moment of a compaction. */
  function Compacting(s: System, order: seq<string>): Moment
    requires Quorums.Members(order) == s.memory.Keys
  {
    CompactMoments(s, order)[|CompactMoments(s, order)| - 1]
  }

  lemma CompactionLeaves(s: System, order: seq<string>)
    requires Possible(s, SnapshotAndCompact(order))
    ensures forall key :: key in order ==> key in s.memory
    ensures Compacted(Saved(s), LoggedLines(s.disk), s.memory, order, Compacting(s, order).files)
    ensures Compacting(s, order).synced == |order|
  {
    OrderInMemory(s.memory, order);
    SaveKeepsLog(s);
    CompactEffect(Saved(s), s.memory, order);
    TraceEnds(Saved(s), CompactOps(Saved(s), s.memory, order));
    LinesInOrder(s.memory, order);
  }

  lemma SaveKeepsLog(s: System)
    requires AOF in s.disk && s.disk[AOF].Lines?
    ensures AOF in Saved(s) && Saved(s)[AOF] == s.disk[AOF]
  {
    SavedDirectory(s);
  }

  /** What a crash keeps: the first n lines of the log. */
  function Keep(files: Directory, n: nat): Directory {
    if AOF in files && files[AOF].Lines? && n <= |files[AOF].lines| then
      files[AOF := Lines(files[AOF].lines[..n])]
    else
      files
  }

  predicate MayKeep(m: Moment, n: nat) {
    m.synced <= n <= |LoggedLines(m.files)|
  }

  /** Starting again also opens the log for appending, which creates an empty one if needed. */
  function Restart(d: Directory): System {
    System(Recover(d), if AOF in d then Loaded(d) else Loaded(d)[AOF := Lines([])], |LoggedLines(d)|)
  }

  /** The log alone gives what is recovered. */
  predicate LogSuffices(d: Directory) {
    Recover(d) == Replay(map[], LoggedLines(d))
  }

  /** A step that completes, or one that a crash cuts short, followed by a restart. */
  datatype Event = Completed(step: Step) | Crashed(step: Step, point: nat, kept: nat)

  predicate Happens(s: System, e: Event) {
    && Possible(s, e.step)
    && (e.Crashed? ==>
          && e.point < |Moments(s, e.step)| && MayKeep(Moments(s, e.step)[e.point], e.kept)
          && LogSuffices(Left(s, e)))
  }

  /** The directory the crash leaves. */
  function Left(s: System, e: Event): Directory
    requires Possible(s, e.step) && e.Crashed? && e.point < |Moments(s, e.step)|
  {
    Keep(Moments(s, e.step)[e.point].files, e.kept)
  }

  function Next(s: System, e: Event): System
    requires Happens(s, e)
  {
    if e.Completed? then After(s, e.step) else Restart(Left(s, e))
  }

  /** A run; every crash in it leaves a log that suffices. */
  function Run(s: System, events: seq<Event>): Option<System> {
    if events == [] then Some(s)
    else
      var before, e := Run(s, events[..|events| - 1]), events[|events| - 1];
      if before.Some? && Happens(before.value, e) then Some(Next(before.value, e)) else None
  }

  // ----------------------------------------------------------------- the history

  /** The lines appended by some moment of a step. */
  function HistoryAt(h: seq<Line>, step: Step, i: nat): seq<Line> {
    if step.LogWrite? && i >= 1 then h + [step.line] else h
  }

  /** A crash takes the lines that it does not keep out of the history. */
  function HistoryAfter(s: System, h: seq<Line>, e: Event): seq<Line>
    requires Happens(s, e)
  {
    match e
    case Completed(step) => HistoryAt(h, step, 1)
    case Crashed(step, i, n) => Survived(Moments(s, step)[i], HistoryAt(h, step, i), n)
  }

  /** The history without the lines that are lost. */
  function Survived(m: Moment, h: seq<Line>, n: nat): seq<Line> {
    var lost := |LoggedLines(m.files)| - n;
    if 0 <= lost <= |h| then h[..|h| - lost] else h
  }

  /** Every line appended in a run from the fresh state and not lost in an earlier crash. */
  function History(start: System, events: seq<Event>): seq<Line> {
    if events == [] then []
    else
      var front, e := events[..|events| - 1], events[|events| - 1];
      var before := Run(start, front);
      if before.Some? && Happens(before.value, e) then HistoryAfter(before.value, History(start, front), e) else []
  }

  // ------------------------------------------------------- replaying in two parts

  lemma {:induction false} ReplaySplit(t: Table, a: seq<Line>, b: seq<Line>)
    ensures Replay(t, a + b) == Replay(Replay(t, a), b)
  {
    if b == [] {
      assert a + b == a;
    } else {
      var n := |b| - 1;
      ReplaySplit(t, a, b[..n]);
      ReplayOneMore(t, a + b[..n], b[n]);
      assert a + b == a + b[..n] + [b[n]];
    }
  }

  lemma MentionedSplit(a: seq<Line>, b: seq<Line>)
    ensures Mentioned(a + b) == Mentioned(a) + Mentioned(b)
  {
    var ab := a + b;
    forall i | 0 <= i < |a| ensures a[i].key in Mentioned(ab) { assert ab[i] == a[i]; }
    forall i | 0 <= i < |b| ensures b[i].key in Mentioned(ab) { assert ab[|a| + i] == b[i]; }
  }

  lemma ProperSplit(a: seq<Line>, b: seq<Line>)
    ensures ProperLines(a + b) <==> ProperLines(a) && ProperLines(b)
  {
    var ab := a + b;
    if ProperLines(ab) {
      forall i | 0 <= i < |a| ensures ProperLine(a[i]) { assert ab[i] == a[i]; }
      forall i | 0 <= i < |b| ensures ProperLine(b[i]) { assert ab[|a| + i] == b[i]; }
    }
  }

  lemma ProperPrefix(lines: seq<Line>, n: nat)
    requires ProperLines(lines) && n <= |lines|
    ensures ProperLines(lines[..n]) && ProperLines(lines[n..])
  {}

  /** The last line about a mentioned key. */
  lemma LastLine(t: Table, lines: seq<Line>, p: nat) returns (q: nat)
    requires ProperLines(lines) && p < |lines|
    ensures p <= q < |lines| && lines[q].key == lines[p].key
    ensures Find(Replay(t, lines), lines[p].key) == Effect(lines[q])
  {
    ReplayDecides(t, lines, lines[p].key);
    q :| LastAbout(lines, lines[p].key, q) && Find(Replay(t, lines), lines[p].key) == Effect(lines[q]);
  }

  lemma ReplayVersions(lines: seq<Line>)
    requires ProperLines(lines)
    ensures forall key :: key in Replay(map[], lines) ==> Replay(map[], lines)[key].version >= 1
  {
    var t := Replay(map[], lines);
    forall key | key in t ensures t[key].version >= 1 {
      ReplayDecides(map[], lines, key);
      var q: nat :| LastAbout(lines, key, q) && Find(t, key) == Effect(lines[q]);
      assert ProperLine(lines[q]);
    }
  }

  // --------------------------------------------------------------- the invariant

  /** The log is what a compaction made of the first b lines of the history, followed by the
      rest of the history. */
  ghost predicate LogFits(lines: seq<Line>, h: seq<Line>, b: nat, made: seq<Line>) {
    && b <= |h| && lines == made + h[b..] && ProperLines(made) && ProperLines(h)
    && Replay(map[], made) == Replay(map[], h[..b])
    && Mentioned(made) == Replay(map[], h[..b]).Keys
  }

  /** The snapshot was taken after some line of the history that follows the compaction, or
      it holds no key that the stable part of the log does not mention. */
  ghost predicate SnapshotFits(table: Table, lines: seq<Line>, synced: nat, h: seq<Line>, b: nat) {
    || (exists j: nat :: TakenAt(table, h, b, j))
    || (synced <= |lines| && table.Keys <= Mentioned(lines[..synced]))
  }

  ghost predicate TakenAt(table: Table, h: seq<Line>, b: nat, j: nat) {
    b <= j <= |h| && table == Replay(map[], h[..j])
  }

  ghost predicate FitsWith(m: Moment, h: seq<Line>, b: nat, made: seq<Line>) {
    && AOF in m.files && m.files[AOF].Lines? && LogFits(m.files[AOF].lines, h, b, made)
    && |made| <= m.synced <= |m.files[AOF].lines|
    && (SNAPSHOT in m.files ==> m.files[SNAPSHOT].Image?)
    && (SNAPSHOT in m.files ==> SnapshotFits(m.files[SNAPSHOT].table, m.files[AOF].lines, m.synced, h, b))
  }

  /** Without a log, the snapshot has it all. */
  ghost predicate OnlySnapshot(m: Moment, h: seq<Line>) {
    && AOF !in m.files && m.synced == 0 && ProperLines(h)
    && SNAPSHOT in m.files && m.files[SNAPSHOT] == Image(Replay(map[], h))
  }

  ghost predicate Fits(m: Moment, h: seq<Line>) {
    OnlySnapshot(m, h) || exists b: nat, made :: FitsWith(m, h, b, made)
  }

  ghost predicate Sound(s: System, h: seq<Line>) {
    && AOF in s.disk && Fits(Moment(s.disk, s.synced), h) && ProperLines(h)
    && s.memory == Replay(map[], h)
  }

  lemma FreshIsSound()
    ensures Sound(FRESH, [])
  {
    assert FitsWith(Moment(FRESH.disk, 0), [], 0, []);
  }

  // --------------------------------------------------------- the invariant is kept

  lemma LogWriteFits(d: Directory, synced: nat, h: seq<Line>, b: nat, made: seq<Line>, line: Line, synced': nat)
    requires FitsWith(Moment(d, synced), h, b, made) && ProperLine(line)
    requires synced <= synced' <= |LoggedLines(d)| + 1
    ensures FitsWith(Moment(AppendLine(d, line), synced'), h + [line], b, made)
  {
    var lines, h' := d[AOF].lines, h + [line];
    assert h'[..b] == h[..b] && lines + [line] == made + h'[b..];
    if SNAPSHOT in d { SnapshotStillFits(d[SNAPSHOT].table, lines, synced, h, b, line, synced'); }
  }

  lemma SnapshotStillFits(table: Table, lines: seq<Line>, synced: nat, h: seq<Line>, b: nat, line: Line, synced': nat)
    requires SnapshotFits(table, lines, synced, h, b) && synced <= |lines| && synced <= synced' <= |lines| + 1
    ensures SnapshotFits(table, lines + [line], synced', h + [line], b)
  {
    if j: nat :| TakenAt(table, h, b, j) {
      assert (h + [line])[..j] == h[..j];
      assert TakenAt(table, h + [line], b, j);
    } else {
      MentionedPrefix(lines + [line], synced, synced');
      assert (lines + [line])[..synced] == lines[..synced];
    }
  }

  lemma MentionedPrefix(lines: seq<Line>, m: nat, n: nat)
    requires m <= n <= |lines|
    ensures Mentioned(lines[..m]) <= Mentioned(lines[..n])
  {
    MentionedSplit(lines[..m], lines[m..n]);
    assert lines[..n] == lines[..m] + lines[m..n];
  }

  lemma SyncFits(d: Directory, synced: nat, h: seq<Line>, b: nat, made: seq<Line>)
    requires FitsWith(Moment(d, synced), h, b, made)
    ensures FitsWith(Moment(d, |LoggedLines(d)|), h, b, made)
  {
    var lines := d[AOF].lines;
    if SNAPSHOT in d && !(exists j: nat :: TakenAt(d[SNAPSHOT].table, h, b, j)) {
      MentionedPrefix(lines, synced, |lines|);
    }
  }

  lemma SavePointFits(s: System, h: seq<Line>, b: nat, made: seq<Line>, d: Directory)
    requires FitsWith(Moment(s.disk, s.synced), h, b, made) && s.memory == Replay(map[], h)
    requires SavePoint(s.disk, s.memory, d)
    ensures FitsWith(Moment(d, s.synced), h, b, made)
  {
    if SNAPSHOT in d && d[SNAPSHOT] == Image(s.memory) {
      assert h[..|h|] == h;
      assert TakenAt(s.memory, h, b, |h|);
    }
  }

  lemma AllKeysRebuilt(memory: Table, order: seq<string>)
    requires Quorums.Members(order) == memory.Keys
    requires forall key :: key in order ==> key in memory && memory[key].version >= 1
    ensures var lines := LinesOf(memory, order);
            ProperLines(lines) && Mentioned(lines) == memory.Keys && Replay(map[], lines) == memory
  {
    LinesOfRebuild(memory, order);
    assert (map key | key in Quorums.Members(order) :: memory[key]) == memory;
  }

  /** The rewritten log stands for the whole history. */
  lemma RewrittenFits(memory: Table, h: seq<Line>, order: seq<string>)
    requires ProperLines(h) && memory == Replay(map[], h) && Quorums.Members(order) == memory.Keys
    ensures forall key :: key in order ==> key in memory
    ensures LogFits(LinesOf(memory, order), h, |h|, LinesOf(memory, order))
  {
    OrderInMemory(memory, order);
    ReplayVersions(h);
    AllKeysRebuilt(memory, order);
    WholeHistory(LinesOf(memory, order), h);
  }

  lemma WholeHistory(made: seq<Line>, h: seq<Line>)
    requires ProperLines(made) && ProperLines(h)
    requires Replay(map[], made) == Replay(map[], h) && Mentioned(made) == Replay(map[], h).Keys
    ensures LogFits(made, h, |h|, made)
  {
    assert h[..|h|] == h && made + h[|h|..] == made;
  }

  lemma CompactPointFits(memory: Table, saved: Directory, h: seq<Line>, b: nat, made: seq<Line>, order: seq<string>,
      d: Directory)
    requires FitsWith(Moment(saved, |LoggedLines(saved)|), h, b, made) && memory == Replay(map[], h)
    requires Quorums.Members(order) == memory.Keys && SNAPSHOT in saved && saved[SNAPSHOT] == Image(memory)
    requires forall key :: key in order ==> key in memory
    requires CompactPoint(saved, LinesOf(memory, order), d)
    ensures Fits(Moment(d, |LoggedLines(d)|), h)
  {
    if AOF !in d {
    } else if d[AOF] == saved[AOF] {
      assert FitsWith(Moment(d, |LoggedLines(d)|), h, b, made);
    } else {
      RewrittenFits(memory, h, order);
      assert h[..|h|] == h;
      assert TakenAt(memory, h, |h|, |h|);
      assert FitsWith(Moment(d, |LoggedLines(d)|), h, |h|, LinesOf(memory, order));
    }
  }

  /** With a log the invariant is about some compaction. */
  lemma FitsWithLog(m: Moment, h: seq<Line>) returns (b: nat, made: seq<Line>)
    requires Fits(m, h) && AOF in m.files
    ensures FitsWith(m, h, b, made)
  {
    b, made :| FitsWith(m, h, b, made);
  }

  lemma SaveMomentFits(s: System, h: seq<Line>, i: nat)
    requires Sound(s, h) && i < |SaveMoments(s)|
    ensures Fits(SaveMoments(s)[i], h)
  {
    var b, made := FitsWithLog(Moment(s.disk, s.synced), h);
    SaveIsSafe(s.disk, s.memory);
    SavePointFits(s, h, b, made, Trace(s.disk, SaveOps(s.disk, s.memory))[i]);
  }

  lemma SavedFits(s: System, h: seq<Line>) returns (b: nat, made: seq<Line>)
    requires Sound(s, h)
    ensures FitsWith(Moment(Saved(s), s.synced), h, b, made)
    ensures SNAPSHOT in Saved(s) && Saved(s)[SNAPSHOT] == Image(s.memory)
            && LoggedLines(Saved(s)) == LoggedLines(s.disk)
  {
    b, made := FitsWithLog(Moment(s.disk, s.synced), h);
    SaveIsSafe(s.disk, s.memory);
    SavePointFits(s, h, b, made, Saved(s));
  }

  lemma CompactMomentFits(s: System, h: seq<Line>, order: seq<string>, i: nat)
    requires Sound(s, h) && Quorums.Members(order) == s.memory.Keys && i < |CompactMoments(s, order)|
    ensures Fits(CompactMoments(s, order)[i], h)
  {
    OrderInMemory(s.memory, order);
    var b, made := SavedFits(s, h);
    SyncFits(Saved(s), s.synced, h, b, made);
    CompactIsSafe(Saved(s), s.memory, order);
    CompactPointFits(s.memory, Saved(s), h, b, made, order, Trace(Saved(s), CompactOps(Saved(s), s.memory, order))[i]);
  }

  lemma LogWriteMomentFits(s: System, h: seq<Line>, line: Line, synced': nat)
    requires Sound(s, h) && ProperLine(line) && s.synced <= synced' <= |LoggedLines(s.disk)| + 1
    ensures Fits(Moment(AppendLine(s.disk, line), synced'), h + [line])
  {
    var b, made := FitsWithLog(Moment(s.disk, s.synced), h);
    LogWriteFits(s.disk, s.synced, h, b, made, line, synced');
  }

  lemma SyncMomentFits(s: System, h: seq<Line>)
    requires Sound(s, h)
    ensures Fits(Moment(s.disk, |LoggedLines(s.disk)|), h)
    ensures s.synced <= |LoggedLines(s.disk)|
  {
    var b, made := FitsWithLog(Moment(s.disk, s.synced), h);
    SyncFits(s.disk, s.synced, h, b, made);
  }

  lemma WriteMomentsFit(s: System, h: seq<Line>, step: Step, i: nat)
    requires Sound(s, h) && Possible(s, step) && step.LogWrite? && i < |Moments(s, step)|
    ensures Fits(Moments(s, step)[i], HistoryAt(h, step, i))
  {
    var lines := LoggedLines(s.disk);
    assert |LoggedLines(AppendLine(s.disk, step.line))| == |lines| + 1;
    SyncMomentFits(s, h);
    if i == 1 {
      LogWriteMomentFits(s, h, step.line, s.synced);
    } else if i == 2 {
      LogWriteMomentFits(s, h, step.line, |lines| + 1);
    }
  }

  lemma BothMomentsFit(s: System, h: seq<Line>, step: Step, i: nat)
    requires Sound(s, h) && Possible(s, step) && step.SnapshotAndCompact? && i < |Moments(s, step)|
    ensures Fits(Moments(s, step)[i], h)
  {
    if i < |SaveMoments(s)| {
      SaveMomentFits(s, h, i);
    } else {
      CompactMomentFits(s, h, step.order, i - |SaveMoments(s)|);
    }
  }

  /** At every moment of every step the files fit the history. */
  lemma MomentFits(s: System, h: seq<Line>, step: Step, i: nat)
    requires Sound(s, h) && Possible(s, step) && i < |Moments(s, step)|
    ensures Fits(Moments(s, step)[i], HistoryAt(h, step, i))
  {
    match step
    case LogWrite(_, _) => WriteMomentsFit(s, h, step, i);
    case Sync => SyncMomentFits(s, h);
    case Snapshot => SaveMomentFits(s, h, i);
    case SnapshotAndCompact(_) => BothMomentsFit(s, h, step, i);
  }

  lemma {:induction false} TraceEnds(d: Directory, ops: seq<Op>)
    ensures Trace(d, ops)[|ops|] == ExecAll(d, ops)
    decreases |ops|
  {
    TracePoint(d, ops, []);
    assert ops + [] == ops;
  }

  lemma LastMomentHasLog(s: System, step: Step)
    requires Possible(s, step)
    ensures var ms := Moments(s, step); AOF in ms[|ms| - 1].files
  {
    match step
    case LogWrite(_, _) =>
    case Sync =>
    case Snapshot =>
      SaveIsSafe(s.disk, s.memory);
      TraceEnds(s.disk, SaveOps(s.disk, s.memory));
    case SnapshotAndCompact(order) =>
      OrderInMemory(s.memory, order);
      CompactIsSafe(Saved(s), s.memory, order);
      TraceEnds(Saved(s), CompactOps(Saved(s), s.memory, order));
  }

  lemma StepIsSound(s: System, h: seq<Line>, step: Step)
    requires Sound(s, h) && Possible(s, step)
    ensures Sound(After(s, step), HistoryAt(h, step, 1))
  {
    var last := |Moments(s, step)| - 1;
    MomentFits(s, h, step, last);
    LastMomentHasLog(s, step);
    MemoryFollows(s, h, step);
  }

  lemma MemoryFollows(s: System, h: seq<Line>, step: Step)
    requires Possible(s, step) && ProperLines(h) && s.memory == Replay(map[], h)
    ensures ProperLines(HistoryAt(h, step, 1)) && After(s, step).memory == Replay(map[], HistoryAt(h, step, 1))
    ensures step.LogWrite? ==> |Moments(s, step)| >= 2
  {
    if step.LogWrite? {
      ReplayOneMore(map[], h, step.line);
      ProperSplit(h, [step.line]);
    }
  }

  // ------------------------------------------------------------ what a crash keeps

  /** The kept lines are the compacted ones and the surviving rest of the history. */
  lemma KeptLines(m: Moment, h: seq<Line>, b: nat, made: seq<Line>, n: nat)
    requires FitsWith(m, h, b, made) && MayKeep(m, n)
    ensures var e := |Survived(m, h, n)|;
            && b <= e <= |h| && Survived(m, h, n) == h[..e]
            && LoggedLines(Keep(m.files, n)) == LoggedLines(m.files)[..n] == made + h[b..e]
    ensures LogFits(LoggedLines(Keep(m.files, n)), Survived(m, h, n), b, made)
  {
    var lines := m.files[AOF].lines;
    var e := |h| - (|lines| - n);
    assert Survived(m, h, n) == h[..e];
    assert h[..e][..b] == h[..b] && h[..e][b..] == h[b..e];
    assert lines[..n] == made + h[b..e];
    ProperPrefix(h, e);
  }

  /** Plain replay of the log is plain replay of the history. */
  lemma LogGivesHistory(lines: seq<Line>, h: seq<Line>, b: nat, made: seq<Line>)
    requires LogFits(lines, h, b, made)
    ensures Replay(map[], lines) == Replay(map[], h) && ProperLines(lines)
  {
    ReplaySplit(map[], made, h[b..]);
    ReplaySplit(map[], h[..b], h[b..]);
    assert h[..b] + h[b..] == h;
    ProperPrefix(h, b);
    ProperSplit(made, h[b..]);
  }

  function SnapshotOf(d: Directory): Table {
    if SNAPSHOT in d && d[SNAPSHOT].Image? then d[SNAPSHOT].table else map[]
  }

  lemma RecoverFromKept(m: Moment, h: seq<Line>, n: nat)
    requires Fits(m, h) && MayKeep(m, n)
    ensures Recover(Keep(m.files, n)) == Replay(SnapshotOf(m.files), LoggedLines(m.files)[..n])
  {
    if AOF in m.files { var b, made := FitsWithLog(m, h); }
    assert LoggedLines(Keep(m.files, n)) == LoggedLines(m.files)[..n];
    assert Load(Keep(m.files, n)) == Load(m.files);
  }

  // ------------------------------------------------------------- durable prefix

  /** No key of the snapshot is unknown to the first n lines of the log. */
  predicate SnapshotCovered(m: Moment, n: nat)
    requires n <= |LoggedLines(m.files)|
  {
    SnapshotOf(m.files).Keys <= Mentioned(LoggedLines(m.files)[..n])
  }

  /** Recovery at a moment, exactly: it gives the surviving history, no more and no less, if
      and only if the kept lines mention every key of the snapshot, or there is no log and
      the snapshot holds the whole history. */
  lemma RecoversHistoryExactly(m: Moment, h: seq<Line>, n: nat)
    requires Fits(m, h) && MayKeep(m, n)
    ensures Recover(Keep(m.files, n)) == Replay(map[], Survived(m, h, n)) <==> AOF !in m.files || SnapshotCovered(m, n)
  {
    RecoverFromKept(m, h, n);
    if AOF in m.files {
      var b, made := FitsWithLog(m, h);
      KeptLines(m, h, b, made, n);
      LogGivesHistory(LoggedLines(m.files)[..n], Survived(m, h, n), b, made);
      ReplayIgnoresSnapshot(SnapshotOf(m.files), LoggedLines(m.files)[..n]);
    } else {
      assert h[..|h|] == h;
    }
  }

  lemma ReplayKeys(t: Table, lines: seq<Line>)
    requires ProperLines(lines)
    ensures Replay(t, lines).Keys <= t.Keys + Mentioned(lines)
  {
    forall key | key in Replay(t, lines) ensures key in t || key in Mentioned(lines) {
      SameFromAnywhere(t, lines, key);
    }
  }

  /** A key of a past state of the history is mentioned in what the log keeps of it. */
  lemma PastKeysMentioned(h: seq<Line>, b: nat, made: seq<Line>, j: nat, e: nat)
    requires ProperLines(h) && b <= j <= e <= |h|
    requires Mentioned(made) == Replay(map[], h[..b]).Keys
    ensures Replay(map[], h[..j]).Keys <= Mentioned(made + h[b..e])
  {
    PastKeys(h, b, j);
    MentionedSplit(made, h[b..e]);
    MentionedWider(h, b, j, e);
  }

  lemma MentionedWider(h: seq<Line>, b: nat, j: nat, e: nat)
    requires b <= j <= e <= |h|
    ensures Mentioned(h[b..j]) <= Mentioned(h[b..e])
  {
    MentionedSplit(h[b..j], h[j..e]);
    assert h[b..e] == h[b..j] + h[j..e];
  }

  lemma PastKeys(h: seq<Line>, b: nat, j: nat)
    requires ProperLines(h) && b <= j <= |h|
    ensures Replay(map[], h[..j]).Keys <= Replay(map[], h[..b]).Keys + Mentioned(h[b..j])
  {
    assert h[..j] == h[..b] + h[b..j];
    ProperSplit(h[..b], h[b..j]);
    ProperPrefix(h, j);
    ReplaySplit(map[], h[..b], h[b..j]);
    ReplayKeys(Replay(map[], h[..b]), h[b..j]);
  }

  /** A snapshot that is not ahead of the kept lines is covered by them. */
  lemma SnapshotNotAhead(m: Moment, h: seq<Line>, b: nat, made: seq<Line>, n: nat, j: nat)
    requires FitsWith(m, h, b, made) && MayKeep(m, n) && SNAPSHOT in m.files
    requires TakenAt(m.files[SNAPSHOT].table, h, b, j) && j <= |Survived(m, h, n)|
    ensures SnapshotCovered(m, n)
  {
    KeptLines(m, h, b, made, n);
    PastKeysMentioned(h, b, made, j, |Survived(m, h, n)|);
  }

  /** When nothing is lost the snapshot is covered. */
  lemma NothingLost(m: Moment, h: seq<Line>)
    requires Fits(m, h) && AOF in m.files
    ensures MayKeep(m, |LoggedLines(m.files)|) && SnapshotCovered(m, |LoggedLines(m.files)|)
    ensures Survived(m, h, |LoggedLines(m.files)|) == h
  {
    var b, made := FitsWithLog(m, h);
    var lines := m.files[AOF].lines;
    assert lines[..|lines|] == lines && h[..|h|] == h;
    if SNAPSHOT in m.files {
      if j: nat :| TakenAt(m.files[SNAPSHOT].table, h, b, j) {
        SnapshotNotAhead(m, h, b, made, |lines|, j);
      } else {
        MentionedPrefix(lines, m.synced, |lines|);
      }
    }
  }

  // ---------------------------------------------------------- exactly the memory

  /** Losing the lines from n on does no harm to the key: the last of them about the key says
      what the kept lines say, or, if those do not mention it, what the snapshot holds. */
  ghost predicate Harmless(m: Moment, n: nat, key: string)
    requires n <= |LoggedLines(m.files)|
  {
    var lines := LoggedLines(m.files);
    Find(Replay(map[], lines[n..]), key)
    == if key in Mentioned(lines[..n]) then Find(Replay(map[], lines[..n]), key) else Find(SnapshotOf(m.files), key)
  }

  lemma KeyAfterLoss(snapshot: Table, lines: seq<Line>, n: nat, key: string)
    requires ProperLines(lines) && n <= |lines|
    ensures Find(Replay(snapshot, lines[..n]), key)
            == if key in Mentioned(lines[..n]) then Find(Replay(map[], lines[..n]), key) else Find(snapshot, key)
    ensures Find(Replay(map[], lines), key)
            == if key in Mentioned(lines[n..]) then Find(Replay(map[], lines[n..]), key)
               else Find(Replay(map[], lines[..n]), key)
  {
    ProperPrefix(lines, n);
    SameFromAnywhere(snapshot, lines[..n], key);
    ReplaySplit(map[], lines[..n], lines[n..]);
    assert lines[..n] + lines[n..] == lines;
    SameFromAnywhere(Replay(map[], lines[..n]), lines[n..], key);
  }

  /** For a mentioned key the starting table does not matter. */
  lemma SameFromAnywhere(t: Table, lines: seq<Line>, key: string)
    requires ProperLines(lines)
    ensures Find(Replay(t, lines), key)
            == if key in Mentioned(lines) then Find(Replay(map[], lines), key) else Find(t, key)
  {
    ReplayDecides(t, lines, key);
    ReplayDecides(map[], lines, key);
    if key in Mentioned(lines) {
      var p: nat :| LastAbout(lines, key, p) && Find(Replay(t, lines), key) == Effect(lines[p]);
      var q: nat :| LastAbout(lines, key, q) && Find(Replay(map[], lines), key) == Effect(lines[q]);
      LastAboutUnique(lines, key, p, q);
    }
  }

  /** Recovery at a moment gives the memory of that moment if and only if no lost line is
      missed: each key that a lost line mentions is as the last of them says all the same. */
  lemma RecoversMemoryExactly(m: Moment, h: seq<Line>, n: nat)
    requires Fits(m, h) && MayKeep(m, n)
    ensures Recover(Keep(m.files, n)) == Replay(map[], h)
            <==> forall key :: key in Mentioned(LoggedLines(m.files)[n..]) ==> Harmless(m, n, key)
  {
    RecoverFromKept(m, h, n);
    var lines, snapshot := LoggedLines(m.files), SnapshotOf(m.files);
    if AOF in m.files {
      var b, made := FitsWithLog(m, h);
      LogGivesHistory(lines, h, b, made);
      NothingLost(m, h);
      assert lines[..|lines|] == lines;
      LossExactly(m, n);
    }
  }

  lemma LossExactly(m: Moment, n: nat)
    requires var lines := LoggedLines(m.files);
             n <= |lines| && ProperLines(lines) && SnapshotOf(m.files).Keys <= Mentioned(lines)
    ensures var lines := LoggedLines(m.files);
            Replay(SnapshotOf(m.files), lines[..n]) == Replay(map[], lines)
            <==> forall key :: key in Mentioned(lines[n..]) ==> Harmless(m, n, key)
  {
    var lines, snapshot := LoggedLines(m.files), SnapshotOf(m.files);
    var got, want := Replay(snapshot, lines[..n]), Replay(map[], lines);
    forall key ensures Find(got, key) == Find(want, key) <==> (key in Mentioned(lines[n..]) ==> Harmless(m, n, key)) {
      LossOfKey(m, n, key);
    }
    if forall key :: key in Mentioned(lines[n..]) ==> Harmless(m, n, key) { SameEverywhere(got, want); }
  }

  lemma LossOfKey(m: Moment, n: nat, key: string)
    requires var lines := LoggedLines(m.files);
             n <= |lines| && ProperLines(lines) && SnapshotOf(m.files).Keys <= Mentioned(lines)
    ensures var lines := LoggedLines(m.files);
            Find(Replay(SnapshotOf(m.files), lines[..n]), key) == Find(Replay(map[], lines), key)
            <==> (key in Mentioned(lines[n..]) ==> Harmless(m, n, key))
  {
    var lines := LoggedLines(m.files);
    KeyAfterLoss(SnapshotOf(m.files), lines, n, key);
    MentionedSplit(lines[..n], lines[n..]);
    assert lines[..n] + lines[n..] == lines;
    ProperPrefix(lines, n);
    ReplayDecides(map[], lines[..n], key);
  }

  // ------------------------------------------------------- synced lines show

  /** How many lines of the history are safe at a moment. */
  function SafeLines(m: Moment, h: seq<Line>): int {
    if AOF in m.files then |h| - (|LoggedLines(m.files)| - m.synced) else |h|
  }

  /** Some line about the key at or after position p of the history says what the table holds. */
  ghost predicate ShownBy(t: Table, h: seq<Line>, p: nat, q: nat)
    requires p < |h|
  {
    p <= q < |h| && h[q].key == h[p].key && Find(t, h[p].key) == Effect(h[q])
  }

  lemma ShownInPrefix(t: Table, h: seq<Line>, e: nat, p: nat) returns (q: nat)
    requires ProperLines(h) && p < e <= |h| && Find(t, h[p].key) == Find(Replay(map[], h[..e]), h[p].key)
    ensures ShownBy(t, h, p, q)
  {
    ProperPrefix(h, e);
    q := LastLine(map[], h[..e], p);
  }

  /** Every line that is safe at the moment shows after the crash: its key ends as that line
      says or as a later line says. */
  lemma SafeLineShows(m: Moment, h: seq<Line>, n: nat, p: nat) returns (q: nat)
    requires Fits(m, h) && MayKeep(m, n) && p < |h| && p < SafeLines(m, h)
    ensures ShownBy(Recover(Keep(m.files, n)), h, p, q)
  {
    RecoverFromKept(m, h, n);
    var t := Recover(Keep(m.files, n));
    if AOF !in m.files {
      assert h[..|h|] == h;
      q := ShownInPrefix(t, h, |h|, p);
    } else {
      var b, made := FitsWithLog(m, h);
      q := SafeLoggedLineShows(m, h, b, made, n, p);
    }
  }

  lemma SafeLoggedLineShows(m: Moment, h: seq<Line>, b: nat, made: seq<Line>, n: nat, p: nat) returns (q: nat)
    requires FitsWith(m, h, b, made) && MayKeep(m, n) && p < |h| && p < SafeLines(m, h)
    ensures ShownBy(Replay(SnapshotOf(m.files), LoggedLines(m.files)[..n]), h, p, q)
  {
    var kept, e, key := LoggedLines(m.files)[..n], |Survived(m, h, n)|, h[p].key;
    KeptLines(m, h, b, made, n);
    LogGivesHistory(kept, h[..e], b, made);
    SameFromAnywhere(SnapshotOf(m.files), kept, key);
    var t := Replay(SnapshotOf(m.files), kept);
    if key in Mentioned(kept) {
      q := ShownInPrefix(t, h, e, p);
    } else {
      UnmentionedIsOld(made, h, b, e, p);
      q := OldLineShows(m, h, b, made, n, p, t);
    }
  }

  lemma UnmentionedIsOld(made: seq<Line>, h: seq<Line>, b: nat, e: nat, p: nat)
    requires b <= e <= |h| && p < e && h[p].key !in Mentioned(made + h[b..e])
    ensures p < b && h[p].key !in Mentioned(made)
  {
    MentionedSplit(made, h[b..e]);
    LineMentioned(h, b, e, p);
  }

  lemma LineMentioned(h: seq<Line>, b: nat, e: nat, p: nat)
    requires b <= e <= |h|
    ensures b <= p < e ==> h[p].key in Mentioned(h[b..e])
  {
    if b <= p < e { assert h[b..e][p - b] == h[p]; }
  }

  /** The line was compacted away, and the kept lines do not mention its key. */
  lemma OldLineShows(m: Moment, h: seq<Line>, b: nat, made: seq<Line>, n: nat, p: nat, t: Table) returns (q: nat)
    requires FitsWith(m, h, b, made) && MayKeep(m, n) && p < b
    requires h[p].key !in Mentioned(made) && h[p].key !in Mentioned(LoggedLines(m.files)[..n])
    requires Find(t, h[p].key) == Find(SnapshotOf(m.files), h[p].key)
    ensures ShownBy(t, h, p, q)
  {
    var key := h[p].key;
    if SNAPSHOT in m.files && exists j: nat :: TakenAt(m.files[SNAPSHOT].table, h, b, j) {
      var j: nat :| TakenAt(m.files[SNAPSHOT].table, h, b, j);
      q := ShownInPrefix(t, h, j, p);
    } else {
      if SNAPSHOT in m.files { MentionedPrefix(LoggedLines(m.files), m.synced, n); }
      assert key !in SnapshotOf(m.files) && key !in Replay(map[], h[..b]);
      q := ShownInPrefix(t, h, b, p);
    }
  }

  // ------------------------------------------------------------- whole-run theorems

  lemma RestartIsSound(m: Moment, h: seq<Line>, n: nat)
    requires Fits(m, h) && ProperLines(h) && MayKeep(m, n) && LogSuffices(Keep(m.files, n))
    ensures Sound(Restart(Keep(m.files, n)), Survived(m, h, n))
  {
    var d := Keep(m.files, n);
    var s, h' := Restart(d), Survived(m, h, n);
    if AOF in m.files {
      var b, made := FitsWithLog(m, h);
      KeptLines(m, h, b, made, n);
      LogGivesHistory(LoggedLines(d), h', b, made);
      RecoverFromKept(m, h, n);
      ReplayIgnoresSnapshot(SnapshotOf(m.files), LoggedLines(d));
      assert LoggedLines(d)[..n] == LoggedLines(d);
      assert FitsWith(Moment(s.disk, s.synced), h', b, made);
    } else {
      EmptyRestart(m, h, n);
    }
  }

  lemma EmptyRestart(m: Moment, h: seq<Line>, n: nat)
    requires OnlySnapshot(m, h) && MayKeep(m, n) && LogSuffices(Keep(m.files, n))
    ensures Sound(Restart(Keep(m.files, n)), Survived(m, h, n))
  {
    var s := Restart(m.files);
    assert h[..|h|] == h && h[|h|..] == [];
    assert Replay(map[], h) == map[];
    assert [] + h[|h|..] == [];
    var none: seq<Line> := [];
    assert none[..0] == none;
    assert FitsWith(Moment(s.disk, s.synced), h, |h|, []);
  }

  lemma EventIsSound(s: System, h: seq<Line>, e: Event)
    requires Sound(s, h) && Happens(s, e)
    ensures Sound(Next(s, e), HistoryAfter(s, h, e))
  {
    match e
    case Completed(step) => StepIsSound(s, h, step);
    case Crashed(step, i, n) =>
      MomentFits(s, h, step, i);
      if step.LogWrite? { ProperSplit(h, [step.line]); }
      RestartIsSound(Moments(s, step)[i], HistoryAt(h, step, i), n);
  }

  lemma {:induction false} RunIsSound(events: seq<Event>)
    ensures var s := Run(FRESH, events); s.Some? ==> Sound(s.value, History(FRESH, events))
  {
    if events == [] {
      FreshIsSound();
    } else {
      var before, e := Run(FRESH, events[..|events| - 1]), events[|events| - 1];
      RunIsSound(events[..|events| - 1]);
      if before.Some? && Happens(before.value, e) {
        EventIsSound(before.value, History(FRESH, events[..|events| - 1]), e);
      }
    }
  }

  /** A crash of a run: it falls at a moment of a step and keeps n lines of the log. */
  ghost predicate CrashOf(events: seq<Event>, step: Step, i: nat, n: nat) {
    && var s := Run(FRESH, events);
    && s.Some? && Possible(s.value, step) && i < |Moments(s.value, step)| && MayKeep(Moments(s.value, step)[i], n)
  }

  function At(events: seq<Event>, step: Step, i: nat): Moment
    requires var s := Run(FRESH, events); s.Some? && Possible(s.value, step) && i < |Moments(s.value, step)|
  {
    Moments(Run(FRESH, events).value, step)[i]
  }

  /** What the node holds in memory at a moment of a step. */
  function MemoryAt(s: System, step: Step, i: nat): Table {
    if step.LogWrite? && i >= 1 then ApplyLine(s.memory, step.line) else s.memory
  }

  lemma CrashFits(events: seq<Event>, step: Step, i: nat, n: nat) returns (h: seq<Line>)
    requires CrashOf(events, step, i, n)
    ensures h == HistoryAt(History(FRESH, events), step, i) && Fits(At(events, step, i), h) && ProperLines(h)
    ensures MemoryAt(Run(FRESH, events).value, step, i) == Replay(map[], h)
  {
    RunIsSound(events);
    var s, h0 := Run(FRESH, events).value, History(FRESH, events);
    MomentFits(s, h0, step, i);
    h := HistoryAt(h0, step, i);
    if step.LogWrite? {
      ReplayOneMore(map[], h0, step.line);
      ProperSplit(h0, [step.line]);
    }
  }

  /** After any run of logged updates, syncs, snapshots and compactions from a fresh
      directory, even with earlier crashes that left a log that suffices, a crash at any
      moment of the next step recovers the memory of that moment exactly when no line it
      loses is missed; in particular whenever it loses none. */
  lemma CrashRecoversMemoryExactly(events: seq<Event>, step: Step, i: nat, n: nat)
    requires CrashOf(events, step, i, n)
    ensures var s, m := Run(FRESH, events).value, At(events, step, i);
            var lines := LoggedLines(m.files);
            && (Recover(Keep(m.files, n)) == MemoryAt(s, step, i)
                <==> forall key :: key in Mentioned(lines[n..]) ==> Harmless(m, n, key))
            && (n == |lines| ==> Recover(Keep(m.files, n)) == MemoryAt(s, step, i))
  {
    var h := CrashFits(events, step, i, n);
    var m := At(events, step, i);
    RecoversMemoryExactly(m, h, n);
    assert LoggedLines(m.files)[|LoggedLines(m.files)|..] == [];
  }

  /** Whatever such a crash loses, every line that was on stable storage still shows, now in
      the log or long compacted away: its key ends as the line says or as a later one says. */
  lemma SyncedLinesShow(events: seq<Event>, step: Step, i: nat, n: nat, p: nat) returns (q: nat)
    requires CrashOf(events, step, i, n)
    requires var h := HistoryAt(History(FRESH, events), step, i); p < |h| && p < SafeLines(At(events, step, i), h)
    ensures ShownBy(Recover(Keep(At(events, step, i).files, n)), HistoryAt(History(FRESH, events), step, i), p, q)
  {
    var h := CrashFits(events, step, i, n);
    q := SafeLineShows(At(events, step, i), h, n, p);
  }

  /** Durable prefix: such a crash recovers exactly what the surviving history gives, if and
      only if the kept lines mention every key of the snapshot, or the log is away and the
      snapshot holds the whole history. */
  lemma DurablePrefix(events: seq<Event>, step: Step, i: nat, n: nat)
    requires CrashOf(events, step, i, n)
    ensures var m, h := At(events, step, i), HistoryAt(History(FRESH, events), step, i);
            Recover(Keep(m.files, n)) == Replay(map[], Survived(m, h, n)) <==> AOF !in m.files || SnapshotCovered(m, n)
  {
    var h := CrashFits(events, step, i, n);
    RecoversHistoryExactly(At(events, step, i), h, n);
  }

  // ------------------------------------------------------ a snapshot that is ahead

  function Sample(text: string, version: int): Item {
    Item(Text(text), version, 1.0, 1.0, "a")
  }

  const OLD := SetLine("k", Sample("old", 1))
  const NEW := SetLine("k", Sample("new", 2))
  const OTHER := SetLine("j", Sample("other", 1))

  /** The run: one line forced to stable storage, two that are not, and a snapshot. */
  const AHEAD := [Completed(LogWrite(OLD, true)), Completed(LogWrite(NEW, false)),
                  Completed(LogWrite(OTHER, false)), Completed(Snapshot)]

  lemma {:induction false} RunOneMore(start: System, events: seq<Event>, e: Event)
    requires Run(start, events).Some? && Happens(Run(start, events).value, e)
    ensures Run(start, events + [e]) == Some(Next(Run(start, events).value, e))
    ensures History(start, events + [e]) == HistoryAfter(Run(start, events).value, History(start, events), e)
  {
    assert (events + [e])[..|events|] == events;
  }

  lemma AfterWrite(s: System, line: Line, sync: bool)
    requires Possible(s, LogWrite(line, sync))
    ensures After(s, LogWrite(line, sync))
            == System(ApplyLine(s.memory, line), AppendLine(s.disk, line),
                      if sync then |LoggedLines(s.disk)| + 1 else s.synced)
  {}

  lemma OneMoreLine(lines: seq<Line>, line: Line)
    ensures LoggedLines(map[AOF := Lines(lines)]) == lines
    ensures AppendLine(map[AOF := Lines(lines)], line) == map[AOF := Lines(lines + [line])]
  {}

  /** One more logged update in a directory that holds only the log. */
  lemma LogOneMore(start: System, events: seq<Event>, memory: Table, lines: seq<Line>, synced: nat, line: Line,
      sync: bool)
    requires Run(start, events) == Some(System(memory, map[AOF := Lines(lines)], synced)) && ProperLine(line)
    ensures var longer := events + [Completed(LogWrite(line, sync))];
            && Run(start, longer)
               == Some(System(ApplyLine(memory, line), map[AOF := Lines(lines + [line])],
                              if sync then |lines| + 1 else synced))
            && History(start, longer) == History(start, events) + [line]
  {
    var s, e := System(memory, map[AOF := Lines(lines)], synced), Completed(LogWrite(line, sync));
    OneMoreLine(lines, line);
    AfterWrite(s, line, sync);
    assert Happens(s, e);
    assert Next(s, e) == After(s, e.step)
      && HistoryAfter(s, History(start, events), e) == History(start, events) + [line];
    RunOneMore(start, events, e);
  }

  lemma AheadLogged() returns (s: System)
    ensures Run(FRESH, AHEAD[..3]) == Some(s) && History(FRESH, AHEAD[..3]) == [OLD, NEW, OTHER]
    ensures s == System(map["k" := Sample("new", 2), "j" := Sample("other", 1)],
                        map[AOF := Lines([OLD, NEW, OTHER])], 1)
  {
    assert AHEAD[..1] == [] + [AHEAD[0]] && AHEAD[..2] == AHEAD[..1] + [AHEAD[1]]
      && AHEAD[..3] == AHEAD[..2] + [AHEAD[2]];
    assert [] + [OLD] == [OLD] && [OLD] + [NEW] == [OLD, NEW] && [OLD, NEW] + [OTHER] == [OLD, NEW, OTHER];
    var m1, m2 := map["k" := Sample("old", 1)], map["k" := Sample("new", 2)];
    var m3 := map["k" := Sample("new", 2), "j" := Sample("other", 1)];
    AppliedSamples();
    LogOneMore(FRESH, [], map[], [], 0, OLD, true);
    LogOneMore(FRESH, AHEAD[..1], m1, [OLD], 1, NEW, false);
    LogOneMore(FRESH, AHEAD[..2], m2, [OLD, NEW], 1, OTHER, false);
    s := System(m3, map[AOF := Lines([OLD, NEW, OTHER])], 1);
  }

  lemma AppliedSamples()
    ensures ApplyLine(map[], OLD) == map["k" := Sample("old", 1)]
    ensures ApplyLine(map["k" := Sample("old", 1)], NEW) == map["k" := Sample("new", 2)]
    ensures ApplyLine(map["k" := Sample("new", 2)], OTHER) == map["k" := Sample("new", 2), "j" := Sample("other", 1)]
  {}

  lemma AheadSaved() returns (s: System)
    ensures Run(FRESH, AHEAD) == Some(s) && History(FRESH, AHEAD) == [OLD, NEW, OTHER]
    ensures s.synced == 1 && AOF in s.disk && s.disk[AOF] == Lines([OLD, NEW, OTHER])
    ensures SNAPSHOT in s.disk && s.disk[SNAPSHOT] == Image(map["k" := Sample("new", 2), "j" := Sample("other", 1)])
  {
    var s3 := AheadLogged();
    assert AHEAD == AHEAD[..3] + [AHEAD[3]];
    RunOneMore(FRESH, AHEAD[..3], AHEAD[3]);
    AfterSnapshot(s3);
    s := After(s3, Snapshot);
  }

  lemma AfterSnapshot(s: System)
    requires Possible(s, Snapshot)
    ensures var s' := After(s, Snapshot);
            && s'.memory == s.memory && s'.synced == s.synced
            && AOF in s'.disk && s'.disk[AOF] == s.disk[AOF]
            && SNAPSHOT in s'.disk && s'.disk[SNAPSHOT] == Image(s.memory)
  {
    SaveIsSafe(s.disk, s.memory);
    TraceEnds(s.disk, SaveOps(s.disk, s.memory));
  }

  /** A reachable snapshot ahead of the kept log. The crash loses two lines; the log takes
      the key of one of them back to its old value, and the snapshot keeps the other: the
      node recovers a table that it never held. */
  lemma SnapshotAheadMixesTimes()
    ensures CrashOf(AHEAD, Sync, 0, 1)
    ensures Recover(Keep(At(AHEAD, Sync, 0).files, 1)) == map["k" := Sample("old", 1), "j" := Sample("other", 1)]
    ensures var h := History(FRESH, AHEAD);
            forall e: nat :: e <= |h| ==> Recover(Keep(At(AHEAD, Sync, 0).files, 1)) != Replay(map[], h[..e])
  {
    var s := AheadSaved();
    var h := [OLD, NEW, OTHER];
    var d := Keep(s.disk, 1);
    assert h[..1] == [OLD];
    var snapshot := map["k" := Sample("new", 2), "j" := Sample("other", 1)];
    assert [OLD][..0] == [];
    assert Replay(snapshot, [OLD]) == ApplyLine(Replay(snapshot, []), OLD);
    assert "j" != "k" by { assert "j"[0] != "k"[0]; }
    assert Sample("old", 1) != Sample("new", 2);
    forall e: nat | e <= 3 ensures Recover(d) != Replay(map[], h[..e]) { NeverHeld(h, e, Recover(d)); }
  }

  lemma NeverHeld(h: seq<Line>, e: nat, t: Table)
    requires h == [OLD, NEW, OTHER] && e <= 3 && t == map["k" := Sample("old", 1), "j" := Sample("other", 1)]
    ensures t != Replay(map[], h[..e])
  {
    if e <= 2 {
      ReplayDecides(map[], h[..e], "j");
      assert "j" !in Mentioned(h[..e]) by { assert "j"[0] != "k"[0]; }
      assert "j" in t;
    } else {
      assert h[..3] == h;
      ReplayDecides(map[], h, "k");
      var q: nat :| LastAbout(h, "k", q) && Find(Replay(map[], h), "k") == Effect(h[q]);
      assert h[1].key == "k" && h[2].key != "k" by { assert "j"[0] != "k"[0]; }
      assert q == 1;
    }
  }

  // --------------------------------------------------------- crashes after crashes

  /** What a crash that loses no line on stable storage gives when all lines are there: the
      memory before a write whose line it does not keep, and after it when it does. */
  function Survivor(s: System, step: Step, i: nat, n: nat): Table
    requires Possible(s, step)
  {
    if step.LogWrite? && n > |LoggedLines(s.disk)| then After(s, step).memory else s.memory
  }

  predicate Forced(step: Step) {
    step.LogWrite? ==> step.sync
  }

  /** Every completed step of the run forces what it logs, and nothing crashes. */
  predicate AllForced(events: seq<Event>) {
    forall i :: 0 <= i < |events| ==> events[i].Completed? && Forced(events[i].step)
  }

  ghost predicate CrashIsHarmless(s: System, step: Step, i: nat, n: nat)
    requires Possible(s, step) && i < |Moments(s, step)|
  {
    Recover(Keep(Moments(s, step)[i].files, n)) == Survivor(s, step, i, n)
  }

  /** From here on every write that is forced to stable storage is safe: after every run of
      such writes, syncs, snapshots and compactions, a crash at any moment recovers the memory. */
  ghost predicate CrashSafe(start: System) {
    forall events, step, i: nat, n: nat ::
      AllForced(events) && Run(start, events).Some? && Possible(Run(start, events).value, step) && Forced(step)
      && i < |Moments(Run(start, events).value, step)| && MayKeep(Moments(Run(start, events).value, step)[i], n)
      ==> CrashIsHarmless(Run(start, events).value, step, i, n)
  }

  /** Sound, and every line is on stable storage. */
  ghost predicate Steady(s: System, h: seq<Line>) {
    Sound(s, h) && s.synced == |LoggedLines(s.disk)|
  }

  lemma StepIsSteady(s: System, h: seq<Line>, step: Step)
    requires Steady(s, h) && Possible(s, step) && Forced(step)
    ensures Steady(After(s, step), HistoryAt(h, step, 1))
  {
    StepIsSound(s, h, step);
    if step.Snapshot? {
      SaveIsSafe(s.disk, s.memory);
      TraceEnds(s.disk, SaveOps(s.disk, s.memory));
    }
  }

  lemma {:induction false} RunIsSteady(start: System, h: seq<Line>, events: seq<Event>) returns (h': seq<Line>)
    requires Steady(start, h) && AllForced(events) && Run(start, events).Some?
    ensures Steady(Run(start, events).value, h')
  {
    if events == [] {
      h' := h;
    } else {
      var front, e := events[..|events| - 1], events[|events| - 1];
      h' := RunIsSteady(start, h, front);
      StepIsSteady(Run(start, front).value, h', e.step);
      h' := HistoryAt(h', e.step, 1);
    }
  }

  lemma SteadyCrash(s: System, h: seq<Line>, step: Step, i: nat, n: nat)
    requires Steady(s, h) && Possible(s, step) && Forced(step)
    requires i < |Moments(s, step)| && MayKeep(Moments(s, step)[i], n)
    ensures CrashIsHarmless(s, step, i, n)
  {
    var m := Moments(s, step)[i];
    MomentFits(s, h, step, i);
    var h' := HistoryAt(h, step, i);
    if step.LogWrite? {
      SteadyWriteCrash(s, h, step, i, n);
    } else {
      assert n == |LoggedLines(m.files)| by { SteadyMoment(s, h, step, i); }
      RecoversMemoryExactly(m, h', n);
      assert LoggedLines(m.files)[n..] == [];
    }
  }

  lemma SteadyMoment(s: System, h: seq<Line>, step: Step, i: nat)
    requires Steady(s, h) && Possible(s, step) && !step.LogWrite? && i < |Moments(s, step)|
    ensures Moments(s, step)[i].synced >= |LoggedLines(Moments(s, step)[i].files)|
  {
    SaveIsSafe(s.disk, s.memory);
  }

  /** A crash during a write keeps the file of before it or of after it. */
  lemma KeptByWrite(s: System, step: Step, i: nat, n: nat)
    requires Possible(s, step) && step.LogWrite? && s.synced == |LoggedLines(s.disk)|
    requires i < |Moments(s, step)| && MayKeep(Moments(s, step)[i], n)
    ensures Keep(Moments(s, step)[i].files, n)
            == if n > |LoggedLines(s.disk)| then AppendLine(s.disk, step.line) else s.disk
    ensures n > |LoggedLines(s.disk)| ==> i > 0
  {
    var lines := LoggedLines(s.disk);
    var whole := lines + [step.line];
    assert whole[..|lines|] == lines && whole[..|whole|] == whole && lines[..|lines|] == lines;
    assert s.disk[AOF := Lines(lines)] == s.disk;
    assert s.disk[AOF := Lines(whole)][AOF := Lines(lines)] == s.disk[AOF := Lines(lines)];
    assert s.disk[AOF := Lines(whole)][AOF := Lines(whole)] == s.disk[AOF := Lines(whole)];
  }

  lemma SteadyRecovers(s: System, h: seq<Line>)
    requires Steady(s, h)
    ensures Recover(s.disk) == s.memory
  {
    var lines := LoggedLines(s.disk);
    var m := Moment(s.disk, s.synced);
    NothingLost(m, h);
    RecoversMemoryExactly(m, h, |lines|);
    assert lines[|lines|..] == [] && lines[..|lines|] == lines && s.disk[AOF := Lines(lines)] == s.disk;
  }

  lemma SteadyWriteCrash(s: System, h: seq<Line>, step: Step, i: nat, n: nat)
    requires Steady(s, h) && Possible(s, step) && step.LogWrite? && step.sync
    requires i < |Moments(s, step)| && MayKeep(Moments(s, step)[i], n)
    ensures CrashIsHarmless(s, step, i, n)
  {
    KeptByWrite(s, step, i, n);
    SteadyRecovers(s, h);
    StepIsSteady(s, h, step);
    SteadyRecovers(After(s, step), HistoryAt(h, step, 1));
  }

  /** A directory whose log and snapshot can be read. */
  predicate Readable(d: Directory) {
    && (AOF in d ==> d[AOF].Lines? && ProperLines(d[AOF].lines))
    && (SNAPSHOT in d ==> d[SNAPSHOT].Image?)
  }

  lemma SufficientRestartIsSteady(d: Directory)
    requires Readable(d) && LogSuffices(d)
    ensures Steady(Restart(d), LoggedLines(d))
  {
    var s, h := Restart(d), LoggedLines(d);
    ReplayIgnoresSnapshot(SnapshotOf(d), h);
    assert h[..0] == [] && h[0..] == h && [] + h == h && h[..|h|] == h;
    assert Mentioned([]) == Replay(map[], []).Keys;
    assert FitsWith(Moment(s.disk, s.synced), h, 0, []);
  }

  /** If the log does not suffice, the next snapshot has a moment at which a crash loses what
      only the old snapshot holds. */
  lemma InsufficientRestartLoses(d: Directory) returns (i: nat)
    requires Readable(d) && !LogSuffices(d)
    ensures var s := Restart(d);
            && Possible(s, Snapshot) && i < |Moments(s, Snapshot)|
            && MayKeep(Moments(s, Snapshot)[i], |LoggedLines(d)|)
            && Recover(Keep(Moments(s, Snapshot)[i].files, |LoggedLines(d)|))
                == Replay(map[], LoggedLines(d)) != s.memory
  {
    var s := Restart(d);
    i := SnapshotAway(s.disk, s.memory);
    WithoutSnapshot(SaveMoments(s)[i].files, LoggedLines(d));
  }

  lemma WithoutSnapshot(files: Directory, lines: seq<Line>)
    requires SNAPSHOT !in files && LoggedLines(files) == lines
    ensures Recover(Keep(files, |lines|)) == Replay(map[], lines)
  {
    assert lines[..|lines|] == lines;
  }

  /** After a restart forced writes are safe against every later crash if and only if the log
      alone gives what was recovered. */
  lemma CrashSafeExactly(d: Directory)
    requires Readable(d)
    ensures CrashSafe(Restart(d)) <==> LogSuffices(d)
  {
    var start := Restart(d);
    if LogSuffices(d) {
      SufficientRestartIsSteady(d);
      forall events, step, i: nat, n: nat |
        AllForced(events) && Run(start, events).Some? && Possible(Run(start, events).value, step) && Forced(step)
        && i < |Moments(Run(start, events).value, step)| && MayKeep(Moments(Run(start, events).value, step)[i], n)
        ensures CrashIsHarmless(Run(start, events).value, step, i, n)
      {
        var h := RunIsSteady(start, LoggedLines(d), events);
        SteadyCrash(Run(start, events).value, h, step, i, n);
      }
    } else {
      var i := InsufficientRestartLoses(d);
      assert AllForced([]) && Run(start, []) == Some(start);
      assert !CrashIsHarmless(start, Snapshot, i, |LoggedLines(d)|);
    }
  }

  /** For a node all of whose lines are on stable storage: after a crash at any moment of a
      step that forces what it logs, forced writes are safe again exactly when the crash left
      a log file, that is, did not fall between the two renames that replace the log; an
      empty table is the only exception. */
  lemma CrashSafeExactlyWithLog(s: System, h: seq<Line>, step: Step, i: nat, n: nat)
    requires Steady(s, h) && Possible(s, step) && Forced(step)
    requires i < |Moments(s, step)| && MayKeep(Moments(s, step)[i], n)
    ensures var m := Moments(s, step)[i];
            CrashSafe(Restart(Keep(m.files, n))) <==> AOF in m.files || s.memory == map[]
  {
    WhatIsLeft(s, h, step, i, n);
    CrashSafeExactly(Keep(Moments(s, step)[i].files, n));
  }

  lemma WhatIsLeft(s: System, h: seq<Line>, step: Step, i: nat, n: nat)
    requires Steady(s, h) && Possible(s, step) && Forced(step)
    requires i < |Moments(s, step)| && MayKeep(Moments(s, step)[i], n)
    ensures var m := Moments(s, step)[i];
            Readable(Keep(m.files, n)) && (LogSuffices(Keep(m.files, n)) <==> AOF in m.files || s.memory == map[])
  {
    var m := Moments(s, step)[i];
    MomentFits(s, h, step, i);
    if AOF in m.files {
      if step.LogWrite? { SteadyWriteCovered(s, h, step, i, n); } else { SteadyStillCovered(s, h, step, i, n); }
      CoveredLogSuffices(m, HistoryAt(h, step, i), n);
    } else {
      WritesKeepLog(s, step, i);
      SnapshotAloneSuffices(m, h, n);
    }
  }

  lemma WritesKeepLog(s: System, step: Step, i: nat)
    requires Possible(s, step) && i < |Moments(s, step)| && AOF !in Moments(s, step)[i].files
    ensures !step.LogWrite?
  {}

  lemma SnapshotAloneSuffices(m: Moment, h: seq<Line>, n: nat)
    requires OnlySnapshot(m, h) && MayKeep(m, n)
    ensures Readable(Keep(m.files, n)) && (LogSuffices(Keep(m.files, n)) <==> Replay(map[], h) == map[])
  {}

  lemma CoveredLogSuffices(m: Moment, h: seq<Line>, n: nat)
    requires Fits(m, h) && MayKeep(m, n) && AOF in m.files && SnapshotCovered(m, n)
    ensures Readable(Keep(m.files, n)) && LogSuffices(Keep(m.files, n))
  {
    var b, made := FitsWithLog(m, h);
    KeptLines(m, h, b, made, n);
    LogGivesHistory(LoggedLines(m.files)[..n], Survived(m, h, n), b, made);
    RecoverFromKept(m, h, n);
    ReplayIgnoresSnapshot(SnapshotOf(m.files), LoggedLines(m.files)[..n]);
  }

  lemma FullKeepCovered(m: Moment, h: seq<Line>, n: nat)
    requires Fits(m, h) && MayKeep(m, n) && m.synced >= |LoggedLines(m.files)| && AOF in m.files
    ensures SnapshotCovered(m, n)
  {
    NothingLost(m, h);
  }

  lemma SteadyStillCovered(s: System, h: seq<Line>, step: Step, i: nat, n: nat)
    requires Steady(s, h) && Possible(s, step) && !step.LogWrite?
    requires i < |Moments(s, step)| && MayKeep(Moments(s, step)[i], n) && AOF in Moments(s, step)[i].files
    ensures SnapshotCovered(Moments(s, step)[i], n)
  {
    var m := Moments(s, step)[i];
    MomentFits(s, h, step, i);
    SteadyMoment(s, h, step, i);
    FullKeepCovered(m, h, n);
  }

  lemma SteadyWriteCovered(s: System, h: seq<Line>, step: Step, i: nat, n: nat)
    requires Steady(s, h) && Possible(s, step) && step.LogWrite?
    requires i < |Moments(s, step)| && MayKeep(Moments(s, step)[i], n)
    ensures SnapshotCovered(Moments(s, step)[i], n)
  {
    var m, lines := Moments(s, step)[i], LoggedLines(s.disk);
    SyncMomentFits(s, h);
    NothingLost(Moment(s.disk, s.synced), h);
    assert LoggedLines(m.files)[..|lines|] == lines == lines[..|lines|];
    MentionedPrefix(LoggedLines(m.files), |lines|, n);
  }

  /** A compaction can crash without leaving a log; the snapshot has it all. */
  lemma CrashWithoutLog(s: System, h: seq<Line>, order: seq<string>) returns (i: nat)
    requires Sound(s, h) && Possible(s, SnapshotAndCompact(order))
    ensures i < |Moments(s, SnapshotAndCompact(order))|
    ensures var m := Moments(s, SnapshotAndCompact(order))[i]; AOF !in m.files && OnlySnapshot(m, h)
  {
    OrderInMemory(s.memory, order);
    var b, made := SavedFits(s, h);
    var k := LogAway(Saved(s), s.memory, order);
    i := |SaveMoments(s)| + k;
    CompactMomentFits(s, h, order, k);
  }

  /** Two crashes can lose everything: the first between the two renames of a compaction,
      which is survived, and the second between the two renames of the next snapshot. */
  lemma SecondCrashCanLoseEverything(s: System, h: seq<Line>, order: seq<string>) returns (i: nat, j: nat)
    requires Sound(s, h) && Possible(s, SnapshotAndCompact(order))
    ensures i < |Moments(s, SnapshotAndCompact(order))|
    ensures var first := Moments(s, SnapshotAndCompact(order))[i].files;
            && Recover(first) == s.memory
            && Possible(Restart(first), Snapshot) && j < |Moments(Restart(first), Snapshot)|
            && Recover(Moments(Restart(first), Snapshot)[j].files) == map[]
  {
    i := CrashWithoutLog(s, h, order);
    var first := Moments(s, SnapshotAndCompact(order))[i].files;
    j := SnapshotAway(Restart(first).disk, s.memory);
  }
}

/** The append-only log, the snapshots and recovery (minidb/storage/aof.py,
    minidb/storage/snapshot.py, minidb/node.py:237-287). The directory is a small map of
    files, changed by one file operation after another; while a file is being written it is
    torn. Encodings are not modelled: a file is its records. */
module Persistence {
  import opened Options
  import opened Storage
  import Quorums

  datatype File = Lines(lines: seq<Line>) | Image(table: Table) | Metadata(keyCount: nat) | Torn

  /** appendonly.aof with its .bak and .tmp, snapshot.db.gz with its .bak, snapshot.db.tmp.gz
      and snapshot.meta.json. */
  datatype FileName = AOF | AOF_BACKUP | AOF_TEMP | SNAPSHOT | SNAPSHOT_BACKUP | SNAPSHOT_TEMP | METADATA

  type Directory = map<FileName, File>

  datatype Op = Write(name: FileName, file: File) | Delete(name: FileName) | Rename(name: FileName, to: FileName)

  function Exec(d: Directory, op: Op): Directory {
    match op
    case Write(name, file) => d[name := file]
    case Delete(name) => d - {name}
    case Rename(name, to) => if name in d then (d - {name})[to := d[name]] else d
  }

  /** The directory before the first operation and after each one. */
  function Trace(d: Directory, ops: seq<Op>): (ds: seq<Directory>)
    ensures |ds| == |ops| + 1 && ds[0] == d
    decreases |ops|
  {
    if ops == [] then [d] else [d] + Trace(Exec(d, ops[0]), ops[1..])
  }

  function ExecAll(d: Directory, ops: seq<Op>): Directory
    decreases |ops|
  {
    if ops == [] then d else ExecAll(Exec(d, ops[0]), ops[1..])
  }

  // ------------------------------------------------------------------ the procedures

  function KeepOldOps(d: Directory): seq<Op> {
    if SNAPSHOT !in d then []
    else (if SNAPSHOT_BACKUP in d then [Delete(SNAPSHOT_BACKUP)] else []) + [Rename(SNAPSHOT, SNAPSHOT_BACKUP)]
  }

  /** SnapshotPersistence.save. */
  function SaveOps(d: Directory, data: Table): seq<Op> {
    [Write(SNAPSHOT_TEMP, Torn), Write(SNAPSHOT_TEMP, Image(data))]
    + KeepOldOps(d) + PublishOps(data)
  }

  function PublishOps(data: Table): seq<Op> {
    [Rename(SNAPSHOT_TEMP, SNAPSHOT), Write(METADATA, Torn), Write(METADATA, Metadata(|data|))]
  }

  /** One line per key, in the order of the dictionary. */
  function LinesOf(data: Table, order: seq<string>): seq<Line>
    requires forall key :: key in order ==> key in data
  {
    if order == [] then []
    else
      var last := order[|order| - 1];
      LinesOf(data, order[..|order| - 1]) + [SetLine(last, data[last])]
  }

  /** AOFPersistence.compact. */
  function CompactOps(d: Directory, data: Table, order: seq<string>): seq<Op>
    requires forall key :: key in order ==> key in data
  {
    [Write(AOF_TEMP, Torn), Write(AOF_TEMP, Lines(LinesOf(data, order)))] + ReplaceOps(d)
  }

  function ReplaceOps(d: Directory): seq<Op> {
    (if AOF_BACKUP in d then [Delete(AOF_BACKUP)] else [])
    + (if AOF in d then [Rename(AOF, AOF_BACKUP)] else [])
    + [Rename(AOF_TEMP, AOF)]
  }

  /** SnapshotPersistence.load: the backup is consulted only when the snapshot exists but
      cannot be read. */
  function Load(d: Directory): Option<Table> {
    if SNAPSHOT !in d then None
    else if d[SNAPSHOT].Image? then Some(d[SNAPSHOT].table)
    else if SNAPSHOT_BACKUP in d && d[SNAPSHOT_BACKUP].Image? then Some(d[SNAPSHOT_BACKUP].table)
    else None
  }

  function LoggedLines(d: Directory): seq<Line> {
    if AOF in d && d[AOF].Lines? then d[AOF].lines else []
  }

  /** The directory after loading: the backup, readable or not, has been copied over a
      snapshot that cannot be read. */
  function Loaded(d: Directory): Directory {
    if SNAPSHOT in d && !d[SNAPSHOT].Image? && SNAPSHOT_BACKUP in d then d[SNAPSHOT := d[SNAPSHOT_BACKUP]] else d
  }

  /** Starting up: the snapshot, if any, and then the whole log on top of it. */
  function Recover(d: Directory): Table {
    var snapshot := Load(d);
    Replay(if snapshot.Some? then snapshot.value else map[], LoggedLines(d))
  }

  // --------------------------------------------------- replaying over a snapshot

  predicate ProperLine(line: Line) {
    line.SetLine? ==> line.item.version >= 1
  }

  predicate ProperLines(lines: seq<Line>) {
    forall i :: 0 <= i < |lines| ==> ProperLine(lines[i])
  }

  function Mentioned(lines: seq<Line>): set<string> {
    set i | 0 <= i < |lines| :: lines[i].key
  }

  lemma MentionedMore(lines: seq<Line>, line: Line)
    ensures Mentioned(lines + [line]) == Mentioned(lines) + {line.key}
  {
    var longer := lines + [line];
    forall i | 0 <= i < |lines| ensures longer[i].key in Mentioned(longer) && lines[i].key == longer[i].key {}
    assert longer[|lines|].key == line.key;
  }

  /** What the line leaves under its key. */
  function Effect(line: Line): Option<Item> {
    match line
    case SetLine(_, item) => Some(item)
    case DeleteLine(_) => None
  }

  /** line number q is the last one about the key. */
  predicate LastAbout(lines: seq<Line>, key: string, q: nat) {
    q < |lines| && lines[q].key == key && forall r :: q < r < |lines| ==> lines[r].key != key
  }

  /** A key mentioned in the log ends as its last line says, whatever was there before; any
      other key stays as it was. */
  lemma {:induction false} ReplayDecides(t: Table, lines: seq<Line>, key: string)
    requires ProperLines(lines)
    ensures key !in Mentioned(lines) ==> Find(Replay(t, lines), key) == Find(t, key)
    ensures key in Mentioned(lines) ==>
              exists q: nat :: LastAbout(lines, key, q) && Find(Replay(t, lines), key) == Effect(lines[q])
  {
    if lines != [] {
      var n := |lines| - 1;
      var front, last := lines[..n], lines[n];
      ReplayDecides(t, front, key);
      assert front + [last] == lines;
      MentionedMore(front, last);
      if last.key == key {
        assert LastAbout(lines, key, n);
      } else {
        if key in Mentioned(front) {
          var q: nat :| LastAbout(front, key, q) && Find(Replay(t, front), key) == Effect(front[q]);
          assert LastAbout(lines, key, q);
        }
      }
    }
  }

  lemma LastAboutUnique(lines: seq<Line>, key: string, p: nat, q: nat)
    requires LastAbout(lines, key, p) && LastAbout(lines, key, q)
    ensures p == q
  {}

  /** Replaying a log over a snapshot gives what the log alone gives exactly when the log
      mentions every key of the snapshot. */
  lemma ReplayIgnoresSnapshot(snapshot: Table, lines: seq<Line>)
    requires ProperLines(lines)
    ensures Replay(snapshot, lines) == Replay(map[], lines) <==> snapshot.Keys <= Mentioned(lines)
  {
    var over, plain := Replay(snapshot, lines), Replay(map[], lines);
    forall key ensures key in Mentioned(lines) ==> Find(over, key) == Find(plain, key)
      ensures key !in Mentioned(lines) ==> Find(over, key) == Find(snapshot, key) && Find(plain, key) == None
    {
      ReplayDecides(snapshot, lines, key);
      ReplayDecides(map[], lines, key);
      if key in Mentioned(lines) {
        var p: nat :| LastAbout(lines, key, p) && Find(over, key) == Effect(lines[p]);
        var q: nat :| LastAbout(lines, key, q) && Find(plain, key) == Effect(lines[q]);
        LastAboutUnique(lines, key, p, q);
      }
    }
    if snapshot.Keys <= Mentioned(lines) {
      forall key ensures Find(over, key) == Find(plain, key) {
        if key !in Mentioned(lines) { assert key !in snapshot; }
      }
      SameEverywhere(over, plain);
    } else {
      var key :| key in snapshot && key !in Mentioned(lines);
      assert Find(over, key) == Some(snapshot[key]);
    }
  }

  lemma {:induction false} LinesOfRebuild(data: Table, order: seq<string>)
    requires forall key :: key in order ==> key in data && data[key].version >= 1
    ensures var lines := LinesOf(data, order);
            && ProperLines(lines) && Mentioned(lines) == Quorums.Members(order)
            && Replay(map[], lines) == map key | key in Quorums.Members(order) :: data[key]
  {
    if order != [] {
      var front, last := order[..|order| - 1], order[|order| - 1];
      assert order == front + [last];
      LinesOfRebuild(data, front);
      var lines := LinesOf(data, front);
      ReplayOneMore(map[], lines, SetLine(last, data[last]));
      MentionedMore(lines, SetLine(last, data[last]));
      assert Quorums.Members(order) == Quorums.Members(front) + {last};
    }
  }

  // ----------------------------------------------- the directory at every point

  lemma TraceStep(d: Directory, op: Op, rest: seq<Op>)
    ensures Trace(d, [op] + rest) == [d] + Trace(Exec(d, op), rest)
    ensures ExecAll(d, [op] + rest) == ExecAll(Exec(d, op), rest)
  {
    assert ([op] + rest)[1..] == rest;
  }

  /** During a save: the log as it was; no snapshot, the old one, or the new one. */
  predicate SavePoint(start: Directory, data: Table, d: Directory) {
    && (AOF in d <==> AOF in start) && (AOF in d ==> d[AOF] == start[AOF])
    && (SNAPSHOT in d ==> d[SNAPSHOT] == Image(data) || (SNAPSHOT in start && d[SNAPSHOT] == start[SNAPSHOT]))
  }

  ghost predicate AllSavePoints(start: Directory, data: Table, ds: seq<Directory>) {
    forall i :: 0 <= i < |ds| ==> SavePoint(start, data, ds[i])
  }

  ghost predicate Saves(start: Directory, data: Table, d: Directory, ops: seq<Op>) {
    && AllSavePoints(start, data, Trace(d, ops))
    && SavePoint(start, data, ExecAll(d, ops))
    && SNAPSHOT in ExecAll(d, ops) && ExecAll(d, ops)[SNAPSHOT] == Image(data)
  }

  lemma SaveStep(start: Directory, data: Table, d: Directory, op: Op, rest: seq<Op>)
    requires SavePoint(start, data, d) && Saves(start, data, Exec(d, op), rest)
    ensures Saves(start, data, d, [op] + rest)
  {
    TraceStep(d, op, rest);
  }

  /** The end of a save: the new snapshot takes its place. */
  lemma SaveTail(start: Directory, data: Table, d: Directory)
    requires SavePoint(start, data, d) && SNAPSHOT_TEMP in d && d[SNAPSHOT_TEMP] == Image(data)
    ensures Saves(start, data, d, PublishOps(data))
  {
    var publish, torn, meta :=
      Rename(SNAPSHOT_TEMP, SNAPSHOT), Write(METADATA, Torn), Write(METADATA, Metadata(|data|));
    var d1 := Exec(d, publish);
    var d2 := Exec(d1, torn);
    assert Trace(Exec(d2, meta), []) == [Exec(d2, meta)];
    SaveStep(start, data, d2, meta, []);
    SaveStep(start, data, d1, torn, [meta] + []);
    SaveStep(start, data, d, publish, [torn] + ([meta] + []));
    assert PublishOps(data) == [publish] + ([torn] + ([meta] + []));
  }

  lemma SaveAway(start: Directory, data: Table, d: Directory)
    requires SavePoint(start, data, d) && SNAPSHOT in d && SNAPSHOT_TEMP in d && d[SNAPSHOT_TEMP] == Image(data)
    ensures Saves(start, data, d, [Rename(SNAPSHOT, SNAPSHOT_BACKUP)] + PublishOps(data))
  {
    SaveTail(start, data, Exec(d, Rename(SNAPSHOT, SNAPSHOT_BACKUP)));
    SaveStep(start, data, d, Rename(SNAPSHOT, SNAPSHOT_BACKUP), PublishOps(data));
  }

  lemma SaveMiddle(start: Directory, data: Table, d: Directory)
    requires SavePoint(start, data, d) && SNAPSHOT_TEMP in d && d[SNAPSHOT_TEMP] == Image(data)
    ensures Saves(start, data, d, KeepOldOps(d) + PublishOps(data))
  {
    var tail := PublishOps(data);
    var away := [Rename(SNAPSHOT, SNAPSHOT_BACKUP)];
    if SNAPSHOT !in d {
      SaveTail(start, data, d);
      assert KeepOldOps(d) + tail == tail;
    } else if SNAPSHOT_BACKUP in d {
      SaveAway(start, data, Exec(d, Delete(SNAPSHOT_BACKUP)));
      SaveStep(start, data, d, Delete(SNAPSHOT_BACKUP), away + tail);
      assert KeepOldOps(d) + tail == [Delete(SNAPSHOT_BACKUP)] + (away + tail);
    } else {
      SaveAway(start, data, d);
      assert KeepOldOps(d) + tail == away + tail;
    }
  }

  /** A save never touches the log, at no point is there a snapshot other than the old and
      the new one, and in the end it is the new one. */
  lemma SaveIsSafe(d: Directory, data: Table)
    ensures Saves(d, data, d, SaveOps(d, data))
  {
    var w1, w2 := Write(SNAPSHOT_TEMP, Torn), Write(SNAPSHOT_TEMP, Image(data));
    var d1 := Exec(d, w1);
    var d2 := Exec(d1, w2);
    var rest := KeepOldOps(d2) + PublishOps(data);
    assert SavePoint(d, data, d) && SavePoint(d, data, d1) && SavePoint(d, data, d2);
    assert SaveOps(d, data) == [w1] + ([w2] + rest);
    SaveMiddle(d, data, d2);
    SaveStep(d, data, d1, w2, rest);
    SaveStep(d, data, d, w1, [w2] + rest);
  }

  /** During a compaction: the snapshot as it was; no log, the old one, or the new one. */
  predicate CompactPoint(start: Directory, lines: seq<Line>, d: Directory) {
    && (SNAPSHOT in d <==> SNAPSHOT in start) && (SNAPSHOT in d ==> d[SNAPSHOT] == start[SNAPSHOT])
    && (AOF in d ==> d[AOF] == Lines(lines) || (AOF in start && d[AOF] == start[AOF]))
  }

  ghost predicate AllCompactPoints(start: Directory, lines: seq<Line>, ds: seq<Directory>) {
    forall i :: 0 <= i < |ds| ==> CompactPoint(start, lines, ds[i])
  }

  ghost predicate Compacts(start: Directory, lines: seq<Line>, d: Directory, ops: seq<Op>) {
    && AllCompactPoints(start, lines, Trace(d, ops))
    && CompactPoint(start, lines, ExecAll(d, ops))
    && AOF in ExecAll(d, ops) && ExecAll(d, ops)[AOF] == Lines(lines)
  }

  lemma CompactStep(start: Directory, lines: seq<Line>, d: Directory, op: Op, rest: seq<Op>)
    requires CompactPoint(start, lines, d) && Compacts(start, lines, Exec(d, op), rest)
    ensures Compacts(start, lines, d, [op] + rest)
  {
    TraceStep(d, op, rest);
  }

  lemma CompactTail(start: Directory, lines: seq<Line>, d: Directory)
    requires CompactPoint(start, lines, d) && AOF_TEMP in d && d[AOF_TEMP] == Lines(lines)
    ensures Compacts(start, lines, d, [Rename(AOF_TEMP, AOF)])
  {
    var last := Rename(AOF_TEMP, AOF);
    assert Trace(Exec(d, last), []) == [Exec(d, last)];
    CompactStep(start, lines, d, last, []);
    assert [last] + [] == [last];
  }

  lemma CompactMiddle(start: Directory, lines: seq<Line>, d: Directory)
    requires CompactPoint(start, lines, d) && AOF_TEMP in d && d[AOF_TEMP] == Lines(lines)
    ensures Compacts(start, lines, d, (if AOF in d then [Rename(AOF, AOF_BACKUP)] else []) + [Rename(AOF_TEMP, AOF)])
  {
    var away, last := Rename(AOF, AOF_BACKUP), [Rename(AOF_TEMP, AOF)];
    if AOF in d {
      CompactTail(start, lines, Exec(d, away));
      CompactStep(start, lines, d, away, last);
    } else {
      CompactTail(start, lines, d);
      assert [] + last == last;
    }
  }

  /** A compaction never touches the snapshot, at no point is there a log other than the old
      and the rewritten one, and in the end it is the rewritten one. */
  lemma CompactIsSafe(d: Directory, data: Table, order: seq<string>)
    requires forall key :: key in order ==> key in data
    ensures Compacts(d, LinesOf(data, order), d, CompactOps(d, data, order))
  {
    var lines := LinesOf(data, order);
    var w1, w2 := Write(AOF_TEMP, Torn), Write(AOF_TEMP, Lines(lines));
    var d1 := Exec(d, w1);
    var d2 := Exec(d1, w2);
    var tail := (if AOF in d then [Rename(AOF, AOF_BACKUP)] else []) + [Rename(AOF_TEMP, AOF)];
    var rest := tail;
    if AOF_BACKUP in d {
      var clear := Delete(AOF_BACKUP);
      CompactMiddle(d, lines, Exec(d2, clear));
      CompactStep(d, lines, d2, clear, tail);
      rest := [clear] + tail;
    } else {
      CompactMiddle(d, lines, d2);
    }
    CompactStep(d, lines, d1, w2, rest);
    CompactStep(d, lines, d, w1, [w2] + rest);
    assert CompactOps(d, data, order) == [w1] + ([w2] + rest);
  }

  // ------------------------------------------- between the renames of a replacement

  lemma {:induction false} ExecAllAppend(d: Directory, ops: seq<Op>, op: Op)
    ensures ExecAll(d, ops + [op]) == Exec(ExecAll(d, ops), op)
    decreases |ops|
  {
    if ops == [] {
      assert [] + [op] == [op] && [op][1..] == [];
    } else {
      ExecAllAppend(Exec(d, ops[0]), ops[1..], op);
      assert (ops + [op])[1..] == ops[1..] + [op] && (ops + [op])[0] == ops[0];
    }
  }

  lemma {:induction false} TracePoint(d: Directory, ops: seq<Op>, rest: seq<Op>)
    ensures Trace(d, ops + rest)[|ops|] == ExecAll(d, ops)
    decreases |ops|
  {
    if ops == [] {
      assert [] + rest == rest;
    } else {
      TracePoint(Exec(d, ops[0]), ops[1..], rest);
      assert (ops + rest)[1..] == ops[1..] + rest && (ops + rest)[0] == ops[0];
    }
  }

  /** Between the renames of a compaction the log is away. */
  lemma LogAway(d: Directory, data: Table, order: seq<string>) returns (i: nat)
    requires AOF in d && forall key :: key in order ==> key in data
    ensures var ds := Trace(d, CompactOps(d, data, order)); i < |ds| && AOF !in ds[i]
  {
    var w := [Write(AOF_TEMP, Torn), Write(AOF_TEMP, Lines(LinesOf(data, order)))];
    var clear := if AOF_BACKUP in d then [Delete(AOF_BACKUP)] else [];
    var ops := w + clear + [Rename(AOF, AOF_BACKUP)];
    TracePoint(d, ops, [Rename(AOF_TEMP, AOF)]);
    TwoOps(d, w[0], w[1]);
    ExecAllAppend(d, w, Delete(AOF_BACKUP));
    assert w + [] == w;
    ExecAllAppend(d, w + clear, Rename(AOF, AOF_BACKUP));
    assert CompactOps(d, data, order) == ops + [Rename(AOF_TEMP, AOF)];
    i := |ops|;
  }

  /** Between the renames of a save the snapshot is away. */
  lemma SnapshotAway(d: Directory, data: Table) returns (i: nat)
    requires SNAPSHOT in d
    ensures var ds := Trace(d, SaveOps(d, data));
            i < |ds| && SNAPSHOT !in ds[i] && LoggedLines(ds[i]) == LoggedLines(d)
  {
    var ops := AwayOps(d, data);
    TracePoint(d, ops, PublishOps(data));
    assert SaveOps(d, data) == ops + PublishOps(data);
    AwayEffect(d, data);
    i := |ops|;
  }

  /** A save up to the first rename. */
  function AwayOps(d: Directory, data: Table): seq<Op> {
    [Write(SNAPSHOT_TEMP, Torn), Write(SNAPSHOT_TEMP, Image(data))]
    + (if SNAPSHOT_BACKUP in d then [Delete(SNAPSHOT_BACKUP)] else []) + [Rename(SNAPSHOT, SNAPSHOT_BACKUP)]
  }

  lemma AwayEffect(d: Directory, data: Table)
    requires SNAPSHOT in d
    ensures var d' := ExecAll(d, AwayOps(d, data)); SNAPSHOT !in d' && LoggedLines(d') == LoggedLines(d)
  {
    var w := [Write(SNAPSHOT_TEMP, Torn), Write(SNAPSHOT_TEMP, Image(data))];
    var clear := if SNAPSHOT_BACKUP in d then [Delete(SNAPSHOT_BACKUP)] else [];
    TwoOps(d, w[0], w[1]);
    var d2 := ExecAll(d, w);
    assert SNAPSHOT in d2 && LoggedLines(d2) == LoggedLines(d);
    ExecAllAppend(d, w, Delete(SNAPSHOT_BACKUP));
    assert w + [] == w;
    var d3 := ExecAll(d, w + clear);
    assert SNAPSHOT in d3 && LoggedLines(d3) == LoggedLines(d);
    ExecAllAppend(d, w + clear, Rename(SNAPSHOT, SNAPSHOT_BACKUP));
  }

  lemma TwoOps(d: Directory, a: Op, b: Op)
    ensures ExecAll(d, [a, b]) == Exec(Exec(d, a), b)
  {
    assert [a, b][1..] == [b] && [a, b][0] == a;
    assert [b][1..] == [] && [b][0] == b;
    assert ExecAll(Exec(d, a), [b]) == Exec(Exec(d, a), b);
  }

  // ------------------------------------------------------------------- the classes

  /** The directory together with the operations performed on it so far. */
  class Disk {
    var files: Directory
    ghost const origin: Directory
    ghost var done: seq<Op>

    constructor (files: Directory)
      ensures this.files == files && done == [] && Valid()
    {
      this.files := files;
      origin := files;
      done := [];
    }

    ghost predicate Valid()
      reads this
    {
      files == ExecAll(origin, done)
    }

    method Do(op: Op)
      requires Valid()
      modifies this
      ensures Valid() && done == old(done) + [op] && files == Exec(old(files), op)
    {
      match op {
        case Write(name, file) => files := files[name := file];
        case Delete(name) => files := files - {name};
        case Rename(name, to) => if name in files { files := (files - {name})[to := files[name]]; }
      }
      done := done + [op];
      ExecAllAppend(origin, old(done), op);
    }

    /** A file is torn until it is complete. */
    method WriteFile(name: FileName, file: File)
      requires Valid()
      modifies this
      ensures Valid() && done == old(done) + [Write(name, Torn), Write(name, file)] && files == old(files)[name := file]
    {
      Do(Write(name, Torn));
      Do(Write(name, file));
    }
  }

  /** What a save leaves: the new snapshot and its metadata, the old one as the backup, no
      temporary file, and everything else as it was. */
  predicate Snapshotted(d: Directory, data: Table, d': Directory) {
    d' == ((d - {SNAPSHOT_TEMP}) + (if SNAPSHOT in d then map[SNAPSHOT_BACKUP := d[SNAPSHOT]] else map[]))
          [SNAPSHOT := Image(data)][METADATA := Metadata(|data|)]
  }

  /** What a compaction leaves: one line per key in the given order, the log as it was, with
      all its lines, as the backup, no temporary file, and everything else as it was. */
  predicate Compacted(d: Directory, log: seq<Line>, data: Table, order: seq<string>, d': Directory)
    requires forall key :: key in order ==> key in data
  {
    var lines := seq(|order|, i requires 0 <= i < |order| => SetLine(order[i], ItemIn(data, order[i])));
    d' == (d - {AOF_TEMP})[AOF_BACKUP := Lines(log)][AOF := Lines(lines)]
  }

  function ItemIn(data: Table, key: string): Item {
    if key in data then data[key] else Item(Null, 0, 0.0, 0.0, "")
  }

  lemma {:induction false} LinesInOrder(data: Table, order: seq<string>)
    requires forall key :: key in order ==> key in data
    ensures LinesOf(data, order)
            == seq(|order|, i requires 0 <= i < |order| => SetLine(order[i], ItemIn(data, order[i])))
  {
    if order != [] { LinesInOrder(data, order[..|order| - 1]); }
  }

  /** Publishing drops the temporary file and overwrites the snapshot, so of the directory
      before it only the other files matter. */
  lemma PublishOverwrites(a: Directory, b: Directory, data: Table)
    requires forall name :: name != SNAPSHOT ==> (name in a <==> name in b)
    requires forall name :: name in a && name != SNAPSHOT ==> a[name] == b[name]
    ensures a[SNAPSHOT := Image(data)][METADATA := Metadata(|data|)]
            == b[SNAPSHOT := Image(data)][METADATA := Metadata(|data|)]
  {
    assert a[SNAPSHOT := Image(data)] == b[SNAPSHOT := Image(data)];
  }

  lemma BackupKept(d: Directory, data: Table, written: Directory, kept: Directory, name: FileName)
    requires written == d[SNAPSHOT_TEMP := Image(data)] && name != SNAPSHOT
    requires kept == if SNAPSHOT in written
                     then (written - {SNAPSHOT})[SNAPSHOT_BACKUP := written[SNAPSHOT]] else written
    ensures var left := kept - {SNAPSHOT_TEMP};
            if name == SNAPSHOT_TEMP then name !in left
            else if name == SNAPSHOT_BACKUP && SNAPSHOT in d then name in left && left[name] == d[SNAPSHOT]
            else (name in left <==> name in d) && (name in d ==> left[name] == d[name])
  {}

  lemma SaveLeaves(d: Directory, data: Table, written: Directory, kept: Directory)
    requires written == d[SNAPSHOT_TEMP := Image(data)]
    requires kept == if SNAPSHOT in written
                     then (written - {SNAPSHOT})[SNAPSHOT_BACKUP := written[SNAPSHOT]] else written
    ensures SNAPSHOT_TEMP in kept && kept[SNAPSHOT_TEMP] == Image(data)
    ensures Snapshotted(d, data, (kept - {SNAPSHOT_TEMP})[SNAPSHOT := Image(data)][METADATA := Metadata(|data|)])
  {
    var others := (d - {SNAPSHOT_TEMP}) + if SNAPSHOT in d then map[SNAPSHOT_BACKUP := d[SNAPSHOT]] else map[];
    var left := kept - {SNAPSHOT_TEMP};
    forall name | name != SNAPSHOT
      ensures (name in left <==> name in others) && (name in left ==> left[name] == others[name]) {
      BackupKept(d, data, written, kept, name);
    }
    PublishOverwrites(left, others, data);
  }

  lemma CompactLeaves(d: Directory, log: seq<Line>, data: Table, order: seq<string>, lines: seq<Line>)
    requires (forall key :: key in order ==> key in data) && lines == LinesOf(data, order)
    ensures var written := d[AOF := Lines(log)][AOF_TEMP := Lines(lines)];
            Compacted(d, log, data, order,
                      (written - {AOF_TEMP})[AOF_BACKUP := written[AOF]][AOF := Lines(lines)])
  {
    LinesInOrder(data, order);
  }

  lemma {:induction false} ExecInTurn(d: Directory, a: seq<Op>, b: seq<Op>)
    ensures ExecAll(d, a + b) == ExecAll(ExecAll(d, a), b)
    decreases |b|
  {
    if b == [] {
      assert a + b == a;
    } else {
      var n := |b| - 1;
      ExecInTurn(d, a, b[..n]);
      ExecAllAppend(d, a + b[..n], b[n]);
      ExecAllAppend(ExecAll(d, a), b[..n], b[n]);
      assert a + b == a + b[..n] + [b[n]] && b == b[..n] + [b[n]];
    }
  }

  lemma OneOp(d: Directory, op: Op)
    ensures ExecAll(d, [op]) == Exec(d, op)
  {
    assert [op][1..] == [];
  }

  lemma KeepOldEffect(d: Directory)
    ensures ExecAll(d, KeepOldOps(d))
            == if SNAPSHOT in d then (d - {SNAPSHOT})[SNAPSHOT_BACKUP := d[SNAPSHOT]] else d
  {
    var away := Rename(SNAPSHOT, SNAPSHOT_BACKUP);
    if SNAPSHOT in d && SNAPSHOT_BACKUP in d {
      TwoOps(d, Delete(SNAPSHOT_BACKUP), away);
      assert KeepOldOps(d) == [Delete(SNAPSHOT_BACKUP), away];
    } else if SNAPSHOT in d {
      OneOp(d, away);
      assert KeepOldOps(d) == [away];
    }
  }

  lemma PublishEffect(d: Directory, data: Table)
    requires SNAPSHOT_TEMP in d && d[SNAPSHOT_TEMP] == Image(data)
    ensures ExecAll(d, PublishOps(data))
            == (d - {SNAPSHOT_TEMP})[SNAPSHOT := Image(data)][METADATA := Metadata(|data|)]
  {
    var ops := PublishOps(data);
    OneOp(d, ops[0]);
    TwoOps(Exec(d, ops[0]), ops[1], ops[2]);
    ExecInTurn(d, [ops[0]], [ops[1], ops[2]]);
    assert ops == [ops[0]] + [ops[1], ops[2]];
  }

  /** The operations of a save come to what its method leaves. */
  lemma SaveEffect(d: Directory, data: Table)
    ensures Snapshotted(d, data, ExecAll(d, SaveOps(d, data)))
  {
    var w := [Write(SNAPSHOT_TEMP, Torn), Write(SNAPSHOT_TEMP, Image(data))];
    TwoOps(d, w[0], w[1]);
    var written := ExecAll(d, w);
    assert written == d[SNAPSHOT_TEMP := Image(data)] && KeepOldOps(written) == KeepOldOps(d);
    KeepOldEffect(written);
    var kept := ExecAll(written, KeepOldOps(d));
    SaveLeaves(d, data, written, kept);
    PublishEffect(kept, data);
    ExecInTurn(d, w, KeepOldOps(d));
    ExecInTurn(d, w + KeepOldOps(d), PublishOps(data));
  }

  lemma ReplaceEffect(d: Directory, lines: seq<Line>)
    requires AOF in d && AOF_TEMP in d && d[AOF_TEMP] == Lines(lines)
    ensures ExecAll(d, ReplaceOps(d)) == (d - {AOF_TEMP})[AOF_BACKUP := d[AOF]][AOF := Lines(lines)]
  {
    var clear := if AOF_BACKUP in d then [Delete(AOF_BACKUP)] else [];
    var moves := [Rename(AOF, AOF_BACKUP), Rename(AOF_TEMP, AOF)];
    if AOF_BACKUP in d { OneOp(d, Delete(AOF_BACKUP)); }
    var cleared := ExecAll(d, clear);
    TwoOps(cleared, moves[0], moves[1]);
    ExecInTurn(d, clear, moves);
    assert ReplaceOps(d) == clear + moves;
  }

  /** The operations of a compaction come to what its method leaves. */
  lemma CompactEffect(d: Directory, data: Table, order: seq<string>)
    requires AOF in d && d[AOF].Lines? && forall key :: key in order ==> key in data
    ensures Compacted(d, d[AOF].lines, data, order, ExecAll(d, CompactOps(d, data, order)))
  {
    var lines := LinesOf(data, order);
    var w := [Write(AOF_TEMP, Torn), Write(AOF_TEMP, Lines(lines))];
    TwoOps(d, w[0], w[1]);
    var written := ExecAll(d, w);
    assert written == d[AOF_TEMP := Lines(lines)] && ReplaceOps(written) == ReplaceOps(d);
    ReplaceEffect(written, lines);
    ExecInTurn(d, w, ReplaceOps(d));
    CompactLeaves(d, d[AOF].lines, data, order, lines);
    assert d[AOF := Lines(d[AOF].lines)] == d;
  }

  class SnapshotPersistence {
    const disk: Disk

    constructor (disk: Disk)
      ensures this.disk == disk
    {
      this.disk := disk;
    }

    /** Performs exactly the operations of SaveOps, one after the other. */
    method Save(data: Table)
      requires disk.Valid()
      modifies disk
      ensures disk.Valid() && disk.done == old(disk.done) + SaveOps(old(disk.files), data)
      ensures Snapshotted(old(disk.files), data, disk.files)
    {
      disk.WriteFile(SNAPSHOT_TEMP, Image(data));
      assert KeepOldOps(disk.files) == KeepOldOps(old(disk.files));
      ghost var written := disk.files;
      KeepOldSnapshot();
      SaveLeaves(old(disk.files), data, written, disk.files);
      Publish(data);
    }

    method Publish(data: Table)
      requires disk.Valid()
      modifies disk
      ensures disk.Valid() && disk.done == old(disk.done) + PublishOps(data)
      ensures SNAPSHOT_TEMP in old(disk.files) ==>
                disk.files == (old(disk.files) - {SNAPSHOT_TEMP})
                              [SNAPSHOT := old(disk.files)[SNAPSHOT_TEMP]][METADATA := Metadata(|data|)]
    {
      disk.Do(Rename(SNAPSHOT_TEMP, SNAPSHOT));
      disk.WriteFile(METADATA, Metadata(|data|));
    }

    method KeepOldSnapshot()
      requires disk.Valid()
      modifies disk
      ensures disk.Valid() && disk.done == old(disk.done) + KeepOldOps(old(disk.files))
      ensures disk.files == if SNAPSHOT in old(disk.files)
                            then (old(disk.files) - {SNAPSHOT})[SNAPSHOT_BACKUP := old(disk.files)[SNAPSHOT]]
                            else old(disk.files)
    {
      if SNAPSHOT in disk.files {
        if SNAPSHOT_BACKUP in disk.files { disk.Do(Delete(SNAPSHOT_BACKUP)); }
        disk.Do(Rename(SNAPSHOT, SNAPSHOT_BACKUP));
      }
    }

    /** The backup is copied over an unreadable snapshot before the second attempt. */
    method LoadSnapshot() returns (data: Option<Table>)
      requires disk.Valid()
      modifies disk
      ensures disk.Valid() && data == Load(old(disk.files)) && disk.files == Loaded(old(disk.files))
      ensures SNAPSHOT !in old(disk.files) ==> data == None && disk.files == old(disk.files)
      ensures SNAPSHOT in old(disk.files) && old(disk.files)[SNAPSHOT].Image? ==>
                data == Some(old(disk.files)[SNAPSHOT].table) && disk.files == old(disk.files)
      ensures SNAPSHOT in old(disk.files) && !old(disk.files)[SNAPSHOT].Image? ==>
                if SNAPSHOT_BACKUP !in old(disk.files) then data == None && disk.files == old(disk.files)
                else
                  var backup := old(disk.files)[SNAPSHOT_BACKUP];
                  && disk.files == old(disk.files)[SNAPSHOT := backup]
                  && data == if backup.Image? then Some(backup.table) else None
    {
      if SNAPSHOT !in disk.files { return None; }
      var file := disk.files[SNAPSHOT];
      if file.Image? { return Some(file.table); }
      if SNAPSHOT_BACKUP in disk.files {
        var backup := disk.files[SNAPSHOT_BACKUP];
        disk.Do(Write(SNAPSHOT, backup));
        if backup.Image? { return Some(backup.table); }
      }
      return None;
    }
  }

  class AOFPersistence {
    const disk: Disk
    const fsyncInterval: real
    /** Lines appended and not yet written to the file. */
    var buffer: seq<Line>
    /** How many lines of the file are known to be on stable storage. */
    var synced: nat
    var lastFsync: real
    var entriesSinceCompact: nat

    /** Opening for appending creates the file. */
    constructor (disk: Disk, fsyncInterval: real, now: real)
      requires disk.Valid() && (AOF in disk.files ==> disk.files[AOF].Lines?)
      modifies disk
      ensures this.disk == disk && Valid() && synced == 0 && entriesSinceCompact == 0 && buffer == []
      ensures disk.files == if AOF in old(disk.files) then old(disk.files) else old(disk.files)[AOF := Lines([])]
    {
      this.disk := disk;
      this.fsyncInterval := fsyncInterval;
      buffer, synced, lastFsync, entriesSinceCompact := [], 0, now, 0;
      new;
      if AOF !in disk.files { disk.Do(Write(AOF, Lines([]))); }
    }

    ghost predicate Valid()
      reads this, disk
    {
      disk.Valid() && AOF in disk.files && disk.files[AOF].Lines? && synced <= |LoggedLines(disk.files)|
    }

    /** Every line appended so far, in the file or still in the buffer. */
    ghost function Log(): seq<Line>
      reads this, disk
    {
      LoggedLines(disk.files) + buffer
    }

    /** The file moves on to more of the log: the first n buffered lines are written. */
    method WriteOut(n: nat)
      requires Valid() && n <= |buffer|
      modifies this`buffer, disk
      ensures Valid() && Log() == old(Log()) && |buffer| == old(|buffer|) - n
      ensures disk.files == old(disk.files)[AOF := Lines(old(LoggedLines(disk.files)) + old(buffer)[..n])]
      ensures disk.done == old(disk.done) + [Write(AOF, Lines(old(LoggedLines(disk.files)) + old(buffer)[..n]))]
    {
      disk.Do(Write(AOF, Lines(LoggedLines(disk.files) + buffer[..n])));
      buffer := buffer[n..];
      assert Log() == old(Log());
    }

    /** The runtime may write out `spilled` buffered lines on its own. A synced append, or one
        after the interval, forces every line so far to stable storage; otherwise the line
        may stay in the buffer. What a crash leaves, the file, is always part of the log and
        holds at least the synced lines. */
    method Append(line: Line, sync: bool, now: real, spilled: nat)
      requires Valid() && spilled <= |buffer| + 1
      modifies this, disk
      ensures Valid() && Log() == old(Log()) + [line] && LoggedLines(disk.files) <= Log()
      ensures synced == if sync || now - old(lastFsync) > fsyncInterval then |Log()| else old(synced)
      ensures sync || now - old(lastFsync) > fsyncInterval ==> buffer == []
      ensures entriesSinceCompact == old(entriesSinceCompact) + 1
    {
      buffer := buffer + [line];
      assert Log() == old(Log()) + [line];
      WriteOut(spilled);
      entriesSinceCompact := entriesSinceCompact + 1;
      if sync || now - lastFsync > fsyncInterval { DoFsync(now); }
    }

    method DoFsync(now: real)
      requires Valid()
      modifies this`buffer, this`synced, this`lastFsync, disk
      ensures Valid() && buffer == [] && LoggedLines(disk.files) == Log() == old(Log())
      ensures synced == |Log()| && lastFsync == now
      ensures disk.files == old(disk.files)[AOF := Lines(old(Log()))]
      ensures disk.done == old(disk.done) + [Write(AOF, Lines(old(Log())))]
    {
      assert buffer[..|buffer|] == buffer;
      WriteOut(|buffer|);
      synced := |LoggedLines(disk.files)|;
      lastFsync := now;
    }

    /** Flushes, and then performs exactly the operations of CompactOps; every line of the new
        log is on stable storage. */
    method Compact(data: Table, order: seq<string>, now: real)
      requires Valid() && forall key :: key in order ==> key in data
      modifies this, disk
      ensures Valid() && LoggedLines(disk.files) == Log() == LinesOf(data, order)
      ensures synced == |order| && entriesSinceCompact == 0
      ensures var flushed := old(disk.files)[AOF := Lines(old(Log()))];
              disk.done == old(disk.done) + [Write(AOF, Lines(old(Log())))] + CompactOps(flushed, data, order)
      ensures Compacted(old(disk.files), old(Log()), data, order, disk.files)
    {
      DoFsync(now);
      var lines := Rewrite(data, order);
      disk.WriteFile(AOF_TEMP, Lines(lines));
      ghost var flushed := old(disk.files)[AOF := Lines(old(Log()))];
      assert ReplaceOps(disk.files) == ReplaceOps(flushed);
      ReplaceLog(lines);
      CompactLeaves(old(disk.files), old(Log()), data, order, lines);
      synced, entriesSinceCompact := |lines|, 0;
    }

    method Rewrite(data: Table, order: seq<string>) returns (lines: seq<Line>)
      requires forall key :: key in order ==> key in data
      ensures lines == LinesOf(data, order) && |lines| == |order|
    {
      lines := [];
      var i := 0;
      while i < |order|
        invariant 0 <= i <= |order|
        invariant forall key :: key in order[..i] ==> key in data
        invariant lines == LinesOf(data, order[..i]) && |lines| == i
      {
        assert order[i] in order;
        assert order[..i + 1][..i] == order[..i];
        lines := lines + [SetLine(order[i], data[order[i]])];
        i := i + 1;
      }
      assert order[..i] == order;
    }

    method ReplaceLog(lines: seq<Line>)
      requires disk.Valid() && AOF_TEMP in disk.files && disk.files[AOF_TEMP] == Lines(lines)
      modifies disk
      ensures disk.Valid() && disk.done == old(disk.done) + ReplaceOps(old(disk.files))
      ensures AOF in old(disk.files) ==>
                disk.files == (old(disk.files) - {AOF_TEMP})[AOF_BACKUP := old(disk.files)[AOF]][AOF := Lines(lines)]
      ensures AOF in disk.files && disk.files[AOF] == Lines(lines)
    {
      if AOF_BACKUP in disk.files { disk.Do(Delete(AOF_BACKUP)); }
      if AOF in disk.files { disk.Do(Rename(AOF, AOF_BACKUP)); }
      disk.Do(Rename(AOF_TEMP, AOF));
    }

    /** Applies every line of the log to the store, in order. */
    method ReplayInto(store: KVStore) returns (count: nat)
      modifies store
      ensures store.table == Replay(old(store.table), LoggedLines(disk.files)) && count == |LoggedLines(disk.files)|
    {
      var lines := LoggedLines(disk.files);
      count := 0;
      while count < |lines|
        invariant 0 <= count <= |lines|
        invariant store.table == Replay(old(store.table), lines[..count])
      {
        assert lines[..count + 1][..count] == lines[..count];
        match lines[count] {
          case SetLine(key, item) =>
            store.Set(key, item.value, Some(item.version), Some(item.createdAt), Some(item.updatedAt),
                Some(item.coordinator), 0.0);
          case DeleteLine(key) =>
            var _ := store.Delete(key);
        }
        count := count + 1;
      }
      assert lines[..count] == lines;
    }
  }

  /** A node's start: the snapshot goes into the empty store, and the log on top of it. */
  method RecoverData(snapshot: SnapshotPersistence, aof: AOFPersistence, store: KVStore)
    requires snapshot.disk == aof.disk && aof.disk.Valid() && store.table == map[]
    modifies aof.disk, store
    ensures store.table == Recover(old(aof.disk.files)) && aof.disk.files == Loaded(old(aof.disk.files))
  {
    var loaded := snapshot.LoadSnapshot();
    if loaded.Some? { store.LoadData(loaded.value); }
    assert store.table == if loaded.Some? then loaded.value else map[];
    var _ := aof.ReplayInto(store);
  }
}

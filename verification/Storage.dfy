/** The key-value table of a node, the rules by which updates enter it, and the log that
    mirrors it (minidb/storage/kv_store.py and the handlers of minidb/node.py).
    Expiry is not modelled: no item carries a time to live. */
module Storage {
  import opened Options
  import opened Ordering

  /** A stored value; JSON null is a value like any other. */
  datatype Value = Null | Text(text: string)

  datatype Item = Item(value: Value, version: int, createdAt: real, updatedAt: real, coordinator: string)

  type Table = map<string, Item>

  function RankOf(item: Item): Rank {
    Rank(item.version, item.updatedAt, item.coordinator)
  }

  /** KVStore.set with its defaults: an absent or zero version means "one more than now",
      an absent creation time or coordinator is inherited. */
  function SetResult(existing: Option<Item>, value: Value, version: Option<int>, createdAt: Option<real>,
                     updatedAt: Option<real>, coordinator: Option<string>, now: real): Item
  {
    var updated := if updatedAt.Some? then updatedAt.value else now;
    Item(value,
         if version.Some? && version.value != 0 then version.value
         else if existing.Some? then existing.value.version + 1 else 1,
         if createdAt.Some? then createdAt.value
         else if existing.Some? then existing.value.createdAt else updated,
         updated,
         if coordinator.Some? then coordinator.value
         else if existing.Some? then existing.value.coordinator else "")
  }

  function Find(t: Table, key: string): Option<Item> {
    if key in t then Some(t[key]) else None
  }

  /** Stores an item whose metadata is all given; only a zero version is still replaced. */
  function Put(t: Table, key: string, item: Item): Table {
    t[key := SetResult(Find(t, key), item.value, Some(item.version), Some(item.createdAt),
                       Some(item.updatedAt), Some(item.coordinator), 0.0)]
  }

  /** The conflict rule of every update handler: only an older rank is refused. */
  function Offer(t: Table, key: string, item: Item): Table {
    if key in t && Less(RankOf(item), RankOf(t[key])) then t else Put(t, key, item)
  }

  /** y is the later write: of a higher version, else of a later time, else of a coordinator
      whose name comes later. */
  predicate Outdated(x: Item, y: Item) {
    x.version < y.version
    || (x.version == y.version && x.updatedAt < y.updatedAt)
    || (x.version == y.version && x.updatedAt == y.updatedAt && LexLess(x.coordinator, y.coordinator))
  }

  /** What an update leaves: the table as it was if it holds a later write, and otherwise
      just this item under its key, where a zero version means one more than before. */
  predicate Decided(t: Table, key: string, x: Item, t': Table) {
    if key in t && Outdated(x, t[key]) then t' == t
    else if x.version != 0 then t' == t[key := x]
    else t' == t[key := x.(version := if key in t then t[key].version + 1 else 1)]
  }

  lemma OfferDecides(t: Table, key: string, x: Item)
    ensures Decided(t, key, x, Offer(t, key, x))
  {}

  /** Nothing is lost or replaced by something of lower rank. */
  ghost predicate TableGrows(t: Table, t': Table) {
    forall key :: key in t ==> key in t' && AtMost(RankOf(t[key]), RankOf(t'[key]))
  }

  // ------------------------------------------------------------------- log lines

  datatype Line = SetLine(key: string, item: Item) | DeleteLine(key: string)

  function ApplyLine(t: Table, line: Line): Table {
    match line
    case SetLine(key, item) => Put(t, key, item)
    case DeleteLine(key) => t - {key}
  }

  function Replay(t: Table, lines: seq<Line>): Table {
    if lines == [] then t else ApplyLine(Replay(t, lines[..|lines| - 1]), lines[|lines| - 1])
  }

  lemma ReplayOneMore(t: Table, lines: seq<Line>, line: Line)
    ensures Replay(t, lines + [line]) == ApplyLine(Replay(t, lines), line)
  {
    assert (lines + [line])[..|lines|] == lines;
  }

  // ---------------------------------------------------------------- write entries

  datatype Command = SET | DELETE

  /** A write as the coordinating leader issues it. */
  datatype WriteEntry = WriteEntry(index: nat, command: Command, key: string, value: Value,
                                   timestamp: real, version: int, createdAt: real, coordinator: string)

  function ItemOf(e: WriteEntry): Item {
    Item(e.value, e.version, e.createdAt, e.timestamp, e.coordinator)
  }

  /** The entry for a new write: the version and the creation time follow the leader's own
      copy of the key. */
  function EntryFor(t: Table, index: nat, command: Command, key: string, value: Value, now: real,
      leader: string): WriteEntry {
    var current := Find(t, key);
    WriteEntry(index, command, key, value, now,
               if current.Some? then current.value.version + 1 else 1,
               if current.Some? then current.value.createdAt else now, leader)
  }

  /** A committed entry is applied without looking at ranks. */
  function ApplyEntry(t: Table, e: WriteEntry): Table {
    match e.command
    case SET => Put(t, e.key, ItemOf(e))
    case DELETE => t - {e.key}
  }

  /** A SET leaves the entry's own value, version, times and coordinator under its key, and a
      DELETE nothing; every other key is as before. */
  predicate Applied(t: Table, e: WriteEntry, t': Table) {
    match e.command
    case DELETE => t' == t - {e.key}
    case SET =>
      t' == t[e.key := Item(e.value,
                            if e.version != 0 then e.version else if e.key in t then t[e.key].version + 1 else 1,
                            e.createdAt, e.timestamp, e.coordinator)]
  }

  lemma EntryIsApplied(t: Table, e: WriteEntry)
    ensures Applied(t, e, ApplyEntry(t, e))
  {}

  function LineOf(e: WriteEntry): Line {
    if e.command == SET then SetLine(e.key, ItemOf(e)) else DeleteLine(e.key)
  }

  // ----------------------------------------------------------------- convergence

  datatype Kind = ReplicaSet | Import | Repair

  /** An update message; `now` is the receiver's clock, used where a time is missing. */
  datatype Update = Update(kind: Kind, key: string, item: Item, now: real)

  /** Import and repair take a zero time for a missing one. */
  function Received(u: Update): Item {
    if u.kind == ReplicaSet then u.item
    else
      var updated := if u.item.updatedAt == 0.0 then u.now else u.item.updatedAt;
      u.item.(updatedAt := updated, createdAt := if u.item.createdAt == 0.0 then updated else u.item.createdAt)
  }

  function Deliver(t: Table, u: Update): Table {
    Offer(t, u.key, Received(u))
  }

  /** What a message leaves, field by field: import and repair fill in missing times, and
      then the later write wins. */
  lemma DeliverDecides(t: Table, u: Update)
    ensures var given := u.kind == ReplicaSet;
            var updated := if given || u.item.updatedAt != 0.0 then u.item.updatedAt else u.now;
            var created := if given || u.item.createdAt != 0.0 then u.item.createdAt else updated;
            Decided(t, u.key, Item(u.item.value, u.item.version, created, updated, u.item.coordinator), Deliver(t, u))
  {}

  function DeliverAll(t: Table, updates: seq<Update>): Table {
    if updates == [] then t else Deliver(DeliverAll(t, updates[..|updates| - 1]), updates[|updates| - 1])
  }

  /** Metadata as the write path produces it. */
  predicate Proper(item: Item) {
    item.version >= 1 && item.updatedAt > 0.0 && item.createdAt > 0.0
  }

  ghost predicate Carries(updates: seq<Update>, key: string, x: Item) {
    exists u :: u in updates && u.key == key && u.item == x
  }

  /** x is what the key held at first or what some message carries for it. */
  ghost predicate Candidate(t: Table, updates: seq<Update>, key: string, x: Item) {
    (key in t && t[key] == x) || Carries(updates, key, x)
  }

  ghost predicate HoldsMaximum(t: Table, updates: seq<Update>, r: Table, key: string) {
    && (key in r <==> exists x :: Candidate(t, updates, key, x))
    && (key in r ==> Candidate(t, updates, key, r[key])
                     && forall x :: Candidate(t, updates, key, x) ==> AtMost(RankOf(x), RankOf(r[key])))
  }

  lemma CandidatesGrow(t: Table, updates: seq<Update>, u: Update, key: string, x: Item)
    ensures Candidate(t, updates + [u], key, x) <==> Candidate(t, updates, key, x) || (u.key == key && u.item == x)
  {
    if Candidate(t, updates, key, x) && !(key in t && t[key] == x) {
      var v :| v in updates && v.key == key && v.item == x;
      assert v in updates + [u];
    }
    if u.key == key && u.item == x { assert u in updates + [u]; }
  }

  lemma OfferTakesMaximum(t: Table, updates: seq<Update>, u: Update, key: string)
    requires Proper(u.item)
    requires HoldsMaximum(t, updates, DeliverAll(t, updates), key)
    ensures HoldsMaximum(t, updates + [u], Deliver(DeliverAll(t, updates), u), key)
  {
    var r := DeliverAll(t, updates);
    var r' := Deliver(r, u);
    forall x
      ensures Candidate(t, updates + [u], key, x)
              <==> Candidate(t, updates, key, x) || (u.key == key && u.item == x) {
      CandidatesGrow(t, updates, u, key, x);
    }
    if u.key == key {
      assert Candidate(t, updates + [u], key, u.item);
      if key in r { RankTotal(RankOf(r[key]), RankOf(u.item)); }
      forall x | Candidate(t, updates + [u], key, x) ensures AtMost(RankOf(x), RankOf(r'[key])) {
        if key in r && x != u.item && r'[key] == u.item {
          RankTransitive(RankOf(x), RankOf(r[key]), RankOf(u.item));
        }
      }
    } else if key in r {
      assert Candidate(t, updates, key, r[key]);
    }
  }

  /** Whatever the order and however often each message arrives, every key ends at the
      highest-ranked of its first item and the items sent for it. */
  lemma {:induction false} DeliveryReachesMaximum(t: Table, updates: seq<Update>, key: string)
    requires forall u :: u in updates ==> Proper(u.item)
    ensures HoldsMaximum(t, updates, DeliverAll(t, updates), key)
  {
    if updates == [] {
      if key in t { assert Candidate(t, updates, key, t[key]); }
    } else {
      var front, u := updates[..|updates| - 1], updates[|updates| - 1];
      DeliveryReachesMaximum(t, front, key);
      OfferTakesMaximum(t, front, u, key);
      assert front + [u] == updates;
    }
  }

  /** No two competing items of a key have the same rank. */
  ghost predicate Unambiguous(t: Table, updates: seq<Update>) {
    forall key, x, y :: Candidate(t, updates, key, x) && Candidate(t, updates, key, y) && RankOf(x) == RankOf(y)
      ==> x == y
  }

  ghost predicate SameContent(a: seq<Update>, b: seq<Update>) {
    forall key, x :: Carries(a, key, x) <==> Carries(b, key, x)
  }

  /** Two nodes that start alike and receive the same updates, by whatever mix of replica-set,
      import and repair messages, in any order and with any repetition, end alike. */
  lemma Convergence(t: Table, a: seq<Update>, b: seq<Update>)
    requires forall u :: u in a + b ==> Proper(u.item)
    requires Unambiguous(t, a) && SameContent(a, b)
    ensures DeliverAll(t, a) == DeliverAll(t, b)
  {
    forall u | u in a ensures Proper(u.item) { assert u in a + b; }
    forall u | u in b ensures Proper(u.item) { assert u in a + b; }
    forall key ensures Find(DeliverAll(t, a), key) == Find(DeliverAll(t, b), key) {
      ConvergenceOfKey(t, a, b, key);
    }
    SameEverywhere(DeliverAll(t, a), DeliverAll(t, b));
  }

  lemma ConvergenceOfKey(t: Table, a: seq<Update>, b: seq<Update>, key: string)
    requires forall u :: u in a ==> Proper(u.item)
    requires forall u :: u in b ==> Proper(u.item)
    requires Unambiguous(t, a) && SameContent(a, b)
    ensures Find(DeliverAll(t, a), key) == Find(DeliverAll(t, b), key)
  {
    var r, r' := DeliverAll(t, a), DeliverAll(t, b);
    DeliveryReachesMaximum(t, a, key);
    DeliveryReachesMaximum(t, b, key);
    assert forall x :: Candidate(t, a, key, x) <==> Candidate(t, b, key, x);
    if key in r && key in r' { RankTotal(RankOf(r[key]), RankOf(r'[key])); }
  }

  lemma SameEverywhere(a: Table, b: Table)
    requires forall key :: Find(a, key) == Find(b, key)
    ensures a == b
  {
    assert forall key :: key in a <==> Find(a, key).Some?;
    assert forall key :: key in b <==> Find(b, key).Some?;
    assert forall key :: key in a ==> Find(a, key).value == a[key];
  }

  // ---------------------------------------------------------------- the classes

  class KVStore {
    var table: Table

    constructor ()
      ensures table == map[]
    {
      table := map[];
    }

    method Set(key: string, value: Value, version: Option<int>, createdAt: Option<real>,
               updatedAt: Option<real>, coordinator: Option<string>, now: real)
      modifies this
      ensures table == old(table)[key :=
              SetResult(Find(old(table), key), value, version, createdAt, updatedAt, coordinator, now)]
      ensures key in table && table[key].value == value
      ensures table[key].updatedAt == if updatedAt.Some? then updatedAt.value else now
      ensures var known := key in old(table);
              && (version.Some? && version.value != 0 ==> table[key].version == version.value)
              && (version.None? || version.value == 0 ==>
                    table[key].version == if known then old(table)[key].version + 1 else 1)
              && (createdAt.Some? ==> table[key].createdAt == createdAt.value)
              && (createdAt.None? ==>
                    table[key].createdAt == if known then old(table)[key].createdAt else table[key].updatedAt)
              && (coordinator.Some? ==> table[key].coordinator == coordinator.value)
              && (coordinator.None? ==> table[key].coordinator == if known then old(table)[key].coordinator else "")
    {
      var effectiveUpdatedAt := if updatedAt.Some? then updatedAt.value else now;
      var newVersion;
      if version.Some? && version.value != 0 { newVersion := version.value; }
      else if key in table { newVersion := table[key].version + 1; }
      else { newVersion := 1; }
      var effectiveCreatedAt := effectiveUpdatedAt;
      if createdAt.Some? { effectiveCreatedAt := createdAt.value; }
      else if key in table { effectiveCreatedAt := table[key].createdAt; }
      var effectiveCoordinator := "";
      if coordinator.Some? { effectiveCoordinator := coordinator.value; }
      else if key in table { effectiveCoordinator := table[key].coordinator; }
      table := table[key := Item(value, newVersion, effectiveCreatedAt, effectiveUpdatedAt, effectiveCoordinator)];
    }

    method Delete(key: string) returns (existed: bool)
      modifies this
      ensures table == old(table) - {key} && existed == (key in old(table))
    {
      existed := key in table;
      if existed { table := table - {key}; }
    }

    /** Loads a snapshot on top of what is there. */
    method LoadData(data: Table)
      modifies this
      ensures table == old(table) + data
    {
      var keys := data.Keys;
      while keys != {}
        invariant keys <= data.Keys
        invariant table == old(table) + (map k | k in data.Keys - keys :: data[k])
        decreases |keys|
      {
        var key :| key in keys;
        table := table[key := data[key]];
        keys := keys - {key};
      }
      assert (map k | k in data.Keys - keys :: data[k]) == data;
    }
  }

  /** The handlers through which updates reach a node. Each keeps the append-only log in
      step with the table. */
  class DatabaseNode {
    const store: KVStore
    var aof: seq<Line>

    constructor ()
      ensures fresh(store) && store.table == map[] && aof == []
    {
      store := new KVStore();
      aof := [];
    }

    /** The log replays to the table. */
    predicate Mirrored()
      reads this, store
    {
      store.table == Replay(map[], aof)
    }

    method Record(key: string, item: Item)
      modifies this`aof, store
      ensures store.table == Put(old(store.table), key, item)
      ensures aof == old(aof) + [SetLine(key, item)]
      ensures old(Mirrored()) ==> Mirrored()
    {
      store.Set(key, item.value, Some(item.version), Some(item.createdAt), Some(item.updatedAt),
          Some(item.coordinator), 0.0);
      aof := aof + [SetLine(key, item)];
      ReplayOneMore(map[], old(aof), SetLine(key, item));
    }

    method Erase(key: string)
      modifies this`aof, store
      ensures store.table == old(store.table) - {key}
      ensures aof == old(aof) + [DeleteLine(key)]
      ensures old(Mirrored()) ==> Mirrored()
    {
      var _ := store.Delete(key);
      aof := aof + [DeleteLine(key)];
      ReplayOneMore(map[], old(aof), DeleteLine(key));
    }

    method ApplyLogEntry(entry: WriteEntry)
      modifies this`aof, store
      ensures store.table == ApplyEntry(old(store.table), entry)
      ensures Applied(old(store.table), entry, store.table)
      ensures aof == old(aof) + [LineOf(entry)]
      ensures aof == old(aof) + [if entry.command == DELETE then DeleteLine(entry.key) else
                                 SetLine(entry.key, Item(entry.value, entry.version, entry.createdAt, entry.timestamp,
                                                         entry.coordinator))]
      ensures old(Mirrored()) ==> Mirrored()
    {
      EntryIsApplied(store.table, entry);
      if entry.command == SET {
        Record(entry.key, ItemOf(entry));
      } else {
        Erase(entry.key);
      }
    }

    method HandleReplicaSet(key: string, item: Item) returns (stored: bool)
      modifies this`aof, store
      ensures store.table == Deliver(old(store.table), Update(ReplicaSet, key, item, 0.0))
      ensures stored == !(key in old(store.table) && Outdated(item, old(store.table)[key]))
      ensures Decided(old(store.table), key, item, store.table)
      ensures aof == if stored then old(aof) + [SetLine(key, item)] else old(aof)
      ensures old(Mirrored()) ==> Mirrored()
    {
      if key in store.table && Less(RankOf(item), RankOf(store.table[key])) { return false; }
      Record(key, item);
      return true;
    }

    method ApplyRepairData(key: string, item: Item, now: real)
      modifies this`aof, store
      ensures store.table == Deliver(old(store.table), Update(Repair, key, item, now))
      ensures var updated := if item.updatedAt != 0.0 then item.updatedAt else now;
              var created := if item.createdAt != 0.0 then item.createdAt else updated;
              Decided(old(store.table), key, item.(updatedAt := updated, createdAt := created), store.table)
      ensures old(Mirrored()) ==> Mirrored()
    {
      var incoming := Received(Update(Repair, key, item, now));
      if key in store.table && Less(RankOf(incoming), RankOf(store.table[key])) { return; }
      Record(key, incoming);
    }

    /** Bulk import: every payload entry goes through the conflict rule, in order, and what is
        stored under a key that this node owns is passed on to the key's other replicas. */
    method HandleImportKeys(payload: seq<(string, Item)>, now: real, ring: Ownership)
      returns (imported: nat, skipped: nat, sends: seq<Send>)
      modifies this`aof, store
      ensures store.table == DeliverAll(old(store.table), Imports(payload, now))
      ensures imported + skipped == |payload|
      ensures skipped == RefusedCount(old(store.table), payload, now)
      ensures sends == FanOut(old(store.table), payload, now, ring)
      ensures old(Mirrored()) ==> Mirrored()
    {
      imported, skipped, sends := 0, 0, [];
      var i := 0;
      while i < |payload|
        invariant 0 <= i <= |payload| && imported + skipped == i
        invariant skipped == RefusedCount(old(store.table), payload[..i], now)
        invariant store.table == DeliverAll(old(store.table), Imports(payload[..i], now))
        invariant sends == FanOut(old(store.table), payload[..i], now, ring)
        invariant old(Mirrored()) ==> Mirrored()
      {
        var (key, item) := payload[i];
        ImportsStep(old(store.table), payload, now, i);
        FanOutStep(old(store.table), payload, now, ring, i);
        RefusedStep(old(store.table), payload, now, i);
        var stored := ImportOne(key, item, now);
        if stored {
          imported := imported + 1;
          if ring.owns(key) {
            var passedOn := PassOn(key, Received(Update(Import, key, item, now)), ring);
            sends := sends + passedOn;
          }
        } else {
          skipped := skipped + 1;
        }
        i := i + 1;
      }
      assert payload[..i] == payload;
    }

    method ImportOne(key: string, item: Item, now: real) returns (stored: bool)
      modifies this`aof, store
      ensures store.table == Deliver(old(store.table), Update(Import, key, item, now))
      ensures stored == !Refused(old(store.table), key, item, now)
      ensures old(Mirrored()) ==> Mirrored()
    {
      var incoming := Received(Update(Import, key, item, now));
      if key in store.table && Less(RankOf(incoming), RankOf(store.table[key])) { return false; }
      Record(key, incoming);
      return true;
    }

    method PassOn(key: string, item: Item, ring: Ownership) returns (sends: seq<Send>)
      ensures sends == SendsTo(ring.replicas(key), ring.self, key, item)
    {
      sends := [];
      var targets := ring.replicas(key);
      var i := 0;
      while i < |targets|
        invariant 0 <= i <= |targets| && sends == SendsTo(targets[..i], ring.self, key, item)
      {
        assert targets[..i + 1][..i] == targets[..i];
        if targets[i] != ring.self { sends := sends + [Send(targets[i], Update(ReplicaSet, key, item, 0.0))]; }
        i := i + 1;
      }
      assert targets[..i] == targets;
    }

    method DeleteMigratedKeys(keys: seq<string>)
      modifies this`aof, store
      ensures store.table == old(store.table) - (set k | k in keys)
      ensures old(Mirrored()) ==> Mirrored()
    {
      var i := 0;
      while i < |keys|
        invariant 0 <= i <= |keys|
        invariant store.table == old(store.table) - (set k | k in keys[..i])
        invariant old(Mirrored()) ==> Mirrored()
      {
        Erase(keys[i]);
        assert keys[..i + 1] == keys[..i] + [keys[i]];
        i := i + 1;
      }
      assert keys[..i] == keys;
    }
  }

  function Imports(payload: seq<(string, Item)>, now: real): (us: seq<Update>)
    ensures |us| == |payload|
  {
    if payload == [] then []
    else
      var last := payload[|payload| - 1];
      Imports(payload[..|payload| - 1], now) + [Update(Import, last.0, last.1, now)]
  }

  lemma ImportsStep(t: Table, payload: seq<(string, Item)>, now: real, i: nat)
    requires i < |payload|
    ensures var us, u := Imports(payload[..i], now), Update(Import, payload[i].0, payload[i].1, now);
            Imports(payload[..i + 1], now) == us + [u]
            && DeliverAll(t, Imports(payload[..i + 1], now)) == Deliver(DeliverAll(t, us), u)
  {
    assert payload[..i + 1][..i] == payload[..i];
    var us, u := Imports(payload[..i], now), Update(Import, payload[i].0, payload[i].1, now);
    assert (us + [u])[..i] == us;
  }

  /** The import meets a later write of its key. */
  predicate Refused(t: Table, key: string, item: Item, now: real) {
    key in t && Outdated(item.(updatedAt := if item.updatedAt != 0.0 then item.updatedAt else now), t[key])
  }

  /** How many entries meet a later write when they are imported in order. */
  function RefusedCount(t: Table, payload: seq<(string, Item)>, now: real): nat {
    if payload == [] then 0
    else
      var front, last := payload[..|payload| - 1], payload[|payload| - 1];
      RefusedCount(t, front, now) + if Refused(DeliverAll(t, Imports(front, now)), last.0, last.1, now) then 1 else 0
  }

  lemma RefusedStep(t: Table, payload: seq<(string, Item)>, now: real, i: nat)
    requires i < |payload|
    ensures var before := DeliverAll(t, Imports(payload[..i], now));
            RefusedCount(t, payload[..i + 1], now)
            == RefusedCount(t, payload[..i], now) + if Refused(before, payload[i].0, payload[i].1, now) then 1 else 0
  {
    assert payload[..i + 1][..i] == payload[..i];
  }

  // ------------------------------------------------------- passing imports on

  /** What a node asks the ring. */
  datatype Ownership = Ownership(self: string, owns: string -> bool, replicas: string -> seq<string>)

  datatype Send = Send(target: string, update: Update)

  function SendsTo(targets: seq<string>, self: string, key: string, item: Item): seq<Send> {
    if targets == [] then []
    else
      var n := |targets| - 1;
      SendsTo(targets[..n], self, key, item)
      + if targets[n] != self then [Send(targets[n], Update(ReplicaSet, key, item, 0.0))] else []
  }

  /** What one payload entry gives rise to, given the table it meets. */
  function PassedOn(t: Table, key: string, item: Item, now: real, ring: Ownership): seq<Send> {
    var incoming := Received(Update(Import, key, item, now));
    if (key in t && Less(RankOf(incoming), RankOf(t[key]))) || !ring.owns(key) then []
    else SendsTo(ring.replicas(key), ring.self, key, incoming)
  }

  function FanOut(t: Table, payload: seq<(string, Item)>, now: real, ring: Ownership): seq<Send> {
    if payload == [] then []
    else
      var front, last := payload[..|payload| - 1], payload[|payload| - 1];
      FanOut(t, front, now, ring) + PassedOn(DeliverAll(t, Imports(front, now)), last.0, last.1, now, ring)
  }

  lemma FanOutStep(t: Table, payload: seq<(string, Item)>, now: real, ring: Ownership, i: nat)
    requires i < |payload|
    ensures var before := DeliverAll(t, Imports(payload[..i], now));
            FanOut(t, payload[..i + 1], now, ring)
            == FanOut(t, payload[..i], now, ring) + PassedOn(before, payload[i].0, payload[i].1, now, ring)
  {
    assert payload[..i + 1][..i] == payload[..i];
  }

  lemma {:induction false} SendsToTargets(targets: seq<string>, self: string, key: string, item: Item, s: Send)
    ensures s in SendsTo(targets, self, key, item) <==>
              s.target in targets && s.target != self && s.update == Update(ReplicaSet, key, item, 0.0)
  {
    if targets != [] {
      var n := |targets| - 1;
      SendsToTargets(targets[..n], self, key, item, s);
      assert targets == targets[..n] + [targets[n]];
    }
  }

  /** Payload entry i is stored under a key the node owns, and s carries it, as it was
      received, to another replica of the key. */
  predicate Forwards(t: Table, payload: seq<(string, Item)>, now: real, ring: Ownership, i: int, s: Send)
    requires 0 <= i < |payload|
  {
    var (key, item) := payload[i];
    var updated := if item.updatedAt != 0.0 then item.updatedAt else now;
    var created := if item.createdAt != 0.0 then item.createdAt else updated;
    && ring.owns(key) && !Refused(DeliverAll(t, Imports(payload[..i], now)), key, item, now)
    && s.target in ring.replicas(key) && s.target != ring.self
    && s.update.kind == ReplicaSet && s.update.key == key && s.update.now == 0.0
    && s.update.item == item.(updatedAt := updated, createdAt := created)
  }

  /** One of the first n payload entries gives rise to s. */
  ghost predicate Forwarded(t: Table, payload: seq<(string, Item)>, now: real, ring: Ownership, s: Send, n: nat)
    requires n <= |payload|
  {
    exists i :: 0 <= i < n && Forwards(t, payload, now, ring, i, s)
  }

  lemma ForwardedEarlier(t: Table, payload: seq<(string, Item)>, now: real, ring: Ownership, s: Send, n: nat)
    requires n <= |payload|
    ensures Forwarded(t, payload[..n], now, ring, s, n) <==> Forwarded(t, payload, now, ring, s, n)
  {
    forall i | 0 <= i < n
      ensures Forwards(t, payload[..n], now, ring, i, s) <==> Forwards(t, payload, now, ring, i, s) {
      assert payload[..n][..i] == payload[..i];
    }
  }

  lemma PassedOnExactly(t: Table, payload: seq<(string, Item)>, now: real, ring: Ownership, s: Send)
    requires payload != []
    ensures var n := |payload| - 1;
            s in PassedOn(DeliverAll(t, Imports(payload[..n], now)), payload[n].0, payload[n].1, now, ring)
            <==> Forwards(t, payload, now, ring, n, s)
  {
    var (key, item) := payload[|payload| - 1];
    SendsToTargets(ring.replicas(key), ring.self, key, Received(Update(Import, key, item, now)), s);
  }

  /** Exactly the imports that are stored under keys the node owns are passed on, to every
      other replica of their key, as they were received, so that all of them converge. */
  lemma {:induction false} FanOutExactly(t: Table, payload: seq<(string, Item)>, now: real, ring: Ownership, s: Send)
    ensures s in FanOut(t, payload, now, ring) <==> Forwarded(t, payload, now, ring, s, |payload|)
  {
    if payload != [] {
      var n := |payload| - 1;
      FanOutExactly(t, payload[..n], now, ring, s);
      ForwardedEarlier(t, payload, now, ring, s, n);
      PassedOnExactly(t, payload, now, ring, s);
      OneMoreForwards(t, payload, now, ring, s, n);
    }
  }

  lemma OneMoreForwards(t: Table, payload: seq<(string, Item)>, now: real, ring: Ownership, s: Send, n: nat)
    requires n < |payload|
    ensures Forwarded(t, payload, now, ring, s, n + 1)
            <==> Forwarded(t, payload, now, ring, s, n) || Forwards(t, payload, now, ring, n, s)
  {}
}

/** Moving keys to their owners (minidb/sharding/migration.py) through the import handler
    of the receiving node (minidb/node.py:1015-1063). No write is interleaved with a task.
    Each batch is imported or not, and the reply of an imported batch may still be lost. */
module Migration {
  import opened Nodes
  import opened Options
  import opened Ordering
  import opened Storage
  import HashRing
  import Quorums

  const BATCH_SIZE: nat := 100

  datatype TaskState = PENDING | IN_PROGRESS | COMPLETED | FAILED

  datatype Task = Task(target: NodeId, keys: seq<string>, state: TaskState, progress: nat)

  /** What the manager decides by: its own name and the ring's two lookups. */
  datatype Placement = Placement(self: NodeId, owner: string -> Option<NodeId>, replicas: string -> seq<NodeId>) {
    predicate Replicates(key: string) {
      self in replicas(key)
    }
    /** The key has to leave this node, and there is a node to send it to. */
    predicate Leaves(key: string) {
      !Replicates(key) && owner(key).Some? && owner(key).value != "" && owner(key).value != self
    }
  }

  function PlacementOn(config: HashRing.Config, ring: HashRing.Ring, self: NodeId, replicationFactor: nat): Placement {
    Placement(self, key => HashRing.GetNode(config, ring, key),
        key => HashRing.GetNodes(config, ring, key, replicationFactor))
  }

  /** The tables involved: this node's and those of the nodes it can reach. */
  datatype Tables = Tables(local: Table, peers: map<NodeId, Table>)

  datatype Delivery = Delivery(processed: bool, replied: bool)

  predicate ProperTable(t: Table) {
    forall key :: key in t ==> Proper(t[key])
  }

  // -------------------------------------------------------------------- the plan

  ghost predicate InTask(tasks: seq<Task>, key: string) {
    exists i :: 0 <= i < |tasks| && key in tasks[i].keys
  }

  /** One fresh task per target; a key is in a task exactly when it has to leave, and then
      it goes to its owner. */
  ghost predicate IsPlan(p: Placement, local: Table, tasks: seq<Task>) {
    && (forall i, j :: 0 <= i < j < |tasks| ==> tasks[i].target != tasks[j].target)
    && (forall i :: 0 <= i < |tasks| ==>
          tasks[i].state == PENDING && tasks[i].progress == 0 && Quorums.Distinct(tasks[i].keys)
          && forall key :: key in tasks[i].keys ==> p.owner(key) == Some(tasks[i].target))
    && (forall key :: InTask(tasks, key) <==>
          key in local && p.self !in p.replicas(key) && p.owner(key) !in {None, Some(""), Some(p.self)})
  }

  /** No task if the new node owns no key held here, and otherwise one of exactly those. */
  ghost predicate IsJoinPlan(p: Placement, local: Table, newNode: NodeId, task: Option<Task>) {
    match task
    case None => forall key :: key in local ==> p.owner(key) != Some(newNode)
    case Some(t) =>
      && t.target == newNode && t.state == PENDING && t.progress == 0 && t.keys != [] && Quorums.Distinct(t.keys)
      && forall key :: key in t.keys <==> key in local && p.owner(key) == Some(newNode)
  }

  // ------------------------------------------------------------- what a task may do

  /** Everything the target holds in the end was there before or comes from the source. */
  ghost predicate OnlyFrom(t: Table, t': Table, source: Table, keys: seq<string>) {
    forall key :: key in t' ==>
      (key in t && t'[key] == t[key]) || (key in keys && key in source && t'[key] == source[key])
  }

  ghost predicate Arrived(source: Table, t: Table, key: string) {
    key in t && key in source && AtMost(RankOf(source[key]), RankOf(t[key]))
  }

  /** The relation between the tables before and after one task. */
  ghost predicate Executed(p: Placement, task: Task, before: Tables, after: Tables, ok: bool) {
    && after.peers.Keys == before.peers.Keys
    && (forall n :: n in before.peers && n != task.target ==> after.peers[n] == before.peers[n])
    && (task.target in before.peers ==>
          TableGrows(before.peers[task.target], after.peers[task.target])
          && OnlyFrom(before.peers[task.target], after.peers[task.target], before.local, task.keys))
    && (!ok ==> after.local == before.local)
    && (ok ==>
          && (forall key :: key in before.local && key in task.keys ==>
                task.target in after.peers && Arrived(before.local, after.peers[task.target], key))
          && after.local == before.local - (set key | key in task.keys && p.self !in p.replicas(key)))
  }

  class ShardMigrationManager {
    const placement: Placement
    var local: Table
    var peers: map<NodeId, Table>
    var keysMigrated: nat
    var successful: nat
    var failed: nat

    constructor (placement: Placement, local: Table, peers: map<NodeId, Table>)
      ensures this.placement == placement && Abs() == Tables(local, peers)
      ensures keysMigrated == successful == failed == 0
    {
      this.placement, this.local, this.peers := placement, local, peers;
      keysMigrated, successful, failed := 0, 0, 0;
    }

    function Abs(): Tables
      reads this
    {
      Tables(local, peers)
    }

    /** Groups the keys that have to leave by owner, targets in order of first use. */
    method GroupKeys(order: seq<string>) returns (targets: seq<NodeId>, migrations: map<NodeId, seq<string>>)
      requires Quorums.Distinct(order)
      ensures Grouped(placement, order, targets, migrations)
    {
      targets, migrations := [], map[];
      var i := 0;
      while i < |order|
        invariant 0 <= i <= |order|
        invariant Grouped(placement, order[..i], targets, migrations)
      {
        GroupStep(placement, order, i, targets, migrations);
        ghost var groups := migrations;
        var key := order[i];
        var owner := placement.owner(key);
        if !placement.Replicates(key) {
          if owner.Some? && owner.value != "" && owner.value != placement.self {
            if owner.value !in migrations {
              targets := targets + [owner.value];
              migrations := migrations[owner.value := []];
            }
            migrations := migrations[owner.value := migrations[owner.value] + [key]];
            assert migrations
                == groups[owner.value := (if owner.value in groups then groups[owner.value] else []) + [key]];
          }
        }
        i := i + 1;
      }
      assert order[..i] == order;
    }

    /** `order` is the iteration order of the local keys. */
    method CalculateRebalance(order: seq<string>) returns (tasks: seq<Task>)
      requires Quorums.Distinct(order) && Quorums.Members(order) == local.Keys
      ensures IsPlan(placement, local, tasks)
    {
      var targets, migrations := GroupKeys(order);
      tasks := [];
      var i := 0;
      while i < |targets|
        invariant 0 <= i <= |targets|
        invariant TasksFor(targets[..i], migrations, tasks)
      {
        assert targets[i] in Quorums.Members(targets);
        assert targets[..i + 1] == targets[..i] + [targets[i]];
        tasks := tasks + [Task(targets[i], migrations[targets[i]], PENDING, 0)];
        i := i + 1;
      }
      assert targets[..i] == targets;
      PlanFromGroups(placement, local, order, targets, migrations, tasks);
    }

    /** The keys that a joining node now owns, if any, become one task. */
    method OnNodeJoin(newNode: NodeId, order: seq<string>) returns (task: Option<Task>)
      requires Quorums.Distinct(order) && Quorums.Members(order) == local.Keys
      ensures IsJoinPlan(placement, local, newNode, task)
    {
      var keys := [];
      var i := 0;
      while i < |order|
        invariant 0 <= i <= |order| && Quorums.Distinct(keys)
        invariant forall key :: key in keys <==> key in order[..i] && placement.owner(key) == Some(newNode)
      {
        assert order[i] !in order[..i];
        if placement.owner(order[i]) == Some(newNode) { keys := keys + [order[i]]; }
        i := i + 1;
      }
      assert order[..i] == order;
      assert forall key :: key in order <==> key in Quorums.Members(order);
      task := if keys == [] then None else Some(Task(newNode, keys, PENDING, 0));
    }

    /** Sends one batch; true only if the target is known, imported it and its reply came. */
    method SendKeys(target: NodeId, batch: seq<(string, Item)>, delivery: Delivery, now: real) returns (ok: bool)
      modifies this`peers
      ensures ok == (target in old(peers) && delivery.processed && delivery.replied)
      ensures peers == if target in old(peers) && delivery.processed
                       then old(peers)[target := DeliverAll(old(peers)[target], Imports(batch, now))] else old(peers)
    {
      if target !in peers { return false; }
      if delivery.processed {
        peers := peers[target := DeliverAll(peers[target], Imports(batch, now))];
      }
      return delivery.processed && delivery.replied;
    }

    method SendBatch(task: Task, batch: seq<(string, Item)>, delivery: Delivery, now: real) returns (ok: bool)
      modifies this`peers, this`keysMigrated
      ensures ok == (task.target in old(peers) && delivery.processed && delivery.replied)
      ensures peers == PeersAfter(old(peers), task.target, if delivery.processed then batch else [], now)
      ensures keysMigrated == old(keysMigrated) + if ok then |batch| else 0
    {
      ok := SendKeys(task.target, batch, delivery, now);
      if ok {
        keysMigrated := keysMigrated + |batch|;
      }
    }

    /** A full batch in the course of the transfer. */
    method SendFull(task: Task, batch: seq<(string, Item)>, batches: nat, network: nat -> Delivery, now: real,
                    ghost before: map<NodeId, Table>, ghost xs: seq<(string, Item)>, ghost held: seq<(string, Item)>)
      returns (ok: bool)
      requires FirstSent(xs, task.target, network, now, before, peers, batches)
      requires Collected(xs, held, BATCH_SIZE * batches, batch) && |batch| == BATCH_SIZE
      modifies this`peers, this`keysMigrated
      ensures keysMigrated == old(keysMigrated) + if ok then BATCH_SIZE else 0
      ensures ok ==> FirstSent(xs, task.target, network, now, before, peers, batches + 1)
      ensures !ok ==> Transferred(xs, task.target, network, now, before, peers, false, BATCH_SIZE * batches)
    {
      ok := SendBatch(task, batch, network(batches), now);
      if ok {
        BatchArrives(xs, held, task.target, network, now, before, old(peers), batches, batch);
      } else {
        BatchFails(xs, held, task.target, network, now, before, old(peers), batches, batch);
      }
    }

    /** What remains at the end of the transfer. */
    method SendRest(task: Task, batch: seq<(string, Item)>, batches: nat, network: nat -> Delivery, now: real,
                    ghost before: map<NodeId, Table>, ghost xs: seq<(string, Item)>)
      returns (ok: bool, sent: nat)
      requires FirstSent(xs, task.target, network, now, before, peers, batches)
      requires Collected(xs, xs, BATCH_SIZE * batches, batch) && |batch| < BATCH_SIZE
      modifies this`peers, this`keysMigrated
      ensures keysMigrated == old(keysMigrated) + sent
      ensures Transferred(xs, task.target, network, now, before, peers, ok, BATCH_SIZE * batches + sent)
    {
      ok, sent := true, 0;
      if batch == [] {
        NothingLeft(xs, task.target, network, now, before, peers, batches);
      } else {
        ok := SendBatch(task, batch, network(batches), now);
        if ok {
          sent := |batch|;
          LastArrives(xs, task.target, network, now, before, old(peers), batches, batch);
        } else {
          BatchFails(xs, xs, task.target, network, now, before, old(peers), batches, batch);
        }
      }
    }

    /** A held key joins the batch, which is sent as soon as it is full. */
    method Enqueue(task: Task, entry: (string, Item), waiting: seq<(string, Item)>, batches: nat,
                   network: nat -> Delivery, now: real,
                   ghost before: map<NodeId, Table>, ghost xs: seq<(string, Item)>, ghost held: seq<(string, Item)>)
      returns (ok: bool, batch: seq<(string, Item)>)
      requires FirstSent(xs, task.target, network, now, before, peers, batches) && |waiting| < BATCH_SIZE
      requires Collected(xs, held, BATCH_SIZE * batches, waiting + [entry])
      modifies this`peers, this`keysMigrated
      ensures !ok ==> keysMigrated == old(keysMigrated)
                      && Transferred(xs, task.target, network, now, before, peers, false, BATCH_SIZE * batches)
      ensures ok && batch != [] ==> batch == waiting + [entry] && |batch| < BATCH_SIZE
                                    && peers == old(peers) && keysMigrated == old(keysMigrated)
      ensures ok && batch == [] ==> FirstSent(xs, task.target, network, now, before, peers, batches + 1)
                                    && Collected(xs, held, BATCH_SIZE * (batches + 1), [])
                                    && keysMigrated == old(keysMigrated) + BATCH_SIZE
    {
      ok, batch := true, waiting + [entry];
      if |batch| >= BATCH_SIZE {
        ok := SendFull(task, batch, batches, network, now, before, xs, held);
        if ok {
          CollectFlush(xs, held, BATCH_SIZE * batches, batch);
          batch := [];
        }
      }
    }

    /** The transfer loop: batches of BATCH_SIZE and a last one; `network(i)` is the fate of
        the i-th batch. */
    method SendAll(task: Task, network: nat -> Delivery, now: real) returns (ok: bool, sentKeys: nat)
      modifies this`peers, this`keysMigrated
      ensures Transferred(HeldEntries(task.keys, local), task.target, network, now, old(peers), peers, ok, sentKeys)
      ensures keysMigrated == old(keysMigrated) + sentKeys
    {
      var localKeys := local;
      ghost var xs := HeldEntries(task.keys, local);
      var batch: seq<(string, Item)> := [];
      var batches := 0;
      var i := 0;
      while i < |task.keys|
        invariant 0 <= i <= |task.keys| && |batch| < BATCH_SIZE
        invariant keysMigrated == old(keysMigrated) + BATCH_SIZE * batches
        invariant FirstSent(xs, task.target, network, now, old(peers), peers, batches)
        invariant Collected(xs, HeldEntries(task.keys[..i], local), BATCH_SIZE * batches, batch)
      {
        var key := task.keys[i];
        CollectNext(task.keys, i, local, BATCH_SIZE * batches, batch);
        if key in localKeys {
          ghost var held := HeldEntries(task.keys[..i + 1], local);
          ok, batch := Enqueue(task, (key, localKeys[key]), batch, batches, network, now, old(peers), xs, held);
          if !ok { return false, BATCH_SIZE * batches; }
          if batch == [] { batches := batches + 1; }
        }
        i := i + 1;
      }
      assert task.keys[..i] == task.keys;
      var rest;
      ok, rest := SendRest(task, batch, batches, network, now, old(peers), xs);
      sentKeys := BATCH_SIZE * batches + rest;
    }

    /** A task completes exactly if every batch is imported and its reply comes; it fails at
        the first batch of which this is not so. */
    method ExecuteMigration(task: Task, network: nat -> Delivery, now: real) returns (done: Task)
      requires Quorums.Distinct(task.keys)
      modifies this
      ensures done.state in {COMPLETED, FAILED} && done.target == task.target && done.keys == task.keys
      ensures done.progress >= task.progress
      ensures Transferred(HeldEntries(task.keys, old(local)), task.target, network, now, old(peers), peers,
                          done.state == COMPLETED, done.progress - task.progress)
      ensures local == if done.state == FAILED then old(local)
                       else old(local) - (set key | key in task.keys && placement.self !in placement.replicas(key))
      ensures ProperTable(old(local)) ==> Executed(placement, task, old(Abs()), Abs(), done.state == COMPLETED)
      ensures done.state == COMPLETED ==> done.progress == task.progress + |HeldKeys(task.keys, old(local))|
      ensures keysMigrated == old(keysMigrated) + done.progress - task.progress
      ensures successful == old(successful) + (if done.state == COMPLETED then 1 else 0)
      ensures failed == old(failed) + (if done.state == FAILED then 1 else 0)
    {
      done := task.(state := IN_PROGRESS);
      var ok, sentKeys := SendAll(task, network, now);
      done := done.(progress := done.progress + sentKeys);
      HeldEntriesCount(task.keys, local);
      ghost var unsent := Tables(local, peers);
      if !ok {
        if ProperTable(local) { FailedTask(placement, task, old(Abs()), unsent, network, now, sentKeys); }
        failed := failed + 1;
        done := done.(state := FAILED);
        return;
      }
      var nonReplica := NonReplicaKeys(placement, task.keys);
      NonReplicaMembers(placement, task.keys);
      local := local - (set key | key in nonReplica);
      assert (set key | key in nonReplica)
          == (set key | key in task.keys && placement.self !in placement.replicas(key));
      if ProperTable(old(local)) { CompletedTask(placement, task, old(Abs()), Abs(), network, now, sentKeys); }
      done := done.(state := COMPLETED);
      successful := successful + 1;
    }
  }

  // ------------------------------------------------------------- what is sent

  /** The entries a task moves: its keys that the node holds, in order. */
  function HeldEntries(keys: seq<string>, t: Table): seq<(string, Item)> {
    if keys == [] then []
    else
      var last := keys[|keys| - 1];
      HeldEntries(keys[..|keys| - 1], t) + if last in t then [(last, t[last])] else []
  }

  lemma {:induction false} HeldEntriesGrow(keys: seq<string>, i: nat, t: Table)
    requires i <= |keys|
    ensures HeldEntries(keys[..i], t) <= HeldEntries(keys, t)
  {
    if i < |keys| {
      var n := |keys| - 1;
      HeldEntriesGrow(keys[..n], i, t);
      assert keys[..n][..i] == keys[..i];
    } else {
      assert keys[..i] == keys;
    }
  }

  lemma HeldEntriesStep(keys: seq<string>, i: nat, t: Table)
    requires i < |keys|
    ensures HeldEntries(keys[..i + 1], t)
            == HeldEntries(keys[..i], t) + if keys[i] in t then [(keys[i], t[keys[i]])] else []
    ensures HeldEntries(keys[..i + 1], t) <= HeldEntries(keys, t)
  {
    assert keys[..i + 1][..i] == keys[..i];
    HeldEntriesGrow(keys, i + 1, t);
  }

  lemma {:induction false} HeldEntriesCount(keys: seq<string>, t: Table)
    requires Quorums.Distinct(keys)
    ensures |HeldEntries(keys, t)| == |HeldKeys(keys, t)|
  {
    if keys != [] {
      var n := |keys| - 1;
      HeldEntriesCount(keys[..n], t);
      HeldKeysStep(keys, n, t);
      assert keys[..n + 1] == keys;
    }
  }

  lemma {:induction false} HeldEntriesMembers(keys: seq<string>, t: Table, x: (string, Item))
    ensures x in HeldEntries(keys, t) <==> x.0 in keys && x.0 in t && x.1 == t[x.0]
  {
    if keys != [] {
      var n := |keys| - 1;
      HeldEntriesMembers(keys[..n], t, x);
      assert keys == keys[..n] + [keys[n]];
    }
  }

  /** The target, if it can be reached at all, has imported just these entries. */
  function PeersAfter(peers: map<NodeId, Table>, target: NodeId, entries: seq<(string, Item)>, now: real)
    : map<NodeId, Table>
  {
    if target in peers then peers[target := DeliverAll(peers[target], Imports(entries, now))] else peers
  }

  /** Batch i was imported and its reply came. */
  predicate Confirmed(peers: map<NodeId, Table>, target: NodeId, network: nat -> Delivery, i: nat) {
    target in peers && network(i).processed && network(i).replied
  }

  ghost predicate FirstSent(xs: seq<(string, Item)>, target: NodeId, network: nat -> Delivery, now: real,
      before: map<NodeId, Table>, after: map<NodeId, Table>, batches: nat) {
    && (forall i: nat :: i < batches ==> Confirmed(before, target, network, i))
    && 100 * batches <= |xs| && after == PeersAfter(before, target, xs[..100 * batches], now)
  }

  /** How far the transfer gets: to the end, if all batches of a hundred and the last one are
      confirmed; or else up to the first batch that is not, which the target has imported if
      only the reply was lost. */
  ghost predicate Transferred(xs: seq<(string, Item)>, target: NodeId, network: nat -> Delivery, now: real,
      before: map<NodeId, Table>, after: map<NodeId, Table>, ok: bool, sent: nat) {
    if ok then
      && (forall i: nat :: 100 * i < |xs| ==> Confirmed(before, target, network, i))
      && sent == |xs| && after == PeersAfter(before, target, xs, now)
    else
      exists f: nat :: StoppedAt(xs, target, network, now, before, after, sent, f)
  }

  ghost predicate StoppedAt(xs: seq<(string, Item)>, target: NodeId, network: nat -> Delivery, now: real,
      before: map<NodeId, Table>, after: map<NodeId, Table>, sent: nat, f: nat) {
    && (forall i: nat :: i < f ==> Confirmed(before, target, network, i))
    && !Confirmed(before, target, network, f)
    && sent == 100 * f < |xs|
    && var reached := if !network(f).processed then 100 * f else if 100 * (f + 1) < |xs| then 100 * (f + 1) else |xs|;
       after == PeersAfter(before, target, xs[..reached], now)
  }

  lemma {:induction false} ImportsAppend(a: seq<(string, Item)>, b: seq<(string, Item)>, now: real)
    ensures Imports(a + b, now) == Imports(a, now) + Imports(b, now)
  {
    if b == [] {
      assert a + b == a;
    } else {
      var n := |b| - 1;
      ImportsAppend(a, b[..n], now);
      assert (a + b)[..|a + b| - 1] == a + b[..n];
    }
  }

  lemma {:induction false} DeliverAllAppend(t: Table, a: seq<Update>, b: seq<Update>)
    ensures DeliverAll(t, a + b) == DeliverAll(DeliverAll(t, a), b)
  {
    if b == [] {
      assert a + b == a;
    } else {
      var n := |b| - 1;
      DeliverAllAppend(t, a, b[..n]);
      assert (a + b)[..|a + b| - 1] == a + b[..n];
    }
  }

  lemma PeersAfterAppend(peers: map<NodeId, Table>, target: NodeId, a: seq<(string, Item)>, b: seq<(string, Item)>,
      now: real)
    ensures PeersAfter(PeersAfter(peers, target, a, now), target, b, now) == PeersAfter(peers, target, a + b, now)
  {
    if target in peers {
      ImportsAppend(a, b, now);
      DeliverAllAppend(peers[target], Imports(a, now), Imports(b, now));
      var t, t' := DeliverAll(peers[target], Imports(a, now)), DeliverAll(peers[target], Imports(a + b, now));
      assert peers[target := t][target := t'] == peers[target := t'];
    }
  }

  /** Of the held entries seen so far the first s have been sent and the rest wait. */
  ghost predicate Collected(xs: seq<(string, Item)>, held: seq<(string, Item)>, s: nat, batch: seq<(string, Item)>) {
    s <= |xs| && held == xs[..s] + batch && held <= xs
  }

  lemma CollectNext(keys: seq<string>, i: nat, t: Table, s: nat, batch: seq<(string, Item)>)
    requires i < |keys| && Collected(HeldEntries(keys, t), HeldEntries(keys[..i], t), s, batch)
    ensures Collected(HeldEntries(keys, t), HeldEntries(keys[..i + 1], t), s,
                      if keys[i] in t then batch + [(keys[i], t[keys[i]])] else batch)
  {
    HeldEntriesStep(keys, i, t);
  }

  lemma CollectFlush(xs: seq<(string, Item)>, held: seq<(string, Item)>, s: nat, batch: seq<(string, Item)>)
    requires Collected(xs, held, s, batch)
    ensures Collected(xs, held, s + |batch|, [])
  {
    PrefixAnd(xs, s, batch);
  }

  lemma PrefixAnd(xs: seq<(string, Item)>, s: nat, batch: seq<(string, Item)>)
    requires s <= |xs| && xs[..s] + batch <= xs
    ensures s + |batch| <= |xs| && xs[..s + |batch|] == xs[..s] + batch == xs[..s + |batch|] + []
  {}

  /** The target after one more batch, imported or not. */
  lemma AfterBatch(xs: seq<(string, Item)>, target: NodeId, processed: bool, now: real, before: map<NodeId, Table>,
      s: nat, batch: seq<(string, Item)>)
    requires s <= |xs| && xs[..s] + batch <= xs
    ensures s + |batch| <= |xs|
    ensures PeersAfter(PeersAfter(before, target, xs[..s], now), target, if processed then batch else [], now)
            == PeersAfter(before, target, xs[..if processed then s + |batch| else s], now)
  {
    PeersAfterAppend(before, target, xs[..s], if processed then batch else [], now);
    PrefixAnd(xs, s, batch);
    assert xs[..s] + [] == xs[..s];
  }

  /** A confirmed batch that is full. */
  lemma BatchArrives(xs: seq<(string, Item)>, held: seq<(string, Item)>, target: NodeId, network: nat -> Delivery,
      now: real, before: map<NodeId, Table>, earlier: map<NodeId, Table>, batches: nat, batch: seq<(string, Item)>)
    requires FirstSent(xs, target, network, now, before, earlier, batches) && |batch| == 100
    requires Collected(xs, held, 100 * batches, batch) && Confirmed(before, target, network, batches)
    ensures FirstSent(xs, target, network, now, before, PeersAfter(earlier, target, batch, now), batches + 1)
  {
    AfterBatch(xs, target, true, now, before, 100 * batches, batch);
    assert 100 * batches + |batch| == 100 * (batches + 1);
  }

  /** A confirmed batch that is the last. */
  lemma LastArrives(xs: seq<(string, Item)>, target: NodeId, network: nat -> Delivery, now: real,
      before: map<NodeId, Table>, earlier: map<NodeId, Table>, batches: nat, batch: seq<(string, Item)>)
    requires FirstSent(xs, target, network, now, before, earlier, batches) && 0 < |batch| < 100
    requires Collected(xs, xs, 100 * batches, batch) && Confirmed(before, target, network, batches)
    ensures Transferred(xs, target, network, now, before, PeersAfter(earlier, target, batch, now), true, |xs|)
    ensures |xs| == 100 * batches + |batch|
  {
    AfterBatch(xs, target, true, now, before, 100 * batches, batch);
    PrefixAnd(xs, 100 * batches, batch);
    assert xs[..|xs|] == xs;
  }

  /** A batch that is not confirmed; the task ends with it. */
  lemma BatchFails(xs: seq<(string, Item)>, held: seq<(string, Item)>, target: NodeId, network: nat -> Delivery,
      now: real, before: map<NodeId, Table>, earlier: map<NodeId, Table>, batches: nat, batch: seq<(string, Item)>)
    requires FirstSent(xs, target, network, now, before, earlier, batches) && 0 < |batch| <= 100
    requires Collected(xs, held, 100 * batches, batch) && !Confirmed(before, target, network, batches)
    requires |batch| < 100 ==> held == xs
    ensures var after := PeersAfter(earlier, target, if network(batches).processed then batch else [], now);
            Transferred(xs, target, network, now, before, after, false, 100 * batches)
  {
    var processed := network(batches).processed;
    AfterBatch(xs, target, processed, now, before, 100 * batches, batch);
    LastOrFull(xs, batches, batch);
    var after := PeersAfter(earlier, target, if processed then batch else [], now);
    assert StoppedAt(xs, target, network, now, before, after, 100 * batches, batches);
  }

  lemma NothingLeft(xs: seq<(string, Item)>, target: NodeId, network: nat -> Delivery, now: real,
      before: map<NodeId, Table>, after: map<NodeId, Table>, batches: nat)
    requires FirstSent(xs, target, network, now, before, after, batches) && Collected(xs, xs, 100 * batches, [])
    ensures Transferred(xs, target, network, now, before, after, true, 100 * batches)
  {
    assert xs[..100 * batches] + [] == xs[..100 * batches];
  }

  lemma LastOrFull(xs: seq<(string, Item)>, batches: nat, batch: seq<(string, Item)>)
    requires 100 * batches <= |xs| && 0 < |batch| <= 100 && xs[..100 * batches] + batch <= xs
    requires |batch| < 100 ==> xs[..100 * batches] + batch == xs
    ensures 100 * batches + |batch| == if 100 * (batches + 1) < |xs| then 100 * (batches + 1) else |xs|
  {
    assert |xs[..100 * batches] + batch| == 100 * batches + |batch|;
  }

  ghost function HeldKeys(keys: seq<string>, t: Table): set<string> {
    set key | key in keys && key in t
  }

  /** The entries that have been imported are some of the held ones. */
  lemma ImportedSoFar(task: Task, before: Tables, peers: map<NodeId, Table>, k: nat, now: real)
    requires ProperTable(before.local) && k <= |HeldEntries(task.keys, before.local)|
    requires peers == PeersAfter(before.peers, task.target, HeldEntries(task.keys, before.local)[..k], now)
    ensures Underway(task, before, peers, [], [])
    ensures k == |HeldEntries(task.keys, before.local)| && (k > 0 ==> task.target in before.peers) ==>
              Underway(task, before, peers, task.keys, [])
  {
    var xs := HeldEntries(task.keys, before.local);
    var visited := if k == |xs| then task.keys else [];
    forall i | 0 <= i < |xs|
      ensures xs[i].0 in before.local && xs[i].0 in task.keys && xs[i].1 == before.local[xs[i].0] {
      HeldEntriesMembers(task.keys, before.local, xs[i]);
    }
    forall key | key in visited && key in before.local ensures Waiting(xs[..k], key) {
      HeldEntriesMembers(task.keys, before.local, (key, before.local[key]));
      var i :| 0 <= i < |xs| && xs[i] == (key, before.local[key]);
      assert xs[..k][i].0 == key;
    }
    assert Underway(task, before, before.peers, visited, xs[..k]);
    if task.target in before.peers { UnderwaySend(task, before, before.peers, visited, xs[..k], now); }
  }

  lemma FailedTask(p: Placement, task: Task, before: Tables, after: Tables, network: nat -> Delivery, now: real,
      sent: nat)
    requires ProperTable(before.local) && after.local == before.local
    requires Transferred(HeldEntries(task.keys, before.local), task.target, network, now, before.peers, after.peers,
                         false, sent)
    ensures Executed(p, task, before, after, false)
  {
    var xs := HeldEntries(task.keys, before.local);
    var f: nat :| StoppedAt(xs, task.target, network, now, before.peers, after.peers, sent, f);
    var reached := if !network(f).processed then 100 * f else if 100 * (f + 1) < |xs| then 100 * (f + 1) else |xs|;
    ImportedSoFar(task, before, after.peers, reached, now);
  }

  lemma CompletedTask(p: Placement, task: Task, before: Tables, after: Tables, network: nat -> Delivery, now: real,
      sent: nat)
    requires ProperTable(before.local)
    requires Transferred(HeldEntries(task.keys, before.local), task.target, network, now, before.peers, after.peers,
                         true, sent)
    requires after.local == before.local - (set key | key in task.keys && p.self !in p.replicas(key))
    ensures Executed(p, task, before, after, true)
  {
    var xs := HeldEntries(task.keys, before.local);
    assert xs[..|xs|] == xs;
    if xs != [] { assert 100 * 0 < |xs| && Confirmed(before.peers, task.target, network, 0); }
    ImportedSoFar(task, before, after.peers, |xs|, now);
  }

  function NonReplicaKeys(p: Placement, keys: seq<string>): seq<string> {
    if keys == [] then []
    else
      var last := keys[|keys| - 1];
      NonReplicaKeys(p, keys[..|keys| - 1]) + if p.Replicates(last) then [] else [last]
  }

  lemma {:induction false} NonReplicaMembers(p: Placement, keys: seq<string>)
    ensures forall key :: key in NonReplicaKeys(p, keys) <==> key in keys && !p.Replicates(key)
  {
    if keys != [] {
      NonReplicaMembers(p, keys[..|keys| - 1]);
      assert keys == keys[..|keys| - 1] + [keys[|keys| - 1]];
    }
  }

  // ----------------------------------------------------------------- grouping keys

  ghost predicate GroupOk(p: Placement, seen: seq<string>, n: NodeId, group: seq<string>) {
    Quorums.Distinct(group)
    && forall key :: key in group ==> key in seen && p.Leaves(key) && p.owner(key) == Some(n)
  }

  ghost predicate Placed(p: Placement, groups: map<NodeId, seq<string>>, key: string)
    requires p.Leaves(key)
  {
    p.owner(key).value in groups && key in groups[p.owner(key).value]
  }

  /** The keys seen so far that have to leave, grouped by owner. */
  ghost predicate Grouped(p: Placement, seen: seq<string>, targets: seq<NodeId>, groups: map<NodeId, seq<string>>) {
    && Quorums.Distinct(targets) && Quorums.Members(targets) == groups.Keys
    && (forall n :: n in groups ==> GroupOk(p, seen, n, groups[n]))
    && (forall key :: key in seen && p.Leaves(key) ==> Placed(p, groups, key))
  }

  lemma GroupSkip(p: Placement, seen: seq<string>, key: string, targets: seq<NodeId>, groups: map<NodeId, seq<string>>)
    requires Grouped(p, seen, targets, groups) && !p.Leaves(key)
    ensures Grouped(p, seen + [key], targets, groups)
  {
    forall n | n in groups ensures GroupOk(p, seen + [key], n, groups[n]) {
      assert GroupOk(p, seen, n, groups[n]);
    }
  }

  lemma GroupAdd(p: Placement, seen: seq<string>, key: string, targets: seq<NodeId>, groups: map<NodeId, seq<string>>)
    requires Grouped(p, seen, targets, groups) && p.Leaves(key) && key !in seen
    ensures var n := p.owner(key).value;
            Grouped(p, seen + [key], if n in groups then targets else targets + [n],
                    groups[n := (if n in groups then groups[n] else []) + [key]])
  {
    var n := p.owner(key).value;
    var targets' := if n in groups then targets else targets + [n];
    var groups' := groups[n := (if n in groups then groups[n] else []) + [key]];
    if n !in groups {
      assert n !in Quorums.Members(targets);
      assert Quorums.Members(targets') == Quorums.Members(targets) + {n};
    }
    forall m | m in groups' ensures GroupOk(p, seen + [key], m, groups'[m]) {
      if m in groups { assert GroupOk(p, seen, m, groups[m]); }
    }
    forall k | k in seen + [key] && p.Leaves(k) ensures Placed(p, groups', k) {
      if k in seen { assert Placed(p, groups, k); }
    }
  }

  lemma GroupStep(p: Placement, order: seq<string>, i: nat, targets: seq<NodeId>, groups: map<NodeId, seq<string>>)
    requires i < |order| && Quorums.Distinct(order) && Grouped(p, order[..i], targets, groups)
    ensures !p.Leaves(order[i]) ==> Grouped(p, order[..i + 1], targets, groups)
    ensures p.Leaves(order[i]) ==>
              var n := p.owner(order[i]).value;
              Grouped(p, order[..i + 1], if n in groups then targets else targets + [n],
                      groups[n := (if n in groups then groups[n] else []) + [order[i]]])
  {
    assert order[..i + 1] == order[..i] + [order[i]];
    if p.Leaves(order[i]) {
      GroupAdd(p, order[..i], order[i], targets, groups);
    } else {
      GroupSkip(p, order[..i], order[i], targets, groups);
    }
  }

  ghost predicate TasksFor(targets: seq<NodeId>, groups: map<NodeId, seq<string>>, tasks: seq<Task>) {
    |tasks| == |targets|
    && forall j :: 0 <= j < |targets| ==>
         targets[j] in groups && tasks[j] == Task(targets[j], groups[targets[j]], PENDING, 0)
  }

  lemma PlanFromGroups(p: Placement, local: Table, order: seq<string>, targets: seq<NodeId>,
                       groups: map<NodeId, seq<string>>, tasks: seq<Task>)
    requires Grouped(p, order, targets, groups) && Quorums.Members(order) == local.Keys
    requires TasksFor(targets, groups, tasks)
    ensures IsPlan(p, local, tasks)
  {
    forall key ensures InTask(tasks, key) <==> key in local && p.Leaves(key) {
      if InTask(tasks, key) {
        var i :| 0 <= i < |tasks| && key in tasks[i].keys;
        assert key in Quorums.Members(order);
      }
      if key in local && p.Leaves(key) {
        assert key in Quorums.Members(order);
        var n := p.owner(key).value;
        assert n in Quorums.Members(targets);
        var i :| 0 <= i < |targets| && targets[i] == n;
        assert key in tasks[i].keys;
      }
    }
  }

  // ------------------------------------------------------------- sending in batches

  ghost predicate Batched(batch: seq<(string, Item)>, source: Table, keys: seq<string>) {
    forall i :: 0 <= i < |batch| ==> batch[i].0 in source && batch[i].0 in keys && batch[i].1 == source[batch[i].0]
  }

  ghost predicate Waiting(batch: seq<(string, Item)>, key: string) {
    exists i :: 0 <= i < |batch| && batch[i].0 == key
  }

  /** Of the keys visited, each one the source holds has arrived or waits in the batch. */
  ghost predicate Underway(task: Task, before: Tables, peers: map<NodeId, Table>, visited: seq<string>,
      batch: seq<(string, Item)>) {
    && peers.Keys == before.peers.Keys
    && (forall n :: n in before.peers && n != task.target ==> peers[n] == before.peers[n])
    && (task.target in before.peers ==>
          TableGrows(before.peers[task.target], peers[task.target])
          && OnlyFrom(before.peers[task.target], peers[task.target], before.local, task.keys))
    && Batched(batch, before.local, task.keys)
    && (forall key :: key in visited && key in before.local ==>
          Waiting(batch, key) || (task.target in peers && Arrived(before.local, peers[task.target], key)))
  }

  lemma {:induction false} ImportsOf(batch: seq<(string, Item)>, now: real, i: nat)
    requires i < |batch|
    ensures Imports(batch, now)[i] == Update(Import, batch[i].0, batch[i].1, now)
  {
    if i < |batch| - 1 { ImportsOf(batch[..|batch| - 1], now, i); }
  }

  lemma ImportsProper(batch: seq<(string, Item)>, now: real, source: Table, keys: seq<string>)
    requires Batched(batch, source, keys) && ProperTable(source)
    ensures forall u :: u in Imports(batch, now) ==>
              Proper(u.item) && u.key in source && u.key in keys && u.item == source[u.key]
  {
    forall u | u in Imports(batch, now)
      ensures Proper(u.item) && u.key in source && u.key in keys && u.item == source[u.key] {
      var i :| 0 <= i < |batch| && Imports(batch, now)[i] == u;
      ImportsOf(batch, now, i);
    }
  }

  /** An imported batch: what was there only grows, nothing foreign appears, and every key
      of the batch has arrived. */
  lemma ImportedBatch(t: Table, batch: seq<(string, Item)>, now: real, source: Table, keys: seq<string>, key: string)
    requires Batched(batch, source, keys) && ProperTable(source)
    ensures var t' := DeliverAll(t, Imports(batch, now));
            && (key in t ==> key in t' && AtMost(RankOf(t[key]), RankOf(t'[key])))
            && (key in t' ==> (key in t && t'[key] == t[key])
                              || (key in keys && key in source && t'[key] == source[key]))
            && (Waiting(batch, key) ==> Arrived(source, t', key))
  {
    var us := Imports(batch, now);
    ImportsProper(batch, now, source, keys);
    DeliveryReachesMaximum(t, us, key);
    var t' := DeliverAll(t, us);
    if key in t { assert Candidate(t, us, key, t[key]); }
    if Waiting(batch, key) {
      var i :| 0 <= i < |batch| && batch[i].0 == key;
      ImportsOf(batch, now, i);
      assert us[i] in us;
      assert Carries(us, key, source[key]);
      assert Candidate(t, us, key, source[key]);
    }
  }

  lemma UnderwaySend(task: Task, before: Tables, peers: map<NodeId, Table>, visited: seq<string>,
      batch: seq<(string, Item)>, now: real)
    requires Underway(task, before, peers, visited, batch) && ProperTable(before.local) && task.target in peers
    ensures Underway(task, before,
                     peers[task.target := DeliverAll(peers[task.target], Imports(batch, now))], visited, [])
  {
    var t := peers[task.target];
    var t' := DeliverAll(t, Imports(batch, now));
    var first := before.peers[task.target];
    forall key
      ensures key in first ==> key in t' && AtMost(RankOf(first[key]), RankOf(t'[key]))
      ensures key in t' ==> (key in first && t'[key] == first[key])
                            || (key in task.keys && key in before.local && t'[key] == before.local[key])
      ensures key in visited && key in before.local ==> Arrived(before.local, t', key)
    {
      ImportedBatch(t, batch, now, before.local, task.keys, key);
      if key in first { RankTransitive(RankOf(first[key]), RankOf(t[key]), RankOf(t'[key])); }
      if key in visited && key in before.local && !Waiting(batch, key) {
        RankTransitive(RankOf(before.local[key]), RankOf(t[key]), RankOf(t'[key]));
      }
    }
  }

  lemma HeldKeysStep(keys: seq<string>, i: nat, t: Table)
    requires i < |keys| && Quorums.Distinct(keys)
    ensures |HeldKeys(keys[..i + 1], t)| == |HeldKeys(keys[..i], t)| + (if keys[i] in t then 1 else 0)
  {
    var before, after := HeldKeys(keys[..i], t), HeldKeys(keys[..i + 1], t);
    assert keys[..i + 1] == keys[..i] + [keys[i]];
    assert keys[i] !in keys[..i];
    assert after == if keys[i] in t then before + {keys[i]} else before;
  }

  // --------------------------------------------------------------- a whole rebalance

  /** One table per moment: worlds[i] before task i, worlds[i + 1] after it. Whatever made
      the tasks, each one sends keys to their owner. */
  ghost predicate Carried(p: Placement, tasks: seq<Task>, worlds: seq<Tables>, oks: seq<bool>) {
    && |worlds| == |tasks| + 1 && |oks| == |tasks|
    && (forall i, key :: 0 <= i < |tasks| && key in tasks[i].keys ==> p.owner(key) == Some(tasks[i].target))
    && forall i :: 0 <= i < |tasks| ==> Executed(p, tasks[i], worlds[i], worlds[i + 1], oks[i])
  }

  /** All tasks of one plan are carried out. */
  ghost predicate Rebalanced(p: Placement, tasks: seq<Task>, worlds: seq<Tables>, oks: seq<bool>) {
    Carried(p, tasks, worlds, oks) && IsPlan(p, worlds[0].local, tasks)
  }

  /** Still here, unchanged, or at its owner with the same or a higher rank. */
  ghost predicate Kept(p: Placement, first: Tables, now: Tables, key: string)
    requires key in first.local
  {
    (key in now.local && now.local[key] == first.local[key])
    || (p.owner(key).Some? && p.owner(key).value in now.peers
        && Arrived(first.local, now.peers[p.owner(key).value], key))
  }

  lemma ArrivedStays(p: Placement, task: Task, before: Tables, after: Tables, ok: bool, first: Table, key: string,
      n: NodeId)
    requires Executed(p, task, before, after, ok) && n in before.peers && Arrived(first, before.peers[n], key)
    ensures n in after.peers && Arrived(first, after.peers[n], key)
  {
    if n == task.target {
      RankTransitive(RankOf(first[key]), RankOf(before.peers[n][key]), RankOf(after.peers[n][key]));
    }
  }

  lemma {:induction false} LocalOnlyShrinks(p: Placement, tasks: seq<Task>, worlds: seq<Tables>, oks: seq<bool>,
      i: nat, key: string)
    requires Carried(p, tasks, worlds, oks) && i <= |tasks|
    ensures key in worlds[i].local ==> key in worlds[0].local && worlds[i].local[key] == worlds[0].local[key]
  {
    if i > 0 {
      LocalOnlyShrinks(p, tasks, worlds, oks, i - 1, key);
      assert Executed(p, tasks[i - 1], worlds[i - 1], worlds[i - 1 + 1], oks[i - 1]);
    }
  }

  /** Migration loses no key, whichever batches fail and whichever replies are lost: every
      key held at first is still here or has reached its owner. */
  lemma {:induction false} MigrationConservesKeys(p: Placement, tasks: seq<Task>, worlds: seq<Tables>, oks: seq<bool>,
      i: nat, key: string)
    requires Carried(p, tasks, worlds, oks) && i <= |tasks| && key in worlds[0].local
    ensures Kept(p, worlds[0], worlds[i], key)
  {
    if i > 0 {
      var before, after := worlds[i - 1], worlds[i];
      MigrationConservesKeys(p, tasks, worlds, oks, i - 1, key);
      assert Executed(p, tasks[i - 1], before, worlds[i - 1 + 1], oks[i - 1]);
      if !(key in before.local && before.local[key] == worlds[0].local[key]) {
        ArrivedStays(p, tasks[i - 1], before, after, oks[i - 1], worlds[0].local, key, p.owner(key).value);
      } else if key !in after.local {
        assert Arrived(before.local, after.peers[tasks[i - 1].target], key);
        assert Arrived(worlds[0].local, after.peers[tasks[i - 1].target], key);
      }
    }
  }

  /** A key that has left the plan's source is gone from it for good. */
  lemma {:induction false} PlannedKeyLeaves(p: Placement, tasks: seq<Task>, worlds: seq<Tables>, oks: seq<bool>,
      i: nat, j: nat, key: string)
    requires Carried(p, tasks, worlds, oks) && i < j <= |tasks| && oks[i] && key in tasks[i].keys && !p.Replicates(key)
    ensures key !in worlds[j].local
    decreases j
  {
    assert Executed(p, tasks[j - 1], worlds[j - 1], worlds[j - 1 + 1], oks[j - 1]);
    if i < j - 1 { PlannedKeyLeaves(p, tasks, worlds, oks, i, j - 1, key); }
  }

  /** The ring's lookups name an owner whenever they name replicas, and this node's ring is
      not empty and has no nameless node. */
  ghost predicate Usable(p: Placement) {
    forall key :: p.owner(key).Some? && p.owner(key).value != "" && (p.owner(key).value == p.self ==> p.Replicates(key))
  }

  /** After a rebalance whose tasks all completed the node holds exactly the keys it
      replicates, each with the item it had. */
  lemma CompleteRebalanceLeavesReplicas(p: Placement, tasks: seq<Task>, worlds: seq<Tables>, oks: seq<bool>,
      key: string)
    requires Rebalanced(p, tasks, worlds, oks) && Usable(p)
    requires forall i :: 0 <= i < |tasks| ==> oks[i]
    ensures key in worlds[|tasks|].local <==> key in worlds[0].local && p.Replicates(key)
    ensures key in worlds[|tasks|].local ==> worlds[|tasks|].local[key] == worlds[0].local[key]
  {
    LocalOnlyShrinks(p, tasks, worlds, oks, |tasks|, key);
    if key in worlds[0].local && !p.Replicates(key) {
      assert p.Leaves(key) && InTask(tasks, key);
      var i :| 0 <= i < |tasks| && key in tasks[i].keys;
      PlannedKeyLeaves(p, tasks, worlds, oks, i, |tasks|, key);
    }
    if key in worlds[0].local && p.Replicates(key) {
      ReplicatedKeyStays(p, tasks, worlds, oks, |tasks|, key);
    }
  }

  lemma {:induction false} ReplicatedKeyStays(p: Placement, tasks: seq<Task>, worlds: seq<Tables>, oks: seq<bool>,
      i: nat, key: string)
    requires Carried(p, tasks, worlds, oks) && i <= |tasks| && key in worlds[0].local && p.Replicates(key)
    ensures key in worlds[i].local
  {
    if i > 0 {
      ReplicatedKeyStays(p, tasks, worlds, oks, i - 1, key);
      assert Executed(p, tasks[i - 1], worlds[i - 1], worlds[i - 1 + 1], oks[i - 1]);
    }
  }

  /** The lookups of a canonical ring are usable for any node on it. */
  lemma RingLookupsUsable(config: HashRing.Config, ring: HashRing.Ring, self: NodeId, replicationFactor: nat)
    requires HashRing.Canonical(config, ring) && config.virtualNodes >= 1 && ring.nodes != {} && "" !in ring.nodes
    requires replicationFactor >= 1
    ensures Usable(PlacementOn(config, ring, self, replicationFactor))
  {
    forall key
      ensures var owner := HashRing.GetNode(config, ring, key);
              owner.Some? && owner.value != ""
              && (owner.value == self ==> self in HashRing.GetNodes(config, ring, key, replicationFactor))
    {
      HashRing.ReplicasAreDistinct(config, ring, key, replicationFactor);
      var rs := HashRing.GetNodes(config, ring, key, replicationFactor);
      assert rs[0] in Quorums.Members(rs);
    }
  }

  /** When a node joins the ring, the task holds exactly those local keys whose owner the
      join has changed. */
  lemma JoinMovesDisplacedKeys(config: HashRing.Config, ring: HashRing.Ring, self: NodeId, replicationFactor: nat,
                               newNode: NodeId, local: Table, task: Option<Task>, key: string)
    requires HashRing.Canonical(config, ring) && config.virtualNodes >= 1 && newNode !in ring.nodes
            && replicationFactor >= 1
    requires IsJoinPlan(PlacementOn(config, HashRing.Add(config, ring, newNode), self, replicationFactor),
                        local, newNode, task)
    ensures (task.Some? && key in task.value.keys)
            <==> key in local
                 && HashRing.GetNode(config, HashRing.Add(config, ring, newNode), key)
                    != HashRing.GetNode(config, ring, key)
  {
    HashRing.JoiningMovesLittle(config, ring, newNode, key, replicationFactor);
    HashRing.ReplicasAreDistinct(config, ring, key, replicationFactor);
    var rs := HashRing.GetNodes(config, ring, key, replicationFactor);
    assert rs != [] ==> rs[0] in Quorums.Members(rs);
  }
}

/** The consistent-hash ring (minidb/sharding/consistent_hash.py). The two hash functions,
    of a virtual node's name and of a key, are arbitrary: nothing is assumed about them,
    not even that they are injective. */
module HashRing {
  import opened Options
  import opened Ordering
  import Quorums

  datatype Point = Point(hash: nat, node: string)

  datatype Config = Config(virtualNodes: nat, vnodeHash: (string, nat) -> nat, keyHash: string -> nat)

  datatype Ring = Ring(points: seq<Point>, nodes: set<string>)

  predicate Before(a: Point, b: Point) {
    a.hash < b.hash || (a.hash == b.hash && LexLess(a.node, b.node))
  }

  predicate Sorted(ps: seq<Point>) {
    forall i, j :: 0 <= i < j < |ps| ==> !Before(ps[j], ps[i])
  }

  /** bisect.bisect_left: how many leading points come before p. */
  function BisectLeft(ps: seq<Point>, p: Point): (n: nat)
    ensures n <= |ps|
  {
    if ps == [] || !Before(ps[0], p) then 0 else 1 + BisectLeft(ps[1..], p)
  }

  /** bisect.bisect_right: how many leading points do not come after p. */
  function BisectRight(ps: seq<Point>, p: Point): (n: nat)
    ensures n <= |ps|
  {
    if ps == [] || Before(p, ps[0]) then 0 else 1 + BisectRight(ps[1..], p)
  }

  function Insort(ps: seq<Point>, p: Point): seq<Point> {
    var n := BisectRight(ps, p);
    ps[..n] + [p] + ps[n..]
  }

  // ---------------------------------------------------------- adding and removing

  function InsertVirtual(c: Config, ps: seq<Point>, node: string, k: nat): seq<Point> {
    if k == 0 then ps else Insort(InsertVirtual(c, ps, node, k - 1), Point(c.vnodeHash(node, k - 1), node))
  }

  function Add(c: Config, r: Ring, node: string): Ring {
    if node in r.nodes then r
    else Ring(InsertVirtual(c, r.points, node, c.virtualNodes), r.nodes + {node})
  }

  function WithoutNode(ps: seq<Point>, node: string): seq<Point> {
    if ps == [] then []
    else
      var last := ps[|ps| - 1];
      WithoutNode(ps[..|ps| - 1], node) + if last.node != node then [last] else []
  }

  function Remove(r: Ring, node: string): Ring {
    if node !in r.nodes then r else Ring(WithoutNode(r.points, node), r.nodes - {node})
  }

  // ---------------------------------------------------------------------- lookups

  function Start(c: Config, r: Ring, key: string): (n: nat)
    ensures n <= |r.points|
  {
    BisectLeft(r.points, Point(c.keyHash(key), ""))
  }

  function GetNode(c: Config, r: Ring, key: string): Option<string> {
    if r.points == [] then None
    else
      var i := Start(c, r, key);
      Some(r.points[if i == |r.points| then 0 else i].node)
  }

  function Names(ps: seq<Point>): (names: seq<string>)
    ensures |names| == |ps| && forall i :: 0 <= i < |ps| ==> names[i] == ps[i].node
  {
    if ps == [] then [] else Names(ps[..|ps| - 1]) + [ps[|ps| - 1].node]
  }

  /** First occurrences only, in order. */
  function Dedup(xs: seq<string>): seq<string> {
    if xs == [] then []
    else
      var front, last := Dedup(xs[..|xs| - 1]), xs[|xs| - 1];
      if last in front then front else front + [last]
  }

  /** The points in the order a walk from the key meets them. */
  function Walk(c: Config, r: Ring, key: string): seq<Point> {
    var i := Start(c, r, key);
    r.points[i..] + r.points[..i]
  }

  /** All nodes, in the order a key prefers them. */
  function Preference(c: Config, r: Ring, key: string): seq<string> {
    Dedup(Names(Walk(c, r, key)))
  }

  function Take(xs: seq<string>, n: int): seq<string> {
    if n <= 0 then [] else if n >= |xs| then xs else xs[..n]
  }

  /** At least one node is returned from a non-empty ring, whatever the count. */
  function GetNodes(c: Config, r: Ring, key: string, count: int): seq<string> {
    Take(Preference(c, r, key), if count < 1 then 1 else count)
  }

  // ------------------------------------------------------------------ the canonical ring

  function VirtualPoints(c: Config, node: string, k: nat): seq<Point> {
    if k == 0 then [] else VirtualPoints(c, node, k - 1) + [Point(c.vnodeHash(node, k - 1), node)]
  }

  /** How often the ring of the given nodes must hold p. */
  function Multiplicity(c: Config, nodes: set<string>, p: Point): nat {
    if p.node in nodes then multiset(VirtualPoints(c, p.node, c.virtualNodes))[p] else 0
  }

  /** The virtual nodes, among the first k of a node, that stand at p. */
  function StandingAt(c: Config, k: nat, p: Point): set<nat> {
    set i: nat | i < k && c.vnodeHash(p.node, i) == p.hash
  }

  lemma OneMoreVirtual(c: Config, k: nat, p: Point)
    ensures |StandingAt(c, k + 1, p)| == |StandingAt(c, k, p)| + (if c.vnodeHash(p.node, k) == p.hash then 1 else 0)
  {
    var before := StandingAt(c, k, p);
    assert k !in before;
    assert StandingAt(c, k + 1, p) == if c.vnodeHash(p.node, k) == p.hash then before + {k} else before;
  }

  lemma {:induction false} PointsCounted(c: Config, k: nat, p: Point)
    ensures multiset(VirtualPoints(c, p.node, k))[p] == |StandingAt(c, k, p)|
  {
    if k > 0 {
      PointsCounted(c, k - 1, p);
      OneMoreVirtual(c, k - 1, p);
    }
  }

  /** A ring holds a point as often as its node has virtual nodes of that hash. */
  lemma RingPoints(c: Config, r: Ring, p: Point)
    requires Canonical(c, r)
    ensures multiset(r.points)[p] == if p.node in r.nodes then |StandingAt(c, c.virtualNodes, p)| else 0
  {
    PointsCounted(c, c.virtualNodes, p);
  }

  /** The ring is the sorted list of the virtual nodes of its node set. */
  ghost predicate Canonical(c: Config, r: Ring) {
    Sorted(r.points) && forall p :: multiset(r.points)[p] == Multiplicity(c, r.nodes, p)
  }

  lemma BeforeTotal(a: Point, b: Point)
    ensures Before(a, b) || a == b || Before(b, a)
    ensures !(Before(a, b) && Before(b, a)) && !Before(a, a)
  {
    LexTotal(a.node, b.node);
    LexIrreflexive(a.node);
  }

  lemma BeforeTransitive(a: Point, b: Point, c: Point)
    requires !Before(b, a) && !Before(c, b)
    ensures !Before(c, a)
  {
    LexTotal(a.node, b.node);
    LexTotal(b.node, c.node);
    LexTotal(a.node, c.node);
    if a.hash == b.hash == c.hash && LexLess(a.node, b.node) && LexLess(b.node, c.node) {
      LexTransitive(a.node, b.node, c.node);
    }
  }

  lemma {:induction false} BisectRightSplits(ps: seq<Point>, p: Point)
    requires Sorted(ps)
    ensures var n := BisectRight(ps, p);
            (forall i :: 0 <= i < n ==> !Before(p, ps[i])) && (forall i :: n <= i < |ps| ==> Before(p, ps[i]))
  {
    if ps != [] {
      if Before(p, ps[0]) {
        forall i | 0 <= i < |ps| ensures Before(p, ps[i]) {
          BeforeTotal(p, ps[i]);
          BeforeTotal(p, ps[0]);
          if i > 0 && !Before(p, ps[i]) { BeforeTransitive(ps[0], ps[i], p); }
        }
      } else {
        BisectRightSplits(ps[1..], p);
        assert forall i :: 1 <= i < |ps| ==> ps[i] == ps[1..][i - 1];
      }
    }
  }

  lemma {:induction false} BisectLeftSplits(ps: seq<Point>, p: Point)
    requires Sorted(ps)
    ensures var n := BisectLeft(ps, p);
            (forall i :: 0 <= i < n ==> Before(ps[i], p)) && (forall i :: n <= i < |ps| ==> !Before(ps[i], p))
  {
    if ps != [] {
      if Before(ps[0], p) {
        BisectLeftSplits(ps[1..], p);
        assert forall i :: 1 <= i < |ps| ==> ps[i] == ps[1..][i - 1];
      } else {
        forall i | 0 <= i < |ps| ensures !Before(ps[i], p) {
          if i > 0 { BeforeTransitive(p, ps[0], ps[i]); }
        }
      }
    }
  }

  /** Putting p between what does not come after it and what does keeps the order. */
  lemma InsertBetween(lo: seq<Point>, p: Point, hi: seq<Point>)
    requires Sorted(lo + hi)
    requires forall i :: 0 <= i < |lo| ==> !Before(p, lo[i])
    requires forall i :: 0 <= i < |hi| ==> !Before(hi[i], p)
    ensures Sorted(lo + [p] + hi)
  {
    var r := lo + [p] + hi;
    forall i, j | 0 <= i < j < |r| ensures !Before(r[j], r[i]) { InsertedInOrder(lo, p, hi, i, j); }
  }

  lemma InsertedInOrder(lo: seq<Point>, p: Point, hi: seq<Point>, i: nat, j: nat)
    requires Sorted(lo + hi) && i < j < |lo| + 1 + |hi|
    requires forall i :: 0 <= i < |lo| ==> !Before(p, lo[i])
    requires forall i :: 0 <= i < |hi| ==> !Before(hi[i], p)
    ensures var r := lo + [p] + hi; !Before(r[j], r[i])
  {
    var r, n := lo + [p] + hi, |lo|;
    if i != n && j != n {
      var i', j' := if i < n then i else i - 1, if j < n then j else j - 1;
      assert r[i] == (lo + hi)[i'] && r[j] == (lo + hi)[j'];
    } else if j == n {
      assert r[i] == lo[i] && r[j] == p;
    } else {
      assert r[i] == p && r[j] == hi[j - n - 1];
    }
  }

  lemma InsortPlace(ps: seq<Point>, p: Point, n: nat)
    requires Sorted(ps) && n == BisectRight(ps, p)
    ensures forall i :: 0 <= i < |ps[..n]| ==> !Before(p, ps[..n][i])
    ensures forall i :: 0 <= i < |ps[n..]| ==> !Before(ps[n..][i], p)
  {
    BisectRightSplits(ps, p);
    forall i | 0 <= i < |ps[n..]| ensures !Before(ps[n..][i], p) {
      assert ps[n..][i] == ps[n + i];
      BeforeTotal(p, ps[n + i]);
    }
  }

  lemma InsortKeeps(ps: seq<Point>, p: Point)
    requires Sorted(ps)
    ensures Sorted(Insort(ps, p)) && multiset(Insort(ps, p)) == multiset(ps) + multiset{p}
  {
    var n := BisectRight(ps, p);
    var lo, hi := ps[..n], ps[n..];
    assert ps == lo + hi;
    InsortPlace(ps, p, n);
    InsertBetween(lo, p, hi);
    MultisetWith(lo, p, hi);
  }

  lemma MultisetWith(lo: seq<Point>, p: Point, hi: seq<Point>)
    ensures multiset(lo + [p] + hi) == multiset(lo + hi) + multiset{p}
  {
    assert multiset(lo + [p] + hi) == multiset(lo) + multiset{p} + multiset(hi);
    assert multiset(lo + hi) == multiset(lo) + multiset(hi);
  }

  lemma {:induction false} InsertVirtualKeeps(c: Config, ps: seq<Point>, node: string, k: nat)
    requires Sorted(ps)
    ensures Sorted(InsertVirtual(c, ps, node, k))
    ensures multiset(InsertVirtual(c, ps, node, k)) == multiset(ps) + multiset(VirtualPoints(c, node, k))
  {
    if k > 0 {
      InsertVirtualKeeps(c, ps, node, k - 1);
      InsortKeeps(InsertVirtual(c, ps, node, k - 1), Point(c.vnodeHash(node, k - 1), node));
    }
  }

  lemma {:induction false} VirtualPointsNamed(c: Config, node: string, k: nat, p: Point)
    ensures p.node != node ==> multiset(VirtualPoints(c, node, k))[p] == 0
  {
    if k > 0 { VirtualPointsNamed(c, node, k - 1, p); }
  }

  lemma AddKeepsCanonical(c: Config, r: Ring, node: string)
    requires Canonical(c, r)
    ensures Canonical(c, Add(c, r, node))
  {
    if node !in r.nodes {
      InsertVirtualKeeps(c, r.points, node, c.virtualNodes);
      forall p ensures multiset(Add(c, r, node).points)[p] == Multiplicity(c, r.nodes + {node}, p) {
        VirtualPointsNamed(c, node, c.virtualNodes, p);
      }
    }
  }

  lemma {:induction false} WithoutNodeMembers(ps: seq<Point>, node: string, p: Point)
    ensures p in WithoutNode(ps, node) <==> p in ps && p.node != node
    ensures multiset(WithoutNode(ps, node))[p] == if p.node == node then 0 else multiset(ps)[p]
  {
    if ps != [] {
      WithoutNodeMembers(ps[..|ps| - 1], node, p);
      assert ps == ps[..|ps| - 1] + [ps[|ps| - 1]];
    }
  }

  lemma {:induction false} WithoutNodeSorted(ps: seq<Point>, node: string)
    requires Sorted(ps)
    ensures Sorted(WithoutNode(ps, node))
  {
    if ps != [] {
      var front, last := ps[..|ps| - 1], ps[|ps| - 1];
      WithoutNodeSorted(front, node);
      var kept := WithoutNode(front, node);
      forall i | 0 <= i < |kept| ensures !Before(last, kept[i]) {
        WithoutNodeMembers(front, node, kept[i]);
        var j :| 0 <= j < |front| && front[j] == kept[i];
        assert ps[j] == kept[i];
      }
    }
  }

  lemma RemoveKeepsCanonical(c: Config, r: Ring, node: string)
    requires Canonical(c, r)
    ensures Canonical(c, Remove(r, node))
  {
    WithoutNodeSorted(r.points, node);
    forall p ensures multiset(Remove(r, node).points)[p] == Multiplicity(c, Remove(r, node).nodes, p) {
      WithoutNodeMembers(r.points, node, p);
      assert multiset(r.points)[p] == Multiplicity(c, r.nodes, p);
    }
  }

  lemma SameHead(a: seq<Point>, b: seq<Point>)
    requires Sorted(a) && Sorted(b) && multiset(a) == multiset(b) && a != [] && b != []
    ensures a[0] == b[0]
  {
    assert a[0] in multiset(a) && b[0] in multiset(b);
    var i :| 0 <= i < |b| && b[i] == a[0];
    var j :| 0 <= j < |a| && a[j] == b[0];
    BeforeTotal(a[0], b[0]);
  }

  /** A sorted list is determined by its members and their multiplicities. */
  lemma {:induction false} SortedUnique(a: seq<Point>, b: seq<Point>)
    requires Sorted(a) && Sorted(b) && multiset(a) == multiset(b)
    ensures a == b
  {
    assert |multiset(a)| == |a| && |multiset(b)| == |b|;
    if a != [] {
      SameHead(a, b);
      assert a == [a[0]] + a[1..] && b == [b[0]] + b[1..];
      assert multiset(a[1..]) == multiset(a) - multiset{a[0]};
      assert multiset(b[1..]) == multiset(b) - multiset{b[0]};
      SortedUnique(a[1..], b[1..]);
    }
  }

  datatype Change = Join(node: string) | Leave(node: string)

  function Build(c: Config, changes: seq<Change>): Ring {
    if changes == [] then Ring([], {})
    else
      var r := Build(c, changes[..|changes| - 1]);
      match changes[|changes| - 1]
      case Join(n) => Add(c, r, n)
      case Leave(n) => Remove(r, n)
  }

  lemma {:induction false} BuildIsCanonical(c: Config, changes: seq<Change>)
    ensures Canonical(c, Build(c, changes))
  {
    if changes != [] {
      var r := Build(c, changes[..|changes| - 1]);
      BuildIsCanonical(c, changes[..|changes| - 1]);
      match changes[|changes| - 1]
      case Join(n) => AddKeepsCanonical(c, r, n);
      case Leave(n) => RemoveKeepsCanonical(c, r, n);
    }
  }

  lemma CanonicalUnique(c: Config, a: Ring, b: Ring)
    requires Canonical(c, a) && Canonical(c, b) && a.nodes == b.nodes
    ensures a == b
  {
    assert multiset(a.points) == multiset(b.points) by {
      forall p ensures multiset(a.points)[p] == multiset(b.points)[p] {
        assert multiset(a.points)[p] == Multiplicity(c, a.nodes, p);
      }
    }
    SortedUnique(a.points, b.points);
  }

  /** The ring depends only on who is in it, not on the history of joins and leaves. */
  lemma RingForgetsHistory(c: Config, x: seq<Change>, y: seq<Change>)
    requires Build(c, x).nodes == Build(c, y).nodes
    ensures Build(c, x) == Build(c, y)
  {
    BuildIsCanonical(c, x);
    BuildIsCanonical(c, y);
    CanonicalUnique(c, Build(c, x), Build(c, y));
  }

  /** Removing a node that was just added restores the ring. */
  lemma AddThenRemove(c: Config, r: Ring, node: string)
    requires Canonical(c, r) && node !in r.nodes
    ensures Remove(Add(c, r, node), node) == r
  {
    AddKeepsCanonical(c, r, node);
    RemoveKeepsCanonical(c, Add(c, r, node), node);
    assert r.nodes + {node} - {node} == r.nodes;
    CanonicalUnique(c, Remove(Add(c, r, node), node), r);
  }

  // ------------------------------------------------------------ lookups and their meaning

  lemma EmptyNameFirst(hash: nat, p: Point)
    ensures Before(p, Point(hash, "")) <==> p.hash < hash
  {}

  /** The owner of a key, without any list: the least point at or after the key's hash, or
      the least point of all when there is none. */
  lemma OwnerIsNextPoint(c: Config, r: Ring, key: string)
    requires Sorted(r.points) && r.points != []
    ensures GetNode(c, r, key).Some?
    ensures exists p :: p in r.points && p.node == GetNode(c, r, key).value
              && (forall q :: q in r.points && (q.hash >= c.keyHash(key) || p.hash < c.keyHash(key)) ==>
                    p.hash < q.hash || (p.hash == q.hash && LexAtMost(p.node, q.node)))
              && (p.hash >= c.keyHash(key) || forall q :: q in r.points ==> q.hash < c.keyHash(key))
  {
    var x := Point(c.keyHash(key), "");
    BisectLeftSplits(r.points, x);
    var i := Start(c, r, key);
    var p := r.points[if i == |r.points| then 0 else i];
    forall q | q in r.points ensures Before(q, x) <==> q.hash < x.hash { EmptyNameFirst(x.hash, q); }
    forall q | q in r.points && (q.hash >= x.hash || p.hash < x.hash)
      ensures p.hash < q.hash || (p.hash == q.hash && LexAtMost(p.node, q.node)) {
      var j :| 0 <= j < |r.points| && r.points[j] == q;
      BeforeTotal(q, p);
      LexTotal(p.node, q.node);
    }
  }

  lemma {:induction false} DedupFacts(xs: seq<string>)
    ensures Quorums.Distinct(Dedup(xs))
    ensures forall x :: x in Dedup(xs) <==> x in xs
    ensures xs != [] ==> Dedup(xs) != [] && Dedup(xs)[0] == xs[0]
  {
    if xs != [] {
      var front := xs[..|xs| - 1];
      DedupFacts(front);
      assert xs == front + [xs[|xs| - 1]];
    }
  }

  lemma {:induction false} DedupPrefix(xs: seq<string>, i: nat)
    requires i <= |xs|
    ensures Dedup(xs[..i]) <= Dedup(xs)
    decreases |xs|
  {
    if i == |xs| {
      assert xs[..i] == xs;
    } else {
      var front := xs[..|xs| - 1];
      DedupPrefix(front, i);
      assert front[..i] == xs[..i];
    }
  }

  lemma CanonicalPoints(c: Config, r: Ring, node: string)
    requires Canonical(c, r) && c.virtualNodes >= 1
    ensures node in r.nodes <==> exists p :: p in r.points && p.node == node
  {
    if node in r.nodes {
      var p := Point(c.vnodeHash(node, c.virtualNodes - 1), node);
      assert p in VirtualPoints(c, node, c.virtualNodes);
      assert multiset(r.points)[p] == Multiplicity(c, r.nodes, p) > 0;
      assert p in multiset(r.points);
    }
    if p :| p in r.points && p.node == node {
      assert p in multiset(r.points);
      assert multiset(r.points)[p] == Multiplicity(c, r.nodes, p);
    }
  }

  lemma WalkPassesNode(c: Config, r: Ring, key: string, n: string)
    ensures n in Names(Walk(c, r, key)) <==> exists p :: p in r.points && p.node == n
  {
    var walk := Walk(c, r, key);
    var names := Names(walk);
    var i := Start(c, r, key);
    assert r.points == r.points[..i] + r.points[i..];
    if n in names {
      var j :| 0 <= j < |names| && names[j] == n;
      assert walk[j] in r.points;
    }
    if p :| p in r.points && p.node == n {
      assert p in walk;
      var j :| 0 <= j < |walk| && walk[j] == p;
      assert names[j] == n;
    }
  }

  lemma PreferenceListsNodes(c: Config, r: Ring, key: string)
    requires Canonical(c, r) && c.virtualNodes >= 1
    ensures Quorums.Distinct(Preference(c, r, key))
    ensures Quorums.Members(Preference(c, r, key)) == r.nodes
    ensures |Preference(c, r, key)| == |r.nodes|
  {
    DedupFacts(Names(Walk(c, r, key)));
    forall n ensures n in Preference(c, r, key) <==> n in r.nodes {
      CanonicalPoints(c, r, n);
      WalkPassesNode(c, r, key, n);
    }
    Quorums.DistinctSize(Preference(c, r, key));
  }

  /** A lookup for `count` replicas gives min(count, nodes) distinct nodes of the ring, but at
      least one, headed by the owner. */
  lemma ReplicasAreDistinct(c: Config, r: Ring, key: string, count: int)
    requires Canonical(c, r) && c.virtualNodes >= 1
    ensures var rs, wanted := GetNodes(c, r, key, count), if count >= 1 then count else 1;
            && Quorums.Distinct(rs) && Quorums.Members(rs) <= r.nodes
            && |rs| == (if wanted < |r.nodes| then wanted else |r.nodes|)
            && (r.nodes != {} ==> rs != [] && GetNode(c, r, key) == Some(rs[0]))
            && (r.nodes == {} ==> GetNode(c, r, key) == None)
  {
    PreferenceListsNodes(c, r, key);
    var pref := Preference(c, r, key);
    var walk := Walk(c, r, key);
    DedupFacts(Names(walk));
    forall n | n in GetNodes(c, r, key, count) ensures n in r.nodes {
      assert n in pref;
      assert n in Quorums.Members(pref);
    }
  }

  // ------------------------------------------------------------------ minimal disruption

  function Without(xs: seq<string>, x: string): seq<string> {
    if xs == [] then []
    else
      var last := xs[|xs| - 1];
      Without(xs[..|xs| - 1], x) + if last != x then [last] else []
  }

  lemma {:induction false} WithoutNodeConcat(a: seq<Point>, b: seq<Point>, node: string)
    ensures WithoutNode(a + b, node) == WithoutNode(a, node) + WithoutNode(b, node)
  {
    if b == [] {
      assert a + b == a;
    } else {
      var front, last := b[..|b| - 1], b[|b| - 1];
      WithoutNodeConcat(a, front, node);
      assert (a + b)[..|a + b| - 1] == a + front && (a + b)[|a + b| - 1] == last;
    }
  }

  lemma {:induction false} NamesWithout(ps: seq<Point>, node: string)
    ensures Names(WithoutNode(ps, node)) == Without(Names(ps), node)
  {
    if ps != [] {
      var front, last := ps[..|ps| - 1], ps[|ps| - 1];
      NamesWithout(front, node);
      assert Names(ps) == Names(front) + [last.node];
      assert Names(ps)[..|ps| - 1] == Names(front);
      var kept := WithoutNode(front, node);
      if last.node != node { assert (kept + [last])[..|kept|] == kept; }
      else { assert kept + [] == kept; }
    }
  }

  lemma {:induction false} WithoutMembers(xs: seq<string>, x: string, y: string)
    ensures y in Without(xs, x) <==> y in xs && y != x
  {
    if xs != [] {
      WithoutMembers(xs[..|xs| - 1], x, y);
      assert xs == xs[..|xs| - 1] + [xs[|xs| - 1]];
    }
  }

  lemma {:induction false} DedupWithout(xs: seq<string>, x: string)
    ensures Dedup(Without(xs, x)) == Without(Dedup(xs), x)
  {
    if xs != [] {
      var front, last := xs[..|xs| - 1], xs[|xs| - 1];
      DedupWithout(front, x);
      DedupFacts(front);
      var d := Dedup(front);
      WithoutMembers(d, x, last);
      if last != x {
        var kept := Without(front, x);
        assert (kept + [last])[..|kept|] == kept;
        if last !in d { assert (d + [last])[..|d|] == d; }
      } else {
        assert Without(front, x) + [] == Without(front, x);
        if last !in d {
          assert (d + [last])[..|d|] == d;
          assert Without(d, x) + [] == Without(d, x);
        }
      }
    }
  }

  /** In a list that falls into points before p and points not before p, the search finds
      the dividing line. */
  lemma StartAt(lo: seq<Point>, hi: seq<Point>, p: Point)
    requires Sorted(lo + hi)
    requires forall q :: q in lo ==> Before(q, p)
    requires forall q :: q in hi ==> !Before(q, p)
    ensures BisectLeft(lo + hi, p) == |lo|
  {
    var qs := lo + hi;
    var m := BisectLeft(qs, p);
    BisectLeftSplits(qs, p);
    forall i | 0 <= i < |lo| ensures Before(qs[i], p) { assert qs[i] == lo[i]; }
    forall i | |lo| <= i < |qs| ensures !Before(qs[i], p) { assert qs[i] == hi[i - |lo|]; }
    assert m < |qs| ==> !Before(qs[m], p);
    assert |lo| < |qs| ==> !Before(qs[|lo|], p);
  }

  lemma FilteredEarlier(ps: seq<Point>, p: Point, node: string, q: Point)
    requires Sorted(ps)
    ensures q in WithoutNode(ps[..BisectLeft(ps, p)], node) ==> Before(q, p)
  {
    BisectLeftSplits(ps, p);
    WithoutNodeMembers(ps[..BisectLeft(ps, p)], node, q);
  }

  lemma FilteredLater(ps: seq<Point>, p: Point, node: string, q: Point)
    requires Sorted(ps)
    ensures q in WithoutNode(ps[BisectLeft(ps, p)..], node) ==> !Before(q, p)
  {
    BisectLeftSplits(ps, p);
    WithoutNodeMembers(ps[BisectLeft(ps, p)..], node, q);
  }

  /** Filtering commutes with the search for the starting point. */
  lemma StartWithout(ps: seq<Point>, p: Point, node: string)
    requires Sorted(ps)
    ensures var n := BisectLeft(ps, p);
            && WithoutNode(ps, node) == WithoutNode(ps[..n], node) + WithoutNode(ps[n..], node)
            && BisectLeft(WithoutNode(ps, node), p) == |WithoutNode(ps[..n], node)|
  {
    var n := BisectLeft(ps, p);
    var lo, hi := WithoutNode(ps[..n], node), WithoutNode(ps[n..], node);
    assert ps == ps[..n] + ps[n..];
    WithoutNodeConcat(ps[..n], ps[n..], node);
    WithoutNodeSorted(ps, node);
    forall q | q in lo ensures Before(q, p) { FilteredEarlier(ps, p, node, q); }
    forall q | q in hi ensures !Before(q, p) { FilteredLater(ps, p, node, q); }
    StartAt(lo, hi, p);
  }

  /** Removing a node only deletes it from every key's preference order. */
  lemma RemovalKeepsOrder(c: Config, r: Ring, node: string, key: string)
    requires Sorted(r.points) && node in r.nodes
    ensures Preference(c, Remove(r, node), key) == Without(Preference(c, r, key), node)
  {
    var p := Point(c.keyHash(key), "");
    var n := BisectLeft(r.points, p);
    var lo, hi := WithoutNode(r.points[..n], node), WithoutNode(r.points[n..], node);
    StartWithout(r.points, p, node);
    assert (lo + hi)[..|lo|] == lo && (lo + hi)[|lo|..] == hi;
    WithoutNodeConcat(r.points[n..], r.points[..n], node);
    NamesWithout(Walk(c, r, key), node);
    DedupWithout(Names(Walk(c, r, key)), node);
  }

  /** Adding a node only inserts it: deleting it again gives the old order. */
  lemma AdditionKeepsOrder(c: Config, r: Ring, node: string, key: string)
    requires Canonical(c, r) && node !in r.nodes
    ensures Preference(c, r, key) == Without(Preference(c, Add(c, r, node), key), node)
  {
    AddThenRemove(c, r, node);
    AddKeepsCanonical(c, r, node);
    RemovalKeepsOrder(c, Add(c, r, node), node, key);
  }

  function RemoveAll(r: Ring, names: seq<string>): Ring
    decreases |names|
  {
    if names == [] then r else RemoveAll(Remove(r, names[0]), names[1..])
  }

  /** When a key's owner leaves, the rest of the preference order stays. */
  lemma OwnerLeaves(c: Config, r: Ring, key: string)
    requires Canonical(c, r) && c.virtualNodes >= 1 && Preference(c, r, key) != []
    ensures var pref := Preference(c, r, key);
            var rest := Remove(r, pref[0]);
            Canonical(c, rest) && Preference(c, rest, key) == pref[1..]
  {
    var pref := Preference(c, r, key);
    PreferenceListsNodes(c, r, key);
    assert pref[0] in Quorums.Members(pref);
    RemoveKeepsCanonical(c, r, pref[0]);
    RemovalKeepsOrder(c, r, pref[0], key);
    WithoutSplit(pref, pref[0], 0);
    assert pref[..0] + pref[1..] == pref[1..];
  }

  lemma {:induction false} NextInPreference(c: Config, r: Ring, key: string, k: nat)
    requires Canonical(c, r) && c.virtualNodes >= 1 && k < |Preference(c, r, key)|
    ensures var pref := Preference(c, r, key); GetNode(c, RemoveAll(r, pref[..k]), key) == Some(pref[k])
    decreases k
  {
    var pref := Preference(c, r, key);
    if k == 0 {
      OwnerIsFirst(c, r, key);
    } else {
      OwnerLeaves(c, r, key);
      NextInPreference(c, Remove(r, pref[0]), key, k - 1);
      assert pref[..k][1..] == pref[1..][..k - 1] && pref[..k][0] == pref[0];
    }
  }

  /** Which nodes the replicas are: each would own the key if those before it left. */
  lemma ReplicasTakeOver(c: Config, r: Ring, key: string, count: int, k: nat)
    requires Canonical(c, r) && c.virtualNodes >= 1 && k < |GetNodes(c, r, key, count)|
    ensures var rs := GetNodes(c, r, key, count); GetNode(c, RemoveAll(r, rs[..k]), key) == Some(rs[k])
  {
    var pref, rs := Preference(c, r, key), GetNodes(c, r, key, count);
    assert rs == pref[..|rs|] && rs[..k] == pref[..k];
    NextInPreference(c, r, key, k);
  }

  lemma {:induction false} WithoutSplit(xs: seq<string>, x: string, k: nat)
    requires Quorums.Distinct(xs) && k < |xs| && xs[k] == x
    ensures Without(xs, x) == xs[..k] + xs[k + 1..]
  {
    var front, last := xs[..|xs| - 1], xs[|xs| - 1];
    if k == |xs| - 1 {
      assert x !in front;
      WithoutAbsent(front, x);
    } else {
      WithoutSplit(front, x, k);
      assert front[k + 1..] + [last] == xs[k + 1..];
      assert front[..k] == xs[..k];
    }
  }

  lemma {:induction false} WithoutAbsent(xs: seq<string>, x: string)
    requires x !in xs
    ensures Without(xs, x) == xs
  {
    if xs != [] {
      WithoutAbsent(xs[..|xs| - 1], x);
      assert xs == xs[..|xs| - 1] + [xs[|xs| - 1]];
    }
  }

  /** A prefix that contains the deleted element gives it up for the next one in line. */
  lemma SkipOne(xs: seq<string>, k: nat, n: nat)
    requires k < n < |xs|
    ensures (xs[..k] + xs[k + 1..])[..n] == xs[..k] + xs[k + 1..n] + [xs[n]]
  {
    var lo, hi := xs[..k], xs[k + 1..];
    assert (lo + hi)[..n] == lo + hi[..n - k];
    assert hi[..n - k] == hi[..n - k - 1] + [hi[n - k - 1]];
    assert hi[..n - k - 1] == xs[k + 1..n];
  }

  lemma TakeAround(xs: seq<string>, x: string, n: nat, k: nat)
    requires Quorums.Distinct(xs) && k < n < |xs| && xs[k] == x
    ensures Take(xs, n) == xs[..k] + [x] + xs[k + 1..n]
    ensures Take(Without(xs, x), n) == xs[..k] + xs[k + 1..n] + [xs[n]]
  {
    WithoutSplit(xs, x, k);
    SkipOne(xs, k, n);
    assert xs[..n] == xs[..k] + [x] + xs[k + 1..n];
  }

  lemma TakeShifts(xs: seq<string>, x: string, n: nat, k: nat)
    requires Quorums.Distinct(xs) && k < n < |xs| && xs[k] == x
    ensures Quorums.Members(Take(Without(xs, x), n)) == Quorums.Members(Take(xs, n)) - {x} + {xs[n]}
  {
    TakeAround(xs, x, n, k);
    var lo, hi := xs[..k], xs[k + 1..n];
    MembersOfInsertion(lo, x, hi);
    MembersOfInsertion(lo + hi, xs[n], []);
    assert lo + hi + [xs[n]] + [] == lo + hi + [xs[n]] && lo + hi + [] == lo + hi;
    NotAmongOthers(xs, x, k, n);
  }

  lemma NotAmongOthers(xs: seq<string>, x: string, k: nat, n: nat)
    requires Quorums.Distinct(xs) && k < n < |xs| && xs[k] == x
    ensures x !in Quorums.Members(xs[..k] + xs[k + 1..n])
  {
    var others := xs[..k] + xs[k + 1..n];
    forall i | 0 <= i < |others| ensures others[i] != x {
      assert others[i] == xs[if i < k then i else i + 1];
    }
  }

  lemma MembersOfInsertion(a: seq<string>, x: string, b: seq<string>)
    ensures Quorums.Members(a + [x] + b) == Quorums.Members(a + b) + {x}
  {
    var s, t := a + [x] + b, a + b;
    forall y ensures y in s <==> y in t || y == x {
      assert y in t <==> y in a || y in b;
      assert y in s <==> y in a + [x] || y in b;
    }
  }

  ghost predicate MovesLittle(was: set<string>, now: set<string>, node: string) {
    was - now <= {node} && (node !in was ==> now == was) && |now - was| <= 1
  }

  lemma TakeWithout(xs: seq<string>, x: string, n: nat)
    requires Quorums.Distinct(xs) && n >= 1
    ensures MovesLittle(Quorums.Members(Take(xs, n)), Quorums.Members(Take(Without(xs, x), n)), x)
  {
    var ys := Without(xs, x);
    var was, now := Quorums.Members(Take(xs, n)), Quorums.Members(Take(ys, n));
    if x !in xs {
      WithoutAbsent(xs, x);
    } else {
      var k :| 0 <= k < |xs| && xs[k] == x;
      WithoutSplit(xs, x, k);
      if k >= n {
        assert xs[..n] == ys[..n];
      } else if n < |xs| {
        TakeShifts(xs, x, n, k);
        Quorums.SubsetSize(now - was, {xs[n]});
      } else {
        forall y ensures y in now <==> y in was && y != x { WithoutMembers(xs, x, y); }
        assert now - was == {};
      }
    }
  }

  lemma OwnerIsFirst(c: Config, r: Ring, key: string)
    requires Canonical(c, r) && c.virtualNodes >= 1
    ensures var pref := Preference(c, r, key);
            GetNode(c, r, key) == if pref == [] then None else Some(pref[0])
  {
    ReplicasAreDistinct(c, r, key, 1);
    PreferenceListsNodes(c, r, key);
  }

  lemma WithoutHead(xs: seq<string>, x: string)
    requires Quorums.Distinct(xs) && xs != [] && xs[0] != x
    ensures Without(xs, x) != [] && Without(xs, x)[0] == xs[0]
  {
    if x in xs {
      var k :| 0 <= k < |xs| && xs[k] == x;
      WithoutSplit(xs, x, k);
    } else {
      WithoutAbsent(xs, x);
    }
  }

  /** Minimal disruption. When a node leaves, a key changes owner only if the node owned it,
      and its replica set loses only that node and gains at most one other. */
  lemma LeavingMovesLittle(c: Config, r: Ring, node: string, key: string, count: int)
    requires Canonical(c, r) && c.virtualNodes >= 1 && node in r.nodes && count >= 1
    ensures var r' := Remove(r, node);
            && (GetNode(c, r', key) != GetNode(c, r, key) ==> GetNode(c, r, key) == Some(node))
            && MovesLittle(Quorums.Members(GetNodes(c, r, key, count)),
                           Quorums.Members(GetNodes(c, r', key, count)), node)
  {
    var r' := Remove(r, node);
    var pref := Preference(c, r, key);
    RemoveKeepsCanonical(c, r, node);
    RemovalKeepsOrder(c, r, node, key);
    PreferenceListsNodes(c, r, key);
    TakeWithout(pref, node, count);
    OwnerIsFirst(c, r, key);
    OwnerIsFirst(c, r', key);
    if pref != [] && pref[0] != node { WithoutHead(pref, node); }
  }

  /** When a node joins, a key changes owner only to that node, and its replica set gains
      only that node and loses at most one other. */
  lemma JoiningMovesLittle(c: Config, r: Ring, node: string, key: string, count: int)
    requires Canonical(c, r) && c.virtualNodes >= 1 && node !in r.nodes && count >= 1
    ensures var r' := Add(c, r, node);
            && (GetNode(c, r', key) != GetNode(c, r, key) ==> GetNode(c, r', key) == Some(node))
            && MovesLittle(Quorums.Members(GetNodes(c, r', key, count)),
                           Quorums.Members(GetNodes(c, r, key, count)), node)
  {
    AddKeepsCanonical(c, r, node);
    AddThenRemove(c, r, node);
    LeavingMovesLittle(c, Add(c, r, node), node, key, count);
  }

  // ------------------------------------------------------------------------- the class

  class ConsistentHashRing {
    const config: Config
    var points: seq<Point>
    var nodes: set<string>

    constructor (config: Config)
      ensures this.config == config && Abs() == Ring([], {})
    {
      this.config := config;
      points, nodes := [], {};
    }

    function Abs(): Ring
      reads this
    {
      Ring(points, nodes)
    }

    method AddNode(node: string)
      modifies this
      ensures Abs() == Add(config, old(Abs()), node)
      ensures nodes == old(nodes) + {node} && (node in old(nodes) ==> points == old(points))
      ensures old(Canonical(config, Abs())) ==> Canonical(config, Abs())
    {
      if old(Canonical(config, Abs())) { AddKeepsCanonical(config, old(Abs()), node); }
      if node in nodes { return; }
      nodes := nodes + {node};
      for i := 0 to config.virtualNodes
        invariant nodes == old(nodes) + {node}
        invariant points == InsertVirtual(config, old(points), node, i)
      {
        points := Insort(points, Point(config.vnodeHash(node, i), node));
      }
    }

    method RemoveNode(node: string)
      modifies this
      ensures Abs() == Remove(old(Abs()), node)
      ensures nodes == old(nodes) - {node} && (node !in old(nodes) ==> points == old(points))
      ensures old(Canonical(config, Abs())) ==> Canonical(config, Abs())
    {
      if old(Canonical(config, Abs())) { RemoveKeepsCanonical(config, old(Abs()), node); }
      if node !in nodes { return; }
      nodes := nodes - {node};
      points := WithoutNode(points, node);
    }

    method Owner(key: string) returns (owner: Option<string>)
      ensures owner == GetNode(config, Abs(), key)
    {
      if points == [] { return None; }
      var i := BisectLeft(points, Point(config.keyHash(key), ""));
      if i == |points| { i := 0; }
      return Some(points[i].node);
    }

    method Lookup(key: string, count: int) returns (found: seq<string>)
      ensures found == GetNodes(config, Abs(), key, count)
    {
      if points == [] { return []; }
      var start := BisectLeft(points, Point(config.keyHash(key), ""));
      ghost var names := Names(Walk(config, Abs(), key));
      forall i | 0 <= i < |points| ensures names[i] == points[(start + i) % |points|].node {
        WalkStep(config, Abs(), key, i);
      }
      found := Collect(points, start, count, names);
    }

    /** The walk around the ring, until there are enough nodes. */
    static method Collect(ring: seq<Point>, start: nat, count: int, ghost names: seq<string>)
        returns (found: seq<string>)
      requires ring != [] && |names| == |ring|
      requires forall i :: 0 <= i < |ring| ==> names[i] == ring[(start + i) % |ring|].node
      ensures found == Take(Dedup(names), if count < 1 then 1 else count)
    {
      found := [];
      var seen := {};
      var i := 0;
      while i < |ring|
        invariant 0 <= i <= |ring|
        invariant found == Dedup(names[..i]) && seen == Quorums.Members(found)
        invariant i > 0 ==> found != [] && |found| < count
      {
        var node := ring[(start + i) % |ring|].node;
        assert node == names[i];
        VisitStep(names, i, found, seen);
        if node !in seen {
          found := found + [node];
          seen := seen + {node};
          if |found| >= count {
            TakePrefix(found, Dedup(names), count);
            return;
          }
        }
        i := i + 1;
      }
      assert names[..i] == names;
    }
  }

  lemma MembersOneMore(xs: seq<string>, x: string)
    ensures Quorums.Members(xs + [x]) == Quorums.Members(xs) + {x}
    ensures x in Quorums.Members(xs) <==> x in xs
  {
    forall y ensures y in xs + [x] <==> y in xs || y == x {}
  }

  lemma VisitStep(names: seq<string>, i: nat, found: seq<string>, seen: set<string>)
    requires i < |names| && found == Dedup(names[..i]) && seen == Quorums.Members(found)
    ensures names[i] in seen <==> names[i] in found
    ensures Dedup(names[..i + 1]) == if names[i] in found then found else found + [names[i]]
    ensures Quorums.Members(found + [names[i]]) == seen + {names[i]}
    ensures Dedup(names[..i + 1]) <= Dedup(names)
  {
    MembersOneMore(found, names[i]);
    DedupOneMore(names, i);
    DedupPrefix(names, i + 1);
  }

  lemma DedupOneMore(names: seq<string>, i: nat)
    requires i < |names|
    ensures var found := Dedup(names[..i]);
            Dedup(names[..i + 1]) == if names[i] in found then found else found + [names[i]]
  {
    assert names[..i + 1][..i] == names[..i];
  }

  lemma TakePrefix(xs: seq<string>, ys: seq<string>, count: int)
    requires xs <= ys && xs != [] && |xs| == (if count < 1 then 1 else count)
    ensures xs == Take(ys, if count < 1 then 1 else count)
  {}

  lemma WalkStep(c: Config, r: Ring, key: string, i: nat)
    requires i < |r.points|
    ensures Names(Walk(c, r, key))[i] == r.points[(Start(c, r, key) + i) % |r.points|].node
  {
    WrapAround(Start(c, r, key) + i, |r.points|);
  }

  lemma WrapAround(x: nat, size: nat)
    requires size > 0 && x < 2 * size
    ensures x % size == if x < size then x else x - size
  {
    if x >= size { assert x == size + (x - size); }
  }
}

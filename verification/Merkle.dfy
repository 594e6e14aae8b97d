/** Merkle trees over key-value tables (minidb/repair/merkle.py). The truncated SHA-256 is an
    arbitrary function whose results are 16 characters without a colon; that no two of the
    strings actually hashed collide is a premise of the theorems. Values enter as their text. */
module Merkle {
  import opened Options
  import opened Ordering
  import Quorums

  const HASH_LENGTH := 16
  const DEFAULT_BUCKET_SIZE := 100

  type HashFunction = string -> string

  datatype Entry = Entry(text: string, version: int)

  type Entries = map<string, Entry>

  datatype Range = Range(first: string, last: string)

  datatype Tree = Leaf(hash: string, range: Range, keys: seq<string>)
                | Node(hash: string, left: Tree, right: Tree, range: Range)

  // ------------------------------------------------------------------- what is hashed

  function Digits(n: nat): string {
    var last := [('0' as int + n % 10) as char];
    if n < 10 then last else Digits(n / 10) + last
  }

  function Decimal(n: int): string {
    if n < 0 then "-" + Digits(-n) else Digits(n)
  }

  function EntryText(key: string, e: Entry): string {
    key + ":" + e.text + ":" + Decimal(e.version)
  }

  /** The concatenated hashes of the entries of a bucket. */
  function BucketText(h: HashFunction, m: Entries, keys: seq<string>): string
    requires forall k :: k in keys ==> k in m
  {
    if keys == [] then "" else h(EntryText(keys[0], m[keys[0]])) + BucketText(h, m, keys[1..])
  }

  /** The number that a numeral denotes. */
  function Numeral(s: string): int {
    if s == "" then 0 else 10 * Numeral(s[..|s| - 1]) + (s[|s| - 1] as int - '0' as int)
  }

  /** The digits of a number are decimal digits that denote it, without leading zeros. */
  lemma {:induction false} DigitsDenote(n: nat)
    ensures Numeral(Digits(n)) == n && Digits(n) != ""
    ensures forall i :: 0 <= i < |Digits(n)| ==> '0' <= Digits(n)[i] <= '9'
    ensures |Digits(n)| > 1 ==> Digits(n)[0] != '0'
  {
    var last := ('0' as int + n % 10) as char;
    if n >= 10 {
      var front := Digits(n / 10);
      DigitsDenote(n / 10);
      assert Digits(n) == front + [last] && (front + [last])[..|front|] == front;
      if |front| == 1 { assert front[..0] == "" && Numeral(front) == front[0] as int - '0' as int; }
    } else {
      assert Digits(n) == [last] && [last][..0] == "";
    }
  }

  /** What is hashed for an entry: key, value text and version, parted by colons, the version
      in decimal with a sign only if it is negative. */
  lemma TextParts(key: string, e: Entry)
    ensures EntryText(key, e)
            == key + ":" + e.text + ":" + (if e.version < 0 then "-" + Digits(-e.version) else Digits(e.version))
  {}

  // ---------------------------------------------------------------- building a tree

  predicate StrictlySorted(ks: seq<string>) {
    forall i, j :: 0 <= i < j < |ks| ==> LexLess(ks[i], ks[j])
  }

  function InsertKey(ks: seq<string>, k: string): seq<string> {
    if ks == [] || LexLess(k, ks[0]) then [k] + ks else [ks[0]] + InsertKey(ks[1..], k)
  }

  lemma {:induction false} InsertKeyMembers(ks: seq<string>, k: string)
    ensures forall x :: x in InsertKey(ks, k) <==> x == k || x in ks
    ensures Quorums.Members(InsertKey(ks, k)) == Quorums.Members(ks) + {k}
  {
    if ks != [] && !LexLess(k, ks[0]) { InsertKeyMembers(ks[1..], k); }
  }

  lemma {:induction false} InsertKeySorts(ks: seq<string>, k: string)
    requires StrictlySorted(ks) && k !in ks
    ensures StrictlySorted(InsertKey(ks, k))
  {
    if ks == [] {
    } else if LexLess(k, ks[0]) {
      forall j | 0 <= j < |ks| ensures LexLess(k, ks[j]) {
        if j > 0 { LexTransitive(k, ks[0], ks[j]); }
      }
    } else {
      LexTotal(k, ks[0]);
      var rest := InsertKey(ks[1..], k);
      InsertKeySorts(ks[1..], k);
      InsertKeyMembers(ks[1..], k);
      forall j | 0 <= j < |rest| ensures LexLess(ks[0], rest[j]) { assert rest[j] in rest; }
    }
  }

  lemma {:induction false} SortedUnique(a: seq<string>, b: seq<string>)
    requires StrictlySorted(a) && StrictlySorted(b) && Quorums.Members(a) == Quorums.Members(b)
    ensures a == b
    decreases |a|
  {
    assert a != [] ==> a[0] in Quorums.Members(a);
    assert b != [] ==> b[0] in Quorums.Members(b);
    if a != [] {
      var i :| 0 <= i < |b| && b[i] == a[0];
      var j :| 0 <= j < |a| && a[j] == b[0];
      LexTotal(a[0], b[0]);
      assert a[0] == b[0];
      LexIrreflexive(a[0]);
      assert Quorums.Members(a[1..]) == Quorums.Members(a) - {a[0]} by { TailMembers(a); }
      assert Quorums.Members(b[1..]) == Quorums.Members(b) - {b[0]} by { TailMembers(b); }
      SortedUnique(a[1..], b[1..]);
      assert a == [a[0]] + a[1..] && b == [b[0]] + b[1..];
    }
  }

  lemma TailMembers(a: seq<string>)
    requires StrictlySorted(a) && a != []
    ensures Quorums.Members(a[1..]) == Quorums.Members(a) - {a[0]}
  {
    LexIrreflexive(a[0]);
    assert a == [a[0]] + a[1..];
    assert a[0] !in a[1..];
  }

  /** The keys in ascending order. */
  ghost function SortedKeys(s: set<string>): (ks: seq<string>)
    ensures StrictlySorted(ks) && Quorums.Members(ks) == s
  {
    if s == {} then []
    else
      var k :| k in s;
      var rest := SortedKeys(s - {k});
      assert k !in rest by { assert k !in Quorums.Members(rest); }
      InsertKeySorts(rest, k);
      InsertKeyMembers(rest, k);
      InsertKey(rest, k)
  }

  /** Consecutive buckets of at most b keys. */
  function Chunks(ks: seq<string>, b: nat): (cs: seq<seq<string>>)
    requires b >= 1
    ensures forall i :: 0 <= i < |cs| ==> 1 <= |cs[i]| <= b
    ensures (cs == []) == (ks == [])
    decreases |ks|
  {
    if ks == [] then [] else if |ks| <= b then [ks] else [ks[..b]] + Chunks(ks[b..], b)
  }

  /** The first and last key of a bucket; an empty one has the default range. */
  function RangeOf(keys: seq<string>): Range {
    if keys == [] then Range("", "") else Range(keys[0], keys[|keys| - 1])
  }

  function Bucket(h: HashFunction, m: Entries, keys: seq<string>): Tree
    requires forall k :: k in keys ==> k in m
  {
    Leaf(h(BucketText(h, m, keys)), RangeOf(keys), keys)
  }

  /** The buckets hold keys of m only. */
  predicate ChunksIn(m: Entries, cs: seq<seq<string>>) {
    forall i, k :: 0 <= i < |cs| && k in cs[i] ==> k in m
  }

  function Buckets(h: HashFunction, m: Entries, cs: seq<seq<string>>): (ts: seq<Tree>)
    requires ChunksIn(m, cs)
    ensures |ts| == |cs|
  {
    if cs == [] then [] else
      [Bucket(h, m, cs[0])] + Buckets(h, m, cs[1..])
  }

  function Combine(h: HashFunction, left: Tree, right: Tree): Tree {
    Node(h(left.hash + right.hash), left, right, Range(left.range.first, right.range.last))
  }

  /** One level up: neighbours are combined and an odd last node is promoted. */
  function Pairs(h: HashFunction, ts: seq<Tree>): (ps: seq<Tree>)
    ensures |ps| == (|ts| + 1) / 2
    decreases |ts|
  {
    if |ts| < 2 then ts else [Combine(h, ts[0], ts[1])] + Pairs(h, ts[2..])
  }

  function BuildTree(h: HashFunction, ts: seq<Tree>): Tree
    requires ts != []
    decreases |ts|
  {
    if |ts| == 1 then ts[0] else BuildTree(h, Pairs(h, ts))
  }

  lemma {:induction false} ChunksOfKeys(ks: seq<string>, b: nat)
    requires b >= 1
    ensures Flatten(Chunks(ks, b)) == ks
    decreases |ks|
  {
    if ks == [] {
    } else if |ks| <= b {
      assert [ks][1..] == [];
    } else {
      ChunksOfKeys(ks[b..], b);
      assert ([ks[..b]] + Chunks(ks[b..], b))[1..] == Chunks(ks[b..], b);
      assert ks == ks[..b] + ks[b..];
    }
  }

  function Flatten(cs: seq<seq<string>>): seq<string> {
    if cs == [] then [] else cs[0] + Flatten(cs[1..])
  }

  lemma UnfoldFlatten(a: seq<seq<string>>, ab: seq<seq<string>>, b: seq<seq<string>>)
    requires a != [] && ab == a + b
    ensures Flatten(a) == a[0] + Flatten(a[1..]) && Flatten(ab) == a[0] + Flatten(a[1..] + b)
  {
    assert ab[1..] == a[1..] + b && ab[0] == a[0];
  }

  lemma Regroup<T>(x: seq<T>, y: seq<T>, z: seq<T>)
    ensures x + (y + z) == x + y + z
  {}

  lemma {:induction false} FlattenAppend(a: seq<seq<string>>, b: seq<seq<string>>)
    ensures Flatten(a + b) == Flatten(a) + Flatten(b)
  {
    if a == [] {
      assert a + b == b;
    } else {
      FlattenAppend(a[1..], b);
      UnfoldFlatten(a, a + b, b);
      Regroup(a[0], Flatten(a[1..]), Flatten(b));
    }
  }

  lemma {:induction false} InFlatten(cs: seq<seq<string>>, i: nat, k: string)
    requires i < |cs| && k in cs[i]
    ensures k in Flatten(cs)
  {
    if i > 0 { InFlatten(cs[1..], i - 1, k); }
  }

  lemma ChunkKeys(m: Entries, b: nat)
    requires b >= 1
    ensures ChunksIn(m, Chunks(SortedKeys(m.Keys), b))
  {
    var ks := SortedKeys(m.Keys);
    var cs := Chunks(ks, b);
    ChunksOfKeys(ks, b);
    forall i, k | 0 <= i < |cs| && k in cs[i] ensures k in m {
      InFlatten(cs, i, k);
      assert k in Quorums.Members(ks);
    }
  }

  /** What build makes of a table; no tree at all for an empty one. */
  ghost function TreeOf(h: HashFunction, b: nat, m: Entries): Option<Tree>
    requires b >= 1
  {
    if m == map[] then None
    else
      ChunkKeys(m, b);
      assert SortedKeys(m.Keys) != [] by { assert m.Keys != {}; }
      Some(BuildTree(h, Buckets(h, m, Chunks(SortedKeys(m.Keys), b))))
  }

  // -------------------------------------------------------------------- comparing

  function CompareNodes(a: Tree, b: Tree): seq<Range> {
    if a.hash == b.hash then []
    else if a.Leaf? || b.Leaf? then [a.range]
    else CompareNodes(a.left, b.left) + CompareNodes(a.right, b.right)
  }

  /** Nothing is reported when either tree is empty. */
  function Compare(a: Option<Tree>, b: Option<Tree>): seq<Range> {
    if a.None? || b.None? then [] else CompareNodes(a.value, b.value)
  }

  predicate Within(k: string, r: Range) {
    LexAtMost(r.first, k) && LexAtMost(k, r.last)
  }

  predicate Covered(k: string, rs: seq<Range>) {
    exists i :: 0 <= i < |rs| && Within(k, rs[i])
  }

  /** The node at the end of a path from the root; false goes left. */
  function At(t: Tree, path: seq<bool>): Option<Tree> {
    if path == [] then Some(t)
    else if t.Leaf? then None
    else At(if path[0] then t.right else t.left, path[1..])
  }

  /** Along the path both trees have nodes, of different hashes throughout, and at its end one
      of them has a leaf. */
  predicate PartsAt(a: Tree, b: Tree, path: seq<bool>) {
    && (forall n :: 0 <= n <= |path| ==>
          At(a, path[..n]).Some? && At(b, path[..n]).Some?
          && At(a, path[..n]).value.hash != At(b, path[..n]).value.hash)
    && At(a, path).Some? && At(b, path).Some? && (At(a, path).value.Leaf? || At(b, path).value.Leaf?)
  }

  ghost predicate ReportedAt(a: Tree, b: Tree, r: Range, path: seq<bool>) {
    PartsAt(a, b, path) && At(a, path).value.range == r
  }

  lemma PartsBelow(a: Tree, b: Tree, path: seq<bool>, right: bool)
    requires a.Node? && b.Node? && a.hash != b.hash
    ensures PartsAt(a, b, [right] + path)
            <==> PartsAt(if right then a.right else a.left, if right then b.right else b.left, path)
  {
    var longer := [right] + path;
    assert longer[1..] == path;
    forall n | 0 <= n <= |path| ensures longer[..n + 1] == [right] + path[..n] && longer[..n + 1][1..] == path[..n] {}
    if PartsAt(a, b, longer) {
      forall n | 0 <= n <= |path|
        ensures At(if right then a.right else a.left, path[..n]) == At(a, longer[..n + 1])
        ensures At(if right then b.right else b.left, path[..n]) == At(b, longer[..n + 1]) {}
    }
    if PartsAt(if right then a.right else a.left, if right then b.right else b.left, path) {
      forall n | 0 <= n <= |longer|
        ensures At(a, longer[..n]).Some? && At(b, longer[..n]).Some?
        ensures At(a, longer[..n]).value.hash != At(b, longer[..n]).value.hash {
        if n > 0 { assert longer[..n][1..] == path[..n - 1]; }
      }
    }
  }

  /** The reported ranges, exactly: those of the first tree's nodes at which a way down
      through different hashes meets a leaf of either tree. */
  lemma {:induction false} ReportedExactly(a: Tree, b: Tree, r: Range)
    ensures r in CompareNodes(a, b) <==> exists path :: ReportedAt(a, b, r, path)
    decreases a
  {
    if a.hash == b.hash {
      forall path ensures !PartsAt(a, b, path) { assert path[..0] == []; }
    } else if a.Leaf? || b.Leaf? {
      assert PartsAt(a, b, []);
      if r == a.range { assert ReportedAt(a, b, r, []); }
      forall path | path != [] ensures !PartsAt(a, b, path) {
        assert At(a, path[..1]) == None || At(b, path[..1]) == None;
      }
    } else {
      ReportedExactly(a.left, b.left, r);
      ReportedExactly(a.right, b.right, r);
      forall path | ReportedAt(a, b, r, path)
        ensures path != [] && ReportedAt(if path[0] then a.right else a.left, if path[0] then b.right else b.left, r,
                                         path[1..]) {
        assert path == [path[0]] + path[1..];
        PartsBelow(a, b, path[1..], path[0]);
      }
      if path :| ReportedAt(a.left, b.left, r, path) {
        PartsBelow(a, b, path, false);
        assert ([false] + path)[1..] == path && ReportedAt(a, b, r, [false] + path);
      }
      if path :| ReportedAt(a.right, b.right, r, path) {
        PartsBelow(a, b, path, true);
        assert ([true] + path)[1..] == path && ReportedAt(a, b, r, [true] + path);
      }
    }
  }

  // ------------------------------------------------------------- the shape of a tree

  /** The buckets at the leaves, left to right. */
  function LeafList(t: Tree): seq<seq<string>> {
    match t
    case Leaf(_, _, keys) => [keys]
    case Node(_, left, right, _) => LeafList(left) + LeafList(right)
  }

  function Keys(t: Tree): seq<string> {
    Flatten(LeafList(t))
  }

  lemma KeysOfNode(t: Tree)
    ensures t.Node? ==> Keys(t) == Keys(t.left) + Keys(t.right)
    ensures t.Leaf? ==> Keys(t) == t.keys
  {
    match t
    case Leaf(_, _, keys) =>
      var cs := [keys];
      assert LeafList(t) == cs && cs[1..] == [];
      assert Flatten(cs) == keys + Flatten(cs[1..]);
    case Node(_, left, right, _) => FlattenAppend(LeafList(left), LeafList(right));
  }

  /** Hashes and ranges are what building over m gives. */
  predicate Built(h: HashFunction, m: Entries, t: Tree) {
    match t
    case Leaf(hash, range, keys) =>
      && keys != [] && (forall k :: k in keys ==> k in m)
      && hash == h(BucketText(h, m, keys)) && range == Range(keys[0], keys[|keys| - 1])
    case Node(hash, left, right, range) =>
      && Built(h, m, left) && Built(h, m, right)
      && hash == h(left.hash + right.hash) && range == Range(left.range.first, right.range.last)
  }

  predicate AllBuilt(h: HashFunction, m: Entries, ts: seq<Tree>) {
    forall i :: 0 <= i < |ts| ==> Built(h, m, ts[i])
  }

  function AllLeaves(ts: seq<Tree>): seq<seq<string>> {
    if ts == [] then [] else LeafList(ts[0]) + AllLeaves(ts[1..])
  }

  lemma {:induction false} PairsKeep(h: HashFunction, m: Entries, ts: seq<Tree>)
    requires AllBuilt(h, m, ts)
    ensures AllBuilt(h, m, Pairs(h, ts)) && AllLeaves(Pairs(h, ts)) == AllLeaves(ts)
    decreases |ts|
  {
    if |ts| >= 2 {
      PairsKeep(h, m, ts[2..]);
      var p, rest := Combine(h, ts[0], ts[1]), Pairs(h, ts[2..]);
      assert ([p] + rest)[1..] == rest;
      assert ts[1..][1..] == ts[2..];
      assert Built(h, m, p);
    }
  }

  lemma {:induction false} BuildTreeKeeps(h: HashFunction, m: Entries, ts: seq<Tree>)
    requires AllBuilt(h, m, ts) && ts != []
    ensures Built(h, m, BuildTree(h, ts)) && LeafList(BuildTree(h, ts)) == AllLeaves(ts)
    decreases |ts|
  {
    if |ts| == 1 {
      assert AllLeaves(ts[1..]) == [];
    } else {
      PairsKeep(h, m, ts);
      BuildTreeKeeps(h, m, Pairs(h, ts));
    }
  }

  lemma {:induction false} BucketsAreLeaves(h: HashFunction, m: Entries, cs: seq<seq<string>>)
    requires ChunksIn(m, cs) && forall i :: 0 <= i < |cs| ==> cs[i] != []
    ensures AllBuilt(h, m, Buckets(h, m, cs)) && AllLeaves(Buckets(h, m, cs)) == cs
  {
    if cs != [] {
      BucketsAreLeaves(h, m, cs[1..]);
      assert forall k :: k in cs[0] ==> k in m;
      var rest := Buckets(h, m, cs[1..]);
      assert ([Bucket(h, m, cs[0])] + rest)[1..] == rest;
    }
  }

  /** The leaves of a built tree, in order, are the buckets of the sorted keys, and together
      exactly the sorted keys; hashes and ranges are right at every node. */
  lemma TreeOfBuilt(h: HashFunction, b: nat, m: Entries)
    requires b >= 1 && m != map[]
    ensures var t := TreeOf(h, b, m).value;
            Built(h, m, t) && LeafList(t) == Chunks(SortedKeys(m.Keys), b) && Keys(t) == SortedKeys(m.Keys)
  {
    ChunkKeys(m, b);
    var cs := Chunks(SortedKeys(m.Keys), b);
    assert SortedKeys(m.Keys) != [] by { assert m.Keys != {}; }
    BucketsAreLeaves(h, m, cs);
    BuildTreeKeeps(h, m, Buckets(h, m, cs));
    ChunksOfKeys(SortedKeys(m.Keys), b);
  }

  /** No bucket is empty or holds more than b keys, and every one but the last is full. */
  lemma {:induction false} BucketsAreFull(ks: seq<string>, b: nat)
    requires b >= 1
    ensures forall i :: 0 <= i < |Chunks(ks, b)| ==> 1 <= |Chunks(ks, b)[i]| <= b
    ensures forall i :: 0 <= i < |Chunks(ks, b)| - 1 ==> |Chunks(ks, b)[i]| == b
    decreases |ks|
  {
    if |ks| > b {
      BucketsAreFull(ks[b..], b);
      var rest := Chunks(ks[b..], b);
      assert forall i :: 1 <= i < |Chunks(ks, b)| ==> Chunks(ks, b)[i] == rest[i - 1];
    }
  }

  function Power(k: nat): nat {
    if k == 0 then 1 else 2 * Power(k - 1)
  }

  /** The greatest power of two below n. */
  function Half(n: nat): (p: nat)
    requires n >= 2
    ensures 1 <= p < n
  {
    if n == 2 then 1 else 2 * Half((n + 1) / 2)
  }

  lemma {:induction false} HalfIsPower(n: nat) returns (k: nat)
    requires n >= 2
    ensures Half(n) == Power(k) && n <= 2 * Half(n)
  {
    if n == 2 {
      k := 0;
    } else {
      k := HalfIsPower((n + 1) / 2);
      k := k + 1;
    }
  }

  lemma {:induction false} PairsAppend(h: HashFunction, a: seq<Tree>, b: seq<Tree>)
    requires |a| % 2 == 0
    ensures Pairs(h, a + b) == Pairs(h, a) + Pairs(h, b)
    decreases |a|
  {
    if a == [] {
      assert a + b == b;
    } else {
      PairsAppend(h, a[2..], b);
      assert (a + b)[2..] == a[2..] + b && (a + b)[0] == a[0] && (a + b)[1] == a[1];
    }
  }

  lemma PairsBuildSame(h: HashFunction, ts: seq<Tree>)
    requires ts != []
    ensures Pairs(h, ts) != [] && BuildTree(h, Pairs(h, ts)) == BuildTree(h, ts)
  {
    if |ts| == 1 { assert Pairs(h, ts) == ts; }
  }

  lemma PairsHalves(h: HashFunction, ts: seq<Tree>)
    requires |ts| > 2
    ensures var ps, p, q := Pairs(h, ts), Half(|ts|), Half((|ts| + 1) / 2);
            |ps| == (|ts| + 1) / 2 && ps[..q] == Pairs(h, ts[..p]) && ps[q..] == Pairs(h, ts[p..])
  {
    var p := Half(|ts|);
    assert ts == ts[..p] + ts[p..];
    PairsAppend(h, ts[..p], ts[p..]);
  }

  /** The shape of a tree, without levels: the left half takes the greatest power of two of
      buckets that leaves one over, and both halves are built likewise. */
  lemma {:induction false} TreeShape(h: HashFunction, ts: seq<Tree>)
    requires |ts| >= 2
    ensures BuildTree(h, ts) == Combine(h, BuildTree(h, ts[..Half(|ts|)]), BuildTree(h, ts[Half(|ts|)..]))
    decreases |ts|
  {
    var n := |ts|;
    if n == 2 {
      TwoLeaves(h, ts[0], ts[1]);
      assert ts == [ts[0], ts[1]];
    } else {
      TreeShape(h, Pairs(h, ts));
      PairsHalves(h, ts);
      PairsBuildSame(h, ts[..Half(n)]);
      PairsBuildSame(h, ts[Half(n)..]);
    }
  }

  lemma {:induction false} RangeOfTree(h: HashFunction, m: Entries, t: Tree)
    requires Built(h, m, t)
    ensures Keys(t) != [] && t.range == RangeOf(Keys(t))
  {
    KeysOfNode(t);
    if t.Node? {
      RangeOfTree(h, m, t.left);
      RangeOfTree(h, m, t.right);
    }
  }

  lemma RangeCoversKeys(h: HashFunction, m: Entries, t: Tree, k: string)
    requires Built(h, m, t) && StrictlySorted(Keys(t)) && k in Keys(t)
    ensures Within(k, t.range)
  {
    RangeOfTree(h, m, t);
    var i :| 0 <= i < |Keys(t)| && Keys(t)[i] == k;
  }

  // ------------------------------------------------------- texts determine entries

  lemma LastDigit(n: nat)
    ensures Digits(n) != "" && Digits(n)[|Digits(n)| - 1] == ('0' as int + n % 10) as char
    ensures Digits(n)[..|Digits(n)| - 1] == if n < 10 then "" else Digits(n / 10)
  {}

  lemma {:induction false} DigitsFaithful(a: nat, b: nat)
    requires Digits(a) == Digits(b)
    ensures a == b
  {
    LastDigit(a);
    LastDigit(b);
    LastDigit(a / 10);
    LastDigit(b / 10);
    assert a % 10 == b % 10;
    if a >= 10 && b >= 10 { DigitsFaithful(a / 10, b / 10); }
  }

  lemma {:induction false} DigitsNotEmpty(n: nat)
    ensures Digits(n) != "" && ':' !in Digits(n) && '-' !in Digits(n)
  {
    if n >= 10 { DigitsNotEmpty(n / 10); }
  }

  lemma DecimalSign(n: int)
    ensures ':' !in Decimal(n) && Decimal(n) != "" && (Decimal(n)[0] == '-' <==> n < 0)
  {
    if n < 0 {
      DigitsNotEmpty(-n);
    } else {
      DigitsNotEmpty(n);
      assert Digits(n)[0] in Digits(n);
    }
  }

  lemma DecimalFaithful(a: int, b: int)
    requires Decimal(a) == Decimal(b)
    ensures a == b
  {
    DecimalSign(a);
    DecimalSign(b);
    if a < 0 {
      assert Decimal(a)[1..] == Digits(-a) && Decimal(b)[1..] == Digits(-b);
      DigitsFaithful(-a, -b);
    } else {
      DigitsFaithful(a, b);
    }
  }

  lemma SplitFirst(a: string, x: string, b: string, y: string)
    requires ':' !in a && ':' !in b && a + ":" + x == b + ":" + y
    ensures a == b && x == y
  {
    var s := a + ":" + x;
    var t := b + ":" + y;
    assert s[|a|] == ':' && t[|b|] == ':';
    assert forall i :: 0 <= i < |a| ==> s[i] == a[i] && s[i] != ':';
    assert forall i :: 0 <= i < |b| ==> t[i] == b[i] && t[i] != ':';
    assert |a| == |b|;
    assert s[..|a|] == a && t[..|b|] == b;
    assert s[|a| + 1..] == x && t[|b| + 1..] == y;
  }

  lemma SplitLast(x: string, a: string, y: string, b: string)
    requires ':' !in a && ':' !in b && x + ":" + a == y + ":" + b
    ensures a == b && x == y
  {
    var s := x + ":" + a;
    var t := y + ":" + b;
    assert s[|x|] == ':' && t[|y|] == ':';
    assert forall i :: |x| < i < |s| ==> s[i] == a[i - |x| - 1] && s[i] != ':';
    assert forall i :: |y| < i < |t| ==> t[i] == b[i - |y| - 1] && t[i] != ':';
    assert |x| == |y|;
    assert s[..|x|] == x && t[..|y|] == y;
    assert s[|x| + 1..] == a && t[|y| + 1..] == b;
  }

  /** Key, value text and version can be read back from the text, if keys have no colon. */
  lemma TextFaithful(k: string, e: Entry, k': string, e': Entry)
    requires ':' !in k && ':' !in k' && EntryText(k, e) == EntryText(k', e')
    ensures k == k' && e == e'
  {
    var rest, rest' := e.text + ":" + Decimal(e.version), e'.text + ":" + Decimal(e'.version);
    TextInTwo(k, e);
    TextInTwo(k', e');
    SplitFirst(k, rest, k', rest');
    DecimalSign(e.version);
    DecimalSign(e'.version);
    SplitLast(e.text, Decimal(e.version), e'.text, Decimal(e'.version));
    DecimalFaithful(e.version, e'.version);
  }

  lemma TextInTwo(k: string, e: Entry)
    ensures EntryText(k, e) == k + ":" + (e.text + ":" + Decimal(e.version))
  {}

  // -------------------------------------------------- equal hashes, equal contents

  ghost predicate GoodHash(h: HashFunction) {
    forall s :: |h(s)| == HASH_LENGTH && ':' !in h(s)
  }

  ghost predicate CollisionFree(h: HashFunction, texts: set<string>) {
    forall s, t :: s in texts && t in texts && h(s) == h(t) ==> s == t
  }

  predicate NoColons(m: Entries) {
    forall k :: k in m ==> ':' !in k
  }

  /** Every string that is hashed while the tree is built. */
  ghost function Hashed(h: HashFunction, m: Entries, t: Tree): set<string>
    requires Built(h, m, t)
  {
    match t
    case Leaf(_, _, keys) => {BucketText(h, m, keys)} + (set k | k in keys :: EntryText(k, m[k]))
    case Node(_, left, right, _) => {left.hash + right.hash} + Hashed(h, m, left) + Hashed(h, m, right)
  }

  ghost function HashedByBuild(h: HashFunction, b: nat, m: Entries): set<string>
    requires b >= 1
  {
    if m == map[] then {} else
      TreeOfBuilt(h, b, m);
      Hashed(h, m, TreeOf(h, b, m).value)
  }

  predicate Agree(m: Entries, m': Entries, k: string) {
    k in m && k in m' && m[k] == m'[k]
  }

  /** Two buckets with the same text hold the same entries. */
  lemma {:induction false} BucketFaithful(h: HashFunction, m: Entries, ks: seq<string>, m': Entries, ks': seq<string>,
      texts: set<string>)
    requires GoodHash(h) && CollisionFree(h, texts) && NoColons(m) && NoColons(m')
    requires forall k :: k in ks ==> k in m && EntryText(k, m[k]) in texts
    requires forall k :: k in ks' ==> k in m' && EntryText(k, m'[k]) in texts
    requires BucketText(h, m, ks) == BucketText(h, m', ks')
    ensures ks == ks' && forall k :: k in ks ==> Agree(m, m', k)
  {
    BucketTextEmpty(h, m, ks);
    BucketTextEmpty(h, m', ks');
    if ks != [] {
      var k, k' := ks[0], ks'[0];
      var f, f' := h(EntryText(k, m[k])), h(EntryText(k', m'[k']));
      EqualHalves(f, BucketText(h, m, ks[1..]), f', BucketText(h, m', ks'[1..]));
      TextFaithful(k, m[k], k', m'[k']);
      BucketFaithful(h, m, ks[1..], m', ks'[1..], texts);
      assert ks == [k] + ks[1..] && ks' == [k'] + ks'[1..];
    }
  }

  lemma BucketTextEmpty(h: HashFunction, m: Entries, ks: seq<string>)
    requires GoodHash(h) && forall k :: k in ks ==> k in m
    ensures BucketText(h, m, ks) == "" <==> ks == []
  {
    if ks != [] { assert |h(EntryText(ks[0], m[ks[0]]))| == HASH_LENGTH; }
  }

  lemma EqualHalves(a: string, x: string, b: string, y: string)
    requires |a| == |b| && a + x == b + y
    ensures a == b && x == y
  {
    assert (a + x)[..|a|] == a && (b + y)[..|b|] == b;
    assert (a + x)[|a|..] == x && (b + y)[|b|..] == y;
  }

  /** No hash that is combined is the hash of an entry, for an entry's text has a colon. */
  lemma {:induction false} BucketTextNoColon(h: HashFunction, m: Entries, ks: seq<string>)
    requires GoodHash(h) && forall k :: k in ks ==> k in m
    ensures ':' !in BucketText(h, m, ks)
  {
    if ks != [] { BucketTextNoColon(h, m, ks[1..]); }
  }

  lemma HashOfTree(h: HashFunction, m: Entries, t: Tree) returns (text: string)
    requires GoodHash(h) && Built(h, m, t)
    ensures t.hash == h(text) && ':' !in text && text in Hashed(h, m, t)
  {
    match t
    case Leaf(_, _, keys) =>
      BucketTextNoColon(h, m, keys);
      text := BucketText(h, m, keys);
    case Node(_, left, right, _) =>
      var _ := HashOfTree(h, m, left);
      var _ := HashOfTree(h, m, right);
      text := left.hash + right.hash;
  }

  lemma BucketIsNoPair(h: HashFunction, m: Entries, t: Tree, m': Entries, t': Tree, texts: set<string>)
    requires GoodHash(h) && CollisionFree(h, texts) && t.Leaf? && t'.Node?
    requires Built(h, m, t) && Built(h, m', t') && Hashed(h, m, t) <= texts && Hashed(h, m', t') <= texts
    ensures t.hash != t'.hash
  {
    var ks := t.keys;
    var entry := EntryText(ks[0], m[ks[0]]);
    var text := HashOfTree(h, m', t'.left);
    assert entry in Hashed(h, m, t) by { assert ks[0] in ks; }
    assert entry[|ks[0]|] == ':';
    assert h(entry) != t'.left.hash;
    if t.hash == t'.hash {
      assert BucketText(h, m, ks) == t'.left.hash + t'.right.hash;
      var _ := HashOfTree(h, m', t'.right);
      EqualHalves(h(entry), BucketText(h, m, ks[1..]), t'.left.hash, t'.right.hash);
    }
  }

  /** Without collisions, equal hashes mean the same buckets with the same entries, whatever
      the shapes of the trees they were found in. */
  lemma {:induction false} SameHash(h: HashFunction, m: Entries, t: Tree, m': Entries, t': Tree, texts: set<string>)
    requires GoodHash(h) && CollisionFree(h, texts) && NoColons(m) && NoColons(m')
    requires Built(h, m, t) && Built(h, m', t') && Hashed(h, m, t) <= texts && Hashed(h, m', t') <= texts
    requires t.hash == t'.hash
    ensures LeafList(t) == LeafList(t') && forall k :: k in Keys(t) ==> Agree(m, m', k)
    decreases t
  {
    KeysOfNode(t);
    if t.Leaf? && t'.Leaf? {
      BucketFaithful(h, m, t.keys, m', t'.keys, texts);
    } else if t.Leaf? {
      BucketIsNoPair(h, m, t, m', t', texts);
    } else if t'.Leaf? {
      BucketIsNoPair(h, m', t', m, t, texts);
    } else {
      var _ := HashOfTree(h, m, t.left);
      var _ := HashOfTree(h, m', t'.left);
      EqualHalves(t.left.hash, t.right.hash, t'.left.hash, t'.right.hash);
      SameHash(h, m, t.left, m', t'.left, texts);
      SameHash(h, m, t.right, m', t'.right, texts);
    }
  }

  // ---------------------------------------------------------------- completeness

  lemma SortedParts(a: seq<string>, b: seq<string>)
    requires StrictlySorted(a + b)
    ensures StrictlySorted(a) && StrictlySorted(b)
  {
    forall i, j | 0 <= i < j < |a| ensures LexLess(a[i], a[j]) { assert (a + b)[i] == a[i] && (a + b)[j] == a[j]; }
    forall i, j | 0 <= i < j < |b| ensures LexLess(b[i], b[j]) {
      assert (a + b)[|a| + i] == b[i] && (a + b)[|a| + j] == b[j];
    }
  }

  lemma CoveredMore(k: string, a: seq<Range>, b: seq<Range>)
    requires Covered(k, a) || Covered(k, b)
    ensures Covered(k, a + b)
  {
    if Covered(k, a) {
      var i :| 0 <= i < |a| && Within(k, a[i]);
      assert (a + b)[i] == a[i];
    } else {
      var i :| 0 <= i < |b| && Within(k, b[i]);
      assert (a + b)[|a| + i] == b[i];
    }
  }

  lemma {:induction false} CompareCovers(h: HashFunction, m: Entries, t: Tree, m': Entries, t': Tree,
      texts: set<string>, k: string)
    requires GoodHash(h) && CollisionFree(h, texts) && NoColons(m) && NoColons(m')
    requires Built(h, m, t) && Built(h, m', t') && Hashed(h, m, t) <= texts && Hashed(h, m', t') <= texts
    requires StrictlySorted(Keys(t)) && k in Keys(t)
    ensures Covered(k, CompareNodes(t, t')) || Agree(m, m', k)
    decreases t
  {
    if t.hash == t'.hash {
      SameHash(h, m, t, m', t', texts);
    } else if t.Leaf? || t'.Leaf? {
      RangeCoversKeys(h, m, t, k);
      assert Within(k, CompareNodes(t, t')[0]);
    } else {
      KeysOfNode(t);
      SortedParts(Keys(t.left), Keys(t.right));
      if k in Keys(t.left) {
        CompareCovers(h, m, t.left, m', t'.left, texts, k);
      } else {
        CompareCovers(h, m, t.right, m', t'.right, texts, k);
      }
      if !Agree(m, m', k) { CoveredMore(k, CompareNodes(t.left, t'.left), CompareNodes(t.right, t'.right)); }
    }
  }

  /** Every entry of the first table that the second lacks or holds differently lies in a
      reported range. */
  ghost predicate Complete(h: HashFunction, b: nat, m: Entries, b': nat, m': Entries)
    requires b >= 1 && b' >= 1
  {
    forall k :: k in m && !Agree(m, m', k) ==> Covered(k, Compare(TreeOf(h, b, m), TreeOf(h, b', m')))
  }

  lemma CompleteOnNonEmpty(h: HashFunction, b: nat, m: Entries, b': nat, m': Entries, k: string)
    requires b >= 1 && b' >= 1 && GoodHash(h) && NoColons(m) && NoColons(m')
    requires CollisionFree(h, HashedByBuild(h, b, m) + HashedByBuild(h, b', m'))
    requires m != map[] && m' != map[] && k in m && !Agree(m, m', k)
    ensures Covered(k, Compare(TreeOf(h, b, m), TreeOf(h, b', m')))
  {
    TreeOfBuilt(h, b, m);
    TreeOfBuilt(h, b', m');
    assert k in Quorums.Members(SortedKeys(m.Keys));
    CompareCovers(h, m, TreeOf(h, b, m).value, m', TreeOf(h, b', m').value,
                  HashedByBuild(h, b, m) + HashedByBuild(h, b', m'), k);
  }

  /** For tables and bucket sizes of any kind, so trees of any two shapes: the comparison is
      complete exactly when it is not a non-empty table that meets an empty one. */
  lemma CompletenessExactly(h: HashFunction, b: nat, m: Entries, b': nat, m': Entries)
    requires b >= 1 && b' >= 1 && GoodHash(h) && NoColons(m) && NoColons(m')
    requires CollisionFree(h, HashedByBuild(h, b, m) + HashedByBuild(h, b', m'))
    ensures Complete(h, b, m, b', m') <==> m == map[] || m' != map[]
  {
    if m == map[] {
    } else if m' == map[] {
      assert m.Keys != {};
      var k :| k in m;
      assert !Agree(m, m', k);
    } else {
      forall k | k in m && !Agree(m, m', k) ensures Covered(k, Compare(TreeOf(h, b, m), TreeOf(h, b', m'))) {
        CompleteOnNonEmpty(h, b, m, b', m', k);
      }
    }
  }

  /** With colons in keys two different tables can look the same, whatever the hash. */
  lemma ColonsHideDifferences(h: HashFunction, b: nat)
    requires b >= 1
    ensures var m, m' := map["a:b" := Entry("c", 1)], map["a" := Entry("b:c", 1)];
            m != m' && Compare(TreeOf(h, b, m), TreeOf(h, b, m')) == []
  {
    var m, m' := map["a:b" := Entry("c", 1)], map["a" := Entry("b:c", 1)];
    assert "a:b" in m && "a:b" !in m';
    SingleTree(h, b, "a:b", Entry("c", 1));
    SingleTree(h, b, "a", Entry("b:c", 1));
    SameTexts();
  }

  lemma SameTexts()
    ensures EntryText("a:b", Entry("c", 1)) == EntryText("a", Entry("b:c", 1))
  {
    assert "a:b" + ":" + "c" + ":" == "a" + ":" + "b:c" + ":";
  }

  lemma SingleTree(h: HashFunction, b: nat, k: string, e: Entry)
    requires b >= 1
    ensures TreeOf(h, b, map[k := e]) == Some(Leaf(h(h(EntryText(k, e))), Range(k, k), [k]))
  {
    var m := map[k := e];
    assert m.Keys == {k};
    assert Quorums.Members([k]) == {k};
    SortedUnique(SortedKeys(m.Keys), [k]);
    assert Chunks([k], b) == [[k]];
    ChunkKeys(m, b);
    var leaf := Bucket(h, m, [k]);
    assert [[k]][1..] == [] && [k][1..] == [];
    assert Buckets(h, m, [[k]]) == [leaf];
    assert BuildTree(h, [leaf]) == leaf;
    assert TreeOf(h, b, m) == Some(BuildTree(h, Buckets(h, m, Chunks(SortedKeys(m.Keys), b)))) by {
      assert k in m && m != map[];
    }
    assert BucketText(h, m, [k]) == h(EntryText(k, e)) + BucketText(h, m, [k][1..]);
    assert BucketText(h, m, [k][1..]) == "" && h(EntryText(k, e)) + "" == h(EntryText(k, e));
  }

  // ------------------------------------------------------------------- exactness

  predicate Differs(m: Entries, m': Entries, keys: seq<string>) {
    exists i :: 0 <= i < |keys| && !Agree(m, m', keys[i])
  }

  function RangeIfDiffers(m: Entries, m': Entries, keys: seq<string>): seq<Range> {
    if Differs(m, m', keys) then [RangeOf(keys)] else []
  }

  /** The ranges of the buckets in which some entry differs, in order. */
  function DifferingRanges(m: Entries, m': Entries, cs: seq<seq<string>>): seq<Range> {
    if cs == [] then [] else RangeIfDiffers(m, m', cs[0]) + DifferingRanges(m, m', cs[1..])
  }

  lemma {:induction false} DifferingAppend(m: Entries, m': Entries, a: seq<seq<string>>, b: seq<seq<string>>)
    ensures DifferingRanges(m, m', a + b) == DifferingRanges(m, m', a) + DifferingRanges(m, m', b)
  {
    if a == [] {
      assert a + b == b;
    } else {
      DifferingAppend(m, m', a[1..], b);
      UnfoldDiffering(m, m', a, a + b, b);
      Regroup(RangeIfDiffers(m, m', a[0]), DifferingRanges(m, m', a[1..]), DifferingRanges(m, m', b));
    }
  }

  lemma UnfoldDiffering(m: Entries, m': Entries, a: seq<seq<string>>, ab: seq<seq<string>>, b: seq<seq<string>>)
    requires a != [] && ab == a + b
    ensures DifferingRanges(m, m', a) == RangeIfDiffers(m, m', a[0]) + DifferingRanges(m, m', a[1..])
    ensures DifferingRanges(m, m', ab) == RangeIfDiffers(m, m', a[0]) + DifferingRanges(m, m', a[1..] + b)
  {
    assert ab[1..] == a[1..] + b && ab[0] == a[0];
  }

  lemma {:induction false} NoneDiffers(m: Entries, m': Entries, cs: seq<seq<string>>)
    requires forall k :: k in Flatten(cs) ==> Agree(m, m', k)
    ensures DifferingRanges(m, m', cs) == []
  {
    if cs != [] {
      assert forall k :: k in cs[0] ==> k in Flatten(cs);
      NoneDiffers(m, m', cs[1..]);
    }
  }

  /** Leaves in the same places. */
  predicate SameShape(t: Tree, t': Tree) {
    match t
    case Leaf(_, _, _) => t'.Leaf?
    case Node(_, left, right, _) => t'.Node? && SameShape(left, t'.left) && SameShape(right, t'.right)
  }

  predicate SameShapes(ts: seq<Tree>, ts': seq<Tree>) {
    |ts| == |ts'| && forall i :: 0 <= i < |ts| ==> SameShape(ts[i], ts'[i])
  }

  lemma {:induction false} PairsSameShape(h: HashFunction, ts: seq<Tree>, ts': seq<Tree>)
    requires SameShapes(ts, ts')
    ensures SameShapes(Pairs(h, ts), Pairs(h, ts'))
    decreases |ts|
  {
    if |ts| >= 2 { PairsSameShape(h, ts[2..], ts'[2..]); }
  }

  lemma {:induction false} BuildTreeSameShape(h: HashFunction, ts: seq<Tree>, ts': seq<Tree>)
    requires SameShapes(ts, ts') && ts != []
    ensures SameShape(BuildTree(h, ts), BuildTree(h, ts'))
    decreases |ts|
  {
    if |ts| > 1 {
      PairsSameShape(h, ts, ts');
      BuildTreeSameShape(h, Pairs(h, ts), Pairs(h, ts'));
    }
  }

  lemma {:induction false} BucketsSameShape(h: HashFunction, m: Entries, cs: seq<seq<string>>,
                                            m': Entries, cs': seq<seq<string>>)
    requires ChunksIn(m, cs) && ChunksIn(m', cs') && |cs| == |cs'|
    ensures SameShapes(Buckets(h, m, cs), Buckets(h, m', cs'))
  {
    if cs != [] { BucketsSameShape(h, m, cs[1..], m', cs'[1..]); }
  }

  /** Two tables that make equally many buckets have trees of one shape. */
  lemma TreesSameShape(h: HashFunction, b: nat, m: Entries, b': nat, m': Entries)
    requires b >= 1 && b' >= 1 && m != map[] && m' != map[]
    requires |Chunks(SortedKeys(m.Keys), b)| == |Chunks(SortedKeys(m'.Keys), b')|
    ensures SameShape(TreeOf(h, b, m).value, TreeOf(h, b', m').value)
  {
    NoKeysExactly(m);
    ChunkKeys(m, b);
    ChunkKeys(m', b');
    var cs, cs' := Chunks(SortedKeys(m.Keys), b), Chunks(SortedKeys(m'.Keys), b');
    BucketsSameShape(h, m, cs, m', cs');
    BuildTreeSameShape(h, Buckets(h, m, cs), Buckets(h, m', cs'));
  }

  lemma {:induction false} LeavesOfShape(t: Tree, t': Tree)
    requires SameShape(t, t')
    ensures |LeafList(t)| == |LeafList(t')|
  {
    if t.Node? {
      LeavesOfShape(t.left, t'.left);
      LeavesOfShape(t.right, t'.right);
    }
  }

  lemma LeavesOfHalves(t: Tree, t': Tree)
    requires SameShape(t, t') && t.Node? && LeafList(t) == LeafList(t')
    ensures LeafList(t.left) == LeafList(t'.left) && LeafList(t.right) == LeafList(t'.right)
  {
    LeavesOfShape(t.left, t'.left);
    var n := |LeafList(t.left)|;
    assert LeafList(t)[..n] == LeafList(t.left) && LeafList(t')[..n] == LeafList(t'.left);
    assert LeafList(t)[n..] == LeafList(t.right) && LeafList(t')[n..] == LeafList(t'.right);
  }

  lemma {:induction false} SameEntriesSameText(h: HashFunction, m: Entries, m': Entries, ks: seq<string>)
    requires forall i :: 0 <= i < |ks| ==> Agree(m, m', ks[i])
    ensures (forall k :: k in ks ==> k in m && k in m') && BucketText(h, m, ks) == BucketText(h, m', ks)
  {
    if ks != [] { SameEntriesSameText(h, m, m', ks[1..]); }
  }

  lemma LeafExact(h: HashFunction, m: Entries, t: Tree, m': Entries, t': Tree)
    requires Built(h, m, t) && Built(h, m', t') && t.Leaf? && t'.Leaf? && LeafList(t) == LeafList(t')
    requires t.hash != t'.hash
    ensures DifferingRanges(m, m', LeafList(t)) == [t.range]
  {
    assert t.keys == LeafList(t)[0] == LeafList(t')[0] == t'.keys;
    if !Differs(m, m', t.keys) { SameEntriesSameText(h, m, m', t.keys); }
    assert [t.keys][1..] == [];
  }

  lemma {:induction false} CompareExact(h: HashFunction, m: Entries, t: Tree, m': Entries, t': Tree, texts: set<string>)
    requires GoodHash(h) && CollisionFree(h, texts) && NoColons(m) && NoColons(m')
    requires Built(h, m, t) && Built(h, m', t') && Hashed(h, m, t) <= texts && Hashed(h, m', t') <= texts
    requires SameShape(t, t') && LeafList(t) == LeafList(t')
    ensures CompareNodes(t, t') == DifferingRanges(m, m', LeafList(t))
    decreases t
  {
    if t.hash == t'.hash {
      SameHash(h, m, t, m', t', texts);
      NoneDiffers(m, m', LeafList(t));
    } else if t.Leaf? {
      LeafExact(h, m, t, m', t');
    } else {
      LeavesOfHalves(t, t');
      CompareExact(h, m, t.left, m', t'.left, texts);
      CompareExact(h, m, t.right, m', t'.right, texts);
      DifferingAppend(m, m', LeafList(t.left), LeafList(t.right));
    }
  }

  /** Over equal key sets and with one bucket size, the comparison reports exactly the
      buckets in which some value or version differs, once each and in key order. */
  lemma ExactOnEqualKeys(h: HashFunction, b: nat, m: Entries, m': Entries)
    requires b >= 1 && GoodHash(h) && NoColons(m) && m.Keys == m'.Keys
    requires CollisionFree(h, HashedByBuild(h, b, m) + HashedByBuild(h, b, m'))
    ensures Compare(TreeOf(h, b, m), TreeOf(h, b, m')) == DifferingRanges(m, m', Chunks(SortedKeys(m.Keys), b))
  {
    assert forall k :: k in m' ==> k in m.Keys;
    if m == map[] {
      assert m'.Keys == {};
      assert Compare(TreeOf(h, b, m), TreeOf(h, b, m')) == [];
      assert SortedKeys(m.Keys) == [];
    } else {
      assert m'.Keys != {};
      TreeOfBuilt(h, b, m);
      TreeOfBuilt(h, b, m');
      TreesSameShape(h, b, m, b, m');
      CompareExact(h, m, TreeOf(h, b, m).value, m', TreeOf(h, b, m').value,
                   HashedByBuild(h, b, m) + HashedByBuild(h, b, m'));
    }
  }

  // -------------------------------------------------------------- what is not found

  lemma AtMostTransitive(a: string, b: string, c: string)
    requires LexAtMost(a, b) && LexAtMost(b, c)
    ensures LexAtMost(a, c)
  {
    if a != b && b != c { LexTransitive(a, b, c); }
  }

  lemma {:induction false} ReportedInside(h: HashFunction, m: Entries, t: Tree, t': Tree, i: nat)
    requires Built(h, m, t) && StrictlySorted(Keys(t)) && i < |CompareNodes(t, t')|
    ensures LexAtMost(t.range.first, CompareNodes(t, t')[i].first)
            && LexAtMost(CompareNodes(t, t')[i].last, t.range.last)
    decreases t
  {
    if t.Node? && t'.Node? {
      KeysOfNode(t);
      SortedParts(Keys(t.left), Keys(t.right));
      RangeOfTree(h, m, t.left);
      RangeOfTree(h, m, t.right);
      var inLeft := CompareNodes(t.left, t'.left);
      if i < |inLeft| {
        ReportedInside(h, m, t.left, t'.left, i);
        InOrder(Keys(t.left), Keys(t.right), |Keys(t.left)| - 1, |Keys(t)| - 1);
        AtMostTransitive(inLeft[i].last, t.left.range.last, t.range.last);
      } else {
        ReportedInside(h, m, t.right, t'.right, i - |inLeft|);
        InOrder(Keys(t.left), Keys(t.right), 0, |Keys(t.left)|);
        AtMostTransitive(t.range.first, t.right.range.first, CompareNodes(t, t')[i].first);
      }
    }
  }

  lemma InOrder(a: seq<string>, b: seq<string>, i: nat, j: nat)
    requires StrictlySorted(a + b) && i < j < |a + b|
    ensures LexAtMost((a + b)[i], (a + b)[j])
  {}

  /** A key below or above all keys of the first table lies in no reported range, so what
      only the second table holds out there is never found from this side. */
  lemma NothingReportedOutside(h: HashFunction, b: nat, m: Entries, other: Option<Tree>, k: string)
    requires b >= 1 && m != map[]
    requires (forall x :: x in m ==> LexLess(k, x)) || (forall x :: x in m ==> LexLess(x, k))
    ensures !Covered(k, Compare(TreeOf(h, b, m), other))
  {
    TreeOfBuilt(h, b, m);
    var t := TreeOf(h, b, m).value;
    OutsideKeys(m, k);
    RangeOfTree(h, m, t);
    if other.Some? { OutsideTree(h, m, t, other.value, k); }
  }

  lemma OutsideKeys(m: Entries, k: string)
    requires m != map[] && ((forall x :: x in m ==> LexLess(k, x)) || (forall x :: x in m ==> LexLess(x, k)))
    ensures var r := RangeOf(SortedKeys(m.Keys)); LexLess(k, r.first) || LexLess(r.last, k)
  {
    NoKeysExactly(m);
    var ks := SortedKeys(m.Keys);
    assert ks[0] in Quorums.Members(ks) && ks[|ks| - 1] in Quorums.Members(ks);
  }

  lemma OutsideTree(h: HashFunction, m: Entries, t: Tree, t': Tree, k: string)
    requires Built(h, m, t) && StrictlySorted(Keys(t)) && (LexLess(k, t.range.first) || LexLess(t.range.last, k))
    ensures !Covered(k, CompareNodes(t, t'))
  {
    forall i | 0 <= i < |CompareNodes(t, t')| ensures !Within(k, CompareNodes(t, t')[i]) {
      ReportedInside(h, m, t, t', i);
      OutsideInner(k, t.range, CompareNodes(t, t')[i]);
    }
  }

  lemma OutsideInner(k: string, outer: Range, inner: Range)
    requires LexAtMost(outer.first, inner.first) && LexAtMost(inner.last, outer.last)
    requires LexLess(k, outer.first) || LexLess(outer.last, k)
    ensures !Within(k, inner)
  {
    LexTotal(k, outer.first);
    LexTotal(k, outer.last);
    LexIrreflexive(k);
    if Within(k, inner) {
      AtMostTransitive(outer.first, inner.first, k);
      AtMostTransitive(k, inner.last, outer.last);
    }
  }

  // ------------------------------------------- keys that only the second table holds

  /** The keys of a subtree lie side by side among the keys of the table. */
  ghost predicate Segment(sub: seq<string>, whole: seq<string>) {
    exists i: nat :: i + |sub| <= |whole| && SegmentAt(sub, whole, i)
  }

  predicate SegmentAt(sub: seq<string>, whole: seq<string>, i: nat)
    requires i + |sub| <= |whole|
  {
    whole[i..i + |sub|] == sub
  }

  lemma SegmentParts(a: seq<string>, b: seq<string>, whole: seq<string>)
    requires Segment(a + b, whole)
    ensures Segment(a, whole) && Segment(b, whole)
  {
    var i: nat :| i + |a + b| <= |whole| && SegmentAt(a + b, whole, i);
    assert whole[i..i + |a|] == (a + b)[..|a|] == a;
    assert whole[i + |a|..i + |a| + |b|] == (a + b)[|a|..] == b;
    assert SegmentAt(a, whole, i) && SegmentAt(b, whole, i + |a|);
  }

  /** Nothing lies between the keys of a segment but its own keys. */
  lemma NothingBetween(sub: seq<string>, whole: seq<string>, k: string)
    requires StrictlySorted(whole) && Segment(sub, whole) && sub != [] && k in whole && Within(k, RangeOf(sub))
    ensures k in sub
  {
    var i: nat :| i + |sub| <= |whole| && SegmentAt(sub, whole, i);
    var x :| 0 <= x < |whole| && whole[x] == k;
    var last := i + |sub| - 1;
    assert sub[0] == whole[i..i + |sub|][0] == whole[i];
    assert sub[|sub| - 1] == whole[i..i + |sub|][|sub| - 1] == whole[last];
    LexTotal(whole[x], whole[i]);
    LexTotal(whole[x], whole[last]);
    LexIrreflexive(k);
    assert i <= x <= last;
    assert whole[i..i + |sub|][x - i] == k;
  }

  /** The range of a tree spans the ranges of its buckets. */
  lemma {:induction false} BucketInside(h: HashFunction, m: Entries, t: Tree, i: nat, k: string)
    requires Built(h, m, t) && StrictlySorted(Keys(t)) && i < |LeafList(t)| && Within(k, RangeOf(LeafList(t)[i]))
    ensures Within(k, t.range)
    decreases t
  {
    if t.Node? {
      KeysOfNode(t);
      SortedParts(Keys(t.left), Keys(t.right));
      RangeOfTree(h, m, t.left);
      RangeOfTree(h, m, t.right);
      var inLeft := |LeafList(t.left)|;
      if i < inLeft {
        BucketInside(h, m, t.left, i, k);
        InOrder(Keys(t.left), Keys(t.right), |Keys(t.left)| - 1, |Keys(t)| - 1);
        AtMostTransitive(k, t.left.range.last, t.range.last);
      } else {
        BucketInside(h, m, t.right, i - inLeft, k);
        InOrder(Keys(t.left), Keys(t.right), 0, |Keys(t.left)|);
        AtMostTransitive(t.range.first, t.right.range.first, k);
      }
    }
  }

  /** Subtrees that a foreign key tells apart do not have the same hash. */
  lemma ForeignKeyChangesHash(h: HashFunction, m: Entries, t: Tree, m': Entries, t': Tree, texts: set<string>,
      k: string)
    requires GoodHash(h) && CollisionFree(h, texts) && NoColons(m) && NoColons(m')
    requires Built(h, m, t) && Built(h, m', t') && Hashed(h, m, t) <= texts && Hashed(h, m', t') <= texts
    requires Segment(Keys(t'), SortedKeys(m'.Keys)) && k in m' && k !in m && Within(k, t.range)
    ensures t.hash != t'.hash
  {
    if t.hash == t'.hash {
      SameHash(h, m, t, m', t', texts);
      RangeOfTree(h, m, t);
      assert k in Quorums.Members(SortedKeys(m'.Keys));
      NothingBetween(Keys(t'), SortedKeys(m'.Keys), k);
    }
  }

  /** The standing premises of a comparison. */
  ghost predicate Comparable(h: HashFunction, m: Entries, t: Tree, m': Entries, t': Tree, texts: set<string>) {
    && GoodHash(h) && CollisionFree(h, texts) && NoColons(m) && NoColons(m')
    && Built(h, m, t) && Built(h, m', t') && Hashed(h, m, t) <= texts && Hashed(h, m', t') <= texts
  }

  lemma ComparableChildren(h: HashFunction, m: Entries, t: Tree, m': Entries, t': Tree, texts: set<string>)
    requires Comparable(h, m, t, m', t', texts) && t.Node? && t'.Node?
    ensures Comparable(h, m, t.left, m', t'.left, texts) && Comparable(h, m, t.right, m', t'.right, texts)
  {}

  /** The first tree's keys ascend and the second's lie side by side in the second table. */
  ghost predicate Arranged(t: Tree, m': Entries, t': Tree) {
    StrictlySorted(Keys(t)) && Segment(Keys(t'), SortedKeys(m'.Keys))
  }

  lemma ArrangedChildren(t: Tree, m': Entries, t': Tree)
    requires Arranged(t, m', t') && t.Node? && t'.Node?
    ensures Arranged(t.left, m', t'.left) && Arranged(t.right, m', t'.right)
  {
    KeysOfNode(t);
    KeysOfNode(t');
    SortedParts(Keys(t.left), Keys(t.right));
    SegmentParts(Keys(t'.left), Keys(t'.right), SortedKeys(m'.Keys));
  }

  lemma {:induction false} ForeignKeyFound(h: HashFunction, m: Entries, t: Tree, m': Entries, t': Tree,
                                           texts: set<string>, k: string, i: nat)
    requires Comparable(h, m, t, m', t', texts) && Arranged(t, m', t') && k in m' && k !in m
    requires i < |LeafList(t)| && Within(k, RangeOf(LeafList(t)[i]))
    ensures Covered(k, CompareNodes(t, t'))
    decreases t
  {
    BucketInside(h, m, t, i, k);
    ForeignKeyChangesHash(h, m, t, m', t', texts, k);
    if t.Leaf? || t'.Leaf? {
      assert Within(k, CompareNodes(t, t')[0]);
    } else {
      ComparableChildren(h, m, t, m', t', texts);
      ArrangedChildren(t, m', t');
      var inLeft := |LeafList(t.left)|;
      assert LeafList(t) == LeafList(t.left) + LeafList(t.right);
      if i < inLeft {
        ForeignKeyFound(h, m, t.left, m', t'.left, texts, k, i);
      } else {
        ForeignKeyFound(h, m, t.right, m', t'.right, texts, k, i - inLeft);
      }
      CoveredMore(k, CompareNodes(t.left, t'.left), CompareNodes(t.right, t'.right));
    }
  }

  lemma NoKeysExactly(m: Entries)
    ensures SortedKeys(m.Keys) == [] <==> m == map[]
  {
    if m != map[] {
      assert m.Keys != {};
      var k :| k in m.Keys;
      assert k in Quorums.Members(SortedKeys(m.Keys));
    }
  }

  lemma WholeTreeArranged(h: HashFunction, b: nat, m: Entries, b': nat, m': Entries)
    requires b >= 1 && b' >= 1 && m != map[] && m' != map[]
    ensures Arranged(TreeOf(h, b, m).value, m', TreeOf(h, b', m').value)
  {
    TreeOfBuilt(h, b, m);
    TreeOfBuilt(h, b', m');
    var ks' := SortedKeys(m'.Keys);
    assert ks'[0..0 + |ks'|] == ks' && SegmentAt(ks', ks', 0);
  }

  lemma WholeTreeComparable(h: HashFunction, b: nat, m: Entries, b': nat, m': Entries)
    requires b >= 1 && b' >= 1 && m != map[] && m' != map[] && GoodHash(h) && NoColons(m) && NoColons(m')
    requires CollisionFree(h, HashedByBuild(h, b, m) + HashedByBuild(h, b', m'))
    ensures Comparable(h, m, TreeOf(h, b, m).value, m', TreeOf(h, b', m').value,
                       HashedByBuild(h, b, m) + HashedByBuild(h, b', m'))
  {
    TreeOfBuilt(h, b, m);
    TreeOfBuilt(h, b', m');
  }

  /** For trees of any two shapes: a key that only the second table holds is reported if it
      lies within the range of some bucket of the first. */
  lemma SecondOnlyReported(h: HashFunction, b: nat, m: Entries, b': nat, m': Entries, k: string, i: nat)
    requires b >= 1 && b' >= 1 && GoodHash(h) && NoColons(m) && NoColons(m')
    requires CollisionFree(h, HashedByBuild(h, b, m) + HashedByBuild(h, b', m'))
    requires k in m' && k !in m
    requires var cs := Chunks(SortedKeys(m.Keys), b); i < |cs| && Within(k, RangeOf(cs[i]))
    ensures Covered(k, Compare(TreeOf(h, b, m), TreeOf(h, b', m')))
  {
    NoKeysExactly(m);
    WholeTreeArranged(h, b, m, b', m');
    WholeTreeComparable(h, b, m, b', m');
    TreeOfBuilt(h, b, m);
    ForeignKeyFound(h, m, TreeOf(h, b, m).value, m', TreeOf(h, b', m').value,
                    HashedByBuild(h, b, m) + HashedByBuild(h, b', m'), k, i);
  }

  lemma {:induction false} BuildTreeIsNode(h: HashFunction, ts: seq<Tree>)
    requires |ts| >= 2
    ensures BuildTree(h, ts).Node?
    decreases |ts|
  {
    if |ts| > 2 { BuildTreeIsNode(h, Pairs(h, ts)); }
  }

  /** A tree over more keys than one bucket holds has a node at its root. */
  lemma ManyKeysMakeNode(h: HashFunction, b: nat, m: Entries)
    requires b >= 1 && |SortedKeys(m.Keys)| > b
    ensures TreeOf(h, b, m).Some? && TreeOf(h, b, m).value.Node?
  {
    ChunkKeys(m, b);
    NoKeysExactly(m);
    BuildTreeIsNode(h, Buckets(h, m, Chunks(SortedKeys(m.Keys), b)));
  }

  lemma TwoChunks(ks: seq<string>, b: nat)
    requires b >= 1 && b < |ks| <= 2 * b
    ensures Chunks(ks, b) == [ks[..b], ks[b..]]
  {
    assert Chunks(ks[b..], b) == [ks[b..]];
  }

  lemma TwoLeaves(h: HashFunction, x: Tree, y: Tree)
    ensures BuildTree(h, [x, y]) == Combine(h, x, y)
  {
    var ts := [x, y];
    assert ts[2..] == [] && Pairs(h, ts[2..]) == [];
    assert Pairs(h, ts) == [Combine(h, x, y)] + Pairs(h, ts[2..]) == [Combine(h, x, y)];
    assert BuildTree(h, [Combine(h, x, y)]) == Combine(h, x, y);
  }

  lemma BucketsOfTwo(h: HashFunction, m: Entries, x: seq<string>, y: seq<string>)
    requires ChunksIn(m, [x, y])
    ensures (forall k :: k in x ==> k in m) && (forall k :: k in y ==> k in m)
    ensures Buckets(h, m, [x, y]) == [Bucket(h, m, x), Bucket(h, m, y)]
  {
    var cs := [x, y];
    assert cs[0] == x && cs[1] == y && cs[1..] == [y] && [y][1..] == [] && [y][0] == y;
  }

  /** A tree over two buckets is one node over two leaves. */
  lemma TwoBuckets(h: HashFunction, b: nat, m: Entries)
    requires b >= 1 && b < |SortedKeys(m.Keys)| <= 2 * b
    ensures TreeOf(h, b, m).Some?
    ensures var t, ks := TreeOf(h, b, m).value, SortedKeys(m.Keys);
            && t.Node? && t.left.Leaf? && t.right.Leaf?
            && t.left.range == RangeOf(ks[..b]) && t.right.range == RangeOf(ks[b..])
  {
    var ks := SortedKeys(m.Keys);
    NoKeysExactly(m);
    ChunkKeys(m, b);
    TwoChunks(ks, b);
    BucketsOfTwo(h, m, ks[..b], ks[b..]);
    TwoLeaves(h, Bucket(h, m, ks[..b]), Bucket(h, m, ks[b..]));
  }

  /** The second tree has a node wherever the first has one. */
  predicate AtLeastAsDeep(t: Tree, t': Tree) {
    t.Node? ==> t'.Node? && AtLeastAsDeep(t.left, t'.left) && AtLeastAsDeep(t.right, t'.right)
  }

  lemma NodeOverLeaves(t: Tree, t': Tree)
    requires t.Node? && t.left.Leaf? && t.right.Leaf? && t'.Node?
    ensures AtLeastAsDeep(t, t')
  {
    assert AtLeastAsDeep(t.left, t'.left) && AtLeastAsDeep(t.right, t'.right);
  }

  lemma {:induction false} SameShapeIsDeep(t: Tree, t': Tree)
    requires SameShape(t, t')
    ensures AtLeastAsDeep(t, t')
  {
    if t.Node? {
      SameShapeIsDeep(t.left, t'.left);
      SameShapeIsDeep(t.right, t'.right);
    }
  }

  /** Then the comparison gets to the buckets of the first and reports no wider range. */
  lemma {:induction false} BucketRangesOnly(h: HashFunction, m: Entries, t: Tree, t': Tree, i: nat) returns (j: nat)
    requires Built(h, m, t) && AtLeastAsDeep(t, t') && i < |CompareNodes(t, t')|
    ensures j < |LeafList(t)| && CompareNodes(t, t')[i] == RangeOf(LeafList(t)[j])
    decreases t
  {
    if t.Leaf? {
      j := 0;
    } else {
      var n := |CompareNodes(t.left, t'.left)|;
      if i < n {
        j := BucketRangesOnly(h, m, t.left, t'.left, i);
      } else {
        j := BucketRangesOnly(h, m, t.right, t'.right, i - n);
        j := |LeafList(t.left)| + j;
      }
    }
  }

  lemma MissedBetween(h: HashFunction, m: Entries, t: Tree, t': Tree, k: string)
    requires Built(h, m, t) && AtLeastAsDeep(t, t')
    requires forall j: nat :: j < |LeafList(t)| ==> !Within(k, RangeOf(LeafList(t)[j]))
    ensures !Covered(k, CompareNodes(t, t'))
  {
    forall i: nat | i < |CompareNodes(t, t')| ensures !Within(k, CompareNodes(t, t')[i]) {
      var j := BucketRangesOnly(h, m, t, t', i);
    }
  }

  /** Exactly, for tables that make equally many buckets: a key that only the second holds is
      reported if and only if it lies within the range of some bucket of the first. */
  lemma SecondOnlyExactly(h: HashFunction, b: nat, m: Entries, b': nat, m': Entries, k: string)
    requires b >= 1 && b' >= 1 && GoodHash(h) && NoColons(m) && NoColons(m')
    requires CollisionFree(h, HashedByBuild(h, b, m) + HashedByBuild(h, b', m'))
    requires |Chunks(SortedKeys(m.Keys), b)| == |Chunks(SortedKeys(m'.Keys), b')|
    requires k in m' && k !in m
    ensures Covered(k, Compare(TreeOf(h, b, m), TreeOf(h, b', m')))
            <==> var cs := Chunks(SortedKeys(m.Keys), b);
                 exists i: nat :: i < |cs| && Within(k, RangeOf(cs[i]))
  {
    var cs := Chunks(SortedKeys(m.Keys), b);
    if i: nat :| i < |cs| && Within(k, RangeOf(cs[i])) {
      SecondOnlyReported(h, b, m, b', m', k, i);
    } else if m != map[] {
      TreesSameShape(h, b, m, b', m');
      TreeOfBuilt(h, b, m);
      SameShapeIsDeep(TreeOf(h, b, m).value, TreeOf(h, b', m').value);
      MissedBetween(h, m, TreeOf(h, b, m).value, TreeOf(h, b', m').value, k);
    }
  }

  /** The limit: a key in the gap between the only two buckets of the first table is in no
      reported range, whatever the hash, when the second tree has a node at its root. */
  lemma GapKeyMissed(h: HashFunction, b: nat, m: Entries, b': nat, m': Entries, k: string)
    requires b >= 1 && b' >= 1 && b < |SortedKeys(m.Keys)| <= 2 * b && |SortedKeys(m'.Keys)| > b'
    requires var ks := SortedKeys(m.Keys); LexLess(ks[b - 1], k) && LexLess(k, ks[b])
    ensures !Covered(k, Compare(TreeOf(h, b, m), TreeOf(h, b', m')))
  {
    TwoBucketsAreShallow(h, b, m, b', m');
    GapOutsideLeaves(h, b, m, k);
    MissedBetween(h, m, TreeOf(h, b, m).value, TreeOf(h, b', m').value, k);
  }

  lemma GapOutsideLeaves(h: HashFunction, b: nat, m: Entries, k: string)
    requires b >= 1 && b < |SortedKeys(m.Keys)| <= 2 * b
    requires var ks := SortedKeys(m.Keys); LexLess(ks[b - 1], k) && LexLess(k, ks[b])
    ensures TreeOf(h, b, m).Some? && Built(h, m, TreeOf(h, b, m).value)
    ensures var leaves := LeafList(TreeOf(h, b, m).value);
            forall j: nat :: j < |leaves| ==> !Within(k, RangeOf(leaves[j]))
  {
    NoKeysExactly(m);
    TreeOfBuilt(h, b, m);
    GapOutsideBuckets(SortedKeys(m.Keys), b, k);
  }

  lemma TwoBucketsAreShallow(h: HashFunction, b: nat, m: Entries, b': nat, m': Entries)
    requires b >= 1 && b' >= 1 && b < |SortedKeys(m.Keys)| <= 2 * b && |SortedKeys(m'.Keys)| > b'
    ensures TreeOf(h, b, m).Some? && TreeOf(h, b', m').Some?
    ensures AtLeastAsDeep(TreeOf(h, b, m).value, TreeOf(h, b', m').value)
  {
    TwoBuckets(h, b, m);
    ManyKeysMakeNode(h, b', m');
    NodeOverLeaves(TreeOf(h, b, m).value, TreeOf(h, b', m').value);
  }

  lemma GapOutsideBuckets(ks: seq<string>, b: nat, k: string)
    requires b >= 1 && b < |ks| <= 2 * b && LexLess(ks[b - 1], k) && LexLess(k, ks[b])
    ensures forall j: nat :: j < |Chunks(ks, b)| ==> !Within(k, RangeOf(Chunks(ks, b)[j]))
  {
    TwoChunks(ks, b);
    NotWithin(k, ks[..b], ks[b..]);
  }

  lemma NotWithin(k: string, x: seq<string>, y: seq<string>)
    requires x != [] && y != [] && LexLess(x[|x| - 1], k) && LexLess(k, y[0])
    ensures !Within(k, RangeOf(x)) && !Within(k, RangeOf(y))
  {
    LexTotal(k, x[|x| - 1]);
    LexTotal(k, y[0]);
    LexIrreflexive(k);
  }

  lemma LettersAscend(x: char, y: char)
    requires x < y
    ensures LexLess([x], [y])
  {}

  lemma SampleKeys()
    ensures StrictlySorted(["a", "c", "e", "g"]) && StrictlySorted(["a", "c", "d", "e", "g"])
    ensures LexLess("c", "d") && LexLess("d", "e")
  {
    LettersAscend('a', 'c');
    LettersAscend('a', 'd');
    LettersAscend('a', 'e');
    LettersAscend('a', 'g');
    LettersAscend('c', 'd');
    LettersAscend('c', 'e');
    LettersAscend('c', 'g');
    LettersAscend('d', 'e');
    LettersAscend('d', 'g');
    LettersAscend('e', 'g');
  }

  lemma SampleMembers(e: Entry)
    ensures var m: Entries := map["a" := e, "c" := e, "e" := e, "g" := e];
            && Quorums.Members(["a", "c", "e", "g"]) == m.Keys
            && Quorums.Members(["a", "c", "d", "e", "g"]) == m["d" := e].Keys
  {
    assert {"a", "c", "e", "g"} == Quorums.Members(["a", "c", "e", "g"]);
    assert {"a", "c", "d", "e", "g"} == Quorums.Members(["a", "c", "d", "e", "g"]);
  }

  /** One such input: d, between the buckets a, c and e, g. */
  lemma GapKeyExample(h: HashFunction, e: Entry)
    ensures var m := map["a" := e, "c" := e, "e" := e, "g" := e];
            !Covered("d", Compare(TreeOf(h, 2, m), TreeOf(h, 2, m["d" := e])))
  {
    var m: Entries := map["a" := e, "c" := e, "e" := e, "g" := e];
    SampleKeys();
    SampleMembers(e);
    SortedSample(m.Keys, ["a", "c", "e", "g"]);
    SortedSample(m["d" := e].Keys, ["a", "c", "d", "e", "g"]);
    GapKeyMissed(h, 2, m, 2, m["d" := e], "d");
  }

  lemma SortedSample(s: set<string>, ks: seq<string>)
    requires StrictlySorted(ks) && Quorums.Members(ks) == s
    ensures SortedKeys(s) == ks
  {
    SortedUnique(SortedKeys(s), ks);
  }

  // -------------------------------------------------------------------- the class

  class MerkleTree {
    const hash: HashFunction
    const bucketSize: nat
    var root: Option<Tree>
    var keyHashes: map<string, string>

    constructor (hash: HashFunction, bucketSize: nat := DEFAULT_BUCKET_SIZE)
      ensures this.hash == hash && this.bucketSize == bucketSize && root == None && keyHashes == map[]
    {
      this.hash, this.bucketSize := hash, bucketSize;
      root, keyHashes := None, map[];
    }

    /** Rebuilds the tree from scratch, whatever it was before. */
    method Build(keyValues: Entries)
      requires bucketSize >= 1
      modifies this
      ensures root == TreeOf(hash, bucketSize, keyValues)
      ensures keyHashes == map k | k in keyValues :: hash(EntryText(k, keyValues[k]))
    {
      HashEntries(keyValues);
      if keyHashes.Keys == {} {
        assert keyValues.Keys == {};
        root := None;
        return;
      }
      var sortedKeys := Sorted(keyHashes.Keys);
      assert keyHashes.Keys == keyValues.Keys;
      ChunkKeys(keyValues, bucketSize);
      var leaves := MakeLeaves(keyValues, sortedKeys);
      root := BuildLevels(leaves);
    }

    method HashEntries(keyValues: Entries)
      modifies this`keyHashes
      ensures keyHashes == map k | k in keyValues :: hash(EntryText(k, keyValues[k]))
    {
      keyHashes := map[];
      var rest := keyValues.Keys;
      while rest != {}
        invariant rest <= keyValues.Keys
        invariant keyHashes == map k | k in keyValues.Keys - rest :: hash(EntryText(k, keyValues[k]))
        decreases |rest|
      {
        var k :| k in rest;
        keyHashes := keyHashes[k := hash(EntryText(k, keyValues[k]))];
        rest := rest - {k};
      }
    }

    static method Sorted(keys: set<string>) returns (ks: seq<string>)
      ensures ks == SortedKeys(keys)
    {
      ks := [];
      var rest := keys;
      while rest != {}
        invariant rest <= keys
        invariant StrictlySorted(ks) && Quorums.Members(ks) == keys - rest
        decreases |rest|
      {
        var k :| k in rest;
        assert k !in Quorums.Members(ks);
        InsertKeySorts(ks, k);
        InsertKeyMembers(ks, k);
        ks := InsertKey(ks, k);
        rest := rest - {k};
      }
      SortedUnique(ks, SortedKeys(keys));
    }

    predicate HashesOf(keyValues: Entries)
      reads this
    {
      forall k :: k in keyValues ==> k in keyHashes && keyHashes[k] == hash(EntryText(k, keyValues[k]))
    }

    method JoinHashes(ghost keyValues: Entries, keys: seq<string>) returns (text: string)
      requires HashesOf(keyValues) && forall k :: k in keys ==> k in keyValues
      ensures text == BucketText(hash, keyValues, keys)
    {
      text := "";
      var i := 0;
      ghost var all := BucketText(hash, keyValues, keys);
      assert keys[0..] == keys && "" + all == all;
      while i < |keys|
        invariant 0 <= i <= |keys|
        invariant all == text + BucketText(hash, keyValues, keys[i..])
      {
        UnfoldBucketText(hash, keyValues, keys, i);
        Regroup(text, keyHashes[keys[i]], BucketText(hash, keyValues, keys[i + 1..]));
        text := text + keyHashes[keys[i]];
        i := i + 1;
      }
    }

    method MakeLeaves(ghost keyValues: Entries, sortedKeys: seq<string>) returns (leaves: seq<Tree>)
      requires bucketSize >= 1 && HashesOf(keyValues) && ChunksIn(keyValues, Chunks(sortedKeys, bucketSize))
      ensures leaves == Buckets(hash, keyValues, Chunks(sortedKeys, bucketSize))
    {
      leaves := [];
      var i := 0;
      ghost var cs := Chunks(sortedKeys, bucketSize);
      ghost var all := Buckets(hash, keyValues, cs);
      assert sortedKeys[0..] == sortedKeys;
      while i < |sortedKeys|
        invariant 0 <= i <= |sortedKeys|
        invariant cs == Chunks(sortedKeys[i..], bucketSize) && ChunksIn(keyValues, cs)
        invariant all == leaves + Buckets(hash, keyValues, cs)
      {
        var end := if i + bucketSize < |sortedKeys| then i + bucketSize else |sortedKeys|;
        var bucketKeys := sortedKeys[i..end];
        NextChunk(sortedKeys, bucketSize, i, end);
        FirstBucket(hash, keyValues, cs);
        assert cs[0] == bucketKeys && cs[1..] == Chunks(sortedKeys[end..], bucketSize);
        var leaf := MakeLeaf(keyValues, bucketKeys);
        Regroup(leaves, [leaf], Buckets(hash, keyValues, cs[1..]));
        leaves := leaves + [leaf];
        cs := cs[1..];
        i := end;
      }
    }

    method MakeLeaf(ghost keyValues: Entries, bucketKeys: seq<string>) returns (leaf: Tree)
      requires HashesOf(keyValues) && bucketKeys != [] && forall k :: k in bucketKeys ==> k in keyValues
      ensures leaf == Bucket(hash, keyValues, bucketKeys)
    {
      var text := JoinHashes(keyValues, bucketKeys);
      leaf := Leaf(hash(text), Range(bucketKeys[0], bucketKeys[|bucketKeys| - 1]), bucketKeys);
    }

    /** One level of parents after another, until a single node is left. */
    method BuildLevels(nodes: seq<Tree>) returns (t: Option<Tree>)
      ensures t == if nodes == [] then None else Some(BuildTree(hash, nodes))
      decreases |nodes|
    {
      if nodes == [] { return None; }
      if |nodes| == 1 { return Some(nodes[0]); }
      var parents := PairUp(nodes);
      t := BuildLevels(parents);
    }

    method PairUp(nodes: seq<Tree>) returns (parents: seq<Tree>)
      ensures parents == Pairs(hash, nodes)
    {
      parents := [];
      var i := 0;
      ghost var rest := nodes;
      while i < |nodes|
        invariant 0 <= i <= |nodes| + 1 && rest == nodes[if i <= |nodes| then i else |nodes|..]
        invariant Pairs(hash, nodes) == parents + Pairs(hash, rest)
      {
        var left := nodes[i];
        if i + 1 < |nodes| {
          var right := nodes[i + 1];
          var parent := Node(hash(left.hash + right.hash), left, right, Range(left.range.first, right.range.last));
          assert rest[0] == left && rest[1] == right && rest[2..] == nodes[i + 2..];
          assert Pairs(hash, rest) == [parent] + Pairs(hash, rest[2..]);
          Regroup(parents, [parent], Pairs(hash, rest[2..]));
          parents := parents + [parent];
          rest := rest[2..];
        } else {
          assert rest == [left];
          parents := parents + [left];
          rest := [];
        }
        i := i + 2;
      }
    }

    method CompareWith(other: MerkleTree) returns (differences: seq<Range>)
      ensures differences == Compare(root, other.root)
    {
      if root.None? || other.root.None? { return []; }
      differences := CompareInto(root.value, other.root.value, []);
    }

    method CompareInto(node1: Tree, node2: Tree, differences: seq<Range>) returns (longer: seq<Range>)
      ensures longer == differences + CompareNodes(node1, node2)
      decreases node1
    {
      if node1.hash == node2.hash { return differences; }
      if node1.Leaf? || node2.Leaf? { return differences + [node1.range]; }
      longer := CompareInto(node1.left, node2.left, differences);
      longer := CompareInto(node1.right, node2.right, longer);
    }

    method GetKeysInRange(start: string, end: string) returns (ks: seq<string>)
      ensures Quorums.Distinct(ks)
      ensures Quorums.Members(ks) == set k | k in keyHashes && Within(k, Range(start, end))
    {
      ks := [];
      var rest := keyHashes.Keys;
      while rest != {}
        invariant rest <= keyHashes.Keys && Quorums.Distinct(ks)
        invariant forall k :: k in ks <==> k in keyHashes.Keys - rest && Within(k, Range(start, end))
        decreases |rest|
      {
        var k :| k in rest;
        assert k !in ks;
        if LexAtMost(start, k) && LexAtMost(k, end) { ks := ks + [k]; }
        rest := rest - {k};
      }
    }
  }

  /** A bucket's text is the hashes of its entries, one after the other. */
  lemma UnfoldBucketText(h: HashFunction, m: Entries, keys: seq<string>, i: nat)
    requires i < |keys| && forall k :: k in keys ==> k in m
    ensures BucketText(h, m, []) == ""
    ensures BucketText(h, m, keys[i..]) == h(EntryText(keys[i], m[keys[i]])) + BucketText(h, m, keys[i + 1..])
  {
    assert keys[i..][1..] == keys[i + 1..];
  }

  lemma FirstBucket(h: HashFunction, m: Entries, cs: seq<seq<string>>)
    requires ChunksIn(m, cs) && cs != []
    ensures forall k :: k in cs[0] ==> k in m
    ensures ChunksIn(m, cs[1..]) && Buckets(h, m, cs) == [Bucket(h, m, cs[0])] + Buckets(h, m, cs[1..])
  {}

  lemma NextChunk(ks: seq<string>, b: nat, i: nat, end: nat)
    requires b >= 1 && i < |ks| && end == if i + b < |ks| then i + b else |ks|
    ensures Chunks(ks[i..], b) == [ks[i..end]] + Chunks(ks[end..], b)
  {
    if i + b < |ks| {
      assert ks[i..][..b] == ks[i..end] && ks[i..][b..] == ks[end..];
    } else {
      assert ks[i..end] == ks[i..];
    }
  }
}

/** Small vocabulary shared by the models: optional values, the orders Python uses
    on strings and tuples, and counting arguments about quorums. */
module Options {
  datatype Option<+T> = None | Some(value: T)
}

/** How nodes are named throughout the cluster. */
module Nodes {
  type NodeId = string
}

/** The comparisons the program relies on: strings code point by code point, and the
    (version, updated_at, coordinator_id) tuples that decide which write wins. */
module Ordering {
  predicate LexLess(a: string, b: string) {
    if b == "" then false
    else if a == "" then true
    else if a[0] != b[0] then a[0] < b[0]
    else LexLess(a[1..], b[1..])
  }

  predicate LexAtMost(a: string, b: string) {
    a == b || LexLess(a, b)
  }

  /** The strings part at position n: a ends there, or has the smaller character. */
  predicate PartsBelow(a: string, b: string, n: nat) {
    n <= |a| && n < |b| && a[..n] == b[..n] && (n == |a| || a[n] < b[n])
  }

  /** The order of strings without recursion: a comes first exactly if it is a proper prefix
      of b or has the smaller character where the two first differ. */
  lemma {:induction false} LexLessExactly(a: string, b: string)
    ensures LexLess(a, b) <==> exists n: nat :: PartsBelow(a, b, n)
  {
    forall n: nat | PartsBelow(a, b, n) && n > 0 ensures a != "" && b != "" && a[0] == b[0] {
      assert a[..n][0] == b[..n][0];
    }
    if a == "" || b == "" || a[0] != b[0] {
      if LexLess(a, b) { assert PartsBelow(a, b, 0); }
    } else {
      LexLessExactly(a[1..], b[1..]);
      if n: nat :| PartsBelow(a[1..], b[1..], n) {
        assert a[..n + 1] == [a[0]] + a[1..][..n] && b[..n + 1] == [b[0]] + b[1..][..n];
        assert PartsBelow(a, b, n + 1);
      }
      if n: nat :| PartsBelow(a, b, n) {
        assert n > 0;
        assert a[1..][..n - 1] == a[..n][1..] && b[1..][..n - 1] == b[..n][1..];
        assert PartsBelow(a[1..], b[1..], n - 1);
      }
    }
  }

  lemma LexIrreflexive(a: string)
    ensures !LexLess(a, a)
  {}

  lemma {:induction false} LexTotal(a: string, b: string)
    ensures LexLess(a, b) || a == b || LexLess(b, a)
    ensures !(LexLess(a, b) && LexLess(b, a))
  {
    if a != "" && b != "" && a[0] == b[0] {
      LexTotal(a[1..], b[1..]);
      assert a == [a[0]] + a[1..] && b == [b[0]] + b[1..];
    }
  }

  lemma {:induction false} LexTransitive(a: string, b: string, c: string)
    requires LexLess(a, b) && LexLess(b, c)
    ensures LexLess(a, c)
  {
    if a != "" && a[0] == b[0] && b[0] == c[0] {
      LexTransitive(a[1..], b[1..], c[1..]);
    }
  }

  /** The key by which competing values of one key are ranked. */
  datatype Rank = Rank(version: int, updatedAt: real, coordinator: string)

  predicate Less(a: Rank, b: Rank) {
    a.version < b.version
    || (a.version == b.version
        && (a.updatedAt < b.updatedAt
            || (a.updatedAt == b.updatedAt && LexLess(a.coordinator, b.coordinator))))
  }

  predicate AtMost(a: Rank, b: Rank) {
    a == b || Less(a, b)
  }

  /** The first component in which two ranks differ decides. */
  lemma FirstDifferenceDecides(a: Rank, b: Rank)
    ensures a.version != b.version ==> (Less(a, b) <==> a.version < b.version)
    ensures a.version == b.version && a.updatedAt != b.updatedAt ==> (Less(a, b) <==> a.updatedAt < b.updatedAt)
    ensures a.version == b.version && a.updatedAt == b.updatedAt ==>
              (Less(a, b) <==> exists n: nat :: PartsBelow(a.coordinator, b.coordinator, n))
  {
    LexLessExactly(a.coordinator, b.coordinator);
  }

  lemma RankTotal(a: Rank, b: Rank)
    ensures AtMost(a, b) <==> !Less(b, a)
    ensures AtMost(a, b) || AtMost(b, a)
    ensures AtMost(a, b) && AtMost(b, a) ==> a == b
  {
    LexTotal(a.coordinator, b.coordinator);
    LexIrreflexive(a.coordinator);
  }

  lemma RankTransitive(a: Rank, b: Rank, c: Rank)
    requires AtMost(a, b) && AtMost(b, c)
    ensures AtMost(a, c)
  {
    if Less(a, b) && Less(b, c) && LexLess(a.coordinator, b.coordinator) && LexLess(b.coordinator, c.coordinator) {
      LexTransitive(a.coordinator, b.coordinator, c.coordinator);
    }
  }
}

module Quorums {
  lemma {:induction false} SubsetSize<T>(a: set<T>, b: set<T>)
    requires a <= b
    ensures |a| <= |b|
  {
    assert b == a + (b - a);
  }

  lemma {:induction false} WholeGroup<T>(a: set<T>, b: set<T>)
    requires a <= b && |a| >= |b|
    ensures a == b
  {
    assert b == a + (b - a);
    assert |b| == |a| + |b - a|;
  }

  /** Two groups that together outnumber the membership share a member. */
  lemma Intersect<T>(members: set<T>, a: set<T>, b: set<T>) returns (m: T)
    requires a <= members && b <= members && |a| + |b| > |members|
    ensures m in a && m in b
  {
    if a * b == {} {
      SubsetSize(a + b, members);
      assert false;
    }
    m :| m in a * b;
  }

  predicate Distinct<T(==)>(xs: seq<T>) {
    forall i, j :: 0 <= i < j < |xs| ==> xs[i] != xs[j]
  }

  function Members<T>(xs: seq<T>): set<T> {
    set x | x in xs
  }

  lemma {:induction false} DistinctSize<T>(xs: seq<T>)
    requires Distinct(xs)
    ensures |Members(xs)| == |xs|
  {
    if xs != [] {
      var front, last := xs[..|xs| - 1], xs[|xs| - 1];
      DistinctSize(front);
      assert Members(xs) == Members(front) + {last};
    }
  }

  /** Every finite set can be listed without repetition. */
  lemma {:induction false} Enumerate<T>(s: set<T>) returns (xs: seq<T>)
    ensures Distinct(xs) && Members(xs) == s && |xs| == |s|
  {
    if s == {} {
      xs := [];
    } else {
      var x :| x in s;
      var rest := Enumerate(s - {x});
      xs := rest + [x];
      assert Members(xs) == Members(rest) + {x};
    }
  }
}

/**
 The Merkle tree over an epoch's oplog entries (audit-service/src/audit/oplog.rs), for arbitrary hashes
 of entries and of pairs of nodes. A digest is an integer. An odd node is paired with itself.
 */
module OplogTree {
  import opened ByteStrings
  import opened CanonicalBson
  import opened OplogEntries
  import opened Merkle
  import opened Options
  import opened Sequences

  type Digest = Fr

  // ----- Levels -----

  /** The level above: neighbours are hashed in pairs, a last odd node with itself. */
  function Parents(h: Hash, level: seq<Digest>): (r: seq<Digest>)
    ensures |r| == (|level| + 1) / 2
    decreases |level|
  {
    if level == [] then []
    else if |level| == 1 then [h(level[0], level[0])]
    else [h(level[0], level[1])] + Parents(h, level[2..])
  }

  /** The root of a non-empty level. */
  function RootOf(h: Hash, level: seq<Digest>): Digest
    requires level != []
    decreases |level|
  {
    if |level| == 1 then level[0] else RootOf(h, Parents(h, level))
  }

  /** Every pair hashed for the level above is in `s`; likewise for the root. */
  predicate ParentsIn(s: Hashed, level: seq<Digest>)
    decreases |level|
  {
    if level == [] then true
    else if |level| == 1 then (level[0], level[0]) in s
    else (level[0], level[1]) in s && ParentsIn(s, level[2..])
  }

  predicate RootIn(h: Hash, s: Hashed, level: seq<Digest>)
    decreases |level|
  {
    |level| <= 1 || (ParentsIn(s, level) && RootIn(h, s, Parents(h, level)))
  }

  /** All levels from the leaves up to the root. */
  function Levels(h: Hash, level: seq<Digest>): (r: seq<seq<Digest>>)
    requires level != []
    ensures r != [] && r[0] == level && |r[|r| - 1]| == 1 && r[|r| - 1][0] == RootOf(h, level)
    decreases |level|
  {
    if |level| == 1 then [level] else [level] + Levels(h, Parents(h, level))
  }

  datatype Tree = Tree(leaves: seq<Digest>, nodes: seq<seq<Digest>>, root: Digest)

  /** `from_leaves`: two nested loops build level after level. */
  method FromLeaves(h: Hash, leaves: seq<Digest>, emptyRoot: Digest) returns (t: Tree)
    ensures t.leaves == leaves
    ensures t == TreeOf(h, leaves, emptyRoot)
  {
    if leaves == [] {
      return Tree(leaves, [], emptyRoot);
    }
    var nodes, current := [leaves], leaves;
    assert [] + Levels(h, leaves) == Levels(h, leaves);
    while |current| > 1
      invariant current != [] && nodes != [] && nodes[|nodes| - 1] == current
      invariant nodes[..|nodes| - 1] + Levels(h, current) == Levels(h, leaves)
      invariant RootOf(h, current) == RootOf(h, leaves)
      decreases |current|
    {
      var next := NextLevel(h, current);
      LevelsStep(h, nodes, current, next);
      nodes := nodes + [next];
      current := next;
    }
    assert nodes[..|nodes| - 1] + [current] == nodes;
    return Tree(leaves, nodes, current[0]);
  }

  lemma LevelsStep(h: Hash, nodes: seq<seq<Digest>>, current: seq<Digest>, next: seq<Digest>)
    requires |current| > 1 && nodes != [] && nodes[|nodes| - 1] == current && next == Parents(h, current)
    ensures (nodes + [next])[..|nodes|] + Levels(h, next) == nodes[..|nodes| - 1] + Levels(h, current)
  {
    var front := nodes[..|nodes| - 1];
    assert (nodes + [next])[..|nodes|] == front + [current];
    PlusAssociates(front, [current], Levels(h, next));
  }

  /** The inner loop. */
  method NextLevel(h: Hash, current: seq<Digest>) returns (next: seq<Digest>)
    ensures next == Parents(h, current)
  {
    next := [];
    var i := 0;
    while i < |current|
      invariant 0 <= i <= |current| + 1
      invariant next + ParentsFrom(h, current, i) == Parents(h, current)
    {
      var left := current[i];
      var right := if i + 1 < |current| then current[i + 1] else current[i];
      NextStep(h, current, i, next);
      next := next + [h(left, right)];
      i := i + 2;
    }
    assert next + ParentsFrom(h, current, i) == next;
  }

  function ParentsFrom(h: Hash, level: seq<Digest>, i: nat): seq<Digest> {
    if i < |level| then Parents(h, level[i..]) else []
  }

  lemma ParentsStep(h: Hash, current: seq<Digest>, i: nat)
    requires i < |current|
    ensures ParentsFrom(h, current, i)
      == [h(current[i], if i + 1 < |current| then current[i + 1] else current[i])] + ParentsFrom(h, current, i + 2)
  {
    if i + 2 <= |current| {
      assert current[i..][2..] == current[i + 2..];
    }
  }

  lemma NextStep(h: Hash, current: seq<Digest>, i: nat, done: seq<Digest>)
    requires i < |current|
    ensures done + ParentsFrom(h, current, i)
      == done + [h(current[i], if i + 1 < |current| then current[i + 1] else current[i])]
          + ParentsFrom(h, current, i + 2)
  {
    ParentsStep(h, current, i);
  }

  function TreeOf(h: Hash, leaves: seq<Digest>, emptyRoot: Digest): Tree {
    if leaves == [] then Tree(leaves, [], emptyRoot) else Tree(leaves, Levels(h, leaves), RootOf(h, leaves))
  }

  // ----- Inclusion proofs -----

  function Sibling(level: seq<Digest>, i: nat): Digest
    requires i < |level|
  {
    var s := if i % 2 == 0 then i + 1 else i - 1;
    if s < |level| then level[s] else level[i]
  }

  /** The siblings from the leaf level up to the root. */
  function PathFrom(h: Hash, level: seq<Digest>, i: nat): seq<Digest>
    requires i < |level|
    decreases |level|
  {
    if |level| == 1 then [] else [Sibling(level, i)] + PathFrom(h, Parents(h, level), i / 2)
  }

  /** `prove_inclusion` on a tree that was built from its leaves. */
  method ProveInclusion(h: Hash, t: Tree, leafIndex: nat, ghost emptyRoot: Digest) returns (proof: Option<seq<Digest>>)
    requires t == TreeOf(h, t.leaves, emptyRoot)
    ensures proof == if leafIndex < |t.leaves| then Some(PathFrom(h, t.leaves, leafIndex)) else None
  {
    if leafIndex >= |t.leaves| { return None; }
    var path: seq<Digest> := [];
    var idx: nat := leafIndex;
    ghost var rest := t.leaves;
    for level := 0 to |t.nodes| - 1
      invariant PathTo(h, t.nodes, level, rest, idx, path, PathFrom(h, t.leaves, leafIndex))
    {
      PathUp(h, t.nodes, level, rest, idx, path, PathFrom(h, t.leaves, leafIndex));
      path := path + [Sibling(t.nodes[level], idx)];
      rest := Parents(h, rest);
      idx := idx / 2;
    }
    assert |rest| == 1 && path + PathFrom(h, rest, idx) == path;
    return Some(path);
  }

  /** The invariant of `prove_inclusion`: at a level, what is collected so far and what remains make up the path. */
  ghost predicate PathTo(h: Hash, nodes: seq<seq<Digest>>, level: nat, rest: seq<Digest>, idx: nat,
                         path: seq<Digest>, whole: seq<Digest>) {
    && rest != [] && idx < |rest| && level < |nodes| && nodes[level..] == Levels(h, rest)
    && path + PathFrom(h, rest, idx) == whole
  }

  lemma PathUp(h: Hash, nodes: seq<seq<Digest>>, level: nat, rest: seq<Digest>, idx: nat,
               path: seq<Digest>, whole: seq<Digest>)
    requires PathTo(h, nodes, level, rest, idx, path, whole) && level < |nodes| - 1
    ensures nodes[level] == rest
    ensures PathTo(h, nodes, level + 1, Parents(h, rest), idx / 2, path + [Sibling(rest, idx)], whole)
  {
    LevelsTail(h, rest, nodes, level);
    PathStep(h, rest, idx, path);
  }

  lemma LevelsTail(h: Hash, level: seq<Digest>, nodes: seq<seq<Digest>>, k: nat)
    requires level != [] && k < |nodes| - 1 && nodes[k..] == Levels(h, level)
    ensures nodes[k] == level && |level| > 1 && nodes[k + 1..] == Levels(h, Parents(h, level))
  {
    assert nodes[k] == nodes[k..][0] && nodes[k + 1..] == nodes[k..][1..];
  }

  lemma PathStep(h: Hash, level: seq<Digest>, i: nat, done: seq<Digest>)
    requires i < |level| && |level| > 1
    ensures done + PathFrom(h, level, i) == done + [Sibling(level, i)] + PathFrom(h, Parents(h, level), i / 2)
  {
  }

  function ClimbTo(h: Hash, current: Digest, i: nat, proof: seq<Digest>): Digest
    decreases |proof|
  {
    if proof == [] then current
    else ClimbTo(h, if i % 2 == 0 then h(current, proof[0]) else h(proof[0], current), i / 2, proof[1..])
  }

  /** Every pair hashed on the way is in `s`. */
  predicate ClimbToIn(h: Hash, s: Hashed, current: Digest, i: nat, proof: seq<Digest>)
    decreases |proof|
  {
    proof == [] || (
      var p := if i % 2 == 0 then (current, proof[0]) else (proof[0], current);
      p in s && ClimbToIn(h, s, h(p.0, p.1), i / 2, proof[1..]))
  }

  method VerifyInclusion(h: Hash, leaf: Digest, leafIndex: nat, proof: seq<Digest>, root: Digest) returns (ok: bool)
    ensures ok <==> ClimbTo(h, leaf, leafIndex, proof) == root
  {
    var current, idx := leaf, leafIndex;
    var n := 0;
    while n < |proof|
      invariant 0 <= n <= |proof|
      invariant ClimbTo(h, current, idx, proof[n..]) == ClimbTo(h, leaf, leafIndex, proof)
    {
      assert proof[n..][1..] == proof[n + 1..];
      current := if idx % 2 == 0 then h(current, proof[n]) else h(proof[n], current);
      idx := idx / 2;
      n := n + 1;
    }
    ok := current == root;
  }

  /** The parent of node `i` hashes the node with its sibling, the even one first. */
  lemma {:induction false} ParentAt(h: Hash, level: seq<Digest>, i: nat)
    requires i < |level|
    ensures var p := if i % 2 == 0 then (level[i], Sibling(level, i)) else (Sibling(level, i), level[i]);
      Parents(h, level)[i / 2] == h(p.0, p.1) && forall s: Hashed :: ParentsIn(s, level) ==> p in s
    decreases |level|
  {
    if i >= 2 {
      ParentAt(h, level[2..], i - 2);
      assert Sibling(level[2..], i - 2) == Sibling(level, i);
      assert Parents(h, level)[i / 2] == Parents(h, level[2..])[(i - 2) / 2];
    }
  }

  /** Every leaf's own proof verifies. */
  lemma {:induction false} ProofComplete(h: Hash, level: seq<Digest>, i: nat)
    requires i < |level|
    ensures ClimbTo(h, level[i], i, PathFrom(h, level, i)) == RootOf(h, level)
    decreases |level|
  {
    if |level| > 1 {
      ParentAt(h, level, i);
      ProofComplete(h, Parents(h, level), i / 2);
      var path := PathFrom(h, level, i);
      assert path[1..] == PathFrom(h, Parents(h, level), i / 2);
    }
  }

  // ----- Levels and padding -----

  /** The number of levels above the leaves. */
  function Depth(n: nat): nat {
    if n <= 1 then 0 else 1 + Depth((n + 1) / 2)
  }

  lemma {:induction false} LevelsDepth(h: Hash, level: seq<Digest>)
    requires level != []
    ensures |Levels(h, level)| == Depth(|level|) + 1
    decreases |level|
  {
    if |level| > 1 {
      LevelsDepth(h, Parents(h, level));
    }
  }

  /** The leaf that stands at position `k` when every odd level has its last node repeated. */
  function Source(n: nat, k: nat): (r: nat)
    requires n > 0 && k < Pow2(Depth(n))
    ensures r < n
    ensures k < n ==> r == k
  {
    if n == 1 then 0
    else
      var x := 2 * Source((n + 1) / 2, k / 2) + k % 2;
      if x < n then x else x - 1
  }

  /** The leaves as the tree sees them: a full level, in which tails are repeated. */
  function Padded(level: seq<Digest>): (r: seq<Digest>)
    requires level != []
    ensures |r| == Pow2(Depth(|level|))
    ensures forall k :: 0 <= k < |r| ==> r[k] == level[Source(|level|, k)]
  {
    seq(Pow2(Depth(|level|)), k requires 0 <= k < Pow2(Depth(|level|)) => level[Source(|level|, k)])
  }

  lemma {:induction false} Reaches(n: nat)
    requires n > 0
    ensures n <= Pow2(Depth(n))
  {
    if n > 1 {
      Reaches((n + 1) / 2);
    }
  }

  /** Padding only adds behind. */
  lemma PaddedExtends(level: seq<Digest>)
    requires level != []
    ensures level <= Padded(level)
  {
    Reaches(|level|);
  }

  lemma SourcePair(n: nat, j: nat)
    requires n > 1 && j < Pow2(Depth(n) - 1)
    ensures Depth((n + 1) / 2) == Depth(n) - 1 && 2 * j + 1 < Pow2(Depth(n))
    ensures var q := Source((n + 1) / 2, j);
      && 2 * q < n && Source(n, 2 * j) == 2 * q
      && Source(n, 2 * j + 1) == if 2 * q + 1 < n then 2 * q + 1 else 2 * q
  {
    assert (2 * j) / 2 == j && (2 * j) % 2 == 0;
    assert (2 * j + 1) / 2 == j && (2 * j + 1) % 2 == 1;
  }

  /** The two nodes that a node of the padded level above pairs. */
  function PaddedPair(level: seq<Digest>, j: nat): (Digest, Digest)
    requires |level| > 1 && j < Pow2(Depth(|level|) - 1)
  {
    SourcePair(|level|, j);
    (Padded(level)[2 * j], Padded(level)[2 * j + 1])
  }

  lemma PairOfSiblings(level: seq<Digest>, j: nat)
    requires |level| > 1 && j < Pow2(Depth(|level|) - 1)
    ensures var q := Source((|level| + 1) / 2, j);
      2 * q < |level| && PaddedPair(level, j) == (level[2 * q], Sibling(level, 2 * q))
  {
    SourcePair(|level|, j);
    SiblingAfter(level, Source((|level| + 1) / 2, j));
  }

  lemma SiblingAfter(level: seq<Digest>, q: nat)
    requires 2 * q < |level|
    ensures Sibling(level, 2 * q) == level[if 2 * q + 1 < |level| then 2 * q + 1 else 2 * q]
  {
    assert (2 * q) % 2 == 0;
  }

  lemma EvenParent(h: Hash, s: Hashed, level: seq<Digest>, q: nat)
    requires 2 * q < |level|
    ensures Parents(h, level)[q] == Parent(h, (level[2 * q], Sibling(level, 2 * q)))
    ensures ParentsIn(s, level) ==> (level[2 * q], Sibling(level, 2 * q)) in s
  {
    ParentAt(h, level, 2 * q);
    assert (2 * q) / 2 == q && (2 * q) % 2 == 0;
  }

  /** Padding and pairing commute. */
  lemma PaddedParent(h: Hash, s: Hashed, level: seq<Digest>, j: nat)
    requires |level| > 1 && j < Pow2(Depth(|level|) - 1)
    ensures |Padded(Parents(h, level))| == Pow2(Depth(|level|) - 1)
    ensures Padded(Parents(h, level))[j] == Parent(h, PaddedPair(level, j))
    ensures ParentsIn(s, level) ==> PaddedPair(level, j) in s
  {
    var q := Source((|level| + 1) / 2, j);
    PairOfSiblings(level, j);
    EvenParent(h, s, level, q);
    var up := Parents(h, level);
    assert |up| == (|level| + 1) / 2 && Depth(|up|) == Depth(|level|) - 1;
    assert Padded(up)[j] == up[q];
  }

  /** What verification accepts at the full length: the node at that position of the padded level. */
  lemma {:induction false} FullProofSound(h: Hash, s: Hashed, level: seq<Digest>, i: nat, leaf: Digest,
                                          proof: seq<Digest>)
    requires level != [] && |proof| == Depth(|level|)
    requires CollisionFree(h, s) && RootIn(h, s, level) && ClimbToIn(h, s, leaf, i, proof)
    requires ClimbTo(h, leaf, i, proof) == RootOf(h, level)
    ensures leaf == Padded(level)[i % Pow2(|proof|)]
    decreases |level|
  {
    if |level| > 1 {
      var p := if i % 2 == 0 then (leaf, proof[0]) else (proof[0], leaf);
      FullProofSound(h, s, Parents(h, level), i / 2, Parent(h, p), proof[1..]);
      ProofStep(h, s, level, i, p, |proof| - 1);
    } else {
      assert i % 1 == 0;
    }
  }

  lemma SamePair(h: Hash, s: Hashed, p: (Digest, Digest), q: (Digest, Digest))
    requires CollisionFree(h, s) && p in s && q in s && Parent(h, p) == Parent(h, q)
    ensures p == q
  {
  }

  /** The place of a position in its pair. */
  lemma PairPlace(level: seq<Digest>, i: nat, d: nat)
    requires |level| > 1 && Depth(|level|) == d + 1
    ensures i % Pow2(d + 1) < |Padded(level)|
    ensures var pair := PaddedPair(level, i / 2 % Pow2(d));
      Padded(level)[i % Pow2(d + 1)] == if i % 2 == 0 then pair.0 else pair.1
  {
    LowBits(i, Pow2(d));
    InPair(level, i / 2 % Pow2(d), i % 2);
  }

  lemma InPair(level: seq<Digest>, j: nat, b: nat)
    requires |level| > 1 && j < Pow2(Depth(|level|) - 1) && b < 2
    ensures 2 * j + b < |Padded(level)|
    ensures Padded(level)[2 * j + b] == if b == 0 then PaddedPair(level, j).0 else PaddedPair(level, j).1
  {
    SourcePair(|level|, j);
  }

  lemma ProofStep(h: Hash, s: Hashed, level: seq<Digest>, i: nat, p: (Digest, Digest), d: nat)
    requires |level| > 1 && Depth(|level|) == d + 1
    requires CollisionFree(h, s) && ParentsIn(s, level) && p in s
    requires |Padded(Parents(h, level))| == Pow2(d) && Parent(h, p) == Padded(Parents(h, level))[i / 2 % Pow2(d)]
    ensures i % Pow2(d + 1) < |Padded(level)|
    ensures (if i % 2 == 0 then p.0 else p.1) == Padded(level)[i % Pow2(d + 1)]
  {
    var j := i / 2 % Pow2(d);
    assert p == PaddedPair(level, j) by {
      PaddedParent(h, s, level, j);
      SamePair(h, s, p, PaddedPair(level, j));
    }
    PairPlace(level, i, d);
  }

  lemma LowBits(i: nat, half: nat)
    requires half >= 1
    ensures i % (2 * half) == 2 * (i / 2 % half) + i % 2
  {
    var q, j, b := i / 2 / half, i / 2 % half, i % 2;
    assert i / 2 == q * half + j;
    assert i == q * (2 * half) + (2 * j + b);
    QuotientIs(i, 2 * half, q, 2 * j + b);
  }

  /** The level `k` above the leaves. */
  function Above(h: Hash, level: seq<Digest>, k: nat): (r: seq<Digest>)
    requires level != [] && k <= Depth(|level|)
    ensures r != [] && Depth(|r|) == Depth(|level|) - k && RootOf(h, r) == RootOf(h, level)
    decreases k
  {
    if k == 0 then level else Above(h, Parents(h, level), k - 1)
  }

  lemma {:induction false} AboveIn(h: Hash, s: Hashed, level: seq<Digest>, k: nat)
    requires level != [] && k <= Depth(|level|) && RootIn(h, s, level)
    ensures RootIn(h, s, Above(h, level, k))
    decreases k
  {
    if k > 0 {
      AboveIn(h, s, Parents(h, level), k - 1);
    }
  }

  /**
   Verification looks neither at the proof's length nor at the number of leaves. A proof that is `k` short
   is one for a node `k` levels above the leaves, and the index counts modulo the width of that level.
   */
  lemma ProofSound(h: Hash, s: Hashed, level: seq<Digest>, i: nat, leaf: Digest, proof: seq<Digest>)
    requires level != [] && |proof| <= Depth(|level|)
    requires CollisionFree(h, s) && RootIn(h, s, level) && ClimbToIn(h, s, leaf, i, proof)
    requires ClimbTo(h, leaf, i, proof) == RootOf(h, level)
    ensures leaf == Padded(Above(h, level, Depth(|level|) - |proof|))[i % Pow2(|proof|)]
  {
    AboveIn(h, s, level, Depth(|level|) - |proof|);
    FullProofSound(h, s, Above(h, level, Depth(|level|) - |proof|), i, leaf, proof);
  }

  /** A proof of the right length for an index of the tree verifies for that leaf only. */
  lemma {:induction false} LeafProofSound(h: Hash, s: Hashed, level: seq<Digest>, i: nat, leaf: Digest,
                                          proof: seq<Digest>)
    requires i < |level| && |proof| == |PathFrom(h, level, i)|
    requires CollisionFree(h, s) && RootIn(h, s, level) && ClimbToIn(h, s, leaf, i, proof)
    requires ClimbTo(h, leaf, i, proof) == RootOf(h, level)
    ensures leaf == level[i] && proof == PathFrom(h, level, i)
    decreases |level|
  {
    if |level| > 1 {
      var up := if i % 2 == 0 then h(leaf, proof[0]) else h(proof[0], leaf);
      LeafProofSound(h, s, Parents(h, level), i / 2, up, proof[1..]);
      ParentAt(h, level, i);
      if i % 2 == 0 {
        SameHash(h, s, leaf, proof[0], level[i], Sibling(level, i));
      } else {
        SameHash(h, s, proof[0], leaf, Sibling(level, i), level[i]);
      }
      assert proof == [proof[0]] + proof[1..];
    }
  }

  /** A longer proof is one for something below the leaves: a leaf of the tree is then itself the hash of a pair. */
  lemma {:induction false} LongProof(h: Hash, s: Hashed, level: seq<Digest>, i: nat, leaf: Digest, proof: seq<Digest>)
    requires level != [] && |proof| > Depth(|level|)
    requires CollisionFree(h, s) && RootIn(h, s, level) && ClimbToIn(h, s, leaf, i, proof)
    requires ClimbTo(h, leaf, i, proof) == RootOf(h, level)
    ensures exists x :: x in s && Parent(h, x) in level
    decreases |proof|
  {
    var p := if i % 2 == 0 then (leaf, proof[0]) else (proof[0], leaf);
    if |proof| > Depth(|level|) + 1 {
      LongProof(h, s, level, i / 2, h(p.0, p.1), proof[1..]);
    } else {
      FullProofSound(h, s, level, i / 2, h(p.0, p.1), proof[1..]);
      assert Parent(h, p) in level;
    }
  }

  // ----- What the root commits to -----

  lemma {:induction false} ParentsInjective(h: Hash, s: Hashed, a: seq<Digest>, b: seq<Digest>)
    requires |a| == |b| && Parents(h, a) == Parents(h, b)
    requires CollisionFree(h, s) && ParentsIn(s, a) && ParentsIn(s, b)
    ensures a == b
    decreases |a|
  {
    if |a| == 1 {
      assert Parents(h, a)[0] == Parents(h, b)[0];
      SameHash(h, s, a[0], a[0], b[0], b[0]);
    } else if |a| > 1 {
      var p, q := Parents(h, a), Parents(h, b);
      assert p[0] == h(a[0], a[1]) && q[0] == h(b[0], b[1]);
      SameHash(h, s, a[0], a[1], b[0], b[1]);
      assert p[1..] == Parents(h, a[2..]) && q[1..] == Parents(h, b[2..]);
      ParentsInjective(h, s, a[2..], b[2..]);
      assert a == [a[0], a[1]] + a[2..] && b == [b[0], b[1]] + b[2..];
    }
  }

  /** Among lists of one length the root determines the list. */
  lemma {:induction false} RootBindsList(h: Hash, s: Hashed, a: seq<Digest>, b: seq<Digest>)
    requires |a| == |b| && a != [] && RootOf(h, a) == RootOf(h, b)
    requires CollisionFree(h, s) && RootIn(h, s, a) && RootIn(h, s, b)
    ensures a == b
    decreases |a|
  {
    if |a| > 1 {
      RootBindsList(h, s, Parents(h, a), Parents(h, b));
      ParentsInjective(h, s, a, b);
    } else {
      assert a == [a[0]] && b == [b[0]];
    }
  }

  /** The length is needed: repeating an odd last leaf keeps the root, whatever the hash. */
  lemma RepeatedLeafExample(h: Hash, a: Digest, b: Digest, c: Digest)
    ensures RootOf(h, [a, b, c]) == RootOf(h, [a, b, c, c])
  {
    assert [a, b, c][2..] == [c] && [a, b, c, c][2..] == [c, c] && [c, c][2..] == [];
    assert Parents(h, [a, b, c]) == [h(a, b), h(c, c)] == Parents(h, [a, b, c, c]);
  }

  // ----- When roots alone agree -----

  lemma {:induction false} ParentsInAll(s: Hashed, level: seq<Digest>)
    requires forall j :: 0 <= j && 2 * j < |level| ==> (level[2 * j], Sibling(level, 2 * j)) in s
    ensures ParentsIn(s, level)
    decreases |level|
  {
    if |level| > 0 {
      assert (level[2 * 0], Sibling(level, 2 * 0)) in s;
    }
    if |level| > 1 {
      forall j | 0 <= j && 2 * j < |level[2..]|
        ensures (level[2..][2 * j], Sibling(level[2..], 2 * j)) in s
      {
        assert (level[2 * (j + 1)], Sibling(level, 2 * (j + 1))) in s;
        SiblingAfter(level, j + 1);
        SiblingAfter(level[2..], j);
      }
      ParentsInAll(s, level[2..]);
    }
  }

  lemma ParentsOfPadded(h: Hash, s: Hashed, level: seq<Digest>)
    requires |level| > 1
    ensures Parents(h, Padded(level)) == Padded(Parents(h, level))
    ensures ParentsIn(s, level) ==> ParentsIn(s, Padded(level))
  {
    var full, up := Padded(level), Padded(Parents(h, level));
    var half := Pow2(Depth(|level|) - 1);
    assert |full| == 2 * half;
    forall j | 0 <= j < half
      ensures (full[2 * j], Sibling(full, 2 * j)) == PaddedPair(level, j)
      ensures |up| == half && Parents(h, full)[j] == up[j]
      ensures ParentsIn(s, level) ==> (full[2 * j], Sibling(full, 2 * j)) in s
    {
      SiblingAfter(full, j);
      EvenParent(h, s, full, j);
      PaddedParent(h, s, level, j);
    }
    PaddedParent(h, s, level, 0);
    assert |Parents(h, full)| == half;
    if ParentsIn(s, level) {
      ParentsInAll(s, full);
    }
  }

  /** Padding keeps the root, and hashes nothing new. */
  lemma {:induction false} PaddedRoot(h: Hash, s: Hashed, level: seq<Digest>)
    requires level != []
    ensures RootOf(h, Padded(level)) == RootOf(h, level)
    ensures RootIn(h, s, level) ==> RootIn(h, s, Padded(level))
    decreases |level|
  {
    Reaches(|level|);
    if |level| > 1 {
      ParentsOfPadded(h, s, level);
      PaddedRoot(h, s, Parents(h, level));
    }
  }

  /** Trees with the same number of levels have the same root exactly when their padded leaves are the same. */
  lemma SameDepthRootsIff(h: Hash, s: Hashed, a: seq<Digest>, b: seq<Digest>)
    requires a != [] && b != [] && Depth(|a|) == Depth(|b|)
    requires CollisionFree(h, s) && RootIn(h, s, a) && RootIn(h, s, b)
    ensures RootOf(h, a) == RootOf(h, b) <==> Padded(a) == Padded(b)
  {
    PaddedRoot(h, s, a);
    PaddedRoot(h, s, b);
    if RootOf(h, a) == RootOf(h, b) {
      RootBindsList(h, s, Padded(a), Padded(b));
    }
  }

  /** For any two trees, the lower one is compared with the same level of the higher one. */
  lemma RootsEqualIff(h: Hash, s: Hashed, a: seq<Digest>, b: seq<Digest>)
    requires a != [] && b != [] && Depth(|a|) >= Depth(|b|)
    requires CollisionFree(h, s) && RootIn(h, s, a) && RootIn(h, s, b)
    ensures RootOf(h, a) == RootOf(h, b) <==> Padded(Above(h, a, Depth(|a|) - Depth(|b|))) == Padded(b)
  {
    AboveIn(h, s, a, Depth(|a|) - Depth(|b|));
    SameDepthRootsIff(h, s, Above(h, a, Depth(|a|) - Depth(|b|)), b);
  }

  /** No digest of an entry is the hash of a pair. */
  predicate EntriesNotNodes(h: Hash, s: Hashed, level: seq<Digest>) {
    forall x :: x in s ==> Parent(h, x) !in level
  }

  lemma {:induction false} FirstAbove(h: Hash, s: Hashed, level: seq<Digest>, k: nat) returns (x: (Digest, Digest))
    requires level != [] && 0 < k <= Depth(|level|) && RootIn(h, s, level)
    ensures x in s && Above(h, level, k)[0] == Parent(h, x)
    decreases k
  {
    if k == 1 {
      x := (level[0], level[1]);
      assert Above(h, level, 1) == Parents(h, level);
    } else {
      x := FirstAbove(h, s, Parents(h, level), k - 1);
    }
  }

  /** If, besides, no entry's digest is a node's: exactly when levels and padded leaves are the same. */
  lemma RootsAloneIff(h: Hash, s: Hashed, a: seq<Digest>, b: seq<Digest>)
    requires a != [] && b != []
    requires CollisionFree(h, s) && RootIn(h, s, a) && RootIn(h, s, b)
    requires EntriesNotNodes(h, s, a) && EntriesNotNodes(h, s, b)
    ensures RootOf(h, a) == RootOf(h, b) <==> Depth(|a|) == Depth(|b|) && Padded(a) == Padded(b)
  {
    if Depth(|a|) == Depth(|b|) {
      SameDepthRootsIff(h, s, a, b);
    } else if Depth(|a|) > Depth(|b|) {
      HigherRootDiffers(h, s, a, b, Depth(|a|) - Depth(|b|));
    } else {
      HigherRootDiffers(h, s, b, a, Depth(|b|) - Depth(|a|));
    }
  }

  lemma PaddedFirst(level: seq<Digest>)
    requires level != []
    ensures Padded(level) != [] && Padded(level)[0] == level[0] && level[0] in level
  {
    PaddedExtends(level);
  }

  lemma NodesDiffer(h: Hash, s: Hashed, nodes: seq<Digest>, b: seq<Digest>, x: (Digest, Digest))
    requires nodes != [] && b != [] && x in s && nodes[0] == Parent(h, x) && EntriesNotNodes(h, s, b)
    ensures Padded(nodes) != Padded(b)
  {
    PaddedFirst(nodes);
    PaddedFirst(b);
  }

  lemma NodesRootDiffers(h: Hash, s: Hashed, nodes: seq<Digest>, b: seq<Digest>, x: (Digest, Digest))
    requires nodes != [] && b != [] && Depth(|nodes|) == Depth(|b|)
    requires CollisionFree(h, s) && RootIn(h, s, nodes) && RootIn(h, s, b)
    requires x in s && nodes[0] == Parent(h, x) && EntriesNotNodes(h, s, b)
    ensures RootOf(h, nodes) != RootOf(h, b)
  {
    NodesDiffer(h, s, nodes, b, x);
    SameDepthRootsIff(h, s, nodes, b);
  }

  lemma HigherRootDiffers(h: Hash, s: Hashed, a: seq<Digest>, b: seq<Digest>, k: nat)
    requires a != [] && b != [] && 0 < k && Depth(|a|) == Depth(|b|) + k
    requires CollisionFree(h, s) && RootIn(h, s, a) && RootIn(h, s, b) && EntriesNotNodes(h, s, b)
    ensures RootOf(h, a) != RootOf(h, b)
  {
    AboveIn(h, s, a, k);
    var x := FirstAbove(h, s, a, k);
    NodesRootDiffers(h, s, Above(h, a, k), b, x);
  }

  predicate Distinct(level: seq<Digest>) {
    forall i, j :: 0 <= i < j < |level| ==> level[i] != level[j]
  }

  lemma DistinctPadded(a: seq<Digest>, b: seq<Digest>)
    requires a != [] && b != [] && |a| <= |b| && Padded(a) == Padded(b) && Distinct(b)
    ensures a == b
  {
    PaddedExtends(a);
    PaddedExtends(b);
    assert forall i :: 0 <= i < |a| ==> a[i] == Padded(a)[i] == b[i];
    FirstRepeat(a);
    assert |a| == |b|;
  }

  lemma FirstRepeat(a: seq<Digest>)
    requires a != []
    ensures |a| < |Padded(a)| ==> Padded(a)[|a|] in a
  {
  }

  /** For lists without repetition the root alone decides. */
  lemma DistinctRootsIff(h: Hash, s: Hashed, a: seq<Digest>, b: seq<Digest>)
    requires a != [] && b != [] && Distinct(a) && Distinct(b)
    requires CollisionFree(h, s) && RootIn(h, s, a) && RootIn(h, s, b)
    requires EntriesNotNodes(h, s, a) && EntriesNotNodes(h, s, b)
    ensures RootOf(h, a) == RootOf(h, b) <==> a == b
  {
    RootsAloneIff(h, s, a, b);
    if RootOf(h, a) == RootOf(h, b) {
      if |a| <= |b| {
        DistinctPadded(a, b);
      } else {
        DistinctPadded(b, a);
      }
    }
  }

  /** With index 3, the third of three leaves verifies as well: the index is not compared with the leaf count. */
  lemma BeyondLeavesExample(h: Hash, a: Digest, b: Digest, c: Digest)
    ensures ClimbTo(h, c, 3, [c, h(a, b)]) == RootOf(h, [a, b, c])
  {
    assert [a, b, c][2..] == [c] && Parents(h, [a, b, c]) == [h(a, b), h(c, c)];
    assert Parents(h, [h(a, b), h(c, c)]) == [h(h(a, b), h(c, c))] + Parents(h, []);
    assert [h(a, b), h(c, c)][2..] == [] && [c, h(a, b)][1..] == [h(a, b)] && [h(a, b)][1..] == [];
    assert ClimbTo(h, c, 3, [c, h(a, b)]) == ClimbTo(h, h(c, c), 1, [h(a, b)]) == h(h(a, b), h(c, c));
    assert RootOf(h, [a, b, c]) == RootOf(h, [h(a, b), h(c, c)]) == h(h(a, b), h(c, c));
  }

  /** Small trees: the left one of a pair is hashed first, and an odd last node with itself. */
  lemma SmallTrees(h: Hash, a: Digest, b: Digest, c: Digest)
    ensures RootOf(h, [a]) == a && RootOf(h, [a, b]) == h(a, b) && RootOf(h, [a, b, c]) == h(h(a, b), h(c, c))
    ensures ClimbTo(h, a, 0, [b]) == h(a, b) && ClimbTo(h, b, 1, [a]) == h(a, b)
  {
    assert [a, b][2..] == [] && Parents(h, [a, b]) == [h(a, b)] + Parents(h, []);
    assert [a, b, c][2..] == [c] && Parents(h, [a, b, c]) == [h(a, b), h(c, c)];
    assert [h(a, b), h(c, c)][2..] == [] && Parents(h, [h(a, b), h(c, c)]) == [h(h(a, b), h(c, c))] + Parents(h, []);
    assert RootOf(h, [a, b, c]) == RootOf(h, [h(a, b), h(c, c)]) == RootOf(h, [h(h(a, b), h(c, c))]);
    assert [a][1..] == [] && [b][1..] == [];
  }

  type Entry = seq<Keyed<Bson>>

  type EntryHash = Bytes -> Digest

  function EntryDigests(e: EntryHash, entries: seq<Entry>): (r: seq<Digest>)
    ensures |r| == |entries|
    ensures forall i :: 0 <= i < |r| ==> r[i] == e(EntryBytes(entries[i]))
  {
    seq(|entries|, i requires 0 <= i < |entries| => e(EntryBytes(entries[i])))
  }

  /** What an epoch carries for its oplog range: the number of entries and the root over them. */
  datatype Commitment = Commitment(count: nat, root: Digest)

  function CommitmentOf(h: Hash, e: EntryHash, emptyRoot: Digest, entries: seq<Entry>): Commitment {
    Commitment(|entries|, TreeOf(h, EntryDigests(e, entries), emptyRoot).root)
  }

  /** `build_oplog_tree`: hashes the canonical bytes of every entry, then builds the tree. */
  method BuildOplogTree(h: Hash, e: EntryHash, emptyRoot: Digest, entries: seq<Entry>) returns (t: Tree)
    ensures Commitment(|t.leaves|, t.root) == CommitmentOf(h, e, emptyRoot, entries)
  {
    var leaves: seq<Digest> := [];
    for i := 0 to |entries|
      invariant |leaves| == i && DigestsOf(e, entries, leaves)
    {
      var bytes := CanonicalizeOplogEntry(entries[i]);
      OneMoreDigest(e, entries, leaves);
      leaves := leaves + [e(bytes)];
    }
    DigestsAre(e, entries, leaves);
    t := FromLeaves(h, leaves, emptyRoot);
  }

  /** The digests of the first entries. */
  ghost predicate DigestsOf(e: EntryHash, entries: seq<Entry>, leaves: seq<Digest>) {
    |leaves| <= |entries| && forall k :: 0 <= k < |leaves| ==> leaves[k] == e(EntryBytes(entries[k]))
  }

  lemma OneMoreDigest(e: EntryHash, entries: seq<Entry>, leaves: seq<Digest>)
    requires DigestsOf(e, entries, leaves) && |leaves| < |entries|
    ensures DigestsOf(e, entries, leaves + [e(EntryBytes(entries[|leaves|]))])
  {
  }

  lemma DigestsAre(e: EntryHash, entries: seq<Entry>, leaves: seq<Digest>)
    requires DigestsOf(e, entries, leaves) && |leaves| == |entries|
    ensures leaves == EntryDigests(e, entries)
  {
  }

  /** Entry by entry, the eight canonical fields mean the same. */
  ghost predicate SameMeaning(a: seq<Entry>, b: seq<Entry>) {
    |a| == |b| && forall i :: 0 <= i < |a| ==> SameFields(a[i], b[i])
  }

  /** The entry hash tells apart the canonical bytes of the two lists. */
  ghost predicate EntriesApart(e: EntryHash, a: seq<Entry>, b: seq<Entry>) {
    forall i, j :: 0 <= i < |a| && 0 <= j < |b| && e(EntryBytes(a[i])) == e(EntryBytes(b[j]))
      ==> EntryBytes(a[i]) == EntryBytes(b[j])
  }

  /**
   Two parties that hash an oplog range arrive at the same count and root exactly when they saw the same
   entries in the same order, up to what the canonical form leaves open: nothing can be omitted, added,
   reordered or altered. It is assumed only that what was hashed for the two lists does not collide.
   */
  lemma CommitmentEqualIff(h: Hash, s: Hashed, e: EntryHash, emptyRoot: Digest, a: seq<Entry>, b: seq<Entry>)
    requires CollisionFree(h, s) && EntriesApart(e, a, b)
    requires RootIn(h, s, EntryDigests(e, a)) && RootIn(h, s, EntryDigests(e, b))
    requires forall i :: 0 <= i < |a| ==> FieldsFitIn(a[i])
    requires forall i :: 0 <= i < |b| ==> FieldsFitIn(b[i])
    ensures CommitmentOf(h, e, emptyRoot, a) == CommitmentOf(h, e, emptyRoot, b) <==> SameMeaning(a, b)
  {
    var x, y := EntryDigests(e, a), EntryDigests(e, b);
    if |a| == |b| {
      forall i | 0 <= i < |a|
        ensures x[i] == y[i] <==> SameFields(a[i], b[i])
      {
        EntryFieldsIff(a[i], b[i]);
      }
      if CommitmentOf(h, e, emptyRoot, a) == CommitmentOf(h, e, emptyRoot, b) && a != [] {
        RootBindsList(h, s, x, y);
      }
      if SameMeaning(a, b) {
        assert x == y;
      }
    }
  }

  /** Every entry has a timestamp, and no two have the same, as it is in an oplog. */
  predicate Timestamped(entries: seq<Entry>) {
    && (forall i :: 0 <= i < |entries| ==> Stamp(entries[i]).Some?)
    && forall i, j :: 0 <= i < j < |entries| ==> Stamp(entries[i]) != Stamp(entries[j])
  }

  lemma TimestampedDigests(e: EntryHash, a: seq<Entry>)
    requires Timestamped(a) && EntriesApart(e, a, a)
    requires forall i :: 0 <= i < |a| ==> FieldsFitIn(a[i])
    ensures Distinct(EntryDigests(e, a))
  {
    forall i, j | 0 <= i < j < |a|
      ensures EntryDigests(e, a)[i] != EntryDigests(e, a)[j]
    {
      MeaningHasStamp(a[i], a[j]);
      EntryFieldsIff(a[i], a[j]);
    }
  }

  /**
   What a comparison of roots alone decides, which is all the program compares: for oplog ranges, whose
   entries have different timestamps, equal roots mean the same entries in the same order. It is assumed
   that what was hashed does not collide, entries with entries, pairs with pairs, pairs with entries, or
   either with the root of an empty range.
   */
  lemma RootAloneDecides(h: Hash, s: Hashed, e: EntryHash, emptyRoot: Digest, a: seq<Entry>, b: seq<Entry>)
    requires Timestamped(a) && Timestamped(b)
    requires CollisionFree(h, s) && EntriesApart(e, a, a) && EntriesApart(e, b, b) && EntriesApart(e, a, b)
    requires RootIn(h, s, EntryDigests(e, a)) && RootIn(h, s, EntryDigests(e, b))
    requires EntriesNotNodes(h, s, EntryDigests(e, a)) && EntriesNotNodes(h, s, EntryDigests(e, b))
    requires emptyRoot !in EntryDigests(e, a) && emptyRoot !in EntryDigests(e, b)
    requires forall x :: x in s ==> Parent(h, x) != emptyRoot
    requires forall i :: 0 <= i < |a| ==> FieldsFitIn(a[i])
    requires forall i :: 0 <= i < |b| ==> FieldsFitIn(b[i])
    ensures CommitmentOf(h, e, emptyRoot, a).root == CommitmentOf(h, e, emptyRoot, b).root <==> SameMeaning(a, b)
  {
    var x, y := EntryDigests(e, a), EntryDigests(e, b);
    CommitmentEqualIff(h, s, e, emptyRoot, a, b);
    if a != [] {
      NotEmptyRoot(h, s, x, emptyRoot);
    }
    if b != [] {
      NotEmptyRoot(h, s, y, emptyRoot);
    }
    if a != [] && b != [] {
      TimestampedDigests(e, a);
      TimestampedDigests(e, b);
      DistinctRootsIff(h, s, x, y);
    }
  }

  lemma NotEmptyRoot(h: Hash, s: Hashed, level: seq<Digest>, emptyRoot: Digest)
    requires level != [] && RootIn(h, s, level) && emptyRoot !in level
    requires forall x :: x in s ==> Parent(h, x) != emptyRoot
    ensures RootOf(h, level) != emptyRoot
  {
    if |level| > 1 {
      var x := FirstAbove(h, s, level, Depth(|level|));
    }
  }
}

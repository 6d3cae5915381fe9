/**
 The audit log's Merkle tree (zk-audit/src/merkle.rs), for an arbitrary two-to-one hash.

 A field element is an integer, the zero leaf is 0. What a root or a proof binds is stated for hashes
 that may well collide somewhere: it is enough that the pairs actually hashed, while computing the
 roots and paths in question, do not collide with each other.
 */
module Merkle {
  import opened Options

  type Fr = int

  type Hash = (Fr, Fr) -> Fr

  const ZERO: Fr := 0

  type Hashed = set<(Fr, Fr)>

  function Parent(h: Hash, p: (Fr, Fr)): Fr {
    h(p.0, p.1)
  }

  /** No two different pairs of the set have the same hash. */
  predicate CollisionFree(h: Hash, s: Hashed) {
    forall p, q {:trigger Parent(h, p), Parent(h, q)} :: p in s && q in s && Parent(h, p) == Parent(h, q) ==> p == q
  }

  lemma SameHash(h: Hash, s: Hashed, a: Fr, b: Fr, c: Fr, d: Fr)
    requires CollisionFree(h, s) && (a, b) in s && (c, d) in s && h(a, b) == h(c, d)
    ensures a == c && b == d
  {
    var p, q := (a, b), (c, d);
    assert Parent(h, p) == Parent(h, q);
  }

  function Pow2(n: nat): (p: nat)
    ensures p >= 1
  {
    if n == 0 then 1 else 2 * Pow2(n - 1)
  }

  // ----- The tree with every leaf written out: the reference -----

  type LeafMap = map<nat, Fr>

  /** The leaf at an index; an index without a leaf counts as the zero leaf. */
  function LeafAt(leaves: LeafMap, i: nat): Fr {
    if i in leaves then leaves[i] else ZERO
  }

  /** The hash of the full subtree of the given level that starts at leaf `i`. */
  function Dense(h: Hash, leaves: LeafMap, i: nat, level: nat): Fr
    decreases level
  {
    if level == 0 then LeafAt(leaves, i)
    else h(Dense(h, leaves, i, level - 1), Dense(h, leaves, i + Pow2(level - 1), level - 1))
  }

  /** Every pair hashed on the way to that hash is in `s`. */
  predicate HashedIn(h: Hash, s: Hashed, leaves: LeafMap, i: nat, level: nat)
    decreases level
  {
    level == 0 || (
      && (Dense(h, leaves, i, level - 1), Dense(h, leaves, i + Pow2(level - 1), level - 1)) in s
      && HashedIn(h, s, leaves, i, level - 1) && HashedIn(h, s, leaves, i + Pow2(level - 1), level - 1))
  }

  /** Four leaves, an absent one as zero: the left one of a pair is hashed first. */
  lemma FourLeaves(h: Hash, leaves: LeafMap, i: nat, a: Fr, b: Fr, c: Fr, d: Fr)
    requires a == (if i in leaves then leaves[i] else 0) && b == (if i + 1 in leaves then leaves[i + 1] else 0)
    requires c == (if i + 2 in leaves then leaves[i + 2] else 0) && d == (if i + 3 in leaves then leaves[i + 3] else 0)
    ensures Dense(h, leaves, i, 2) == h(h(a, b), h(c, d))
  {
    assert Pow2(0) == 1 && Pow2(1) == 2;
    assert Dense(h, leaves, i, 1) == h(a, b) && Dense(h, leaves, i + 2, 1) == h(c, d);
  }

  // ----- The sparse computation -----

  function ZeroHash(h: Hash, level: nat): Fr {
    if level == 0 then ZERO else h(ZeroHash(h, level - 1), ZeroHash(h, level - 1))
  }

  /** `compute_zero_hashes`: fills the table from the bottom up. */
  method ComputeZeroHashes(h: Hash, height: nat) returns (zeroHashes: seq<Fr>)
    ensures |zeroHashes| == height + 1 && forall l :: 0 <= l <= height ==> zeroHashes[l] == ZeroHash(h, l)
  {
    zeroHashes := seq(height + 1, _ => ZERO);
    for l := 1 to height + 1
      invariant |zeroHashes| == height + 1 && forall k :: 0 <= k < l ==> zeroHashes[k] == ZeroHash(h, k)
    {
      zeroHashes := zeroHashes[l := h(zeroHashes[l - 1], zeroHashes[l - 1])];
    }
  }

  predicate Occupied(leaves: LeafMap, i: nat, level: nat) {
    exists k :: k in leaves && i <= k < i + Pow2(level)
  }

  /** `compute_subtree_hash`: a subtree without leaves is looked up instead of computed. */
  function SubtreeHash(h: Hash, leaves: LeafMap, i: nat, level: nat, zeroHashes: seq<Fr>): Fr
    requires level < |zeroHashes|
    decreases level
  {
    if level == 0 then LeafAt(leaves, i)
    else if !Occupied(leaves, i, level) then zeroHashes[level]
    else h(SubtreeHash(h, leaves, i, level - 1, zeroHashes),
      SubtreeHash(h, leaves, i + Pow2(level - 1), level - 1, zeroHashes))
  }

  predicate ZeroTable(h: Hash, zeroHashes: seq<Fr>) {
    forall l :: 0 <= l < |zeroHashes| ==> zeroHashes[l] == ZeroHash(h, l)
  }

  lemma {:induction false} EmptyIsZero(h: Hash, leaves: LeafMap, i: nat, level: nat)
    requires !Occupied(leaves, i, level)
    ensures Dense(h, leaves, i, level) == ZeroHash(h, level)
    decreases level
  {
    if level > 0 {
      EmptyIsZero(h, leaves, i, level - 1);
      EmptyIsZero(h, leaves, i + Pow2(level - 1), level - 1);
    } else {
      assert Pow2(0) == 1;
    }
  }

  /** The shortcut for empty subtrees does not change any hash. */
  lemma {:induction false} SparseIsDense(h: Hash, leaves: LeafMap, i: nat, level: nat, zeroHashes: seq<Fr>)
    requires level < |zeroHashes| && ZeroTable(h, zeroHashes)
    ensures SubtreeHash(h, leaves, i, level, zeroHashes) == Dense(h, leaves, i, level)
    decreases level
  {
    if level > 0 {
      if !Occupied(leaves, i, level) {
        EmptyIsZero(h, leaves, i, level);
      } else {
        SparseIsDense(h, leaves, i, level - 1, zeroHashes);
        SparseIsDense(h, leaves, i + Pow2(level - 1), level - 1, zeroHashes);
      }
    }
  }

  // ----- Proofs of inclusion -----

  datatype InclusionProof = InclusionProof(leaf: Fr, leafIndex: nat, pathElements: seq<Fr>, pathIndices: seq<nat>,
                                           root: Fr)

  /** The root an authentication path leads to. */
  function Climb(h: Hash, current: Fr, elements: seq<Fr>, bits: seq<nat>): Fr
    requires |elements| == |bits| && forall k :: 0 <= k < |bits| ==> bits[k] < 2
    decreases |bits|
  {
    if bits == [] then current
    else if bits[0] == 0 then Climb(h, h(current, elements[0]), elements[1..], bits[1..])
    else Climb(h, h(elements[0], current), elements[1..], bits[1..])
  }

  /** Every pair hashed along the path is in `s`. */
  predicate ClimbIn(h: Hash, s: Hashed, current: Fr, elements: seq<Fr>, bits: seq<nat>)
    requires |elements| == |bits| && forall k :: 0 <= k < |bits| ==> bits[k] < 2
    decreases |bits|
  {
    bits == [] || (
      var p := if bits[0] == 0 then (current, elements[0]) else (elements[0], current);
      p in s && ClimbIn(h, s, h(p.0, p.1), elements[1..], bits[1..]))
  }

  /** One step of a path: bit 0 has the node on the left, bit 1 on the right. */
  lemma OneStep(h: Hash, node: Fr, e: Fr)
    ensures Climb(h, node, [], []) == node
    ensures Climb(h, node, [e], [0]) == h(node, e) && Climb(h, node, [e], [1]) == h(e, node)
  {
    assert [e][1..] == [];
  }

  datatype Verdict = Malformed | Checked(ok: bool)

  /** `InclusionProof::verify`: errors for unequal lengths, and at the first direction that is not a bit. */
  method Verify(h: Hash, proof: InclusionProof) returns (v: Verdict)
    ensures v.Malformed? <==>
      || |proof.pathElements| != |proof.pathIndices|
      || exists k :: 0 <= k < |proof.pathIndices| && proof.pathIndices[k] >= 2
    ensures v.Checked? ==> v.ok == (Climb(h, proof.leaf, proof.pathElements, proof.pathIndices) == proof.root)
  {
    if |proof.pathElements| != |proof.pathIndices| {
      return Malformed;
    }
    var current := proof.leaf;
    var elements, bits := proof.pathElements, proof.pathIndices;
    var n := 0;
    while n < |bits|
      invariant 0 <= n <= |bits|
      invariant forall k :: 0 <= k < n ==> bits[k] < 2
      invariant (forall k :: 0 <= k < |bits| ==> bits[k] < 2) ==>
        Climb(h, current, elements[n..], bits[n..]) == Climb(h, proof.leaf, elements, bits)
    {
      var sibling, dir := elements[n], bits[n];
      assert elements[n..][1..] == elements[n + 1..] && bits[n..][1..] == bits[n + 1..];
      if dir == 0 {
        current := h(current, sibling);
      } else if dir == 1 {
        current := h(sibling, current);
      } else {
        return Malformed;
      }
      n := n + 1;
    }
    return Checked(current == proof.root);
  }

  /** The index whose binary digits, least significant first, are the direction bits. */
  function Position(bits: seq<nat>): nat {
    if bits == [] then 0 else bits[0] + 2 * Position(bits[1..])
  }

  /** The first leaf of the `idx`-th subtree of a level: `idx << level`. */
  function Start(idx: nat, level: nat): (r: nat)
    ensures r == idx * Pow2(level)
  {
    assert idx * Pow2(level) >= 0;
    idx * Pow2(level)
  }

  /** The first leaf of the subtree of the given level that contains leaf `i`. */
  function BlockStart(i: nat, level: nat): nat {
    Start(Quotient(i, Pow2(level)), level)
  }

  function Quotient(n: nat, d: nat): nat
    requires d >= 1
  {
    n / d
  }

  // ----- The tree -----

  /** Later insertions at an index replace earlier ones. */
  function LookupMap(leaves: seq<(nat, Fr)>): LeafMap {
    if leaves == [] then map[]
    else LookupMap(leaves[..|leaves| - 1])[leaves[|leaves| - 1].0 := leaves[|leaves| - 1].1]
  }

  class AuditMerkleTree {
    const height: nat
    const hash: Hash
    const zeroHashes: seq<Fr>
    var leaves: seq<(nat, Fr)>

    ghost predicate Valid() {
      |zeroHashes| == height + 1 && ZeroTable(hash, zeroHashes)
    }

    constructor (hash: Hash, height: nat)
      ensures Valid() && leaves == [] && this.hash == hash && this.height == height
    {
      this.height, this.hash, this.leaves := height, hash, [];
      var table := ComputeZeroHashes(hash, height);
      zeroHashes := table;
    }

    method Insert(value: Fr) returns (index: nat)
      modifies this
      ensures index == |old(leaves)| && leaves == old(leaves) + [(index, value)]
    {
      index := |leaves|;
      leaves := leaves + [(index, value)];
    }

    method InsertAt(index: nat, value: Fr)
      modifies this
      ensures leaves == old(leaves) + [(index, value)]
      ensures LookupMap(leaves) == LookupMap(old(leaves))[index := value]
    {
      leaves := leaves + [(index, value)];
      assert leaves[..|leaves| - 1] == old(leaves);
    }

    method BuildMap() returns (leafMap: LeafMap)
      ensures leafMap == LookupMap(leaves)
    {
      leafMap := map[];
      for k := 0 to |leaves|
        invariant leafMap == LookupMap(leaves[..k])
      {
        assert leaves[..k + 1][..k] == leaves[..k];
        leafMap := leafMap[leaves[k].0 := leaves[k].1];
      }
      assert leaves[..|leaves|] == leaves;
    }

    /** The root is the hash of the full tree with every leaf written out. */
    method Root() returns (root: Fr)
      requires Valid()
      ensures root == Dense(hash, LookupMap(leaves), 0, height)
    {
      if leaves == [] {
        EmptyIsZero(hash, map[], 0, height);
        return zeroHashes[height];
      }
      var leafMap := BuildMap();
      SparseIsDense(hash, leafMap, 0, height, zeroHashes);
      return SubtreeHash(hash, leafMap, 0, height, zeroHashes);
    }

    /** The hash of the `idx`-th subtree of a level. */
    method NodeHash(leafMap: LeafMap, idx: nat, level: nat) returns (r: Fr)
      requires Valid() && level <= height
      ensures r == Dense(hash, leafMap, Start(idx, level), level)
    {
      SparseIsDense(hash, leafMap, Start(idx, level), level, zeroHashes);
      if level == 0 {
        assert Pow2(0) == 1;
        return LeafAt(leafMap, idx);
      }
      return SubtreeHash(hash, leafMap, Start(idx, level), level, zeroHashes);
    }

    /**
     A proof exists exactly for an index with a leaf. It carries that leaf, its path has the height's
     length and spells the index modulo the capacity, it verifies, and its root is the root of the
     block of leaves that contains the index.
     */
    method ProveInclusion(leafIndex: nat) returns (r: Option<InclusionProof>)
      requires Valid()
      ensures r.Some? <==> leafIndex in LookupMap(leaves)
      ensures r.Some? ==> var p := r.value;
        && p.leaf == LookupMap(leaves)[leafIndex] && p.leafIndex == leafIndex
        && |p.pathElements| == |p.pathIndices| == height
        && (forall k :: 0 <= k < height ==> p.pathIndices[k] < 2)
        && Position(p.pathIndices) == leafIndex % Pow2(height)
        && Climb(hash, p.leaf, p.pathElements, p.pathIndices) == p.root
        && p.root == Dense(hash, LookupMap(leaves), BlockStart(leafIndex, height), height)
    {
      var leafMap := BuildMap();
      if leafIndex !in leafMap {
        return None;
      }
      var leaf := leafMap[leafIndex];
      var elements: seq<Fr>, bits: seq<nat> := [], [];
      var current, idx := leaf, leafIndex;
      PathStart(hash, leafMap, leafIndex);
      for level := 0 to height
        invariant PathTo(hash, leafMap, leafIndex, idx, level, leaf, elements, bits, current)
      {
        var sibling := NodeHash(leafMap, if idx % 2 == 0 then idx + 1 else idx - 1, level);
        PathUp(hash, leafMap, leafIndex, idx, level, leaf, elements, bits, current, sibling);
        elements, bits := elements + [sibling], bits + [if idx % 2 == 0 then 0 else 1];
        current := if idx % 2 == 0 then hash(current, sibling) else hash(sibling, current);
        idx := idx / 2;
      }
      PathDone(hash, leafMap, leafIndex, idx, height, leaf, elements, bits, current);
      return Some(InclusionProof(leaf, leafIndex, elements, bits, current));
    }
  }

  /** From a subtree and its sibling to the parent. */
  lemma LevelUp(h: Hash, leaves: LeafMap, idx: nat, level: nat)
    ensures idx % 2 == 0 ==>
      Dense(h, leaves, Start(idx / 2, level + 1), level + 1)
      == h(Dense(h, leaves, Start(idx, level), level), Dense(h, leaves, Start(idx + 1, level), level))
    ensures idx % 2 == 1 ==>
      Dense(h, leaves, Start(idx / 2, level + 1), level + 1)
      == h(Dense(h, leaves, Start(idx - 1, level), level), Dense(h, leaves, Start(idx, level), level))
    ensures Start(idx, level) == Start(idx / 2, level + 1) + idx % 2 * Pow2(level)
  {
    Halves(idx, Pow2(level));
    assert Pow2(level + 1) == 2 * Pow2(level);
  }

  lemma Halves(idx: nat, p: nat)
    ensures idx * p == idx / 2 * (2 * p) + idx % 2 * p
    ensures (idx + 1) * p == idx * p + p && (idx - 1) * p == idx * p - p
    ensures idx % 2 == 0 ==> idx / 2 * (2 * p) == idx * p
    ensures idx % 2 == 1 ==> idx / 2 * (2 * p) == (idx - 1) * p
  {
    var q, b := idx / 2, idx % 2;
    assert idx == 2 * q + b;
    assert q * (2 * p) == 2 * q * p;
    assert b == 0 || b == 1;
  }

  /** The invariant of `prove_inclusion`: the path so far leads from the leaf to the subtree that contains it. */
  ghost predicate PathTo(h: Hash, leaves: LeafMap, leafIndex: nat, idx: nat, level: nat,
                         leaf: Fr, elements: seq<Fr>, bits: seq<nat>, current: Fr) {
    && |elements| == |bits| == level
    && (forall k :: 0 <= k < level ==> bits[k] < 2)
    && current == Dense(h, leaves, Start(idx, level), level)
    && Climb(h, leaf, elements, bits) == current
    && Position(bits) + Start(idx, level) == leafIndex
  }

  lemma PathStart(h: Hash, leaves: LeafMap, leafIndex: nat)
    requires leafIndex in leaves
    ensures PathTo(h, leaves, leafIndex, leafIndex, 0, leaves[leafIndex], [], [], leaves[leafIndex])
  {
    assert Pow2(0) == 1;
  }

  lemma PathDone(h: Hash, leaves: LeafMap, leafIndex: nat, idx: nat, height: nat,
                 leaf: Fr, elements: seq<Fr>, bits: seq<nat>, current: Fr)
    requires PathTo(h, leaves, leafIndex, idx, height, leaf, elements, bits, current)
    ensures Position(bits) == leafIndex % Pow2(height)
    ensures current == Dense(h, leaves, BlockStart(leafIndex, height), height)
  {
    PositionModulo(idx, leafIndex, height, bits);
  }

  lemma PathUp(h: Hash, leaves: LeafMap, leafIndex: nat, idx: nat, level: nat,
               leaf: Fr, elements: seq<Fr>, bits: seq<nat>, current: Fr, sibling: Fr)
    requires PathTo(h, leaves, leafIndex, idx, level, leaf, elements, bits, current)
    requires sibling == Dense(h, leaves, Start(if idx % 2 == 0 then idx + 1 else idx - 1, level), level)
    ensures PathTo(h, leaves, leafIndex, idx / 2, level + 1, leaf,
                   elements + [sibling], bits + [if idx % 2 == 0 then 0 else 1],
                   if idx % 2 == 0 then h(current, sibling) else h(sibling, current))
  {
    LevelUp(h, leaves, idx, level);
    ClimbSnoc(h, leaf, elements, bits, sibling, idx % 2);
    PositionSnoc(bits, idx % 2);
    assert idx % 2 == if idx % 2 == 0 then 0 else 1;
  }

  lemma MulStep(a: int, b: int, d: nat)
    ensures a > b ==> a * d >= b * d + d
  {
    var e := a - b - 1;
    assert (b + 1 + e) * d == b * d + d + e * d;
    assert e >= 0 ==> e * d >= 0;
  }

  lemma QuotientIs(n: nat, d: nat, k: nat, r: nat)
    requires d >= 1 && n == k * d + r && r < d
    ensures n / d == k && n % d == r
  {
    MulStep(n / d, k, d);
    MulStep(k, n / d, d);
    assert n == n / d * d + n % d;
  }

  lemma {:induction false} ClimbSnoc(h: Hash, current: Fr, elements: seq<Fr>, bits: seq<nat>, e: Fr, b: nat)
    requires |elements| == |bits| && b < 2 && forall k :: 0 <= k < |bits| ==> bits[k] < 2
    ensures var below := Climb(h, current, elements, bits);
      Climb(h, current, elements + [e], bits + [b]) == if b == 0 then h(below, e) else h(e, below)
    decreases |bits|
  {
    if bits != [] {
      assert (elements + [e])[1..] == elements[1..] + [e] && (bits + [b])[1..] == bits[1..] + [b];
      var up := if bits[0] == 0 then h(current, elements[0]) else h(elements[0], current);
      ClimbSnoc(h, up, elements[1..], bits[1..], e, b);
    }
  }

  lemma {:induction false} ClimbInSnoc(h: Hash, s: Hashed, current: Fr, elements: seq<Fr>, bits: seq<nat>, e: Fr,
                                       b: nat)
    requires |elements| == |bits| && b < 2 && forall k :: 0 <= k < |bits| ==> bits[k] < 2
    ensures var below := Climb(h, current, elements, bits);
      ClimbIn(h, s, current, elements + [e], bits + [b])
      <==> ClimbIn(h, s, current, elements, bits) && (if b == 0 then (below, e) else (e, below)) in s
    decreases |bits|
  {
    if bits == [] {
      assert (elements + [e])[1..] == [] && (bits + [b])[1..] == [];
    } else {
      assert (elements + [e])[1..] == elements[1..] + [e] && (bits + [b])[1..] == bits[1..] + [b];
      var up := if bits[0] == 0 then h(current, elements[0]) else h(elements[0], current);
      ClimbInSnoc(h, s, up, elements[1..], bits[1..], e, b);
    }
  }

  lemma {:induction false} PositionSnoc(bits: seq<nat>, b: nat)
    ensures Position(bits + [b]) == Position(bits) + b * Pow2(|bits|)
  {
    if bits != [] {
      assert (bits + [b])[1..] == bits[1..] + [b];
      PositionSnoc(bits[1..], b);
      var p := Pow2(|bits| - 1);
      assert Pow2(|bits|) == 2 * p;
      assert b * (2 * p) == 2 * (b * p);
    }
  }

  lemma {:induction false} PositionBound(bits: seq<nat>)
    requires forall k :: 0 <= k < |bits| ==> bits[k] < 2
    ensures Position(bits) < Pow2(|bits|)
  {
    if bits != [] {
      PositionBound(bits[1..]);
    }
  }

  lemma PositionModulo(idx: nat, leafIndex: nat, height: nat, bits: seq<nat>)
    requires |bits| == height && forall k :: 0 <= k < |bits| ==> bits[k] < 2
    requires Position(bits) + Start(idx, height) == leafIndex
    ensures Position(bits) == leafIndex % Pow2(height) && Start(idx, height) == BlockStart(leafIndex, height)
  {
    PositionBound(bits);
    QuotientIs(leafIndex, Pow2(height), idx, Position(bits));
  }

  // ----- What a root and a proof bind -----

  /** The `k`-th leaf from `i` on. */
  function Nth(leaves: LeafMap, i: nat, k: nat): Fr {
    LeafAt(leaves, i + k)
  }

  /** `n` leaves from `i` on in one tree equal `n` leaves from `j` on in the other. */
  predicate SameLeaves(a: LeafMap, i: nat, b: LeafMap, j: nat, n: nat) {
    forall k :: 0 <= k < n ==> Nth(a, i, k) == Nth(b, j, k)
  }

  lemma SameLeavesHalves(a: LeafMap, i: nat, b: LeafMap, j: nat, n: nat)
    ensures SameLeaves(a, i, b, j, 2 * n) <==> SameLeaves(a, i, b, j, n) && SameLeaves(a, i + n, b, j + n, n)
  {
    if SameLeaves(a, i, b, j, 2 * n) {
      var i', j' := i + n, j + n;
      forall k | 0 <= k < n
        ensures Nth(a, i', k) == Nth(b, j', k)
      {
        assert Nth(a, i, n + k) == Nth(b, j, n + k);
      }
    }
    if SameLeaves(a, i, b, j, n) && SameLeaves(a, i + n, b, j + n, n) {
      forall k | 0 <= k < 2 * n
        ensures Nth(a, i, k) == Nth(b, j, k)
      {
        if k >= n {
          assert Nth(a, i + n, k - n) == Nth(b, j + n, k - n);
        }
      }
    }
  }

  lemma SameLeavesUp(a: LeafMap, i: nat, b: LeafMap, j: nat, n: nat)
    ensures SameLeaves(a, i, b, j, Pow2(n + 1))
      <==> SameLeaves(a, i, b, j, Pow2(n)) && SameLeaves(a, i + Pow2(n), b, j + Pow2(n), Pow2(n))
  {
    SameLeavesHalves(a, i, b, j, Pow2(n));
  }

  /** Two subtrees, all of whose hashed pairs are in `s`, with the same hash. */
  predicate Agree(h: Hash, s: Hashed, a: LeafMap, i: nat, b: LeafMap, j: nat, level: nat) {
    && HashedIn(h, s, a, i, level) && HashedIn(h, s, b, j, level)
    && Dense(h, a, i, level) == Dense(h, b, j, level)
  }

  /** Their halves agree too. */
  lemma AgreeHalves(h: Hash, s: Hashed, a: LeafMap, i: nat, b: LeafMap, j: nat, n: nat)
    requires CollisionFree(h, s) && Agree(h, s, a, i, b, j, n + 1)
    ensures Agree(h, s, a, i, b, j, n) && Agree(h, s, a, i + Pow2(n), b, j + Pow2(n), n)
  {
    SameHash(h, s, Dense(h, a, i, n), Dense(h, a, i + Pow2(n), n), Dense(h, b, j, n), Dense(h, b, j + Pow2(n), n));
  }

  /** `SameLeaves` along the tree: the two halves, and at the bottom a single leaf. */
  predicate SameTree(a: LeafMap, i: nat, b: LeafMap, j: nat, level: nat)
    decreases level
  {
    if level == 0 then LeafAt(a, i) == LeafAt(b, j)
    else SameTree(a, i, b, j, level - 1) && SameTree(a, i + Pow2(level - 1), b, j + Pow2(level - 1), level - 1)
  }

  lemma {:induction false} SameTreeIff(a: LeafMap, i: nat, b: LeafMap, j: nat, level: nat)
    ensures SameTree(a, i, b, j, level) <==> SameLeaves(a, i, b, j, Pow2(level))
    decreases level
  {
    if level == 0 {
      assert Nth(a, i, 0) == LeafAt(a, i) && Nth(b, j, 0) == LeafAt(b, j);
    } else {
      var i', j' := i + Pow2(level - 1), j + Pow2(level - 1);
      SameTreeIff(a, i, b, j, level - 1);
      SameTreeIff(a, i', b, j', level - 1);
      SameLeavesUp(a, i, b, j, level - 1);
    }
  }

  lemma {:induction false} RootBindsTree(h: Hash, s: Hashed, a: LeafMap, i: nat, b: LeafMap, j: nat, level: nat)
    requires CollisionFree(h, s) && Agree(h, s, a, i, b, j, level)
    ensures SameTree(a, i, b, j, level)
    decreases level, 0
  {
    if level > 0 {
      RootBindsHalves(h, s, a, i, b, j, level - 1);
    }
  }

  lemma {:induction false} RootBindsHalves(h: Hash, s: Hashed, a: LeafMap, i: nat, b: LeafMap, j: nat, n: nat)
    requires CollisionFree(h, s) && Agree(h, s, a, i, b, j, n + 1)
    ensures SameTree(a, i, b, j, n) && SameTree(a, i + Pow2(n), b, j + Pow2(n), n)
    decreases n, 1
  {
    AgreeHalves(h, s, a, i, b, j, n);
    RootBindsTree(h, s, a, i, b, j, n);
    RootBindsTree(h, s, a, i + Pow2(n), b, j + Pow2(n), n);
  }

  lemma {:induction false} TreeGivesRoot(h: Hash, a: LeafMap, i: nat, b: LeafMap, j: nat, level: nat)
    requires SameTree(a, i, b, j, level)
    ensures Dense(h, a, i, level) == Dense(h, b, j, level)
    decreases level
  {
    if level > 0 {
      var i', j' := i + Pow2(level - 1), j + Pow2(level - 1);
      TreeGivesRoot(h, a, i, b, j, level - 1);
      TreeGivesRoot(h, a, i', b, j', level - 1);
    }
  }

  /** Equal subtree hashes mean equal leaves, one by one, if the pairs hashed do not collide. */
  lemma RootBindsLeaves(h: Hash, s: Hashed, a: LeafMap, i: nat, b: LeafMap, j: nat, level: nat)
    requires CollisionFree(h, s) && HashedIn(h, s, a, i, level) && HashedIn(h, s, b, j, level)
    ensures Dense(h, a, i, level) == Dense(h, b, j, level) <==> SameLeaves(a, i, b, j, Pow2(level))
  {
    SameTreeIff(a, i, b, j, level);
    if Dense(h, a, i, level) == Dense(h, b, j, level) {
      RootBindsTree(h, s, a, i, b, j, level);
    } else if SameTree(a, i, b, j, level) {
      TreeGivesRoot(h, a, i, b, j, level);
    }
  }

  /** A log: leaves appended one after the other. */
  function Appended(values: seq<Fr>): LeafMap {
    map i: nat | i < |values| :: values[i]
  }

  /** Two logs of non-zero leaves within the capacity have the same root exactly when they are equal. */
  lemma LogRootsEqualIff(h: Hash, s: Hashed, height: nat, v: seq<Fr>, w: seq<Fr>)
    requires CollisionFree(h, s)
    requires HashedIn(h, s, Appended(v), 0, height) && HashedIn(h, s, Appended(w), 0, height)
    requires |v| <= Pow2(height) && |w| <= Pow2(height)
    requires ZERO !in v && ZERO !in w
    ensures Dense(h, Appended(v), 0, height) == Dense(h, Appended(w), 0, height) <==> v == w
  {
    if Dense(h, Appended(v), 0, height) == Dense(h, Appended(w), 0, height) {
      RootBindsLeaves(h, s, Appended(v), 0, Appended(w), 0, height);
      SameLog(v, w, Pow2(height));
    }
  }

  lemma SameLog(v: seq<Fr>, w: seq<Fr>, n: nat)
    requires |v| <= n && |w| <= n && ZERO !in v && ZERO !in w
    requires SameLeaves(Appended(v), 0, Appended(w), 0, n)
    ensures v == w
  {
    assert forall k :: 0 <= k < n ==> Nth(Appended(v), 0, k) == if k < |v| then v[k] else ZERO;
    assert forall k :: 0 <= k < n ==> Nth(Appended(w), 0, k) == if k < |w| then w[k] else ZERO;
    assert forall k :: 0 <= k < n ==> (k < |v| <==> Nth(Appended(v), 0, k) != ZERO);
    assert forall k :: 0 <= k < n ==> (k < |w| <==> Nth(Appended(w), 0, k) != ZERO);
    assert |v| < n ==> Nth(Appended(v), 0, |v|) == ZERO;
    assert |w| < n ==> Nth(Appended(w), 0, |w|) == ZERO;
    assert |v| == |w|;
    assert forall k :: 0 <= k < |v| ==> Nth(Appended(v), 0, k) == v[k];
  }

  lemma LastStep(h: Hash, s: Hashed, below: Fr, e: Fr, b: nat, left: Fr, right: Fr)
    requires CollisionFree(h, s) && (left, right) in s && (if b == 0 then (below, e) else (e, below)) in s
    requires (if b == 0 then h(below, e) else h(e, below)) == h(left, right)
    ensures below == if b == 0 then left else right
  {
    if b == 0 {
      SameHash(h, s, below, e, left, right);
    } else {
      SameHash(h, s, e, below, left, right);
    }
  }

  lemma {:induction false} Pow2Add(m: nat, n: nat)
    ensures Pow2(m) * Pow2(n) == Pow2(m + n)
  {
    if m > 0 {
      Pow2Add(m - 1, n);
      assert 2 * Pow2(m - 1) * Pow2(n) == 2 * (Pow2(m - 1) * Pow2(n));
    }
  }

  /** The node of the tree over `2^height` leaves from `i` on, at the end of a path from its root. */
  function NodeAt(h: Hash, leaves: LeafMap, i: nat, height: nat, bits: seq<nat>): Fr
    requires |bits| <= height
  {
    Dense(h, leaves, i + Start(Position(bits), height - |bits|), height - |bits|)
  }

  /**
   Soundness of verification, which checks neither the length of a path nor the index: a path to the
   root of a tree starts at the node which stands at the position the direction bits spell, as many levels
   below the root as the path is long.
   */
  lemma {:induction false} ClimbSound(h: Hash, s: Hashed, leaves: LeafMap, i: nat, height: nat,
                                      leaf: Fr, elements: seq<Fr>, bits: seq<nat>)
    requires |elements| == |bits| <= height && forall k :: 0 <= k < |bits| ==> bits[k] < 2
    requires CollisionFree(h, s) && HashedIn(h, s, leaves, i, height) && ClimbIn(h, s, leaf, elements, bits)
    requires Climb(h, leaf, elements, bits) == Dense(h, leaves, i, height)
    ensures leaf == NodeAt(h, leaves, i, height, bits)
    decreases height
  {
    if bits == [] {
      assert elements == [];
    } else {
      var n, k := height - 1, |bits| - 1;
      var j := ClimbDown(h, s, leaves, i, n, leaf, elements, bits);
      ClimbSound(h, s, leaves, j, n, leaf, elements[..k], bits[..k]);
      SameNode(h, leaves, i, j, bits, bits[..k], n - k);
    }
  }

  lemma SameNode(h: Hash, leaves: LeafMap, i: nat, j: nat, bits: seq<nat>, front: seq<nat>, m: nat)
    requires i + Start(Position(bits), m) == j + Start(Position(front), m)
    ensures NodeAt(h, leaves, i, |bits| + m, bits) == NodeAt(h, leaves, j, |front| + m, front)
  {
    NodeIs(h, leaves, i, |bits| + m, bits, m);
    NodeIs(h, leaves, j, |front| + m, front, m);
  }

  lemma NodeIs(h: Hash, leaves: LeafMap, i: nat, height: nat, bits: seq<nat>, m: nat)
    requires |bits| + m == height
    ensures NodeAt(h, leaves, i, height, bits) == Dense(h, leaves, i + Start(Position(bits), m), m)
  {
  }

  /** The path without its last step, in the half of the tree where it ends. */
  lemma ClimbDown(h: Hash, s: Hashed, leaves: LeafMap, i: nat, n: nat, leaf: Fr, elements: seq<Fr>, bits: seq<nat>)
    returns (j: nat)
    requires 0 < |elements| == |bits| <= n + 1 && forall k :: 0 <= k < |bits| ==> bits[k] < 2
    requires CollisionFree(h, s) && HashedIn(h, s, leaves, i, n + 1) && ClimbIn(h, s, leaf, elements, bits)
    requires Climb(h, leaf, elements, bits) == Dense(h, leaves, i, n + 1)
    ensures var k := |bits| - 1;
      && (forall m :: 0 <= m < k ==> bits[..k][m] < 2)
      && Climb(h, leaf, elements[..k], bits[..k]) == Dense(h, leaves, j, n)
      && HashedIn(h, s, leaves, j, n) && ClimbIn(h, s, leaf, elements[..k], bits[..k])
      && i + Start(Position(bits), n - k) == j + Start(Position(bits[..k]), n - k)
  {
    var k := |bits| - 1;
    assert elements == elements[..k] + [elements[k]] && bits == bits[..k] + [bits[k]];
    assert forall m :: 0 <= m < k ==> bits[..k][m] == bits[m];
    j := ClimbTop(h, s, leaves, i, n, leaf, elements[..k], bits[..k], elements[k], bits[k]);
  }

  /** The last step of a path tells in which half of the tree the rest of it ends. */
  lemma ClimbTop(h: Hash, s: Hashed, leaves: LeafMap, i: nat, n: nat, leaf: Fr, elements: seq<Fr>, bits: seq<nat>,
                 e: Fr, b: nat)
    returns (j: nat)
    requires |elements| == |bits| <= n && b < 2 && forall k :: 0 <= k < |bits| ==> bits[k] < 2
    requires CollisionFree(h, s) && HashedIn(h, s, leaves, i, n + 1) && ClimbIn(h, s, leaf, elements + [e], bits + [b])
    requires Climb(h, leaf, elements + [e], bits + [b]) == Dense(h, leaves, i, n + 1)
    ensures Climb(h, leaf, elements, bits) == Dense(h, leaves, j, n)
    ensures HashedIn(h, s, leaves, j, n) && ClimbIn(h, s, leaf, elements, bits)
    ensures i + Start(Position(bits + [b]), n - |bits|) == j + Start(Position(bits), n - |bits|)
  {
    ClimbSnoc(h, leaf, elements, bits, e, b);
    ClimbInSnoc(h, s, leaf, elements, bits, e, b);
    LastStep(h, s, Climb(h, leaf, elements, bits), e, b, Dense(h, leaves, i, n), Dense(h, leaves, i + Pow2(n), n));
    if b == 0 {
      TopZero(bits, n - |bits|);
      j := i;
    } else {
      TopOne(bits, n - |bits|);
      j := i + Pow2(n);
    }
  }

  lemma TopZero(bits: seq<nat>, m: nat)
    ensures Start(Position(bits + [0]), m) == Start(Position(bits), m)
  {
    PositionTop(bits, 0);
  }

  lemma TopOne(bits: seq<nat>, m: nat)
    ensures Start(Position(bits + [1]), m) == Start(Position(bits), m) + Pow2(|bits| + m)
  {
    PositionTop(bits, 1);
    StartShifted(Position(bits), |bits|, m);
  }

  lemma {:induction false} PositionTop(bits: seq<nat>, b: nat)
    requires b < 2
    ensures Position(bits + [b]) == Position(bits) + if b == 0 then 0 else Pow2(|bits|)
  {
    if bits != [] {
      assert (bits + [b])[1..] == bits[1..] + [b];
      PositionTop(bits[1..], b);
      assert Pow2(|bits|) == 2 * Pow2(|bits| - 1);
    }
  }

  lemma StartShifted(x: nat, k: nat, m: nat)
    ensures Start(x + Pow2(k), m) == Start(x, m) + Pow2(k + m)
  {
    Pow2Add(k, m);
    Distributes(x, Pow2(k), Pow2(m));
  }

  lemma Distributes(x: nat, p: nat, d: nat)
    ensures (x + p) * d == x * d + p * d
  {
  }

  /** At the height's length, the node is a leaf. */
  lemma LeafNode(h: Hash, leaves: LeafMap, i: nat, bits: seq<nat>)
    ensures NodeAt(h, leaves, i, |bits|, bits) == LeafAt(leaves, i + Position(bits))
  {
    assert Pow2(0) == 1;
  }

  /** A path longer than the height starts below the leaves: a leaf of the tree is the hash of a pair. */
  lemma {:induction false} LongPath(h: Hash, s: Hashed, leaves: LeafMap, i: nat, height: nat,
                                    leaf: Fr, elements: seq<Fr>, bits: seq<nat>)
    requires |elements| == |bits| > height && forall k :: 0 <= k < |bits| ==> bits[k] < 2
    requires CollisionFree(h, s) && HashedIn(h, s, leaves, i, height) && ClimbIn(h, s, leaf, elements, bits)
    requires Climb(h, leaf, elements, bits) == Dense(h, leaves, i, height)
    ensures exists x, k :: x in s && i <= k < i + Pow2(height) && Parent(h, x) == LeafAt(leaves, k)
    decreases |bits|
  {
    var x := if bits[0] == 0 then (leaf, elements[0]) else (elements[0], leaf);
    assert x in s;
    if |bits| > height + 1 {
      LongPath(h, s, leaves, i, height, Parent(h, x), elements[1..], bits[1..]);
    } else {
      ClimbSound(h, s, leaves, i, height, Parent(h, x), elements[1..], bits[1..]);
      LeafNode(h, leaves, i, bits[1..]);
      PositionBound(bits[1..]);
      assert Parent(h, x) == LeafAt(leaves, i + Position(bits[1..]));
    }
  }

  /** Two accepted proofs for the tree's root, of one length, that spell the same position carry the same leaf. */
  lemma OneLeafPerPosition(h: Hash, s: Hashed, leaves: LeafMap, p: InclusionProof, q: InclusionProof, height: nat)
    requires |p.pathElements| == |p.pathIndices| == |q.pathElements| == |q.pathIndices| <= height
    requires forall k :: 0 <= k < |p.pathIndices| ==> p.pathIndices[k] < 2 && q.pathIndices[k] < 2
    requires CollisionFree(h, s) && HashedIn(h, s, leaves, 0, height)
    requires ClimbIn(h, s, p.leaf, p.pathElements, p.pathIndices)
    requires ClimbIn(h, s, q.leaf, q.pathElements, q.pathIndices)
    requires Climb(h, p.leaf, p.pathElements, p.pathIndices) == Dense(h, leaves, 0, height)
    requires Climb(h, q.leaf, q.pathElements, q.pathIndices) == Dense(h, leaves, 0, height)
    requires Position(p.pathIndices) == Position(q.pathIndices)
    ensures p.leaf == q.leaf
  {
    ClimbSound(h, s, leaves, 0, height, p.leaf, p.pathElements, p.pathIndices);
    ClimbSound(h, s, leaves, 0, height, q.leaf, q.pathElements, q.pathIndices);
  }

  /**
   A proof ends at the tree's root whenever its index is within the capacity; beyond it, exactly when
   the index's block of leaves repeats the first block.
   */
  lemma {:induction false} ProofRootIff(h: Hash, s: Hashed, leaves: LeafMap, leafIndex: nat, height: nat)
    requires CollisionFree(h, s) && HashedIn(h, s, leaves, 0, height)
    requires HashedIn(h, s, leaves, BlockStart(leafIndex, height), height)
    ensures Dense(h, leaves, BlockStart(leafIndex, height), height) == Dense(h, leaves, 0, height)
      <==> leafIndex < Pow2(height) || SameLeaves(leaves, BlockStart(leafIndex, height), leaves, 0, Pow2(height))
  {
    var start := BlockStart(leafIndex, height);
    if leafIndex < Pow2(height) {
      QuotientIs(leafIndex, Pow2(height), 0, leafIndex);
      assert start == 0;
    } else {
      RootBindsLeaves(h, s, leaves, start, leaves, 0, height);
    }
  }
}

/**
 Naming, showing and searching the stage tree (src/components/ExplainTree.tsx).

 A node is named by a path string such as `0.2.10`: the root is `0` and each child appends
 a dot and its index. The reference for these strings is an address, the list of child
 indices that leads from the root to the node.
 */
module ExplainTree {
  import opened Decimals
  import opened ExplainPlan
  import opened Options
  import opened Sequences

  type Address = seq<nat>

  datatype Spot = Spot(addr: Address, node: ExplainNode)

  datatype Visit = Visit(path: string, depth: nat, node: ExplainNode)

  // ----- Addresses: the reference -----

  /** The node an address leads to from `n`, if it leads anywhere. */
  function NodeAt(n: ExplainNode, a: Address): Option<ExplainNode>
    decreases |a|
  {
    if a == [] then Some(n)
    else if a[0] < |n.children| then NodeAt(n.children[a[0]], a[1..])
    else None
  }

  /** The nodes of a tree in pre-order, each with its address, `a` being the address of `n`. */
  function Spots(n: ExplainNode, a: Address): seq<Spot>
    decreases n, 0
  {
    [Spot(a, n)] + SpotsFrom(n.children, a, 0)
  }

  /** The same for `ns`, the children of `a` from index `i` on. */
  function SpotsFrom(ns: seq<ExplainNode>, a: Address, i: nat): seq<Spot>
    decreases ns, 0
  {
    if ns == [] then [] else Spots(ns[0], a + [i]) + SpotsFrom(ns[1..], a, i + 1)
  }

  /** The path string of an address. */
  function PathOf(a: Address): (s: string)
    ensures s != []
  {
    if a == [] then "0" else PathOf(a[..|a| - 1]) + "." + Print(a[|a| - 1])
  }

  /** The root is "0"; below it, the indices follow after dots. */
  lemma PathExample()
    ensures PathOf([]) == "0" && PathOf([2]) == "0.2" && PathOf([2, 10]) == "0.2.10"
  {
    assert [2, 10][..1] == [2] && [2][..0] == [];
    assert Print(10) == Print(1) + "0" && Print(1) == "1" && Print(2) == "2";
    assert PathOf([2]) == PathOf([]) + "." + Print(2);
    assert PathOf([2, 10]) == PathOf([2]) + "." + Print(10);
  }

  // ----- Path strings decode -----

  /** The index of the last dot, or -1. */
  function LastDot(s: string): (r: int)
    ensures -1 <= r < |s|
    ensures r >= 0 ==> s[r] == '.'
    ensures forall i :: r < i < |s| ==> s[i] != '.'
  {
    if s == [] then -1
    else if s[|s| - 1] == '.' then |s| - 1
    else LastDot(s[..|s| - 1])
  }

  /** Reads a path string back: split at the dots, then read each numeral after the root's. */
  function Decode(s: string): Option<Address>
    decreases |s|
  {
    var dot := LastDot(s);
    if dot == -1 then if s == "0" then Some([]) else None
    else
      var head := Decode(s[..dot]);
      var last := s[dot + 1..];
      if head.Some? && last != [] && AllDigits(last) then Some(head.value + [Read(last)]) else None
  }

  lemma LastDotIs(s: string, k: nat)
    requires k < |s| && s[k] == '.'
    requires forall i :: k < i < |s| ==> s[i] != '.'
    ensures LastDot(s) == k
  {
    var r := LastDot(s);
    assert r >= k;
  }

  /** Decoding inverts naming: a path string leads to exactly one address. */
  lemma {:induction false} DecodePathOf(a: Address)
    ensures Decode(PathOf(a)) == Some(a)
    decreases |a|
  {
    if a == [] {
      assert "0"[0] != '.';
    } else {
      var init, i := a[..|a| - 1], a[|a| - 1];
      var front, last := PathOf(init), Print(i);
      var s := PathOf(a);
      PrintFree(i, '.');
      LastSeparator(s, front, '.', last);
      LastDotIs(s, |front|);
      DecodePathOf(init);
      assert init + [i] == a;
    }
  }

  lemma PathOfInjective(a: Address, b: Address)
    requires PathOf(a) == PathOf(b)
    ensures a == b
  {
    DecodePathOf(a);
    DecodePathOf(b);
  }

  lemma PathOfChild(a: Address, i: nat)
    ensures PathOf(a + [i]) == PathOf(a) + "." + Print(i)
  {
    assert (a + [i])[..|a|] == a;
  }

  // ----- Pre-order spots are exactly the valid addresses, once each -----

  lemma {:induction false} SpotsSound(n: ExplainNode, a: Address, k: nat)
    requires k < |Spots(n, a)|
    ensures var s := Spots(n, a)[k];
      |a| <= |s.addr| && s.addr[..|a|] == a && NodeAt(n, s.addr[|a|..]) == Some(s.node)
    decreases n, 0
  {
    if k > 0 {
      SpotsFromSound(n.children, a, 0, k - 1);
      var s := Spots(n, a)[k];
      var j := s.addr[|a|];
      assert s.addr[|a|..][1..] == s.addr[|a| + 1..];
    }
  }

  lemma {:induction false} SpotsFromSound(ns: seq<ExplainNode>, a: Address, i: nat, k: nat)
    requires k < |SpotsFrom(ns, a, i)|
    ensures var s := SpotsFrom(ns, a, i)[k];
      && |a| < |s.addr| && s.addr[..|a|] == a
      && i <= s.addr[|a|] < i + |ns|
      && NodeAt(ns[s.addr[|a|] - i], s.addr[|a| + 1..]) == Some(s.node)
    decreases ns, 0
  {
    var first := Spots(ns[0], a + [i]);
    var s := SpotsFrom(ns, a, i)[k];
    if k < |first| {
      SpotsSound(ns[0], a + [i], k);
      assert s.addr[..|a|] == s.addr[..|a| + 1][..|a|] == a;
      assert s.addr[..|a| + 1][|a|] == i;
    } else {
      SpotsFromSound(ns[1..], a, i + 1, k - |first|);
    }
  }

  lemma {:induction false} SpotsComplete(n: ExplainNode, a: Address, b: Address) returns (k: nat)
    requires NodeAt(n, b).Some?
    ensures k < |Spots(n, a)| && Spots(n, a)[k] == Spot(a + b, NodeAt(n, b).value)
    decreases n, 0
  {
    if b == [] {
      assert a + b == a;
      k := 0;
    } else {
      k := SpotsFromComplete(n.children, a, 0, b);
      k := k + 1;
    }
  }

  lemma {:induction false} SpotsFromComplete(ns: seq<ExplainNode>, a: Address, i: nat, b: Address) returns (k: nat)
    requires b != [] && i <= b[0] < i + |ns| && NodeAt(ns[b[0] - i], b[1..]).Some?
    ensures k < |SpotsFrom(ns, a, i)|
    ensures SpotsFrom(ns, a, i)[k] == Spot(a + b, NodeAt(ns[b[0] - i], b[1..]).value)
    decreases ns, 0
  {
    if b[0] == i {
      k := SpotsComplete(ns[0], a + [i], b[1..]);
      assert a + [i] + b[1..] == a + b;
    } else {
      k := SpotsFromComplete(ns[1..], a, i + 1, b);
      k := |Spots(ns[0], a + [i])| + k;
    }
  }

  lemma {:induction false} SpotsDistinct(n: ExplainNode, a: Address, j: nat, k: nat)
    requires j < k < |Spots(n, a)|
    ensures Spots(n, a)[j].addr != Spots(n, a)[k].addr
    decreases n, 0
  {
    if j == 0 {
      SpotsFromSound(n.children, a, 0, k - 1);
    } else {
      SpotsFromDistinct(n.children, a, 0, j - 1, k - 1);
    }
  }

  lemma {:induction false} SpotsFromDistinct(ns: seq<ExplainNode>, a: Address, i: nat, j: nat, k: nat)
    requires j < k < |SpotsFrom(ns, a, i)|
    ensures SpotsFrom(ns, a, i)[j].addr != SpotsFrom(ns, a, i)[k].addr
    decreases ns, 0
  {
    var first := Spots(ns[0], a + [i]);
    if k < |first| {
      SpotsDistinct(ns[0], a + [i], j, k);
    } else if j < |first| {
      SpotsSound(ns[0], a + [i], j);
      var s := first[j];
      assert s.addr[..|a| + 1][|a|] == i;
      SpotsFromSound(ns[1..], a, i + 1, k - |first|);
    } else {
      SpotsFromDistinct(ns[1..], a, i + 1, j - |first|, k - |first|);
    }
  }

  // ----- The recursion the component performs, on path strings -----

  /** The calls `walk(c, path)` makes, in order; the renderer makes the same ones when nothing is collapsed. */
  function Visits(n: ExplainNode, path: string, depth: nat): seq<Visit>
    decreases n, 0
  {
    [Visit(path, depth, n)] + VisitsFrom(n.children, path, depth, 0)
  }

  function VisitsFrom(ns: seq<ExplainNode>, path: string, depth: nat, i: nat): seq<Visit>
    decreases ns, 0
  {
    if ns == [] then []
    else Visits(ns[0], path + "." + Print(i), depth + 1) + VisitsFrom(ns[1..], path, depth, i + 1)
  }

  /** A spot as the component sees it. */
  function Label(s: Spot): Visit {
    Visit(PathOf(s.addr), |s.addr|, s.node)
  }

  function Labels(ss: seq<Spot>): (vs: seq<Visit>)
    ensures |vs| == |ss| && forall k :: 0 <= k < |ss| ==> vs[k] == Label(ss[k])
  {
    seq(|ss|, k requires 0 <= k < |ss| => Label(ss[k]))
  }

  lemma LabelsAppend(a: seq<Spot>, b: seq<Spot>)
    ensures Labels(a + b) == Labels(a) + Labels(b)
  {
  }

  /** The paths built while recursing are the path strings of the addresses. */
  lemma {:induction false} VisitsAreSpots(n: ExplainNode, a: Address)
    ensures Visits(n, PathOf(a), |a|) == Labels(Spots(n, a))
    decreases n, 0
  {
    VisitsFromAreSpots(n.children, a, 0);
    LabelsAppend([Spot(a, n)], SpotsFrom(n.children, a, 0));
  }

  lemma {:induction false} VisitsFromAreSpots(ns: seq<ExplainNode>, a: Address, i: nat)
    ensures VisitsFrom(ns, PathOf(a), |a|, i) == Labels(SpotsFrom(ns, a, i))
    decreases ns, 0
  {
    if ns != [] {
      PathOfChild(a, i);
      VisitsAreSpots(ns[0], a + [i]);
      VisitsFromAreSpots(ns[1..], a, i + 1);
      LabelsAppend(Spots(ns[0], a + [i]), SpotsFrom(ns[1..], a, i + 1));
    }
  }

  /** The visited nodes are the pre-order of the tree. */
  function NodesOf(vs: seq<Visit>): (ns: seq<ExplainNode>)
    ensures |ns| == |vs| && forall k :: 0 <= k < |vs| ==> ns[k] == vs[k].node
  {
    seq(|vs|, k requires 0 <= k < |vs| => vs[k].node)
  }

  lemma {:induction false} VisitsPreOrder(n: ExplainNode, path: string, depth: nat)
    ensures NodesOf(Visits(n, path, depth)) == PreOrder(n)
    decreases n, 0
  {
    VisitsFromPreOrder(n.children, path, depth, 0);
  }

  lemma {:induction false} VisitsFromPreOrder(ns: seq<ExplainNode>, path: string, depth: nat, i: nat)
    ensures NodesOf(VisitsFrom(ns, path, depth, i)) == PreOrderAll(ns)
    decreases ns, 0
  {
    if ns != [] {
      VisitsPreOrder(ns[0], path + "." + Print(i), depth + 1);
      VisitsFromPreOrder(ns[1..], path, depth, i + 1);
    }
  }

  // ----- collectIds -----

  function PathsOf(vs: seq<Visit>): (ps: seq<string>)
    ensures |ps| == |vs| && forall k :: 0 <= k < |vs| ==> ps[k] == vs[k].path
  {
    seq(|vs|, k requires 0 <= k < |vs| => vs[k].path)
  }

  function Ids(root: Option<ExplainNode>): seq<string> {
    match root
    case None => []
    case Some(n) => PathsOf(Visits(n, "0", 0))
  }

  /** The paths of one more child. */
  lemma PathsStep(ns: seq<ExplainNode>, path: string, depth: nat, i: nat, done: seq<string>)
    requires i < |ns|
    ensures done + PathsOf(VisitsFrom(ns[i..], path, depth, i))
         == done + PathsOf(Visits(ns[i], path + "." + Print(i), depth + 1))
             + PathsOf(VisitsFrom(ns[i + 1..], path, depth, i + 1))
  {
    assert ns[i..][1..] == ns[i + 1..];
    var first, rest := Visits(ns[i], path + "." + Print(i), depth + 1), VisitsFrom(ns[i + 1..], path, depth, i + 1);
    assert PathsOf(first + rest) == PathsOf(first) + PathsOf(rest);
  }

  lemma PathsCons(v: Visit, vs: seq<Visit>)
    ensures PathsOf([v] + vs) == [v.path] + PathsOf(vs)
  {
  }

  lemma PathsDone(n: ExplainNode, path: string, depth: nat, out: seq<string>, start: seq<string>)
    requires out + PathsOf(VisitsFrom([], path, depth, |n.children|))
          == start + [path] + PathsOf(VisitsFrom(n.children, path, depth, 0))
    ensures out == start + PathsOf(Visits(n, path, depth))
  {
    var rest := VisitsFrom(n.children, path, depth, 0);
    assert PathsOf(VisitsFrom([], path, depth, |n.children|)) == [];
    assert out + [] == out;
    PathsCons(Visit(path, depth, n), rest);
    PlusAssociates(start, [path], PathsOf(rest));
  }

  /** The list `out` that the walk's closure captures. */
  class IdCollector {
    var out: seq<string>

    constructor ()
      ensures out == []
    {
      out := [];
    }

    method Walk(n: ExplainNode, path: string, ghost depth: nat)
      modifies this
      ensures out == old(out) + PathsOf(Visits(n, path, depth))
      decreases n
    {
      out := out + [path];
      ghost var before := out;
      var i := 0;
      while i < |n.children|
        invariant 0 <= i <= |n.children|
        invariant out + PathsOf(VisitsFrom(n.children[i..], path, depth, i))
               == before + PathsOf(VisitsFrom(n.children, path, depth, 0))
      {
        PathsStep(n.children, path, depth, i, out);
        Walk(n.children[i], path + "." + Print(i), depth + 1);
        i := i + 1;
      }
      PathsDone(n, path, depth, out, old(out));
    }
  }

  method CollectIds(root: Option<ExplainNode>) returns (ids: seq<string>)
    ensures ids == Ids(root)
  {
    if root.None? {
      return [];
    }
    var collector := new IdCollector();
    collector.Walk(root.value, "0", 0);
    ids := collector.out;
  }

  /**
   The ids name the nodes of the tree one to one: there are as many as there are nodes, no two are
   equal, and a string is an id exactly when it is the path string of an address that leads to a node.
   */
  lemma IdsNameNodes(root: ExplainNode)
    ensures var ids := Ids(Some(root));
      && |ids| == |PreOrder(root)|
      && (forall j, k :: 0 <= j < k < |ids| ==> ids[j] != ids[k])
      && (forall s ::
            s in ids <==> Decode(s).Some? && PathOf(Decode(s).value) == s && NodeAt(root, Decode(s).value).Some?)
      && (forall k :: 0 <= k < |ids| ==>
          Decode(ids[k]).Some? && NodeAt(root, Decode(ids[k]).value) == Some(PreOrder(root)[k]))
  {
    var ids, spots := Ids(Some(root)), Spots(root, []);
    VisitsAreSpots(root, []);
    VisitsPreOrder(root, "0", 0);
    forall k | 0 <= k < |ids|
      ensures ids[k] == PathOf(spots[k].addr) && Decode(ids[k]) == Some(spots[k].addr)
      ensures NodeAt(root, spots[k].addr) == Some(spots[k].node) && spots[k].node == PreOrder(root)[k]
    {
      SpotsSound(root, [], k);
      assert spots[k].addr[0..] == spots[k].addr;
      DecodePathOf(spots[k].addr);
    }
    forall j, k | 0 <= j < k < |ids|
      ensures ids[j] != ids[k]
    {
      SpotsDistinct(root, [], j, k);
    }
    forall s | Decode(s).Some? && PathOf(Decode(s).value) == s && NodeAt(root, Decode(s).value).Some?
      ensures s in ids
    {
      var k := SpotsComplete(root, [], Decode(s).value);
      assert [] + Decode(s).value == Decode(s).value;
      assert ids[k] == s;
    }
  }

  // ----- Which nodes are shown -----

  /** `initialCollapsedDepth`, which may be JavaScript's `Infinity`. */
  datatype Limit = Finite(d: int) | Infinity

  predicate Deeper(depth: nat, limit: Limit) {
    match limit
    case Finite(d) => depth > d
    case Infinity => false
  }

  type Overrides = map<string, bool>

  predicate IsCollapsed(overrides: Overrides, limit: Limit, path: string, depth: nat) {
    if path in overrides then !overrides[path] else Deeper(depth, limit)
  }

  /** What `ExplainNodeView` renders: a node, then its children unless it is collapsed. */
  function Rendered(n: ExplainNode, path: string, depth: nat, overrides: Overrides, limit: Limit): seq<Visit>
    decreases n, 0
  {
    [Visit(path, depth, n)]
    + (if IsCollapsed(overrides, limit, path, depth) then []
       else RenderedFrom(n.children, path, depth, 0, overrides, limit))
  }

  function RenderedFrom(ns: seq<ExplainNode>, path: string, depth: nat, i: nat, overrides: Overrides,
                        limit: Limit): seq<Visit>
    decreases ns, 0
  {
    if ns == [] then []
    else
      Rendered(ns[0], path + "." + Print(i), depth + 1, overrides, limit)
      + RenderedFrom(ns[1..], path, depth, i + 1, overrides, limit)
  }

  /** The visits no deeper than `m`. */
  function UpTo(vs: seq<Visit>, m: int): seq<Visit> {
    if vs == [] then []
    else (if vs[0].depth <= m then [vs[0]] else []) + UpTo(vs[1..], m)
  }

  lemma {:induction false} UpToAppend(a: seq<Visit>, b: seq<Visit>, m: int)
    ensures UpTo(a + b, m) == UpTo(a, m) + UpTo(b, m)
  {
    if a == [] {
      assert a + b == b;
    } else {
      assert (a + b)[0] == a[0] && (a + b)[1..] == a[1..] + b;
      UpToAppend(a[1..], b, m);
    }
  }

  lemma {:induction false} UpToNone(vs: seq<Visit>, m: int)
    requires forall k :: 0 <= k < |vs| ==> vs[k].depth > m
    ensures UpTo(vs, m) == []
  {
    if vs != [] {
      UpToNone(vs[1..], m);
    }
  }

  lemma {:induction false} UpToAll(vs: seq<Visit>, m: int)
    requires forall k :: 0 <= k < |vs| ==> vs[k].depth <= m
    ensures UpTo(vs, m) == vs
  {
    if vs != [] {
      UpToAll(vs[1..], m);
    }
  }

  lemma {:induction false} VisitsDepth(n: ExplainNode, path: string, depth: nat)
    ensures forall k :: 0 <= k < |Visits(n, path, depth)| ==> Visits(n, path, depth)[k].depth >= depth
    decreases n, 0
  {
    VisitsFromDepth(n.children, path, depth, 0);
  }

  lemma {:induction false} VisitsFromDepth(ns: seq<ExplainNode>, path: string, depth: nat, i: nat)
    ensures forall k :: 0 <= k < |VisitsFrom(ns, path, depth, i)| ==> VisitsFrom(ns, path, depth, i)[k].depth > depth
    decreases ns, 0
  {
    if ns != [] {
      VisitsDepth(ns[0], path + "." + Print(i), depth + 1);
      VisitsFromDepth(ns[1..], path, depth, i + 1);
    }
  }

  /**
   Collapsing exactly the nodes at depth `m` or deeper shows exactly the nodes of depth `m` or less.
   `collapsed` is known on every node the full traversal visits.
   */
  lemma {:induction false} RenderedUpTo(n: ExplainNode, path: string, depth: nat, ov: Overrides, limit: Limit, m: nat)
    requires depth <= m
    requires forall v :: v in Visits(n, path, depth) ==> (IsCollapsed(ov, limit, v.path, v.depth) <==> v.depth >= m)
    ensures Rendered(n, path, depth, ov, limit) == UpTo(Visits(n, path, depth), m)
    decreases n, 0
  {
    var rest := VisitsFrom(n.children, path, depth, 0);
    var v := Visit(path, depth, n);
    assert v in Visits(n, path, depth);
    UpToAppend([v], rest, m);
    assert UpTo([v], m) == [v];
    if depth < m {
      RenderedFromUpTo(n.children, path, depth, 0, ov, limit, m);
    } else {
      VisitsFromDepth(n.children, path, depth, 0);
      UpToNone(rest, m);
    }
  }

  lemma {:induction false} RenderedFromUpTo(ns: seq<ExplainNode>, path: string, depth: nat, i: nat, ov: Overrides,
                                            limit: Limit, m: nat)
    requires depth < m
    requires forall v :: v in VisitsFrom(ns, path, depth, i) ==>
      (IsCollapsed(ov, limit, v.path, v.depth) <==> v.depth >= m)
    ensures RenderedFrom(ns, path, depth, i, ov, limit) == UpTo(VisitsFrom(ns, path, depth, i), m)
    decreases ns, 0
  {
    if ns != [] {
      var first := Visits(ns[0], path + "." + Print(i), depth + 1);
      var rest := VisitsFrom(ns[1..], path, depth, i + 1);
      assert VisitsFrom(ns, path, depth, i) == first + rest;
      assert forall v :: v in first ==> v in first + rest;
      assert forall v :: v in rest ==> v in first + rest;
      RenderedUpTo(ns[0], path + "." + Print(i), depth + 1, ov, limit, m);
      RenderedFromUpTo(ns[1..], path, depth, i + 1, ov, limit, m);
      UpToAppend(first, rest, m);
    }
  }

  /** Nothing collapsed: the renderer makes the same recursive calls as `collectIds`. */
  lemma {:induction false} RenderedAll(n: ExplainNode, path: string, depth: nat, ov: Overrides, limit: Limit)
    requires forall v :: v in Visits(n, path, depth) ==> !IsCollapsed(ov, limit, v.path, v.depth)
    ensures Rendered(n, path, depth, ov, limit) == Visits(n, path, depth)
    decreases n, 0
  {
    assert Visit(path, depth, n) in Visits(n, path, depth);
    RenderedFromAll(n.children, path, depth, 0, ov, limit);
  }

  lemma {:induction false} RenderedFromAll(ns: seq<ExplainNode>, path: string, depth: nat, i: nat, ov: Overrides,
                                           limit: Limit)
    requires forall v :: v in VisitsFrom(ns, path, depth, i) ==> !IsCollapsed(ov, limit, v.path, v.depth)
    ensures RenderedFrom(ns, path, depth, i, ov, limit) == VisitsFrom(ns, path, depth, i)
    decreases ns, 0
  {
    if ns != [] {
      RenderedAll(ns[0], path + "." + Print(i), depth + 1, ov, limit);
      RenderedFromAll(ns[1..], path, depth, i + 1, ov, limit);
    }
  }

  // ----- The view's state and its three actions -----

  datatype Action = Toggle(addr: Address) | ExpandAll | CollapseAll

  /** The map `toggle` builds: the new entry is computed from the old one exactly as written. */
  function ToggleMap(overrides: Overrides, limit: Limit, path: string, depth: nat): Overrides {
    var defaultCollapsed := Deeper(depth, limit);
    var current := if path in overrides then overrides[path] == false else defaultCollapsed;
    overrides[path := !current]
  }

  function Step(root: ExplainNode, limit: Limit, overrides: Overrides, action: Action): Overrides {
    match action
    case Toggle(a) => ToggleMap(overrides, limit, PathOf(a), |a|)
    case ExpandAll => map s | s in Ids(Some(root)) :: true
    case CollapseAll => map s | s in Ids(Some(root)) :: false
  }

  function Run(root: ExplainNode, limit: Limit, actions: seq<Action>): Overrides {
    if actions == [] then map[]
    else Step(root, limit, Run(root, limit, actions[..|actions| - 1]), actions[|actions| - 1])
  }

  /** The state of the component and its event handlers. */
  class ExplainView {
    const root: ExplainNode
    const limit: Limit
    var overrides: Overrides

    constructor (root: ExplainNode, limit: Limit)
      ensures this.root == root && this.limit == limit && overrides == Run(root, limit, [])
    {
      this.root, this.limit, overrides := root, limit, map[];
    }

    method Toggle(path: string, depth: nat)
      modifies this
      ensures overrides == ToggleMap(old(overrides), limit, path, depth)
      ensures IsCollapsed(overrides, limit, path, depth) == IsCollapsed(old(overrides), limit, path, depth)
    {
      var defaultCollapsed := Deeper(depth, limit);
      var current := if path in overrides then overrides[path] == false else defaultCollapsed;
      overrides := overrides[path := !current];
    }

    method ExpandAll()
      modifies this
      ensures overrides == Step(root, limit, old(overrides), Action.ExpandAll)
    {
      var next := Fill(Some(root), true);
      overrides := next;
    }

    method CollapseAll()
      modifies this
      ensures overrides == Step(root, limit, old(overrides), Action.CollapseAll)
    {
      var next := Fill(Some(root), false);
      overrides := next;
    }
  }

  /** The loop both bulk actions run: one entry per id. */
  method Fill(root: Option<ExplainNode>, value: bool) returns (next: Overrides)
    ensures next == map s | s in Ids(root) :: value
  {
    var all := CollectIds(root);
    next := map[];
    for k := 0 to |all|
      invariant next == map s | s in all[..k] :: value
    {
      next := next[all[k] := value];
    }
  }

  /** As written, `toggle` stores what is already in effect: no node's state changes, let alone flips. */
  lemma {:induction false} ToggleChangesNothing(ov: Overrides, limit: Limit, a: Address, b: Address)
    ensures IsCollapsed(ToggleMap(ov, limit, PathOf(a), |a|), limit, PathOf(b), |b|)
         == IsCollapsed(ov, limit, PathOf(b), |b|)
  {
    if PathOf(a) == PathOf(b) {
      PathOfInjective(a, b);
    }
  }

  /** A state in which every node is collapsed or not as `r` says. */
  datatype Regime = Default | Expanded | Collapsed

  function LastBulk(actions: seq<Action>): Regime {
    if actions == [] then Default
    else match actions[|actions| - 1]
      case ExpandAll => Expanded
      case CollapseAll => Collapsed
      case Toggle(_) => LastBulk(actions[..|actions| - 1])
  }

  predicate CollapsedIn(r: Regime, limit: Limit, depth: nat) {
    match r
    case Default => Deeper(depth, limit)
    case Expanded => false
    case Collapsed => true
  }

  /** After any run, whether a node is collapsed depends only on the last bulk action and its depth. */
  lemma {:induction false} RunRegime(root: ExplainNode, limit: Limit, actions: seq<Action>, a: Address)
    requires NodeAt(root, a).Some?
    ensures IsCollapsed(Run(root, limit, actions), limit, PathOf(a), |a|) == CollapsedIn(LastBulk(actions), limit, |a|)
    decreases |actions|
  {
    if actions != [] {
      var before := actions[..|actions| - 1];
      match actions[|actions| - 1] {
        case Toggle(b) =>
          RunRegime(root, limit, before, a);
          ToggleChangesNothing(Run(root, limit, before), limit, b, a);
        case _ =>
          DecodePathOf(a);
          IdsNameNodes(root);
          assert PathOf(a) in Ids(Some(root));
      }
    }
  }

  /** The deepest level shown: the whole tree when expanded, the root when collapsed. */
  function ShownDepth(r: Regime, limit: Limit): Limit {
    match r
    case Expanded => Infinity
    case Collapsed => Finite(0)
    case Default => if limit.Infinity? then Infinity else Finite(if limit.d < 0 then 0 else limit.d + 1)
  }

  /**
   After any sequence of actions the rendered rows are, in order: all nodes if the last bulk action
   was expand, only the root if it was collapse, and otherwise the nodes of depth at most one more
   than the initial limit.
   */
  lemma VisibleAfterRun(root: ExplainNode, limit: Limit, actions: seq<Action>)
    ensures var all := Visits(root, "0", 0);
      var shown := ShownDepth(LastBulk(actions), limit);
      Rendered(root, "0", 0, Run(root, limit, actions), limit) == if shown.Infinity? then all else UpTo(all, shown.d)
  {
    var all := Visits(root, "0", 0);
    var ov := Run(root, limit, actions);
    var r := LastBulk(actions);
    VisitsAreSpots(root, []);
    forall v | v in all
      ensures IsCollapsed(ov, limit, v.path, v.depth) == CollapsedIn(r, limit, v.depth)
    {
      var k :| 0 <= k < |all| && all[k] == v;
      SpotsSound(root, [], k);
      var addr := Spots(root, [])[k].addr;
      assert addr[0..] == addr;
      RunRegime(root, limit, actions, addr);
    }
    var shown := ShownDepth(r, limit);
    if shown.Infinity? {
      RenderedAll(root, "0", 0, ov, limit);
    } else {
      RenderedUpTo(root, "0", 0, ov, limit, shown.d);
    }
  }

  // ----- collectIndexInfo -----

  datatype IndexInfo = IndexInfo(hasIndexScan: bool, hasCollectionScan: bool, indexNames: seq<string>)

  const NO_INDEX_INFO := IndexInfo(false, false, [])

  predicate IndexStage(n: ExplainNode) {
    n.stage == "IXSCAN" || n.stage == "IDHACK"
  }

  /** The index name a node contributes. JavaScript treats the empty name as absent. */
  function IndexNameOf(n: ExplainNode): Option<string> {
    if !IndexStage(n) then None
    else if n.indexName.Some? && n.indexName.value != "" then n.indexName
    else if n.stage == "IDHACK" then Some("_id_")
    else None
  }

  /** `Set.add`: insertion order is kept, a member is not added twice. */
  function AddName(names: seq<string>, name: Option<string>): seq<string> {
    if name.None? || name.value in names then names else names + [name.value]
  }

  function NoteNode(info: IndexInfo, n: ExplainNode): IndexInfo {
    IndexInfo(
      info.hasIndexScan || IndexStage(n),
      info.hasCollectionScan || n.stage == "COLLSCAN",
      AddName(info.indexNames, IndexNameOf(n)))
  }

  function NoteNodes(info: IndexInfo, ns: seq<ExplainNode>): IndexInfo
    decreases |ns|
  {
    if ns == [] then info else NoteNodes(NoteNode(info, ns[0]), ns[1..])
  }

  lemma {:induction false} NoteNodesAppend(info: IndexInfo, a: seq<ExplainNode>, b: seq<ExplainNode>)
    ensures NoteNodes(info, a + b) == NoteNodes(NoteNodes(info, a), b)
    decreases |a|
  {
    if a == [] {
      assert a + b == b;
    } else {
      assert (a + b)[0] == a[0] && (a + b)[1..] == a[1..] + b;
      NoteNodesAppend(NoteNode(info, a[0]), a[1..], b);
    }
  }

  /** The variables the walk's closure captures. */
  class IndexInfoCollector {
    var info: IndexInfo

    constructor ()
      ensures info == NO_INDEX_INFO
    {
      info := NO_INDEX_INFO;
    }

    method Walk(n: ExplainNode)
      modifies this
      ensures info == NoteNodes(old(info), PreOrder(n))
      decreases n
    {
      ghost var start := info;
      info := NoteNode(info, n);
      assert info == NoteNodes(start, [n]);
      NoteNodesAppend(start, [n], PreOrderAll(n.children));
      var i := 0;
      while i < |n.children|
        invariant 0 <= i <= |n.children|
        invariant NoteNodes(info, PreOrderAll(n.children[i..])) == NoteNodes(start, PreOrder(n))
      {
        assert n.children[i..][1..] == n.children[i + 1..];
        NoteNodesAppend(info, PreOrder(n.children[i]), PreOrderAll(n.children[i + 1..]));
        Walk(n.children[i]);
        i := i + 1;
      }
    }
  }

  lemma SomeStageFirst(ns: seq<ExplainNode>, name: string)
    requires ns != []
    ensures SomeStage(ns, name) <==> ns[0].stage == name || SomeStage(ns[1..], name)
  {
    assert ns == [ns[0]] + ns[1..];
    SomeStageAppend([ns[0]], ns[1..], name);
    assert [ns[0]][0] == ns[0];
  }

  /** What the collected information says about the nodes seen. */
  lemma {:induction false} NoteNodesMeaning(info: IndexInfo, ns: seq<ExplainNode>)
    requires forall i, j :: 0 <= i < j < |info.indexNames| ==> info.indexNames[i] != info.indexNames[j]
    ensures var r := NoteNodes(info, ns);
      && (r.hasCollectionScan <==> info.hasCollectionScan || SomeStage(ns, "COLLSCAN"))
      && (r.hasIndexScan <==> info.hasIndexScan || SomeStage(ns, "IXSCAN") || SomeStage(ns, "IDHACK"))
      && (forall i, j :: 0 <= i < j < |r.indexNames| ==> r.indexNames[i] != r.indexNames[j])
      && (forall s ::
            s in r.indexNames <==> s in info.indexNames || exists k :: 0 <= k < |ns| && IndexNameOf(ns[k]) == Some(s))
    decreases |ns|
  {
    if ns != [] {
      SomeStageFirst(ns, "COLLSCAN");
      SomeStageFirst(ns, "IXSCAN");
      SomeStageFirst(ns, "IDHACK");
      NoteNodesMeaning(NoteNode(info, ns[0]), ns[1..]);
      var r := NoteNodes(info, ns);
      forall s
        ensures s in r.indexNames
          <==> s in info.indexNames || exists k :: 0 <= k < |ns| && IndexNameOf(ns[k]) == Some(s)
      {
        if s in r.indexNames && s !in info.indexNames && IndexNameOf(ns[0]) != Some(s) {
          var k :| 0 <= k < |ns[1..]| && IndexNameOf(ns[1..][k]) == Some(s);
          assert IndexNameOf(ns[k + 1]) == Some(s);
        }
        if k :| 0 <= k < |ns| && IndexNameOf(ns[k]) == Some(s) {
          if k > 0 {
            assert IndexNameOf(ns[1..][k - 1]) == Some(s);
          }
        }
      }
    }
  }

  /** A node contributes its non-empty index name if it scans an index, or "_id_" for an IDHACK without one. */
  predicate Contributes(n: ExplainNode, name: string) {
    || ((n.stage == "IXSCAN" || n.stage == "IDHACK") && n.indexName == Some(name) && name != "")
    || (n.stage == "IDHACK" && (n.indexName == None || n.indexName == Some("")) && name == "_id_")
  }

  lemma ContributesIff(n: ExplainNode, name: string)
    ensures Contributes(n, name) <==> IndexNameOf(n) == Some(name)
  {
  }

  /** The names are those contributed, in the order in which they are first contributed. */
  ghost predicate FirstOccurrences(ns: seq<ExplainNode>, names: seq<string>) {
    && (forall s :: s in names <==> exists k :: 0 <= k < |ns| && Contributes(ns[k], s))
    && (forall i, j :: 0 <= i < j < |names| ==> names[i] != names[j] && Before(ns, names[i], names[j]))
  }

  /** Some contribution of `s` stands before all of `t`. */
  ghost predicate Before(ns: seq<ExplainNode>, s: string, t: string) {
    exists k :: 0 <= k < |ns| && Contributes(ns[k], s) && forall l :: 0 <= l < |ns| && Contributes(ns[l], t) ==> k < l
  }

  lemma NamesSnoc(ns: seq<ExplainNode>, n: ExplainNode, names: seq<string>)
    requires FirstOccurrences(ns, names)
    ensures FirstOccurrences(ns + [n], AddName(names, IndexNameOf(n)))
  {
    var all, next := ns + [n], AddName(names, IndexNameOf(n));
    assert all[|ns|] == n && forall k :: 0 <= k < |ns| ==> all[k] == ns[k];
    forall s
      ensures s in next <==> exists k :: 0 <= k < |all| && Contributes(all[k], s)
    {
      ContributesIff(n, s);
      if s in names {
        var k :| 0 <= k < |ns| && Contributes(ns[k], s);
        assert Contributes(all[k], s);
      } else if Contributes(n, s) {
        assert Contributes(all[|ns|], s);
      }
    }
    forall i, j | 0 <= i < j < |next|
      ensures next[i] != next[j] && Before(all, next[i], next[j])
    {
      BeforeSnoc(ns, n, names, i, j);
    }
  }

  lemma BeforeSnoc(ns: seq<ExplainNode>, n: ExplainNode, names: seq<string>, i: nat, j: nat)
    requires FirstOccurrences(ns, names)
    requires i < j < |AddName(names, IndexNameOf(n))|
    ensures var next := AddName(names, IndexNameOf(n));
      next[i] != next[j] && Before(ns + [n], next[i], next[j])
  {
    var all, next := ns + [n], AddName(names, IndexNameOf(n));
    assert all[|ns|] == n && forall k :: 0 <= k < |ns| ==> all[k] == ns[k];
    if j < |names| {
      assert Before(ns, names[i], names[j]);
      var k :| 0 <= k < |ns| && Contributes(ns[k], names[i])
        && forall l :: 0 <= l < |ns| && Contributes(ns[l], names[j]) ==> k < l;
      assert Contributes(all[k], next[i]);
    } else {
      assert next[i] in names;
      var k :| 0 <= k < |ns| && Contributes(ns[k], next[i]);
      assert Contributes(all[k], next[i]);
      assert forall l :: 0 <= l < |ns| && Contributes(ns[l], next[j]) ==> next[j] in names;
    }
  }

  lemma {:induction false} NamesInOrder(ns: seq<ExplainNode>)
    ensures FirstOccurrences(ns, NoteNodes(NO_INDEX_INFO, ns).indexNames)
  {
    if ns != [] {
      var front, n := ns[..|ns| - 1], ns[|ns| - 1];
      NamesInOrder(front);
      assert ns == front + [n];
      NoteNodesAppend(NO_INDEX_INFO, front, [n]);
      var info := NoteNodes(NO_INDEX_INFO, front);
      assert NoteNodes(info, [n]) == NoteNode(info, n);
      NamesSnoc(front, n, info.indexNames);
    }
  }

  /**
   Which scans the tree has, and the index names its index stages carry: each once, in the order in which
   the nodes first contribute them, from the root on.
   */
  method CollectIndexInfo(root: Option<ExplainNode>) returns (info: IndexInfo)
    ensures info.hasCollectionScan <==> SomeStage(Seen(root), "COLLSCAN")
    ensures info.hasIndexScan <==> SomeStage(Seen(root), "IXSCAN") || SomeStage(Seen(root), "IDHACK")
    ensures FirstOccurrences(Seen(root), info.indexNames)
  {
    if root.None? {
      return NO_INDEX_INFO;
    }
    var collector := new IndexInfoCollector();
    collector.Walk(root.value);
    info := collector.info;
    NoteNodesMeaning(NO_INDEX_INFO, Seen(root));
    NamesInOrder(Seen(root));
  }

  // ----- findBottleneck -----

  datatype Bottleneck = Bottleneck(path: string, stage: string, ms: real, docs: Option<real>)

  predicate Timed(n: ExplainNode) {
    n.executionTimeMs.Some? && n.executionTimeMs.value > 0.0
  }

  function Candidate(v: Visit): Bottleneck
    requires Timed(v.node)
  {
    Bottleneck(v.path, v.node.stage, v.node.executionTimeMs.value, v.node.docsExamined)
  }

  function Better(best: Option<Bottleneck>, v: Visit): Option<Bottleneck> {
    if Timed(v.node) && (best.None? || v.node.executionTimeMs.value > best.value.ms) then Some(Candidate(v)) else best
  }

  function BestOf(best: Option<Bottleneck>, vs: seq<Visit>): Option<Bottleneck>
    decreases |vs|
  {
    if vs == [] then best else BestOf(Better(best, vs[0]), vs[1..])
  }

  lemma {:induction false} BestOfAppend(best: Option<Bottleneck>, a: seq<Visit>, b: seq<Visit>)
    ensures BestOf(best, a + b) == BestOf(BestOf(best, a), b)
    decreases |a|
  {
    if a == [] {
      assert a + b == b;
    } else {
      assert (a + b)[0] == a[0] && (a + b)[1..] == a[1..] + b;
      BestOfAppend(Better(best, a[0]), a[1..], b);
    }
  }

  /** The variable `best` that the walk's closure captures. */
  class BottleneckFinder {
    var best: Option<Bottleneck>

    constructor ()
      ensures best == None
    {
      best := None;
    }

    method Walk(n: ExplainNode, path: string, ghost depth: nat)
      modifies this
      ensures best == BestOf(old(best), Visits(n, path, depth))
      decreases n
    {
      ghost var start := best;
      ghost var v := Visit(path, depth, n);
      if n.executionTimeMs.Some? && n.executionTimeMs.value > 0.0 {
        if best.None? || n.executionTimeMs.value > best.value.ms {
          best := Some(Bottleneck(path, n.stage, n.executionTimeMs.value, n.docsExamined));
        }
      }
      assert best == BestOf(start, [v]);
      BestOfAppend(start, [v], VisitsFrom(n.children, path, depth, 0));
      var i := 0;
      while i < |n.children|
        invariant 0 <= i <= |n.children|
        invariant BestOf(best, VisitsFrom(n.children[i..], path, depth, i)) == BestOf(start, Visits(n, path, depth))
      {
        assert n.children[i..][1..] == n.children[i + 1..];
        BestOfAppend(best, Visits(n.children[i], path + "." + Print(i), depth + 1),
                     VisitsFrom(n.children[i + 1..], path, depth, i + 1));
        Walk(n.children[i], path + "." + Print(i), depth + 1);
        i := i + 1;
      }
    }
  }

  /** `v` at index `k` is the first of the slowest timed visits of `vs`. */
  predicate FirstSlowest(vs: seq<Visit>, k: nat) {
    && k < |vs| && Timed(vs[k].node)
    && (forall i :: 0 <= i < |vs| && Timed(vs[i].node) ==>
          vs[i].node.executionTimeMs.value <= vs[k].node.executionTimeMs.value)
    && (forall i :: 0 <= i < k && Timed(vs[i].node) ==>
          vs[i].node.executionTimeMs.value < vs[k].node.executionTimeMs.value)
  }

  /** Keeping the best so far, with a strict comparison, finds the first slowest visit. */
  lemma {:induction false} BestOfVisits(vs: seq<Visit>)
    ensures IsBest(vs, BestOf(None, vs))
  {
    if vs != [] {
      var before, v := vs[..|vs| - 1], vs[|vs| - 1];
      BestOfVisits(before);
      assert vs == before + [v];
      BestOfAppend(None, before, [v]);
      BestOfStep(before, v, BestOf(None, before));
    }
  }

  ghost predicate IsBest(vs: seq<Visit>, best: Option<Bottleneck>) {
    && (best.None? ==> forall i :: 0 <= i < |vs| ==> !Timed(vs[i].node))
    && (best.Some? ==> exists k: nat :: FirstSlowest(vs, k) && best.value == Candidate(vs[k]))
  }

  lemma BestOfStep(vs: seq<Visit>, v: Visit, best: Option<Bottleneck>)
    requires IsBest(vs, best)
    ensures IsBest(vs + [v], Better(best, v))
  {
    var all := vs + [v];
    assert all[|vs|] == v && forall i :: 0 <= i < |vs| ==> all[i] == vs[i];
    if best.None? {
      assert Timed(v.node) ==> FirstSlowest(all, |vs|);
    } else {
      var k: nat :| FirstSlowest(vs, k) && best.value == Candidate(vs[k]);
      assert if Better(best, v) == best then FirstSlowest(all, k) else FirstSlowest(all, |vs|);
    }
  }

  /**
   `findBottleneck` returns nothing exactly when no node has a positive time; otherwise it returns the
   first node in pre-order with the largest time, under a path that is an id of the tree and leads to
   that node.
   */
  method FindBottleneck(root: Option<ExplainNode>) returns (best: Option<Bottleneck>)
    ensures best.None? <==> forall i :: 0 <= i < |Seen(root)| ==> !TakesTime(Seen(root)[i])
    ensures best.Some? ==> exists k: nat ::
      SlowestAt(Seen(root), k) && k < |Ids(root)|
      && best.value == Bottleneck(Ids(root)[k], Seen(root)[k].stage, Seen(root)[k].executionTimeMs.value,
                                  Seen(root)[k].docsExamined)
      && Decode(best.value.path).Some?
      && NodeAt(root.value, Decode(best.value.path).value) == Some(Seen(root)[k])
  {
    if root.None? {
      return None;
    }
    var finder := new BottleneckFinder();
    finder.Walk(root.value, "0", 0);
    best := finder.best;
    ghost var vs := Visits(root.value, "0", 0);
    VisitsPreOrder(root.value, "0", 0);
    BestOfVisits(vs);
    if best.Some? {
      ghost var k: nat :| FirstSlowest(vs, k) && best.value == Candidate(vs[k]);
      IdsNameNodes(root.value);
      SlowestNode(vs, k);
      assert SlowestAt(Seen(root), k);
    }
  }

  predicate TakesTime(n: ExplainNode) {
    n.executionTimeMs.Some? && n.executionTimeMs.value > 0.0
  }

  /** No node takes longer than node `k`, and those before it take less. */
  ghost predicate SlowestAt(ns: seq<ExplainNode>, k: nat) {
    && k < |ns| && TakesTime(ns[k])
    && (forall i :: 0 <= i < |ns| && ns[i].executionTimeMs.Some? ==>
          ns[i].executionTimeMs.value <= ns[k].executionTimeMs.value)
    && (forall i :: 0 <= i < k && ns[i].executionTimeMs.Some? ==>
          ns[i].executionTimeMs.value < ns[k].executionTimeMs.value)
  }

  lemma SlowestNode(vs: seq<Visit>, k: nat)
    requires FirstSlowest(vs, k)
    ensures SlowestAt(NodesOf(vs), k)
  {
  }

  /**
   What the component computes before it renders. The panel and the parser agree on collection
   scans, and on index scans except for IDHACK stages.
   */
  method Findings(raw: Option<RawExplain>)
      returns (parsed: ParsedExplain, info: IndexInfo, bottleneck: Option<Bottleneck>)
    ensures parsed.root == Root(if raw.Some? then raw.value.queryPlannerWinningPlan else None)
    ensures info.hasCollectionScan == parsed.hasCollectionScan
    ensures info.hasIndexScan <==> parsed.hasIndexScan || SomeStage(Seen(parsed.root), "IDHACK")
    ensures bottleneck.Some? ==> bottleneck.value.path in Ids(parsed.root) && |Ids(parsed.root)| == parsed.stageCount
  {
    parsed := ParseExplain(raw);
    info := CollectIndexInfo(parsed.root);
    bottleneck := FindBottleneck(parsed.root);
    if parsed.root.Some? {
      IdsNameNodes(parsed.root.value);
    }
  }

  /** Exactly one row of the fully expanded tree carries a given id, such as the bottleneck's. */
  lemma OneRowPerPath(root: ExplainNode, path: string)
    requires path in Ids(Some(root))
    ensures exists k :: 0 <= k < |Visits(root, "0", 0)| && Visits(root, "0", 0)[k].path == path
    ensures forall j, k | 0 <= j < |Visits(root, "0", 0)| && 0 <= k < |Visits(root, "0", 0)| ::
      (Visits(root, "0", 0)[j].path == path == Visits(root, "0", 0)[k].path ==> j == k)
  {
    IdsNameNodes(root);
    var ids := Ids(Some(root));
    var k :| 0 <= k < |ids| && ids[k] == path;
    assert Visits(root, "0", 0)[k].path == path;
  }
}

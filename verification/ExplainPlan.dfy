/**
 The walker that turns MongoDB `explain()` JSON into a stage tree
 (src/components/explainParser.ts).

 JavaScript numbers are exact reals; NaN and the infinities, which `numberOrNull`
 filters out, are separate values. An object is its list of entries; looking a key
 up takes the first entry with that key (JavaScript objects have only one).
 */
module ExplainPlan {
  import opened Options
  import opened Sequences

  datatype Field = Field(key: string, value: Json)

  datatype Json =
    | Null
    | Bool(b: bool)
    | Num(n: real)
    | NaN
    | Infinite
    | Str(s: string)
    | Arr(items: seq<Json>)
    | Obj(fields: seq<Field>)

  datatype ExplainNode = ExplainNode(
    stage: string,
    indexName: Option<string>,
    keyPattern: Option<Json>,
    docsExamined: Option<real>,
    nReturned: Option<real>,
    executionTimeMs: Option<real>,
    memUsage: Option<real>,
    extra: seq<Field>,
    children: seq<ExplainNode>)

  datatype Summary = Summary(
    totalReturned: Option<real>,
    totalDocsExamined: Option<real>,
    totalKeysExamined: Option<real>,
    totalExecutionMs: Option<real>)

  datatype RawExplain = RawExplain(queryPlannerWinningPlan: Option<Json>, executionStats: Option<Json>)

  datatype ParsedExplain = ParsedExplain(
    root: Option<ExplainNode>,
    summary: Summary,
    stageCount: nat,
    hasCollectionScan: bool,
    hasIndexScan: bool)

  const KNOWN_KEYS: set<string> := {
    "stage", "inputStage", "inputStages", "indexName", "keyPattern", "isMultiKey",
    "isUnique", "isSparse", "direction", "indexBounds", "docsExamined", "nReturned",
    "executionTimeMillisEstimate", "memLimit", "memUsage", "sortPattern", "filter",
    "limitAmount", "skipAmount"}

  // ----- JavaScript values -----

  /** `obj[key]`, with `None` for `undefined`. */
  function Get(fields: seq<Field>, key: string): (r: Option<Json>)
    ensures r.Some? ==> exists i :: 0 <= i < |fields| && fields[i] == Field(key, r.value)
    ensures r.None? ==> forall i :: 0 <= i < |fields| ==> fields[i].key != key
  {
    if fields == [] then None
    else if fields[0].key == key then Some(fields[0].value)
    else Get(fields[1..], key)
  }

  /** `value?.[key]` for a value that may be any JSON. */
  function Member(v: Option<Json>, key: string): Option<Json> {
    match v
    case Some(Obj(fields)) => Get(fields, key)
    case _ => None
  }

  predicate Truthy(v: Option<Json>) {
    match v
    case None => false
    case Some(Null) => false
    case Some(Bool(b)) => b
    case Some(Num(n)) => n != 0.0
    case Some(NaN) => false
    case Some(Str(s)) => s != ""
    case _ => true
  }

  function NumberOrNull(v: Option<Json>): Option<real> {
    match v
    case Some(Num(n)) => Some(n)
    case _ => None
  }

  function StringOrNull(v: Option<Json>): Option<string> {
    match v
    case Some(Str(s)) => Some(s)
    case _ => None
  }

  function ObjectOrNull(v: Option<Json>): Option<Json> {
    match v
    case Some(Obj(_)) => v
    case _ => None
  }

  function StageName(v: Option<Json>): string {
    match v
    case Some(Str(s)) => s
    case _ => "(unknown)"
  }

  /** The entries whose key the node does not name. */
  function Unknown(fields: seq<Field>): (r: seq<Field>)
    ensures forall i :: 0 <= i < |r| ==> r[i].key !in KNOWN_KEYS
  {
    if fields == [] then []
    else (if fields[0].key in KNOWN_KEYS then [] else [fields[0]]) + Unknown(fields[1..])
  }

  // ----- The tree a plan denotes -----

  /** A node with the given children and everything else read from `fields`. */
  function MakeNode(fields: seq<Field>, children: seq<ExplainNode>): ExplainNode {
    ExplainNode(
      StageName(Get(fields, "stage")),
      StringOrNull(Get(fields, "indexName")),
      ObjectOrNull(Get(fields, "keyPattern")),
      NumberOrNull(Get(fields, "docsExamined")),
      NumberOrNull(Get(fields, "nReturned")),
      NumberOrNull(Get(fields, "executionTimeMillisEstimate")),
      NumberOrNull(Get(fields, "memUsage")),
      Unknown(fields),
      children)
  }

  function InputStages(fields: seq<Field>): (r: seq<Json>)
    ensures r == [] || Get(fields, "inputStages") == Some(Arr(r))
  {
    match Get(fields, "inputStages")
    case Some(Arr(items)) => items
    case _ => []
  }

  function Walk(value: Json): Option<ExplainNode>
    decreases value, 0
  {
    match value
    case Obj(fields) =>
      var single := Get(fields, "inputStage");
      var front := if Truthy(single) then ToSeq(Walk(single.value)) else [];
      var rest :=
        match Get(fields, "inputStages")
        case Some(Arr(items)) => WalkAll(items)
        case _ => [];
      Some(MakeNode(fields, front + rest))
    case _ => None
  }

  function WalkAll(values: seq<Json>): seq<ExplainNode>
    decreases values, 0
  {
    if values == [] then [] else ToSeq(Walk(values[0])) + WalkAll(values[1..])
  }

  // ----- Reading a tree -----

  /** The nodes of a tree, a parent before its children, siblings in order. */
  function PreOrder(n: ExplainNode): seq<ExplainNode> {
    [n] + PreOrderAll(n.children)
  }

  function PreOrderAll(ns: seq<ExplainNode>): seq<ExplainNode> {
    if ns == [] then [] else PreOrder(ns[0]) + PreOrderAll(ns[1..])
  }

  function Seen(root: Option<ExplainNode>): seq<ExplainNode> {
    match root
    case None => []
    case Some(n) => PreOrder(n)
  }

  predicate SomeStage(ns: seq<ExplainNode>, name: string) {
    exists i :: 0 <= i < |ns| && ns[i].stage == name
  }

  lemma {:induction false} PreOrderAllAppend(a: seq<ExplainNode>, b: seq<ExplainNode>)
    ensures PreOrderAll(a + b) == PreOrderAll(a) + PreOrderAll(b)
  {
    if a == [] {
      assert a + b == b;
    } else {
      var c := a + b;
      assert c[0] == a[0] && c[1..] == a[1..] + b;
      PreOrderAllAppend(a[1..], b);
      PlusAssociates(PreOrder(a[0]), PreOrderAll(a[1..]), PreOrderAll(b));
    }
  }

  lemma PreOrderAllSeen(r: Option<ExplainNode>)
    ensures PreOrderAll(ToSeq(r)) == Seen(r)
  {
    if r.Some? {
      assert PreOrderAll([r.value]) == PreOrder(r.value) + PreOrderAll([]);
    }
  }

  lemma SomeStageAppend(a: seq<ExplainNode>, b: seq<ExplainNode>, name: string)
    ensures SomeStage(a + b, name) <==> SomeStage(a, name) || SomeStage(b, name)
  {
    if SomeStage(a, name) {
      var i :| 0 <= i < |a| && a[i].stage == name;
      assert (a + b)[i].stage == name;
    }
    if SomeStage(b, name) {
      var i :| 0 <= i < |b| && b[i].stage == name;
      assert (a + b)[|a| + i].stage == name;
    }
  }

  // ----- The walk with its counters -----

  datatype Tally = Tally(stageCount: nat, hasCollectionScan: bool, hasIndexScan: bool) {
    /** This tally after the nodes `ns` have been seen as well. */
    ghost function Plus(ns: seq<ExplainNode>): Tally {
      Tally(
        stageCount + |ns|,
        hasCollectionScan || SomeStage(ns, "COLLSCAN"),
        hasIndexScan || SomeStage(ns, "IXSCAN"))
    }
  }

  lemma PlusPlus(t: Tally, a: seq<ExplainNode>, b: seq<ExplainNode>)
    ensures t.Plus(a).Plus(b) == t.Plus(a + b)
  {
    SomeStageAppend(a, b, "COLLSCAN");
    SomeStageAppend(a, b, "IXSCAN");
  }

  /** The tally depends on the stages only. */
  lemma PlusSameStage(t: Tally, a: ExplainNode, b: ExplainNode)
    requires a.stage == b.stage
    ensures t.Plus([a]) == t.Plus([b])
  {
    forall name: string
      ensures SomeStage([a], name) <==> SomeStage([b], name)
    {
      assert [a][0].stage == [b][0].stage;
    }
  }

  /** The variables the walk's callbacks capture. */
  class WalkCounters {
    var stageCount: nat
    var hasCollectionScan: bool
    var hasIndexScan: bool

    constructor ()
      ensures Value() == Tally(0, false, false)
    {
      stageCount, hasCollectionScan, hasIndexScan := 0, false, false;
    }

    ghost function Value(): Tally
      reads this
    {
      Tally(stageCount, hasCollectionScan, hasIndexScan)
    }

    method OnNode()
      modifies this`stageCount
      ensures stageCount == old(stageCount) + 1
    {
      stageCount := stageCount + 1;
    }

    method OnStage(name: string)
      modifies this`hasCollectionScan, this`hasIndexScan
      ensures hasCollectionScan <==> old(hasCollectionScan) || name == "COLLSCAN"
      ensures hasIndexScan <==> old(hasIndexScan) || name == "IXSCAN"
    {
      if name == "COLLSCAN" { hasCollectionScan := true; }
      if name == "IXSCAN" { hasIndexScan := true; }
    }
  }

  /** Walks `value`, bumping the counters once per node of the tree it returns. */
  method WalkStage(value: Json, cb: WalkCounters) returns (r: Option<ExplainNode>)
    modifies cb
    ensures r == Walk(value)
    ensures cb.Value() == old(cb.Value()).Plus(Seen(r))
    decreases value
  {
    if !value.Obj? {
      return None;
    }
    var fields := value.fields;
    ghost var start := cb.Value();
    cb.OnNode();
    var stage := StageName(Get(fields, "stage"));
    cb.OnStage(stage);
    ghost var head := MakeNode(fields, []);
    assert cb.Value() == start.Plus([head]) by {
      assert [head][0].stage == stage;
    }

    var children: seq<ExplainNode> := [];
    assert [head] + PreOrderAll(children) == [head];
    var inputStage := Get(fields, "inputStage");
    if Truthy(inputStage) {
      GetSmaller(fields, "inputStage");
      var child := WalkStage(inputStage.value, cb);
      SeenStep(start, head, children, child);
      assert children + ToSeq(child) == ToSeq(child);
      children := ToSeq(child);
    }
    ghost var front := children;
    var inputStages := InputStages(fields);
    var i := 0;
    while i < |inputStages|
      invariant 0 <= i <= |inputStages|
      invariant children + WalkAll(inputStages[i..]) == front + WalkAll(inputStages)
      invariant cb.Value() == start.Plus([head] + PreOrderAll(children))
    {
      InputStageSmaller(fields, i);
      var child := WalkStage(inputStages[i], cb);
      WalkAllFirst(inputStages, i, children);
      SeenStep(start, head, children, child);
      children := children + ToSeq(child);
      i := i + 1;
    }
    WalkIsMakeNode(fields, front, children);
    var node := MakeNode(fields, children);
    SameStageTally(start, head, node, PreOrderAll(children));
    return Some(node);
  }

  /** The tally after one more child. */
  lemma SeenStep(start: Tally, head: ExplainNode, children: seq<ExplainNode>, child: Option<ExplainNode>)
    ensures start.Plus([head] + PreOrderAll(children)).Plus(Seen(child))
         == start.Plus([head] + PreOrderAll(children + ToSeq(child)))
  {
    PlusPlus(start, [head] + PreOrderAll(children), Seen(child));
    PreOrderAllSeen(child);
    PreOrderAllAppend(children, ToSeq(child));
    PlusAssociates([head], PreOrderAll(children), Seen(child));
  }

  lemma SameStageTally(start: Tally, a: ExplainNode, b: ExplainNode, rest: seq<ExplainNode>)
    requires a.stage == b.stage
    ensures start.Plus([a] + rest) == start.Plus([b] + rest)
  {
    PlusSameStage(start, a, b);
    PlusPlus(start, [a], rest);
    PlusPlus(start, [b], rest);
  }

  lemma InputStageSmaller(fields: seq<Field>, i: nat)
    requires i < |InputStages(fields)|
    ensures InputStages(fields)[i] < Obj(fields)
  {
    GetSmaller(fields, "inputStages");
  }

  lemma WalkIsMakeNode(fields: seq<Field>, front: seq<ExplainNode>, children: seq<ExplainNode>)
    requires front == if Truthy(Get(fields, "inputStage")) then ToSeq(Walk(Get(fields, "inputStage").value)) else []
    requires children == front + WalkAll(InputStages(fields))
    ensures Walk(Obj(fields)) == Some(MakeNode(fields, children))
  {
  }

  lemma WalkAllFirst(values: seq<Json>, i: nat, done: seq<ExplainNode>)
    requires i < |values|
    ensures done + WalkAll(values[i..]) == done + ToSeq(Walk(values[i])) + WalkAll(values[i + 1..])
  {
    assert values[i..][1..] == values[i + 1..];
    assert WalkAll(values[i..]) == ToSeq(Walk(values[i])) + WalkAll(values[i + 1..]);
  }

  // ----- parseExplain -----

  /** `stages` at the top level becomes one synthetic node over the pipeline's stages. */
  function ShardedPipeline(stages: Json): Json {
    Obj([Field("stage", Str("SHARDED_PIPELINE")), Field("inputStages", stages)])
  }

  /** The plan nested at `queryPlanner.winningPlan`, when there is one. */
  function NestedPlan(doc: Json): Option<Json> {
    var nested := Member(Member(Some(doc), "queryPlanner"), "winningPlan");
    if Truthy(nested) then nested else None
  }

  function UnwrapWinningPlan(winning: Option<Json>): Option<Json> {
    match winning
    case Some(Obj(fields)) =>
      var nested := NestedPlan(winning.value);
      if nested.Some? then nested
      else if Get(fields, "stages").Some? && Get(fields, "stages").value.Arr?
      then Some(ShardedPipeline(Get(fields, "stages").value))
      else winning
    case _ => None
  }

  /** The tree parsed from a plan in either of the two shapes. */
  function Root(winning: Option<Json>): Option<ExplainNode> {
    var plan := UnwrapWinningPlan(winning);
    if Truthy(plan) then Walk(plan.value) else None
  }

  method ParseExplain(raw: Option<RawExplain>) returns (p: ParsedExplain)
    ensures p.root == Root(if raw.Some? then raw.value.queryPlannerWinningPlan else None)
    ensures p.stageCount == |Seen(p.root)|
    ensures p.stageCount == 0 <==> p.root.None?
    ensures p.hasCollectionScan <==> SomeStage(Seen(p.root), "COLLSCAN")
    ensures p.hasIndexScan <==> SomeStage(Seen(p.root), "IXSCAN")
    ensures var stats := if raw.Some? then raw.value.executionStats else None;
      p.summary == Summary(
        NumberOrNull(Member(stats, "nReturned")),
        NumberOrNull(Member(stats, "totalDocsExamined")),
        NumberOrNull(Member(stats, "totalKeysExamined")),
        NumberOrNull(Member(stats, "executionTimeMillis")))
  {
    var winning := UnwrapWinningPlan(if raw.Some? then raw.value.queryPlannerWinningPlan else None);
    var execution := if raw.Some? then raw.value.executionStats else None;
    var summary := Summary(
      NumberOrNull(Member(execution, "nReturned")),
      NumberOrNull(Member(execution, "totalDocsExamined")),
      NumberOrNull(Member(execution, "totalKeysExamined")),
      NumberOrNull(Member(execution, "executionTimeMillis")));
    var cb := new WalkCounters();
    var root: Option<ExplainNode> := None;
    if Truthy(winning) {
      root := WalkStage(winning.value, cb);
    }
    p := ParsedExplain(root, summary, cb.stageCount, cb.hasCollectionScan, cb.hasIndexScan);
  }

  // ----- The two explain shapes parse alike -----

  lemma GetSmaller(fields: seq<Field>, key: string)
    requires Get(fields, key).Some?
    ensures Get(fields, key).value < Obj(fields)
  {
    var i :| 0 <= i < |fields| && fields[i] == Field(key, Get(fields, key).value);
  }

  predicate HasTopLevelStages(doc: Json) {
    var stages := Member(Some(doc), "stages");
    stages.Some? && stages.value.Arr?
  }

  /** Unwrapping leaves an object alone exactly when it is in neither wrapped shape. */
  lemma UnwrapIsIdentityIff(p: Json)
    requires p.Obj?
    ensures UnwrapWinningPlan(Some(p)) == Some(p) <==> NestedPlan(p).None? && !HasTopLevelStages(p)
  {
    if NestedPlan(p).Some? {
      var qp := Get(p.fields, "queryPlanner");
      GetSmaller(p.fields, "queryPlanner");
      GetSmaller(qp.value.fields, "winningPlan");
    } else if HasTopLevelStages(p) {
      var q := ShardedPipeline(Get(p.fields, "stages").value);
      assert q.fields[1..][0].key != "stages" && q.fields[1..][1..] == [];
      assert Get(q.fields, "stages").None?;
    }
  }

  /**
   The aggregate command reports a whole explain document, the find command only its
   inner plan. Both give the same tree whenever the inner plan is in neither wrapped shape.
   */
  lemma FindAndAggregateAgree(doc: Json, p: Json)
    requires p.Obj? && Member(Member(Some(doc), "queryPlanner"), "winningPlan") == Some(p)
    requires NestedPlan(p).None? && !HasTopLevelStages(p)
    ensures Root(Some(doc)) == Root(Some(p)) == Walk(p)
  {
    UnwrapIsIdentityIff(p);
  }

  /** The total number of nodes the given values contribute when each is walked. */
  function NodeTotal(values: seq<Json>): nat {
    if values == [] then 0 else |Seen(Walk(values[0]))| + NodeTotal(values[1..])
  }

  lemma {:induction false} WalkAllTotal(values: seq<Json>)
    ensures |PreOrderAll(WalkAll(values))| == NodeTotal(values)
  {
    if values != [] {
      WalkAllTotal(values[1..]);
      PreOrderAllAppend(ToSeq(Walk(values[0])), WalkAll(values[1..]));
      PreOrderAllSeen(Walk(values[0]));
    }
  }

  lemma WalkSharded(stages: seq<Json>)
    ensures var r := Walk(ShardedPipeline(Arr(stages)));
      r.Some? && r.value.stage == "SHARDED_PIPELINE" && r.value.children == WalkAll(stages)
  {
    var fields := ShardedPipeline(Arr(stages)).fields;
    assert fields[1..] == [Field("inputStages", Arr(stages))];
    assert fields[1..][1..] == [];
    assert Get(fields, "inputStage").None?;
    assert Get(fields, "inputStages") == Some(Arr(stages));
    assert [] + WalkAll(stages) == WalkAll(stages);
  }

  /** A top-level `stages` array gives one synthetic root over the trees of its stages. */
  lemma {:induction false} TopLevelStagesCount(doc: Json)
    requires NestedPlan(doc).None? && HasTopLevelStages(doc)
    ensures var stages := Member(Some(doc), "stages").value.items;
      && Root(Some(doc)).Some?
      && Root(Some(doc)).value.stage == "SHARDED_PIPELINE"
      && Root(Some(doc)).value.children == WalkAll(stages)
      && |Seen(Root(Some(doc)))| == 1 + NodeTotal(stages)
  {
    var stages := Member(Some(doc), "stages").value.items;
    assert Root(Some(doc)) == Walk(ShardedPipeline(Arr(stages)));
    WalkSharded(stages);
    WalkAllTotal(stages);
  }

  // ----- Nothing the tree shows is lost: printing a tree as a plan and walking it back -----

  function Opt(key: string, v: Option<Json>): seq<Field> {
    match v
    case None => []
    case Some(x) => [Field(key, x)]
  }

  function NumJson(v: Option<real>): Option<Json> {
    match v
    case None => None
    case Some(n) => Some(Num(n))
  }

  function StrJson(v: Option<string>): Option<Json> {
    match v
    case None => None
    case Some(s) => Some(Str(s))
  }

  function ToPlan(n: ExplainNode): Json
    decreases n, 0
  {
    Obj(Opt("stage", Some(Str(n.stage)))
        + (Opt("indexName", StrJson(n.indexName))
           + (Opt("keyPattern", n.keyPattern)
              + (Opt("docsExamined", NumJson(n.docsExamined))
                 + (Opt("nReturned", NumJson(n.nReturned))
                    + (Opt("executionTimeMillisEstimate", NumJson(n.executionTimeMs))
                       + (Opt("memUsage", NumJson(n.memUsage))
                          + (Opt("inputStages", Some(Arr(ToPlans(n.children)))) + n.extra))))))))
  }

  function ToPlans(ns: seq<ExplainNode>): seq<Json>
    decreases ns, 0
  {
    if ns == [] then [] else [ToPlan(ns[0])] + ToPlans(ns[1..])
  }

  /** The shape every node built by the walker has. */
  predicate WellFormed(n: ExplainNode)
    decreases n, 0
  {
    && (n.keyPattern.Some? ==> n.keyPattern.value.Obj?)
    && (forall i :: 0 <= i < |n.extra| ==> n.extra[i].key !in KNOWN_KEYS)
    && AllWellFormed(n.children)
  }

  predicate AllWellFormed(ns: seq<ExplainNode>)
    decreases ns, 0
  {
    ns == [] || (WellFormed(ns[0]) && AllWellFormed(ns[1..]))
  }

  lemma GetOpt(key: string, v: Option<Json>, rest: seq<Field>, k: string)
    ensures Get(Opt(key, v) + rest, k) == if key == k && v.Some? then v else Get(rest, k)
    ensures key in KNOWN_KEYS ==> Unknown(Opt(key, v) + rest) == Unknown(rest)
  {
    if v.None? {
      assert Opt(key, v) + rest == rest;
    } else {
      assert (Opt(key, v) + rest)[1..] == rest;
    }
  }

  lemma {:induction false} UnknownKeeps(fields: seq<Field>)
    requires forall i :: 0 <= i < |fields| ==> fields[i].key !in KNOWN_KEYS
    ensures Unknown(fields) == fields
  {
    if fields != [] {
      UnknownKeeps(fields[1..]);
    }
  }

  /** Looking up any key of a printed plan finds the field the node has for it. */
  lemma ToPlanGet(n: ExplainNode, k: string)
    ensures Get(ToPlan(n).fields, k) ==
      if k == "stage" then Some(Str(n.stage))
      else if k == "indexName" && n.indexName.Some? then StrJson(n.indexName)
      else if k == "keyPattern" && n.keyPattern.Some? then n.keyPattern
      else if k == "docsExamined" && n.docsExamined.Some? then NumJson(n.docsExamined)
      else if k == "nReturned" && n.nReturned.Some? then NumJson(n.nReturned)
      else if k == "executionTimeMillisEstimate" && n.executionTimeMs.Some? then NumJson(n.executionTimeMs)
      else if k == "memUsage" && n.memUsage.Some? then NumJson(n.memUsage)
      else if k == "inputStages" then Some(Arr(ToPlans(n.children)))
      else Get(n.extra, k)
    ensures Unknown(ToPlan(n).fields) == Unknown(n.extra)
  {
    var f8 := Opt("inputStages", Some(Arr(ToPlans(n.children)))) + n.extra;
    GetOpt("inputStages", Some(Arr(ToPlans(n.children))), n.extra, k);
    var f7 := Opt("memUsage", NumJson(n.memUsage)) + f8;
    GetOpt("memUsage", NumJson(n.memUsage), f8, k);
    var f6 := Opt("executionTimeMillisEstimate", NumJson(n.executionTimeMs)) + f7;
    GetOpt("executionTimeMillisEstimate", NumJson(n.executionTimeMs), f7, k);
    var f5 := Opt("nReturned", NumJson(n.nReturned)) + f6;
    GetOpt("nReturned", NumJson(n.nReturned), f6, k);
    var f4 := Opt("docsExamined", NumJson(n.docsExamined)) + f5;
    GetOpt("docsExamined", NumJson(n.docsExamined), f5, k);
    var f3 := Opt("keyPattern", n.keyPattern) + f4;
    GetOpt("keyPattern", n.keyPattern, f4, k);
    var f2 := Opt("indexName", StrJson(n.indexName)) + f3;
    GetOpt("indexName", StrJson(n.indexName), f3, k);
    GetOpt("stage", Some(Str(n.stage)), f2, k);
  }

  /** Every field a node shows is read back from its printed plan. */
  lemma MakeNodeToPlan(n: ExplainNode, fields: seq<Field>)
    requires WellFormed(n) && fields == ToPlan(n).fields
    ensures MakeNode(fields, n.children) == n
    ensures Get(fields, "inputStage").None?
    ensures Get(fields, "inputStages") == Some(Arr(ToPlans(n.children)))
  {
    assert Unknown(fields) == n.extra by { ToPlanGet(n, "stage"); UnknownKeeps(n.extra); }
    assert StageName(Get(fields, "stage")) == n.stage by { ToPlanGet(n, "stage"); }
    assert StringOrNull(Get(fields, "indexName")) == n.indexName by { ToPlanGet(n, "indexName"); }
    assert ObjectOrNull(Get(fields, "keyPattern")) == n.keyPattern by { ToPlanGet(n, "keyPattern"); }
    assert NumberOrNull(Get(fields, "docsExamined")) == n.docsExamined by { ToPlanGet(n, "docsExamined"); }
    assert NumberOrNull(Get(fields, "nReturned")) == n.nReturned by { ToPlanGet(n, "nReturned"); }
    assert NumberOrNull(Get(fields, "executionTimeMillisEstimate")) == n.executionTimeMs by {
      ToPlanGet(n, "executionTimeMillisEstimate");
    }
    assert NumberOrNull(Get(fields, "memUsage")) == n.memUsage by { ToPlanGet(n, "memUsage"); }
    assert Get(fields, "inputStage").None? by { ToPlanGet(n, "inputStage"); }
    assert Get(fields, "inputStages") == Some(Arr(ToPlans(n.children))) by { ToPlanGet(n, "inputStages"); }
  }

  lemma WalkFields(fields: seq<Field>, kids: seq<Json>, n: ExplainNode)
    requires Get(fields, "inputStage").None? && Get(fields, "inputStages") == Some(Arr(kids))
    requires WalkAll(kids) == n.children && MakeNode(fields, n.children) == n
    ensures Walk(Obj(fields)) == Some(n)
  {
    assert [] + n.children == n.children;
  }

  /** Walking a printed plan gives back the very same tree. */
  lemma {:induction false} WalkToPlan(n: ExplainNode)
    requires WellFormed(n)
    ensures Walk(ToPlan(n)) == Some(n)
    decreases n, 0
  {
    WalkAllToPlans(n.children);
    var fields := ToPlan(n).fields;
    MakeNodeToPlan(n, fields);
    WalkFields(fields, ToPlans(n.children), n);
  }

  lemma {:induction false} WalkAllToPlans(ns: seq<ExplainNode>)
    requires AllWellFormed(ns)
    ensures WalkAll(ToPlans(ns)) == ns
    decreases ns, 0
  {
    if ns != [] {
      WalkToPlan(ns[0]);
      WalkAllToPlans(ns[1..]);
      var head, tail := ToPlan(ns[0]), ToPlans(ns[1..]);
      WalkAllCons(head, tail);
      assert ToPlans(ns) == [head] + tail;
      assert ToSeq(Walk(head)) == [ns[0]];
      assert [ns[0]] + ns[1..] == ns;
    }
  }

  lemma WalkAllCons(v: Json, rest: seq<Json>)
    ensures WalkAll([v] + rest) == ToSeq(Walk(v)) + WalkAll(rest)
  {
    assert ([v] + rest)[1..] == rest;
  }

  /** Every tree the walker builds is well formed, so the round trip covers all of them. */
  lemma {:induction false} WalkWellFormed(value: Json)
    ensures Walk(value).Some? ==> WellFormed(Walk(value).value)
    decreases value, 0
  {
    if value.Obj? {
      var single := Get(value.fields, "inputStage");
      var front := if Truthy(single) then ToSeq(Walk(single.value)) else [];
      if Truthy(single) {
        GetSmaller(value.fields, "inputStage");
        WalkWellFormed(single.value);
      }
      var items := InputStages(value.fields);
      if items != [] {
        GetSmaller(value.fields, "inputStages");
        WalkAllWellFormed(items);
      }
      MakeNodeWellFormed(value.fields, front, WalkAll(items));
      assert Walk(value) == Some(MakeNode(value.fields, front + WalkAll(items)));
    }
  }

  lemma MakeNodeWellFormed(fields: seq<Field>, front: seq<ExplainNode>, back: seq<ExplainNode>)
    requires AllWellFormed(front) && AllWellFormed(back)
    ensures WellFormed(MakeNode(fields, front + back))
  {
    AllWellFormedAppend(front, back);
  }

  lemma {:induction false} WalkAllWellFormed(values: seq<Json>)
    ensures AllWellFormed(WalkAll(values))
    decreases values, 0
  {
    if values != [] {
      WalkWellFormed(values[0]);
      WalkAllWellFormed(values[1..]);
      AllWellFormedAppend(ToSeq(Walk(values[0])), WalkAll(values[1..]));
    }
  }

  lemma {:induction false} AllWellFormedAppend(a: seq<ExplainNode>, b: seq<ExplainNode>)
    requires AllWellFormed(a) && AllWellFormed(b)
    ensures AllWellFormed(a + b)
  {
    if a == [] {
      assert a + b == b;
    } else {
      AllWellFormedAppend(a[1..], b);
      assert (a + b)[1..] == a[1..] + b;
    }
  }
}

/**
 What the plan walker reads from a plan, field by field (src/components/explainParser.ts). The keys and
 fixed texts are written out here.
 */
module PlanMeaning {
  import opened ExplainPlan
  import opened Options
  import opened Sequences

  /** The falsy values. */
  lemma FalsyIff(v: Option<Json>)
    ensures !Truthy(v) <==>
      v in {None, Some(Null), Some(Bool(false)), Some(Num(0.0)), Some(NaN), Some(Str(""))}
  {
  }

  function Text(v: Option<Json>): Option<string> {
    if v.Some? && v.value.Str? then Some(v.value.s) else None
  }

  function Number(v: Option<Json>): Option<real> {
    if v.Some? && v.value.Num? then Some(v.value.n) else None
  }

  /** The plan's own subtrees: one under `inputStage`, the others under `inputStages`. */
  function Children(fields: seq<Field>): seq<ExplainNode> {
    var one, many := Get(fields, "inputStage"), Get(fields, "inputStages");
    (if one.Some? then WalkAll([one.value]) else [])
    + (if many.Some? && many.value.Arr? then WalkAll(many.value.items) else [])
  }

  /** Every field of the node of an object; what is not an object has no node. */
  lemma NodeMeaning(fields: seq<Field>, v: Json)
    ensures !v.Obj? ==> Walk(v) == None
    ensures Walk(Obj(fields)).Some?
    ensures var n := Walk(Obj(fields)).value;
      var stage, key := Text(Get(fields, "stage")), Get(fields, "keyPattern");
      && n.stage == (if stage.Some? then stage.value else "(unknown)")
      && n.indexName == Text(Get(fields, "indexName"))
      && n.keyPattern == (if key.Some? && key.value.Obj? then key else None)
      && n.docsExamined == Number(Get(fields, "docsExamined"))
      && n.nReturned == Number(Get(fields, "nReturned"))
      && n.executionTimeMs == Number(Get(fields, "executionTimeMillisEstimate"))
      && n.memUsage == Number(Get(fields, "memUsage"))
      && n.extra == Unknown(fields)
      && n.children == Children(fields)
  {
    var one := Get(fields, "inputStage");
    if one.Some? {
      WalkAllOne(one.value);
    }
  }

  lemma WalkAllOne(v: Json)
    ensures WalkAll([v]) == ToSeq(Walk(v))
  {
    assert [v][1..] == [] && ToSeq(Walk(v)) + [] == ToSeq(Walk(v));
  }

  /** The trees of a list: that of each object in order. */
  lemma {:induction false} TreesMeaning(a: seq<Json>, b: seq<Json>, v: Json)
    ensures WalkAll([]) == [] && WalkAll(a + b) == WalkAll(a) + WalkAll(b)
    ensures WalkAll([v]) == if v.Obj? then [Walk(v).value] else []
  {
    WalkAllOne(v);
    if a == [] {
      assert a + b == b && [] + WalkAll(b) == WalkAll(b);
    } else {
      assert (a + b)[0] == a[0] && (a + b)[1..] == a[1..] + b;
      TreesMeaning(a[1..], b, v);
      PlusAssociates(ToSeq(Walk(a[0])), WalkAll(a[1..]), WalkAll(b));
    }
  }

  /** What a node keeps besides: the fields under other keys, in order. */
  lemma {:induction false} ExtraMeaning(a: seq<Field>, b: seq<Field>, f: Field)
    ensures Unknown([]) == [] && Unknown(a + b) == Unknown(a) + Unknown(b)
    ensures Unknown([f]) ==
      if f.key in {"stage", "inputStage", "inputStages", "indexName", "keyPattern", "isMultiKey", "isUnique",
                   "isSparse", "direction", "indexBounds", "docsExamined", "nReturned",
                   "executionTimeMillisEstimate", "memLimit", "memUsage", "sortPattern", "filter", "limitAmount",
                   "skipAmount"}
      then [] else [f]
  {
    assert [f][1..] == [];
    if a == [] {
      assert a + b == b && [] + Unknown(b) == Unknown(b);
    } else {
      assert (a + b)[0] == a[0] && (a + b)[1..] == a[1..] + b;
      ExtraMeaning(a[1..], b, f);
      var first := if a[0].key in KNOWN_KEYS then [] else [a[0]];
      assert first + Unknown(a[1..]) + Unknown(b) == first + (Unknown(a[1..]) + Unknown(b));
    }
  }

  /** The tree of a document: of its nested plan, of its pipeline's stages under one node, or its own. */
  lemma RootMeaning(doc: Option<Json>)
    ensures doc.None? || !doc.value.Obj? ==> Root(doc) == None
    ensures doc.Some? && doc.value.Obj? ==>
      var planner, stages := Get(doc.value.fields, "queryPlanner"), Get(doc.value.fields, "stages");
      var plan := if planner.Some? && planner.value.Obj? then Get(planner.value.fields, "winningPlan") else None;
      Root(doc) ==
        if Truthy(plan) then Walk(plan.value)
        else if stages.Some? && stages.value.Arr?
        then Some(ExplainNode("SHARDED_PIPELINE", None, None, None, None, None, None, [], WalkAll(stages.value.items)))
        else Walk(doc.value)
  {
    if doc.Some? && doc.value.Obj? {
      var stages := Get(doc.value.fields, "stages");
      if stages.Some? && stages.value.Arr? {
        var items := stages.value.items;
        assert stages == Some(Arr(items));
        PipelineNode(items);
        assert Truthy(Some(ShardedPipeline(Arr(items))));
      }
      assert Truthy(doc);
    }
  }

  lemma PipelineNode(stages: seq<Json>)
    ensures Walk(ShardedPipeline(Arr(stages)))
      == Some(ExplainNode("SHARDED_PIPELINE", None, None, None, None, None, None, [], WalkAll(stages)))
  {
    var fields := ShardedPipeline(Arr(stages)).fields;
    var second := [Field("inputStages", Arr(stages))];
    assert fields[1..] == second && second[1..] == [];
    NodeMeaning(fields, Null);
    assert Get(second, "inputStage").None? && Get(second, "inputStages") == Some(Arr(stages));
    assert Get(second, "indexName").None? && Get(second, "keyPattern").None? && Get(second, "docsExamined").None?;
    assert Get(second, "nReturned").None? && Get(second, "executionTimeMillisEstimate").None?;
    assert Get(second, "memUsage").None? && Unknown(second) == [] && Unknown(fields) == [];
    assert [] + WalkAll(stages) == WalkAll(stages);
  }
}

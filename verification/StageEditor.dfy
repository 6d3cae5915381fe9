/**
 The pipeline editor's list of stages (src/features/AggregationEditor.tsx).
 A key is `stage-<time in base 36>-<counter>`; the time stamp is any text without a dash.
 */
module StageEditor {
  import opened Decimals
  import opened Sequences

  datatype Stage = Stage(key: string, body: string)

  // ----- Keys -----

  function KeyText(stamp: string, counter: nat): string {
    "stage-" + stamp + "-" + Print(counter)
  }

  /** A key minted by the counter value `n`, at whatever time. */
  ghost predicate MintedAt(key: string, n: nat) {
    exists front: string :: key == front + "-" + Print(n)
  }

  /** The counter value is the part after the last dash, so different values give different keys. */
  lemma MintedOnce(key: string, m: nat, n: nat)
    requires MintedAt(key, m) && MintedAt(key, n)
    ensures m == n
  {
    var f: string :| key == f + "-" + Print(m);
    var g: string :| key == g + "-" + Print(n);
    PrintFree(m, '-');
    PrintFree(n, '-');
    SameTail(f, Print(m), g, Print(n));
    PrintInjective(m, n);
  }

  lemma SameTail(f: string, a: string, g: string, b: string)
    requires f + "-" + a == g + "-" + b && Free('-', a) && Free('-', b)
    ensures a == b
  {
    var s := f + "-" + a;
    LastSeparator(s, f, '-', a);
    LastSeparator(s, g, '-', b);
    assert |f| == |g|;
    assert a == s[|f| + 1..] && b == s[|g| + 1..];
  }

  // ----- Operations on lists -----

  /** The index of the stage with the key, or -1. */
  function FindIndex(stages: seq<Stage>, key: string): (r: int)
    ensures -1 <= r < |stages|
    ensures r >= 0 ==> stages[r].key == key && forall i :: 0 <= i < r ==> stages[i].key != key
    ensures r == -1 ==> forall i :: 0 <= i < |stages| ==> stages[i].key != key
  {
    if stages == [] then -1
    else if stages[0].key == key then 0
    else var r := FindIndex(stages[1..], key); if r == -1 then -1 else r + 1
  }

  /** `list` without its element at `i`. */
  function RemoveAt<T>(list: seq<T>, i: nat): seq<T>
    requires i < |list|
  {
    list[..i] + list[i + 1..]
  }

  /** `list` with `x` put before its element at `i`. */
  function InsertAt<T>(list: seq<T>, i: nat, x: T): seq<T>
    requires i <= |list|
  {
    list[..i] + [x] + list[i..]
  }

  function Moved(stages: seq<Stage>, fromKey: string, toKey: string): seq<Stage> {
    var from, to := FindIndex(stages, fromKey), FindIndex(stages, toKey);
    if fromKey == toKey || from == -1 || to == -1 then stages
    else Splice(stages, from, to)
  }

  function WithBody(stages: seq<Stage>, key: string, body: string): seq<Stage> {
    seq(|stages|, i requires 0 <= i < |stages| => if stages[i].key == key then Stage(key, body) else stages[i])
  }

  function WithoutKey(stages: seq<Stage>, key: string): (r: seq<Stage>)
    ensures forall s :: s in r <==> s in stages && s.key != key
    ensures |r| <= |stages|
  {
    if stages == [] then []
    else (if stages[0].key != key then [stages[0]] else []) + WithoutKey(stages[1..], key)
  }

  /** Only the stages of that key go; the others keep their order. */
  lemma {:induction false} WithoutMeans(a: seq<Stage>, b: seq<Stage>, s: Stage, key: string)
    ensures WithoutKey(a + b, key) == WithoutKey(a, key) + WithoutKey(b, key)
    ensures WithoutKey([], key) == [] && WithoutKey([s], key) == if s.key == key then [] else [s]
  {
    assert [s][1..] == [];
    if a == [] {
      assert a + b == b;
    } else {
      assert (a + b)[0] == a[0] && (a + b)[1..] == a[1..] + b;
      WithoutMeans(a[1..], b, s, key);
      PlusAssociates(if a[0].key != key then [a[0]] else [], WithoutKey(a[1..], key), WithoutKey(b, key));
    }
  }

  predicate DistinctKeys(stages: seq<Stage>) {
    forall i, j :: 0 <= i < j < |stages| ==> stages[i].key != stages[j].key
  }

  // ----- Moving -----

  /**
   A move puts the moved stage exactly where the target was, is a permutation, and leaves every other
   stage in its order: taking the moved stage out of both lists gives the same list.
   */
  lemma MoveStage(stages: seq<Stage>, fromKey: string, toKey: string)
    requires DistinctKeys(stages)
    ensures var out, from, to := Moved(stages, fromKey, toKey), FindIndex(stages, fromKey), FindIndex(stages, toKey);
      && multiset(out) == multiset(stages) && DistinctKeys(out) && |out| == |stages|
      && WithoutKey(out, fromKey) == WithoutKey(stages, fromKey)
      && (from >= 0 && to >= 0 ==> out[to] == stages[from])
      && (from == -1 || to == -1 ==> out == stages)
  {
    var from, to := FindIndex(stages, fromKey), FindIndex(stages, toKey);
    if fromKey != toKey && from >= 0 && to >= 0 {
      var out := Splice(stages, from, to);
      SpliceMoves(stages, from, to);
      PermutedKeys(stages, out);
      RemoveIsWithout(stages, from);
      RemoveIsWithout(out, to);
    }
  }

  /** The two splices: take out the element at `from`, put it in at `to`. */
  function Splice<T>(s: seq<T>, from: nat, to: nat): seq<T>
    requires from < |s| && to < |s|
  {
    InsertAt(RemoveAt(s, from), to, s[from])
  }

  lemma SpliceMoves<T>(s: seq<T>, from: nat, to: nat)
    requires from < |s| && to < |s|
    ensures var out := Splice(s, from, to);
      && |out| == |s| && multiset(out) == multiset(s)
      && out[to] == s[from] && RemoveAt(out, to) == RemoveAt(s, from)
      && (to <= from ==> out[..to] == s[..to])
  {
    MultisetRemove(s, from);
    MultisetInsert(RemoveAt(s, from), to, s[from]);
    InsertRemove(RemoveAt(s, from), to, s[from]);
    if to <= from {
      assert Splice(s, from, to)[..to] == RemoveAt(s, from)[..to];
    }
  }

  lemma InsertRemove<T>(s: seq<T>, i: nat, x: T)
    requires i <= |s|
    ensures InsertAt(s, i, x)[i] == x && RemoveAt(InsertAt(s, i, x), i) == s
  {
  }

  lemma MultisetRemove<T>(s: seq<T>, i: nat)
    requires i < |s|
    ensures multiset(s) == multiset(RemoveAt(s, i)) + multiset{s[i]}
  {
    assert s == s[..i] + [s[i]] + s[i + 1..];
  }

  lemma MultisetInsert<T>(s: seq<T>, i: nat, x: T)
    requires i <= |s|
    ensures multiset(InsertAt(s, i, x)) == multiset(s) + multiset{x}
  {
    assert s == s[..i] + s[i..];
  }

  /** Having distinct keys does not depend on the order. */
  lemma PermutedKeys(a: seq<Stage>, b: seq<Stage>)
    requires multiset(a) == multiset(b) && DistinctKeys(a)
    ensures DistinctKeys(b) && |a| == |b|
  {
    assert |multiset(a)| == |a| && |multiset(b)| == |b|;
    forall i, j | 0 <= i < j < |b|
      ensures b[i].key != b[j].key
    {
      SameKeySameStage(a, b, i, j);
      Twice(b, i, j);
      OnceOnly(a, b[i]);
    }
  }

  lemma SameKeySameStage(a: seq<Stage>, b: seq<Stage>, i: nat, j: nat)
    requires multiset(a) == multiset(b) && DistinctKeys(a) && i < |b| && j < |b|
    ensures b[i].key == b[j].key ==> b[i] == b[j]
  {
    assert b[i] in multiset(b) && b[j] in multiset(b);
    assert b[i] in a && b[j] in a;
  }

  lemma Twice(b: seq<Stage>, i: nat, j: nat)
    requires i < j < |b|
    ensures b[i] == b[j] ==> multiset(b)[b[i]] >= 2
  {
    assert b == b[..i] + [b[i]] + b[i + 1..j] + [b[j]] + b[j + 1..];
  }

  lemma {:induction false} OnceOnly(a: seq<Stage>, x: Stage)
    requires DistinctKeys(a)
    ensures multiset(a)[x] <= 1
  {
    if a != [] {
      assert a == [a[0]] + a[1..];
      if x == a[0] {
        assert x !in a[1..];
      } else {
        OnceOnly(a[1..], x);
      }
    }
  }

  lemma {:induction false} RemoveIsWithout(stages: seq<Stage>, i: nat)
    requires DistinctKeys(stages) && i < |stages|
    ensures RemoveAt(stages, i) == WithoutKey(stages, stages[i].key)
  {
    if i == 0 {
      WithoutAbsent(stages[1..], stages[0].key);
    } else {
      RemoveIsWithout(stages[1..], i - 1);
      assert RemoveAt(stages, i) == [stages[0]] + RemoveAt(stages[1..], i - 1);
    }
  }

  lemma {:induction false} WithoutAbsent(stages: seq<Stage>, key: string)
    requires forall i :: 0 <= i < |stages| ==> stages[i].key != key
    ensures WithoutKey(stages, key) == stages
  {
    if stages != [] {
      WithoutAbsent(stages[1..], key);
    }
  }

  // ----- Every order can be reached -----

  datatype Move = Move(fromKey: string, toKey: string)

  function MoveAll(stages: seq<Stage>, moves: seq<Move>): seq<Stage>
    decreases |moves|
  {
    if moves == [] then stages else MoveAll(Moved(stages, moves[0].fromKey, moves[0].toKey), moves[1..])
  }

  /** The moves that bring the target's stages to the front one after the other, from index `i` on. */
  function Plan(stages: seq<Stage>, target: seq<Stage>, i: nat): seq<Move>
    requires |stages| == |target|
    decreases |target| - i
  {
    if i >= |target| then []
    else
      var step := Move(target[i].key, stages[i].key);
      var next := Moved(stages, step.fromKey, step.toKey);
      if |next| != |target| then [] else [step] + Plan(next, target, i + 1)
  }

  /** One step of the plan puts the right stage at index `i` and keeps the indices before it. */
  lemma PlanStep(stages: seq<Stage>, target: seq<Stage>, i: nat)
    requires DistinctKeys(stages) && multiset(stages) == multiset(target) && |stages| == |target| && i < |target|
    requires stages[..i] == target[..i]
    ensures var next := Moved(stages, target[i].key, stages[i].key);
      DistinctKeys(next) && multiset(next) == multiset(target) && |next| == |target| && next[..i + 1] == target[..i + 1]
  {
    var next := Moved(stages, target[i].key, stages[i].key);
    MoveStage(stages, target[i].key, stages[i].key);
    var j := IndexBehind(stages, target, i);
    BroughtForward(stages, j, i);
    PrefixGrows(stages, next, target, i);
  }

  /** Moving the stage at `j` to an earlier stage's place puts it there and keeps what is before. */
  lemma BroughtForward(stages: seq<Stage>, j: nat, i: nat)
    requires DistinctKeys(stages) && i <= j < |stages|
    ensures var next := Moved(stages, stages[j].key, stages[i].key);
      |next| == |stages| && next[..i] == stages[..i] && next[i] == stages[j]
  {
    IndexOfKey(stages, j);
    IndexOfKey(stages, i);
    if j != i {
      SpliceMoves(stages, j, i);
    }
  }

  lemma PrefixGrows(stages: seq<Stage>, next: seq<Stage>, target: seq<Stage>, i: nat)
    requires |stages| == |target| == |next| && i < |target|
    requires stages[..i] == target[..i] && next[..i] == stages[..i] && next[i] == target[i]
    ensures next[..i + 1] == target[..i + 1]
  {
    assert next[..i + 1] == next[..i] + [next[i]];
    assert target[..i + 1] == target[..i] + [target[i]];
  }

  lemma IndexBehind(stages: seq<Stage>, target: seq<Stage>, i: nat) returns (j: nat)
    requires DistinctKeys(stages) && multiset(stages) == multiset(target) && |stages| == |target| && i < |target|
    requires stages[..i] == target[..i]
    ensures i <= j < |stages| && stages[j] == target[i]
  {
    PermutedKeys(stages, target);
    assert target[i] in multiset(target) && target[i] in multiset(stages);
    j :| 0 <= j < |stages| && stages[j] == target[i];
    assert forall k :: 0 <= k < i ==> stages[..i][k] == stages[k] && target[..i][k] == target[k];
  }

  lemma IndexOfKey(stages: seq<Stage>, i: nat)
    requires DistinctKeys(stages) && i < |stages|
    ensures FindIndex(stages, stages[i].key) == i
  {
  }

  lemma {:induction false} PlanReaches(stages: seq<Stage>, target: seq<Stage>, i: nat)
    requires DistinctKeys(stages) && multiset(stages) == multiset(target) && |stages| == |target| && i <= |target|
    requires stages[..i] == target[..i]
    ensures MoveAll(stages, Plan(stages, target, i)) == target
    ensures |Plan(stages, target, i)| == |target| - i
    decreases |target| - i
  {
    if i == |target| {
      assert stages[..i] == stages && target[..i] == target;
    } else {
      var next := Moved(stages, target[i].key, stages[i].key);
      PlanStep(stages, target, i);
      PlanReaches(next, target, i + 1);
      assert Plan(stages, target, i)[1..] == Plan(next, target, i + 1);
    }
  }

  /** Every permutation of the stages can be reached, with as many moves as there are stages. */
  lemma {:induction false} EveryOrderReachable(stages: seq<Stage>, target: seq<Stage>)
    requires DistinctKeys(stages) && multiset(stages) == multiset(target)
    ensures exists moves :: |moves| == |stages| && MoveAll(stages, moves) == target
  {
    PermutedKeys(stages, target);
    PlanReaches(stages, target, 0);
    assert |Plan(stages, target, 0)| == |stages|;
  }

  // ----- The editor -----

  datatype Action =
    | Add(stamp: string, body: string)
    | Edit(key: string, body: string)
    | Remove(key: string)
    | MoveTo(fromKey: string, toKey: string)
    | Clear

  datatype State = State(stages: seq<Stage>, counter: nat)

  function Step(s: State, a: Action): State {
    match a
    case Add(stamp, body) => State(s.stages + [Stage(KeyText(stamp, s.counter + 1), body)], s.counter + 1)
    case Edit(key, body) => s.(stages := WithBody(s.stages, key, body))
    case Remove(key) => s.(stages := WithoutKey(s.stages, key))
    case MoveTo(fromKey, toKey) => s.(stages := Moved(s.stages, fromKey, toKey))
    case Clear => s.(stages := [])
  }

  function Run(s: State, actions: seq<Action>): State
    decreases |actions|
  {
    if actions == [] then s else Run(Step(s, actions[0]), actions[1..])
  }

  class Editor {
    var stages: seq<Stage>
    var stageCounter: nat

    ghost function Value(): State
      reads this
    {
      State(stages, stageCounter)
    }

    constructor (counter: nat)
      ensures Value() == State([], counter)
    {
      stages, stageCounter := [], counter;
    }

    method MakeKey(stamp: string) returns (key: string)
      modifies this`stageCounter
      ensures stageCounter == old(stageCounter) + 1 && key == KeyText(stamp, stageCounter)
      ensures key == "stage-" + stamp + "-" + Print(stageCounter)
    {
      stageCounter := stageCounter + 1;
      key := "stage-" + stamp + "-" + Print(stageCounter);
    }

    method AddStage(stamp: string, body: string)
      modifies this
      ensures Value() == Step(old(Value()), Add(stamp, body))
      ensures stages == old(stages) + [Stage("stage-" + stamp + "-" + Print(old(stageCounter) + 1), body)]
    {
      var key := MakeKey(stamp);
      stages := stages + [Stage(key, body)];
    }

    method UpdateStageBody(key: string, body: string)
      modifies this`stages
      ensures Value() == Step(old(Value()), Edit(key, body))
      ensures |stages| == |old(stages)| && forall i :: 0 <= i < |stages| ==>
        stages[i] == if old(stages)[i].key == key then Stage(key, body) else old(stages)[i]
    {
      stages := seq(|stages|, i requires 0 <= i < |stages| reads this =>
        if stages[i].key == key then stages[i].(body := body) else stages[i]);
    }

    method RemoveStage(key: string)
      modifies this`stages
      ensures Value() == Step(old(Value()), Remove(key))
      ensures stages == WithoutKey(old(stages), key)
    {
      stages := WithoutKey(stages, key);
    }

    /** Two splices on a copy: take the stage out, then put it in at the target's old index. */
    method MoveStage(fromKey: string, toKey: string)
      modifies this`stages
      ensures Value() == Step(old(Value()), MoveTo(fromKey, toKey))
    {
      if fromKey == toKey { return; }
      var fromIdx := FindIndex(stages, fromKey);
      var toIdx := FindIndex(stages, toKey);
      if fromIdx == -1 || toIdx == -1 { return; }
      var next := stages;
      var moved := next[fromIdx];
      next := next[..fromIdx] + next[fromIdx + 1..];
      next := next[..toIdx] + [moved] + next[toIdx..];
      stages := next;
    }

    method ClearAll()
      modifies this`stages
      ensures Value() == Step(old(Value()), Clear) && stages == []
    {
      stages := [];
    }
  }

  /** Minted by a counter value that has been used. */
  ghost predicate Used(key: string, counter: nat) {
    exists n: nat :: n <= counter && MintedAt(key, n)
  }

  /** Every key was minted by a counter value that has been used, and no two stages share a key. */
  ghost predicate Inv(s: State) {
    && DistinctKeys(s.stages)
    && forall i :: 0 <= i < |s.stages| ==> Used(s.stages[i].key, s.counter)
  }

  lemma AddKeepsKeys(s: State, stamp: string, body: string)
    requires Inv(s)
    ensures Inv(Step(s, Add(stamp, body)))
  {
    var key := KeyText(stamp, s.counter + 1);
    assert key == ("stage-" + stamp) + "-" + Print(s.counter + 1);
    assert MintedAt(key, s.counter + 1);
    forall i | 0 <= i < |s.stages|
      ensures s.stages[i].key != key && Used(s.stages[i].key, s.counter + 1)
    {
      var n: nat :| n <= s.counter && MintedAt(s.stages[i].key, n);
      if s.stages[i].key == key {
        MintedOnce(key, n, s.counter + 1);
      }
    }
  }

  lemma EditKeepsKeys(s: State, key: string, body: string)
    requires Inv(s)
    ensures Inv(Step(s, Edit(key, body)))
  {
    var t := Step(s, Edit(key, body));
    assert forall i :: 0 <= i < |t.stages| ==> t.stages[i].key == s.stages[i].key;
  }

  lemma MoveKeepsKeys(s: State, fromKey: string, toKey: string)
    requires Inv(s)
    ensures Inv(Step(s, MoveTo(fromKey, toKey)))
  {
    var t := Step(s, MoveTo(fromKey, toKey));
    MoveStage(s.stages, fromKey, toKey);
    assert forall x :: x in t.stages ==> x in multiset(t.stages) && x in multiset(s.stages);
    KeysFrom(s, t);
  }

  lemma StepKeepsKeys(s: State, a: Action)
    requires Inv(s)
    ensures Inv(Step(s, a))
  {
    match a
    case Add(stamp, body) => AddKeepsKeys(s, stamp, body);
    case Edit(key, body) => EditKeepsKeys(s, key, body);
    case Remove(key) =>
      WithoutDistinct(s.stages, key);
      KeysFrom(s, Step(s, a));
    case MoveTo(fromKey, toKey) => MoveKeepsKeys(s, fromKey, toKey);
    case Clear =>
  }

  lemma KeysFrom(s: State, t: State)
    requires Inv(s) && t.counter == s.counter && forall x :: x in t.stages ==> x in s.stages
    ensures forall i :: 0 <= i < |t.stages| ==> Used(t.stages[i].key, t.counter)
  {
    forall i | 0 <= i < |t.stages|
      ensures Used(t.stages[i].key, t.counter)
    {
      assert t.stages[i] in s.stages;
    }
  }

  lemma {:induction false} WithoutDistinct(stages: seq<Stage>, key: string)
    requires DistinctKeys(stages)
    ensures DistinctKeys(WithoutKey(stages, key))
  {
    if stages != [] {
      WithoutDistinct(stages[1..], key);
      var rest := WithoutKey(stages[1..], key);
      assert forall i :: 0 <= i < |rest| ==> rest[i] in rest && rest[i] in stages[1..];
    }
  }

  /** Over every run of adds, edits, removals, moves and clears, no two stages ever share a key. */
  lemma {:induction false} KeysStayDistinct(s: State, actions: seq<Action>)
    requires Inv(s)
    ensures Inv(Run(s, actions))
    decreases |actions|
  {
    if actions != [] {
      StepKeepsKeys(s, actions[0]);
      KeysStayDistinct(Step(s, actions[0]), actions[1..]);
    }
  }
}

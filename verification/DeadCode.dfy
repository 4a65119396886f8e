/**
  The clean-up passes that act on what inference found: unreached statements are deleted, branches on
  constants are replaced, and labels are renumbered to their positions.
*/
module DeadCode {
  import opened Wrappers
  import opened InferenceDomain
  import opened TypeInference
  import opened InferenceFrame
  import opened InferenceSoundness

  // ----- replacing each element of a sequence by a block -----

  function FlatTo<X>(blocks: seq<seq<X>>, i: nat): seq<X>
    requires i <= |blocks|
  {
    if i == 0 then [] else FlatTo(blocks, i - 1) + blocks[i - 1]
  }

  function Offset<X>(blocks: seq<seq<X>>, i: nat): nat
    requires i <= |blocks|
  {
    |FlatTo(blocks, i)|
  }

  lemma {:induction false} FlatPrefix<X>(blocks: seq<seq<X>>, i: nat, j: nat)
    requires i <= j <= |blocks|
    ensures FlatTo(blocks, i) <= FlatTo(blocks, j)
    decreases j
  {
    if i < j {
      FlatPrefix(blocks, i, j - 1);
    }
  }

  /** The block that replaces element `i` stands at its offset. */
  lemma FlatBlock<X>(blocks: seq<seq<X>>, i: nat)
    requires i < |blocks|
    ensures Offset(blocks, i + 1) == Offset(blocks, i) + |blocks[i]| <= Offset(blocks, |blocks|)
    ensures forall k :: 0 <= k < |blocks[i]| ==> FlatTo(blocks, |blocks|)[Offset(blocks, i) + k] == blocks[i][k]
  {
    FlatPrefix(blocks, i + 1, |blocks|);
    forall k | 0 <= k < |blocks[i]|
      ensures FlatTo(blocks, |blocks|)[Offset(blocks, i) + k] == blocks[i][k]
    {
      assert FlatTo(blocks, i + 1)[Offset(blocks, i) + k] == blocks[i][k];
    }
  }

  /** Every element of the flattened sequence comes from some block. */
  lemma {:induction false} FlatOrigin<X>(blocks: seq<seq<X>>, n: nat, p: nat) returns (i: nat, k: nat)
    requires n <= |blocks| && p < Offset(blocks, n)
    ensures i < n && k < |blocks[i]| && p == Offset(blocks, i) + k && FlatTo(blocks, n)[p] == blocks[i][k]
  {
    if p >= Offset(blocks, n - 1) {
      i, k := n - 1, p - Offset(blocks, n - 1);
    } else {
      i, k := FlatOrigin(blocks, n - 1, p);
    }
  }

  // ----- deleting unreached statements -----

  /** A statement with the type recorded for its branch condition. */
  datatype Annotated<T, V, F> = Annotated(stmt: Stmt<V, F>, condition: Condition<T>)

  function Annotate<T(==), V, F, W>(d: Domain<T, V, F, W>, stmt: Stmt<V, F>, vtypes: VarTable<T>, ssa: SSATable<T>)
      : Annotated<T, V, F>
  {
    Annotated(stmt, if stmt.GotoIfNot? then d.condition(AbstractEval(d, stmt.cond, vtypes, ssa)) else Unknown)
  }

  /** Reached statements stay, annotated; of the others only metadata stays. */
  function KeptBlock<T(==), V, F, W>(d: Domain<T, V, F, W>, stmt: Stmt<V, F>, state: Option<VarTable<T>>,
      ssa: SSATable<T>)
      : seq<Annotated<T, V, F>>
  {
    if state.Some? then [Annotate(d, stmt, state.value, ssa)]
    else if stmt.Meta? then [Annotated(stmt, Unknown)]
    else []
  }

  function KeptBlocks<T(==), V, F, W>(d: Domain<T, V, F, W>, code: seq<Stmt<V, F>>, states: seq<Option<VarTable<T>>>,
                                     ssa: SSATable<T>): seq<seq<Annotated<T, V, F>>>
    requires |states| == |code|
  {
    seq(|code|, i requires 0 <= i < |code| => KeptBlock(d, code[i], states[i], ssa))
  }

  /** `at` lists, in order, exactly the positions of reached statements and metadata. */
  ghost predicate KeptAt<T, V, F>(code: seq<Stmt<V, F>>, stmtTypes: seq<Option<VarTable<T>>>, at: seq<nat>)
    requires |stmtTypes| == |code|
  {
    && (forall j, k :: 0 <= j < k < |at| ==> at[j] < at[k])
    && (forall k :: 0 <= k < |at| ==> at[k] < |code|)
    && (forall i: nat :: i < |code| ==> (i in at <==> stmtTypes[i].Some? || code[i].Meta?))
  }

  /** The statement itself, with the type of its branch condition if it is a reached branch. */
  ghost predicate IsAnnotated<T, V, F, W>(d: Domain<T, V, F, W>, a: Annotated<T, V, F>, stmt: Stmt<V, F>,
      state: Option<VarTable<T>>, ssa: SSATable<T>)
  {
    && a.stmt == stmt
    && a.condition ==
         if stmt.GotoIfNot? && state.Some? then d.condition(AbstractEval(d, stmt.cond, state.value, ssa)) else Unknown
  }

  /** `body` is what stands at these positions. */
  ghost predicate StandsAt<T, V, F, W>(d: Domain<T, V, F, W>, code: seq<Stmt<V, F>>,
      stmtTypes: seq<Option<VarTable<T>>>, ssa: SSATable<T>, body: seq<Annotated<T, V, F>>, at: seq<nat>)
    requires |stmtTypes| == |code|
  {
    && |at| == |body|
    && forall k :: 0 <= k < |at| ==> at[k] < |code| && IsAnnotated(d, body[k], code[at[k]], stmtTypes[at[k]], ssa)
  }

  ghost predicate KeepsExactly<T, V, F, W>(d: Domain<T, V, F, W>, code: seq<Stmt<V, F>>,
      stmtTypes: seq<Option<VarTable<T>>>, ssa: SSATable<T>, body: seq<Annotated<T, V, F>>, at: seq<nat>)
    requires |stmtTypes| == |code|
  {
    KeptAt(code, stmtTypes, at) && StandsAt(d, code, stmtTypes, ssa, body, at)
  }

  lemma {:induction false} KeptPositions<T, V, F, W>(d: Domain<T, V, F, W>, code: seq<Stmt<V, F>>,
      stmtTypes: seq<Option<VarTable<T>>>, ssa: SSATable<T>, n: nat) returns (at: seq<nat>)
    requires n <= |code| == |stmtTypes|
    ensures KeepsExactly(d, code[..n], stmtTypes[..n], ssa, FlatTo(KeptBlocks(d, code, stmtTypes, ssa), n), at)
  {
    hide KeepsExactly, KeptBlock;
    if n == 0 {
      at := [];
      KeepNothing(d, code[..0], stmtTypes[..0], ssa);
    } else {
      at := KeptPositions(d, code, stmtTypes, ssa, n - 1);
      KeepOneMore(d, code[..n - 1], stmtTypes[..n - 1], ssa, FlatTo(KeptBlocks(d, code, stmtTypes, ssa), n - 1), at,
                  code[n - 1], stmtTypes[n - 1]);
      at := if stmtTypes[n - 1].Some? || code[n - 1].Meta? then at + [n - 1] else at;
      assert code[..n] == code[..n - 1] + [code[n - 1]];
      assert stmtTypes[..n] == stmtTypes[..n - 1] + [stmtTypes[n - 1]];
    }
  }

  lemma KeepNothing<T, V, F, W>(d: Domain<T, V, F, W>, code: seq<Stmt<V, F>>, stmtTypes: seq<Option<VarTable<T>>>,
      ssa: SSATable<T>)
    requires code == [] && stmtTypes == []
    ensures KeepsExactly(d, code, stmtTypes, ssa, [], [])
  {
  }

  lemma KeepOneMore<T, V, F, W>(d: Domain<T, V, F, W>, code: seq<Stmt<V, F>>, stmtTypes: seq<Option<VarTable<T>>>,
      ssa: SSATable<T>, body: seq<Annotated<T, V, F>>, at: seq<nat>, stmt: Stmt<V, F>, state: Option<VarTable<T>>)
    requires |stmtTypes| == |code| && KeepsExactly(d, code, stmtTypes, ssa, body, at)
    ensures KeepsExactly(d, code + [stmt], stmtTypes + [state], ssa, body + KeptBlock(d, stmt, state, ssa),
                         if state.Some? || stmt.Meta? then at + [|code|] else at)
  {
    hide KeptAt, IsAnnotated, KeptBlock;
    OneMoreAt(code, stmtTypes, at, stmt, state);
    KeptBlockAnnotated(d, stmt, state, ssa);
  }

  lemma KeptBlockAnnotated<T, V, F, W>(d: Domain<T, V, F, W>, stmt: Stmt<V, F>, state: Option<VarTable<T>>,
      ssa: SSATable<T>)
    ensures var block := KeptBlock(d, stmt, state, ssa);
            if state.Some? || stmt.Meta? then |block| == 1 && IsAnnotated(d, block[0], stmt, state, ssa)
            else block == []
  {
  }

  lemma OneMoreAt<T, V, F>(code: seq<Stmt<V, F>>, stmtTypes: seq<Option<VarTable<T>>>, at: seq<nat>, stmt: Stmt<V, F>,
      state: Option<VarTable<T>>)
    requires |stmtTypes| == |code| && KeptAt(code, stmtTypes, at)
    ensures KeptAt(code + [stmt], stmtTypes + [state], if state.Some? || stmt.Meta? then at + [|code|] else at)
  {
    assert |code| !in at;
    if state.Some? || stmt.Meta? {
      var longer := at + [|code|];
      assert forall i :: i in longer <==> i in at || i == |code|;
    }
  }

  method TypeAnnotate<T(==), V, F, W>(d: Domain<T, V, F, W>, code: seq<Stmt<V, F>>, stmtTypes: seq<Option<VarTable<T>>>,
                                     ssa: SSATable<T>) returns (body: seq<Annotated<T, V, F>>)
    requires |stmtTypes| == |code|
    ensures body == FlatTo(KeptBlocks(d, code, stmtTypes, ssa), |code|)
    ensures exists at :: KeepsExactly(d, code, stmtTypes, ssa, body, at)
  {
    ghost var blocks := KeptBlocks(d, code, stmtTypes, ssa);
    ghost var done := 0;
    body := seq(|code|, i requires 0 <= i < |code| => Annotated(code[i], Unknown));
    ghost var initial := body;
    var states := stmtTypes;
    var i := 0;
    while i < |body|
      invariant 0 <= done <= |code| && 0 <= i <= |body| == |states|
      invariant body[..i] == FlatTo(blocks, done)
      invariant body[i..] == initial[done..] && states[i..] == stmtTypes[done..]
      decreases |body| - i
    {
      var stmt, state := body[i].stmt, states[i];
      assert stmt == body[i..][0].stmt == code[done] && state == states[i..][0] == stmtTypes[done];
      ghost var before, rest, restStates := body[..i], body[i + 1..], states[i + 1..];
      assert rest == body[i..][1..] == initial[done + 1..] && restStates == states[i..][1..] == stmtTypes[done + 1..];
      if state.Some? {
        body := body[i := Annotate(d, stmt, state.value, ssa)];
        i := i + 1;
      } else if stmt.Meta? {
        i := i + 1;
      } else {
        body := body[..i] + body[i + 1..];
        states := states[..i] + states[i + 1..];
      }
      assert body[..i] == before + blocks[done] && body[i..] == rest && states[i..] == restStates;
      done := done + 1;
    }
    assert body == body[..i];
    ghost var at := KeptPositions(d, code, stmtTypes, ssa, |code|);
    assert code[..|code|] == code && stmtTypes[..|code|] == stmtTypes;
    assert KeepsExactly(d, code, stmtTypes, ssa, body, at);
  }

  // ----- replacing branches on constants -----

  function BranchBlock<T, V, F>(a: Annotated<T, V, F>): seq<Annotated<T, V, F>> {
    if !a.stmt.GotoIfNot? then [a]
    else if a.condition.ConstTrue? then [Annotated(Eval(a.stmt.cond), Unknown)]
    else if a.condition.ConstFalse? then
      [Annotated(Eval(a.stmt.cond), Unknown), Annotated(Goto(a.stmt.target), Unknown)]
    else [a]
  }

  /** The last statement of a body is never rewritten. */
  function BranchBlocks<T, V, F>(body: seq<Annotated<T, V, F>>): seq<seq<Annotated<T, V, F>>> {
    seq(|body|, i requires 0 <= i < |body| => if i + 1 < |body| then BranchBlock(body[i]) else [body[i]])
  }

  /** Rewrite the statement at `i` in place: its condition, and a goto behind it when the branch is always taken. */
  method RewriteBranch<T, V, F>(body: seq<Annotated<T, V, F>>, i: nat)
      returns (body': seq<Annotated<T, V, F>>, next: nat)
    requires i < |body|
    ensures body' == body[..i] + BranchBlock(body[i]) + body[i + 1..]
    ensures next == i + |BranchBlock(body[i])|
  {
    var a := body[i];
    body', next := body, i + 1;
    if a.stmt.GotoIfNot? && (a.condition.ConstTrue? || a.condition.ConstFalse?) {
      body' := body'[i := Annotated(Eval(a.stmt.cond), Unknown)];
      if a.condition.ConstFalse? {
        body' := body'[..next] + [Annotated(Goto(a.stmt.target), Unknown)] + body'[next..];
        next := next + 1;
      }
    }
  }

  /** Before the last statement no branch has a constant condition. */
  ghost predicate NoConstantBranch<T, V, F>(body: seq<Annotated<T, V, F>>) {
    forall p :: 0 <= p < |body| - 1 && body[p].stmt.GotoIfNot? ==>
      !body[p].condition.ConstTrue? && !body[p].condition.ConstFalse?
  }

  lemma NoConstantInBlock<T, V, F>(a: Annotated<T, V, F>, k: nat)
    requires k < |BranchBlock(a)| && BranchBlock(a)[k].stmt.GotoIfNot?
    ensures !BranchBlock(a)[k].condition.ConstTrue? && !BranchBlock(a)[k].condition.ConstFalse?
  {
  }

  lemma ConstantBranchesGone<T, V, F>(body: seq<Annotated<T, V, F>>)
    ensures NoConstantBranch(FlatTo(BranchBlocks(body), |body|))
  {
    hide FlatTo, BranchBlock;
    var blocks := BranchBlocks(body);
    var flat := FlatTo(blocks, |blocks|);
    forall p | 0 <= p < |flat| - 1 && flat[p].stmt.GotoIfNot?
      ensures !flat[p].condition.ConstTrue? && !flat[p].condition.ConstFalse?
    {
      var j, k := FlatOrigin(blocks, |blocks|, p);
      FlatBlock(blocks, j);
      if j + 1 < |body| { NoConstantInBlock(body[j], k); }
    }
  }

  method GotoIfNotElim<T, V, F>(body: seq<Annotated<T, V, F>>) returns (body': seq<Annotated<T, V, F>>)
    ensures body' == FlatTo(BranchBlocks(body), |body|)
    ensures NoConstantBranch(body')
  {
    hide NoConstantBranch, BranchBlock;
    ConstantBranchesGone(body);
    ghost var blocks := BranchBlocks(body);
    ghost var done := 0;
    body' := body;
    var i := 0;
    while i + 1 < |body'|
      invariant 0 <= done <= |body| && 0 <= i <= |body'|
      invariant body != [] ==> done < |body|
      invariant body'[..i] == FlatTo(blocks, done)
      invariant body'[i..] == body[done..]
      decreases |body'| - i
    {
      ghost var before, rest := body'[..i], body'[i + 1..];
      assert body'[i] == body'[i..][0] == body[done] && rest == body'[i..][1..] == body[done + 1..];
      body', i := RewriteBranch(body', i);
      assert body'[..i] == before + blocks[done];
      assert body'[i..] == rest;
      done := done + 1;
    }
    if body != [] {
      assert blocks[done] == [body[done]] && body'[i..] == [body[done]];
      assert body' == body'[..i] + body'[i..];
    }
  }

  // ----- renumbering labels -----

  ghost predicate UniqueLabels<V, F>(code: seq<Stmt<V, F>>, bound: nat) {
    && (forall i :: 0 <= i < |code| && code[i].Label? ==> code[i].number < bound)
    && (forall i, j :: 0 <= i < j < |code| && code[i].Label? && code[j].Label? ==> code[i].number != code[j].number)
  }

  function Relabel<V, F>(code: seq<Stmt<V, F>>, i: nat): Stmt<V, F>
    requires i < |code|
  {
    match code[i]
    case Label(_) => Label(i)
    case Goto(l) => Goto(FindLabel(code, l))
    case GotoIfNot(cond, l) => if FindLabel(code, l) < |code| then GotoIfNot(cond, FindLabel(code, l)) else Eval(cond)
    case stmt => stmt
  }

  function Relabelled<V, F>(code: seq<Stmt<V, F>>): seq<Stmt<V, F>> {
    seq(|code|, i requires 0 <= i < |code| => Relabel(code, i))
  }

  lemma LabelAt<V, F>(code: seq<Stmt<V, F>>, bound: nat, i: nat)
    requires UniqueLabels(code, bound) && i < |code| && code[i].Label?
    ensures FindLabel(code, code[i].number) == i
  {
    var j := FindLabel(code, code[i].number);
    assert code[i] == Label(code[i].number);
  }

  /** Where each label number now stands, while every label takes its position as its number. */
  method NumberLabels<V, F>(code: seq<Stmt<V, F>>, labelCounter: nat)
      returns (mapping: seq<Option<nat>>, body: seq<Stmt<V, F>>)
    requires UniqueLabels(code, labelCounter)
    ensures |mapping| == labelCounter && |body| == |code|
    ensures forall l :: 0 <= l < labelCounter ==>
              mapping[l] == if FindLabel(code, l) < |code| then Some(FindLabel(code, l)) else None
    ensures forall k :: 0 <= k < |code| ==> body[k] == if code[k].Label? then Label(k) else code[k]
  {
    mapping := seq(labelCounter, _ => None);
    body := code;
    var i := 0;
    while i < |body|
      invariant 0 <= i <= |body| == |code| && |mapping| == labelCounter
      invariant forall l :: 0 <= l < labelCounter ==>
                  mapping[l] == if FindLabel(code, l) < i then Some(FindLabel(code, l)) else None
      invariant forall k :: 0 <= k < |code| ==> body[k] == if k < i && code[k].Label? then Label(k) else code[k]
    {
      if body[i].Label? {
        LabelAt(code, labelCounter, i);
        forall l | 0 <= l < labelCounter && FindLabel(code, l) == i ensures l == code[i].number {
          assert code[i] == Label(l);
        }
        mapping := mapping[body[i].number := Some(i)];
        body := body[i := Label(i)];
      }
      i := i + 1;
    }
  }

  /** Every goto must still have its label; a conditional branch whose label is gone keeps only its condition. */
  method ReindexLabels<V, F>(code: seq<Stmt<V, F>>, labelCounter: nat) returns (body: seq<Stmt<V, F>>)
    requires UniqueLabels(code, labelCounter)
    requires forall i :: 0 <= i < |code| && (code[i].Goto? || code[i].GotoIfNot?) ==> code[i].target < labelCounter
    requires forall i :: 0 <= i < |code| && code[i].Goto? ==> FindLabel(code, code[i].target) < |code|
    ensures body == Relabelled(code)
  {
    var mapping;
    mapping, body := NumberLabels(code, labelCounter);
    var i := 0;
    while i < |body|
      invariant 0 <= i <= |body| == |code|
      invariant forall k :: 0 <= k < i ==> body[k] == Relabel(code, k)
      invariant forall k :: i <= k < |code| ==> body[k] == if code[k].Label? then Label(k) else code[k]
    {
      var el := body[i];
      assert !code[i].Label? ==> el == code[i];
      if el.Goto? {
        var label' := mapping[el.target];
        assert label' != None;
        body := body[i := Goto(label'.value)];
      } else if el.GotoIfNot? {
        var label' := mapping[el.target];
        body := body[i := if label'.Some? then GotoIfNot(el.cond, label'.value) else Eval(el.cond)];
      }
      i := i + 1;
    }
  }
}

/** The clean-up passes keep every run: same effects in the same order, same result, same errors, same divergence. */
module OptimizedRuns {
  import opened Wrappers
  import opened InferenceDomain
  import opened TypeInference
  import opened Worklist
  import opened InferenceFrame
  import opened InferenceSoundness
  import opened DeadCode

  // ----- the optimised body, and where each original statement went -----

  function Strip<T, V, F>(body: seq<Annotated<T, V, F>>): seq<Stmt<V, F>> {
    seq(|body|, i requires 0 <= i < |body| => body[i].stmt)
  }

  function Reached<T(==), V, F, W>(d: Domain<T, V, F, W>, code: seq<Stmt<V, F>>, facts: Facts<T>)
      : seq<Annotated<T, V, F>>
    requires |facts.stmts| == |code|
  {
    FlatTo(KeptBlocks(d, code, facts.stmts, facts.ssa), |code|)
  }

  function Branched<T(==), V, F, W>(d: Domain<T, V, F, W>, code: seq<Stmt<V, F>>, facts: Facts<T>): seq<Stmt<V, F>>
    requires |facts.stmts| == |code|
  {
    var body := Reached(d, code, facts);
    Strip(FlatTo(BranchBlocks(body), |body|))
  }

  function Optimized<T(==), V, F, W>(d: Domain<T, V, F, W>, code: seq<Stmt<V, F>>, facts: Facts<T>): seq<Stmt<V, F>>
    requires |facts.stmts| == |code|
  {
    Relabelled(Branched(d, code, facts))
  }

  /** How many of the first `i` statements are kept. */
  function Kept<T(==), V, F, W>(d: Domain<T, V, F, W>, code: seq<Stmt<V, F>>, facts: Facts<T>, i: nat): nat
    requires |facts.stmts| == |code| && i <= |code|
  {
    Offset(KeptBlocks(d, code, facts.stmts, facts.ssa), i)
  }

  lemma {:induction false} KeptBounded<T, V, F, W>(d: Domain<T, V, F, W>, code: seq<Stmt<V, F>>, facts: Facts<T>,
      i: nat)
    requires |facts.stmts| == |code| && i <= |code|
    ensures Kept(d, code, facts, i) <= |Reached(d, code, facts)|
  {
    FlatPrefix(KeptBlocks(d, code, facts.stmts, facts.ssa), i, |code|);
  }

  /** The new position of original position `i`. */
  function Pos<T(==), V, F, W>(d: Domain<T, V, F, W>, code: seq<Stmt<V, F>>, facts: Facts<T>, i: nat): nat
    requires |facts.stmts| == |code| && i <= |code|
  {
    KeptBounded(d, code, facts, i);
    Offset(BranchBlocks(Reached(d, code, facts)), Kept(d, code, facts, i))
  }

  // ----- the statements at the new positions -----

  lemma KeptAt<T, V, F, W>(d: Domain<T, V, F, W>, code: seq<Stmt<V, F>>, facts: Facts<T>, i: nat)
    requires |facts.stmts| == |code| && i < |code| && facts.stmts[i].Some?
    ensures var j := Kept(d, code, facts, i);
            && j < |Reached(d, code, facts)| && Kept(d, code, facts, i + 1) == j + 1
            && Reached(d, code, facts)[j] == Annotate(d, code[i], facts.stmts[i].value, facts.ssa)
  {
    var blocks := KeptBlocks(d, code, facts.stmts, facts.ssa);
    FlatBlock(blocks, i);
    assert blocks[i] == [Annotate(d, code[i], facts.stmts[i].value, facts.ssa)];
    assert FlatTo(blocks, |blocks|)[Offset(blocks, i) + 0] == blocks[i][0];
  }

  /** A statement stays one statement; a branch on a constant becomes its condition, and a goto if always taken. */
  ghost predicate BecameAt<T, V, F>(E: seq<Stmt<V, F>>, p: nat, q: nat, a: Annotated<T, V, F>, last: bool) {
    && p < q <= |E|
    && if !last && a.stmt.GotoIfNot? && a.condition.ConstTrue? then q == p + 1 && E[p] == Eval(a.stmt.cond)
       else if !last && a.stmt.GotoIfNot? && a.condition.ConstFalse?
       then q == p + 2 && E[p] == Eval(a.stmt.cond) && E[p + 1] == Goto(a.stmt.target)
       else q == p + 1 && E[p] == a.stmt
  }

  lemma BranchedBlock<T, V, F>(body: seq<Annotated<T, V, F>>, j: nat)
    requires j < |body|
    ensures var blocks := BranchBlocks(body);
            BecameAt(Strip(FlatTo(blocks, |blocks|)), Offset(blocks, j), Offset(blocks, j + 1), body[j],
                     j + 1 == |body|)
  {
    var blocks := BranchBlocks(body);
    FlatBlock(blocks, j);
    assert blocks[j] == if j + 1 < |body| then BranchBlock(body[j]) else [body[j]];
    var E := Strip(FlatTo(blocks, |blocks|));
    assert E[Offset(blocks, j) + 0] == blocks[j][0].stmt;
    if |blocks[j]| == 2 {
      assert E[Offset(blocks, j) + 1] == blocks[j][1].stmt;
    }
  }

  /** No statement after `i` is kept. */
  ghost predicate IsLast<T, V, F>(code: seq<Stmt<V, F>>, facts: Facts<T>, i: nat)
    requires i < |code| == |facts.stmts|
  {
    forall j :: i < j < |code| ==> facts.stmts[j].None? && !code[j].Meta?
  }

  lemma {:induction false} NothingKept<T, V, F, W>(d: Domain<T, V, F, W>, code: seq<Stmt<V, F>>, facts: Facts<T>,
      i: nat, n: nat)
    requires i <= n <= |code| == |facts.stmts|
    ensures Kept(d, code, facts, i) <= Kept(d, code, facts, n)
    ensures Kept(d, code, facts, i) == Kept(d, code, facts, n) <==>
              forall j :: i <= j < n ==> facts.stmts[j].None? && !code[j].Meta?
    decreases n
  {
    hide Annotate;
    if i < n { NothingKept(d, code, facts, i, n - 1); }
  }

  lemma LastKept<T, V, F, W>(d: Domain<T, V, F, W>, code: seq<Stmt<V, F>>, facts: Facts<T>, i: nat)
    requires i < |code| == |facts.stmts|
    ensures IsLast(code, facts, i) <==> Kept(d, code, facts, i + 1) == |Reached(d, code, facts)|
  {
    NothingKept(d, code, facts, i + 1, |code|);
  }

  lemma BranchedAt<T, V, F, W>(d: Domain<T, V, F, W>, code: seq<Stmt<V, F>>, facts: Facts<T>, i: nat)
    requires |facts.stmts| == |code| && i < |code| && facts.stmts[i].Some?
    ensures BecameAt(Branched(d, code, facts), Pos(d, code, facts, i), Pos(d, code, facts, i + 1),
                     Annotate(d, code[i], facts.stmts[i].value, facts.ssa), IsLast(code, facts, i))
  {
    hide AbstractEval, Annotate, BecameAt, IsLast;
    KeptAt(d, code, facts, i);
    LastKept(d, code, facts, i);
    BranchedBlock(Reached(d, code, facts), Kept(d, code, facts, i));
  }

  /** Every label, goto and conditional branch that is left comes from a reached statement. */
  lemma JumpOrigin<T, V, F, W>(d: Domain<T, V, F, W>, code: seq<Stmt<V, F>>, facts: Facts<T>, p: nat) returns (i: nat)
    requires |facts.stmts| == |code| && p < |Branched(d, code, facts)|
    requires var s := Branched(d, code, facts)[p]; s.Label? || s.Goto? || s.GotoIfNot?
    ensures i < |code| && facts.stmts[i].Some?
    ensures var s := Branched(d, code, facts)[p];
            || (s == code[i] && p == Pos(d, code, facts, i))
            || (s.Goto? && code[i].GotoIfNot? && s.target == code[i].target
                && d.condition(AbstractEval(d, code[i].cond, facts.stmts[i].value, facts.ssa)).ConstFalse?)
  {
    hide AbstractEval, FlatTo;
    var kept := KeptBlocks(d, code, facts.stmts, facts.ssa);
    var body := Reached(d, code, facts);
    var blocks := BranchBlocks(body);
    var j, k := FlatOrigin(blocks, |blocks|, p);
    var i', k' := FlatOrigin(kept, |code|, j);
    i := i';
    assert kept[i] == KeptBlock(d, code[i], facts.stmts[i], facts.ssa);
    assert body[j] == kept[i][k'];
  }

  lemma LabelOrigin<T, V, F, W>(d: Domain<T, V, F, W>, code: seq<Stmt<V, F>>, nslots: nat, facts: Facts<T>, p: nat)
    requires |facts.stmts| == |code| && WfCode(code, nslots, |facts.ssa|)
    requires p < |Branched(d, code, facts)| && Branched(d, code, facts)[p].Label?
    ensures var l := Branched(d, code, facts)[p].number;
            l < |code| && code[l] == Label(l) && facts.stmts[l].Some? && p == Pos(d, code, facts, l)
  {
    var i := JumpOrigin(d, code, facts, p);
    assert WfStmt(code, i, nslots, |facts.ssa|);
  }

  /** A reached label is found at its new position; an unreached one is gone. */
  lemma LabelMoved<T, V, F, W>(d: Domain<T, V, F, W>, code: seq<Stmt<V, F>>, nslots: nat, facts: Facts<T>, l: nat)
    requires |facts.stmts| == |code| && WfCode(code, nslots, |facts.ssa|) && l < |code| && code[l] == Label(l)
    ensures var E := Branched(d, code, facts);
            if facts.stmts[l].Some? then FindLabel(E, l) == Pos(d, code, facts, l) < |E| else FindLabel(E, l) == |E|
  {
    var E := Branched(d, code, facts);
    var q := FindLabel(E, l);
    if q < |E| {
      LabelOrigin(d, code, nslots, facts, q);
    }
    if facts.stmts[l].Some? {
      BranchedAt(d, code, facts, l);
      assert E[Pos(d, code, facts, l)] == Label(l);
    }
  }

  /** After renumbering, a label's number is its position. */
  lemma RelabelledFind<V, F>(code: seq<Stmt<V, F>>, q: nat)
    requires q < |code| && code[q].Label?
    ensures FindLabel(Relabelled(code), q) == q
  {
    var i := FindLabel(Relabelled(code), q);
    assert Relabelled(code)[q] == Label(q);
    assert i < |code| ==> Relabelled(code)[i] == Relabel(code, i);
  }

  // ----- no reached jump has lost its label -----

  /** The branch that inference says can be taken leads to a reached statement. */
  lemma TargetReached<T(!new), V(!new), F, W>(d: Domain<T, V, F, W>, code: seq<Stmt<V, F>>, nslots: nat,
      facts: Facts<T>, i: nat)
    requires SoundLattice(d) && WfCode(code, nslots, |facts.ssa|) && |facts.stmts| == |code|
    requires i < |code| && Satisfied(d, code, facts, i) && facts.stmts[i].Some?
    ensures code[i].Goto? || code[i].GotoIfNot? ==> code[i].target < |code|
    ensures code[i].Goto? ==> facts.stmts[code[i].target].Some?
    ensures code[i].GotoIfNot? ==>
              var t := AbstractEval(d, code[i].cond, facts.stmts[i].value, facts.ssa);
              && (d.condition(t).ConstFalse? ==> facts.stmts[code[i].target].Some?)
              && (facts.stmts[code[i].target].None? ==> t == d.bottom || d.condition(t).ConstTrue?)
  {
    assert WfStmt(code, i, nslots, |facts.ssa|);
  }

  lemma GotosKeepLabels<T(!new), V(!new), F, W>(d: Domain<T, V, F, W>, code: seq<Stmt<V, F>>, nslots: nat,
      facts: Facts<T>)
    requires SoundLattice(d) && WfCode(code, nslots, |facts.ssa|) && |facts.stmts| == |code|
    requires Settled(d, code, facts, {})
    ensures var E := Branched(d, code, facts);
            && UniqueLabels(E, |code|)
            && (forall p :: 0 <= p < |E| && (E[p].Goto? || E[p].GotoIfNot?) ==> E[p].target < |code|)
            && (forall p :: 0 <= p < |E| && E[p].Goto? ==> FindLabel(E, E[p].target) < |E|)
  {
    var E := Branched(d, code, facts);
    forall p | 0 <= p < |E| && E[p].Label? ensures E[p].number < |code| && p == Pos(d, code, facts, E[p].number) {
      LabelOrigin(d, code, nslots, facts, p);
    }
    forall p | 0 <= p < |E| && (E[p].Goto? || E[p].GotoIfNot?)
      ensures E[p].target < |code| && (E[p].Goto? ==> FindLabel(E, E[p].target) < |E|)
    {
      var i := JumpOrigin(d, code, facts, p);
      assert WfStmt(code, i, nslots, |facts.ssa|);
      TargetReached(d, code, nslots, facts, i);
      LabelMoved(d, code, nslots, facts, E[p].target);
    }
  }

  // ----- the simulation -----

  /** Facts that settle a well-formed body. */
  ghost predicate Inferred<T(!new), V(!new), F(!new), W(!new)>(d: Domain<T, V, F, W>, code: seq<Stmt<V, F>>,
      nslots: nat, facts: Facts<T>)
  {
    && Sound(d) && WfCode(code, nslots, |facts.ssa|) && |facts.stmts| == |code|
    && Settled(d, code, facts, {})
  }

  /** The same status, seen in the optimised body. */
  function Moved<T(==), V, F, W>(d: Domain<T, V, F, W>, code: seq<Stmt<V, F>>, facts: Facts<T>, s: Status<V, W>)
      : Status<V, W>
    requires |facts.stmts| == |code|
  {
    if s.Running? then
      Running(s.cfg.(pc := if s.cfg.pc <= |code| then Pos(d, code, facts, s.cfg.pc) else s.cfg.pc))
    else s
  }

  lemma EndMoved<T, V, F, W>(d: Domain<T, V, F, W>, code: seq<Stmt<V, F>>, facts: Facts<T>)
    requires |facts.stmts| == |code|
    ensures Pos(d, code, facts, |code|) == |Optimized(d, code, facts)|
  {
  }

  lemma StartMoved<T, V, F, W>(d: Domain<T, V, F, W>, code: seq<Stmt<V, F>>, facts: Facts<T>)
    requires |facts.stmts| == |code|
    ensures Pos(d, code, facts, 0) == 0
  {
  }

  /** What stands at the new position of a reached statement that is not a conditional branch. */
  lemma PlainAt<T(!new), V(!new), F(!new), W(!new)>(d: Domain<T, V, F, W>, code: seq<Stmt<V, F>>, nslots: nat,
                                                   facts: Facts<T>, i: nat)
    requires Inferred(d, code, nslots, facts)
    requires i < |code| && facts.stmts[i].Some? && !code[i].GotoIfNot?
    ensures var N, p := Optimized(d, code, facts), Pos(d, code, facts, i);
            && p < |N| && Pos(d, code, facts, i + 1) == p + 1
            && match code[i]
               case Label(_) => N[p] == Label(p)
               case Goto(l) => l < |code| && N[p] == Goto(Pos(d, code, facts, l))
               case stmt => N[p] == stmt
  {
    hide AbstractEval, Settled, Sound, SoundLattice, Satisfied, Pos, Branched;
    BranchedAt(d, code, facts, i);
    var E, p := Branched(d, code, facts), Pos(d, code, facts, i);
    assert Optimized(d, code, facts)[p] == Relabel(E, p);
    if code[i].Goto? {
      SettledAt(d, code, nslots, facts, i);
      TargetReached(d, code, nslots, facts, i);
      assert WfStmt(code, i, nslots, |facts.ssa|);
      LabelMoved(d, code, nslots, facts, code[i].target);
    }
  }

  lemma SettledAt<T(!new), V(!new), F(!new), W(!new)>(d: Domain<T, V, F, W>, code: seq<Stmt<V, F>>, nslots: nat,
                                                     facts: Facts<T>, i: nat)
    requires Inferred(d, code, nslots, facts) && i < |code|
    ensures SoundLattice(d) && Satisfied(d, code, facts, i)
  {
  }

  /** A jump to the new position of a reached label lands there. */
  lemma JumpLands<T, V, F, W>(d: Domain<T, V, F, W>, code: seq<Stmt<V, F>>, nslots: nat, facts: Facts<T>, l: nat)
    requires |facts.stmts| == |code| && WfCode(code, nslots, |facts.ssa|) && l < |code| && code[l] == Label(l)
    requires facts.stmts[l].Some?
    ensures FindLabel(Optimized(d, code, facts), Pos(d, code, facts, l)) == Pos(d, code, facts, l)
    ensures FindLabel(code, l) == l
  {
    LabelMoved(d, code, nslots, facts, l);
    RelabelledFind(Branched(d, code, facts), Pos(d, code, facts, l));
    LabelFound(code, nslots, |facts.ssa|, l);
  }

  /** What a conditional branch became: itself, its condition alone, or its condition and a goto. */
  predicate BranchBecame<T, V(==), F(==)>(c: Condition<T>, cond: Expr<V, F>, last: bool, found: bool,
      N: seq<Stmt<V, F>>, p: nat, q: nat, target: nat)
    requires p < q <= |N|
  {
    if !last && c.ConstTrue? then q == p + 1 && N[p] == Eval(cond)
    else if !last && c.ConstFalse? then q == p + 2 && N[p] == Eval(cond) && N[p + 1] == Goto(target)
    else q == p + 1 && N[p] == if found then GotoIfNot(cond, target) else Eval(cond)
  }

  lemma BranchAt<T(!new), V(!new), F(!new), W(!new)>(d: Domain<T, V, F, W>, code: seq<Stmt<V, F>>, nslots: nat,
                                                    facts: Facts<T>, i: nat)
    requires Inferred(d, code, nslots, facts)
    requires i < |code| && facts.stmts[i].Some? && code[i].GotoIfNot?
    ensures var N, p, q := Optimized(d, code, facts), Pos(d, code, facts, i), Pos(d, code, facts, i + 1);
            var cond, l := code[i].cond, code[i].target;
            var t := AbstractEval(d, cond, facts.stmts[i].value, facts.ssa);
            && p < q <= |N| && l < |code| && code[l] == Label(l)
            && BranchBecame(d.condition(t), cond, IsLast(code, facts, i), facts.stmts[l].Some?, N, p, q,
                            Pos(d, code, facts, l))
            && (d.condition(t).ConstFalse? ==> facts.stmts[l].Some?)
            && (facts.stmts[l].None? ==> t == d.bottom || d.condition(t).ConstTrue?)
  {
    hide AbstractEval, Settled, Sound, SoundLattice, Satisfied, Pos, Branched;
    BranchedAt(d, code, facts, i);
    SettledAt(d, code, nslots, facts, i);
    TargetReached(d, code, nslots, facts, i);
    assert WfStmt(code, i, nslots, |facts.ssa|);
    LabelMoved(d, code, nslots, facts, code[i].target);
    var E, p := Branched(d, code, facts), Pos(d, code, facts, i);
    assert Optimized(d, code, facts)[p] == Relabel(E, p);
    if Pos(d, code, facts, i + 1) == p + 2 {
      assert Optimized(d, code, facts)[p + 1] == Relabel(E, p + 1);
    }
  }

  // ----- the shape of the optimised body -----

  /**
    `pos` says where each statement went: nothing is left of an unreached statement that is not metadata, and every
    other one stands at its place, with labels renumbered and branches on constants replaced.
  */
  ghost predicate CleanedAt<T, V, F, W>(d: Domain<T, V, F, W>, code: seq<Stmt<V, F>>, facts: Facts<T>,
      body: seq<Stmt<V, F>>, pos: seq<nat>, i: nat)
    requires i < |code| == |facts.stmts| && |pos| == |code| + 1
  {
    var p, q := pos[i], pos[i + 1];
    if facts.stmts[i].None? then
      if code[i].Meta? then q == p + 1 && p < |body| && body[p] == Meta else q == p
    else
      && p < q <= |body|
      && match code[i]
         case Label(_) => q == p + 1 && body[p] == Label(p)
         case Goto(l) => l < |code| && q == p + 1 && body[p] == Goto(pos[l])
         case GotoIfNot(cond, l) =>
           l < |code| &&
           BranchBecame(d.condition(AbstractEval(d, cond, facts.stmts[i].value, facts.ssa)), cond,
                        IsLast(code, facts, i), facts.stmts[l].Some?, body, p, q, pos[l])
         case stmt => q == p + 1 && body[p] == stmt
  }

  ghost predicate Cleaned<T, V, F, W>(d: Domain<T, V, F, W>, code: seq<Stmt<V, F>>, facts: Facts<T>,
      body: seq<Stmt<V, F>>, pos: seq<nat>)
    requires |code| == |facts.stmts|
  {
    && |pos| == |code| + 1 && pos[0] == 0 && pos[|code|] == |body|
    && forall i :: 0 <= i < |code| ==> CleanedAt(d, code, facts, body, pos, i)
  }

  function Positions<T(==), V, F, W>(d: Domain<T, V, F, W>, code: seq<Stmt<V, F>>, facts: Facts<T>): (pos: seq<nat>)
    requires |facts.stmts| == |code|
    ensures |pos| == |code| + 1
  {
    seq(|code| + 1, i requires 0 <= i < |code| + 1 => Pos(d, code, facts, i))
  }

  /** Every statement is where it should be, and nothing else is in the body. */
  lemma OptimizedIsClean<T(!new), V(!new), F(!new), W(!new)>(d: Domain<T, V, F, W>, code: seq<Stmt<V, F>>, nslots: nat,
      facts: Facts<T>)
    requires Inferred(d, code, nslots, facts)
    ensures Cleaned(d, code, facts, Optimized(d, code, facts), Positions(d, code, facts))
  {
    hide Settled, Sound, WfCode, Pos, Optimized, BranchBecame, AbstractEval, IsLast;
    StartMoved(d, code, facts);
    EndMoved(d, code, facts);
    var N, pos := Optimized(d, code, facts), Positions(d, code, facts);
    forall i | 0 <= i < |code| ensures CleanedAt(d, code, facts, N, pos, i) {
      if facts.stmts[i].None? {
        UnreachedAt(d, code, facts, i);
      } else if code[i].GotoIfNot? {
        BranchAt(d, code, nslots, facts, i);
      } else {
        PlainAt(d, code, nslots, facts, i);
      }
    }
  }

  /** An unreached statement takes no place, except metadata, which takes one. */
  lemma UnreachedAt<T, V, F, W>(d: Domain<T, V, F, W>, code: seq<Stmt<V, F>>, facts: Facts<T>, i: nat)
    requires i < |code| == |facts.stmts| && facts.stmts[i].None?
    ensures var N, p, q := Optimized(d, code, facts), Pos(d, code, facts, i), Pos(d, code, facts, i + 1);
            if code[i].Meta? then q == p + 1 && p < |N| && N[p] == Meta else q == p
  {
    hide FlatTo, BranchBlocks, Relabel, Reached, Kept, Branched;
    UnreachedKept(d, code, facts, i);
    var j := Kept(d, code, facts, i);
    if code[i].Meta? {
      BranchedBlock(Reached(d, code, facts), j);
      var E, p := Branched(d, code, facts), Pos(d, code, facts, i);
      PosIsOffset(d, code, facts, i);
      assert E[p] == Meta;
      MetaStays(E, p);
    } else {
      PosIsOffset(d, code, facts, i);
    }
  }

  lemma PosIsOffset<T, V, F, W>(d: Domain<T, V, F, W>, code: seq<Stmt<V, F>>, facts: Facts<T>, i: nat)
    requires i < |code| == |facts.stmts|
    ensures Kept(d, code, facts, i) <= Kept(d, code, facts, i + 1) <= |Reached(d, code, facts)|
    ensures Pos(d, code, facts, i) == Offset(BranchBlocks(Reached(d, code, facts)), Kept(d, code, facts, i))
    ensures Pos(d, code, facts, i + 1) == Offset(BranchBlocks(Reached(d, code, facts)), Kept(d, code, facts, i + 1))
    ensures |BranchBlocks(Reached(d, code, facts))| == |Reached(d, code, facts)|
    ensures Branched(d, code, facts) ==
            Strip(FlatTo(BranchBlocks(Reached(d, code, facts)), |Reached(d, code, facts)|))
  {
    hide FlatTo, Reached;
    KeptBounded(d, code, facts, i + 1);
    NothingKept(d, code, facts, i, i + 1);
  }

  lemma MetaStays<V, F>(E: seq<Stmt<V, F>>, p: nat)
    requires p < |E| && E[p] == Meta
    ensures Relabelled(E)[p] == Meta
  {
  }

  lemma UnreachedKept<T, V, F, W>(d: Domain<T, V, F, W>, code: seq<Stmt<V, F>>, facts: Facts<T>, i: nat)
    requires i < |code| == |facts.stmts| && facts.stmts[i].None?
    ensures var j := Kept(d, code, facts, i);
            if code[i].Meta?
            then Kept(d, code, facts, i + 1) == j + 1 && j < |Reached(d, code, facts)| &&
              Reached(d, code, facts)[j] == Annotated(Meta, Unknown)
            else Kept(d, code, facts, i + 1) == j
  {
    hide FlatTo;
    var kept := KeptBlocks(d, code, facts.stmts, facts.ssa);
    FlatBlock(kept, i);
    if code[i].Meta? {
      assert kept[i] == [Annotated(Meta, Unknown)];
      assert FlatTo(kept, |kept|)[Offset(kept, i) + 0] == kept[i][0];
    }
  }

  lemma BranchSimulated<T(!new), V(!new), F(!new), W(!new)>(d: Domain<T, V, F, W>, code: seq<Stmt<V, F>>, nslots: nat,
      facts: Facts<T>, c: Config<V, W>) returns (m: nat)
    requires Inferred(d, code, nslots, facts) && CoversConfig(d, facts, c)
    requires c.pc < |code| && code[c.pc].GotoIfNot?
    ensures 1 <= m <= 2
    ensures Steps(d, Optimized(d, code, facts), Moved(d, code, facts, Running(c)).cfg, m) ==
            Moved(d, code, facts, Step(d, code, c))
  {
    hide AbstractEval, Run, Settled, SoundCalls, SoundLattice, CoversSlots, CoversSSA, Pos, Optimized;
    BranchAt(d, code, nslots, facts, c.pc);
    var cond, l := code[c.pc].cond, code[c.pc].target;
    var N, c' := Optimized(d, code, facts), c.(pc := Pos(d, code, facts, c.pc));
    LabelFound(code, nslots, |facts.ssa|, l);
    if facts.stmts[l].Some? {
      JumpLands(d, code, nslots, facts, l);
    }
    if Run(d, cond, c.slots, c.ssa, c.world).Value? {
      EvalInhabited(d, cond, facts.stmts[c.pc].value, facts.ssa, facts.best, c);
      TypeInhabited(d, AbstractEval(d, cond, facts.stmts[c.pc].value, facts.ssa),
          Run(d, cond, c.slots, c.ssa, c.world).v);
    }
    m := if Pos(d, code, facts, c.pc + 1) == c'.pc + 2 then 2 else 1;
    assert Steps(d, N, c', 1) == Step(d, N, c');
  }

  /** One original step from a covered configuration is one or two steps of the optimised body. */
  lemma StepSimulated<T(!new), V(!new), F(!new), W(!new)>(d: Domain<T, V, F, W>, code: seq<Stmt<V, F>>, nslots: nat,
      facts: Facts<T>, c: Config<V, W>) returns (m: nat)
    requires Inferred(d, code, nslots, facts) && CoversConfig(d, facts, c) && c.pc <= |code|
    ensures 1 <= m <= 2
    ensures Steps(d, Optimized(d, code, facts), Moved(d, code, facts, Running(c)).cfg, m) ==
            Moved(d, code, facts, Step(d, code, c))
  {
    hide AbstractEval, Run, Settled, Sound, CoversSlots, CoversSSA, Pos, Optimized;
    var N, c' := Optimized(d, code, facts), c.(pc := Pos(d, code, facts, c.pc));
    assert Steps(d, N, c', 1) == Step(d, N, c');
    m := 1;
    if c.pc == |code| {
      EndMoved(d, code, facts);
    } else if code[c.pc].GotoIfNot? {
      m := BranchSimulated(d, code, nslots, facts, c);
    } else {
      PlainAt(d, code, nslots, facts, c.pc);
      if code[c.pc].Goto? {
        assert WfStmt(code, c.pc, nslots, |facts.ssa|);
        SettledAt(d, code, nslots, facts, c.pc);
        TargetReached(d, code, nslots, facts, c.pc);
        JumpLands(d, code, nslots, facts, code[c.pc].target);
      }
    }
  }

  lemma {:induction false} StepsCompose<T, V, F, W>(d: Domain<T, V, F, W>, code: seq<Stmt<V, F>>, c: Config<V, W>,
      j: nat, k: nat)
    ensures var s := Steps(d, code, c, j);
            Steps(d, code, c, j + k) == if s.Running? then Steps(d, code, s.cfg, k) else s
  {
    if k > 0 {
      StepsCompose(d, code, c, j, k - 1);
    }
  }

  /** Positions never run past the end of the body. */
  lemma StepInBody<T, V, F, W>(d: Domain<T, V, F, W>, code: seq<Stmt<V, F>>, c: Config<V, W>)
    ensures Step(d, code, c).Running? ==> Step(d, code, c).cfg.pc <= |code|
  {
  }

  /** The optimised body reaches the moved form of every status of the original, in at most twice as many steps. */
  lemma {:induction false} RunSimulated<T(!new), V(!new), F(!new), W(!new)>(d: Domain<T, V, F, W>,
      code: seq<Stmt<V, F>>, entry: VarTable<T>, facts: Facts<T>, c: Config<V, W>, k: nat) returns (m: nat)
    requires Inferred(d, code, |entry|, facts) && GoodFacts(d, entry, |code|, |facts.ssa|, facts)
    requires FreshConditions(d, code, entry) && Initial(d, entry, |facts.ssa|, c)
    ensures k <= m <= 2 * k
    ensures Steps(d, Optimized(d, code, facts), c, m) == Moved(d, code, facts, Steps(d, code, c, k))
    ensures Steps(d, code, c, k).Running? ==> Steps(d, code, c, k).cfg.pc <= |code|
  {
    hide Step, Settled, Sound, FreshConditions, Optimized, GoodFacts, WfCode, CoversConfig, Pos;
    var N := Optimized(d, code, facts);
    if k == 0 {
      m := 0;
      StartMoved(d, code, facts);
    } else {
      m := RunSimulated(d, code, entry, facts, c, k - 1);
      var s := Steps(d, code, c, k - 1);
      var m' := 1;
      if s.Running? {
        RunsCovered(d, code, entry, |facts.ssa|, facts, c, k - 1);
        m' := StepSimulated(d, code, |entry|, facts, s.cfg);
        StepInBody(d, code, s.cfg);
      }
      StepsCompose(d, N, c, m, m');
      m := m + m';
    }
  }

  /** Both bodies end in the same way or not at all: the same value, the same error, the same final world. */
  ghost predicate SameOutcomes<T, V(!new), F, W(!new)>(d: Domain<T, V, F, W>, code: seq<Stmt<V, F>>,
      body: seq<Stmt<V, F>>, entry: VarTable<T>, nssa: nat)
  {
    forall c: Config<V, W>, s: Status<V, W> :: Initial(d, entry, nssa, c) && !s.Running? ==>
      (EndsIn(d, code, c, s) <==> EndsIn(d, body, c, s))
  }

  ghost predicate EndsIn<T, V, F, W>(d: Domain<T, V, F, W>, code: seq<Stmt<V, F>>, c: Config<V, W>, s: Status<V, W>) {
    exists k :: Steps(d, code, c, k) == s
  }

  lemma OptimizationPreservesRuns<T(!new), V(!new), F(!new), W(!new)>(d: Domain<T, V, F, W>, code: seq<Stmt<V, F>>,
      entry: VarTable<T>, facts: Facts<T>)
    requires Inferred(d, code, |entry|, facts) && GoodFacts(d, entry, |code|, |facts.ssa|, facts)
    requires FreshConditions(d, code, entry)
    ensures SameOutcomes(d, code, Optimized(d, code, facts), entry, |facts.ssa|)
  {
    hide GoodFacts, Sound, Settled, FreshConditions, WfCode, Initial, Optimized, Steps;
    var N := Optimized(d, code, facts);
    forall c: Config<V, W>, s: Status<V, W> | Initial(d, entry, |facts.ssa|, c) && !s.Running?
      ensures EndsIn(d, code, c, s) <==> EndsIn(d, N, c, s)
    {
      if EndsIn(d, code, c, s) {
        var k :| Steps(d, code, c, k) == s;
        var m := RunSimulated(d, code, entry, facts, c, k);
        assert Steps(d, N, c, m) == s;
      }
      if EndsIn(d, N, c, s) {
        var m :| Steps(d, N, c, m) == s;
        var m' := RunSimulated(d, code, entry, facts, c, m);
        StepsCompose(d, N, c, m, m' - m);
        assert Steps(d, code, c, m) == s;
      }
    }
  }

  /** The result is again a well-formed body: labels number their positions and every jump has its label. */
  lemma OptimizedWellFormed<T(!new), V(!new), F(!new), W(!new)>(d: Domain<T, V, F, W>, code: seq<Stmt<V, F>>,
      nslots: nat, facts: Facts<T>)
    requires Inferred(d, code, nslots, facts) && facts.stmts[0].Some?
    ensures WfCode(Optimized(d, code, facts), nslots, |facts.ssa|)
  {
    GotosKeepLabels(d, code, nslots, facts);
    var E, N := Branched(d, code, facts), Optimized(d, code, facts);
    BranchedAt(d, code, facts, 0);
    forall p | 0 <= p < |N| ensures WfStmt(N, p, nslots, |facts.ssa|) {
      assert N[p] == Relabel(E, p);
      AssignOrigin(d, code, nslots, facts, p);
      if E[p].Goto? || E[p].GotoIfNot? {
        var q := FindLabel(E, E[p].target);
        if q < |E| {
          assert N[q] == Relabel(E, q);
        }
      }
    }
  }

  lemma AssignOrigin<T, V, F, W>(d: Domain<T, V, F, W>, code: seq<Stmt<V, F>>, nslots: nat, facts: Facts<T>, p: nat)
    requires |facts.stmts| == |code| && WfCode(code, nslots, |facts.ssa|) && p < |Branched(d, code, facts)|
    ensures match Branched(d, code, facts)[p]
            case Assign(slot, _) => slot < nslots
            case SSAAssign(id, _) => id < |facts.ssa|
            case _ => true
  {
    hide AbstractEval, FlatTo;
    var kept := KeptBlocks(d, code, facts.stmts, facts.ssa);
    var body := Reached(d, code, facts);
    var j, k := FlatOrigin(BranchBlocks(body), |body|, p);
    var i, k' := FlatOrigin(kept, |code|, j);
    assert kept[i] == KeptBlock(d, code[i], facts.stmts[i], facts.ssa);
    assert body[j] == kept[i][k'];
    assert WfStmt(code, i, nslots, |facts.ssa|);
  }

  /** Inference followed by the clean-up passes, in the order in which the compiler runs them. */
  method InferAndOptimize<T(!new, ==), V(!new), F(!new), W(!new)>(d: Domain<T, V, F, W>, code: seq<Stmt<V, F>>,
      entry: VarTable<T>, nssa: nat) returns (body: seq<Stmt<V, F>>, facts: Facts<T>)
    requires Sound(d) && WfCode(code, |entry|, nssa)
    ensures |facts.stmts| == |code| && |facts.ssa| == nssa && WfCode(body, |entry|, nssa)
    ensures exists pos :: Cleaned(d, code, facts, body, pos)
    ensures FreshConditions(d, code, entry) ==> SameOutcomes(d, code, body, entry, nssa)
  {
    hide Settled, GoodFacts, Sound, FreshConditions, SameOutcomes, WfCode, UniqueLabels, Cleaned;
    var stmts, ssa, best := Infer(d, code, entry, nssa);
    facts := Facts(stmts, ssa, best);
    InferredShape(d, code, entry, nssa, facts);
    var annotated := TypeAnnotate(d, code, stmts, ssa);
    annotated := GotoIfNotElim(annotated);
    GotosKeepLabels(d, code, |entry|, facts);
    body := ReindexLabels(Strip(annotated), |code|);
    OptimizedWellFormed(d, code, |entry|, facts);
    OptimizedIsClean(d, code, |entry|, facts);
    assert Cleaned(d, code, facts, body, Positions(d, code, facts));
    if FreshConditions(d, code, entry) {
      OptimizationPreservesRuns(d, code, entry, facts);
    }
  }

  lemma InferredShape<T(!new), V(!new), F(!new), W(!new)>(d: Domain<T, V, F, W>, code: seq<Stmt<V, F>>,
                                                        entry: VarTable<T>, nssa: nat, facts: Facts<T>)
    requires Sound(d) && GoodFacts(d, entry, |code|, nssa, facts)
    ensures SoundLattice(d) && |facts.stmts| == |code| > 0 && |facts.ssa| == nssa && facts.stmts[0].Some?
  {
  }
}

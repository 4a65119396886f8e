/**
  A condition read back from a variable: a body on which inference ends with facts that miss the value the
  body returns, and how such bodies are told apart by their text.
*/
module StaleCondition {
  import opened Wrappers
  import opened InferenceDomain
  import opened TypeInference
  import opened Worklist
  import opened InferenceFrame
  import opened InferenceSoundness
  import opened JuliaLattice

  // ----- the body, and what its statements pass on -----

  /** Slot 0 is x, slot 1 is c, slot 2 is y: x is replaced between the test stored in c and the branch on c. */
  const STALE: seq<Stmt<Val, Fun>> := [
    Assign(0, Call(Input({TInt, TString}), [])),
    Assign(1, Call(IsA(TInt), [Slot(0)])),
    Assign(0, Call(Input({TString}), [])),
    GotoIfNot(Slot(1), 6),
    Assign(2, Slot(0)),
    Return(Slot(2)),
    Label(6),
    Return(Lit(IntV(0)))]

  const INT: Plain := Union({TInt})
  const STRING: Plain := Union({TString})
  const EITHER: Plain := Union({TInt, TString})
  const STORED: Type := Conditional(0, INT, STRING)

  function Row(x: Plain, c: Type, y: Plain): VarTable<Type> {
    [VarState(P(x), x == BOTTOM), VarState(c, c == P(BOTTOM)), VarState(P(y), y == BOTTOM)]
  }

  /** The tables inference settles on: after the branch on c, x is taken to be an Int. */
  const STALE_FACTS: Facts<Type> := Facts([
    Some(Row(BOTTOM, P(BOTTOM), BOTTOM)),
    Some(Row(EITHER, P(BOTTOM), BOTTOM)),
    Some(Row(EITHER, STORED, BOTTOM)),
    Some(Row(STRING, STORED, BOTTOM)),
    Some(Row(INT, STORED, BOTTOM)),
    Some(Row(INT, STORED, INT)),
    Some(Row(STRING, STORED, BOTTOM)),
    Some(Row(STRING, STORED, BOTTOM))], [], P(INT))

  const STALE_START: Config<Val, seq<Val>> := Config(0, [None, None, None], [], [IntV(1), StringV("s")])

  const STALE_ENTRY: VarTable<Type> := Row(BOTTOM, P(BOTTOM), BOTTOM)

  /** Where the statements of STALE pass their tables. */
  function StaleNext(pc: nat): set<nat> {
    if pc == 3 then {4, 6} else if pc == 5 || pc >= 7 then {} else {pc + 1}
  }

  lemma CallOnSlot(f: Fun, x: nat, vtypes: VarTable<Type>)
    requires x < |vtypes| && vtypes[x].typ != P(BOTTOM)
    ensures AbstractEval(JULIA, Call(f, [Slot(x)]), vtypes, []) == CallType(f, [Slot(x)], [vtypes[x].typ])
  {
    var args: seq<Expr<Val, Fun>> := [Slot(x)];
    assert args[1..] == [];
    assert AbstractEvalArgs(JULIA, [Slot(x)], vtypes, []) == [vtypes[x].typ];
  }

  lemma InputType(declared: set<Base>, vtypes: VarTable<Type>)
    ensures AbstractEval(JULIA, Call(Input(declared), []), vtypes, []) == P(Union(declared))
  {
    assert AbstractEvalArgs(JULIA, [], vtypes, []) == [];
  }

  lemma RowUpdates(x: Plain, c: Type, y: Plain, x': Plain, c': Type, y': Plain)
    requires x' != BOTTOM && c' != P(BOTTOM) && y' != BOTTOM
    ensures Row(x, c, y)[0 := VarState(P(x'), false)] == Row(x', c, y)
    ensures Row(x, c, y)[1 := VarState(c', false)] == Row(x, c', y)
    ensures Row(x, c, y)[2 := VarState(P(y'), false)] == Row(x, c, y')
  {
  }

  lemma StaleTests()
    ensures CallType(IsA(TInt), [Slot(0)], [P(EITHER)]) == STORED
  {
    assert TString in EITHER.members;
    assert EITHER.members - {TInt} == {TString} && EITHER.members * {TInt} == {TInt};
  }

  /** An assignment passes on the updated table, once. */
  lemma AssignSends(f: Facts<Type>, pc: nat, t: Type)
    requires pc < |STALE| == |f.stmts| && f.stmts[pc].Some? && STALE[pc].Assign? && t != P(BOTTOM)
    requires STALE[pc].slot < |f.stmts[pc].value|
    requires AbstractEval(JULIA, STALE[pc].rhs, f.stmts[pc].value, f.ssa) == t
    ensures !Interpret(JULIA, STALE[pc], f.stmts[pc].value, f.ssa).Thrown?
    ensures forall target: nat, table :: Sends(JULIA, STALE, f, pc, target, table) <==>
              target == pc + 1 && table == f.stmts[pc].value[STALE[pc].slot := VarState(t, false)]
  {
  }

  lemma StaleAssigns(f: Facts<Type>, pc: nat)
    requires |f.stmts| == |STALE| && f.ssa == [] && pc in {0, 1, 2, 4} && f.stmts[pc] == STALE_FACTS.stmts[pc]
    ensures !Interpret(JULIA, STALE[pc], f.stmts[pc].value, f.ssa).Thrown?
    ensures forall target: nat, table :: Sends(JULIA, STALE, f, pc, target, table) <==>
              target == pc + 1 && Some(table) == STALE_FACTS.stmts[pc + 1]
  {
    hide CallType, Sends, Interpret;
    var vtypes := f.stmts[pc].value;
    if pc == 0 {
      InputType({TInt, TString}, vtypes);
      RowUpdates(BOTTOM, P(BOTTOM), BOTTOM, EITHER, STORED, INT);
      AssignSends(f, pc, P(EITHER));
    } else if pc == 1 {
      StaleTests();
      CallOnSlot(IsA(TInt), 0, vtypes);
      RowUpdates(EITHER, P(BOTTOM), BOTTOM, EITHER, STORED, INT);
      AssignSends(f, pc, STORED);
    } else if pc == 2 {
      InputType({TString}, vtypes);
      RowUpdates(EITHER, STORED, BOTTOM, STRING, STORED, INT);
      AssignSends(f, pc, P(STRING));
    } else {
      RowUpdates(INT, STORED, BOTTOM, INT, STORED, INT);
      AssignSends(f, pc, P(INT));
    }
  }

  /** The branch on the stored test refines x, whatever x is by now. */
  lemma StaleBranches(f: Facts<Type>)
    requires |f.stmts| == |STALE| && f.ssa == [] && f.stmts[3] == STALE_FACTS.stmts[3]
    ensures !Interpret(JULIA, STALE[3], f.stmts[3].value, f.ssa).Thrown?
    ensures forall target: nat, table :: Sends(JULIA, STALE, f, 3, target, table) <==>
              target in {4, 6} && Some(table) == STALE_FACTS.stmts[target]
  {
    RowUpdates(STRING, STORED, BOTTOM, INT, STORED, INT);
    RowUpdates(STRING, STORED, BOTTOM, STRING, STORED, INT);
    assert AbstractEval(JULIA, STALE[3].cond, f.stmts[3].value, f.ssa) == STORED;
  }

  lemma StaleSends(f: Facts<Type>, pc: nat)
    requires pc < |f.stmts| == |STALE| && f.ssa == [] && f.stmts[pc] == STALE_FACTS.stmts[pc]
    ensures !Interpret(JULIA, STALE[pc], f.stmts[pc].value, f.ssa).Thrown?
    ensures forall target: nat, table :: Sends(JULIA, STALE, f, pc, target, table) <==>
              target in StaleNext(pc) && Some(table) == STALE_FACTS.stmts[target]
  {
    if pc == 3 {
      StaleBranches(f);
    } else if pc in {0, 1, 2, 4} {
      StaleAssigns(f, pc);
    }
  }

  /** All that the statements of STALE can ever make of the initial facts. */
  ghost predicate StaleFacts(f: Facts<Type>) {
    && |f.stmts| == |STALE| && f.ssa == [] && f.best in {P(BOTTOM), P(Const(IntV(0))), P(INT)}
    && forall i :: 0 <= i < |f.stmts| && f.stmts[i].Some? ==> f.stmts[i] == STALE_FACTS.stmts[i]
  }

  lemma StaleAdvances(f: Facts<Type>, pc: nat, g: Facts<Type>)
    requires StaleFacts(f) && pc < |STALE| && f.stmts[pc].Some? && Advances(JULIA, STALE, f, pc, g)
    ensures StaleFacts(g)
  {
    hide Sends, Row;
    StaleSends(f, pc);
    if target: nat, table :| Sends(JULIA, STALE, f, pc, target, table) && target < |STALE|
                             && (f.stmts[target].Some? ==> |f.stmts[target].value| == |table|)
                             && g == f.(stmts := f.stmts[target := Joined(JULIA, f.stmts[target], table)])
    {
      assert Some(table) == STALE_FACTS.stmts[target];
    } else {
      StaleReturns(f, pc);
      assert g == f.(best := Widened(JULIA, f.best, AbstractEval(JULIA, STALE[pc].e, f.stmts[pc].value, [])));
    }
  }

  lemma StaleReturns(f: Facts<Type>, pc: nat)
    requires StaleFacts(f) && pc < |STALE| && STALE[pc].Return? && f.stmts[pc].Some?
    ensures Widened(JULIA, f.best, AbstractEval(JULIA, STALE[pc].e, f.stmts[pc].value, [])) in
            {P(BOTTOM), P(Const(IntV(0))), P(INT)}
    ensures AbstractEval(JULIA, STALE[pc].e, f.stmts[pc].value, []) == if pc == 5 then P(INT) else P(Const(IntV(0)))
  {
    assert pc == 5 || pc == 7;
    assert TString !in INT.members;
  }

  /** What inference finds for STALE, when it has settled, is exactly STALE_FACTS. */
  lemma StaleInferred(f: Facts<Type>)
    requires Derives(JULIA, STALE, InitialFacts(JULIA, |STALE|, STALE_ENTRY, 0), f)
    requires |f.stmts| == |STALE| && f.stmts[0].Some? && Settled(JULIA, STALE, f, {})
    ensures f == STALE_FACTS
  {
    hide Row, Sends, Advances;
    var all := iset g: Facts<Type> | StaleFacts(g);
    forall g, pc, h |
      g in all && 0 <= pc < |STALE| == |g.stmts| && g.stmts[pc].Some? && Advances(JULIA, STALE, g, pc, h)
      ensures h in all
    {
      StaleAdvances(g, pc, h);
    }
    assert Inductive(JULIA, STALE, all);
    assert f in all;
    StaleReaches(f, 0, 1);
    StaleReaches(f, 1, 2);
    StaleReaches(f, 2, 3);
    StaleReaches(f, 3, 4);
    StaleReaches(f, 3, 6);
    StaleReaches(f, 4, 5);
    StaleReaches(f, 6, 7);
    StaleReturns(f, 5);
    assert Satisfied(JULIA, STALE, f, 5);
    assert f.stmts == STALE_FACTS.stmts;
  }

  lemma StaleReaches(f: Facts<Type>, pc: nat, target: nat)
    requires StaleFacts(f) && pc < |STALE| && f.stmts[pc].Some? && target in StaleNext(pc)
    requires Settled(JULIA, STALE, f, {})
    ensures f.stmts[target].Some?
  {
    hide Row, Sends, Satisfied;
    StaleSends(f, pc);
    assert target < |STALE|;
    SatisfiedSends(JULIA, STALE, f, pc, target, STALE_FACTS.stmts[target].value);
  }

  /** The run takes the branch on the old test and returns the new, unrelated value. */
  lemma StaleRun()
    ensures Initial(JULIA, Row(BOTTOM, P(BOTTOM), BOTTOM), 0, STALE_START)
    ensures Steps(JULIA, STALE, STALE_START, 6) == Returned(StringV("s"), [])
  {
    StaleRunFirstHalf();
    var d, c := JULIA, STALE_START;
    var s3 := Steps(d, STALE, c, 3);
    var s4 := Steps(d, STALE, c, 4);
    assert s4 == Running(Config(4, [Some(StringV("s")), Some(BoolV(true)), None], [], []));
    var s5 := Steps(d, STALE, c, 5);
    assert s5 == Running(Config(5, [Some(StringV("s")), Some(BoolV(true)), Some(StringV("s"))], [], []));
  }

  lemma StaleRunFirstHalf()
    ensures Steps(JULIA, STALE, STALE_START, 3) ==
            Running(Config(3, [Some(StringV("s")), Some(BoolV(true)), None], [], []))
  {
    var d, c := JULIA, STALE_START;
    StaleRunFirst();
    var s1 := Config(1, [Some(IntV(1)), None, None], [], [StringV("s")]);
    var s2 := Config(2, [Some(IntV(1)), Some(BoolV(true)), None], [], [StringV("s")]);
    StaleRunSecond(s1, s2);
    assert Steps(d, STALE, c, 2) == Running(s2);
    assert RunArgs<Type, Val, Fun, seq<Val>>(d, [], s2.slots, [], s2.world) == Value([], s2.world);
  }

  lemma StaleRunSecond(c: Config<Val, seq<Val>>, c': Config<Val, seq<Val>>)
    requires c.pc == 1 && |c.slots| == 3 && c.slots[0] == Some(IntV(1))
    requires c' == c.(pc := 2, slots := c.slots[1 := Some(BoolV(true))])
    ensures Step(JULIA, STALE, c) == Running(c')
  {
    RunOneArgument(JULIA, Slot(0), c.slots, c.ssa, c.world);
  }

  lemma StaleRunFirst()
    ensures Steps(JULIA, STALE, STALE_START, 1) == Running(Config(1, [Some(IntV(1)), None, None], [], [StringV("s")]))
  {
    var c := STALE_START;
    assert RunArgs<Type, Val, Fun, seq<Val>>(JULIA, [], c.slots, [], c.world) == Value([], c.world);
    assert Steps(JULIA, STALE, c, 0) == Running(c);
  }

  /** A negation is in place when its argument is; a type test always is. */
  lemma NegationInPlace(stored: Stored, e: Expr<Val, Fun>, t: Base, args: seq<Expr<Val, Fun>>)
    ensures InPlace(JULIA, stored, Call(Not, [e])) == InPlace(JULIA, stored, e)
    ensures InPlace(JULIA, stored, Call(IsA(t), args))
  {
    if InPlace(JULIA, stored, Call(Not, [e])) {
      assert [e][0] == e && 0 in JULIA.forwards(Not, [e]);
    }
  }

  /**
    A body that stores the outcome of a test and branches on it later, plainly or negated, is told apart by
    its text.
  */
  lemma StoredTestNotFresh(code: seq<Stmt<Val, Fun>>, entry: VarTable<Type>, i: nat, pc: nat)
    requires i < |code| && code[i].Assign? && code[i].rhs.Call? && Tests(code[i].rhs.f, code[i].rhs.args)
    requires pc < |code| && code[pc].GotoIfNot?
    requires code[pc].cond in {Slot(code[i].slot), Call(Not, [Slot(code[i].slot)])}
    ensures !FreshConditions(JULIA, code, entry)
  {
    forall stored | HoldsTests(JULIA, code, entry, stored) ensures !BranchesInPlace(JULIA, code, stored) {
      assert MayTest(JULIA, stored, code[i].rhs);
      NegationInPlace(stored, Slot(code[i].slot), TBool, []);
    }
  }

  /** The same body with the test made where it is used, negated: its runs are covered. */
  lemma TestedInPlace()
    ensures FreshConditions(JULIA, STALE[3 := GotoIfNot(Call(Not, [Call(IsA(TInt), [Slot(0)])]), 6)], STALE_ENTRY)
  {
    var code := STALE[3 := GotoIfNot(Call(Not, [Call(IsA(TInt), [Slot(0)])]), 6)];
    var stored := Stored({1}, {});
    assert HoldsTests(JULIA, code, STALE_ENTRY, stored);
    NegationInPlace(stored, Call(IsA(TInt), [Slot(0)]), TInt, [Slot(0)]);
    assert BranchesInPlace(JULIA, code, stored);
  }

  /**
    Without `FreshConditions` coverage fails: a test stored in a variable still refines the variable it
    tested after that variable has been given a new value.
  */
  lemma StoredConditionBreaksCoverage()
    ensures Sound(JULIA) && WfCode(STALE, 3, 0) && !FreshConditions(JULIA, STALE, STALE_ENTRY)
    ensures Initial(JULIA, STALE_ENTRY, 0, STALE_START)
    ensures !CoversStatus(JULIA, STALE_FACTS, Steps(JULIA, STALE, STALE_START, 6))
  {
    hide Sound, Initial, Steps, FreshConditions, Row;
    JuliaSound();
    StaleRun();
    assert STALE[1].rhs.args[0] == Slot(0);
    StoredTestNotFresh(STALE, STALE_ENTRY, 1, 3);
    assert !IsaPlain(StringV("s"), INT);
  }

  /** Inference run on STALE finds these facts, and so misses the value that the run returns. */
  method InferStale() returns (stmts: seq<Option<VarTable<Type>>>, ssa: SSATable<Type>, best: Type)
    ensures Facts(stmts, ssa, best) == STALE_FACTS
    ensures !CoversStatus(JULIA, Facts(stmts, ssa, best), Steps(JULIA, STALE, STALE_START, 6))
  {
    hide Sound, Initial, Steps, FreshConditions, Settled, Derives;
    StoredConditionBreaksCoverage();
    assert |STALE_ENTRY| == 3;
    stmts, ssa, best := Infer(JULIA, STALE, STALE_ENTRY, 0);
    StaleInferred(Facts(stmts, ssa, best));
  }
}

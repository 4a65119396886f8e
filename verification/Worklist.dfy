/**
  One inference frame and the worklist loop over it. `lowest` is the pending position nearest the
  start of the body (the body's length when nothing is pending); `ip` is the set of pending positions.
*/
module Worklist {
  import opened Wrappers
  import opened WellFounded
  import opened InferenceDomain
  import opened TypeInference

  // ----- well-formed bodies -----

  ghost predicate WfStmt<V, F>(code: seq<Stmt<V, F>>, i: nat, nslots: nat, nssa: nat)
    requires i < |code|
  {
    match code[i]
    case Assign(slot, _) => slot < nslots
    case SSAAssign(id, _) => id < nssa
    case Label(l) => l == i
    case Goto(l) => l < |code| && code[l] == Label(l)
    case GotoIfNot(_, l) => l < |code| && code[l] == Label(l)
    case _ => true
  }

  /** Label numbers are positions and every jump goes to a label. */
  ghost predicate WfCode<V, F>(code: seq<Stmt<V, F>>, nslots: nat, nssa: nat) {
    code != [] && forall i :: 0 <= i < |code| ==> WfStmt(code, i, nslots, nssa)
  }

  // ----- interpreting one statement -----

  function Interpret<T(==), V, F, W>(d: Domain<T, V, F, W>, stmt: Stmt<V, F>, vtypes: VarTable<T>, ssa: SSATable<T>)
      : (changes: Changes<T>)
    ensures !changes.Thrown? ==> changes.state == vtypes
  {
    match stmt
    case Assign(slot, rhs) =>
      var t := AbstractEval(d, rhs, vtypes, ssa);
      if t == d.bottom then Thrown else SlotUpdate(slot, VarState(t, false), vtypes)
    case SSAAssign(id, rhs) =>
      var t := AbstractEval(d, rhs, vtypes, ssa);
      if t == d.bottom then Thrown else SSAUpdate(id, VarState(t, false), vtypes)
    case Eval(e) =>
      if e.Call? && AbstractEval(d, e, vtypes, ssa) == d.bottom then Thrown else Table(vtypes)
    case GotoIfNot(cond, _) =>
      if AbstractEval(d, cond, vtypes, ssa) == d.bottom then Thrown else Table(vtypes)
    case _ => Table(vtypes)
  }

  /** What flows to the statement after a conditional branch, and to its target. */
  function ThenChanges<T>(c: Condition<T>, vtypes: VarTable<T>): (changes: Changes<T>)
    ensures !changes.Thrown? && changes.state == vtypes
  {
    if c.Refine? then SlotUpdate(c.slot, VarState(c.vtype, false), vtypes) else Table(vtypes)
  }

  function ElseChanges<T>(c: Condition<T>, vtypes: VarTable<T>): (changes: Changes<T>)
    ensures !changes.Thrown? && changes.state == vtypes
  {
    if c.Refine? then SlotUpdate(c.slot, VarState(c.elsetype, false), vtypes) else Table(vtypes)
  }

  function StmtUses<V, F>(stmt: Stmt<V, F>): set<nat> {
    match stmt
    case Assign(_, e) => SSAUses(e)
    case SSAAssign(_, e) => SSAUses(e)
    case Eval(e) => SSAUses(e)
    case GotoIfNot(e, _) => SSAUses(e)
    case Return(e) => SSAUses(e)
    case _ => {}
  }

  // ----- when a statement needs no further visit -----

  ghost predicate Flows<T(!new), V, F, W>(d: Domain<T, V, F, W>, facts: Facts<T>, target: nat, table: VarTable<T>) {
    target < |facts.stmts| ==> facts.stmts[target].Some? && LeTable(d, table, facts.stmts[target].value)
  }

  /** The recorded facts already account for everything statement `r` does. */
  ghost predicate Satisfied<T(!new), V, F, W>(d: Domain<T, V, F, W>, code: seq<Stmt<V, F>>, facts: Facts<T>, r: nat)
    requires r < |code| == |facts.stmts|
  {
    facts.stmts[r].Some? ==>
      var vtypes := facts.stmts[r].value;
      var changes := Interpret(d, code[r], vtypes, facts.ssa);
      match changes
      case Thrown => true
      case SlotUpdate(_, _, _) => Flows(d, facts, r + 1, NewTable(changes))
      case SSAUpdate(id, vtype, _) =>
        && (id < |facts.ssa| ==> facts.ssa[id].Some? && d.le(vtype.typ, facts.ssa[id].value))
        && Flows(d, facts, r + 1, vtypes)
      case Table(_) =>
        match code[r]
        case Goto(l) => Flows(d, facts, l, vtypes)
        case Return(e) => d.le(AbstractEval(d, e, vtypes, facts.ssa), facts.best)
        case GotoIfNot(cond, l) =>
          var c := d.condition(AbstractEval(d, cond, vtypes, facts.ssa));
          && (!c.ConstFalse? ==> Flows(d, facts, r + 1, NewTable(ThenChanges(c, vtypes))))
          && (!c.ConstTrue? ==> Flows(d, facts, l, NewTable(ElseChanges(c, vtypes))))
        case _ => Flows(d, facts, r + 1, vtypes)
  }

  // ----- single moves of the abstract interpreter -----

  /** Statement `pc` is reached and passes `table` on to `target`. */
  ghost predicate Sends<T(!new), V, F, W>(d: Domain<T, V, F, W>, code: seq<Stmt<V, F>>, f: Facts<T>, pc: nat,
                                         target: nat, table: VarTable<T>)
    requires pc < |code| == |f.stmts| && f.stmts[pc].Some?
  {
    var vtypes := f.stmts[pc].value;
    var changes := Interpret(d, code[pc], vtypes, f.ssa);
    match code[pc]
    case SSAAssign(_, _) => target == pc + 1 && table == vtypes
    case Goto(l) => target == l && table == vtypes
    case Return(_) => false
    case GotoIfNot(cond, l) =>
      var c := d.condition(AbstractEval(d, cond, vtypes, f.ssa));
      && !changes.Thrown?
      && (|| (!c.ConstFalse? && target == pc + 1 && table == NewTable(ThenChanges(c, vtypes)))
          || (!c.ConstTrue? && target == l && table == NewTable(ElseChanges(c, vtypes))))
    case _ => !changes.Thrown? && target == pc + 1 && table == NewTable(changes)
  }

  /** A satisfied statement has got every table it sends to where it goes. */
  lemma SatisfiedSends<T(!new), V(!new), F, W>(d: Domain<T, V, F, W>, code: seq<Stmt<V, F>>, f: Facts<T>, pc: nat,
                                              target: nat, table: VarTable<T>)
    requires pc < |code| == |f.stmts| && f.stmts[pc].Some? && Satisfied(d, code, f, pc)
    requires Sends(d, code, f, pc, target, table) && !Interpret(d, code[pc], f.stmts[pc].value, f.ssa).Thrown?
    ensures Flows(d, f, target, table)
  {
  }

  /** The entry after `table` was joined into it. */
  function Joined<T(==), V, F, W>(d: Domain<T, V, F, W>, state: Option<VarTable<T>>, table: VarTable<T>)
      : Option<VarTable<T>>
    requires state.Some? ==> |state.value| == |table|
  {
    if Update(d, state, table).Some? then Update(d, state, table) else state
  }

  /** A slot is undefined in the joined entry only if it was, or is in the table that was joined in. */
  lemma JoinedExact<T, V, F, W>(d: Domain<T, V, F, W>, state: Option<VarTable<T>>, table: VarTable<T>)
    requires state.Some? ==> |state.value| == |table|
    ensures Joined(d, state, table).Some? && |Joined(d, state, table).value| == |table|
    ensures forall i :: 0 <= i < |table| ==>
              if state.None? then Joined(d, state, table).value[i] == table[i]
              else ExactJoin(d, state.value[i], table[i], Joined(d, state, table).value[i])
  {
    if state.Some? {
      JoinTableExact(d, state.value, table);
      forall i | 0 <= i < |table| && !Changed(d, table[i], state.value[i])
        ensures ExactJoin(d, state.value[i], table[i], state.value[i])
      {
        MergeStatesExact(d, state.value[i], table[i]);
      }
    }
  }

  function Widened<T, V, F, W>(d: Domain<T, V, F, W>, old': T, new': T): T {
    if d.le(new', old') then old' else d.merge(old', new')
  }

  function Recorded<T, V, F, W>(d: Domain<T, V, F, W>, old': Option<T>, new': T): Option<T> {
    Some(if old'.None? then new' else Widened(d, old'.value, new'))
  }

  /** One thing that statement `pc` does to the facts: pass its table on, give its SSA value a type, or return. */
  ghost predicate Advances<T(!new), V, F, W>(d: Domain<T, V, F, W>, code: seq<Stmt<V, F>>, f: Facts<T>, pc: nat,
      g: Facts<T>)
    requires pc < |code| == |f.stmts| && f.stmts[pc].Some?
  {
    || (exists target: nat, table :: Sends(d, code, f, pc, target, table) && target < |code| &&
          (f.stmts[target].Some? ==> |f.stmts[target].value| == |table|) &&
          g == f.(stmts := f.stmts[target := Joined(d, f.stmts[target], table)]))
    || (code[pc].SSAAssign? && code[pc].id < |f.ssa| &&
          var t := AbstractEval(d, code[pc].rhs, f.stmts[pc].value, f.ssa);
          t != d.bottom && g == f.(ssa := f.ssa[code[pc].id := Recorded(d, f.ssa[code[pc].id], t)]))
    || (code[pc].Return? &&
          g == f.(best := Widened(d, f.best, AbstractEval(d, code[pc].e, f.stmts[pc].value, f.ssa))))
  }

  /** The set contains what its members lead to. */
  ghost predicate Inductive<T(!new), V, F, W>(d: Domain<T, V, F, W>, code: seq<Stmt<V, F>>, all: iset<Facts<T>>) {
    forall f, g, pc :: f in all && 0 <= pc < |code| == |f.stmts| && f.stmts[pc].Some? && Advances(d, code, f, pc, g) ==>
      g in all
  }

  /** `g` can be reached from `f` by single moves of the statements: it is in every inductive set that has `f`. */
  ghost predicate Derives<T(!new), V, F, W>(d: Domain<T, V, F, W>, code: seq<Stmt<V, F>>, f: Facts<T>, g: Facts<T>) {
    forall all: iset<Facts<T>> :: f in all && Inductive(d, code, all) ==> g in all
  }

  lemma DerivesOne<T(!new), V, F, W>(d: Domain<T, V, F, W>, code: seq<Stmt<V, F>>, f: Facts<T>, pc: nat, g: Facts<T>)
    requires pc < |code| == |f.stmts| && f.stmts[pc].Some?
    requires f == g || Advances(d, code, f, pc, g)
    ensures Derives(d, code, f, g)
  {
  }

  lemma FlowDerives<T(!new), V, F, W>(d: Domain<T, V, F, W>, code: seq<Stmt<V, F>>, f: Facts<T>, pc: nat,
                                     target: nat, table: VarTable<T>, g: Facts<T>)
    requires pc < |code| == |f.stmts| && f.stmts[pc].Some? && target < |code|
    requires Sends(d, code, f, pc, target, table) && (f.stmts[target].Some? ==> |f.stmts[target].value| == |table|)
    requires g == f.(stmts := f.stmts[target := Joined(d, f.stmts[target], table)])
    ensures Derives(d, code, f, g)
  {
    hide Sends;
    assert Advances(d, code, f, pc, g);
    DerivesOne(d, code, f, pc, g);
  }

  /** Growing facts keep a statement satisfied as long as its own inputs stand. */
  lemma SatisfiedGrows<T(!new), V(!new), F, W>(d: Domain<T, V, F, W>, code: seq<Stmt<V, F>>,
                                              f: Facts<T>, g: Facts<T>, r: nat)
    requires SoundLattice(d) && r < |code| == |f.stmts| == |g.stmts|
    requires LeFacts(d)(f, g) && g.stmts[r] == f.stmts[r] && g.ssa == f.ssa
    requires Satisfied(d, code, f, r)
    ensures Satisfied(d, code, g, r)
  {
    hide SoundLattice, LeFacts, Flows;
    if f.stmts[r].Some? {
      var vtypes := f.stmts[r].value;
      var changes := Interpret(d, code[r], vtypes, f.ssa);
      if !changes.Thrown? {
        FlowsGrow(d, f, g, r + 1, NewTable(changes));
      }
      match code[r]
      case Goto(l) => FlowsGrow(d, f, g, l, vtypes);
      case GotoIfNot(cond, l) =>
        var c := d.condition(AbstractEval(d, cond, vtypes, f.ssa));
        FlowsGrow(d, f, g, r + 1, NewTable(ThenChanges(c, vtypes)));
        FlowsGrow(d, f, g, l, NewTable(ElseChanges(c, vtypes)));
      case Return(e) => ResultGrows(d, f, g, AbstractEval(d, e, vtypes, f.ssa));
      case _ =>
    }
  }

  lemma FlowsGrow<T(!new), V(!new), F, W>(d: Domain<T, V, F, W>, f: Facts<T>, g: Facts<T>, target: nat,
      table: VarTable<T>)
    requires SoundLattice(d) && LeFacts(d)(f, g)
    ensures Flows(d, f, target, table) ==> Flows(d, g, target, table)
  {
    assert LeStmts(d)(f.stmts, g.stmts);
    if Flows(d, f, target, table) && target < |f.stmts| {
      assert LeOption(LeSeq(LeVar(d)))(f.stmts[target], g.stmts[target]);
      TableTransitive(d, table, f.stmts[target].value, g.stmts[target].value);
    }
  }

  lemma LeTransitive<T(!new), V(!new), F, W>(d: Domain<T, V, F, W>, a: T, b: T, c: T)
    requires SoundLattice(d)
    ensures d.le(a, b) && d.le(b, c) ==> d.le(a, c)
  {
  }

  lemma ResultGrows<T(!new), V(!new), F, W>(d: Domain<T, V, F, W>, f: Facts<T>, g: Facts<T>, rt: T)
    requires SoundLattice(d) && LeFacts(d)(f, g)
    ensures d.le(rt, f.best) ==> d.le(rt, g.best)
  {
  }

  lemma TableTransitive<T(!new), V(!new), F, W>(d: Domain<T, V, F, W>, a: VarTable<T>, b: VarTable<T>, c: VarTable<T>)
    requires SoundLattice(d) && LeTable(d, a, b) && LeTable(d, b, c)
    ensures LeTable(d, a, c)
  {
    TablesNoInfiniteAscent(d);
  }

  /** A wider SSA type disturbs only the statements that read that SSA value. */
  lemma SatisfiedUnlessUser<T(!new), V(!new), F, W>(d: Domain<T, V, F, W>, code: seq<Stmt<V, F>>,
                                                   f: Facts<T>, g: Facts<T>, id: nat, r: nat)
    requires SoundLattice(d) && r < |code| == |f.stmts|
    requires id < |f.ssa| == |g.ssa| && id !in StmtUses(code[r])
    requires g == f.(ssa := f.ssa[id := g.ssa[id]]) && LeOption(d.le)(f.ssa[id], g.ssa[id])
    requires Satisfied(d, code, f, r)
    ensures Satisfied(d, code, g, r)
  {
    hide AbstractEval, NewTable, SSAUses, SoundLattice, LeTable;
    if f.stmts[r].Some? {
      InterpretReadsOnlyUses(d, code[r], f.stmts[r].value, f.ssa, g.ssa);
      match code[r]
      case SSAAssign(id', rhs) =>
        var t := AbstractEval(d, rhs, f.stmts[r].value, f.ssa);
        if id' == id && f.ssa[id].Some? {
          LeTransitive(d, t, f.ssa[id].value, g.ssa[id].value);
        }
      case GotoIfNot(e, _) => EvalReadsOnlyUses(d, e, f.stmts[r].value, f.ssa, g.ssa);
      case Return(e) => EvalReadsOnlyUses(d, e, f.stmts[r].value, f.ssa, g.ssa);
      case _ =>
    }
    forall target: nat, table: VarTable<T> | Flows(d, f, target, table) ensures Flows(d, g, target, table) {}
  }

  lemma InterpretReadsOnlyUses<T, V, F, W>(d: Domain<T, V, F, W>, stmt: Stmt<V, F>, vtypes: VarTable<T>,
                                          ssa: SSATable<T>, ssa': SSATable<T>)
    requires |ssa| == |ssa'| && forall id :: id in StmtUses(stmt) && id < |ssa| ==> ssa[id] == ssa'[id]
    ensures Interpret(d, stmt, vtypes, ssa) == Interpret(d, stmt, vtypes, ssa')
  {
    match stmt
    case Assign(_, e) => EvalReadsOnlyUses(d, e, vtypes, ssa, ssa');
    case SSAAssign(_, e) => EvalReadsOnlyUses(d, e, vtypes, ssa, ssa');
    case Eval(e) => EvalReadsOnlyUses(d, e, vtypes, ssa, ssa');
    case GotoIfNot(e, _) => EvalReadsOnlyUses(d, e, vtypes, ssa, ssa');
    case _ =>
  }

  // ----- which statements read an SSA value -----

  /** `uses[id]` is exactly the set of positions that read SSA value `id`, for every id the body mentions. */
  ghost predicate IsUses<V, F>(code: seq<Stmt<V, F>>, upTo: nat, uses: seq<set<nat>>)
    requires upTo <= |code|
  {
    && (forall id: nat, line: nat :: id < |uses| ==>
          (line in uses[id] <==> line < upTo && id in StmtUses(code[line])))
    && (forall line :: 0 <= line < upTo ==>
          && (forall id :: id in StmtUses(code[line]) ==> id < |uses|)
          && (code[line].SSAAssign? ==> code[line].id < |uses|))
  }

  ghost predicate AddedUses(line: nat, ids: set<nat>, uses: seq<set<nat>>, uses': seq<set<nat>>) {
    && |uses| <= |uses'|
    && (forall id :: id in ids ==> id < |uses'|)
    && (forall id: nat :: id < |uses'| ==>
          uses'[id] == (if id < |uses| then uses[id] else {}) + (if id in ids then {line} else {}))
  }

  lemma UsesExtended<V, F>(code: seq<Stmt<V, F>>, line: nat, before: seq<set<nat>>, after: seq<set<nat>>)
    requires line < |code| && IsUses(code, line, before)
    requires AddedUses(line, StmtUses(code[line]), before, after)
    requires code[line].SSAAssign? ==> code[line].id < |after|
    ensures IsUses(code, line + 1, after)
  {
    forall id: nat, r: nat | id < |after|
      ensures r in after[id] <==> r < line + 1 && id in StmtUses(code[r])
    {
      if id < |before| {
        assert r in after[id] <==> r in before[id] || (id in StmtUses(code[line]) && r == line);
      } else {
        assert r in after[id] <==> id in StmtUses(code[line]) && r == line;
      }
    }
  }

  method Reserve(id: nat, line: nat, uses: seq<set<nat>>) returns (uses': seq<set<nat>>)
    ensures AddedUses(line, {}, uses, uses') && id < |uses'|
  {
    uses' := uses;
    while |uses'| <= id
      invariant AddedUses(line, {}, uses, uses')
      decreases id - |uses'|
    {
      uses' := uses' + [{}];
    }
  }

  method CollectUses<V, F>(e: Expr<V, F>, uses: seq<set<nat>>, line: nat) returns (uses': seq<set<nat>>)
    ensures AddedUses(line, SSAUses(e), uses, uses')
    decreases e, 1
  {
    match e
    case SSA(id) =>
      uses' := Reserve(id, line, uses);
      uses' := uses'[id := uses'[id] + {line}];
    case Call(_, args) =>
      uses' := CollectUsesArgs(args, uses, line);
    case _ =>
      uses' := uses;
  }

  method CollectUsesArgs<V, F>(args: seq<Expr<V, F>>, uses: seq<set<nat>>, line: nat) returns (uses': seq<set<nat>>)
    ensures AddedUses(line, SSAUsesArgs(args), uses, uses')
    decreases args, 0
  {
    uses' := uses;
    if args != [] {
      var first := CollectUses(args[0], uses, line);
      uses' := CollectUsesArgs(args[1..], first, line);
    }
  }

  method FindSSAValueUses<V, F>(code: seq<Stmt<V, F>>) returns (uses: seq<set<nat>>)
    ensures IsUses(code, |code|, uses)
  {
    uses := [];
    var line := 0;
    while line < |code|
      invariant 0 <= line <= |code|
      invariant IsUses(code, line, uses)
    {
      ghost var before := uses;
      match code[line] {
        case Assign(_, rhs) => uses := CollectUses(rhs, uses, line);
        case SSAAssign(id, rhs) =>
          uses := Reserve(id, line, uses);
          uses := CollectUses(rhs, uses, line);
        case Eval(e) => uses := CollectUses(e, uses, line);
        case GotoIfNot(cond, _) => uses := CollectUses(cond, uses, line);
        case Return(e) => uses := CollectUses(e, uses, line);
        case _ =>
      }
      UsesExtended(code, line, before, uses);
      line := line + 1;
    }
  }
}

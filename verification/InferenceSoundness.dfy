/** The concrete machine, and the proof that inferred facts cover each of its runs. */
module InferenceSoundness {
  import opened Wrappers
  import opened InferenceDomain
  import opened TypeInference
  import opened Worklist
  import opened InferenceFrame

  // ----- the concrete machine -----

  datatype Config<V, W> = Config(pc: nat, slots: seq<Option<V>>, ssa: seq<Option<V>>, world: W)

  /** A run is still going, has returned a value, or has stopped with an error. */
  datatype Status<V, W> = Running(cfg: Config<V, W>) | Returned(v: V, world: W) | Failed(world: W)

  /** Jumps go to the position of the label, wherever it now is. */
  function FindLabel<V, F>(code: seq<Stmt<V, F>>, l: nat): (i: nat)
    ensures i <= |code|
    ensures i < |code| ==> code[i] == Label(l)
    ensures forall j :: 0 <= j < i ==> code[j] != Label(l)
  {
    if code == [] then 0
    else if code[0].Label? && code[0].number == l then 0
    else
      var i := FindLabel(code[1..], l);
      assert forall j :: 1 <= j < i + 1 ==> code[j] == code[1..][j - 1];
      i + 1
  }

  function Step<T, V, F, W>(d: Domain<T, V, F, W>, code: seq<Stmt<V, F>>, c: Config<V, W>): Status<V, W> {
    if c.pc >= |code| then Failed(c.world)
    else
      match code[c.pc]
      case Assign(slot, rhs) =>
        (match Run(d, rhs, c.slots, c.ssa, c.world)
         case Raised(w) => Failed(w)
         case Value(v, w) =>
           Running(Config(c.pc + 1, if slot < |c.slots| then c.slots[slot := Some(v)] else c.slots, c.ssa, w)))
      case SSAAssign(id, rhs) =>
        (match Run(d, rhs, c.slots, c.ssa, c.world)
         case Raised(w) => Failed(w)
         case Value(v, w) =>
           Running(Config(c.pc + 1, c.slots, if id < |c.ssa| then c.ssa[id := Some(v)] else c.ssa, w)))
      case Eval(e) =>
        (match Run(d, e, c.slots, c.ssa, c.world)
         case Raised(w) => Failed(w)
         case Value(_, w) => Running(c.(pc := c.pc + 1, world := w)))
      case Goto(l) => Running(c.(pc := FindLabel(code, l)))
      case GotoIfNot(cond, l) =>
        (match Run(d, cond, c.slots, c.ssa, c.world)
         case Raised(w) => Failed(w)
         case Value(v, w) =>
           match d.truth(v)
           case IsTrue => Running(c.(pc := c.pc + 1, world := w))
           case IsFalse => Running(c.(pc := FindLabel(code, l), world := w))
           case NotBool => Failed(d.notBoolError(w)))
      case Return(e) =>
        (match Run(d, e, c.slots, c.ssa, c.world)
         case Raised(w) => Failed(w)
         case Value(v, w) => Returned(v, w))
      case _ => Running(c.(pc := c.pc + 1))
  }

  /** The status after `k` steps. */
  function Steps<T, V, F, W>(d: Domain<T, V, F, W>, code: seq<Stmt<V, F>>, c: Config<V, W>, k: nat): Status<V, W> {
    if k == 0 then Running(c)
    else
      var s := Steps(d, code, c, k - 1);
      if s.Running? then Step(d, code, s.cfg) else s
  }

  // ----- what inferred facts promise -----

  ghost predicate CoversConfig<T, V, F, W>(d: Domain<T, V, F, W>, facts: Facts<T>, c: Config<V, W>) {
    && CoversSSA(d, facts.ssa, c.ssa)
    && (c.pc < |facts.stmts| ==> facts.stmts[c.pc].Some? && CoversSlots(d, facts.stmts[c.pc].value, c.slots))
  }

  ghost predicate CoversStatus<T, V, F, W>(d: Domain<T, V, F, W>, facts: Facts<T>, s: Status<V, W>) {
    match s
    case Running(c) => CoversConfig(d, facts, c)
    case Returned(v, _) => d.gamma(facts.best, v)
    case Failed(_) => true
  }

  /** `stored` holds every variable that starts with a condition or is assigned the outcome of a test. */
  predicate HoldsTests<T, V, F, W>(d: Domain<T, V, F, W>, code: seq<Stmt<V, F>>, entry: VarTable<T>, stored: Stored) {
    && (forall i :: 0 <= i < |entry| && d.condition(entry[i].typ).Refine? ==> i in stored.slots)
    && (forall pc :: 0 <= pc < |code| && code[pc].Assign? && MayTest(d, stored, code[pc].rhs) ==>
          code[pc].slot in stored.slots)
    && (forall pc :: 0 <= pc < |code| && code[pc].SSAAssign? && MayTest(d, stored, code[pc].rhs) ==>
          code[pc].id in stored.ssa)
  }

  /** No branch decides on a variable in `stored`, directly or through calls that hand on its condition. */
  predicate BranchesInPlace<T, V, F, W>(d: Domain<T, V, F, W>, code: seq<Stmt<V, F>>, stored: Stored) {
    forall pc :: 0 <= pc < |code| && code[pc].GotoIfNot? ==> InPlace(d, stored, code[pc].cond)
  }

  /** A branch refines a variable only on a condition computed in the branch itself: a property of the body's text. */
  ghost predicate FreshConditions<T, V, F, W>(d: Domain<T, V, F, W>, code: seq<Stmt<V, F>>, entry: VarTable<T>) {
    exists stored :: HoldsTests(d, code, entry, stored) && BranchesInPlace(d, code, stored)
  }

  /** The facts cover a configuration, and only variables in `stored` hold conditions. */
  ghost predicate Tracks<T, V, F, W>(d: Domain<T, V, F, W>, facts: Facts<T>, stored: Stored, c: Config<V, W>) {
    && CoversConfig(d, facts, c)
    && (c.pc < |facts.stmts| ==> Describes(d, stored, facts.stmts[c.pc].value, facts.ssa, c.slots, c.ssa))
  }

  ghost predicate TracksStatus<T, V, F, W>(d: Domain<T, V, F, W>, facts: Facts<T>, stored: Stored, s: Status<V, W>) {
    CoversStatus(d, facts, s) && (s.Running? ==> Tracks(d, facts, stored, s.cfg))
  }

  lemma LabelFound<V, F>(code: seq<Stmt<V, F>>, nslots: nat, nssa: nat, l: nat)
    requires WfCode(code, nslots, nssa) && l < |code| && code[l] == Label(l)
    ensures FindLabel(code, l) == l
  {
    var i := FindLabel(code, l);
    assert WfStmt(code, i, nslots, nssa);
  }

  /** A wider table still covers the slots; a value's type becomes a condition only if it was one. */
  lemma WidenedCovers<T(!new), V(!new), F, W>(d: Domain<T, V, F, W>, a: VarTable<T>, b: VarTable<T>,
      slots: seq<Option<V>>)
    requires SoundLattice(d) && CoversSlots(d, a, slots) && LeTable(d, a, b)
    ensures CoversSlots(d, b, slots)
    ensures forall i :: 0 <= i < |slots| && slots[i].Some? && d.condition(b[i].typ).Refine? ==>
              d.condition(a[i].typ).Refine?
  {
    forall i | 0 <= i < |slots|
      ensures if slots[i].Some? then d.gamma(b[i].typ, slots[i].value) else b[i].undef
      ensures slots[i].Some? && d.condition(b[i].typ).Refine? ==> d.condition(a[i].typ).Refine?
    {
      assert LeVar(d)(a[i], b[i]);
    }
  }

  /** The configuration a statement flows to is covered once the flow is recorded. */
  lemma FlowTracks<T(!new), V(!new), F, W>(d: Domain<T, V, F, W>, facts: Facts<T>, stored: Stored, table: VarTable<T>,
                                         c: Config<V, W>)
    requires SoundLattice(d) && Flows(d, facts, c.pc, table)
    requires Describes(d, stored, table, facts.ssa, c.slots, c.ssa)
    ensures Tracks(d, facts, stored, c)
  {
    if c.pc < |facts.stmts| {
      WidenedCovers(d, table, facts.stmts[c.pc].value, c.slots);
    }
  }

  /** A condition that evaluated to true or false leaves the refined table covering the slots. */
  lemma BranchTablesCover<T(!new), V(!new), F(!new), W(!new)>(d: Domain<T, V, F, W>, stored: Stored, cond: Expr<V, F>,
      vtypes: VarTable<T>, ssaTypes: SSATable<T>, slots: seq<Option<V>>, ssa: seq<Option<V>>, w: W)
    requires Sound(d) && Describes(d, stored, vtypes, ssaTypes, slots, ssa)
    requires Run(d, cond, slots, ssa, w).Value? && InPlace(d, stored, cond)
    ensures var k := d.condition(AbstractEval(d, cond, vtypes, ssaTypes));
            var v := Run(d, cond, slots, ssa, w).v;
            && AbstractEval(d, cond, vtypes, ssaTypes) != d.bottom
            && (d.truth(v).IsTrue? ==>
                  !k.ConstFalse? && Describes(d, stored, NewTable(ThenChanges(k, vtypes)), ssaTypes, slots, ssa))
            && (d.truth(v).IsFalse? ==>
                  !k.ConstTrue? && Describes(d, stored, NewTable(ElseChanges(k, vtypes)), ssaTypes, slots, ssa))
  {
    EvalSound(d, cond, vtypes, ssaTypes, slots, ssa, w);
    TypeInhabited(d, AbstractEval(d, cond, vtypes, ssaTypes), Run(d, cond, slots, ssa, w).v);
    if d.condition(AbstractEval(d, cond, vtypes, ssaTypes)).Refine? {
      RefinementSound(d, stored, cond, vtypes, ssaTypes, slots, ssa, w);
      RefinedDescribes(d, stored, d.condition(AbstractEval(d, cond, vtypes, ssaTypes)), vtypes, ssaTypes, slots, ssa,
                       d.truth(Run(d, cond, slots, ssa, w).v));
    }
  }

  lemma RefinedDescribes<T(!new), V(!new), F(!new), W(!new)>(d: Domain<T, V, F, W>, stored: Stored, c: Condition<T>,
      vtypes: VarTable<T>, ssaTypes: SSATable<T>, slots: seq<Option<V>>, ssa: seq<Option<V>>, truth: Truth)
    requires Describes(d, stored, vtypes, ssaTypes, slots, ssa) && c.Refine? && RefinesSlot(d, c, vtypes, slots, truth)
    ensures truth.IsTrue? ==> Describes(d, stored, NewTable(ThenChanges(c, vtypes)), ssaTypes, slots, ssa)
    ensures truth.IsFalse? ==> Describes(d, stored, NewTable(ElseChanges(c, vtypes)), ssaTypes, slots, ssa)
  {
  }

  lemma TypeInhabited<T(!new), V(!new), F, W>(d: Domain<T, V, F, W>, t: T, v: V)
    requires SoundLattice(d) && d.gamma(t, v)
    ensures t != d.bottom
    ensures d.condition(t).ConstTrue? ==> d.truth(v).IsTrue?
    ensures d.condition(t).ConstFalse? ==> d.truth(v).IsFalse?
  {
  }

  lemma BranchTracked<T(!new), V(!new), F(!new), W(!new)>(d: Domain<T, V, F, W>, code: seq<Stmt<V, F>>,
      nslots: nat, facts: Facts<T>, stored: Stored, c: Config<V, W>)
    requires Sound(d) && WfCode(code, nslots, |facts.ssa|) && |facts.stmts| == |code|
    requires c.pc < |code| && code[c.pc].GotoIfNot? && Satisfied(d, code, facts, c.pc)
    requires BranchesInPlace(d, code, stored) && Tracks(d, facts, stored, c)
    ensures TracksStatus(d, facts, stored, Step(d, code, c))
  {
    hide SoundLattice, SoundCalls, AbstractEval, Run, Describes, ThenChanges, ElseChanges, NewTable, Flows, InPlace;
    var vtypes, cond, l := facts.stmts[c.pc].value, code[c.pc].cond, code[c.pc].target;
    assert WfStmt(code, c.pc, nslots, |facts.ssa|);
    LabelFound(code, nslots, |facts.ssa|, l);
    var r := Run(d, cond, c.slots, c.ssa, c.world);
    if r.Value? {
      BranchTablesCover(d, stored, cond, vtypes, facts.ssa, c.slots, c.ssa, c.world);
      var k := d.condition(AbstractEval(d, cond, vtypes, facts.ssa));
      if d.truth(r.v).IsTrue? {
        FlowTracks(d, facts, stored, NewTable(ThenChanges(k, vtypes)), c.(pc := c.pc + 1, world := r.world));
      } else if d.truth(r.v).IsFalse? {
        FlowTracks(d, facts, stored, NewTable(ElseChanges(k, vtypes)), c.(pc := l, world := r.world));
      }
    }
  }

  /** One concrete step from a covered configuration leads to a covered status. */
  lemma StepCovered<T(!new), V(!new), F(!new), W(!new)>(d: Domain<T, V, F, W>, code: seq<Stmt<V, F>>,
      entry: VarTable<T>, facts: Facts<T>, stored: Stored, c: Config<V, W>)
    requires Sound(d) && WfCode(code, |entry|, |facts.ssa|) && |facts.stmts| == |code|
    requires c.pc < |code| && Satisfied(d, code, facts, c.pc)
    requires HoldsTests(d, code, entry, stored) && BranchesInPlace(d, code, stored) && Tracks(d, facts, stored, c)
    ensures TracksStatus(d, facts, stored, Step(d, code, c))
  {
    hide Run, AbstractEval, SoundLattice, SoundCalls, Flows, Describes, BranchesInPlace, MayTest, NewTable;
    var vtypes := facts.stmts[c.pc].value;
    assert WfStmt(code, c.pc, |entry|, |facts.ssa|);
    match code[c.pc]
    case Assign(slot, rhs) =>
      if Run(d, rhs, c.slots, c.ssa, c.world).Value? {
        EvalInhabited(d, rhs, vtypes, facts.ssa, facts.best, c);
        SlotDescribes(d, stored, slot, rhs, vtypes, facts.ssa, c);
        FlowTracks(d, facts, stored, NewTable(Interpret(d, code[c.pc], vtypes, facts.ssa)), Step(d, code, c).cfg);
      }
    case SSAAssign(id, rhs) =>
      if Run(d, rhs, c.slots, c.ssa, c.world).Value? {
        EvalInhabited(d, rhs, vtypes, facts.ssa, facts.ssa[id].GetOr(facts.best), c);
        SSADescribes(d, stored, id, rhs, vtypes, facts.ssa, c);
        FlowTracks(d, facts, stored, vtypes, Step(d, code, c).cfg);
      }
    case Eval(e) =>
      if Run(d, e, c.slots, c.ssa, c.world).Value? {
        EvalInhabited(d, e, vtypes, facts.ssa, facts.best, c);
        FlowTracks(d, facts, stored, vtypes, Step(d, code, c).cfg);
      }
    case Goto(l) =>
      LabelFound(code, |entry|, |facts.ssa|, l);
      FlowTracks(d, facts, stored, vtypes, Step(d, code, c).cfg);
    case GotoIfNot(_, _) => BranchTracked(d, code, |entry|, facts, stored, c);
    case Return(e) =>
      if Run(d, e, c.slots, c.ssa, c.world).Value? {
        EvalInhabited(d, e, vtypes, facts.ssa, facts.best, c);
      }
    case _ => FlowTracks(d, facts, stored, vtypes, Step(d, code, c).cfg);
  }

  /** A value that was produced lies in its inferred type, and in every type above that one. */
  lemma EvalInhabited<T(!new), V(!new), F(!new), W(!new)>(d: Domain<T, V, F, W>, e: Expr<V, F>,
      vtypes: VarTable<T>, ssaTypes: SSATable<T>, wider: T, c: Config<V, W>)
    requires Sound(d) && CoversSlots(d, vtypes, c.slots) && CoversSSA(d, ssaTypes, c.ssa)
    requires Run(d, e, c.slots, c.ssa, c.world).Value?
    ensures var t, v := AbstractEval(d, e, vtypes, ssaTypes), Run(d, e, c.slots, c.ssa, c.world).v;
            t != d.bottom && d.gamma(t, v) && (d.le(t, wider) ==> d.gamma(wider, v))
  {
    EvalSound(d, e, vtypes, ssaTypes, c.slots, c.ssa, c.world);
  }

  /** Assigning a slot: the new table describes the new slots. */
  lemma SlotDescribes<T(!new), V(!new), F(!new), W(!new)>(d: Domain<T, V, F, W>, stored: Stored, slot: nat,
      rhs: Expr<V, F>, vtypes: VarTable<T>, ssaTypes: SSATable<T>, c: Config<V, W>)
    requires Sound(d) && Describes(d, stored, vtypes, ssaTypes, c.slots, c.ssa)
    requires Run(d, rhs, c.slots, c.ssa, c.world).Value? && (MayTest(d, stored, rhs) ==> slot in stored.slots)
    ensures var t, v := AbstractEval(d, rhs, vtypes, ssaTypes), Run(d, rhs, c.slots, c.ssa, c.world).v;
            Describes(d, stored, NewTable(SlotUpdate(slot, VarState(t, false), vtypes)), ssaTypes,
                      if slot < |c.slots| then c.slots[slot := Some(v)] else c.slots, c.ssa)
  {
    EvalSound(d, rhs, vtypes, ssaTypes, c.slots, c.ssa, c.world);
    if d.condition(AbstractEval(d, rhs, vtypes, ssaTypes)).Refine? {
      RefinementSound(d, stored, rhs, vtypes, ssaTypes, c.slots, c.ssa, c.world);
    }
  }

  /** Assigning an SSA value whose recorded type is at least that of the expression. */
  lemma SSADescribes<T(!new), V(!new), F(!new), W(!new)>(d: Domain<T, V, F, W>, stored: Stored, id: nat,
      rhs: Expr<V, F>, vtypes: VarTable<T>, ssaTypes: SSATable<T>, c: Config<V, W>)
    requires Sound(d) && Describes(d, stored, vtypes, ssaTypes, c.slots, c.ssa) && id < |ssaTypes|
    requires Run(d, rhs, c.slots, c.ssa, c.world).Value? && (MayTest(d, stored, rhs) ==> id in stored.ssa)
    requires ssaTypes[id].Some? && d.le(AbstractEval(d, rhs, vtypes, ssaTypes), ssaTypes[id].value)
    ensures Describes(d, stored, vtypes, ssaTypes, c.slots, c.ssa[id := Some(Run(d, rhs, c.slots, c.ssa, c.world).v)])
  {
    EvalSound(d, rhs, vtypes, ssaTypes, c.slots, c.ssa, c.world);
    var t, v := AbstractEval(d, rhs, vtypes, ssaTypes), Run(d, rhs, c.slots, c.ssa, c.world).v;
    assert d.gamma(ssaTypes[id].value, v);
    if d.condition(t).Refine? {
      RefinementSound(d, stored, rhs, vtypes, ssaTypes, c.slots, c.ssa, c.world);
    }
  }

  /** Where a call starts: arguments in their slots, no SSA value assigned. */
  ghost predicate Initial<T, V, F, W>(d: Domain<T, V, F, W>, entry: VarTable<T>, nssa: nat, c: Config<V, W>) {
    && c.pc == 0 && CoversSlots(d, entry, c.slots)
    && |c.ssa| == nssa && forall i :: 0 <= i < nssa ==> c.ssa[i].None?
  }

  /** Settled facts cover every status of every run. */
  lemma {:induction false} RunTracked<T(!new), V(!new), F(!new), W(!new)>(d: Domain<T, V, F, W>, code: seq<Stmt<V, F>>,
      entry: VarTable<T>, nssa: nat, facts: Facts<T>, stored: Stored, c: Config<V, W>, k: nat)
    requires Sound(d) && WfCode(code, |entry|, nssa) && GoodFacts(d, entry, |code|, nssa, facts)
    requires Settled(d, code, facts, {}) && Initial(d, entry, nssa, c)
    requires HoldsTests(d, code, entry, stored) && BranchesInPlace(d, code, stored)
    ensures TracksStatus(d, facts, stored, Steps(d, code, c, k))
  {
    hide SoundLattice, SoundCalls, LeTable, Satisfied, BranchesInPlace, MayTest;
    if k == 0 {
      WidenedCovers(d, entry, facts.stmts[0].value, c.slots);
    } else {
      RunTracked(d, code, entry, nssa, facts, stored, c, k - 1);
      var s := Steps(d, code, c, k - 1);
      if s.Running? && s.cfg.pc < |code| {
        StepCovered(d, code, entry, facts, stored, s.cfg);
      }
    }
  }

  lemma RunsCovered<T(!new), V(!new), F(!new), W(!new)>(d: Domain<T, V, F, W>, code: seq<Stmt<V, F>>,
      entry: VarTable<T>, nssa: nat, facts: Facts<T>, c: Config<V, W>, k: nat)
    requires Sound(d) && WfCode(code, |entry|, nssa) && GoodFacts(d, entry, |code|, nssa, facts)
    requires Settled(d, code, facts, {}) && FreshConditions(d, code, entry)
    requires Initial(d, entry, nssa, c)
    ensures CoversStatus(d, facts, Steps(d, code, c, k))
  {
    var stored :| HoldsTests(d, code, entry, stored) && BranchesInPlace(d, code, stored);
    RunTracked(d, code, entry, nssa, facts, stored, c, k);
  }

  /** Before the first statement is interpreted: only it is reached, with the types of the arguments. */
  function InitialFacts<T, V, F, W>(d: Domain<T, V, F, W>, n: nat, entry: VarTable<T>, nssa: nat): Facts<T> {
    Facts(seq(n, i => if i == 0 then Some(entry) else None), seq(nssa, i => None), d.bottom)
  }

  /** Type inference as a whole: it always finishes, and what it found covers every run. */
  method Infer<T(!new, ==), V(!new), F(!new), W(!new)>(d: Domain<T, V, F, W>, code: seq<Stmt<V, F>>,
      entry: VarTable<T>, nssa: nat) returns (stmts: seq<Option<VarTable<T>>>, ssa: SSATable<T>, best: T)
    requires Sound(d) && WfCode(code, |entry|, nssa)
    ensures GoodFacts(d, entry, |code|, nssa, Facts(stmts, ssa, best)) && Settled(d, code, Facts(stmts, ssa, best), {})
    ensures Derives(d, code, InitialFacts(d, |code|, entry, nssa), Facts(stmts, ssa, best))
    ensures FreshConditions(d, code, entry) ==>
              forall c: Config<V, W>, k: nat :: Initial(d, entry, nssa, c) ==>
                CoversStatus(d, Facts(stmts, ssa, best), Steps(d, code, c, k))
  {
    var frame := new InferenceState(d, code, entry, nssa);
    assert frame.Facts() == InitialFacts(d, |code|, entry, nssa);
    frame.TypeInfWork();
    stmts, ssa, best := frame.stmtTypes, frame.ssaTypes, frame.bestguess;
    ghost var facts := Facts(stmts, ssa, best);
    if FreshConditions(d, code, entry) {
      forall c: Config<V, W>, k: nat | Initial(d, entry, nssa, c)
        ensures CoversStatus(d, facts, Steps(d, code, c, k))
      {
        RunsCovered(d, code, entry, nssa, facts, c, k);
      }
    }
  }
}

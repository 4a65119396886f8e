/**
  The program representation and the type lattice that inference runs over.

  Inference is parametric in the lattice and in the transfer function of calls; `Domain` packages
  them together with the concrete semantics they abstract, and `Sound` states what is asked of them.
  Positions in a body are counted from 0.
*/
module InferenceDomain {
  import opened Wrappers
  import opened WellFounded

  // ----- programs -----

  datatype Expr<V, F> =
    | Lit(value: V)
    | SSA(id: nat)
    | Slot(id: nat)
    | Call(f: F, args: seq<Expr<V, F>>)

  /** `Meta` stands for line numbers and the expression heads that carry only metadata. */
  datatype Stmt<V, F> =
    | Assign(slot: nat, rhs: Expr<V, F>)
    | SSAAssign(id: nat, rhs: Expr<V, F>)
    | Eval(e: Expr<V, F>)
    | Label(number: nat)
    | Goto(target: nat)
    | GotoIfNot(cond: Expr<V, F>, target: nat)
    | Return(e: Expr<V, F>)
    | Meta

  // ----- abstract and concrete states -----

  datatype VarState<T> = VarState(typ: T, undef: bool)
  type VarTable<T> = seq<VarState<T>>
  /** None is the "not found yet" marker NF. */
  type SSATable<T> = seq<Option<T>>

  /** What a type says about a branch condition: a constant, a refinement of one slot, or nothing. */
  datatype Condition<T> = ConstTrue | ConstFalse | Refine(slot: nat, vtype: T, elsetype: T) | Unknown

  datatype Truth = IsTrue | IsFalse | NotBool
  datatype Outcome<V, W> = Value(v: V, world: W) | Raised(world: W)

  datatype Domain<!T, !V, !F, !W> = Domain(
    // the lattice
    le: (T, T) -> bool,
    merge: (T, T) -> T,
    bottom: T,
    condition: T -> Condition<T>,
    // abstract evaluation
    literal: V -> T,
    call: (F, seq<Expr<V, F>>, seq<T>) -> T,
    // which calls can have a condition as their type: a test of an argument that is a plain slot,
    // or the condition of one of the arguments in these positions, kept or negated
    tests: (F, seq<Expr<V, F>>) -> bool,
    forwards: (F, seq<Expr<V, F>>) -> set<nat>,
    // concrete meaning
    gamma: (T, V) -> bool,
    truth: V -> Truth,
    apply: (F, seq<V>, W) -> Outcome<V, W>,
    undefError: W -> W,
    notBoolError: W -> W)

  ghost predicate Covered<T, V, F, W>(d: Domain<T, V, F, W>, ts: seq<T>, vs: seq<V>) {
    |ts| == |vs| && forall i :: 0 <= i < |ts| ==> d.gamma(ts[i], vs[i])
  }

  /** What condition `c` promises about the value `x` of its slot, once the test has come out as `truth`. */
  ghost predicate Refines<T, V, F, W>(d: Domain<T, V, F, W>, c: Condition<T>, truth: Truth, x: V)
    requires c.Refine?
  {
    && (truth.IsTrue? ==> d.gamma(c.vtype, x))
    && (truth.IsFalse? ==> d.gamma(c.elsetype, x))
  }

  /** Refining a variable of type `t` does not make a condition of a type that was none. */
  ghost predicate NoNewCondition<T, V, F, W>(d: Domain<T, V, F, W>, c: Condition<T>, t: T)
    requires c.Refine?
  {
    d.condition(c.vtype).Refine? || d.condition(c.elsetype).Refine? ==> d.condition(t).Refine?
  }

  /** The call tests one of its arguments, which is a plain slot. */
  ghost predicate RefinesArgument<T, V, F, W>(d: Domain<T, V, F, W>, c: Condition<T>, args: seq<Expr<V, F>>,
                                             ts: seq<T>, vs: seq<V>, v: V)
    requires c.Refine? && |args| == |ts| == |vs|
  {
    exists i :: 0 <= i < |args| && args[i] == Slot(c.slot) && Refines(d, c, d.truth(v), vs[i]) &&
      NoNewCondition(d, c, ts[i])
  }

  function Negated(truth: Truth): Truth {
    match truth case IsTrue => IsFalse case IsFalse => IsTrue case NotBool => NotBool
  }

  function Swapped<T>(c: Condition<T>): Condition<T>
    requires c.Refine?
  {
    Refine(c.slot, c.elsetype, c.vtype)
  }

  /** The call hands on the condition of an argument along with its truth, or both of them negated. */
  ghost predicate ForwardsArgument<T, V, F, W>(d: Domain<T, V, F, W>, c: Condition<T>, from: set<nat>, ts: seq<T>,
                                              vs: seq<V>, v: V)
    requires c.Refine? && |ts| == |vs|
  {
    exists j :: 0 <= j < |ts| && j in from &&
      (|| (d.condition(ts[j]) == c && d.truth(v) == d.truth(vs[j]))
       || (d.condition(ts[j]) == Swapped(c) && d.truth(v) == Negated(d.truth(vs[j]))))
  }

  ghost predicate SoundLattice<T(!new), V(!new), F, W>(d: Domain<T, V, F, W>) {
    && Preorder(d.le)
    && NoInfiniteAscent(d.le)
    && (forall a, b :: d.le(a, d.merge(a, b)) && d.le(b, d.merge(a, b)))
    && (forall a, b, v :: d.le(a, b) && d.gamma(a, v) ==> d.gamma(b, v))
    && (forall v :: !d.gamma(d.bottom, v)) && d.condition(d.bottom).Unknown?
    && (forall t, v :: d.condition(t).ConstTrue? && d.gamma(t, v) ==> d.truth(v).IsTrue?)
    && (forall t, v :: d.condition(t).ConstFalse? && d.gamma(t, v) ==> d.truth(v).IsFalse?)
    && (forall a, b, v :: d.le(a, b) && d.condition(b).Refine? && d.gamma(a, v) ==> d.condition(a).Refine?)
  }

  /** The type of a call whose arguments lie in `ts` says nothing false of its value `v`. */
  ghost predicate SoundCall<T, V, F, W>(d: Domain<T, V, F, W>, f: F, args: seq<Expr<V, F>>, ts: seq<T>, vs: seq<V>,
      v: V)
    requires |args| == |ts| == |vs|
  {
    && d.gamma(d.call(f, args, ts), v)
    && var c := d.condition(d.call(f, args, ts));
       c.Refine? ==>
         || (d.tests(f, args) && RefinesArgument(d, c, args, ts, vs, v))
         || ForwardsArgument(d, c, d.forwards(f, args), ts, vs, v)
  }

  ghost predicate SoundCalls<T(!new), V(!new), F(!new), W(!new)>(d: Domain<T, V, F, W>) {
    && (forall v :: d.gamma(d.literal(v), v) && !d.condition(d.literal(v)).Refine?)
    && (forall f, args, ts, vs, w :: |args| == |ts| && Covered(d, ts, vs) && d.apply(f, vs, w).Value? ==>
          SoundCall(d, f, args, ts, vs, d.apply(f, vs, w).v))
  }

  ghost predicate Sound<T(!new), V(!new), F(!new), W(!new)>(d: Domain<T, V, F, W>) {
    SoundLattice(d) && SoundCalls(d)
  }

  // ----- abstract evaluation of expressions -----

  /** The type of an expression; an SSA value that has not been assigned yet has no type but bottom. */
  function AbstractEval<T(==), V, F, W>(d: Domain<T, V, F, W>, e: Expr<V, F>, vtypes: VarTable<T>, ssa: SSATable<T>): T
    decreases e, 1
  {
    match e
    case Lit(v) => d.literal(v)
    case SSA(id) => if id < |ssa| && ssa[id].Some? then ssa[id].value else d.bottom
    case Slot(id) => if id < |vtypes| then vtypes[id].typ else d.bottom
    case Call(f, args) =>
      var ts := AbstractEvalArgs(d, args, vtypes, ssa);
      if d.bottom in ts then d.bottom else d.call(f, args, ts)
  }

  function AbstractEvalArgs<T(==), V, F, W>(d: Domain<T, V, F, W>, args: seq<Expr<V, F>>,
                                          vtypes: VarTable<T>, ssa: SSATable<T>): (ts: seq<T>)
    ensures |ts| == |args|
    decreases args, 0
  {
    if args == [] then []
    else [AbstractEval(d, args[0], vtypes, ssa)] + AbstractEvalArgs(d, args[1..], vtypes, ssa)
  }

  // ----- the SSA values an expression reads -----

  function SSAUses<V, F>(e: Expr<V, F>): set<nat>
    decreases e, 1
  {
    match e
    case SSA(id) => {id}
    case Call(_, args) => SSAUsesArgs(args)
    case _ => {}
  }

  function SSAUsesArgs<V, F>(args: seq<Expr<V, F>>): set<nat>
    decreases args, 0
  {
    if args == [] then {} else SSAUses(args[0]) + SSAUsesArgs(args[1..])
  }

  /** Abstract evaluation looks at no SSA value outside `SSAUses`. */
  lemma {:induction false} EvalReadsOnlyUses<T, V, F, W>(d: Domain<T, V, F, W>, e: Expr<V, F>, vtypes: VarTable<T>,
                                                        ssa: SSATable<T>, ssa': SSATable<T>)
    requires |ssa| == |ssa'| && forall id :: id in SSAUses(e) && id < |ssa| ==> ssa[id] == ssa'[id]
    ensures AbstractEval(d, e, vtypes, ssa) == AbstractEval(d, e, vtypes, ssa')
    decreases e, 1
  {
    match e
    case Call(f, args) => EvalArgsReadsOnlyUses(d, args, vtypes, ssa, ssa');
    case _ =>
  }

  lemma {:induction false} EvalArgsReadsOnlyUses<T, V, F, W>(d: Domain<T, V, F, W>, args: seq<Expr<V, F>>,
                                                            vtypes: VarTable<T>, ssa: SSATable<T>, ssa': SSATable<T>)
    requires |ssa| == |ssa'| && forall id :: id in SSAUsesArgs(args) && id < |ssa| ==> ssa[id] == ssa'[id]
    ensures AbstractEvalArgs(d, args, vtypes, ssa) == AbstractEvalArgs(d, args, vtypes, ssa')
    decreases args, 0
  {
    if args != [] {
      EvalReadsOnlyUses(d, args[0], vtypes, ssa, ssa');
      EvalArgsReadsOnlyUses(d, args[1..], vtypes, ssa, ssa');
    }
  }

  // ----- concrete evaluation of expressions -----

  /** Arguments are evaluated from left to right; reading an unassigned variable raises an error. */
  function Run<T, V, F, W>(d: Domain<T, V, F, W>, e: Expr<V, F>, slots: seq<Option<V>>, ssa: seq<Option<V>>, w: W)
      : Outcome<V, W>
    decreases e, 1
  {
    match e
    case Lit(v) => Value(v, w)
    case SSA(id) => if id < |ssa| && ssa[id].Some? then Value(ssa[id].value, w) else Raised(d.undefError(w))
    case Slot(id) => if id < |slots| && slots[id].Some? then Value(slots[id].value, w) else Raised(d.undefError(w))
    case Call(f, args) =>
      match RunArgs(d, args, slots, ssa, w)
      case Raised(w') => Raised(w')
      case Value(vs, w') => d.apply(f, vs, w')
  }

  function RunArgs<T, V, F, W>(d: Domain<T, V, F, W>, args: seq<Expr<V, F>>, slots: seq<Option<V>>,
                              ssa: seq<Option<V>>, w: W): (r: Outcome<seq<V>, W>)
    ensures r.Value? ==> |r.v| == |args|
    decreases args, 0
  {
    if args == [] then Value([], w)
    else
      match Run(d, args[0], slots, ssa, w)
      case Raised(w') => Raised(w')
      case Value(v, w') =>
        match RunArgs(d, args[1..], slots, ssa, w')
        case Raised(w'') => Raised(w'')
        case Value(vs, w'') => Value([v] + vs, w'')
  }

  lemma RunOneArgument<T, V, F, W>(d: Domain<T, V, F, W>, e: Expr<V, F>, slots: seq<Option<V>>, ssa: seq<Option<V>>,
      w: W)
    requires Run(d, e, slots, ssa, w).Value?
    ensures RunArgs(d, [e], slots, ssa, w) == Value([Run(d, e, slots, ssa, w).v], Run(d, e, slots, ssa, w).world)
  {
    var r := Run(d, [e][0], slots, ssa, w);
    assert [e][1..] == [];
    assert RunArgs(d, [], slots, ssa, r.world) == Value([], r.world);
    assert RunArgs(d, [e], slots, ssa, w) == Value([r.v] + [], r.world);
    assert [r.v] + [] == [r.v];
  }

  // ----- what an abstract state says about a concrete one -----

  ghost predicate CoversSlots<T, V, F, W>(d: Domain<T, V, F, W>, vtypes: VarTable<T>, slots: seq<Option<V>>) {
    && |vtypes| == |slots|
    && forall i :: 0 <= i < |slots| ==>
         if slots[i].Some? then d.gamma(vtypes[i].typ, slots[i].value) else vtypes[i].undef
  }

  ghost predicate CoversSSA<T, V, F, W>(d: Domain<T, V, F, W>, types: SSATable<T>, ssa: seq<Option<V>>) {
    && |types| == |ssa|
    && forall i :: 0 <= i < |ssa| ==> ssa[i].Some? ==> types[i].Some? && d.gamma(types[i].value, ssa[i].value)
  }

  /** Every value an expression can produce is in the type computed for it. */
  lemma {:induction false} EvalSound<T(!new), V(!new), F(!new), W(!new)>(d: Domain<T, V, F, W>, e: Expr<V, F>,
      vtypes: VarTable<T>, ssaTypes: SSATable<T>, slots: seq<Option<V>>, ssa: seq<Option<V>>, w: W)
    requires Sound(d) && CoversSlots(d, vtypes, slots) && CoversSSA(d, ssaTypes, ssa)
    requires Run(d, e, slots, ssa, w).Value?
    ensures d.gamma(AbstractEval(d, e, vtypes, ssaTypes), Run(d, e, slots, ssa, w).v)
    decreases e, 1
  {
    match e
    case Call(f, args) =>
      EvalArgsSound(d, args, vtypes, ssaTypes, slots, ssa, w);
      BottomCoversNothing(d, AbstractEvalArgs(d, args, vtypes, ssaTypes), RunArgs(d, args, slots, ssa, w).v);
    case _ =>
  }

  lemma {:induction false} EvalArgsSound<T(!new), V(!new), F(!new), W(!new)>(d: Domain<T, V, F, W>,
      args: seq<Expr<V, F>>, vtypes: VarTable<T>, ssaTypes: SSATable<T>, slots: seq<Option<V>>, ssa: seq<Option<V>>,
      w: W)
    requires Sound(d) && CoversSlots(d, vtypes, slots) && CoversSSA(d, ssaTypes, ssa)
    requires RunArgs(d, args, slots, ssa, w).Value?
    ensures Covered(d, AbstractEvalArgs(d, args, vtypes, ssaTypes), RunArgs(d, args, slots, ssa, w).v)
    decreases args, 0
  {
    if args != [] {
      EvalSound(d, args[0], vtypes, ssaTypes, slots, ssa, w);
      EvalArgsSound(d, args[1..], vtypes, ssaTypes, slots, ssa, Run(d, args[0], slots, ssa, w).world);
    }
  }

  lemma BottomCoversNothing<T(!new), V(!new), F, W>(d: Domain<T, V, F, W>, ts: seq<T>, vs: seq<V>)
    requires SoundLattice(d) && Covered(d, ts, vs)
    ensures d.bottom !in ts
  {
  }

  /** Each argument is evaluated by itself, in the world the ones before it leave behind. */
  lemma {:induction false} ArgumentAt<T, V, F, W>(d: Domain<T, V, F, W>, args: seq<Expr<V, F>>, i: nat,
      vtypes: VarTable<T>, ssaTypes: SSATable<T>, slots: seq<Option<V>>, ssa: seq<Option<V>>, w: W) returns (w': W)
    requires RunArgs(d, args, slots, ssa, w).Value? && i < |args|
    ensures Run(d, args[i], slots, ssa, w').Value?
    ensures Run(d, args[i], slots, ssa, w').v == RunArgs(d, args, slots, ssa, w).v[i]
    ensures AbstractEvalArgs(d, args, vtypes, ssaTypes)[i] == AbstractEval(d, args[i], vtypes, ssaTypes)
    decreases args
  {
    w' := w;
    if i > 0 {
      w' := ArgumentAt(d, args[1..], i - 1, vtypes, ssaTypes, slots, ssa, Run(d, args[0], slots, ssa, w).world);
    }
  }

  // ----- conditions computed in place and conditions read back from a variable -----

  /** The variables that may hold the outcome of an earlier test. */
  datatype Stored = Stored(slots: set<nat>, ssa: set<nat>)

  /** Whether an expression can have a condition as its type. */
  predicate MayTest<T, V, F, W>(d: Domain<T, V, F, W>, stored: Stored, e: Expr<V, F>) {
    match e
    case Lit(_) => false
    case SSA(id) => id in stored.ssa
    case Slot(id) => id in stored.slots
    case Call(f, args) =>
      d.tests(f, args) || exists j :: 0 <= j < |args| && j in d.forwards(f, args) && MayTest(d, stored, args[j])
  }

  /** Whether a condition that the expression may have was computed in the expression itself. */
  predicate InPlace<T, V, F, W>(d: Domain<T, V, F, W>, stored: Stored, e: Expr<V, F>) {
    match e
    case Lit(_) => true
    case SSA(id) => id !in stored.ssa
    case Slot(id) => id !in stored.slots
    case Call(f, args) =>
      forall j :: 0 <= j < |args| && j in d.forwards(f, args) ==> InPlace(d, stored, args[j])
  }

  /** A variable that has a value and is not in `stored` has no condition as its type. */
  ghost predicate OnlyStored<T, V, F, W>(d: Domain<T, V, F, W>, stored: Stored, vtypes: VarTable<T>,
      ssaTypes: SSATable<T>, slots: seq<Option<V>>, ssa: seq<Option<V>>)
    requires |vtypes| == |slots| && |ssaTypes| == |ssa|
  {
    && (forall i :: 0 <= i < |slots| && slots[i].Some? && i !in stored.slots ==> !d.condition(vtypes[i].typ).Refine?)
    && (forall i :: 0 <= i < |ssa| && ssa[i].Some? && ssaTypes[i].Some? && i !in stored.ssa ==>
          !d.condition(ssaTypes[i].value).Refine?)
  }

  /** The types cover the values, and only variables in `stored` hold conditions. */
  ghost predicate Describes<T, V, F, W>(d: Domain<T, V, F, W>, stored: Stored, vtypes: VarTable<T>,
      ssaTypes: SSATable<T>, slots: seq<Option<V>>, ssa: seq<Option<V>>)
  {
    CoversSlots(d, vtypes, slots) && CoversSSA(d, ssaTypes, ssa) && OnlyStored(d, stored, vtypes, ssaTypes, slots, ssa)
  }

  /** What a condition says is true of the slot it names as that slot is now. */
  ghost predicate RefinesSlot<T, V, F, W>(d: Domain<T, V, F, W>, c: Condition<T>, vtypes: VarTable<T>,
                                         slots: seq<Option<V>>, truth: Truth)
    requires |vtypes| == |slots| && c.Refine?
  {
    c.slot < |slots| && slots[c.slot].Some? && Refines(d, c, truth, slots[c.slot].value) &&
    NoNewCondition(d, c, vtypes[c.slot].typ)
  }

  /**
    Only an expression that may test has a condition as its type; and when the condition was computed
    in the expression itself, it is true of the slot it names, on whichever side is taken.
  */
  lemma {:induction false} RefinementSound<T(!new), V(!new), F(!new), W(!new)>(d: Domain<T, V, F, W>, stored: Stored,
      e: Expr<V, F>, vtypes: VarTable<T>, ssaTypes: SSATable<T>, slots: seq<Option<V>>, ssa: seq<Option<V>>, w: W)
    requires Sound(d) && Describes(d, stored, vtypes, ssaTypes, slots, ssa) && Run(d, e, slots, ssa, w).Value?
    requires d.condition(AbstractEval(d, e, vtypes, ssaTypes)).Refine?
    ensures MayTest(d, stored, e)
    ensures InPlace(d, stored, e) ==>
              RefinesSlot(d, d.condition(AbstractEval(d, e, vtypes, ssaTypes)), vtypes, slots,
                          d.truth(Run(d, e, slots, ssa, w).v))
    decreases e
  {
    match e
    case Call(f, args) =>
      var ts := AbstractEvalArgs(d, args, vtypes, ssaTypes);
      var vs, v := RunArgs(d, args, slots, ssa, w).v, Run(d, e, slots, ssa, w).v;
      EvalArgsSound(d, args, vtypes, ssaTypes, slots, ssa, w);
      BottomCoversNothing(d, ts, vs);
      var c := d.condition(d.call(f, args, ts));
      assert SoundCall(d, f, args, ts, vs, v);
      if ForwardsArgument(d, c, d.forwards(f, args), ts, vs, v) {
        var j :| 0 <= j < |ts| && j in d.forwards(f, args) &&
          (|| (d.condition(ts[j]) == c && d.truth(v) == d.truth(vs[j]))
           || (d.condition(ts[j]) == Swapped(c) && d.truth(v) == Negated(d.truth(vs[j]))));
        var w' := ArgumentAt(d, args, j, vtypes, ssaTypes, slots, ssa, w);
        RefinementSound(d, stored, args[j], vtypes, ssaTypes, slots, ssa, w');
      } else {
        var i :| 0 <= i < |args| && args[i] == Slot(c.slot) && Refines(d, c, d.truth(v), vs[i]) &&
          NoNewCondition(d, c, ts[i]);
        var w' := ArgumentAt(d, args, i, vtypes, ssaTypes, slots, ssa, w);
      }
    case _ =>
  }
}

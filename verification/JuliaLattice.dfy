/**
  A small instance of the lattice: constants, conditional Booleans and unions of base types, with the
  source's order and merge, the calls that produce conditions (`isa` and `===`) and those that hand them
  on (`!`, `!==` and `===` again), and calls with a declared type.
*/
module JuliaLattice {
  import opened Wrappers
  import opened WellFounded
  import opened InferenceDomain

  const MAX_TYPEUNION_LEN: nat := 3

  datatype Base = TBool | TInt | TString | TFloat | TNothing
  /** `Foreign` values belong to no base type, only to Any. */
  datatype Val = BoolV(b: bool) | IntV(i: int) | StringV(s: string) | FloatV(id: int) | NothingV | Foreign(id: int)

  /** Union{} is the empty union. */
  datatype Plain = Const(v: Val) | Union(members: set<Base>) | Any
  datatype Type = P(p: Plain) | Conditional(slot: nat, vtype: Plain, elsetype: Plain)

  datatype Fun = IsA(t: Base) | Egal | Not | NotEgal | Input(declared: set<Base>)

  const BOTTOM: Plain := Union({})
  const BOOL: Plain := Union({TBool})

  predicate Instance(v: Val, t: Base) {
    match v
    case BoolV(_) => t == TBool
    case IntV(_) => t == TInt
    case StringV(_) => t == TString
    case FloatV(_) => t == TFloat
    case NothingV => t == TNothing
    case Foreign(_) => false
  }

  function TypeOf(v: Val): Plain {
    match v
    case BoolV(_) => Union({TBool})
    case IntV(_) => Union({TInt})
    case StringV(_) => Union({TString})
    case FloatV(_) => Union({TFloat})
    case NothingV => Union({TNothing})
    case Foreign(_) => Any
  }

  // ----- the order and the merge -----

  predicate IsaPlain(v: Val, t: Plain) {
    match t
    case Const(w) => v == w
    case Union(ms) => TypeOf(v).Union? && TypeOf(v).members <= ms
    case Any => true
  }

  predicate LePlain(a: Plain, b: Plain) {
    match (a, b)
    case (Const(v), _) => IsaPlain(v, b)
    case (_, Const(_)) => a == BOTTOM
    case (Union(m), Union(n)) => m <= n
    case (Any, Union(_)) => false
    case (_, Any) => true
  }

  predicate Le(a: Type, b: Type) {
    match (a, b)
    case (Conditional(x, v, e), Conditional(y, w, f)) => x == y && LePlain(v, w) && LePlain(e, f)
    case (Conditional(_, _, _), P(q)) => LePlain(BOOL, q)
    case (P(p), Conditional(_, _, _)) => p == BOTTOM
    case (P(p), P(q)) => LePlain(p, q)
  }

  function Widen(t: Plain): Plain {
    if t.Const? then TypeOf(t.v) else t
  }

  function WidenConst(t: Type): Plain {
    if t.Conditional? then BOOL else Widen(t.p)
  }

  function MergePlain(a: Plain, b: Plain): Plain {
    if LePlain(a, b) then b
    else if LePlain(b, a) then a
    else
      var wa, wb := Widen(a), Widen(b);
      if wa == wb then wa
      else if wa.Any? || wb.Any? then Any
      else if |wa.members + wb.members| > MAX_TYPEUNION_LEN then Any
      else Union(wa.members + wb.members)
  }

  function Merge(a: Type, b: Type): Type {
    if Le(a, b) then b
    else if Le(b, a) then a
    else if a.Conditional? && b.Conditional? then
      var v, e := MergePlain(a.vtype, b.vtype), MergePlain(a.elsetype, b.elsetype);
      if a.slot == b.slot && v != e then Conditional(a.slot, v, e) else P(BOOL)
    else P(MergePlain(WidenConst(a), WidenConst(b)))
  }

  // ----- values and calls -----

  predicate Gamma(t: Type, v: Val) {
    if t.Conditional? then v.BoolV? else IsaPlain(v, t.p)
  }

  function ConditionOf(t: Type): Condition<Type> {
    match t
    case Conditional(x, v, e) => Refine(x, P(v), P(e))
    case P(Const(BoolV(true))) => ConstTrue
    case P(Const(BoolV(false))) => ConstFalse
    case P(_) => Unknown
  }

  function TruthOf(v: Val): Truth {
    match v
    case BoolV(true) => IsTrue
    case BoolV(false) => IsFalse
    case _ => NotBool
  }

  function Intersect(a: Plain, t: Base): Plain {
    if a.Any? then Union({t}) else if a.Union? then Union(a.members * {t}) else a
  }

  function Subtract(a: Plain, t: Base): Plain {
    if LePlain(a, Union({t})) then BOTTOM else if a.Union? then Union(a.members - {t}) else a
  }

  /** Types with no value in common. */
  predicate Disjoint(x: Type, y: Type) {
    var a, b := WidenConst(x), WidenConst(y);
    || (a.Union? && b.Union? && a.members !! b.members)
    || (x.P? && x.p.Const? && x.p.v.Foreign? && b.Union?)
    || (y.P? && y.p.Const? && y.p.v.Foreign? && a.Union?)
  }

  predicate IsConst(t: Type) {
    t.P? && t.p.Const?
  }

  /** `nothing` is the only value of its type, so the type leaves no choice. */
  predicate SameSingleton(x: Type, y: Type) {
    x == P(Const(NothingV)) && y == P(Union({TNothing}))
  }

  function SwapType(t: Type): Type {
    match t
    case Conditional(slot, v, e) => Conditional(slot, e, v)
    case _ => t
  }

  /** What a slot of type `t` is when it is not the constant `v`. */
  function OtherThan(t: Plain, v: Val): Plain {
    if v == NothingV then Subtract(Widen(t), TNothing) else t
  }

  /** `a === b`: decided by the types, the condition of one side compared with a constant, or a test of a slot. */
  function EgalType(a: Expr<Val, Fun>, b: Expr<Val, Fun>, x: Type, y: Type): Type {
    if IsConst(x) && IsConst(y) then P(Const(BoolV(x.p.v == y.p.v)))
    else if Disjoint(x, y) then P(Const(BoolV(false)))
    else if SameSingleton(x, y) || SameSingleton(y, x) then P(Const(BoolV(true)))
    else if x.Conditional? && IsConst(y) then (if y.p.v == BoolV(false) then SwapType(x) else x)
    else if y.Conditional? && IsConst(x) then (if x.p.v == BoolV(false) then SwapType(y) else y)
    else if IsConst(x) && b.Slot? && y.P? then Conditional(b.id, x.p, OtherThan(y.p, x.p.v))
    else if IsConst(y) && a.Slot? && x.P? then Conditional(a.id, y.p, OtherThan(x.p, y.p.v))
    else P(BOOL)
  }

  /** The negation of a Boolean's type: a condition with its sides swapped, or the other constant. */
  function NotType(t: Type): Type {
    match t
    case P(Const(BoolV(b))) => P(Const(BoolV(!b)))
    case _ => SwapType(t)
  }

  /** `isa(x, t)` is decided by the type when possible, and otherwise a condition on the slot it tests. */
  function CallType(f: Fun, args: seq<Expr<Val, Fun>>, ts: seq<Type>): Type {
    match f
    case Input(declared) => P(Union(declared))
    case IsA(t) =>
      if |ts| != 1 || |args| != 1 then P(BOTTOM)
      else
        var aty := WidenConst(ts[0]);
        if LePlain(aty, Union({t})) then P(Const(BoolV(true)))
        else if aty.Union? && t !in aty.members then P(Const(BoolV(false)))
        else if args[0].Slot? && Intersect(aty, t) != Subtract(aty, t)
        then Conditional(args[0].id, Intersect(aty, t), Subtract(aty, t))
        else P(BOOL)
    case Not =>
      if |ts| != 1 then P(BOTTOM) else if ts[0].Conditional? then SwapType(ts[0]) else P(BOOL)
    case Egal => if |ts| != 2 || |args| != 2 then P(BOTTOM) else EgalType(args[0], args[1], ts[0], ts[1])
    case NotEgal => if |ts| != 2 || |args| != 2 then P(BOTTOM) else NotType(EgalType(args[0], args[1], ts[0], ts[1]))
  }

  /** `isa`, `===` and `!==` can test a slot among their arguments. */
  predicate Tests(f: Fun, args: seq<Expr<Val, Fun>>) {
    (f.IsA? || f.Egal? || f.NotEgal?) && exists i :: 0 <= i < |args| && args[i].Slot?
  }

  /** `!`, `===` and `!==` can hand on the condition of an argument. */
  function Forwards(f: Fun): set<nat> {
    match f case Not => {0} case Egal => {0, 1} case NotEgal => {0, 1} case _ => {}
  }

  /** A call with a declared type takes the next outside value and raises an error unless it has that type. */
  function Apply(f: Fun, vs: seq<Val>, inputs: seq<Val>): Outcome<Val, seq<Val>> {
    match f
    case IsA(t) => if |vs| == 1 then Value(BoolV(Instance(vs[0], t)), inputs) else Raised(inputs)
    case Not => if |vs| == 1 && vs[0].BoolV? then Value(BoolV(!vs[0].b), inputs) else Raised(inputs)
    case Egal => if |vs| == 2 then Value(BoolV(vs[0] == vs[1]), inputs) else Raised(inputs)
    case NotEgal => if |vs| == 2 then Value(BoolV(vs[0] != vs[1]), inputs) else Raised(inputs)
    case Input(declared) =>
      if inputs != [] && IsaPlain(inputs[0], Union(declared)) then Value(inputs[0], inputs[1..]) else Raised(inputs)
  }

  const JULIA: Domain<Type, Val, Fun, seq<Val>> :=
    Domain(
      (a, b) => Le(a, b), (a, b) => Merge(a, b), P(BOTTOM), t => ConditionOf(t),
      v => P(Const(v)), (f, args, ts) => CallType(f, args, ts),
      (f, args) => Tests(f, args), (f, args) => Forwards(f),
      (t, v) => Gamma(t, v),
      v => TruthOf(v), (f, vs, w) => Apply(f, vs, w), w => w, w => w)

  // ----- the order is a preorder without infinite ascent, and merge an upper bound -----

  lemma LePlainTransitive(a: Plain, b: Plain, c: Plain)
    requires LePlain(a, b) && LePlain(b, c)
    ensures LePlain(a, c)
  {
  }

  lemma LeReflexive(a: Type)
    ensures Le(a, a)
  {
  }

  lemma LeTransitive(a: Type, b: Type, c: Type)
    requires Le(a, b) && Le(b, c)
    ensures Le(a, c)
  {
    match (a, b, c)
    case (Conditional(_, v, e), Conditional(_, w, f), Conditional(_, u, g)) =>
      LePlainTransitive(v, w, u);
      LePlainTransitive(e, f, g);
    case (P(p), P(q), P(r)) => LePlainTransitive(p, q, r);
    case (Conditional(_, _, _), P(q), P(r)) => LePlainTransitive(BOOL, q, r);
    case _ =>
  }

  function PlainHeight(t: Plain): nat {
    match t
    case Any => 0
    case Union(ms) => if ms == {} then 7 else 1 + (if |ms| <= 4 then 5 - |ms| else 0)
    case Const(_) => 6
  }

  function Height(t: Type): nat {
    match t
    case Conditional(_, v, e) => 6 + PlainHeight(v) + PlainHeight(e)
    case P(Union(ms)) => if ms == {} then 21 else PlainHeight(t.p)
    case P(p) => PlainHeight(p)
  }

  lemma BoundedUnion(ms: set<Base>)
    ensures |ms| <= 5
  {
    var all := {TBool, TInt, TString, TFloat, TNothing};
    forall t: Base ensures t in all {
      match t case TBool => case TInt => case TString => case TFloat => case TNothing =>
    }
    assert ms <= all;
    SubsetSize(ms, all);
  }

  lemma SubsetSize<X>(a: set<X>, b: set<X>)
    requires a <= b
    ensures |a| <= |b| && (a != b ==> |a| < |b|)
  {
    assert b == a + (b - a);
  }

  lemma PlainHeightDrops(a: Plain, b: Plain)
    requires LePlain(a, b)
    ensures PlainHeight(b) <= PlainHeight(a)
    ensures !LePlain(b, a) ==> PlainHeight(b) < PlainHeight(a)
  {
    if a.Union? && b.Union? {
      BoundedUnion(b.members);
      SubsetSize(a.members, b.members);
    }
  }

  lemma HeightDrops(a: Type, b: Type)
    requires Le(a, b) && !Le(b, a)
    ensures Height(b) < Height(a)
  {
    match (a, b)
    case (Conditional(_, v, e), Conditional(_, w, f)) =>
      PlainHeightDrops(v, w);
      PlainHeightDrops(e, f);
    case (P(p), P(q)) => PlainHeightDrops(p, q);
    case (Conditional(_, _, _), P(q)) => PlainHeightDrops(BOOL, q);
    case _ =>
  }

  lemma {:induction false} HeightAcc(h: nat, t: Type)
    requires Height(t) <= h
    ensures Acc(JULIA.le, t)
  {
    forall u | Above(JULIA.le, t, u) ensures Acc(JULIA.le, u) {
      HeightDrops(t, u);
      HeightAcc(h - 1, u);
    }
  }

  /** A value of each base type. */
  function Sample(t: Base): Val {
    match t
    case TBool => BoolV(true) case TInt => IntV(0) case TString => StringV("") case TFloat => FloatV(0)
    case TNothing => NothingV
  }

  /** The order is inclusion of values, but for the one type with a single value, which is not below its constant. */
  lemma OrderIsInclusion(a: Plain, b: Plain)
    requires !(a == Union({TNothing}) && b == Const(NothingV))
    ensures LePlain(a, b) <==> forall v :: IsaPlain(v, a) ==> IsaPlain(v, b)
  {
    if forall v :: IsaPlain(v, a) ==> IsaPlain(v, b) {
      match a
      case Const(w) => assert IsaPlain(w, a);
      case Any =>
        assert IsaPlain(Foreign(0), a) && IsaPlain(Foreign(1), a);
      case Union(ms) => UnionIncluded(ms, b);
    }
    if LePlain(a, b) {
      forall v | IsaPlain(v, a) ensures IsaPlain(v, b) { IsaMonotone(a, b, v); }
    }
  }

  lemma UnionIncluded(ms: set<Base>, b: Plain)
    requires forall v :: IsaPlain(v, Union(ms)) ==> IsaPlain(v, b)
    requires !(ms == {TNothing} && b == Const(NothingV))
    ensures LePlain(Union(ms), b)
  {
    forall t | t in ms ensures IsaPlain(Sample(t), b) && (t != TNothing ==> !b.Const?) {
      assert IsaPlain(Sample(t), Union(ms));
      if b.Const? && t != TNothing { OtherSample(t, b.v, ms); }
    }
    match b
    case Union(n) => assert forall t :: t in ms ==> IsaPlain(Sample(t), Union(n));
    case Const(w) => assert forall t :: t in ms ==> t == TNothing;
    case Any =>
  }

  /** No other base type has just one value. */
  lemma OtherSample(t: Base, w: Val, ms: set<Base>)
    requires t in ms && t != TNothing
    ensures exists v :: IsaPlain(v, Union(ms)) && v != w
  {
    var a, b := Sample(t), match t
      case TBool => BoolV(false) case TInt => IntV(1) case TString => StringV("a") case TFloat => FloatV(1)
      case TNothing => NothingV;
    assert IsaPlain(a, Union(ms)) && IsaPlain(b, Union(ms)) && a != b;
  }

  lemma MergePlainUpper(a: Plain, b: Plain)
    ensures LePlain(a, MergePlain(a, b)) && LePlain(b, MergePlain(a, b))
  {
  }

  lemma MergeUpper(a: Type, b: Type)
    ensures Le(a, Merge(a, b)) && Le(b, Merge(a, b))
  {
    if a.Conditional? && b.Conditional? {
      MergePlainUpper(a.vtype, b.vtype);
      MergePlainUpper(a.elsetype, b.elsetype);
    } else {
      MergePlainUpper(WidenConst(a), WidenConst(b));
      WidenAbove(a);
      WidenAbove(b);
      if !Le(a, b) && !Le(b, a) {
        LeTransitive(a, P(WidenConst(a)), Merge(a, b));
        LeTransitive(b, P(WidenConst(b)), Merge(a, b));
      }
    }
  }

  /** Two unions merge to the union of both, unless neither is in the other and that is more than three types. */
  lemma UnionsMerge(m: set<Base>, n: set<Base>)
    ensures MergePlain(Union(m), Union(n)) ==
            if m <= n || n <= m || |m + n| <= 3 then Union(m + n) else Any
  {
    if m <= n { assert m + n == n; }
    if n <= m { assert m + n == m; }
  }

  /** No wider than it has to be: a merge is below every union that both sides are below, as long as it is small. */
  lemma MergeIsLeast(a: Plain, b: Plain, members: set<Base>)
    requires LePlain(a, Union(members)) && LePlain(b, Union(members)) && |members| <= 3
    ensures LePlain(MergePlain(a, b), Union(members))
  {
    if !LePlain(a, b) && !LePlain(b, a) {
      var wa, wb := Widen(a), Widen(b);
      assert wa.Union? && wb.Union? && wa.members <= members && wb.members <= members;
      SubsetSize(wa.members + wb.members, members);
    }
  }

  lemma WidenAbove(a: Type)
    ensures Le(a, P(WidenConst(a)))
  {
  }

  lemma IsaMonotone(a: Plain, b: Plain, v: Val)
    requires LePlain(a, b) && IsaPlain(v, a)
    ensures IsaPlain(v, b)
  {
  }

  lemma JuliaLatticeSound()
    ensures SoundLattice(JULIA)
  {
    hide Le, Merge, Gamma, ConditionOf, TruthOf, Height;
    forall a ensures JULIA.le(a, a) { LeReflexive(a); }
    forall a, b, c | JULIA.le(a, b) && JULIA.le(b, c) ensures JULIA.le(a, c) { LeTransitive(a, b, c); }
    forall t ensures Acc(JULIA.le, t) { HeightAcc(Height(t), t); }
    forall a, b ensures JULIA.le(a, JULIA.merge(a, b)) && JULIA.le(b, JULIA.merge(a, b)) { MergeUpper(a, b); }
    forall a, b, v | JULIA.le(a, b) && JULIA.gamma(a, v) ensures JULIA.gamma(b, v) { GammaMonotone(a, b, v); }
    forall a, b, v | JULIA.le(a, b) && JULIA.condition(b).Refine? && JULIA.gamma(a, v)
      ensures JULIA.condition(a).Refine?
    {
      GammaMonotone(a, b, v);
    }
    forall v ensures !JULIA.gamma(JULIA.bottom, v) { ConstantsDecide(P(BOTTOM), v); }
    ConstantsDecide(P(BOTTOM), NothingV);
    forall t, v | JULIA.condition(t).ConstTrue? && JULIA.gamma(t, v) ensures JULIA.truth(v).IsTrue? {
      ConstantsDecide(t, v);
    }
    forall t, v | JULIA.condition(t).ConstFalse? && JULIA.gamma(t, v) ensures JULIA.truth(v).IsFalse? {
      ConstantsDecide(t, v);
    }
  }

  lemma ConstantsDecide(t: Type, v: Val)
    ensures !Gamma(P(BOTTOM), v) && ConditionOf(P(BOTTOM)).Unknown?
    ensures Gamma(t, v) && ConditionOf(t).ConstTrue? ==> TruthOf(v).IsTrue?
    ensures Gamma(t, v) && ConditionOf(t).ConstFalse? ==> TruthOf(v).IsFalse?
  {
  }

  lemma GammaMonotone(a: Type, b: Type, v: Val)
    requires Le(a, b) && Gamma(a, v)
    ensures Gamma(b, v) && (ConditionOf(b).Refine? ==> ConditionOf(a).Refine?)
  {
    if a.P? && b.P? { IsaMonotone(a.p, b.p, v); }
    if a.Conditional? && b.P? { IsaMonotone(BOOL, b.p, v); }
  }

  /** The instance satisfies everything inference asks of its lattice and its calls. */
  lemma JuliaSound()
    ensures Sound(JULIA)
  {
    JuliaLatticeSound();
    forall f, args, ts, vs, w | |args| == |ts| && Covered(JULIA, ts, vs) && JULIA.apply(f, vs, w).Value?
      ensures SoundCall(JULIA, f, args, ts, vs, JULIA.apply(f, vs, w).v)
    {
      CallSound(f, args, ts, vs, w);
    }
  }

  lemma CallSound(f: Fun, args: seq<Expr<Val, Fun>>, ts: seq<Type>, vs: seq<Val>, w: seq<Val>)
    requires |args| == |ts| && Covered(JULIA, ts, vs) && Apply(f, vs, w).Value?
    ensures SoundCall(JULIA, f, args, ts, vs, Apply(f, vs, w).v)
  {
    if |ts| >= 1 { assert JULIA.gamma(ts[0], vs[0]); }
    if |ts| >= 2 { assert JULIA.gamma(ts[1], vs[1]); }
    match f
    case Input(_) =>
    case IsA(t) => IsASound(t, args, ts, vs);
    case Not =>
      if ts[0].Conditional? { ForwardedSwapped(SwapType(ts[0]), 0, f, ts, vs, Apply(f, vs, w).v); }
    case Egal => EgalSound(args, ts, vs);
    case NotEgal =>
      EgalSound(args, ts, vs);
      NegationSound(args, ts, vs);
  }

  lemma IsASound(t: Base, args: seq<Expr<Val, Fun>>, ts: seq<Type>, vs: seq<Val>)
    requires |args| == |ts| == |vs| == 1 && Gamma(ts[0], vs[0])
    ensures SoundCall(JULIA, IsA(t), args, ts, vs, BoolV(Instance(vs[0], t)))
  {
    var aty, r := WidenConst(ts[0]), CallType(IsA(t), args, ts);
    assert IsaPlain(vs[0], aty);
    IsASides(t, aty, vs[0]);
    if r.Conditional? {
      assert args[0] == Slot(r.slot);
    }
  }

  /** A value of type `a` is in one or the other part that a test for `t` splits the type into. */
  lemma IsASides(t: Base, a: Plain, v: Val)
    requires IsaPlain(v, a) && !a.Const?
    ensures IsaPlain(v, Intersect(a, t)) <==> Instance(v, t)
    ensures a.Union? ==> (IsaPlain(v, Subtract(a, t)) <==> !Instance(v, t))
    ensures Instance(v, t) ==> !(a.Union? && t !in a.members)
    ensures !Instance(v, t) ==> IsaPlain(v, Subtract(a, t)) && !LePlain(a, Union({t}))
  {
    if LePlain(a, Union({t})) { IsaMonotone(a, Union({t}), v); }
  }

  lemma ForwardedSwapped(r: Type, j: nat, f: Fun, ts: seq<Type>, vs: seq<Val>, v: Val)
    requires j in Forwards(f) && j < |ts| == |vs|
    requires ts[j].Conditional? && r == SwapType(ts[j]) && vs[j].BoolV? && v == BoolV(!vs[j].b)
    ensures ForwardsArgument(JULIA, ConditionOf(r), Forwards(f), ts, vs, v)
  {
    assert JULIA.condition(ts[j]) == Swapped(ConditionOf(r));
  }

  /** A value that is in a type but is not the constant `v` is in what `OtherThan` leaves of the type. */
  lemma OtherThanSound(t: Plain, v: Val, x: Val)
    requires IsaPlain(x, t) && x != v
    ensures IsaPlain(x, OtherThan(t, v))
  {
    if v == NothingV && LePlain(Widen(t), Union({TNothing})) {
      IsaMonotone(Widen(t), Union({TNothing}), x);
    }
  }

  lemma DisjointSound(x: Type, y: Type, v: Val, w: Val)
    requires Disjoint(x, y) && Gamma(x, v) && Gamma(y, w)
    ensures v != w
  {
    assert IsaPlain(v, WidenConst(x)) && IsaPlain(w, WidenConst(y));
  }

  lemma EgalSound(args: seq<Expr<Val, Fun>>, ts: seq<Type>, vs: seq<Val>)
    requires |args| == |ts| == |vs| == 2 && Gamma(ts[0], vs[0]) && Gamma(ts[1], vs[1])
    ensures SoundCall(JULIA, Egal, args, ts, vs, BoolV(vs[0] == vs[1]))
  {
    var x, y, v, w := ts[0], ts[1], vs[0], vs[1];
    var r := EgalType(args[0], args[1], x, y);
    var e := BoolV(v == w);
    if IsConst(x) && IsConst(y) {
    } else if Disjoint(x, y) {
      DisjointSound(x, y, v, w);
    } else if SameSingleton(x, y) || SameSingleton(y, x) {
    } else if x.Conditional? && IsConst(y) {
      assert w == y.p.v;
      if w == BoolV(false) {
        ForwardedSwapped(r, 0, Egal, ts, vs, e);
      } else {
        assert w == BoolV(true);
        assert JULIA.condition(ts[0]) == ConditionOf(r) && JULIA.truth(e) == JULIA.truth(vs[0]);
      }
    } else if y.Conditional? && IsConst(x) {
      assert v == x.p.v;
      if v == BoolV(false) {
        ForwardedSwapped(r, 1, Egal, ts, vs, e);
      } else {
        assert v == BoolV(true);
        assert JULIA.condition(ts[1]) == ConditionOf(r) && JULIA.truth(e) == JULIA.truth(vs[1]);
      }
    } else if IsConst(x) && args[1].Slot? && y.P? {
      if v != w { OtherThanSound(y.p, v, w); }
      assert args[1] == Slot(r.slot);
    } else if IsConst(y) && args[0].Slot? && x.P? {
      if v != w { OtherThanSound(x.p, w, v); }
      assert args[0] == Slot(r.slot);
    }
  }

  /** Comparing a condition with a constant loses nothing: with true it is the condition, with false its negation. */
  lemma EgalForwards(a: Expr<Val, Fun>, b: Expr<Val, Fun>, x: Type)
    requires x.Conditional?
    ensures EgalType(a, b, x, P(Const(BoolV(true)))) == x == EgalType(a, b, P(Const(BoolV(true))), x)
    ensures EgalType(a, b, x, P(Const(BoolV(false)))) == CallType(Not, [a], [x])
    ensures EgalType(a, b, P(Const(BoolV(false))), x) == CallType(Not, [b], [x])
  {
    assert TBool in BOOL.members;
  }

  /** Comparing a variable with `nothing` splits its type into `nothing` and the rest. */
  lemma EgalSplits(i: nat, b: Expr<Val, Fun>, ms: set<Base>)
    requires TNothing in ms && ms != {TNothing}
    ensures EgalType(Slot(i), b, P(Union(ms)), P(Const(NothingV))) ==
            Conditional(i, Const(NothingV), Union(ms - {TNothing}))
  {
    assert TNothing in Widen(Const(NothingV)).members;
    var t :| t in ms && t != TNothing;
    assert !(ms <= {TNothing});
  }

  /** Conditions on one variable merge to a condition on it, side by side, unless the sides become equal. */
  lemma ConditionsMerge(x: nat, v: Plain, e: Plain, v': Plain, e': Plain)
    requires MergePlain(v, v') != MergePlain(e, e')
    ensures Merge(Conditional(x, v, e), Conditional(x, v', e')) == Conditional(x, MergePlain(v, v'), MergePlain(e, e'))
  {
    SubsumedMerge(v, v');
    SubsumedMerge(e, e');
  }

  lemma SubsumedMerge(a: Plain, b: Plain)
    ensures LePlain(a, b) ==> MergePlain(a, b) == b
    ensures LePlain(b, a) ==> MergePlain(a, b) == a || LePlain(a, b)
  {
  }

  /** `!==` is to `===` as `!` is to its argument. */
  lemma NegationSound(args: seq<Expr<Val, Fun>>, ts: seq<Type>, vs: seq<Val>)
    requires |args| == |ts| == |vs| == 2
    requires SoundCall(JULIA, Egal, args, ts, vs, BoolV(vs[0] == vs[1]))
    ensures SoundCall(JULIA, NotEgal, args, ts, vs, BoolV(vs[0] != vs[1]))
  {
    var r := CallType(Egal, args, ts);
    if r.Conditional? {
      if RefinesArgument(JULIA, ConditionOf(r), args, ts, vs, BoolV(vs[0] == vs[1])) {
        NegatedTest(r, args, ts, vs, vs[0] == vs[1]);
      } else {
        NegatedForward(r, ts, vs, vs[0] == vs[1]);
      }
    }
  }

  lemma NegatedTest(r: Type, args: seq<Expr<Val, Fun>>, ts: seq<Type>, vs: seq<Val>, b: bool)
    requires |args| == |ts| == |vs| && r.Conditional?
    requires RefinesArgument(JULIA, ConditionOf(r), args, ts, vs, BoolV(b))
    ensures RefinesArgument(JULIA, ConditionOf(SwapType(r)), args, ts, vs, BoolV(!b))
  {
    var c, c' := ConditionOf(r), ConditionOf(SwapType(r));
    var i :| 0 <= i < |args| && args[i] == Slot(c.slot) && Refines(JULIA, c, JULIA.truth(BoolV(b)), vs[i]) &&
      NoNewCondition(JULIA, c, ts[i]);
    assert args[i] == Slot(c'.slot) && Refines(JULIA, c', JULIA.truth(BoolV(!b)), vs[i]);
  }

  lemma NegatedForward(r: Type, ts: seq<Type>, vs: seq<Val>, b: bool)
    requires |ts| == |vs| && r.Conditional?
    requires ForwardsArgument(JULIA, ConditionOf(r), Forwards(Egal), ts, vs, BoolV(b))
    ensures ForwardsArgument(JULIA, ConditionOf(SwapType(r)), Forwards(NotEgal), ts, vs, BoolV(!b))
  {
    var c, c' := ConditionOf(r), ConditionOf(SwapType(r));
    var j :| 0 <= j < |ts| && j in Forwards(Egal) &&
      (|| (JULIA.condition(ts[j]) == c && JULIA.truth(BoolV(b)) == JULIA.truth(vs[j]))
       || (JULIA.condition(ts[j]) == Swapped(c) && JULIA.truth(BoolV(b)) == Negated(JULIA.truth(vs[j]))));
    assert Swapped(c') == c && Swapped(c) == c';
  }
}

/**
  The worklist abstract interpreter: state tables, their joins, and the loop that drives them to
  a fixpoint. The soundness of what it leaves behind is in module InferenceSoundness.
*/
module TypeInference {
  import opened Wrappers
  import opened WellFounded
  import opened InferenceDomain

  // ----- joining variable tables -----

  predicate SubState<T, V, F, W>(d: Domain<T, V, F, W>, a: VarState<T>, b: VarState<T>) {
    d.le(a.typ, b.typ) && (a.undef ==> b.undef)
  }

  predicate Changed<T(==), V, F, W>(d: Domain<T, V, F, W>, new': VarState<T>, old': VarState<T>) {
    new' != old' && !SubState(d, new', old')
  }

  function MergeStates<T(==), V, F, W>(d: Domain<T, V, F, W>, a: VarState<T>, b: VarState<T>): VarState<T> {
    if a == b then a
    else if SubState(d, a, b) then b
    else if SubState(d, b, a) then a
    else VarState(d.merge(a.typ, b.typ), a.undef || b.undef)
  }

  /** The outcome of interpreting one statement; `Thrown` when it cannot complete normally. */
  datatype Changes<T> =
    | Thrown
    | Table(state: VarTable<T>)
    | SlotUpdate(slot: nat, vtype: VarState<T>, state: VarTable<T>)
    | SSAUpdate(id: nat, vtype: VarState<T>, state: VarTable<T>)

  /** The variable table after the change. */
  function NewTable<T>(changes: Changes<T>): (table: VarTable<T>)
    requires !changes.Thrown?
    ensures |table| == |changes.state|
  {
    if changes.SlotUpdate? && changes.slot < |changes.state|
    then changes.state[changes.slot := changes.vtype]
    else changes.state
  }

  function JoinTable<T(==), V, F, W>(d: Domain<T, V, F, W>, old': VarTable<T>, new': VarTable<T>): (r: VarTable<T>)
    requires |old'| == |new'|
    ensures |r| == |old'|
  {
    seq(|old'|, i requires 0 <= i < |old'| =>
      if Changed(d, new'[i], old'[i]) then MergeStates(d, old'[i], new'[i]) else old'[i])
  }

  /**
    `r` is no more than two states ask for: it may be undefined only if one of them may, and its type is one of
    the two, or their merge when neither state is below the other.
  */
  predicate ExactJoin<T(==), V, F, W>(d: Domain<T, V, F, W>, a: VarState<T>, b: VarState<T>, r: VarState<T>) {
    && (r.undef <==> a.undef || b.undef)
    && (|| r.typ == a.typ
        || r.typ == b.typ
        || (r.typ == d.merge(a.typ, b.typ) && !SubState(d, a, b) && !SubState(d, b, a)))
  }

  lemma MergeStatesExact<T, V, F, W>(d: Domain<T, V, F, W>, a: VarState<T>, b: VarState<T>)
    ensures ExactJoin(d, a, b, if Changed(d, b, a) then MergeStates(d, a, b) else a)
  {
  }

  /** What slot `i` holds in the table that arrives. */
  function Arriving<T>(changes: Changes<T>, i: nat): VarState<T>
    requires !changes.Thrown? && i < |changes.state|
  {
    if changes.SlotUpdate? && i == changes.slot then changes.vtype else changes.state[i]
  }

  /** The table to store, or None when the old one already covers the new. */
  function Update<T(==), V, F, W>(d: Domain<T, V, F, W>, state: Option<VarTable<T>>, table: VarTable<T>)
      : Option<VarTable<T>>
    requires state.Some? ==> |state.value| == |table|
  {
    if state.None? then Some(table)
    else if exists i :: 0 <= i < |table| && Changed(d, table[i], state.value[i])
    then Some(JoinTable(d, state.value, table))
    else None
  }

  /** No slot of a join is wider, or more often undefined, than the two tables make it. */
  lemma JoinTableExact<T, V, F, W>(d: Domain<T, V, F, W>, old': VarTable<T>, new': VarTable<T>)
    requires |old'| == |new'|
    ensures forall i :: 0 <= i < |old'| ==> ExactJoin(d, old'[i], new'[i], JoinTable(d, old', new')[i])
  {
    forall i | 0 <= i < |old'| ensures ExactJoin(d, old'[i], new'[i], JoinTable(d, old', new')[i]) {
      MergeStatesExact(d, old'[i], new'[i]);
    }
  }

  method StUpdate<T(==), V, F, W>(d: Domain<T, V, F, W>, state: Option<VarTable<T>>, changes: Changes<T>)
      returns (newState: Option<VarTable<T>>)
    requires !changes.Thrown?
    requires state.Some? ==> |state.value| == |changes.state|
    ensures newState == Update(d, state, NewTable(changes))
    ensures state.None? ==> newState.Some?
    ensures newState.Some? ==> |newState.value| == |changes.state|
    ensures newState.Some? ==> forall i :: 0 <= i < |newState.value| ==>
              if state.None? then newState.value[i] == Arriving(changes, i)
              else ExactJoin(d, state.value[i], Arriving(changes, i), newState.value[i])
    ensures newState.None? ==> forall i :: 0 <= i < |changes.state| ==>
              Arriving(changes, i) == state.value[i] || SubState(d, Arriving(changes, i), state.value[i])
  {
    if state.None? {
      return Some(NewTable(changes));
    }
    ghost var target := NewTable(changes);
    ghost var joined := JoinTable(d, state.value, target);
    var table := state.value;
    newState := None;
    var i := 0;
    while i < |table|
      invariant 0 <= i <= |table| == |state.value|
      invariant forall j :: 0 <= j < i ==> table[j] == joined[j]
      invariant forall j :: i <= j < |table| ==> table[j] == state.value[j]
      invariant newState.Some? <==> exists j :: 0 <= j < i && Changed(d, target[j], state.value[j])
      invariant newState.Some? ==> newState.value == table
      invariant newState.None? ==> table == state.value
    {
      var newType := Arriving(changes, i);
      assert newType == target[i];
      if Changed(d, newType, table[i]) {
        table := table[i := MergeStates(d, table[i], newType)];
        newState := Some(table);
      }
      i := i + 1;
    }
    assert table == joined;
    JoinTableExact(d, state.value, target);
    assert forall j :: 0 <= j < |target| ==> target[j] == Arriving(changes, j);
  }

  // ----- the order in which facts grow -----

  /** Everything inference has concluded so far. */
  datatype Facts<T> = Facts(stmts: seq<Option<VarTable<T>>>, ssa: SSATable<T>, best: T)

  ghost function LeVar<T(!new), V, F, W>(d: Domain<T, V, F, W>): ((VarState<T>, VarState<T>) -> bool) {
    (a: VarState<T>, b: VarState<T>) => SubState(d, a, b)
  }

  ghost predicate LeTable<T(!new), V, F, W>(d: Domain<T, V, F, W>, a: VarTable<T>, b: VarTable<T>) {
    LeSeq(LeVar(d))(a, b)
  }

  ghost function LeStmts<T(!new), V, F, W>(d: Domain<T, V, F, W>)
      : ((seq<Option<VarTable<T>>>, seq<Option<VarTable<T>>>) -> bool) {
    LeSeq(LeOption(LeSeq(LeVar(d))))
  }

  ghost function LeFacts<T(!new), V, F, W>(d: Domain<T, V, F, W>): ((Facts<T>, Facts<T>) -> bool) {
    (a: Facts<T>, b: Facts<T>) =>
      LeStmts(d)(a.stmts, b.stmts) && LeSeq(LeOption(d.le))(a.ssa, b.ssa) && d.le(a.best, b.best)
  }

  lemma TablesNoInfiniteAscent<T(!new), V(!new), F, W>(d: Domain<T, V, F, W>)
    requires SoundLattice(d)
    ensures Preorder(LeVar(d))
    ensures Preorder(LeSeq(LeVar(d)))
    ensures Preorder(LeStmts(d)) && NoInfiniteAscent(LeStmts(d))
  {
    BoolNoInfiniteAscent();
    PairNoInfiniteAscent(d.le, LeBool());
    EmbedNoInfiniteAscent(LeVar(d), LePair(d.le, LeBool()), (v: VarState<T>) => (v.typ, v.undef));
    SeqNoInfiniteAscent(LeVar(d));
    OptionNoInfiniteAscent(LeSeq(LeVar(d)));
    SeqNoInfiniteAscent(LeOption(LeSeq(LeVar(d))));
  }

  /** Facts only grow, and they cannot grow forever. */
  lemma FactsNoInfiniteAscent<T(!new), V(!new), F, W>(d: Domain<T, V, F, W>)
    requires SoundLattice(d)
    ensures Preorder(LeFacts(d)) && NoInfiniteAscent(LeFacts(d))
  {
    TablesNoInfiniteAscent(d);
    OptionNoInfiniteAscent(d.le);
    SeqNoInfiniteAscent(LeOption(d.le));
    PairNoInfiniteAscent(LeSeq(LeOption(d.le)), d.le);
    var leRest := LePair(LeSeq(LeOption(d.le)), d.le);
    PairNoInfiniteAscent(LeStmts(d), leRest);
    EmbedNoInfiniteAscent(LeFacts(d), LePair(LeStmts(d), leRest), (f: Facts<T>) => (f.stmts, (f.ssa, f.best)));
  }

  /** A join lies above both its arguments, strictly above the old one when anything changed. */
  lemma JoinAbove<T(!new), V(!new), F, W>(d: Domain<T, V, F, W>, old': VarTable<T>, new': VarTable<T>)
    requires SoundLattice(d) && |old'| == |new'|
    ensures var r := Update(d, Some(old'), new');
            && (r.None? ==> LeTable(d, new', old'))
            && (r.Some? ==> LeTable(d, new', r.value) && LeTable(d, old', r.value) && !LeTable(d, r.value, old'))
  {
    var r := JoinTable(d, old', new');
    forall i | 0 <= i < |old'|
      ensures SubState(d, old'[i], r[i]) && SubState(d, new'[i], r[i])
      ensures Changed(d, new'[i], old'[i]) ==> !SubState(d, r[i], old'[i])
    {
      var m := d.merge(old'[i].typ, new'[i].typ);
      assert d.le(old'[i].typ, m) && d.le(new'[i].typ, m);
    }
    if Update(d, Some(old'), new').Some? {
      var i :| 0 <= i < |new'| && Changed(d, new'[i], old'[i]);
      assert !LeVar(d)(r[i], old'[i]);
    }
  }
}

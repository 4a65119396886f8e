/** An inference frame whose tables are updated in place, and the loop that runs it to a fixpoint. */
module InferenceFrame {
  import opened Wrappers
  import opened WellFounded
  import opened InferenceDomain
  import opened TypeInference
  import opened Worklist

  /** `facts` explains every position of `except`'s complement: nothing reached is left unexplained. */
  ghost predicate Settled<T(!new), V, F, W>(d: Domain<T, V, F, W>, code: seq<Stmt<V, F>>, facts: Facts<T>,
                                           except: set<nat>)
    requires |facts.stmts| == |code|
  {
    forall r: nat :: r < |code| && r !in except ==> Satisfied(d, code, facts, r)
  }

  /** The pending set holds reached positions only, and `lowest` is its least element. */
  ghost predicate Listed<T>(stmts: seq<Option<VarTable<T>>>, ip: set<nat>, lowest: nat) {
    && lowest <= |stmts|
    && (forall r :: r in ip ==> lowest <= r < |stmts| && stmts[r].Some?)
    && (lowest < |stmts| ==> lowest in ip)
  }

  lemma VisitShrinks(ip: set<nat>, pc: nat, next: nat)
    requires next in ip && next != pc
    ensures |(ip - {pc}) + {next}| < |ip + {pc}|
  {
    assert (ip - {pc}) + {next} == (ip + {pc}) - {pc};
  }

  lemma PushKeeps(ip: set<nat>, pc: nat, target: nat)
    ensures |(ip - {pc}) + {target}| <= |ip + {pc}|
  {
    var rest := (ip + {pc}) - {pc};
    assert (ip - {pc}) + {target} == rest + {target};
    assert |rest| + 1 == |ip + {pc}|;
    assert |rest + {target}| <= |rest| + 1;
  }

  /** What never changes while a frame is worked on. */
  ghost predicate Program<T(!new), V(!new), F, W>(d: Domain<T, V, F, W>, code: seq<Stmt<V, F>>, entry: VarTable<T>,
                                                 nssa: nat, uses: seq<set<nat>>) {
    SoundLattice(d) && WfCode(code, |entry|, nssa) && IsUses(code, |code|, uses)
  }

  /** Tables have one shape, and the first statement is reached with at least the argument types. */
  ghost predicate GoodFacts<T(!new), V, F, W>(d: Domain<T, V, F, W>, entry: VarTable<T>, n: nat, nssa: nat,
      f: Facts<T>)
  {
    && 0 < n == |f.stmts| && |f.ssa| == nssa
    && (forall i :: 0 <= i < n && f.stmts[i].Some? ==> |f.stmts[i].value| == |entry|)
    && f.stmts[0].Some? && LeTable(d, entry, f.stmts[0].value)
  }

  lemma EntriesReflexive<T(!new), V(!new), F, W>(d: Domain<T, V, F, W>)
    requires SoundLattice(d)
    ensures forall x: Option<VarTable<T>> :: LeOption(LeSeq(LeVar(d)))(x, x)
    ensures forall x: Option<T> :: LeOption(d.le)(x, x)
    ensures forall x :: d.le(x, x)
  {
    TablesNoInfiniteAscent(d);
  }

  /** One table grows: the facts grow, strictly. */
  lemma StmtGrows<T(!new), V(!new), F, W>(d: Domain<T, V, F, W>, f: Facts<T>, target: nat, table: VarTable<T>)
    requires SoundLattice(d) && target < |f.stmts|
    requires f.stmts[target].Some? ==>
               LeTable(d, f.stmts[target].value, table) && !LeTable(d, table, f.stmts[target].value)
    ensures Above(LeFacts(d), f, f.(stmts := f.stmts[target := Some(table)]))
  {
    hide SoundLattice, SubState;
    EntriesReflexive(d);
    var g := f.(stmts := f.stmts[target := Some(table)]);
    forall i | 0 <= i < |f.stmts| ensures LeOption(LeSeq(LeVar(d)))(f.stmts[i], g.stmts[i]) {}
    assert LeStmts(d)(f.stmts, g.stmts);
    forall i | 0 <= i < |f.ssa| ensures LeOption(d.le)(f.ssa[i], g.ssa[i]) {}
    assert !LeOption(LeSeq(LeVar(d)))(g.stmts[target], f.stmts[target]);
  }

  lemma GoodFactsGrow<T(!new), V(!new), F, W>(d: Domain<T, V, F, W>, entry: VarTable<T>, n: nat, nssa: nat,
                                             f: Facts<T>, target: nat, table: VarTable<T>)
    requires SoundLattice(d) && GoodFacts(d, entry, n, nssa, f) && target < n && |table| == |entry|
    requires f.stmts[target].Some? ==> LeTable(d, f.stmts[target].value, table)
    ensures GoodFacts(d, entry, n, nssa, f.(stmts := f.stmts[target := Some(table)]))
  {
    if target == 0 {
      TableTransitive(d, entry, f.stmts[0].value, table);
    }
  }

  /** One SSA type grows: the facts grow, strictly. */
  lemma SSAGrows<T(!new), V(!new), F, W>(d: Domain<T, V, F, W>, f: Facts<T>, id: nat, t: T)
    requires SoundLattice(d) && id < |f.ssa|
    requires f.ssa[id].Some? ==> d.le(f.ssa[id].value, t) && !d.le(t, f.ssa[id].value)
    ensures Above(LeFacts(d), f, f.(ssa := f.ssa[id := Some(t)]))
  {
    hide SoundLattice, SubState;
    EntriesReflexive(d);
    var g := f.(ssa := f.ssa[id := Some(t)]);
    forall i | 0 <= i < |f.stmts| ensures LeOption(LeSeq(LeVar(d)))(f.stmts[i], g.stmts[i]) {}
    forall i | 0 <= i < |f.ssa| ensures LeOption(d.le)(f.ssa[i], g.ssa[i]) {}
    assert !LeOption(d.le)(g.ssa[id], f.ssa[id]);
    assert LeStmts(d)(f.stmts, g.stmts) && LeSeq(LeOption(d.le))(f.ssa, g.ssa) && !LeSeq(LeOption(d.le))(g.ssa, f.ssa);
  }

  lemma InitialGood<T(!new), V(!new), F, W>(d: Domain<T, V, F, W>, code: seq<Stmt<V, F>>, entry: VarTable<T>,
                                           nssa: nat, uses: seq<set<nat>>, f: Facts<T>)
    requires SoundLattice(d) && WfCode(code, |entry|, nssa) && IsUses(code, |code|, uses)
    requires |f.stmts| == |code| && |f.ssa| == nssa && f.stmts[0] == Some(entry)
    requires forall i :: 0 < i < |code| ==> f.stmts[i].None?
    ensures Program(d, code, entry, nssa, uses) && GoodFacts(d, entry, |code|, nssa, f) && Listed(f.stmts, {0}, 0)
    ensures Settled(d, code, f, {0})
  {
    TablesNoInfiniteAscent(d);
  }

  /**
    What a frame keeps at every moment: its program, well-shaped facts and a pending set that lists reached
    positions.
  */
  ghost predicate Good<T(!new), V(!new), F, W>(d: Domain<T, V, F, W>, code: seq<Stmt<V, F>>, entry: VarTable<T>,
      nssa: nat, uses: seq<set<nat>>, f: Facts<T>, ip: set<nat>, lowest: nat)
  {
    && Program(d, code, entry, nssa, uses)
    && GoodFacts(d, entry, |code|, nssa, f)
    && Listed(f.stmts, ip, lowest)
  }

  ghost function Reached<T>(stmts: seq<Option<VarTable<T>>>, rs: set<nat>): set<nat> {
    set r | r in rs && r < |stmts| && stmts[r].Some?
  }

  lemma ReachedAdd<T>(stmts: seq<Option<VarTable<T>>>, all: set<nat>, rest: set<nat>, r: nat)
    requires r in rest && rest <= all
    ensures Reached(stmts, all - (rest - {r})) ==
            Reached(stmts, all - rest) + if r < |stmts| && stmts[r].Some? then {r} else {}
  {
    assert all - (rest - {r}) == (all - rest) + {r};
  }

  /** The facts about one position that the class invariant gives. */
  lemma WellShaped<T(!new), V(!new), F, W>(d: Domain<T, V, F, W>, code: seq<Stmt<V, F>>, entry: VarTable<T>,
      nssa: nat, uses: seq<set<nat>>, f: Facts<T>, ip: set<nat>, lowest: nat, pc: nat)
    requires Good(d, code, entry, nssa, uses, f, ip, lowest) && pc < |code|
    ensures SoundLattice(d) && IsUses(code, |code|, uses) && |f.stmts| == |code|
    ensures f.stmts[pc].Some? ==> |f.stmts[pc].value| == |entry|
    ensures code[pc].SSAAssign? ==> code[pc].id < |f.ssa| && code[pc].id < |uses|
    ensures (code[pc].Goto? || code[pc].GotoIfNot?) ==>
              var l := code[pc].target;
              l < |code| && l != pc && (f.stmts[l].Some? ==> |f.stmts[l].value| == |entry|)
  {
    assert WfStmt(code, pc, |entry|, nssa);
  }

  lemma MergeAbove<T(!new), V(!new), F, W>(d: Domain<T, V, F, W>, old': Option<T>, new': T)
    requires SoundLattice(d)
    requires old'.None? || !d.le(new', old'.value)
    ensures var t := if old'.None? then new' else d.merge(old'.value, new');
            d.le(new', t) && (old'.Some? ==> d.le(old'.value, t) && !d.le(t, old'.value))
  {
    if old'.Some? {
      var t := d.merge(old'.value, new');
      assert d.le(old'.value, t) && d.le(new', t);
    }
  }

  /** Recording an SSA type: its readers become pending, everyone else stays explained. */
  lemma SSAStep<T(!new), V(!new), F, W>(d: Domain<T, V, F, W>, code: seq<Stmt<V, F>>, entry: VarTable<T>,
      nssa: nat, uses: seq<set<nat>>, f: Facts<T>, ip: set<nat>, lowest: nat, id: nat, new': T, except: set<nat>)
    requires Good(d, code, entry, nssa, uses, f, ip, lowest) && id < |f.ssa| && id < |uses|
    requires Settled(d, code, f, ip + except)
    requires f.ssa[id].None? || !d.le(new', f.ssa[id].value)
    ensures var t := if f.ssa[id].None? then new' else d.merge(f.ssa[id].value, new');
            var g := f.(ssa := f.ssa[id := Some(t)]);
            && d.le(new', t)
            && Good(d, code, entry, nssa, uses, g, ip, lowest)
            && Above(LeFacts(d), f, g)
            && Settled(d, code, g, ip + Reached(f.stmts, uses[id]) + except)
  {
    hide SoundLattice, IsUses, WfCode, LeFacts, Settled, Reached;
    var t := if f.ssa[id].None? then new' else d.merge(f.ssa[id].value, new');
    var g := f.(ssa := f.ssa[id := Some(t)]);
    MergeAbove(d, f.ssa[id], new');
    SSAGrows(d, f, id, t);
    SettledAfterSSA(d, code, uses, f, g, id, ip + except, ip + Reached(f.stmts, uses[id]) + except);
  }

  lemma SettledAfterSSA<T(!new), V(!new), F, W>(d: Domain<T, V, F, W>, code: seq<Stmt<V, F>>, uses: seq<set<nat>>,
      f: Facts<T>, g: Facts<T>, id: nat, before: set<nat>, after: set<nat>)
    requires SoundLattice(d) && IsUses(code, |code|, uses) && |f.stmts| == |code| && id < |uses|
    requires id < |f.ssa| == |g.ssa| && g == f.(ssa := f.ssa[id := g.ssa[id]]) && LeFacts(d)(f, g)
    requires Settled(d, code, f, before) && before <= after && Reached(f.stmts, uses[id]) <= after
    ensures Settled(d, code, g, after)
  {
    forall r: nat | r < |code| && r !in after ensures Satisfied(d, code, g, r) {
      if f.stmts[r].Some? {
        assert r !in Reached(f.stmts, uses[id]);
        assert LeOption(d.le)(f.ssa[id], g.ssa[id]);
        SatisfiedUnlessUser(d, code, f, g, id, r);
      }
    }
  }

  /** An update covers what flowed in and does not lose what was there; it happens only for a strict gain. */
  lemma UpdateAbove<T(!new), V(!new), F, W>(d: Domain<T, V, F, W>, old': Option<VarTable<T>>, table: VarTable<T>)
    requires SoundLattice(d) && (old'.Some? ==> |old'.value| == |table|)
    ensures var r := Update(d, old', table);
            && (r.None? ==> old'.Some? && LeTable(d, table, old'.value))
            && (r.Some? ==> LeTable(d, table, r.value) && |r.value| == |table|)
            && (r.Some? && old'.Some? ==> LeTable(d, old'.value, r.value) && !LeTable(d, r.value, old'.value))
  {
    TablesNoInfiniteAscent(d);
    if old'.Some? {
      JoinAbove(d, old'.value, table);
    }
  }

  /** Joining a table into an entry: only that entry's own statement loses its explanation. */
  lemma FlowStep<T(!new), V(!new), F, W>(d: Domain<T, V, F, W>, code: seq<Stmt<V, F>>, entry: VarTable<T>,
      nssa: nat, uses: seq<set<nat>>, f: Facts<T>, ip: set<nat>, lowest: nat, target: nat, table: VarTable<T>,
      except: set<nat>)
    requires Good(d, code, entry, nssa, uses, f, ip, lowest) && target < |code| && |table| == |entry|
    requires Settled(d, code, f, except)
    ensures var newState := Update(d, f.stmts[target], table);
            if newState.None? then Flows(d, f, target, table) else
              var g := f.(stmts := f.stmts[target := newState]);
              && Flows(d, g, target, table)
              && Good(d, code, entry, nssa, uses, g, ip, lowest)
              && Above(LeFacts(d), f, g)
              && Settled(d, code, g, except + {target})
  {
    hide SoundLattice, Update, LeTable, IsUses, WfCode, GoodFacts, LeFacts, Listed, Settled;
    WellShaped(d, code, entry, nssa, uses, f, ip, lowest, target);
    var newState := Update(d, f.stmts[target], table);
    UpdateAbove(d, f.stmts[target], table);
    if newState.Some? {
      var g := f.(stmts := f.stmts[target := newState]);
      StmtGrows(d, f, target, newState.value);
      GoodFactsGrow(d, entry, |code|, nssa, f, target, newState.value);
      ListedGrows(f.stmts, ip, lowest, target, newState);
      SettledAfterFlow(d, code, f, g, target, except);
    }
  }

  lemma ListedGrows<T>(stmts: seq<Option<VarTable<T>>>, ip: set<nat>, lowest: nat, target: nat,
                       state: Option<VarTable<T>>)
    requires Listed(stmts, ip, lowest) && target < |stmts| && state.Some?
    ensures Listed(stmts[target := state], ip, lowest)
  {
  }

  lemma SettledAfterFlow<T(!new), V(!new), F, W>(d: Domain<T, V, F, W>, code: seq<Stmt<V, F>>,
      f: Facts<T>, g: Facts<T>, target: nat, except: set<nat>)
    requires SoundLattice(d) && target < |f.stmts| == |g.stmts| == |code|
    requires g == f.(stmts := f.stmts[target := g.stmts[target]]) && LeFacts(d)(f, g)
    requires Settled(d, code, f, except)
    ensures Settled(d, code, g, except + {target})
  {
    forall r: nat | r < |code| && r !in except + {target} ensures Satisfied(d, code, g, r) {
      SatisfiedGrows(d, code, f, g, r);
    }
  }

  /** Facts either stand still or move strictly up. */
  ghost predicate Ascends<T(!new), V, F, W>(d: Domain<T, V, F, W>, f: Facts<T>, g: Facts<T>) {
    f == g || Above(LeFacts(d), f, g)
  }

  /** Facts only move up, and only by what reached statements do. */
  ghost predicate Grown<T(!new), V, F, W>(d: Domain<T, V, F, W>, code: seq<Stmt<V, F>>, f: Facts<T>, g: Facts<T>) {
    Ascends(d, f, g) && Derives(d, code, f, g)
  }

  lemma GrownReflexive<T(!new), V(!new), F, W>(d: Domain<T, V, F, W>, code: seq<Stmt<V, F>>, f: Facts<T>)
    ensures Grown(d, code, f, f)
  {
  }

  lemma InitialRank<T(!new), V(!new), F, W>(d: Domain<T, V, F, W>, f: Facts<T>) returns (k: ORDINAL)
    requires SoundLattice(d)
    ensures Acc#[k](LeFacts(d), f)
  {
    FactsNoInfiniteAscent(d);
    k := AccRank(LeFacts(d), f);
  }

  lemma GrownTransitive<T(!new), V(!new), F, W>(d: Domain<T, V, F, W>, code: seq<Stmt<V, F>>, f: Facts<T>, g: Facts<T>,
                                               h: Facts<T>)
    requires SoundLattice(d) && Grown(d, code, f, g) && Grown(d, code, g, h)
    ensures Grown(d, code, f, h) && (f == h ==> f == g)
  {
    hide SoundLattice, LeFacts, Inductive;
    FactsNoInfiniteAscent(d);
    assert LeFacts(d)(f, f);
  }

  lemma NextRank<T(!new), V(!new), F, W>(d: Domain<T, V, F, W>, code: seq<Stmt<V, F>>, k: ORDINAL, start: Facts<T>,
                                        f: Facts<T>, g: Facts<T>) returns (k': ORDINAL)
    requires SoundLattice(d) && Acc#[k](LeFacts(d), f) && Grown(d, code, start, f) && Grown(d, code, f, g)
    ensures Acc#[k'](LeFacts(d), g) && Grown(d, code, start, g)
    ensures if f == g then k' == k else k' < k
  {
    k' := k;
    GrownTransitive(d, code, start, f, g);
    if f != g {
      k' := Descend(LeFacts(d), k, f, g);
    }
  }

  /** Everything statement `pc` asks for holds, save possibly that `table` reaches `next`. */
  ghost predicate SideDone<T(!new), V, F, W>(d: Domain<T, V, F, W>, code: seq<Stmt<V, F>>, f: Facts<T>, pc: nat,
                                            next: nat, table: VarTable<T>)
    requires pc < |code| == |f.stmts| && f.stmts[pc].Some?
  {
    var vtypes := f.stmts[pc].value;
    var changes := Interpret(d, code[pc], vtypes, f.ssa);
    !changes.Thrown? &&
    match code[pc]
    case SSAAssign(id, _) =>
      && (id < |f.ssa| ==> f.ssa[id].Some? && d.le(changes.vtype.typ, f.ssa[id].value))
      && next == pc + 1 && table == vtypes
    case Goto(l) => next == l && table == vtypes
    case Return(e) => d.le(AbstractEval(d, e, vtypes, f.ssa), f.best) && next >= |code|
    case GotoIfNot(cond, l) =>
      var c := d.condition(AbstractEval(d, cond, vtypes, f.ssa));
      if c.ConstTrue? then next == pc + 1 && table == vtypes
      else if c.ConstFalse? then next == l && table == vtypes
      else
        && Flows(d, f, l, NewTable(ElseChanges(c, vtypes)))
        && next == pc + 1 && table == NewTable(ThenChanges(c, vtypes))
    case _ => next == pc + 1 && table == NewTable(changes)
  }

  lemma SideDoneSatisfied<T(!new), V, F, W>(d: Domain<T, V, F, W>, code: seq<Stmt<V, F>>, f: Facts<T>, pc: nat,
                                           next: nat, table: VarTable<T>)
    requires pc < |code| == |f.stmts| && f.stmts[pc].Some?
    requires SideDone(d, code, f, pc, next, table) && Flows(d, f, next, table)
    ensures Satisfied(d, code, f, pc)
  {
  }

  lemma SideDoneGrows<T(!new), V(!new), F, W>(d: Domain<T, V, F, W>, code: seq<Stmt<V, F>>, f: Facts<T>, g: Facts<T>,
                                             pc: nat, next: nat, table: VarTable<T>)
    requires SoundLattice(d) && pc < |code| == |f.stmts| == |g.stmts| && f.stmts[pc].Some?
    requires Ascends(d, f, g) && g.stmts[pc] == f.stmts[pc] && g == f.(stmts := g.stmts)
    requires SideDone(d, code, f, pc, next, table)
    ensures SideDone(d, code, g, pc, next, table)
  {
    if f != g && code[pc].GotoIfNot? {
      var vtypes := f.stmts[pc].value;
      var c := d.condition(AbstractEval(d, code[pc].cond, vtypes, f.ssa));
      FlowsGrow(d, f, g, code[pc].target, NewTable(ElseChanges(c, vtypes)));
    }
  }

  lemma FlowsReached<T(!new), V, F, W>(d: Domain<T, V, F, W>, f: Facts<T>, target: nat, table: VarTable<T>)
    requires Flows(d, f, target, table) && target < |f.stmts|
    ensures f.stmts[target].Some?
  {
  }

  lemma FlowsPastEnd<T(!new), V, F, W>(d: Domain<T, V, F, W>, f: Facts<T>, target: nat, table: VarTable<T>)
    requires target >= |f.stmts|
    ensures Flows(d, f, target, table)
  {
  }

  lemma AboveDiffers<T(!new), V(!new), F, W>(d: Domain<T, V, F, W>, f: Facts<T>, g: Facts<T>)
    requires Above(LeFacts(d), f, g)
    ensures f != g
  {
  }

  lemma GoodFactsBest<T(!new), V, F, W>(d: Domain<T, V, F, W>, entry: VarTable<T>, n: nat, nssa: nat, f: Facts<T>, t: T)
    requires GoodFacts(d, entry, n, nssa, f)
    ensures GoodFacts(d, entry, n, nssa, f.(best := t))
  {
  }

  lemma ResultStep<T(!new), V(!new), F, W>(d: Domain<T, V, F, W>, code: seq<Stmt<V, F>>, f: Facts<T>, t: T, rt: T,
                                          except: set<nat>)
    requires SoundLattice(d) && |f.stmts| == |code| && Settled(d, code, f, except)
    requires !d.le(rt, f.best) && t == d.merge(f.best, rt)
    ensures d.le(rt, t) && Above(LeFacts(d), f, f.(best := t)) && Settled(d, code, f.(best := t), except)
  {
    var g := f.(best := t);
    assert Above(LeFacts(d), f, g) by {
      EntriesReflexive(d);
      forall i | 0 <= i < |f.stmts| ensures LeOption(LeSeq(LeVar(d)))(f.stmts[i], g.stmts[i]) {}
      forall i | 0 <= i < |f.ssa| ensures LeOption(d.le)(f.ssa[i], g.ssa[i]) {}
      assert d.le(f.best, t) && d.le(rt, t);
    }
    forall r: nat | r < |code| && r !in except ensures Satisfied(d, code, g, r) {
      SatisfiedGrows(d, code, f, g, r);
    }
  }

  /** After an SSA type is recorded, its own statement is done unless it reads the value it assigns. */
  lemma SSASideDone<T(!new), V(!new), F, W>(d: Domain<T, V, F, W>, code: seq<Stmt<V, F>>, uses: seq<set<nat>>,
                                           f: Facts<T>, g: Facts<T>, pc: nat)
    requires IsUses(code, |code|, uses) && pc < |code| == |f.stmts| && f.stmts[pc].Some?
    requires code[pc].SSAAssign? && code[pc].id < |f.ssa| == |g.ssa| && code[pc].id < |uses|
    requires var id := code[pc].id; g == f.(ssa := f.ssa[id := g.ssa[id]])
    requires var changes := Interpret(d, code[pc], f.stmts[pc].value, f.ssa);
             changes.SSAUpdate? && g.ssa[code[pc].id].Some? && d.le(changes.vtype.typ, g.ssa[code[pc].id].value)
    ensures pc in Reached(f.stmts, uses[code[pc].id]) || SideDone(d, code, g, pc, pc + 1, f.stmts[pc].value)
    ensures f == g ==> SideDone(d, code, g, pc, pc + 1, f.stmts[pc].value)
  {
    var id := code[pc].id;
    if pc !in uses[id] {
      InterpretReadsOnlyUses(d, code[pc], f.stmts[pc].value, f.ssa, g.ssa);
    }
  }

  lemma PlainSideDone<T(!new), V, F, W>(d: Domain<T, V, F, W>, code: seq<Stmt<V, F>>, f: Facts<T>, pc: nat)
    requires pc < |code| == |f.stmts| && f.stmts[pc].Some? && !code[pc].SSAAssign? && !code[pc].GotoIfNot?
    requires code[pc].Return? ==> d.le(AbstractEval(d, code[pc].e, f.stmts[pc].value, f.ssa), f.best)
    ensures var changes := Interpret(d, code[pc], f.stmts[pc].value, f.ssa);
            var next := if code[pc].Goto? then code[pc].target else if code[pc].Return? then |code| else pc + 1;
            changes.Thrown? || (SideDone(d, code, f, pc, next, NewTable(changes)) &&
              (next < |code| ==> Sends(d, code, f, pc, next, NewTable(changes))))
  {
  }

  lemma SettledPending<T(!new), V, F, W>(d: Domain<T, V, F, W>, code: seq<Stmt<V, F>>, f: Facts<T>,
                                        before: set<nat>, after: set<nat>, pc: nat)
    requires |f.stmts| == |code| && Settled(d, code, f, before)
    requires before <= after + {pc}
    requires pc in after || (pc < |code| && Satisfied(d, code, f, pc))
    ensures Settled(d, code, f, after)
  {
  }

  lemma SettledMonotone<T(!new), V, F, W>(d: Domain<T, V, F, W>, code: seq<Stmt<V, F>>, f: Facts<T>,
                                         before: set<nat>, after: set<nat>)
    requires |f.stmts| == |code| && Settled(d, code, f, before) && before <= after
    ensures Settled(d, code, f, after)
  {
  }

  lemma ThrownSatisfied<T(!new), V, F, W>(d: Domain<T, V, F, W>, code: seq<Stmt<V, F>>, f: Facts<T>, pc: nat)
    requires pc < |code| == |f.stmts| && f.stmts[pc].Some?
    requires Interpret(d, code[pc], f.stmts[pc].value, f.ssa).Thrown?
    ensures Satisfied(d, code, f, pc)
  {
  }

  lemma LowestPending<T(!new), V(!new), F, W>(d: Domain<T, V, F, W>, code: seq<Stmt<V, F>>, entry: VarTable<T>,
      nssa: nat, uses: seq<set<nat>>, f: Facts<T>, ip: set<nat>, lowest: nat)
    requires Good(d, code, entry, nssa, uses, f, ip, lowest)
    ensures SoundLattice(d) && lowest <= |code| == |f.stmts|
    ensures if lowest < |code| then lowest in ip && f.stmts[lowest].Some? else ip == {}
  {
    assert lowest == |code| ==> forall r :: r in ip ==> lowest <= r < |code|;
  }

  /** Once `table` has arrived at `next`, statement `pc` is explained. */
  lemma Arrived<T(!new), V(!new), F, W>(d: Domain<T, V, F, W>, code: seq<Stmt<V, F>>, f: Facts<T>, g: Facts<T>,
                                       ip: set<nat>, pc: nat, next: nat, table: VarTable<T>, grown: bool)
    requires SoundLattice(d) && pc < |code| == |f.stmts| == |g.stmts| && f.stmts[pc].Some?
    requires Ascends(d, f, g) && g.stmts[pc] == f.stmts[pc] && g == f.(stmts := g.stmts)
    requires pc in ip || SideDone(d, code, f, pc, next, table)
    requires Flows(d, g, next, table) && next < |code|
    requires Settled(d, code, g, if grown then ip + {pc} + {next} else ip + {pc})
    ensures Settled(d, code, g, if grown then ip + {next} else ip)
    ensures g.stmts[next].Some?
  {
    FlowsReached(d, g, next, table);
    var before := if grown then ip + {pc} + {next} else ip + {pc};
    var after := if grown then ip + {next} else ip;
    assert before <= after + {pc};
    if pc !in ip {
      SideDoneGrows(d, code, f, g, pc, next, table);
      SideDoneSatisfied(d, code, g, pc, next, table);
    }
    SettledPending(d, code, g, before, after, pc);
  }

  class InferenceState<T(!new, ==), V(!new), F(!new), W(!new)> {
    const d: Domain<T, V, F, W>
    const code: seq<Stmt<V, F>>
    const entry: VarTable<T>
    const ssaUses: seq<set<nat>>
    const nssa: nat
    var stmtTypes: seq<Option<VarTable<T>>>
    var ssaTypes: SSATable<T>
    var bestguess: T
    var ip: set<nat>
    var lowest: nat

    ghost function Facts(): Facts<T>
      reads this
    {
      TypeInference.Facts(stmtTypes, ssaTypes, bestguess)
    }

    ghost predicate Valid()
      reads this
    {
      Good(d, code, entry, nssa, ssaUses, Facts(), ip, lowest)
    }

    /** A new frame: only the first statement is reached, with the types of the arguments. */
    constructor (d: Domain<T, V, F, W>, code: seq<Stmt<V, F>>, entry: VarTable<T>, nssa: nat)
      requires SoundLattice(d) && WfCode(code, |entry|, nssa)
      ensures Valid() && this.d == d && this.code == code && this.entry == entry && this.nssa == nssa
      ensures ip == {0} && lowest == 0
      ensures stmtTypes[0] == Some(entry) && forall i :: 0 < i < |code| ==> stmtTypes[i].None?
      ensures (forall i :: 0 <= i < nssa ==> ssaTypes[i].None?) && bestguess == d.bottom
      ensures |stmtTypes| == |code| && Settled(d, code, Facts(), ip)
    {
      hide GoodFacts, Program, Settled, SoundLattice, Worklist.IsUses, Worklist.WfStmt, Listed;
      this.d, this.code, this.entry, this.nssa := d, code, entry, nssa;
      stmtTypes := seq(|code|, i => if i == 0 then Some(entry) else None);
      ssaTypes := seq(nssa, i => None);
      bestguess := d.bottom;
      ip, lowest := {0}, 0;
      var uses := FindSSAValueUses(code);
      ssaUses := uses;
      new;
      InitialGood(d, code, entry, nssa, ssaUses, Facts());
    }

    /** Put a reached position on the pending list. */
    method Push(pc: nat)
      requires pc < |stmtTypes| && stmtTypes[pc].Some? && Listed(stmtTypes, ip, lowest)
      modifies `ip, `lowest
      ensures Listed(stmtTypes, ip, lowest)
      ensures ip == old(ip) + {pc}
      ensures lowest == if pc < old(lowest) then pc else old(lowest)
    {
      if pc < lowest {
        lowest := pc;
      }
      ip := ip + {pc};
    }

    /** The first pending position after `pc`, or the body's length. */
    method NextActive(pc: nat) returns (next: nat)
      requires pc < |stmtTypes|
      ensures pc < next <= |stmtTypes|
      ensures next < |stmtTypes| ==> next in ip
      ensures forall r :: pc < r < next ==> r !in ip
    {
      next := pc + 1;
      while next < |stmtTypes| && next !in ip
        invariant pc < next <= |stmtTypes|
        invariant forall r :: pc < r < next ==> r !in ip
      {
        next := next + 1;
      }
    }

    /** The reached positions among `readers` become pending. */
    method PushReached(readers: set<nat>)
      requires Listed(stmtTypes, ip, lowest)
      modifies `ip, `lowest
      ensures Listed(stmtTypes, ip, lowest)
      ensures ip == old(ip) + Reached(stmtTypes, readers)
    {
      var rest := readers;
      while rest != {}
        invariant rest <= readers
        invariant Listed(stmtTypes, ip, lowest)
        invariant ip == old(ip) + Reached(stmtTypes, readers - rest)
        decreases |rest|
      {
        var r :| r in rest;
        ReachedAdd(stmtTypes, readers, rest, r);
        if r < |stmtTypes| && stmtTypes[r].Some? {
          Push(r);
        }
        rest := rest - {r};
      }
      assert readers - rest == readers;
    }

    /** Widen an SSA value's type; every reached statement that reads it becomes pending. */
    method RecordSSAAssign(id: nat, new': T, ghost except: set<nat>)
      requires Valid() && id < |ssaTypes| && id < |ssaUses|
      requires Settled(d, code, Facts(), ip + except)
      modifies `ssaTypes, `ip, `lowest
      ensures Valid() && Settled(d, code, Facts(), ip + except)
      ensures Facts() == old(Facts()).(ssa := ssaTypes) && ssaTypes == old(ssaTypes)[id := ssaTypes[id]]
      ensures ssaTypes[id] == Recorded(d, old(ssaTypes[id]), new') && d.le(new', ssaTypes[id].value)
      ensures if ssaTypes == old(ssaTypes) then ip == old(ip) && lowest == old(lowest)
              else Above(LeFacts(d), old(Facts()), Facts()) && ip == old(ip) + Reached(stmtTypes, ssaUses[id])
    {
      hide Program, GoodFacts, Settled, WellFounded.Above, SoundLattice, Reached, Listed;
      var old' := ssaTypes[id];
      if old'.None? || !d.le(new', old'.value) {
        SSAStep(d, code, entry, nssa, ssaUses, Facts(), ip, lowest, id, new', except);
        ssaTypes := ssaTypes[id := Some(if old'.None? then new' else d.merge(old'.value, new'))];
        PushReached(ssaUses[id]);
      }
    }

    /** Join a table into a reached or unreached statement's entry. */
    method Flow(target: nat, changes: Changes<T>, ghost except: set<nat>) returns (grown: bool)
      requires Valid() && target < |code| == |stmtTypes| && !changes.Thrown? && |changes.state| == |entry|
      requires stmtTypes[target].Some? ==> |stmtTypes[target].value| == |entry|
      requires Settled(d, code, Facts(), except)
      modifies `stmtTypes
      ensures Valid() && Settled(d, code, Facts(), if grown then except + {target} else except)
      ensures Flows(d, Facts(), target, NewTable(changes))
      ensures Facts() == old(Facts()).(stmts := stmtTypes) && |stmtTypes| == |code|
      ensures stmtTypes == old(stmtTypes)[target := Joined(d, old(stmtTypes[target]), NewTable(changes))]
      ensures stmtTypes[target].Some? && |stmtTypes[target].value| == |entry|
      ensures old(stmtTypes[target]).Some? ==> forall i :: 0 <= i < |entry| ==>
                ExactJoin(d, old(stmtTypes[target]).value[i], Arriving(changes, i), stmtTypes[target].value[i])
      ensures Ascends(d, old(Facts()), Facts()) && (grown <==> Facts() != old(Facts()))
    {
      hide LeFacts, Good, Settled, WellFounded.Above, Worklist.Flows;
      FlowStep(d, code, entry, nssa, ssaUses, Facts(), ip, lowest, target, NewTable(changes), except);
      JoinedExact(d, stmtTypes[target], NewTable(changes));
      var newState := StUpdate(d, stmtTypes[target], changes);
      grown := newState.Some?;
      if grown {
        AboveDiffers(d, Facts(), Facts().(stmts := stmtTypes[target := newState]));
        stmtTypes := stmtTypes[target := newState];
      }
    }

    /** Pass a table to the target of a branch that may or may not be taken. */
    method FlowElse(l: nat, changes: Changes<T>, ghost pc: nat)
      requires Valid() && l < |code| == |stmtTypes| && !changes.Thrown? && |changes.state| == |entry|
      requires stmtTypes[l].Some? ==> |stmtTypes[l].value| == |entry|
      requires Settled(d, code, Facts(), ip + {pc}) && l != pc
      requires pc < |code| && stmtTypes[pc].Some? && Sends(d, code, Facts(), pc, l, NewTable(changes))
      modifies `stmtTypes, `ip, `lowest
      ensures Valid() && |stmtTypes| == |code| && Settled(d, code, Facts(), ip + {pc})
      ensures Facts() == old(Facts()).(stmts := stmtTypes) && stmtTypes == old(stmtTypes)[l := stmtTypes[l]]
      ensures Flows(d, Facts(), l, NewTable(changes))
      ensures Grown(d, code, old(Facts()), Facts())
      ensures Facts() == old(Facts()) ==> ip == old(ip) && lowest == old(lowest)
    {
      hide Program, GoodFacts, Settled, LeFacts, Worklist.Flows, WellFounded.Above, NewTable;
      var grown := Flow(l, changes, ip + {pc});
      FlowDerives(d, code, old(Facts()), pc, l, NewTable(changes), Facts());
      if grown {
        assert ip + {pc} + {l} == ip + {l} + {pc};
        assert stmtTypes[l].Some? by { FlowsReached(d, Facts(), l, NewTable(changes)); }
        Push(l);
      }
    }

    /** The conditional branch: a constant condition takes one way, any other feeds the target here. */
    method SideBranch(pc: nat, cond: Expr<V, F>, l: nat) returns (next: nat, changes: Changes<T>)
      requires Valid() && pc < |code| == |stmtTypes| && stmtTypes[pc].Some? && code[pc] == GotoIfNot(cond, l)
      requires Interpret(d, code[pc], stmtTypes[pc].value, ssaTypes) == Table(stmtTypes[pc].value)
      requires Settled(d, code, Facts(), ip + {pc})
      modifies `stmtTypes, `ip, `lowest
      ensures Valid() && |stmtTypes| == |code| && stmtTypes[pc] == old(stmtTypes[pc])
      ensures Facts() == old(Facts()).(stmts := stmtTypes) && Settled(d, code, Facts(), ip + {pc})
      ensures !changes.Thrown? && changes.state == stmtTypes[pc].value
      ensures SideDone(d, code, Facts(), pc, next, NewTable(changes))
      ensures Sends(d, code, Facts(), pc, next, NewTable(changes))
      ensures Grown(d, code, old(Facts()), Facts())
      ensures Facts() == old(Facts()) ==> ip == old(ip) && lowest == old(lowest)
      ensures next != pc
    {
      hide Good, Settled, LeFacts, Worklist.Flows, WellFounded.Above, SoundLattice, Worklist.IsUses, AbstractEval;
      WellShaped(d, code, entry, nssa, ssaUses, Facts(), ip, lowest, pc);
      var vtypes := stmtTypes[pc].value;
      var c := d.condition(AbstractEval(d, cond, vtypes, ssaTypes));
      next, changes := pc + 1, Table(vtypes);
      if c.ConstFalse? {
        next := l;
      } else if !c.ConstTrue? {
        FlowElse(l, ElseChanges(c, vtypes), pc);
        changes := ThenChanges(c, vtypes);
      }
    }

    /** An SSA assignment forwards its type straight to the statements that read it. */
    method SideSSA(pc: nat, changes: Changes<T>)
      requires Valid() && pc < |code| == |stmtTypes| && stmtTypes[pc].Some? && code[pc].SSAAssign?
      requires changes == Interpret(d, code[pc], stmtTypes[pc].value, ssaTypes) && !changes.Thrown?
      requires Settled(d, code, Facts(), ip + {pc})
      modifies `ssaTypes, `ip, `lowest
      ensures Valid() && Facts() == old(Facts()).(ssa := ssaTypes)
      ensures Settled(d, code, Facts(), ip + {pc})
      ensures pc in ip || SideDone(d, code, Facts(), pc, pc + 1, NewTable(changes))
      ensures Sends(d, code, Facts(), pc, pc + 1, NewTable(changes))
      ensures Grown(d, code, old(Facts()), Facts())
      ensures Facts() == old(Facts()) ==> ip == old(ip) && lowest == old(lowest)
    {
      hide Good, Settled, LeFacts, SideDone, WellFounded.Above, SoundLattice, Worklist.IsUses, AbstractEval, Reached;
      WellShaped(d, code, entry, nssa, ssaUses, Facts(), ip, lowest, pc);
      RecordSSAAssign(code[pc].id, changes.vtype.typ, {pc});
      DerivesOne(d, code, old(Facts()), pc, Facts());
      SSASideDone(d, code, ssaUses, old(Facts()), Facts(), pc);
    }

    /** Widen the result type. */
    method Widen(rt: T, ghost except: set<nat>)
      requires Valid() && |code| == |stmtTypes| && Settled(d, code, Facts(), except)
      modifies `bestguess
      ensures Valid() && Settled(d, code, Facts(), except)
      ensures Facts() == old(Facts()).(best := bestguess) && bestguess == Widened(d, old(bestguess), rt)
      ensures d.le(rt, bestguess) && Ascends(d, old(Facts()), Facts())
    {
      hide GoodFacts, Settled, LeFacts, WellFounded.Above;
      assert SoundLattice(d);
      GoodFactsBest(d, entry, |code|, nssa, Facts(), d.merge(bestguess, rt));
      if !d.le(rt, bestguess) {
        ResultStep(d, code, Facts(), d.merge(bestguess, rt), rt, except);
        bestguess := d.merge(bestguess, rt);
      }
    }

    /** Everything a statement does besides passing its table on: SSA types, the other branch, the result type. */
    method Side(pc: nat, changes: Changes<T>) returns (next: nat, changes': Changes<T>)
      requires Valid() && pc < |code| == |stmtTypes| && stmtTypes[pc].Some?
      requires changes == Interpret(d, code[pc], stmtTypes[pc].value, ssaTypes) && !changes.Thrown?
      requires Settled(d, code, Facts(), ip + {pc})
      modifies `stmtTypes, `ssaTypes, `bestguess, `ip, `lowest
      ensures Valid() && |stmtTypes| == |code| && stmtTypes[pc] == old(stmtTypes[pc])
      ensures Settled(d, code, Facts(), ip + {pc})
      ensures !changes'.Thrown? && changes'.state == changes.state
      ensures pc in ip || SideDone(d, code, Facts(), pc, next, NewTable(changes'))
      ensures next < |code| ==> Sends(d, code, Facts(), pc, next, NewTable(changes'))
      ensures Grown(d, code, old(Facts()), Facts())
      ensures Facts() == old(Facts()) ==> ip == old(ip) && lowest == old(lowest)
      ensures next != pc && (code[pc].Goto? ==> next == code[pc].target)
    {
      hide Good, Settled, LeFacts, Worklist.Flows, WellFounded.Above, SoundLattice, Worklist.IsUses, NewTable, SideDone,
           AbstractEval;
      WellShaped(d, code, entry, nssa, ssaUses, Facts(), ip, lowest, pc);
      var stmt, vtypes := code[pc], stmtTypes[pc].value;
      next, changes' := pc + 1, changes;
      if stmt.SSAAssign? {
        SideSSA(pc, changes);
      } else if stmt.Goto? {
        next := stmt.target;
      } else if stmt.GotoIfNot? {
        next, changes' := SideBranch(pc, stmt.cond, stmt.target);
      } else if stmt.Return? {
        next := |code|;
        Widen(AbstractEval(d, stmt.e, vtypes, ssaTypes), ip + {pc});
        DerivesOne(d, code, old(Facts()), pc, Facts());
      }
      if !stmt.SSAAssign? && !stmt.GotoIfNot? {
        PlainSideDone(d, code, Facts(), pc);
      }
    }

    /** Take `pc` off the pending list. */
    method Take(pc: nat)
      requires Valid() && pc < |code| == |stmtTypes|
      modifies `ip, `lowest
      ensures Valid() && ip == old(ip) - {pc}
      ensures if pc == old(lowest) then lowest > pc else lowest == old(lowest)
    {
      hide Program, GoodFacts;
      if pc == lowest {
        lowest := NextActive(pc);
      }
      ip := ip - {pc};
    }

    /** Pass the resulting table on to `next`; statement `pc` is then explained. */
    method Arrive(pc: nat, next: nat, changes: Changes<T>) returns (grown: bool)
      requires Valid() && pc < |code| == |stmtTypes| && stmtTypes[pc].Some? && next < |code| && next != pc
      requires !changes.Thrown? && changes.state == stmtTypes[pc].value
      requires Settled(d, code, Facts(), ip + {pc})
      requires pc in ip || SideDone(d, code, Facts(), pc, next, NewTable(changes))
      requires Sends(d, code, Facts(), pc, next, NewTable(changes))
      modifies `stmtTypes
      ensures Valid() && |stmtTypes| == |code| && stmtTypes[next].Some?
      ensures Settled(d, code, Facts(), if grown then ip + {next} else ip)
      ensures Grown(d, code, old(Facts()), Facts()) && (grown <==> Facts() != old(Facts()))
    {
      hide Good, Settled, Ascends, SoundLattice, Worklist.IsUses, SideDone, NewTable, Worklist.Flows;
      WellShaped(d, code, entry, nssa, ssaUses, Facts(), ip, lowest, pc);
      WellShaped(d, code, entry, nssa, ssaUses, Facts(), ip, lowest, next);
      grown := Flow(next, changes, ip + {pc});
      FlowDerives(d, code, old(Facts()), pc, next, NewTable(changes), Facts());
      Arrived(d, code, old(Facts()), Facts(), ip, pc, next, NewTable(changes), grown);
    }

    /** Decide where to continue after `pc`. */
    method Proceed(pc: nat, next: nat, changes: Changes<T>) returns (pc': nat, running: bool)
      requires Valid() && pc < |code| == |stmtTypes| && stmtTypes[pc].Some? && next != pc
      requires !changes.Thrown? && changes.state == stmtTypes[pc].value
      requires Settled(d, code, Facts(), ip + {pc})
      requires pc in ip || SideDone(d, code, Facts(), pc, next, NewTable(changes))
      requires next < |code| ==> Sends(d, code, Facts(), pc, next, NewTable(changes))
      modifies `stmtTypes, `ip, `lowest
      ensures Valid() && |stmtTypes| == |code|
      ensures if running then pc' < |code| && stmtTypes[pc'].Some? && Settled(d, code, Facts(), ip + {pc'})
              else Settled(d, code, Facts(), ip)
      ensures Grown(d, code, old(Facts()), Facts())
      ensures Facts() == old(Facts()) ==>
                && lowest == old(lowest)
                && if running && code[pc].Goto? && lowest < next
                   then pc' == lowest && ip == old(ip) + {next} && next < |code|
                   else ip == old(ip) && (running ==> pc' in ip && pc' == next)
    {
      hide Program, GoodFacts, Settled, Grown, Worklist.Flows, SideDone, NewTable, Satisfied;
      if next >= |code| {
        FlowsPastEnd(d, Facts(), next, NewTable(changes));
        Explain(pc, next, NewTable(changes), ip);
        GrownReflexive(d, code, Facts());
        return pc, false;
      }
      var grown := Arrive(pc, next, changes);
      if code[pc].Goto? && lowest < next {
        Push(next);
        SettledMonotone(d, code, Facts(), if grown then old(ip) + {next} else old(ip), ip + {lowest});
        return lowest, true;
      } else if grown {
        return next, true;
      } else if next in ip {
        assert ip + {next} == ip;
        return next, true;
      } else {
        return pc, false;
      }
    }

    /** Once the table has arrived at `next`, statement `pc` is explained. */
    lemma Explain(pc: nat, next: nat, table: VarTable<T>, except: set<nat>)
      requires pc < |code| == |stmtTypes| && stmtTypes[pc].Some?
      requires Settled(d, code, Facts(), except + {pc})
      requires pc in except || SideDone(d, code, Facts(), pc, next, table)
      requires Flows(d, Facts(), next, table)
      ensures Settled(d, code, Facts(), except)
    {
      if pc !in except {
        SideDoneSatisfied(d, code, Facts(), pc, next, table);
      }
      SettledPending(d, code, Facts(), except + {pc}, except, pc);
    }

    /**
      One turn of the inner loop at `pc`. Either some fact grew, so that the rank went down, or the
      pending list made progress: `lowest` moved on when `pc` was the lowest pending position, and
      otherwise a position was taken off the list for good or control moved back to the lowest one.
    */
    method Visit(pc: nat, ghost rank: ORDINAL) returns (pc': nat, running: bool, ghost rank': ORDINAL)
      requires Valid() && pc < |code| == |stmtTypes| && stmtTypes[pc].Some?
      requires Settled(d, code, Facts(), ip + {pc}) && Acc#[rank](LeFacts(d), Facts())
      modifies `stmtTypes, `ssaTypes, `bestguess, `ip, `lowest
      ensures Valid() && lowest <= |code| == |stmtTypes|
      ensures if running then pc' < |code| && stmtTypes[pc'].Some? && Settled(d, code, Facts(), ip + {pc'})
              else Settled(d, code, Facts(), ip)
      ensures Grown(d, code, old(Facts()), Facts()) && Acc#[rank'](LeFacts(d), Facts())
      ensures rank' <= rank
      ensures rank' == rank ==>
                && (if pc == old(lowest) then lowest > pc else lowest == old(lowest))
                && (running && pc != old(lowest) ==>
                      || |ip + {pc'}| < old(|ip + {pc}|)
                      || (|ip + {pc'}| <= old(|ip + {pc}|) && pc' == lowest))
    {
      hide Good, Settled, Grown, SideDone, NewTable, Interpret, SoundLattice, Worklist.IsUses, LeFacts, Worklist.Sends,
           Satisfied, WellFounded.Above;
      WellShaped(d, code, entry, nssa, ssaUses, Facts(), ip, lowest, pc);
      ghost var f, active, low := Facts(), ip, lowest;
      GrownReflexive(d, code, f);
      rank' := rank;
      Take(pc);
      SettledMonotone(d, code, f, active + {pc}, ip + {pc});
      var changes := Interpret(d, code[pc], stmtTypes[pc].value, ssaTypes);
      if changes.Thrown? {
        LowestPending(d, code, entry, nssa, ssaUses, Facts(), ip, lowest);
        ThrownSatisfied(d, code, f, pc);
        SettledPending(d, code, f, ip + {pc}, ip, pc);
        return pc, false, rank;
      }
      var next, changes' := Side(pc, changes);
      rank' := NextRank(d, code, rank, f, f, Facts());
      ghost var g := Facts();
      pc', running := Proceed(pc, next, changes');
      rank' := NextRank(d, code, rank', f, g, Facts());
      LowestPending(d, code, entry, nssa, ssaUses, Facts(), ip, lowest);
      if rank' == rank && running {
        if code[pc].Goto? && lowest < next {
          PushKeeps(active, pc, next);
          assert ip + {lowest} == ip;
        } else {
          VisitShrinks(active, pc, next);
        }
      }
    }

    /**
      The inner loop: run from the lowest pending position for as long as there is somewhere to go.
      By the time it stops, the facts have grown or the lowest pending position has moved on.
    */
    method RunFromLowest(ghost rank0: ORDINAL) returns (ghost rank: ORDINAL)
      requires Valid() && lowest < |code| == |stmtTypes| && Settled(d, code, Facts(), ip)
      requires Acc#[rank0](LeFacts(d), Facts())
      modifies `stmtTypes, `ssaTypes, `bestguess, `ip, `lowest
      ensures Valid() && lowest <= |code| == |stmtTypes| && Settled(d, code, Facts(), ip)
      ensures Acc#[rank](LeFacts(d), Facts()) && Grown(d, code, old(Facts()), Facts())
      ensures rank < rank0 || (rank == rank0 && lowest > old(lowest))
    {
      hide Good, Settled, Grown, LeFacts, SoundLattice, WellFounded.Above, WellFounded.Acc;
      LowestPending(d, code, entry, nssa, ssaUses, Facts(), ip, lowest);
      GrownReflexive(d, code, Facts());
      var pc: nat := lowest;
      assert ip + {pc} == ip;
      rank := rank0;
      while true
        invariant pc < |code| == |stmtTypes| && stmtTypes[pc].Some? && Valid() && lowest <= |code|
        invariant Settled(d, code, Facts(), ip + {pc})
        invariant Acc#[rank](LeFacts(d), Facts()) && Grown(d, code, old(Facts()), Facts())
        invariant rank < rank0 || (rank == rank0 && (lowest > old(lowest) || pc == lowest == old(lowest)))
        decreases rank, |code| - lowest, |ip + {pc}|, if pc == lowest then 0 else 1
      {
        ghost var f := Facts();
        var pc': nat, running;
        pc', running, rank := Visit(pc, rank);
        GrownTransitive(d, code, old(Facts()), f, Facts());
        if !running {
          return;
        }
        pc := pc';
      }
    }

    /** Work until nothing is pending; then every reached statement is explained by the recorded facts. */
    method TypeInfWork()
      requires Valid() && |stmtTypes| == |code| && Settled(d, code, Facts(), ip)
      modifies `stmtTypes, `ssaTypes, `bestguess, `ip, `lowest
      ensures Valid() && |stmtTypes| == |code|
      ensures ip == {} && lowest == |code|
      ensures Settled(d, code, Facts(), {})
      ensures Grown(d, code, old(Facts()), Facts())
    {
      hide Good, Settled, Grown, LeFacts, SoundLattice;
      LowestPending(d, code, entry, nssa, ssaUses, Facts(), ip, lowest);
      ghost var rank := InitialRank(d, Facts());
      GrownReflexive(d, code, Facts());
      while lowest < |code|
        invariant lowest <= |code| == |stmtTypes| && Valid() && Settled(d, code, Facts(), ip)
        invariant Acc#[rank](LeFacts(d), Facts()) && Grown(d, code, old(Facts()), Facts())
        decreases rank, |code| - lowest
      {
        ghost var f := Facts();
        rank := RunFromLowest(rank);
        GrownTransitive(d, code, old(Facts()), f, Facts());
      }
      LowestPending(d, code, entry, nssa, ssaUses, Facts(), ip, lowest);
    }
  }
}

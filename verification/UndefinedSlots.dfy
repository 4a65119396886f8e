/**
  What inference finds is not wider than the control flow allows: a statement is reached only along a path of the
  body, and a slot counts as possibly undefined only where a path leads that never assigns it.
*/
module UndefinedSlots {
  import opened Wrappers
  import opened InferenceDomain
  import opened TypeInference
  import opened Worklist
  import opened InferenceSoundness

  // ----- paths of a body -----

  /** Where control can go after a statement. */
  function Successors<V, F>(code: seq<Stmt<V, F>>, pc: nat): set<nat>
    requires pc < |code|
  {
    match code[pc]
    case Goto(l) => {l}
    case GotoIfNot(_, l) => {pc + 1, l}
    case Return(_) => {}
    case _ => {pc + 1}
  }

  ghost predicate IsPath<V, F>(code: seq<Stmt<V, F>>, path: seq<nat>) {
    && path != [] && path[0] == 0
    && forall i :: 0 <= i < |path| - 1 ==> path[i] < |code| && path[i + 1] in Successors(code, path[i])
  }

  /** No statement before the last one of the path assigns slot `s`. */
  ghost predicate NeverAssigns<V, F>(code: seq<Stmt<V, F>>, path: seq<nat>, s: nat)
    requires IsPath(code, path)
  {
    forall i :: 0 <= i < |path| - 1 ==> !(code[path[i]].Assign? && code[path[i]].slot == s)
  }

  ghost predicate CanReach<V, F>(code: seq<Stmt<V, F>>, pc: nat) {
    exists path :: IsPath(code, path) && path[|path| - 1] == pc
  }

  ghost predicate CanReachUnassigned<V, F>(code: seq<Stmt<V, F>>, pc: nat, s: nat) {
    exists path :: IsPath(code, path) && path[|path| - 1] == pc && NeverAssigns(code, path, s)
  }

  lemma PathGoesOn<V, F>(code: seq<Stmt<V, F>>, pc: nat, target: nat)
    requires pc < |code| && target in Successors(code, pc) && CanReach(code, pc)
    ensures CanReach(code, target)
  {
    var path :| IsPath(code, path) && path[|path| - 1] == pc;
    assert IsPath(code, path + [target]);
  }

  lemma UnassignedGoesOn<V, F>(code: seq<Stmt<V, F>>, pc: nat, target: nat, s: nat)
    requires pc < |code| && target in Successors(code, pc) && CanReachUnassigned(code, pc, s)
    requires !(code[pc].Assign? && code[pc].slot == s)
    ensures CanReachUnassigned(code, target, s)
  {
    var path :| IsPath(code, path) && path[|path| - 1] == pc && NeverAssigns(code, path, s);
    var longer := path + [target];
    assert IsPath(code, longer) && longer[|longer| - 1] == target;
    forall i | 0 <= i < |longer| - 1 ensures !(code[longer[i]].Assign? && code[longer[i]].slot == s) {
      assert longer[i] == path[i];
    }
  }

  // ----- facts follow paths -----

  /** A table that may stand at `pc`: slots are undefined only if they start so and some path leaves them alone. */
  ghost predicate TableFollows<T, V, F>(code: seq<Stmt<V, F>>, entry: VarTable<T>, pc: nat, table: VarTable<T>) {
    && CanReach(code, pc) && |table| == |entry|
    && forall s :: 0 <= s < |table| && table[s].undef ==> entry[s].undef && CanReachUnassigned(code, pc, s)
  }

  ghost predicate FactsFollow<T, V, F>(code: seq<Stmt<V, F>>, entry: VarTable<T>, f: Facts<T>) {
    && |f.stmts| == |code|
    && forall pc :: 0 <= pc < |code| && f.stmts[pc].Some? ==> TableFollows(code, entry, pc, f.stmts[pc].value)
  }

  /** A slot is undefined in the table passed on only if it was before and the statement does not assign it. */
  lemma SentUndefined<T(!new), V, F, W>(d: Domain<T, V, F, W>, code: seq<Stmt<V, F>>, f: Facts<T>, pc: nat,
      target: nat, table: VarTable<T>)
    requires pc < |code| == |f.stmts| && f.stmts[pc].Some? && Sends(d, code, f, pc, target, table)
    ensures target in Successors(code, pc) && |table| == |f.stmts[pc].value|
    ensures forall s :: 0 <= s < |table| && table[s].undef ==>
              f.stmts[pc].value[s].undef && !(code[pc].Assign? && code[pc].slot == s)
  {
  }

  lemma TableGoesOn<T(!new), V, F, W>(d: Domain<T, V, F, W>, code: seq<Stmt<V, F>>, entry: VarTable<T>, f: Facts<T>,
      pc: nat, target: nat, table: VarTable<T>)
    requires FactsFollow(code, entry, f) && pc < |code| && f.stmts[pc].Some?
    requires Sends(d, code, f, pc, target, table)
    ensures TableFollows(code, entry, target, table)
  {
    hide Sends, CanReach, CanReachUnassigned;
    SentUndefined(d, code, f, pc, target, table);
    assert TableFollows(code, entry, pc, f.stmts[pc].value);
    PathGoesOn(code, pc, target);
    forall s | 0 <= s < |table| && table[s].undef ensures entry[s].undef && CanReachUnassigned(code, target, s) {
      UnassignedGoesOn(code, pc, target, s);
    }
  }

  lemma JoinFollows<T(!new), V, F, W>(d: Domain<T, V, F, W>, code: seq<Stmt<V, F>>, entry: VarTable<T>,
      target: nat, state: Option<VarTable<T>>, table: VarTable<T>)
    requires TableFollows(code, entry, target, table)
    requires state.Some? ==> TableFollows(code, entry, target, state.value)
    ensures Joined(d, state, table).Some? && TableFollows(code, entry, target, Joined(d, state, table).value)
  {
    JoinedExact(d, state, table);
  }

  lemma AdvanceFollows<T(!new), V, F, W>(d: Domain<T, V, F, W>, code: seq<Stmt<V, F>>, entry: VarTable<T>, f: Facts<T>,
      pc: nat, g: Facts<T>)
    requires FactsFollow(code, entry, f) && pc < |code| && f.stmts[pc].Some? && Advances(d, code, f, pc, g)
    ensures FactsFollow(code, entry, g)
  {
    hide Sends, TableFollows, AbstractEval;
    if target: nat, table :| Sends(d, code, f, pc, target, table) && target < |code|
                             && (f.stmts[target].Some? ==> |f.stmts[target].value| == |table|)
                             && g == f.(stmts := f.stmts[target := Joined(d, f.stmts[target], table)])
    {
      TableGoesOn(d, code, entry, f, pc, target, table);
      JoinFollows(d, code, entry, target, f.stmts[target], table);
    }
  }

  /**
    Whatever inference derives from the argument types: a reached statement lies on a path of the body, and a slot
    that may be undefined there starts undefined and is assigned nowhere on some path to the statement.
  */
  lemma UndefinedOnlyOnPaths<T(!new), V, F, W>(d: Domain<T, V, F, W>, code: seq<Stmt<V, F>>, entry: VarTable<T>,
      nssa: nat, f: Facts<T>, pc: nat)
    requires Derives(d, code, InitialFacts(d, |code|, entry, nssa), f)
    requires pc < |code| == |f.stmts| && f.stmts[pc].Some?
    ensures CanReach(code, pc) && |f.stmts[pc].value| == |entry|
    ensures forall s :: 0 <= s < |entry| && f.stmts[pc].value[s].undef ==>
              entry[s].undef && CanReachUnassigned(code, pc, s)
  {
    var all := iset g: Facts<T> | FactsFollow(code, entry, g);
    var start := InitialFacts(d, |code|, entry, nssa);
    StartFollows(code, entry);
    assert start in all;
    forall g, r, h | g in all && 0 <= r < |code| == |g.stmts| && g.stmts[r].Some? && Advances(d, code, g, r, h)
      ensures h in all
    {
      AdvanceFollows(d, code, entry, g, r, h);
    }
    assert Inductive(d, code, all);
    assert f in all;
  }

  lemma StartFollows<T(!new), V, F>(code: seq<Stmt<V, F>>, entry: VarTable<T>)
    ensures TableFollows(code, entry, 0, entry)
  {
    assert IsPath(code, [0]);
    forall s | 0 <= s < |entry| ensures CanReachUnassigned(code, 0, s) {
      assert NeverAssigns(code, [0], s);
    }
  }

  // ----- statements that cannot complete -----

  /** The expression a statement evaluates before it passes control on, if it assigns a variable or branches. */
  function Evaluated<V, F>(stmt: Stmt<V, F>): Option<Expr<V, F>> {
    match stmt
    case Assign(_, e) => Some(e)
    case GotoIfNot(e, _) => Some(e)
    case _ => None
  }

  /** A statement that calls something with an argument that has no value passes nothing on. */
  lemma NothingAfterBottom<T(!new), V, F, W>(d: Domain<T, V, F, W>, code: seq<Stmt<V, F>>, f: Facts<T>, pc: nat,
      target: nat, table: VarTable<T>, i: nat)
    requires pc < |code| == |f.stmts| && f.stmts[pc].Some? && Evaluated(code[pc]).Some?
    requires var e := Evaluated(code[pc]).value;
             e.Call? && i < |e.args| && AbstractEval(d, e.args[i], f.stmts[pc].value, f.ssa) == d.bottom
    ensures !Sends(d, code, f, pc, target, table)
  {
    ArgumentType(d, Evaluated(code[pc]).value.args, i, f.stmts[pc].value, f.ssa);
  }

  lemma {:induction false} ArgumentType<T, V, F, W>(d: Domain<T, V, F, W>, args: seq<Expr<V, F>>, i: nat,
      vtypes: VarTable<T>, ssa: SSATable<T>)
    requires i < |args|
    ensures AbstractEvalArgs(d, args, vtypes, ssa)[i] == AbstractEval(d, args[i], vtypes, ssa)
    decreases i
  {
    if i > 0 { ArgumentType(d, args[1..], i - 1, vtypes, ssa); }
  }

  // ----- branches on constants -----

  /** Only the branch at `pc` leads to statement `l`. */
  ghost predicate OnlyFrom<V, F>(code: seq<Stmt<V, F>>, pc: nat, l: nat) {
    pc + 1 != l && forall r :: 0 <= r < |code| && l in Successors(code, r) ==> r == pc
  }

  /** The target of a branch on a literal that is true is never reached, if nothing else leads to it. */
  lemma TrueBranchNotTaken<T(!new), V, F, W>(d: Domain<T, V, F, W>, code: seq<Stmt<V, F>>, entry: VarTable<T>,
      nssa: nat, f: Facts<T>, pc: nat, l: nat)
    requires Derives(d, code, InitialFacts(d, |code|, entry, nssa), f) && |f.stmts| == |code|
    requires pc < |code| && 0 < l < |code| && OnlyFrom(code, pc, l) && code[pc].GotoIfNot? && code[pc].cond.Lit?
    requires d.condition(d.literal(code[pc].cond.value)).ConstTrue?
    ensures f.stmts[l].None?
  {
    hide Joined;
    var all := iset g: Facts<T> | |g.stmts| == |code| && g.stmts[l].None?;
    assert InitialFacts(d, |code|, entry, nssa) in all;
    forall g, r, h | g in all && 0 <= r < |code| == |g.stmts| && g.stmts[r].Some? && Advances(d, code, g, r, h)
      ensures h in all
    {
      NotSent(d, code, g, r, pc, l);
    }
    assert Inductive(d, code, all);
    assert f in all;
  }

  lemma NotSent<T(!new), V, F, W>(d: Domain<T, V, F, W>, code: seq<Stmt<V, F>>, g: Facts<T>, r: nat, pc: nat, l: nat)
    requires r < |code| == |g.stmts| && g.stmts[r].Some?
    requires pc < |code| && OnlyFrom(code, pc, l) && code[pc].GotoIfNot? && code[pc].cond.Lit?
    requires d.condition(d.literal(code[pc].cond.value)).ConstTrue?
    ensures forall table :: !Sends(d, code, g, r, l, table)
  {
    if table :| Sends(d, code, g, r, l, table) {
      SentUndefined(d, code, g, r, l, table);
      assert r == pc;
    }
  }
}

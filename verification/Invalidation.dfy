/** Cutting short the validity of compiled methods: a walk over the callers, which may call each other in cycles. */
module Invalidation {

  class Instance {
    const isMethod: bool
    const minWorld: nat
    var maxWorld: nat
    var backedges: seq<Instance>

    constructor (isMethod: bool, minWorld: nat, maxWorld: nat)
      ensures this.isMethod == isMethod && this.minWorld == minWorld && this.maxWorld == maxWorld && backedges == []
    {
      this.isMethod, this.minWorld, this.maxWorld, backedges := isMethod, minWorld, maxWorld, [];
    }
  }

  // ----- the instances as values -----

  datatype Entry = Entry(maxWorld: nat, callers: seq<Instance>)

  ghost function View(all: set<Instance>): (m: map<Instance, Entry>)
    reads all
    ensures m.Keys == all
  {
    map x | x in all :: Entry(x.maxWorld, x.backedges)
  }

  ghost predicate Known(m: map<Instance, Entry>) {
    forall x :: x in m ==> forall i :: 0 <= i < |m[x].callers| ==> m[x].callers[i] in m
  }

  /** A callee is valid whenever one of its recorded callers is. */
  ghost predicate Contained(m: map<Instance, Entry>) {
    && Known(m)
    && forall x, y :: x in m && y in m[x].callers ==>
         x.minWorld <= y.minWorld && y in m && m[x].maxWorld >= m[y].maxWorld
  }

  /** A method that is still valid after world `w`. */
  ghost predicate Above(m: map<Instance, Entry>, w: nat, x: Instance)
    requires x in m
  {
    x.isMethod && m[x].maxWorld > w
  }

  /** `s` holds the callers above `w` of each of its members. */
  ghost predicate Closed(m: map<Instance, Entry>, w: nat, s: set<Instance>)
    requires Known(m) && s <= m.Keys
  {
    forall x, y :: x in s && y in m[x].callers && Above(m, w, y) ==> y in s
  }

  /** `s` is closed and holds `root` if that is above `w`. */
  ghost predicate Covers(m: map<Instance, Entry>, w: nat, root: Instance, s: set<Instance>)
    requires Known(m) && root in m
  {
    s <= m.Keys && Closed(m, w, s) && (Above(m, w, root) ==> root in s)
  }

  /** The methods the walk comes to: the root, and the callers of every lowered one. */
  ghost function Visited(m: map<Instance, Entry>, root: Instance, low: set<Instance>): set<Instance>
    requires Known(m) && root in m && low <= m.Keys
  {
    set x | x in m && x.isMethod && (x == root || exists y :: y in low && x in m[y].callers)
  }

  /** The instances in `low` are valid up to `w` only, and those in `cleared` have no recorded callers any more. */
  ghost function After(m: map<Instance, Entry>, w: nat, low: set<Instance>, cleared: set<Instance>)
      : map<Instance, Entry>
  {
    map x | x in m :: Entry(if x in low then w else m[x].maxWorld, if x in cleared then [] else m[x].callers)
  }

  lemma AfterTwice(m: map<Instance, Entry>, w: nat, a: set<Instance>, b: set<Instance>, c: set<Instance>,
      d: set<Instance>)
    ensures After(After(m, w, a, c), w, b, d) == After(m, w, a + b, c + d)
  {
  }

  // ----- the walk so far -----

  /**
    The walk from `root` is at place `i` of the root's callers: `low` has been lowered, and is closed but for the
    root's callers still to come; every covering set contains it.
  */
  ghost predicate SoFar(m: map<Instance, Entry>, w: nat, root: Instance, i: nat, low: set<Instance>,
      cleared: set<Instance>)
    requires Known(m) && root in m && i <= |m[root].callers|
  {
    && low <= m.Keys && cleared <= m.Keys && root in low && (forall x :: x in low ==> Above(m, w, x))
    && low <= cleared + {root}
    && (forall x, y :: x in low && y in m[x].callers && (x == root ==> y in m[x].callers[..i]) && Above(m, w, y) ==>
          y in low)
    && (forall x :: x in m ==> (x in cleared <==> x.isMethod && CalledSoFar(m, root, i, low, x)))
  }

  /** `x` is one of the root's first `i` callers, or a caller of another lowered instance. */
  ghost predicate CalledSoFar(m: map<Instance, Entry>, root: Instance, i: nat, low: set<Instance>, x: Instance)
    requires root in m && i <= |m[root].callers| && low <= m.Keys
  {
    x in m[root].callers[..i] || exists y :: y in low && y != root && x in m[y].callers
  }

  lemma Untouched(m: map<Instance, Entry>, w: nat, root: Instance, i: nat, low: set<Instance>, cleared: set<Instance>,
      x: Instance)
    requires Known(m) && root in m && i <= |m[root].callers| && SoFar(m, w, root, i, low, cleared)
    requires x in m && Above(After(m, w, low, cleared), w, x)
    ensures Above(m, w, x) && x !in low && x !in cleared && After(m, w, low, cleared)[x] == m[x]
  {
  }

  lemma AfterKnown(m: map<Instance, Entry>, w: nat, low: set<Instance>, cleared: set<Instance>)
    requires Known(m)
    ensures Known(After(m, w, low, cleared))
  {
  }

  lemma ClearedMore(m: map<Instance, Entry>, w: nat, root: Instance, i: nat, low: set<Instance>, cleared: set<Instance>,
                    low': set<Instance>, x: Instance)
    requires Known(m) && root in m && i < |m[root].callers| && SoFar(m, w, root, i, low, cleared)
    requires Known(After(m, w, low, cleared)) && m[root].callers[i] in m && low' <= m.Keys
    requires forall y :: y in low' ==> y !in low && After(m, w, low, cleared)[y] == m[y]
    requires x in m && m[root].callers[..i + 1] == m[root].callers[..i] + [m[root].callers[i]]
    ensures x in cleared || x in Visited(After(m, w, low, cleared), m[root].callers[i], low') <==>
            x.isMethod && CalledSoFar(m, root, i + 1, low + low', x)
  {
    var now, b := After(m, w, low, cleared), m[root].callers[i];
    var v := Visited(now, b, low');
    assert x in cleared <==> x.isMethod && CalledSoFar(m, root, i, low, x);
    hide After;
    if x in v && x != b {
      var y :| y in low' && x in now[y].callers;
      assert y in low + low' && y != root;
    }
    if y :| y in low + low' && y != root && x in m[y].callers && y in low' {
      assert x in now[y].callers;
    }
  }

  lemma VisitedKnown(m: map<Instance, Entry>, root: Instance, low: set<Instance>)
    requires Known(m) && root in m && low <= m.Keys
    ensures Visited(m, root, low) <= m.Keys
  {
  }

  /** The next caller's own walk extends the walk so far. */
  lemma OneMoreCaller(m: map<Instance, Entry>, w: nat, root: Instance, i: nat, low: set<Instance>,
      cleared: set<Instance>, low': set<Instance>)
    requires Known(m) && root in m && i < |m[root].callers| && SoFar(m, w, root, i, low, cleared)
    requires Known(After(m, w, low, cleared)) && m[root].callers[i] in m
    requires var now := After(m, w, low, cleared);
             Covers(now, w, m[root].callers[i], low') && (forall x :: x in low' ==> Above(now, w, x))
             && low' <= Visited(now, m[root].callers[i], low')
    ensures low' <= m.Keys
    ensures SoFar(m, w, root, i + 1, low + low', cleared + Visited(After(m, w, low, cleared), m[root].callers[i], low'))
  {
    hide CalledSoFar, Visited;
    var now, b := After(m, w, low, cleared), m[root].callers[i];
    assert m[root].callers[..i + 1] == m[root].callers[..i] + [b];
    forall x | x in low' ensures Above(m, w, x) && x !in low && now[x] == m[x] {
      Untouched(m, w, root, i, low, cleared, x);
    }
    forall x | x in m && Above(m, w, x) && x !in low ensures Above(now, w, x) {}
    assert now.Keys == m.Keys;
    VisitedKnown(now, b, low');
    hide After;
    forall x | x in m
      ensures x in cleared || x in Visited(now, b, low') <==> x.isMethod && CalledSoFar(m, root, i + 1, low + low', x)
    {
      ClearedMore(m, w, root, i, low, cleared, low', x);
    }
  }

  lemma FirstLowered(m: map<Instance, Entry>, w: nat, root: Instance)
    requires Known(m) && root in m && Above(m, w, root)
    ensures SoFar(m, w, root, 0, {root}, {})
  {
  }

  /** A set that covers the walk from the root covers the walk from the next caller. */
  lemma CoversCaller(m: map<Instance, Entry>, w: nat, root: Instance, i: nat, low: set<Instance>,
      cleared: set<Instance>, s: set<Instance>)
    requires Known(m) && root in m && i < |m[root].callers| && SoFar(m, w, root, i, low, cleared)
    requires Covers(m, w, root, s)
    requires Known(After(m, w, low, cleared)) && m[root].callers[i] in m
    ensures Covers(After(m, w, low, cleared), w, m[root].callers[i], s)
  {
    var now, b := After(m, w, low, cleared), m[root].callers[i];
    assert b in m[root].callers;
    forall x, y | x in s && y in now[x].callers && Above(now, w, y) ensures y in s {
      assert y in m[x].callers && Above(m, w, y);
    }
  }

  // ----- the walk -----

  ghost function Live(m: map<Instance, Entry>, w: nat): set<Instance> {
    set x | x in m && m[x].maxWorld > w
  }

  lemma FewerLive(m: map<Instance, Entry>, w: nat, low: set<Instance>, cleared: set<Instance>, root: Instance)
    requires root in m && root in low && m[root].maxWorld > w
    ensures |Live(After(m, w, low, cleared), w)| < |Live(m, w)|
  {
    var fewer, live := Live(After(m, w, low, cleared), w), Live(m, w);
    assert fewer <= live - {root};
    Subset(fewer, live - {root});
  }

  lemma {:induction false} Subset(a: set<Instance>, b: set<Instance>)
    requires a <= b
    ensures |a| <= |b|
  {
    if a != {} {
      var x :| x in a;
      Subset(a - {x}, b - {x});
    }
  }

  /** What the walk asserts of an instance before it cuts it short: the new range is not upside down. */
  ghost predicate Allowed(m: map<Instance, Entry>, w: nat) {
    forall x :: x in m && Above(m, w, x) ==> 0 < x.minWorld && x.minWorld - 1 <= w
  }

  lemma AllowedAfter(m: map<Instance, Entry>, w: nat, low: set<Instance>, cleared: set<Instance>)
    requires Allowed(m, w)
    ensures Allowed(After(m, w, low, cleared), w)
  {
  }

  /** The smallest covering set has been lowered, and the visited methods have no recorded callers any more. */
  ghost predicate Walked(m: map<Instance, Entry>, w: nat, root: Instance, low: set<Instance>, now: map<Instance, Entry>)
    requires Known(m) && root in m
  {
    && Covers(m, w, root, low) && (forall x :: x in low ==> Above(m, w, x)) && low <= Visited(m, root, low)
    && now == After(m, w, low, Visited(m, root, low))
  }

  /**
    Cut `replaced` and its callers short at world `w`. `low` is the smallest set with `replaced` and the callers
    of its members, as far as they are methods still valid after `w`.
  */
  method Invalidate(replaced: Instance, w: nat, ghost all: set<Instance>) returns (ghost low: set<Instance>)
    requires replaced in all && Known(View(all))
    requires Allowed(View(all), w)
    modifies all`maxWorld, all`backedges
    ensures Walked(old(View(all)), w, replaced, low, View(all))
    ensures forall s :: Covers(old(View(all)), w, replaced, s) ==> low <= s
    ensures forall x :: x in all ==> x.maxWorld == if x in low then w else old(x.maxWorld)
    ensures forall x :: x in all ==>
              x.backedges ==
              if x.isMethod && (x == replaced || exists y :: y in low && x in old(y.backedges)) then []
              else old(x.backedges)
    decreases |Live(View(all), w)|, 0
  {
    hide SoFar, Covers, Visited, CalledSoFar, Known, Live, Walked, View, After;
    ghost var m := View(all);
    ViewAtAll(all);
    assert forall x :: x in all ==> m[x] == Entry(old(x.maxWorld), old(x.backedges));
    low := {};
    if !replaced.isMethod {
      NotAbove(m, w, replaced);
      WalkedExplicit(m, w, replaced, low, View(all));
      return;
    }
    if replaced.maxWorld > w {
      assert replaced.minWorld - 1 <= w;
      CutShort(replaced, w, all);
      FirstLowered(m, w, replaced);
      FewerLive(m, w, {replaced}, {}, replaced);
      AllowedAfter(m, w, {replaced}, {});
      ghost var cleared;
      low, cleared := InvalidateCallers(replaced, w, m, all);
      label walked:
      ForgetCallers(replaced, w, all);
      AfterTwice(m, w, low, {}, cleared, {replaced});
      assert low + {} == low;
      WalkDone(m, w, replaced, low, cleared, View(all));
      forall s | Covers(m, w, replaced, s) ensures low <= s {
        CoversKnown(m, w, replaced, s);
        assert old@walked(allocated(s));
      }
    } else {
      NotAbove(m, w, replaced);
      ForgetCallers(replaced, w, all);
    }
    ViewAtAll(all);
    WalkedExplicit(m, w, replaced, low, View(all));
  }

  lemma WalkedExplicit(m: map<Instance, Entry>, w: nat, root: Instance, low: set<Instance>, now: map<Instance, Entry>)
    requires Known(m) && root in m && Walked(m, w, root, low, now)
    ensures low <= m.Keys == now.Keys
    ensures forall x :: x in m ==> now[x].maxWorld == if x in low then w else m[x].maxWorld
    ensures forall x :: x in m ==>
              now[x].callers ==
              if x.isMethod && (x == root || exists y :: y in low && x in m[y].callers) then [] else m[x].callers
  {
  }

  lemma ViewAtAll(all: set<Instance>)
    ensures forall x :: x in all ==> View(all)[x] == Entry(x.maxWorld, x.backedges)
  {
  }

  lemma CoversKnown(m: map<Instance, Entry>, w: nat, root: Instance, s: set<Instance>)
    requires Known(m) && root in m && Covers(m, w, root, s)
    ensures s <= m.Keys
  {
  }

  method CutShort(replaced: Instance, w: nat, ghost all: set<Instance>)
    requires replaced in all
    modifies replaced`maxWorld
    ensures View(all) == After(old(View(all)), w, {replaced}, {})
  {
    replaced.maxWorld := w;
  }

  method ForgetCallers(replaced: Instance, ghost w: nat, ghost all: set<Instance>)
    requires replaced in all
    modifies replaced`backedges
    ensures View(all) == After(old(View(all)), w, {}, {replaced})
  {
    replaced.backedges := [];
  }

  /** Walk the callers recorded when the walk came to `replaced`. */
  method InvalidateCallers(replaced: Instance, w: nat, ghost m: map<Instance, Entry>, ghost all: set<Instance>)
      returns (ghost low: set<Instance>, ghost cleared: set<Instance>)
    requires m.Keys == all && Known(m) && replaced in m && Above(m, w, replaced)
    requires View(all) == After(m, w, {replaced}, {})
    requires Allowed(View(all), w)
    modifies all`maxWorld, all`backedges
    ensures SoFar(m, w, replaced, |m[replaced].callers|, low, cleared) && View(all) == After(m, w, low, cleared)
    ensures low != {} && forall s :: Covers(m, w, replaced, s) ==> low <= s
    decreases |Live(View(all), w)|, 1
  {
    hide SoFar, Covers, Visited, CalledSoFar, Known, Live, Walked, View, After;
    low, cleared := {replaced}, {};
    FirstLowered(m, w, replaced);
    forall s | Covers(m, w, replaced, s) ensures low <= s { RootCovered(m, w, replaced, s); }
    AfterAt(m, w, {replaced}, {}, replaced);
    ViewAt(all, replaced);
    var callers := replaced.backedges;
    ghost var live := |Live(View(all), w)|;
    for i := 0 to |callers|
      invariant SoFar(m, w, replaced, i, low, cleared) && View(all) == After(m, w, low, cleared)
      invariant forall s :: Covers(m, w, replaced, s) ==> low <= s
      invariant |Live(View(all), w)| <= live
      invariant Allowed(View(all), w)
    {
      OneCaller(m, w, replaced, i, low, cleared);
      ghost var more := Invalidate(callers[i], w, all);
      ghost var now := After(m, w, low, cleared);
      WalkedMeans(now, w, callers[i], more, View(all));
      OneMoreCaller(m, w, replaced, i, low, cleared, more);
      forall s | Covers(m, w, replaced, s) ensures low + more <= s {
        CoversCaller(m, w, replaced, i, low, cleared, s);
      }
      ghost var visited := Visited(now, callers[i], more);
      AfterTwice(m, w, low, more, cleared, visited);
      NoMoreLive(now, w, more, visited);
      AllowedAfter(now, w, more, visited);
      low, cleared := low + more, cleared + visited;
    }
    RootStaysLow(m, w, replaced, |callers|, low, cleared);
  }

  lemma ViewAt(all: set<Instance>, x: Instance)
    requires x in all
    ensures x in View(all) && View(all)[x] == Entry(x.maxWorld, x.backedges)
  {
  }

  lemma AfterAt(m: map<Instance, Entry>, w: nat, low: set<Instance>, cleared: set<Instance>, x: Instance)
    requires x in m
    ensures x in After(m, w, low, cleared)
    ensures After(m, w, low, cleared)[x] ==
            Entry(if x in low then w else m[x].maxWorld, if x in cleared then [] else m[x].callers)
  {
  }

  lemma NoMoreLive(m: map<Instance, Entry>, w: nat, low: set<Instance>, cleared: set<Instance>)
    ensures |Live(After(m, w, low, cleared), w)| <= |Live(m, w)|
  {
    Subset(Live(After(m, w, low, cleared), w), Live(m, w));
  }

  lemma WalkedMeans(m: map<Instance, Entry>, w: nat, root: Instance, low: set<Instance>, now: map<Instance, Entry>)
    requires Known(m) && root in m && Walked(m, w, root, low, now)
    ensures Covers(m, w, root, low) && (forall x :: x in low ==> Above(m, w, x))
    ensures low <= m.Keys && low <= Visited(m, root, low) && now == After(m, w, low, Visited(m, root, low))
  {
  }

  /** When all callers have been walked, only the root's own list is left to clear. */
  lemma WalkDone(m: map<Instance, Entry>, w: nat, root: Instance, low: set<Instance>, cleared: set<Instance>,
      now: map<Instance, Entry>)
    requires Known(m) && root in m && SoFar(m, w, root, |m[root].callers|, low, cleared)
    requires now == After(m, w, low, cleared + {root})
    ensures Walked(m, w, root, low, now)
  {
    var callers := m[root].callers;
    assert callers[..|callers|] == callers;
    forall x | x in m ensures x in cleared + {root} <==> x in Visited(m, root, low) {
      assert x in cleared <==> x.isMethod && CalledSoFar(m, root, |callers|, low, x);
    }
  }

  lemma NotAbove(m: map<Instance, Entry>, w: nat, root: Instance)
    requires Known(m) && root in m && !Above(m, w, root)
    ensures Walked(m, w, root, {}, After(m, w, {}, if root.isMethod then {root} else {}))
    ensures After(m, w, {}, {}) == m
  {
  }

  lemma RootCovered(m: map<Instance, Entry>, w: nat, root: Instance, s: set<Instance>)
    requires Known(m) && root in m && Above(m, w, root) && Covers(m, w, root, s)
    ensures root in s
  {
  }

  lemma OneCaller(m: map<Instance, Entry>, w: nat, root: Instance, i: nat, low: set<Instance>, cleared: set<Instance>)
    requires Known(m) && root in m && i < |m[root].callers|
    ensures m[root].callers[i] in m && Known(After(m, w, low, cleared))
  {
    AfterKnown(m, w, low, cleared);
  }

  lemma RootStaysLow(m: map<Instance, Entry>, w: nat, root: Instance, i: nat, low: set<Instance>,
      cleared: set<Instance>)
    requires Known(m) && root in m && i <= |m[root].callers| && SoFar(m, w, root, i, low, cleared)
    ensures root in low
  {
  }

  // ----- what the walk achieves -----

  /** Callees still contain their recorded callers. */
  lemma WalkKeepsContained(m: map<Instance, Entry>, w: nat, root: Instance, low: set<Instance>,
      now: map<Instance, Entry>)
    requires Contained(m) && root in m && Walked(m, w, root, low, now)
    ensures Contained(now)
  {
    hide Covers, Visited;
    forall x, y | x in now && y in now[x].callers
      ensures x.minWorld <= y.minWorld && y in now && now[x].maxWorld >= now[y].maxWorld
    {
      assert y in m[x].callers;
    }
  }

  /** No caller of a caller of ... the root stays valid after `w`, however the calls are tangled. */
  lemma {:induction false} CallersCutShort(m: map<Instance, Entry>, w: nat, root: Instance, low: set<Instance>,
                                           now: map<Instance, Entry>, path: seq<Instance>, i: nat)
    requires Contained(m) && root in m && Walked(m, w, root, low, now)
    requires path != [] && path[0] == root && (forall j :: 0 <= j < |path| ==> path[j].isMethod && path[j] in m)
    requires forall j :: 0 < j < |path| ==> path[j] in m[path[j - 1]].callers
    requires i < |path|
    ensures m[path[i]].maxWorld > w ==> path[i] in low
    ensures path[i] in now && now[path[i]].maxWorld <= w
  {
    hide Contained, Walked;
    if i > 0 {
      CallersCutShort(m, w, root, low, now, path, i - 1);
      OneUp(m, w, root, low, now, path[i - 1], path[i]);
    } else {
      RootCut(m, w, root, low, now);
    }
  }

  lemma RootCut(m: map<Instance, Entry>, w: nat, root: Instance, low: set<Instance>, now: map<Instance, Entry>)
    requires Contained(m) && root in m && root.isMethod && Walked(m, w, root, low, now)
    ensures m[root].maxWorld > w ==> root in low
    ensures root in now && now[root].maxWorld <= w
  {
  }

  lemma OneUp(m: map<Instance, Entry>, w: nat, root: Instance, low: set<Instance>, now: map<Instance, Entry>,
      x: Instance, y: Instance)
    requires Contained(m) && root in m && Walked(m, w, root, low, now) && x in m && y in m[x].callers && y.isMethod
    requires m[x].maxWorld > w ==> x in low
    ensures y in m && (m[y].maxWorld > w ==> y in low)
    ensures y in now && now[y].maxWorld <= w
  {
    hide Visited;
  }

  /** Record that `caller` uses `callee`; the ranges must already be nested. */
  method AddBackedge(callee: Instance, caller: Instance, ghost all: set<Instance>)
    requires callee in all && caller in all && Contained(View(all))
    requires callee.minWorld <= caller.minWorld && callee.maxWorld >= caller.maxWorld
    modifies callee`backedges
    ensures Contained(View(all))
    ensures View(all) == old(View(all))[callee := Entry(callee.maxWorld, callee.backedges)]
    ensures callee.backedges ==
            if caller in old(callee.backedges) then old(callee.backedges) else old(callee.backedges) + [caller]
  {
    ghost var m := View(all);
    var i, n := 0, |callee.backedges|;
    while i < n
      invariant i <= n && forall j :: 0 <= j < i ==> callee.backedges[j] != caller
    {
      if callee.backedges[i] == caller { break; }
      i := i + 1;
    }
    if i == n {
      callee.backedges := callee.backedges + [caller];
    }
    assert View(all) == m[callee := Entry(callee.maxWorld, callee.backedges)];
  }
}

/** Frames of mutually recursive calls: each recursive cycle shares one list of its frames and one parent. */
module CallCycles {

  /** A list of frames that several frames may share. */
  class CallerList {
    var frames: seq<Frame>

    constructor ()
      ensures frames == []
    {
      frames := [];
    }
  }

  /** `age` is the order of creation; no step looks at it. */
  class Frame {
    const linfo: nat
    const age: nat
    var pc: nat
    var parent: Frame?
    var callers: CallerList
    var backedges: seq<(Frame, nat)>

    constructor (linfo: nat, age: nat, pc: nat, parent: Frame?)
      ensures this.linfo == linfo && this.age == age && this.pc == pc && this.parent == parent
      ensures fresh(callers) && callers.frames == [] && backedges == []
    {
      this.linfo, this.age, this.pc, this.parent, backedges := linfo, age, pc, parent, [];
      callers := new CallerList();
    }
  }

  // ----- the frames as values -----

  /** A frame's parent, its list, and what is in that list. */
  datatype Info = Info(parent: Frame?, callers: CallerList, frames: seq<Frame>)

  ghost function View(all: set<Frame>): (m: map<Frame, Info>)
    reads all`parent, all`callers, (set f | f in all :: f.callers)`frames
    ensures m.Keys == all
  {
    map f | f in all :: Info(f.parent, f.callers, f.callers.frames)
  }

  ghost predicate NoRepeats(s: seq<Frame>) {
    forall i, j :: 0 <= i < j < |s| ==> s[i] != s[j]
  }

  /** The frames of `f`'s cycle, or `f` alone. */
  ghost function Cycle(m: map<Frame, Info>, f: Frame): set<Frame>
    requires f in m
  {
    {f} + set g | g in m[f].frames
  }

  /** Going to the parent always leads to an older frame. */
  ghost predicate ParentsOk(m: map<Frame, Info>) {
    forall f :: f in m && m[f].parent != null ==> m[f].parent in m && m[f].parent.age < f.age
  }

  /** A frame's list has no repetitions, and names the frame unless it is empty. */
  ghost predicate OwnLists(m: map<Frame, Info>) {
    forall f :: f in m ==> NoRepeats(m[f].frames) && (m[f].frames == [] || f in m[f].frames)
  }

  /** A list names only frames that have it, all with the same parent. */
  ghost predicate ListsName(m: map<Frame, Info>) {
    forall f, g :: f in m && g in m[f].frames ==> g in m && m[g].callers == m[f].callers && m[g].parent == m[f].parent
  }

  /** Frames that share a list are in it. */
  ghost predicate ListsShared(m: map<Frame, Info>) {
    forall f, g :: f in m && g in m && m[f].callers == m[g].callers ==>
      m[f].frames == m[g].frames && (f == g || f in m[f].frames)
  }

  ghost predicate ListsOk(m: map<Frame, Info>) {
    OwnLists(m) && ListsName(m) && ListsShared(m)
  }

  ghost predicate Partitioned(m: map<Frame, Info>) {
    ParentsOk(m) && ListsOk(m)
  }

  /** Having the same list, being in the same cycle, and having the same cycle are one. */
  lemma SameList(m: map<Frame, Info>, f: Frame, g: Frame)
    requires Partitioned(m) && f in m && g in m
    ensures m[f].callers == m[g].callers <==> g in Cycle(m, f)
    ensures g in Cycle(m, f) <==> f in Cycle(m, g)
    ensures g in Cycle(m, f) ==> Cycle(m, g) == Cycle(m, f) && m[g].parent == m[f].parent
    ensures Cycle(m, f) <= m.Keys
  {
  }

  /** The frames of `merged` get `a`'s parent and list, whose contents are then `list`. */
  ghost function Merged(m: map<Frame, Info>, a: Frame, merged: set<Frame>, list: seq<Frame>): map<Frame, Info>
    requires a in m
  {
    map f | f in m :: if f in merged then Info(m[a].parent, m[a].callers, list) else m[f]
  }

  /** `merged` is made of whole cycles, `a`'s among them, and younger than `a`'s parent. */
  ghost predicate Mergeable(m: map<Frame, Info>, a: Frame, merged: set<Frame>) {
    && a in m && a in merged && merged <= m.Keys
    && (forall f :: f in merged ==> Cycle(m, f) <= merged)
    && (forall f :: f in merged && m[a].parent != null ==> m[a].parent.age < f.age)
  }

  ghost predicate Lists(list: seq<Frame>, items: set<Frame>) {
    NoRepeats(list) && (set f | f in list) == items
  }

  /** A list is used only inside a merged set or only outside. */
  lemma ListsStayApart(m: map<Frame, Info>, a: Frame, merged: set<Frame>)
    requires Partitioned(m) && Mergeable(m, a, merged)
    ensures forall f, g :: f in m && g in m && m[f].callers == m[g].callers ==> (f in merged <==> g in merged)
    ensures forall f, g :: f in m && g in m[f].frames ==> (f in merged <==> g in merged)
  {
    forall f, g | f in m && g in m && m[f].callers == m[g].callers ensures f in merged <==> g in merged {
      SameList(m, f, g);
    }
  }

  lemma MergedNames(m: map<Frame, Info>, a: Frame, merged: set<Frame>, list: seq<Frame>)
    requires ListsName(m) && a in m && merged <= m.Keys && forall f :: f in list <==> f in merged
    requires forall f, g :: f in m && g in m[f].frames ==> (f in merged <==> g in merged)
    ensures ListsName(Merged(m, a, merged, list))
  {
  }

  lemma MergedShared(m: map<Frame, Info>, a: Frame, merged: set<Frame>, list: seq<Frame>)
    requires ListsShared(m) && a in m && a in merged && forall f :: f in list <==> f in merged
    requires forall f, g :: f in m && g in m && m[f].callers == m[g].callers ==> (f in merged <==> g in merged)
    ensures ListsShared(Merged(m, a, merged, list))
  {
  }

  lemma MergedPartitioned(m: map<Frame, Info>, a: Frame, merged: set<Frame>, list: seq<Frame>)
    requires Partitioned(m) && Mergeable(m, a, merged) && Lists(list, merged)
    ensures Partitioned(Merged(m, a, merged, list))
  {
    hide NoRepeats, Cycle, ListsName, ListsShared;
    ListsStayApart(m, a, merged);
    ListsAreItems(list, merged);
    MergedNames(m, a, merged, list);
    MergedShared(m, a, merged, list);
  }

  lemma ListsAreItems(list: seq<Frame>, items: set<Frame>)
    requires Lists(list, items)
    ensures forall f :: f in list <==> f in items
  {
    assert forall f :: f in (set g | g in list) <==> f in list;
  }

  function Others(s: seq<Frame>, b: Frame): seq<Frame> {
    if s == [] then []
    else
      var n := |s| - 1;
      Others(s[..n], b) + if s[n] == b then [] else [s[n]]
  }

  lemma {:induction false} OthersItems(s: seq<Frame>, b: Frame)
    ensures forall x :: x in Others(s, b) <==> x in s && x != b
    ensures NoRepeats(s) ==> NoRepeats(Others(s, b))
  {
    if s != [] {
      var n := |s| - 1;
      OthersItems(s[..n], b);
      assert s == s[..n] + [s[n]];
      if NoRepeats(s) && s[n] != b {
        assert NoRepeats(s[..n]);
        NoRepeatsConcat(Others(s[..n], b), [s[n]]);
      }
    }
  }

  lemma NoRepeatsConcat(s: seq<Frame>, t: seq<Frame>)
    requires NoRepeats(s) && NoRepeats(t) && forall x :: x in s ==> x !in t
    ensures NoRepeats(s + t)
  {
    var st := s + t;
    forall i, j | 0 <= i < j < |st| ensures st[i] != st[j] {
      if i < |s| <= j { assert s[i] in s && t[j - |s|] in t; }
    }
  }

  /** What `a`'s list is once `b` and the rest of `b`'s list are appended. */
  function Joined(ours: seq<Frame>, theirs: seq<Frame>, b: Frame, same: bool): seq<Frame> {
    var start := if b in ours then ours else ours + [b];
    if same then start else start + Others(theirs, b)
  }

  lemma JoinedItems(ours: seq<Frame>, theirs: seq<Frame>, b: Frame, same: bool)
    ensures forall x :: x in Joined(ours, theirs, b, same) <==> x in ours || x == b || (!same && x in theirs)
  {
    OthersItems(theirs, b);
  }

  lemma ApartLists(m: map<Frame, Info>, a: Frame, b: Frame)
    requires Partitioned(m) && a in m && b in m && m[a].callers != m[b].callers
    ensures b !in m[a].frames && forall x :: x in m[b].frames ==> x !in m[a].frames
  {
    if b in m[a].frames { FramesKnown(m, a, b); }
    forall x | x in m[b].frames && x in m[a].frames ensures false {
      FramesKnown(m, a, x);
      FramesKnown(m, b, x);
    }
  }

  lemma JoinedOnce(m: map<Frame, Info>, a: Frame, b: Frame)
    requires Partitioned(m) && a in m && b in m
    ensures NoRepeats(Joined(m[a].frames, m[b].frames, b, m[a].callers == m[b].callers))
  {
    var ours, theirs := m[a].frames, m[b].frames;
    OthersItems(theirs, b);
    if m[a].callers != m[b].callers { ApartLists(m, a, b); }
    hide Partitioned, Others;
    NoRepeatsConcat([], [b]);
    if b !in ours { NoRepeatsConcat(ours, [b]); }
    if m[a].callers != m[b].callers {
      NoRepeatsConcat(ours + [b], Others(theirs, b));
    }
  }

  lemma JoinedLists(m: map<Frame, Info>, a: Frame, b: Frame)
    requires Partitioned(m) && a in m && b in m && (a == b || a in m[a].frames)
    ensures Lists(Joined(m[a].frames, m[b].frames, b, m[a].callers == m[b].callers), Cycle(m, a) + Cycle(m, b))
  {
    JoinedOnce(m, a, b);
    var ours, theirs, same := m[a].frames, m[b].frames, m[a].callers == m[b].callers;
    assert same ==> ours == theirs;
    hide Partitioned, Joined, NoRepeats;
    JoinedItems(ours, theirs, b, same);
    SetOf(Joined(ours, theirs, b, same), Cycle(m, a) + Cycle(m, b));
  }

  lemma SetOf(list: seq<Frame>, items: set<Frame>)
    requires forall x :: x in list <==> x in items
    ensures (set f | f in list) == items
  {
    assert forall x :: x in (set f | f in list) <==> x in list;
  }

  /** All items of `b`'s cycle are added to `a`'s. */
  method UnionCallerCycle(a: Frame, b: Frame, ghost all: set<Frame>)
    requires Partitioned(View(all)) && a in all && b in all && (a == b || a in a.callers.frames)
    modifies all`parent, all`callers, a.callers`frames
    ensures View(all) == Merged(old(View(all)), a, old(Cycle(View(all), a) + Cycle(View(all), b)), a.callers.frames)
    ensures forall f :: f in all ==>
              if f == a || f in old(a.callers.frames) || f == b || f in old(b.callers.frames)
              then f.parent == old(a.parent) && f.callers == a.callers
              else f.parent == old(f.parent) && f.callers == old(f.callers)
    ensures a.callers == old(a.callers)
    ensures a.callers.frames == old(Joined(a.callers.frames, b.callers.frames, b, a.callers == b.callers))
  {
    hide Partitioned, Cycle, Others;
    ghost var m := View(all);
    ghost var ours, theirs := a.callers.frames, b.callers.frames;
    var callers := b.callers;
    b.parent := a.parent;
    b.callers := a.callers;
    if b !in a.callers.frames {
      a.callers.frames := a.callers.frames + [b];
    }
    if callers != a.callers {
      var frames := callers.frames;
      ghost var start := a.callers.frames;
      assert frames[..0] == [];
      NothingOther(b);
      for i := 0 to |frames|
        invariant a.callers == m[a].callers && a.parent == m[a].parent
        invariant a.callers.frames == start + Others(frames[..i], b)
        invariant forall x :: x in all ==>
                    if x == b || x in frames[..i] then x.callers == m[a].callers && x.parent == m[a].parent
                    else x.callers == m[x].callers && x.parent == m[x].parent
      {
        var caller := frames[i];
        OthersStep(frames, i, b);
        FramesKnown(m, b, caller);
        if caller != b {
          caller.parent := a.parent;
          caller.callers := a.callers;
          a.callers.frames := a.callers.frames + [caller];
        }
      }
      assert frames[..|frames|] == theirs;
    } else {
      SameListKnown(m, a, b);
    }
    ViewAfterUnion(all, m, a, b);
    InCycle(m, a);
    InCycle(m, b);
    forall f | f in all
      ensures if f == a || f in old(a.callers.frames) || f == b || f in old(b.callers.frames)
              then f.parent == old(a.parent) && f.callers == a.callers
              else f.parent == old(f.parent) && f.callers == old(f.callers)
    {
      assert View(all)[f] == Merged(m, a, Cycle(m, a) + Cycle(m, b), a.callers.frames)[f];
    }
  }

  lemma InCycle(m: map<Frame, Info>, f: Frame)
    requires f in m
    ensures forall g :: g in Cycle(m, f) <==> g == f || g in m[f].frames
  {
  }

  lemma SameListKnown(m: map<Frame, Info>, a: Frame, b: Frame)
    requires Partitioned(m) && a in m && b in m && m[a].callers == m[b].callers
    ensures m[a].parent == m[b].parent
    ensures forall x :: x in m[b].frames ==> x in m && m[x].callers == m[a].callers && m[x].parent == m[a].parent
  {
    SameList(m, a, b);
  }

  lemma ViewAfterUnion(all: set<Frame>, m: map<Frame, Info>, a: Frame, b: Frame)
    requires Partitioned(m) && m.Keys == all && a in all && b in all
    requires a.callers == m[a].callers && a.parent == m[a].parent
    requires forall x :: x in all ==>
               if x == b || x in m[b].frames then x.callers == m[a].callers && x.parent == m[a].parent
               else x.callers == m[x].callers && x.parent == m[x].parent
    requires forall x :: x in all && x.callers != a.callers ==> x.callers.frames == m[x].frames
    ensures View(all) == Merged(m, a, Cycle(m, a) + Cycle(m, b), a.callers.frames)
  {
    forall x | x in all
      ensures Info(x.parent, x.callers, x.callers.frames) ==
              Merged(m, a, Cycle(m, a) + Cycle(m, b), a.callers.frames)[x]
    {
      SameList(m, a, x);
      SameList(m, b, x);
    }
  }

  lemma FramesKnown(m: map<Frame, Info>, b: Frame, x: Frame)
    requires Partitioned(m) && b in m && x in m[b].frames
    ensures x in m && m[x].callers == m[b].callers
  {
  }

  lemma OthersStep(s: seq<Frame>, i: nat, b: Frame)
    requires i < |s|
    ensures Others(s[..i + 1], b) == Others(s[..i], b) + if s[i] == b then [] else [s[i]]
    ensures s[..i + 1] == s[..i] + [s[i]]
  {
    assert s[..i + 1][..i] == s[..i];
  }

  lemma NothingOther(b: Frame)
    ensures Others([], b) == []
  {
  }

  // ----- the chain of parents -----

  /** The frame, its parent, and so on. */
  ghost function Ancestry(m: map<Frame, Info>, f: Frame): (path: seq<Frame>)
    requires ParentsOk(m) && f in m
    ensures path != [] && path[0] == f
    decreases f.age
  {
    var p := m[f].parent;
    if p == null then [f] else [f] + Ancestry(m, p)
  }

  ghost predicate IsChain(m: map<Frame, Info>, path: seq<Frame>) {
    && path != [] && (forall i :: 0 <= i < |path| ==> path[i] in m)
    && (forall i :: 0 <= i < |path| - 1 ==> m[path[i]].parent == path[i + 1])
  }

  lemma {:induction false} AncestryIsChain(m: map<Frame, Info>, f: Frame)
    requires ParentsOk(m) && f in m
    ensures IsChain(m, Ancestry(m, f)) && m[Ancestry(m, f)[|Ancestry(m, f)| - 1]].parent == null
    decreases f.age
  {
    var p := m[f].parent;
    if p != null { AncestryIsChain(m, p); }
  }

  lemma {:induction false} OlderAlong(m: map<Frame, Info>, path: seq<Frame>, i: nat, j: nat)
    requires ParentsOk(m) && IsChain(m, path) && i <= j < |path|
    ensures path[j].age <= path[i].age && (i < j ==> path[j].age < path[i].age)
  {
    if i < j { OlderAlong(m, path, i, j - 1); }
  }

  /** The cycles of the first `k` frames of a chain, together with the cycle of its last one. */
  ghost function ChainCycles(m: map<Frame, Info>, path: seq<Frame>, k: nat): set<Frame>
    requires IsChain(m, path) && k < |path|
  {
    if k == 0 then Cycle(m, path[|path| - 1]) else ChainCycles(m, path, k - 1) + Cycle(m, path[k - 1])
  }

  lemma {:induction false} InChainCycles(m: map<Frame, Info>, path: seq<Frame>, k: nat, f: Frame)
    requires IsChain(m, path) && k < |path|
    ensures f in ChainCycles(m, path, k) <==>
            f in Cycle(m, path[|path| - 1]) || exists i :: 0 <= i < k && f in Cycle(m, path[i])
  {
    if k > 0 { InChainCycles(m, path, k - 1, f); }
  }

  /** A later frame of the chain is in none of the cycles before it. */
  lemma ChainApart(m: map<Frame, Info>, path: seq<Frame>, i: nat, j: nat)
    requires Partitioned(m) && IsChain(m, path) && j < |path| - 1 && (i < j || i == |path| - 1)
    ensures path[j] !in Cycle(m, path[i])
  {
    var last := |path| - 1;
    if path[j] in Cycle(m, path[i]) {
      SameList(m, path[i], path[j]);
      if i < j { OlderAlong(m, path, i + 1, j); } else { OlderAlong(m, path, j + 1, last); }
    }
  }

  lemma NotYetMerged(m: map<Frame, Info>, path: seq<Frame>, k: nat)
    requires Partitioned(m) && IsChain(m, path) && k < |path| - 1
    ensures path[k] !in ChainCycles(m, path, k)
  {
    InChainCycles(m, path, k, path[k]);
    ChainApart(m, path, |path| - 1, k);
    forall i | 0 <= i < k ensures path[k] !in Cycle(m, path[i]) { ChainApart(m, path, i, k); }
  }

  lemma {:induction false} ChainMergeable(m: map<Frame, Info>, path: seq<Frame>, k: nat)
    requires Partitioned(m) && IsChain(m, path) && k < |path|
    ensures Mergeable(m, path[|path| - 1], ChainCycles(m, path, k))
  {
    var a := path[|path| - 1];
    forall f | f in ChainCycles(m, path, k)
      ensures f in m && Cycle(m, f) <= ChainCycles(m, path, k) && (m[a].parent != null ==> m[a].parent.age < f.age)
    {
      InChainCycles(m, path, k, f);
      var i :| (i == |path| - 1 || 0 <= i < k) && 0 <= i < |path| && f in Cycle(m, path[i]);
      CycleFits(m, path, k, i, f);
    }
    InChainCycles(m, path, k, a);
  }

  lemma CycleFits(m: map<Frame, Info>, path: seq<Frame>, k: nat, i: nat, f: Frame)
    requires Partitioned(m) && IsChain(m, path) && k < |path| && (i == |path| - 1 || i < k) && f in Cycle(m, path[i])
    ensures f in m && Cycle(m, f) <= ChainCycles(m, path, k)
    ensures var a := path[|path| - 1]; m[a].parent != null ==> m[a].parent.age < f.age
  {
    var last := |path| - 1;
    SameList(m, path[i], path[i]);
    SameList(m, path[i], f);
    forall g | g in Cycle(m, f) ensures g in ChainCycles(m, path, k) { InChainCycles(m, path, k, g); }
    if i < last { OlderAlong(m, path, i + 1, last); }
  }

  // ----- merging a chain -----

  function WithEdge(edges: seq<(Frame, nat)>, edge: (Frame, nat)): seq<(Frame, nat)> {
    if edge in edges then edges else edges + [edge]
  }

  method AddBackedge(frame: Frame, caller: Frame, pc: nat)
    modifies frame`backedges
    ensures frame.backedges == WithEdge(old(frame.backedges), (caller, pc))
  {
    if (caller, pc) !in frame.backedges {
      frame.backedges := frame.backedges + [(caller, pc)];
    }
  }

  /** The state after the chain's first `k` frames have been merged into the cycle of its last. */
  ghost predicate MergedSoFar(m: map<Frame, Info>, path: seq<Frame>, k: nat, now: map<Frame, Info>, list: seq<Frame>)
    requires IsChain(m, path) && k < |path|
  {
    var a := path[|path| - 1];
    Lists(list, ChainCycles(m, path, k)) && now == Merged(m, a, ChainCycles(m, path, k), list)
  }

  lemma SoFarPartitioned(m: map<Frame, Info>, path: seq<Frame>, k: nat, now: map<Frame, Info>, list: seq<Frame>)
    requires Partitioned(m) && IsChain(m, path) && k < |path| && MergedSoFar(m, path, k, now, list)
    ensures Partitioned(now) && now.Keys == m.Keys
    ensures path[|path| - 1] in list
  {
    hide Partitioned, ChainCycles, Merged;
    var a := path[|path| - 1];
    ChainMergeable(m, path, k);
    MergedPartitioned(m, a, ChainCycles(m, path, k), list);
    ListsAreItems(list, ChainCycles(m, path, k));
    MergedKeys(m, a, ChainCycles(m, path, k), list);
  }

  lemma MergedKeys(m: map<Frame, Info>, a: Frame, merged: set<Frame>, list: seq<Frame>)
    requires a in m
    ensures Merged(m, a, merged, list).Keys == m.Keys
  {
  }

  /** The next frame of the chain is as it was, and its union with the last one's cycle is one more merged. */
  lemma NextUnion(m: map<Frame, Info>, path: seq<Frame>, k: nat, now: map<Frame, Info>, list: seq<Frame>)
    requires Partitioned(m) && IsChain(m, path) && k < |path| - 1 && MergedSoFar(m, path, k, now, list)
    ensures var a, b := path[|path| - 1], path[k];
            && a in now && b in now && now[b] == m[b] && now[a].frames == list
            && Cycle(now, a) + Cycle(now, b) == ChainCycles(m, path, k + 1)
            && now[b].parent == path[k + 1]
  {
    hide Partitioned;
    var a, b := path[|path| - 1], path[k];
    NotYetMerged(m, path, k);
    ChainMergeable(m, path, k);
    ListsAreItems(list, ChainCycles(m, path, k));
    assert now[b] == m[b];
    assert now[a] == Info(m[a].parent, m[a].callers, list);
    assert Cycle(now, a) == ChainCycles(m, path, k);
  }

  lemma FirstUnion(m: map<Frame, Info>, path: seq<Frame>, child: Frame)
    requires Partitioned(m) && IsChain(m, path) && child in Cycle(m, path[|path| - 1])
    ensures var a := path[|path| - 1];
            && a in m && child in m && (a == child || a in m[a].frames)
            && Cycle(m, a) + Cycle(m, child) == ChainCycles(m, path, 0)
  {
    SameList(m, path[|path| - 1], path[|path| - 1]);
    SameList(m, path[|path| - 1], child);
  }

  lemma MergedTwice(m: map<Frame, Info>, a: Frame, first: set<Frame>, list: seq<Frame>, both: set<Frame>,
      list': seq<Frame>)
    requires a in m && first <= both
    ensures a in Merged(m, a, first, list)
    ensures Merged(Merged(m, a, first, list), a, both, list') == Merged(m, a, both, list')
  {
  }

  lemma ViewAt(all: set<Frame>, f: Frame)
    requires f in all
    ensures f in View(all) && View(all)[f] == Info(f.parent, f.callers, f.callers.frames)
  {
  }

  /** The frames of a chain differ, and only the last of them is in the last one's cycle. */
  lemma ChainEnds(m: map<Frame, Info>, path: seq<Frame>, k: nat)
    requires Partitioned(m) && IsChain(m, path) && k < |path| - 1
    ensures path[k] !in Cycle(m, path[|path| - 1]) && path[k] != path[|path| - 1]
    ensures forall i :: 0 <= i < |path| && i != k ==> path[i] != path[k]
  {
    ChainApart(m, path, |path| - 1, k);
    forall i | 0 <= i < |path| && i != k ensures path[i] != path[k] {
      if i < k { OlderAlong(m, path, i, k); } else { OlderAlong(m, path, k, i); }
    }
  }

  lemma UnionedFirst(m: map<Frame, Info>, path: seq<Frame>, child: Frame, now: map<Frame, Info>, list: seq<Frame>)
    requires Partitioned(m) && IsChain(m, path) && child in Cycle(m, path[|path| - 1])
    requires child in m
    requires var a := path[|path| - 1];
             && now == Merged(m, a, Cycle(m, a) + Cycle(m, child), list)
             && list == Joined(m[a].frames, m[child].frames, child, m[a].callers == m[child].callers)
    ensures MergedSoFar(m, path, 0, now, list)
  {
    FirstUnion(m, path, child);
    JoinedLists(m, path[|path| - 1], child);
  }

  lemma UnionedNext(m: map<Frame, Info>, path: seq<Frame>, k: nat, before: map<Frame, Info>, list: seq<Frame>,
                    now: map<Frame, Info>, list': seq<Frame>)
    requires Partitioned(m) && IsChain(m, path) && k < |path| - 1 && MergedSoFar(m, path, k, before, list)
    requires var a, b := path[|path| - 1], path[k];
             && a in before && b in before
             && now == Merged(before, a, Cycle(before, a) + Cycle(before, b), list')
             && list' == Joined(before[a].frames, before[b].frames, b, before[a].callers == before[b].callers)
    ensures MergedSoFar(m, path, k + 1, now, list')
  {
    hide Partitioned, Merged, Joined, Cycle;
    var a, b := path[|path| - 1], path[k];
    NextUnion(m, path, k, before, list);
    SoFarPartitioned(m, path, k, before, list);
    JoinedLists(before, a, b);
    MergedTwice(m, a, ChainCycles(m, path, k), list, ChainCycles(m, path, k + 1), list');
  }

  /** Merge one more frame of the chain; returns its parent. */
  method MergeNext(child: Frame, ancestor: Frame, ghost all: set<Frame>, ghost m: map<Frame, Info>,
      ghost path: seq<Frame>, ghost k: nat)
      returns (parent: Frame)
    requires Partitioned(m) && m.Keys == all && IsChain(m, path) && k < |path| - 1
    requires child == path[k] && ancestor == path[|path| - 1]
    requires ancestor in all && MergedSoFar(m, path, k, View(all), ancestor.callers.frames)
    modifies all`parent, all`callers, child`backedges, ancestor.callers`frames
    ensures parent == path[k + 1] && ancestor.callers == old(ancestor.callers)
    ensures MergedSoFar(m, path, k + 1, View(all), ancestor.callers.frames)
    ensures child.backedges == WithEdge(old(child.backedges), (parent, parent.pc))
  {
    hide Partitioned, ChainCycles, Merged, MergedSoFar, Cycle, Joined, View, WithEdge, IsChain;
    ghost var before, list := View(all), ancestor.callers.frames;
    NextUnion(m, path, k, before, list);
    SoFarPartitioned(m, path, k, before, list);
    ViewAt(all, ancestor);
    ViewAt(all, child);
    parent := child.parent;
    AddBackedge(child, parent, parent.pc);
    assert View(all) == before;
    UnionCallerCycle(ancestor, child, all);
    UnionedNext(m, path, k, before, list, View(all), ancestor.callers.frames);
  }

  /** Merge the chain from `parent` up to `ancestor`, where a callee matched `child` in `ancestor`'s cycle. */
  method MergeCallChain(parent0: Frame, ancestor: Frame, child0: Frame, ghost all: set<Frame>, ghost path: seq<Frame>)
    requires Partitioned(View(all)) && IsChain(View(all), path) && path[0] == parent0 && path[|path| - 1] == ancestor
    requires child0 in Cycle(View(all), ancestor)
    modifies all`parent, all`callers, all`backedges, ancestor.callers`frames
    ensures Partitioned(View(all)) && MergedSoFar(old(View(all)), path, |path| - 1, View(all), ancestor.callers.frames)
    ensures child0.backedges == WithEdge(old(child0.backedges), (parent0, parent0.pc))
    ensures forall i :: 0 <= i < |path| - 1 ==>
              path[i].backedges == WithEdge(old(path[i].backedges), (path[i + 1], path[i + 1].pc))
    ensures forall f :: f in all && f != child0 && f !in path[..|path| - 1] ==> f.backedges == old(f.backedges)
  {
    hide Partitioned, ChainCycles, Merged, MergedSoFar, Cycle, Joined, View, WithEdge;
    ghost var m := View(all);
    ghost var last: nat := |path| - 1;
    var parent, child: Frame := parent0, child0;
    ghost var k: nat := 0;
    FirstUnion(m, path, child);
    ViewAt(all, ancestor);
    ViewAt(all, child);
    AddBackedge(child, parent, parent.pc);
    assert View(all) == m;
    UnionCallerCycle(ancestor, child, all);
    UnionedFirst(m, path, child, View(all), ancestor.callers.frames);
    while parent != ancestor
      invariant k < |path| && parent == path[k] && ancestor.callers == old(ancestor.callers)
      invariant MergedSoFar(m, path, k, View(all), ancestor.callers.frames)
      invariant child0.backedges == WithEdge(old(child0.backedges), (parent0, parent0.pc))
      invariant forall i :: 0 <= i < k ==>
                  path[i].backedges == WithEdge(old(path[i].backedges), (path[i + 1], path[i + 1].pc))
      invariant forall f :: f in all && f != child0 && f !in path[..k] ==> f.backedges == old(f.backedges)
      decreases |path| - k
    {
      child := parent;
      ChainEnds(m, path, k);
      parent := MergeNext(child, ancestor, all, m, path, k);
      k := k + 1;
    }
    if k < last { ChainEnds(m, path, k); }
    SoFarPartitioned(m, path, last, View(all), ancestor.callers.frames);
  }

  // ----- resolving a recursive call -----

  /** No frame in the cycles of the first `n` ancestors is for `linfo`. */
  ghost predicate NoMatch(m: map<Frame, Info>, path: seq<Frame>, n: nat, linfo: nat)
    requires n <= |path|
  {
    forall i :: 0 <= i < n ==> path[i] in m && forall g :: g in Cycle(m, path[i]) ==> g.linfo != linfo
  }

  lemma ChainPrefix(m: map<Frame, Info>, f: Frame, n: nat)
    requires ParentsOk(m) && f in m && 0 < n <= |Ancestry(m, f)|
    ensures IsChain(m, Ancestry(m, f)[..n])
    ensures m[Ancestry(m, f)[n - 1]].parent == if n < |Ancestry(m, f)| then Ancestry(m, f)[n] else null
  {
    AncestryIsChain(m, f);
  }

  /**
    The outcome of resolving a call to `linfo` from `parent`: either no ancestor's cycle has a frame for it and
    nothing has changed, or the first `n` ancestors and their cycles have become one cycle, whose parent and
    list are those of the last of them.
  */
  ghost predicate Resolved(m: map<Frame, Info>, parent: Frame, linfo: nat, found: Frame?, n: nat,
                           now: map<Frame, Info>, list: seq<Frame>)
    requires ParentsOk(m) && parent in m
  {
    var path := Ancestry(m, parent);
    if found == null then now == m && NoMatch(m, path, |path|, linfo)
    else
      && 0 < n <= |path| && NoMatch(m, path, n - 1, linfo) && IsChain(m, path[..n])
      && found.linfo == linfo && found in Cycle(m, path[n - 1]) && MergedSoFar(m, path[..n], n - 1, now, list)
  }

  lemma OneMoreWithout(m: map<Frame, Info>, path: seq<Frame>, n: nat, linfo: nat)
    requires n < |path| && path[n] in m && NoMatch(m, path, n, linfo)
    requires path[n].linfo != linfo && forall j :: 0 <= j < |m[path[n]].frames| ==> m[path[n]].frames[j].linfo != linfo
    ensures NoMatch(m, path, n + 1, linfo)
  {
  }

  /** Walk up the ancestry of `parent`, and merge when a frame for `linfo` turns up. */
  method ResolveCallCycle(linfo: nat, parent: Frame, ghost all: set<Frame>)
      returns (found: Frame?, ghost n: nat, ghost list: seq<Frame>)
    requires Partitioned(View(all)) && parent in all
    modifies all`parent, all`callers, all`backedges, (set f | f in all :: f.callers)`frames
    ensures Partitioned(View(all)) && Resolved(old(View(all)), parent, linfo, found, n, View(all), list)
  {
    hide Partitioned, ChainCycles, Merged, MergedSoFar, ParentsOk, WithEdge, View, NoMatch, Ancestry, IsChain;
    ghost var m := View(all);
    PartitionedParents(m);
    ghost var path := Ancestry(m, parent);
    var frame: Frame? := parent;
    n, list := 0, [];
    NothingBefore(m, path, linfo);
    AncestryStarts(m, parent);
    while frame != null
      invariant View(all) == m && n <= |path| && frame == (if n < |path| then path[n] else null)
      invariant NoMatch(m, path, n, linfo)
      invariant forall f :: f in all ==> f.callers == old(f.callers)
      decreases |path| - n
    {
      ChainPrefix(m, parent, n + 1);
      ChainLast(m, path[..n + 1]);
      ViewAt(all, frame);
      if frame.linfo == linfo {
        MergeCallChain(parent, frame, frame, all, path[..n + 1]);
        n, list := n + 1, frame.callers.frames;
        return frame, n, list;
      }
      var callers := frame.callers.frames;
      for i := 0 to |callers|
        invariant forall j :: 0 <= j < i ==> callers[j].linfo != linfo
      {
        var caller := callers[i];
        if caller.linfo == linfo {
          MergeCallChain(parent, frame, caller, all, path[..n + 1]);
          n, list := n + 1, frame.callers.frames;
          return caller, n, list;
        }
      }
      OneMoreWithout(m, path, n, linfo);
      frame := frame.parent;
      n := n + 1;
    }
    found := null;
  }

  lemma PartitionedParents(m: map<Frame, Info>)
    requires Partitioned(m)
    ensures ParentsOk(m)
  {
  }

  lemma NothingBefore(m: map<Frame, Info>, path: seq<Frame>, linfo: nat)
    ensures NoMatch(m, path, 0, linfo)
  {
  }

  lemma AncestryStarts(m: map<Frame, Info>, f: Frame)
    requires ParentsOk(m) && f in m
    ensures Ancestry(m, f) != [] && Ancestry(m, f)[0] == f
  {
  }

  lemma ChainLast(m: map<Frame, Info>, path: seq<Frame>)
    requires IsChain(m, path)
    ensures path != [] && path[|path| - 1] in m
  {
  }

  /** The frame a call leads to: the one found up the ancestry, or a new one below the caller. */
  method FrameForCall(linfo: nat, caller: Frame, ghost all: set<Frame>, age: nat)
      returns (frame: Frame, ghost all': set<Frame>, ghost found: Frame?, ghost n: nat, ghost list: seq<Frame>)
    requires Partitioned(View(all)) && caller in all && forall f :: f in all ==> f.age < age
    modifies all`parent, all`callers, all`backedges, (set f | f in all :: f.callers)`frames
    ensures Partitioned(View(all')) && Resolved(old(View(all)), caller, linfo, found, n, View(all), list)
    ensures found != null ==> frame == found && all' == all
    ensures found == null ==> fresh(frame) && fresh(frame.callers) && frame.linfo == linfo && all' == all + {frame}
    ensures found == null ==> View(all') == View(all)[frame := Info(caller, frame.callers, [])]
  {
    hide Partitioned, Resolved;
    var known: Frame?;
    known, n, list := ResolveCallCycle(linfo, caller, all);
    found := known;
    if known != null {
      frame, all' := known, all;
    } else {
      frame := new Frame(linfo, age, 0, caller);
      all' := all + {frame};
      AlsoNew(all, frame);
    }
  }

  lemma AlsoNew(all: set<Frame>, frame: Frame)
    requires Partitioned(View(all)) && frame !in all && frame.callers.frames == []
    requires forall f :: f in all ==> f.callers != frame.callers && f.age < frame.age
    requires frame.parent in all
    ensures View(all + {frame}) == View(all)[frame := Info(frame.parent, frame.callers, [])]
    ensures Partitioned(View(all + {frame}))
  {
    var m, m' := View(all), View(all + {frame});
    assert m' == m[frame := Info(frame.parent, frame.callers, [])];
    assert forall f :: f in all ==> m'[f] == m[f];
  }
}

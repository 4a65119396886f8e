/** The tree programs that work on nodes in the heap, with explicit stacks of a fixed size. */
module BinaryTreeNodes {
  import opened BinaryTrees

  /** A null child stands for an empty tree. */
  class Node {
    var info: int
    var left: Node?
    var right: Node?

    constructor (info: int)
      ensures this.info == info && left == null && right == null
    {
      this.info, left, right := info, null, null;
    }
  }

  ghost predicate Represents(n: Node?, t: Tree, nodes: set<Node>)
    reads nodes`info, nodes`left, nodes`right
    decreases t
  {
    match t
    case Empty => n == null
    case Tree(info, left, right) =>
      n != null && n in nodes && n.info == info && Represents(n.left, left, nodes) && Represents(n.right, right, nodes)
  }

  // ----- summing up with a stack -----

  function Scaled(sign: int, x: int): int {
    sign * x
  }

  function Pending(signs: seq<int>, trees: seq<Tree>): int
    requires |signs| == |trees|
  {
    if trees == [] then 0
    else
      var n := |trees| - 1;
      Pending(signs[..n], trees[..n]) + Scaled(signs[n], Check(trees[n]))
  }

  function Sizes(trees: seq<Tree>): nat {
    if trees == [] then 0
    else
      var n := |trees| - 1;
      Sizes(trees[..n]) + Size(trees[n])
  }

  lemma PushedOne(signs: seq<int>, trees: seq<Tree>, s: int, t: Tree)
    requires |signs| == |trees|
    ensures Pending(signs + [s], trees + [t]) == Pending(signs, trees) + Scaled(s, Check(t))
    ensures Sizes(trees + [t]) == Sizes(trees) + Size(t)
  {
    assert (signs + [s])[..|trees|] == signs && (trees + [t])[..|trees|] == trees;
  }

  lemma NodeStep(sum: int, sign: int, info: int, left: int, right: int)
    ensures sum + Scaled(sign, info + left - right) == (sum + sign * info) + Scaled(sign, left) + Scaled(-sign, right)
    ensures Scaled(sign, 0) == 0 && Scaled(1, left) == left
  {
  }

  /** The stack has one place for each level of a tree that is `height` levels deep below its root. */
  method CheckWa(root: Node?, height: nat, ghost t: Tree, ghost nodes: set<Node>) returns (sum: int)
    requires Represents(root, t, nodes) && Height(t) <= height + 1
    ensures sum == Check(t)
  {
    hide Pending, Sizes, Height, Size, Check, Scaled;
    sum := 0;
    var next := new Node?[height + 1](_ => null);
    var nextSign := new int[height + 1](_ => 0);
    var ptr, sign, current := 1, 1, root;
    ghost var trees: seq<Tree>, signs: seq<int>, now := [], [], t;
    NothingPending();
    NodeStep(0, 1, 0, Check(t), 0);
    while true
      invariant 1 <= ptr && Represents(current, now, nodes) && Height(now) + ptr - 1 <= height + 1
      invariant |trees| == |signs| == ptr - 1 <= height + 1
      invariant forall i :: 0 <= i < ptr - 1 ==> Represents(next[i], trees[i], nodes) && Height(trees[i]) + i <= height
      invariant forall i :: 0 <= i < ptr - 1 ==> nextSign[i] == signs[i]
      invariant sum + Scaled(sign, Check(now)) + Pending(signs, trees) == Check(t)
      decreases Size(now) + Sizes(trees), ptr
    {
      TreeFacts(now);
      if current != null {
        NodeStep(sum, sign, now.info, Check(now.left), Check(now.right));
        PushedOne(signs, trees, -sign, now.right);
        sum := sum + sign * current.info;
        next[ptr - 1] := current.right;
        nextSign[ptr - 1] := -sign;
        trees, signs, now := trees + [now.right], signs + [-sign], now.left;
        current := current.left;
        ptr := ptr + 1;
      } else {
        NodeStep(sum, sign, 0, 0, 0);
        ptr := ptr - 1;
        if ptr <= 0 {
          NothingPending();
          break;
        }
        PushedOne(signs[..ptr - 1], trees[..ptr - 1], signs[ptr - 1], trees[ptr - 1]);
        assert signs == signs[..ptr - 1] + [signs[ptr - 1]] && trees == trees[..ptr - 1] + [trees[ptr - 1]];
        current := next[ptr - 1];
        sign := nextSign[ptr - 1];
        now, trees, signs := trees[ptr - 1], trees[..ptr - 1], signs[..ptr - 1];
      }
    }
  }

  lemma NothingPending()
    ensures Pending([], []) == 0 && Sizes([]) == 0
  {
  }

  lemma TreeFacts(t: Tree)
    ensures t.Empty? ==> Check(t) == 0 && Size(t) == 0
    ensures t.Tree? ==>
              && Check(t) == t.info + Check(t.left) - Check(t.right) && Size(t) == 1 + Size(t.left) + Size(t.right)
              && Height(t.left) < Height(t) && Height(t.right) < Height(t)
  {
  }

  // ----- making the tree with a stack -----

  /** Node `i` is on level `k`. */
  ghost predicate OnLevel(i: nat, k: nat) {
    Pow2(k) <= i < 2 * Pow2(k)
  }

  ghost function Child(made: map<nat, Node>, i: nat): Node? {
    if i in made then made[i] else null
  }

  /** The nodes made so far, by their numbers: they have their values, and for children those that are made. */
  ghost predicate Made(val: int, count: nat, made: map<nat, Node>)
    reads made.Values`info, made.Values`left, made.Values`right
  {
    && (forall i :: i in made ==> 0 < i <= count && made[i].info == NodeValue(val, i))
    && (forall i :: i in made ==> made[i].left == Child(made, 2 * i) && made[i].right == Child(made, 2 * i + 1))
    && (forall i, j :: i in made && j in made && made[i] == made[j] ==> i == j)
  }

  /** Below the holes, and only there, nodes are still missing. */
  ghost predicate Missing(count: nat, keys: set<nat>, holes: seq<nat>) {
    && (forall k :: 0 <= k < |holes| ==> 0 < holes[k] <= count)
    && (forall j, k :: j in keys && 0 <= k < |holes| ==> !Below(j, holes[k]))
    && (forall j: nat :: 0 < j <= count ==> j in keys || exists k :: 0 <= k < |holes| && Below(j, holes[k]))
    && (forall j: nat, k, l :: 0 <= k < l < |holes| && Below(j, holes[k]) ==> !Below(j, holes[l]))
  }

  lemma {:induction false} BelowIsBigger(j: nat, h: nat)
    requires h > 0 && Below(j, h)
    ensures j == h || j >= 2 * h
    decreases j
  {
    if j > h { BelowIsBigger(j / 2, h); }
  }

  /** A hole on the last level is filled by one node. */
  lemma FillLeaf(count: nat, keys: set<nat>, holes: seq<nat>)
    requires Missing(count, keys, holes) && holes != [] && 2 * holes[|holes| - 1] > count
    ensures Missing(count, keys + {holes[|holes| - 1]}, holes[..|holes| - 1])
  {
    var n := |holes| - 1;
    var h, rest := holes[n], holes[..n];
    assert Below(h, h);
    forall j: nat | 0 < j <= count ensures j in keys + {h} || exists k :: 0 <= k < n && Below(j, rest[k]) {
      if j !in keys {
        var k :| 0 <= k < |holes| && Below(j, holes[k]);
        if k == n { BelowIsBigger(j, h); } else { assert Below(j, rest[k]); }
      }
    }
  }

  /** Any other hole leaves two: one for each child. */
  lemma FillInner(count: nat, keys: set<nat>, holes: seq<nat>)
    requires Missing(count, keys, holes) && holes != [] && 2 * holes[|holes| - 1] + 1 <= count
    ensures var h := holes[|holes| - 1];
            Missing(count, keys + {h}, holes[..|holes| - 1] + [2 * h + 1, 2 * h])
  {
    var n := |holes| - 1;
    var h := holes[n];
    var rest, now, keys' := holes[..n], holes[..n] + [2 * h + 1, 2 * h], keys + {h};
    assert Below(h, h);
    forall j: nat ensures j > 0 ==> (Below(j, h) <==> j == h || Below(j, 2 * h) || Below(j, 2 * h + 1))
      ensures j > 0 ==> !(Below(j, 2 * h) && Below(j, 2 * h + 1))
      ensures !Below(h, 2 * h) && !Below(h, 2 * h + 1)
    {
      BelowOne(h, h);
      if j > 0 { BelowOne(j, h); }
    }
    forall k | 0 <= k < |now| ensures 0 < now[k] <= count && (k < n ==> now[k] == holes[k]) {}
    forall j: nat | 0 < j <= count ensures j in keys' || exists k :: 0 <= k < |now| && Below(j, now[k]) {
      if j !in keys' {
        var k :| 0 <= k < |holes| && Below(j, holes[k]);
        if k < n { assert Below(j, now[k]); } else { assert Below(j, now[n]) || Below(j, now[n + 1]); }
      }
    }
    hide Below;
    forall j, k | j in keys' && 0 <= k < |now| ensures !Below(j, now[k]) {
      NotBelowNew(count, keys, holes, j, k);
    }
    forall j: nat, k, l | 0 <= k < l < |now| && Below(j, now[k]) ensures !Below(j, now[l]) {
      BelowPositive(j, now[k]);
      if l < n {
        assert !Below(j, holes[l]);
      } else if k < n {
        assert !Below(j, holes[n]);
      }
    }
  }

  lemma BelowPositive(j: nat, h: nat)
    requires h > 0 && Below(j, h)
    ensures j > 0
  {
  }

  lemma NotBelowNew(count: nat, keys: set<nat>, holes: seq<nat>, j: nat, k: nat)
    requires Missing(count, keys, holes) && holes != [] && k <= |holes|
    requires var h := holes[|holes| - 1]; j in keys || j == h
    ensures var h := holes[|holes| - 1]; var now := holes[..|holes| - 1] + [2 * h + 1, 2 * h];
            now[k] > 0 && !Below(j, now[k])
  {
    var n := |holes| - 1;
    var h := holes[n];
    assert Below(h, h);
    if k < n {
      assert !Below(j, holes[k]);
    } else if j > 0 {
      BelowOne(j, h);
      BelowOne(h, h);
    }
  }

  lemma {:induction false} KeysFit(keys: set<nat>, count: nat)
    requires forall j :: j in keys ==> 0 < j <= count
    ensures |keys| <= count
  {
    if count == 0 {
      assert keys == {};
    } else {
      KeysFit(keys - {count}, count - 1);
    }
  }

  /** Hang a new node into the hole numbered `h`. */
  method AddNode(current: Node, side: nat, val: int, ghost val0: int, ghost count: nat, ghost made: map<nat, Node>,
      ghost h: nat)
      returns (newn: Node, ghost made': map<nat, Node>)
    requires Made(val0, count, made) && side <= 1 && 0 < h <= count && h % 2 == side && h / 2 in made
    requires made[h / 2] == current
    requires h !in made && 2 * h !in made && 2 * h + 1 !in made && val == NodeValue(val0, h)
    modifies current`left, current`right
    ensures fresh(newn) && made' == made[h := newn] && Made(val0, count, made')
  {
    hide NodeValue;
    newn := new Node(val);
    made' := made[h := newn];
    assert forall i :: i in made ==> made[i] in made.Values;
    if side == 0 {
      current.left := newn;
    } else {
      current.right := newn;
    }
    ghost var p := h / 2;
    assert h == 2 * p + side;
    forall i | i in made' ensures made'[i].left == Child(made', 2 * i) && made'[i].right == Child(made', 2 * i + 1) {
      assert i != h && made[i] == current ==> i == p;
      assert i != h ==> made[i].left == (if i == p && side == 0 then newn else Child(made, 2 * i));
      assert i != h ==> made[i].right == (if i == p && side == 1 then newn else Child(made, 2 * i + 1));
    }
  }

  ghost predicate Complete(count: nat, made: map<nat, Node>) {
    forall j: nat :: 0 < j <= count ==> j in made
  }

  /** Once all nodes are made, each represents the recursively made tree of its level. */
  lemma {:induction false} MadeRepresents(val: int, d: nat, made: map<nat, Node>, i: nat, k: nat)
    requires Made(val, 2 * Pow2(d) - 1, made) && Complete(2 * Pow2(d) - 1, made)
    requires k <= d && OnLevel(i, d - k) && i in made
    ensures Represents(made[i], OldMake(NodeValue(val, i), k), made.Values)
    decreases k
  {
    hide Made, Complete, OnLevel;
    LevelDown(i, d, k);
    MadeNode(val, 2 * Pow2(d) - 1, made, i);
    hide Pow2;
    if k > 0 {
      MadeRepresents(val, d, made, 2 * i, k - 1);
      MadeRepresents(val, d, made, 2 * i + 1, k - 1);
    }
  }

  lemma MadeNode(val: int, count: nat, made: map<nat, Node>, i: nat)
    requires Made(val, count, made) && Complete(count, made) && i in made
    ensures i > 0 && made[i] in made.Values && made[i].info == NodeValue(val, i)
    ensures 2 * i > count ==> made[i].left == null && made[i].right == null
    ensures 2 * i + 1 <= count ==>
              && 2 * i in made && 2 * i + 1 in made && made[i].left == made[2 * i] && made[i].right == made[2 * i + 1]
              && NodeValue(val, 2 * i) == NodeValue(val, i) * 2 - 1
              && NodeValue(val, 2 * i + 1) == NodeValue(val, i) * 2
  {
  }

  lemma LevelDown(i: nat, d: nat, k: nat)
    requires k <= d && OnLevel(i, d - k)
    ensures 0 < i && (k == 0 ==> 2 * i > 2 * Pow2(d) - 1)
    ensures k > 0 ==> OnLevel(2 * i, d - (k - 1)) && OnLevel(2 * i + 1, d - (k - 1)) && 2 * i + 1 <= 2 * Pow2(d) - 1
  {
    if k > 0 { PowGrows(d - k + 1, d); }
  }

  lemma {:induction false} PowGrows(a: nat, b: nat)
    requires a <= b
    ensures Pow2(a) <= Pow2(b)
  {
    if a < b { PowGrows(a, b - 1); }
  }

  /** What the stack says about the holes on it. */
  ghost predicate OnStack(val: int, d: nat, made: map<nat, Node>, holes: seq<nat>,
                          next: seq<Node?>, nextd: seq<int>, nextv: seq<int>)
    requires |next| == |nextd| == |nextv| && |holes| <= |next|
  {
    forall k :: 0 <= k < |holes| ==>
      && holes[k] % 2 == 1 && holes[k] / 2 in made && next[k] == made[holes[k] / 2]
      && nextv[k] == NodeValue(val, holes[k]) && 0 <= nextd[k] && nextd[k] + k + 1 <= d
      && OnLevel(holes[k], d - nextd[k])
  }

  lemma FirstMade(val: int, d: nat, root: Node, made: map<nat, Node>)
    requires made == map[1 := root] && root.info == val && root.left == null && root.right == null
    ensures Made(val, 2 * Pow2(d) - 1, made) && OnLevel(1, 0)
    ensures d == 0 ==> Complete(2 * Pow2(d) - 1, made)
  {
  }

  lemma {:induction false} AllBelowRoot(j: nat)
    requires j > 0
    ensures Below(j, 1)
  {
    if j > 1 { AllBelowRoot(j / 2); }
  }

  lemma FirstHoles(val: int, d: nat, made: map<nat, Node>, next: seq<Node?>, nextd: seq<int>, nextv: seq<int>)
    requires d > 0 && made.Keys == {1} && |next| == |nextd| == |nextv| > 0
    requires next[0] == made[1] && nextd[0] == d - 1 && nextv[0] == 2 * val
    ensures Pow2(d) > 1 && Missing(2 * Pow2(d) - 1, made.Keys, [3, 2]) && OnStack(val, d, made, [3], next, nextd, nextv)
    ensures OnLevel(2, 1) && NodeValue(val, 2) == 2 * val - 1
  {
    FirstTwo(2 * Pow2(d) - 1);
    assert NodeValue(val, 3) == 2 * NodeValue(val, 1);
    assert OnLevel(3, 1);
  }

  lemma FirstTwo(count: nat)
    requires count >= 3
    ensures Missing(count, {1}, [3, 2])
  {
    hide Missing;
    RootHole(count);
    FillInner(count, {}, [1]);
    assert [1][..0] + [3, 2] == [3, 2] && {} + {1} == {1};
  }

  lemma RootHole(count: nat)
    requires count > 0
    ensures Missing(count, {}, [1])
  {
    var one: seq<nat> := [1];
    forall j: nat | j > 0 ensures Below(j, one[0]) { AllBelowRoot(j); }
  }

  lemma HoleIsFree(count: nat, keys: set<nat>, holes: seq<nat>)
    requires Missing(count, keys, holes) && holes != []
    ensures var h := holes[|holes| - 1];
            0 < h <= count && h !in keys && 2 * h !in keys && 2 * h + 1 !in keys
  {
    var h := holes[|holes| - 1];
    assert Below(h, h) && Below(2 * h, h) && Below(2 * h + 1, h);
  }

  lemma MoreMade(val: int, count: nat, before: map<nat, Node>, made: map<nat, Node>, h: nat, newn: Node)
    requires made == before[h := newn] && h !in before && Made(val, count, made)
    ensures made.Keys == before.Keys + {h} && |before.Keys| < |made.Keys| <= count
    ensures made.Values <= before.Values + {newn}
  {
    assert forall j :: j in made.Keys ==> 0 < j <= count;
    hide Made;
    KeysFit(made.Keys, count);
  }

  lemma StackStays(val: int, d: nat, before: map<nat, Node>, made: map<nat, Node>, holes: seq<nat>,
                   next: seq<Node?>, nextd: seq<int>, nextv: seq<int>)
    requires |next| == |nextd| == |nextv| && |holes| <= |next| && OnStack(val, d, before, holes, next, nextd, nextv)
    requires forall i :: i in before ==> i in made && made[i] == before[i]
    ensures OnStack(val, d, made, holes, next, nextd, nextv)
  {
    hide OnLevel, NodeValue;
  }

  lemma StackTop(val: int, d: nat, made: map<nat, Node>, holes: seq<nat>, next: seq<Node?>, nextd: seq<int>,
      nextv: seq<int>)
    requires |next| == |nextd| == |nextv| && 0 < |holes| <= |next| && OnStack(val, d, made, holes, next, nextd, nextv)
    ensures var k := |holes| - 1;
            && holes[k] % 2 == 1 && holes[k] / 2 in made && next[k] == made[holes[k] / 2]
            && nextv[k] == NodeValue(val, holes[k]) && 0 <= nextd[k] && nextd[k] + k + 1 <= d
            && OnLevel(holes[k], d - nextd[k])
    ensures OnStack(val, d, made, holes[..|holes| - 1], next, nextd, nextv)
  {
    hide OnLevel, NodeValue;
  }

  lemma StackGrows(val: int, d0: nat, made: map<nat, Node>, kept: seq<nat>, h: nat, d: nat,
                   next: seq<Node?>, nextd: seq<int>, nextv: seq<int>)
    requires |next| == |nextd| == |nextv| && |kept| < |next| && OnStack(val, d0, made, kept, next, nextd, nextv)
    requires 0 < d <= d0 && h > 0 && h in made && OnLevel(h, d0 - d) && d + |kept| <= d0
    ensures var at := |kept|;
            && OnStack(val, d0, made, kept + [2 * h + 1], next[at := made[h]], nextd[at := d - 1],
                       nextv[at := NodeValue(val, h) * 2])
            && OnLevel(2 * h, d0 - (d - 1)) && NodeValue(val, 2 * h) == 2 * NodeValue(val, h) - 1
  {
    LevelDown(h, d0, d);
    assert (2 * h + 1) / 2 == h && NodeValue(val, 2 * h + 1) == 2 * NodeValue(val, h);
    hide OnLevel, NodeValue;
  }

  lemma AllMade(count: nat, made: map<nat, Node>, holes: seq<nat>)
    requires Missing(count, made.Keys, holes) && holes == []
    ensures Complete(count, made)
  {
  }

  datatype Stack = Stack(next: seq<Node?>, nextd: seq<int>, nextv: seq<int>)

  /** Where the loop is: which hole it is about to fill, and what is on the stack. */
  ghost predicate Place(val0: int, d0: nat, made: map<nat, Node>, holes: seq<nat>, s: Stack,
                        current: Node?, side: nat, d: int, val: int)
  {
    && |s.next| == |s.nextd| == |s.nextv| == d0 + 1 && holes != [] && 0 <= d && |holes| + d <= d0 + 1
    && Missing(2 * Pow2(d0) - 1, made.Keys, holes)
    && OnStack(val0, d0, made, holes[..|holes| - 1], s.next, s.nextd, s.nextv)
    && var h := holes[|holes| - 1];
    && side <= 1 && h % 2 == side && h / 2 in made && made[h / 2] == current && OnLevel(h, d0 - d)
    && val == NodeValue(val0, h)
  }

  lemma FirstPlace(val0: int, d0: nat, made: map<nat, Node>, s: Stack, root: Node)
    requires d0 > 0 && made == map[1 := root] && |s.next| == |s.nextd| == |s.nextv| == d0 + 1
    requires s.next[0] == root && s.nextd[0] == d0 - 1 && s.nextv[0] == 2 * val0
    ensures Place(val0, d0, made, [3, 2], s, root, 0, d0 - 1, 2 * val0 - 1)
  {
    hide Missing, OnStack, OnLevel, NodeValue, Pow2;
    FirstHoles(val0, d0, made, s.next, s.nextd, s.nextv);
    assert [3, 2][..1] == [3];
  }

  /** The hole is free, and so are the places of its children. */
  lemma PlaceHole(val0: int, d0: nat, made: map<nat, Node>, holes: seq<nat>, s: Stack, current: Node?, side: nat,
      d: int, val: int)
    requires Place(val0, d0, made, holes, s, current, side, d, val)
    ensures holes != [] && 0 < |holes| <= d0 + 1 - d && d >= 0 && side <= 1 && current != null
    ensures var h := holes[|holes| - 1];
            && 0 < h <= 2 * Pow2(d0) - 1 && h !in made && 2 * h !in made && 2 * h + 1 !in made
            && h % 2 == side && h / 2 in made && made[h / 2] == current && val == NodeValue(val0, h)
  {
    hide Missing, OnStack, OnLevel, NodeValue, Pow2;
    HoleIsFree(2 * Pow2(d0) - 1, made.Keys, holes);
  }

  lemma PlaceLeaf(val0: int, d0: nat, made: map<nat, Node>, holes: seq<nat>, s: Stack, current: Node?, side: nat,
      val: int, newn: Node)
    requires Place(val0, d0, made, holes, s, current, side, 0, val)
    ensures holes != []
    ensures var k := |holes| - 1; var made' := With(made, holes[k], newn);
            if k == 0 then Complete(2 * Pow2(d0) - 1, made')
            else
              && k - 1 < |s.next| == |s.nextd| == |s.nextv|
              && Place(val0, d0, made', holes[..k], s, s.next[k - 1], 1, s.nextd[k - 1], s.nextv[k - 1])
  {
    hide Missing, OnStack, OnLevel, NodeValue, Pow2, Complete;
    var k := |holes| - 1;
    var made', rest := made[holes[k] := newn], holes[..k];
    LevelDown(holes[k], d0, 0);
    HoleIsFree(2 * Pow2(d0) - 1, made.Keys, holes);
    FillLeaf(2 * Pow2(d0) - 1, made.Keys, holes);
    assert made'.Keys == made.Keys + {holes[k]};
    StackStays(val0, d0, made, made', rest, s.next, s.nextd, s.nextv);
    if k == 0 {
      AllMade(2 * Pow2(d0) - 1, made', rest);
    } else {
      StackTop(val0, d0, made', rest, s.next, s.nextd, s.nextv);
    }
  }

  lemma PlaceInner(val0: int, d0: nat, made: map<nat, Node>, holes: seq<nat>, s: Stack, current: Node?, side: nat,
      d: int, val: int, newn: Node)
    requires Place(val0, d0, made, holes, s, current, side, d, val) && d > 0
    ensures holes != [] && |holes| <= |s.next| == |s.nextd| == |s.nextv|
    ensures var k := |holes| - 1; var h := holes[k];
            var s' := Stack(s.next[k := newn], s.nextd[k := d - 1], s.nextv[k := val * 2]);
            Place(val0, d0, With(made, h, newn), holes[..k] + [2 * h + 1, 2 * h], s', newn, 0, d - 1, 2 * val - 1)
  {
    hide Missing, OnStack, OnLevel, NodeValue, Pow2;
    var k := |holes| - 1;
    var h, kept := holes[k], holes[..k];
    var made' := made[h := newn];
    LevelDown(h, d0, d);
    HoleIsFree(2 * Pow2(d0) - 1, made.Keys, holes);
    FillInner(2 * Pow2(d0) - 1, made.Keys, holes);
    assert made'.Keys == made.Keys + {h};
    StackStays(val0, d0, made, made', kept, s.next, s.nextd, s.nextv);
    StackGrows(val0, d0, made', kept, h, d, s.next, s.nextd, s.nextv);
    var now := kept + [2 * h + 1, 2 * h];
    assert now[..|now| - 1] == kept + [2 * h + 1] && now[|now| - 1] == 2 * h;
  }

  // The map of nodes behind names, for a loop that only passes it on.

  ghost function Nodes(made: map<nat, Node>): set<Node> {
    made.Values
  }

  ghost function With(made: map<nat, Node>, h: nat, n: Node): map<nat, Node> {
    made[h := n]
  }

  ghost function Free(count: nat, made: map<nat, Node>): int {
    count - |made.Keys|
  }

  ghost predicate Root(made: map<nat, Node>, root: Node) {
    1 in made && made[1] == root
  }

  lemma Advanced(val0: int, count: nat, before: map<nat, Node>, h: nat, newn: Node, root: Node)
    requires h !in before && Made(val0, count, With(before, h, newn)) && Root(before, root)
    ensures Root(With(before, h, newn), root) && 0 <= Free(count, With(before, h, newn)) < Free(count, before)
    ensures Nodes(With(before, h, newn)) <= Nodes(before) + {newn}
  {
    hide Made;
    MoreMade(val0, count, before, With(before, h, newn), h, newn);
  }

  /** Fill the hole on top. */
  method FillHole(val0: int, d0: nat, ghost made: map<nat, Node>, ghost holes: seq<nat>, ghost s: Stack,
                  current: Node, side: nat, d: int, val: int, ghost root: Node) returns (newn: Node)
    requires Place(val0, d0, made, holes, s, current, side, d, val) && Made(val0, 2 * Pow2(d0) - 1, made)
    requires Root(made, root)
    modifies current`left, current`right
    ensures holes != [] && fresh(newn)
    ensures var made' := With(made, holes[|holes| - 1], newn); var count := 2 * Pow2(d0) - 1;
            && Made(val0, count, made') && Root(made', root) && 0 <= Free(count, made') < Free(count, made)
            && Nodes(made') <= Nodes(made) + {newn}
  {
    hide Place, Made, Pow2, NodeValue;
    PlaceHole(val0, d0, made, holes, s, current, side, d, val);
    ghost var made';
    newn, made' := AddNode(current, side, val, val0, 2 * Pow2(d0) - 1, made, holes[|holes| - 1]);
    Advanced(val0, 2 * Pow2(d0) - 1, made, holes[|holes| - 1], newn, root);
  }

  lemma CurrentIsMade(val0: int, d0: nat, made: map<nat, Node>, holes: seq<nat>, s: Stack, current: Node?, side: nat,
      d: int, val: int)
    requires Place(val0, d0, made, holes, s, current, side, d, val)
    ensures current != null && current in Nodes(made) && holes != [] && d >= 0 && 0 < |holes| <= d0 + 1 - d
  {
    PlaceHole(val0, d0, made, holes, s, current, side, d, val);
    assert made[holes[|holes| - 1] / 2] in made.Values;
  }

  /** The main loop, from the first two holes on. */
  method FillAll(root: Node, val0: int, d0: nat, next: array<Node?>, nextd: array<int>, nextv: array<int>,
                 ghost made0: map<nat, Node>) returns (ghost made: map<nat, Node>)
    requires d0 > 0 && made0 == map[1 := root] && Root(made0, root) && Made(val0, 2 * Pow2(d0) - 1, made0)
    requires next.Length == nextd.Length == nextv.Length == d0 + 1 && nextd != nextv
    requires next[0] == root && nextd[0] == d0 - 1 && nextv[0] == 2 * val0
    modifies next, nextd, nextv, root`left, root`right
    ensures Root(made, root) && Made(val0, 2 * Pow2(d0) - 1, made) && Complete(2 * Pow2(d0) - 1, made)
    ensures forall n :: n in Nodes(made) && n != root ==> fresh(n)
  {
    hide Place, Pow2, Made, NodeValue, OnLevel, Complete, Represents, OldMake, Nodes, With, Free, Root;
    ghost var count := 2 * Pow2(d0) - 1;
    made := made0;
    var current: Node? := root;
    var val, d, ptr, side := 2 * val0 - 1, d0 - 1, 2, 0;
    ghost var holes: seq<nat> := [3, 2];
    FirstRoot(made, root);
    FirstPlace(val0, d0, made, Stack(next[..], nextd[..], nextv[..]), root);
    while true
      invariant |holes| == ptr && forall n :: n in Nodes(made) && n != root ==> fresh(n)
      invariant Root(made, root) && Made(val0, count, made)
      invariant Place(val0, d0, made, holes, Stack(next[..], nextd[..], nextv[..]), current, side, d, val)
      decreases Free(count, made)
    {
      ghost var s, before := Stack(next[..], nextd[..], nextv[..]), made;
      CurrentIsMade(val0, d0, made, holes, s, current, side, d, val);
      ghost var h := holes[ptr - 1];
      var newn := FillHole(val0, d0, made, holes, s, current, side, d, val, root);
      made := With(before, h, newn);
      if d == 0 {
        PlaceLeaf(val0, d0, before, holes, s, current, side, val, newn);
        ptr := ptr - 1;
        holes := holes[..ptr];
        if ptr <= 0 { break; }
        current := next[ptr - 1];
        d := nextd[ptr - 1];
        val := nextv[ptr - 1];
        side := 1;
      } else {
        PlaceInner(val0, d0, before, holes, s, current, side, d, val, newn);
        next[ptr - 1] := newn;
        nextd[ptr - 1] := d - 1;
        nextv[ptr - 1] := val * 2;
        assert next[..] == s.next[ptr - 1 := newn] && nextd[..] == s.nextd[ptr - 1 := d - 1]
               && nextv[..] == s.nextv[ptr - 1 := val * 2];
        holes := holes[..ptr - 1] + [2 * h + 1, 2 * h];
        ptr := ptr + 1;
        current := newn;
        d := d - 1;
        val := 2 * val - 1;
        side := 0;
      }
    }
  }

  method Make(val0: int, d0: nat) returns (root: Node, ghost nodes: set<Node>)
    ensures fresh(nodes) && Represents(root, OldMake(val0, d0), nodes)
  {
    hide Pow2, Made, NodeValue, Complete, Represents, OldMake, Nodes, Root;
    root := new Node(val0);
    ghost var made: map<nat, Node> := map[1 := root];
    FirstMade(val0, d0, root, made);
    FirstRoot(made, root);
    if d0 == 0 {
      WholeTree(val0, d0, made, root);
      return root, Nodes(made);
    }
    var next := new Node?[d0 + 1](_ => null);
    var nextd := new int[d0 + 1](_ => 0);
    var nextv := new int[d0 + 1](_ => 0);
    next[0], nextd[0], nextv[0] := root, d0 - 1, 2 * val0;
    made := FillAll(root, val0, d0, next, nextd, nextv, made);
    WholeTree(val0, d0, made, root);
    nodes := Nodes(made);
  }

  lemma FirstRoot(made: map<nat, Node>, root: Node)
    requires made == map[1 := root]
    ensures Root(made, root) && Nodes(made) == {root}
  {
  }

  lemma WholeTree(val: int, d: nat, made: map<nat, Node>, root: Node)
    requires Made(val, 2 * Pow2(d) - 1, made) && Complete(2 * Pow2(d) - 1, made) && Root(made, root)
    ensures Represents(root, OldMake(val, d), Nodes(made))
  {
    assert OnLevel(1, 0) && NodeValue(val, 1) == val;
    MadeRepresents(val, d, made, 1, d);
  }

  /** The four programs, each checking what it makes itself: they come to the same sum. */
  method CheckAll(val: int, d: nat) returns (withStack: int, recursive: int, byArray: int, byOnes: int)
    ensures withStack == recursive == byArray == byOnes == Total(val, d)
  {
    CheckIsTotal(val, d);
    ghost var nodes;
    var root;
    root, nodes := Make(val, d);
    withStack := CheckWa(root, d, OldMake(val, d), nodes);
    recursive := Check(OldMake(val, d));
    var filled := MakeArr(val, d);
    byArray := CheckArr(1, d, filled, val);
    var arr := MakeArrNoRec(val, d);
    byOnes := CheckNoRec(arr, val, d);
  }
}

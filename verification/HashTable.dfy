/** The chained hash: buckets of items, threaded with a list in the order of insertion. */
module HashTable {
  import opened MergeSorting
  import opened HashSort

  datatype Bucket<V(!new)> = Bucket(head: Item?<V>, count: nat, expandMult: nat)

  const INITIAL_LOG2: nat := 5
  const THRESHOLD: nat := 10

  function Pow2(k: nat): (n: nat)
    ensures n > 0
  {
    if k == 0 then 1 else 2 * Pow2(k - 1)
  }

  // ----- the chain of a bucket -----

  /** The links of a bucket's chain agree with the order of its items. */
  ghost predicate ChainLinked<V(!new)>(s: seq<Item<V>>)
    reads s`hhNext, s`hhPrev
  {
    && Distinct(s)
    && (forall i {:trigger s[i].hhPrev} :: 0 <= i < |s| ==> s[i].hhPrev == Before(s, i))
    && (forall i {:trigger s[i].hhNext} :: 0 <= i < |s| ==> s[i].hhNext == Following(s, i))
  }

  function Following<V(!new)>(s: seq<Item<V>>, i: nat): Item?<V>
    requires i < |s|
  {
    if i + 1 < |s| then s[i + 1] else null
  }

  /** The new item becomes the first of the chain. */
  method PushFront<V(!new)>(x: Item<V>, first: Item?<V>, ghost chain: seq<Item<V>>)
    requires ChainLinked(chain) && first == First(chain) && x !in chain
    modifies x`hhNext, x`hhPrev, if chain == [] then {} else {chain[0]}`hhPrev
    ensures ChainLinked([x] + chain)
  {
    x.hhNext := first;
    x.hhPrev := null;
    if first != null {
      first.hhPrev := x;
    }
    ghost var longer := [x] + chain;
    forall i | 0 <= i < |longer|
      ensures longer[i].hhPrev == Before(longer, i) && longer[i].hhNext == Following(longer, i)
    {
      if i > 0 { assert longer[i] == chain[i - 1]; }
    }
  }

  function Without<T>(s: seq<T>, k: nat): seq<T>
    requires k < |s|
  {
    s[..k] + s[k + 1..]
  }

  /** The neighbours of each item once place `k` is taken out. */
  lemma AroundWithout<V(!new)>(s: seq<Item<V>>, k: nat, i: nat)
    requires k < |s| && i < |s| - 1
    ensures var j, rest := if i < k then i else i + 1, Without(s, k);
            && |rest| == |s| - 1 && rest[i] == s[j]
            && Before(rest, i) == Before(s, if j == k + 1 then k else j)
            && Following(rest, i) == Following(s, if j + 1 == k then k else j)
  {
  }

  lemma WithoutDistinct<V(!new)>(s: seq<Item<V>>, k: nat)
    requires Distinct(s) && k < |s|
    ensures Distinct(Without(s, k)) && |Without(s, k)| == |s| - 1
  {
  }

  /** The neighbours of an item of the chain are linked to each other; returns the new first item. */
  method PullOut<V(!new)>(x: Item<V>, first: Item?<V>, ghost chain: seq<Item<V>>, ghost k: nat)
      returns (first': Item?<V>)
    requires ChainLinked(chain) && first == First(chain) && k < |chain| && x == chain[k]
    modifies (set y | y in chain)`hhNext, (set y | y in chain)`hhPrev
    ensures ChainLinked(Without(chain, k)) && first' == First(Without(chain, k))
  {
    assert x.hhPrev == Before(chain, k) && x.hhNext == Following(chain, k);
    first' := first;
    if first' == x {
      first' := x.hhNext;
    }
    if x.hhPrev != null {
      x.hhPrev.hhNext := x.hhNext;
    }
    if x.hhNext != null {
      x.hhNext.hhPrev := x.hhPrev;
    }
    assert forall i :: 0 <= i < |chain| && i != k + 1 ==> chain[i].hhPrev == Before(chain, i);
    assert forall i :: 0 <= i < |chain| && i + 1 != k ==> chain[i].hhNext == Following(chain, i);
    assert k > 0 ==> chain[k - 1].hhNext == Following(chain, k);
    assert k + 1 < |chain| ==> chain[k + 1].hhPrev == Before(chain, k);
    Shortened(chain, k);
  }

  lemma Shortened<V(!new)>(chain: seq<Item<V>>, k: nat)
    requires Distinct(chain) && k < |chain|
    requires forall i :: 0 <= i < |chain| && i != k + 1 ==> chain[i].hhPrev == Before(chain, i)
    requires forall i :: 0 <= i < |chain| && i + 1 != k ==> chain[i].hhNext == Following(chain, i)
    requires k > 0 ==> chain[k - 1].hhNext == Following(chain, k)
    requires k + 1 < |chain| ==> chain[k + 1].hhPrev == Before(chain, k)
    ensures ChainLinked(Without(chain, k))
  {
    WithoutDistinct(chain, k);
    hide Distinct, Without, Before, Following;
    var shorter := Without(chain, k);
    forall i | 0 <= i < |shorter|
      ensures shorter[i].hhPrev == Before(shorter, i) && shorter[i].hhNext == Following(shorter, i)
    {
      AroundWithout(chain, k, i);
    }
  }

  // ----- which bucket an item is in -----

  /** Every item is in the bucket of its hash value, and the buckets hold nothing else. */
  ghost predicate Homed<V(!new)>(order: seq<Item<V>>, chains: seq<seq<Item<V>>>) {
    && |chains| > 0
    && (forall b, i :: 0 <= b < |chains| && 0 <= i < |chains[b]| ==>
          chains[b][i].hashv % |chains| == b && chains[b][i] in order)
    && (forall i :: 0 <= i < |order| ==> order[i] in chains[order[i].hashv % |chains|])
  }

  function Total<T>(chains: seq<seq<T>>): nat {
    if chains == [] then 0 else Total(chains[..|chains| - 1]) + |chains[|chains| - 1]|
  }

  /** How many items are in a place past the ideal length of their chain. */
  function Excess<T>(chains: seq<seq<T>>, ideal: nat): nat {
    if chains == [] then 0
    else
      var last := |chains[|chains| - 1]|;
      Excess(chains[..|chains| - 1], ideal) + if last > ideal then last - ideal else 0
  }

  lemma {:induction false} ExcessLonger<T>(chains: seq<seq<T>>, c: nat, x: T, ideal: nat)
    requires c < |chains|
    ensures Excess(chains[c := [x] + chains[c]], ideal) ==
            Excess(chains, ideal) + if |chains[c]| + 1 > ideal then 1 else 0
  {
    var longer, n := chains[c := [x] + chains[c]], |chains| - 1;
    if c < n {
      ExcessLonger(chains[..n], c, x, ideal);
      assert longer[..n] == chains[..n][c := [x] + chains[..n][c]];
    } else {
      assert longer[..n] == chains[..n];
    }
  }

  lemma {:induction false} ExcessOfNone<T>(chains: seq<seq<T>>, ideal: nat)
    requires forall c :: 0 <= c < |chains| ==> chains[c] == []
    ensures Excess(chains, ideal) == 0
  {
    if chains != [] { ExcessOfNone(chains[..|chains| - 1], ideal); }
  }

  ghost function Items<V(!new)>(s: seq<Item<V>>): set<Item<V>> {
    set x | x in s
  }

  /** The items whose bucket is one of the first `k` of `n`. */
  ghost function InFirst<V(!new)>(order: seq<Item<V>>, n: nat, k: nat): set<Item<V>>
    requires n > 0
  {
    set x | x in order && x.hashv % n < k
  }

  lemma {:induction false} DistinctSize<V(!new)>(s: seq<Item<V>>)
    requires Distinct(s)
    ensures |Items(s)| == |s|
  {
    if s != [] {
      var n := |s| - 1;
      DistinctSize(s[..n]);
      assert Items(s) == Items(s[..n]) + {s[n]};
    }
  }

  /** The chain lengths add up to the number of items. */
  lemma CountsAgree<V(!new)>(order: seq<Item<V>>, chains: seq<seq<Item<V>>>)
    requires Distinct(order) && Homed(order, chains) && forall b :: 0 <= b < |chains| ==> Distinct(chains[b])
    ensures Total(chains) == |order|
  {
    CountsUpTo(order, chains, |chains|);
    assert chains[..|chains|] == chains;
    assert InFirst(order, |chains|, |chains|) == Items(order);
    DistinctSize(order);
  }

  lemma {:induction false} CountsUpTo<V(!new)>(order: seq<Item<V>>, chains: seq<seq<Item<V>>>, k: nat)
    requires Homed(order, chains) && k <= |chains|
    requires forall b :: 0 <= b < |chains| ==> Distinct(chains[b])
    ensures Total(chains[..k]) == |InFirst(order, |chains|, k)|
  {
    if k > 0 {
      CountsUpTo(order, chains, k - 1);
      DistinctSize(chains[k - 1]);
      assert chains[..k][..k - 1] == chains[..k - 1] && chains[..k][k - 1] == chains[k - 1];
      OneMoreChain(order, chains, k - 1);
    } else {
      assert InFirst(order, |chains|, k) == {};
    }
  }

  lemma OneMoreChain<V(!new)>(order: seq<Item<V>>, chains: seq<seq<Item<V>>>, b: nat)
    requires Homed(order, chains) && b < |chains|
    ensures InFirst(order, |chains|, b + 1) == InFirst(order, |chains|, b) + Items(chains[b])
    ensures InFirst(order, |chains|, b) !! Items(chains[b])
  {
    ChainIsHome(order, chains, b);
    hide Homed;
    assert InFirst(order, |chains|, b + 1) == InFirst(order, |chains|, b) + Items(chains[b]);
  }

  lemma ChainIsHome<V(!new)>(order: seq<Item<V>>, chains: seq<seq<Item<V>>>, b: nat)
    requires Homed(order, chains) && b < |chains|
    ensures forall x :: x in chains[b] <==> x in order && x.hashv % |chains| == b
  {
  }

  lemma HomedMore<V(!new)>(order: seq<Item<V>>, chains: seq<seq<Item<V>>>, x: Item<V>)
    requires Homed(order, chains)
    ensures var b := x.hashv % |chains|; Homed(order + [x], chains[b := [x] + chains[b]])
  {
    var b := x.hashv % |chains|;
    var longer := chains[b := [x] + chains[b]];
    forall i | 0 <= i < |order| + 1 ensures (order + [x])[i] in longer[(order + [x])[i].hashv % |longer|] {
      if i < |order| {
        assert order[i] in chains[order[i].hashv % |chains|];
      } else {
        assert longer[b][0] == x;
      }
    }
    assert forall y :: y in order ==> y in order + [x];
    assert (order + [x])[|order|] == x;
  }

  lemma StillIn<V(!new)>(s: seq<Item<V>>, k: nat, y: Item<V>)
    requires Distinct(s) && k < |s|
    ensures y in Without(s, k) <==> y in s && y != s[k]
  {
    var shorter := Without(s, k);
    if y in s && y != s[k] {
      var m :| 0 <= m < |s| && s[m] == y;
      assert shorter[if m < k then m else m - 1] == y;
    }
    if y in shorter {
      var m :| 0 <= m < |shorter| && shorter[m] == y;
      assert s[if m < k then m else m + 1] == y;
    }
  }

  lemma HomedLess<V(!new)>(order: seq<Item<V>>, chains: seq<seq<Item<V>>>, k: nat, j: nat)
    requires Homed(order, chains) && Distinct(order) && k < |order|
    requires var b := order[k].hashv % |chains|; j < |chains[b]| && chains[b][j] == order[k] && Distinct(chains[b])
    ensures var b := order[k].hashv % |chains|; Homed(Without(order, k), chains[b := Without(chains[b], j)])
  {
    var b, x := order[k].hashv % |chains|, order[k];
    var fewer: seq<seq<Item<V>>>, rest := chains[b := Without(chains[b], j)], Without(order, k);
    forall c, y: Item<V> | 0 <= c < |chains|
      ensures y in fewer[c] <==> y in rest && y.hashv % |chains| == c
    {
      ChainIsHome(order, chains, c);
      StillIn(order, k, y);
      StillIn(chains[b], j, y);
    }
    HomedFrom(rest, fewer);
  }

  lemma HomedFrom<V(!new)>(order: seq<Item<V>>, chains: seq<seq<Item<V>>>)
    requires |chains| > 0
    requires forall c, y: Item<V> :: 0 <= c < |chains| ==> (y in chains[c] <==> y in order && y.hashv % |chains| == c)
    ensures Homed(order, chains)
  {
  }

  // ----- moving the items to twice as many buckets -----

  function Mult(count: nat, ideal: nat): nat {
    if count > ideal && ideal > 0 then count / ideal else 0
  }

  lemma MultLonger(count: nat, ideal: nat)
    requires ideal > 0
    ensures Mult(count + 1, ideal) == if count + 1 > ideal then (count + 1) / ideal else Mult(count, ideal)
  {
  }

  /** The new buckets hold exactly the items of `done`, and count those past the ideal length. */
  ghost predicate NewBuckets<V(!new)>(nb: array<Bucket<V>>, nc: seq<seq<Item<V>>>, done: seq<Item<V>>, ideal: nat)
    reads nb, done`hhNext, done`hhPrev
  {
    && |nc| == nb.Length && Homed(done, nc)
    && forall c :: 0 <= c < |nc| ==> BucketOk(nb[c], nc[c], ideal)
  }

  ghost predicate BucketOk<V(!new)>(bucket: Bucket<V>, chain: seq<Item<V>>, ideal: nat)
    reads chain`hhNext, chain`hhPrev
  {
    ChainLinked(chain) && bucket == Bucket(First(chain), |chain|, Mult(|chain|, ideal))
  }

  ghost predicate Ahead(c: nat, i: nat, b: nat, k: nat) {
    c > b || (c == b && i >= k)
  }

  /** The items at and after place `k` of chain `b` have not been moved, the ones before have. */
  ghost predicate Remaining<V(!new)>(chains: seq<seq<Item<V>>>, b: nat, k: nat, done: seq<Item<V>>)
    reads set c, i | 0 <= c < |chains| && 0 <= i < |chains[c]| :: chains[c][i]
  {
    forall c, i :: 0 <= c < |chains| && 0 <= i < |chains[c]| ==>
      if Ahead(c, i, b, k) then chains[c][i] !in done && chains[c][i].hhNext == Following(chains[c], i)
      else chains[c][i] in done
  }

  /** The chains are pairwise disjoint and without repetition. */
  ghost predicate Separate<V(!new)>(chains: seq<seq<Item<V>>>) {
    && (forall c :: 0 <= c < |chains| ==> Distinct(chains[c]))
    && (forall c, d :: 0 <= c < d < |chains| ==> Disjoint(chains[c], chains[d]))
  }

  lemma NotAhead<V(!new)>(chains: seq<seq<Item<V>>>, b: nat, k: nat)
    requires Separate(chains) && b < |chains| && k < |chains[b]|
    ensures forall c, i :: 0 <= c < |chains| && 0 <= i < |chains[c]| && (c != b || i != k) ==>
              chains[c][i] != chains[b][k]
  {
  }

  lemma OneFewer<V(!new)>(chains: seq<seq<Item<V>>>, b: nat, k: nat, done: seq<Item<V>>)
    requires b < |chains| && k < |chains[b]|
    requires forall c, i :: 0 <= c < |chains| && 0 <= i < |chains[c]| && (c != b || i != k) ==>
               if Ahead(c, i, b, k)
               then chains[c][i] !in done && chains[c][i] != chains[b][k] &&
                 chains[c][i].hhNext == Following(chains[c], i)
               else chains[c][i] in done
    ensures Remaining(chains, b, k + 1, done + [chains[b][k]])
  {
    var longer := done + [chains[b][k]];
    forall c, i | 0 <= c < |chains| && 0 <= i < |chains[c]|
      ensures if Ahead(c, i, b, k + 1) then chains[c][i] !in longer && chains[c][i].hhNext == Following(chains[c], i)
              else chains[c][i] in longer
    {
      assert longer[|done|] == chains[b][k];
    }
  }

  lemma Elsewhere<V(!new)>(nc: seq<seq<Item<V>>>, done: seq<Item<V>>, x: Item<V>, c: nat)
    requires Homed(done, nc) && x !in done && c < |nc|
    ensures forall d :: 0 <= d < |nc| ==> x !in nc[d]
    ensures forall d :: 0 <= d < |nc| && d != c && nc[c] != [] ==> nc[c][0] !in nc[d]
    ensures nc[c] != [] ==> nc[c][0] in done
  {
    forall d | 0 <= d < |nc| ensures x !in nc[d] && (d != c && nc[c] != [] ==> nc[c][0] !in nc[d]) {
      ChainIsHome(done, nc, d);
    }
  }

  /** Put `x` into the bucket of its hash value, with the count and multiplier in `bucket`. */
  method LinkInto<V(!new)>(x: Item<V>, c: nat, bucket: Bucket<V>, nb: array<Bucket<V>>, ghost ideal: nat,
                     ghost nc: seq<seq<Item<V>>>, ghost done: seq<Item<V>>)
    requires NewBuckets(nb, nc, done, ideal) && x !in done && c < nb.Length && c == x.hashv % nb.Length
    requires bucket == Bucket(First(nc[c]), |nc[c]| + 1, Mult(|nc[c]| + 1, ideal))
    modifies nb, x`hhNext, x`hhPrev, if nc[c] == [] then {} else {nc[c][0]}`hhPrev
    ensures NewBuckets(nb, nc[c := [x] + nc[c]], done + [x], ideal)
  {
    Elsewhere(nc, done, x, c);
    HomedMore(done, nc, x);
    assert BucketOk(nb[c], nc[c], ideal);
    hide Homed, ChainLinked, Mult;
    PushFront(x, bucket.head, nc[c]);
    nb[c] := bucket.(head := x);
    assert BucketOk(nb[c], [x] + nc[c], ideal);
    hide BucketOk;
    ghost var nc' := nc[c := [x] + nc[c]];
    forall d | 0 <= d < |nc'| ensures BucketOk(nb[d], nc'[d], ideal) {
      if d != c { assert nc'[d] == nc[d] && old(BucketOk(nb[d], nc[d], ideal)); }
    }
  }

  /** Move the item at place `k` of chain `b` to the front of its new bucket. */
  method MoveItem<V(!new)>(x: Item<V>, nb: array<Bucket<V>>, ideal: nat, nonideal: nat, ghost nc: seq<seq<Item<V>>>,
                     ghost done: seq<Item<V>>, ghost chains: seq<seq<Item<V>>>, ghost b: nat, ghost k: nat)
      returns (nonideal': nat, ghost nc': seq<seq<Item<V>>>)
    requires ideal > 0 && NewBuckets(nb, nc, done, ideal) && Separate(chains) && Remaining(chains, b, k, done)
    requires b < |chains| && k < |chains[b]| && x == chains[b][k]
    modifies nb, x`hhNext, x`hhPrev, (set y | y in done)`hhPrev
    ensures NewBuckets(nb, nc', done + [x], ideal) && Remaining(chains, b, k + 1, done + [x])
    ensures nonideal' - nonideal == Excess(nc', ideal) - Excess(nc, ideal)
  {
    assert x !in done by { assert Ahead(b, k, b, k); }
    assert |nc| > 0;
    var c := x.hashv % nb.Length;
    nc' := nc[c := [x] + nc[c]];
    NotAhead(chains, b, k);
    Elsewhere(nc, done, x, c);
    ExcessLonger(nc, c, x, ideal);
    MultLonger(|nc[c]|, ideal);
    hide Homed, Excess, Separate, Distinct, Following, Mult, ChainLinked;
    var bucket := nb[c];
    assert BucketOk(bucket, nc[c], ideal);
    nonideal' := nonideal;
    bucket := bucket.(count := bucket.count + 1);
    if bucket.count > ideal {
      nonideal' := nonideal' + 1;
      bucket := bucket.(expandMult := bucket.count / ideal);
    }
    LinkInto(x, c, bucket, nb, ideal, nc, done);
    hide NewBuckets;
    OneFewer(chains, b, k, done);
  }

  lemma ChainDone<V(!new)>(chains: seq<seq<Item<V>>>, b: nat, done: seq<Item<V>>)
    requires b < |chains| && Remaining(chains, b, |chains[b]|, done)
    ensures Remaining(chains, b + 1, 0, done)
  {
    forall c, i | 0 <= c < |chains| && 0 <= i < |chains[c]|
      ensures if Ahead(c, i, b + 1, 0) then chains[c][i] !in done && chains[c][i].hhNext == Following(chains[c], i)
              else chains[c][i] in done
    {
      assert Ahead(c, i, b + 1, 0) <==> Ahead(c, i, b, |chains[b]|);
    }
  }

  lemma AllMoved<V(!new)>(order: seq<Item<V>>, chains: seq<seq<Item<V>>>, nb: array<Bucket<V>>, nc: seq<seq<Item<V>>>,
                          done: seq<Item<V>>, ideal: nat)
    requires Homed(order, chains) && NewBuckets(nb, nc, done, ideal) && Remaining(chains, |chains|, 0, done)
    requires AllIn(done, order)
    ensures NewBuckets(nb, nc, order, ideal)
  {
    forall i | 0 <= i < |order| ensures order[i] in nc[order[i].hashv % |nc|] {
      var x := order[i];
      var c := x.hashv % |chains|;
      assert x in chains[c];
      var j :| 0 <= j < |chains[c]| && chains[c][j] == x;
      assert !Ahead(c, j, |chains|, 0);
      assert chains[c][j] in done;
      ChainIsHome(done, nc, x.hashv % |nc|);
    }
    forall b, i | 0 <= b < |nc| && 0 <= i < |nc[b]| ensures nc[b][i].hashv % |nc| == b && nc[b][i] in order {
      assert nc[b][i] in done;
    }
  }

  lemma ChainsSeparate<V(!new)>(order: seq<Item<V>>, chains: seq<seq<Item<V>>>)
    requires Homed(order, chains) && forall b :: 0 <= b < |chains| ==> Distinct(chains[b])
    ensures Separate(chains)
  {
  }

  lemma NothingMoved<V(!new)>(chains: seq<seq<Item<V>>>)
    requires forall b :: 0 <= b < |chains| ==> ChainLinked(chains[b])
    ensures Remaining(chains, 0, 0, [])
  {
    forall c, i | 0 <= c < |chains| && 0 <= i < |chains[c]| ensures chains[c][i].hhNext == Following(chains[c], i) {
      assert ChainLinked(chains[c]);
    }
  }

  /** How long the chains of `n` buckets need to be for `items` items. */
  function IdealLength(items: nat, n: nat): nat
    requires n > 0
  {
    items / n + if items % n != 0 then 1 else 0
  }

  lemma IdealPositive(items: nat, n: nat)
    requires n > 0 && items > 0
    ensures IdealLength(items, n) > 0
  {
    IdealIsCeiling(items, n);
  }

  /** It is the quotient rounded up. */
  lemma IdealIsCeiling(items: nat, n: nat)
    requires n > 0
    ensures var ideal := IdealLength(items, n); items <= ideal * n < items + n && (items > 0 ==> ideal > 0)
  {
    var ideal := IdealLength(items, n);
    assert items == (items / n) * n + items % n;
    if items % n != 0 {
      assert ideal * n == (items / n) * n + n;
    }
  }

  lemma EmptyBuckets<V(!new)>(nb: array<Bucket<V>>, nc: seq<seq<Item<V>>>, ideal: nat)
    requires |nc| == nb.Length > 0 && forall c :: 0 <= c < |nc| ==> nc[c] == [] && nb[c] == Bucket(null, 0, 0)
    ensures NewBuckets(nb, nc, [], ideal) && Excess(nc, ideal) == 0
  {
    ExcessOfNone(nc, ideal);
    forall c | 0 <= c < |nc| ensures BucketOk(nb[c], nc[c], ideal) {}
  }

  lemma NextToMove<V(!new)>(order: seq<Item<V>>, chains: seq<seq<Item<V>>>, b: nat, k: nat, done: seq<Item<V>>)
    requires Homed(order, chains) && Remaining(chains, b, k, done) && b < |chains| && k < |chains[b]|
    ensures chains[b][k].hhNext == Following(chains[b], k) && chains[b][k] in order
  {
    assert Ahead(b, k, b, k);
  }

  ghost predicate AllIn<V(!new)>(done: seq<Item<V>>, order: seq<Item<V>>) {
    forall i :: 0 <= i < |done| ==> done[i] in order
  }

  lemma AllInMore<V(!new)>(done: seq<Item<V>>, order: seq<Item<V>>, x: Item<V>)
    requires AllIn(done, order) && x in order
    ensures AllIn(done + [x], order)
    ensures forall y :: y in done ==> y in order
  {
  }

  /** Move the items of chain `b`, from its first one on. */
  method MoveChain<V(!new)>(first: Item?<V>, nb: array<Bucket<V>>, ideal: nat, nonideal0: nat,
      ghost nc0: seq<seq<Item<V>>>, ghost done0: seq<Item<V>>, ghost chains: seq<seq<Item<V>>>, ghost b: nat,
      ghost order: seq<Item<V>>)
      returns (nonideal: nat, ghost nc: seq<seq<Item<V>>>, ghost done: seq<Item<V>>)
    requires ideal > 0 && NewBuckets(nb, nc0, done0, ideal) && Separate(chains) && Remaining(chains, b, 0, done0)
    requires b < |chains| && first == First(chains[b]) && Homed(order, chains) && AllIn(done0, order)
    requires nonideal0 == Excess(nc0, ideal)
    modifies nb, (set y | y in order)`hhNext, (set y | y in order)`hhPrev
    ensures NewBuckets(nb, nc, done, ideal) && Remaining(chains, b + 1, 0, done) && AllIn(done, order)
    ensures nonideal == Excess(nc, ideal)
  {
    hide Homed, Excess, Separate, Remaining, NewBuckets, AllIn;
    var thh := first;
    nonideal, nc, done := nonideal0, nc0, done0;
    ghost var k: nat := 0;
    while thh != null
      invariant k <= |chains[b]| && thh == (if k < |chains[b]| then chains[b][k] else null)
      invariant NewBuckets(nb, nc, done, ideal) && Remaining(chains, b, k, done) && AllIn(done, order)
      invariant nonideal == Excess(nc, ideal)
      decreases |chains[b]| - k
    {
      NextToMove(order, chains, b, k, done);
      AllInMore(done, order, thh);
      var next := thh.hhNext;
      nonideal, nc := MoveItem(thh, nb, ideal, nonideal, nc, done, chains, b, k);
      done := done + [thh];
      k := k + 1;
      thh := next;
    }
    ChainDone(chains, b, done);
  }

  /** Move all items to `nb`. */
  method MoveAll<V(!new)>(buckets: array<Bucket<V>>, nb: array<Bucket<V>>, ideal: nat,
                    ghost chains: seq<seq<Item<V>>>, ghost order: seq<Item<V>>)
      returns (nonideal: nat, ghost nc: seq<seq<Item<V>>>)
    requires |chains| == buckets.Length && buckets != nb && nb.Length > 0 && ideal > 0 && Homed(order, chains)
    requires forall b :: 0 <= b < |chains| ==> ChainLinked(chains[b]) && buckets[b].head == First(chains[b])
    requires forall c :: 0 <= c < nb.Length ==> nb[c] == Bucket(null, 0, 0)
    modifies nb, (set y | y in order)`hhNext, (set y | y in order)`hhPrev
    ensures NewBuckets(nb, nc, order, ideal) && nonideal == Excess(nc, ideal)
  {
    hide Excess, Separate, Homed, Remaining, NewBuckets;
    nonideal, nc := 0, seq(nb.Length, _ => []);
    ghost var done: seq<Item<V>> := [];
    ChainsSeparate(order, chains);
    NothingMoved(chains);
    EmptyBuckets(nb, nc, ideal);
    for b := 0 to buckets.Length
      invariant NewBuckets(nb, nc, done, ideal) && Remaining(chains, b, 0, done) && AllIn(done, order)
      invariant nonideal == Excess(nc, ideal)
    {
      nonideal, nc, done := MoveChain(buckets[b].head, nb, ideal, nonideal, nc, done, chains, b, order);
    }
    AllMoved(order, chains, nb, nc, done, ideal);
  }

  /** Each bucket's head and count agree with its chain, and the chains hold the items of `order`. */
  ghost predicate TableOk<V(!new)>(buckets: array<Bucket<V>>, log2: nat, order: seq<Item<V>>, chains: seq<seq<Item<V>>>)
    reads buckets, order`hhNext, order`hhPrev
  {
    && |chains| == buckets.Length == Pow2(log2)
    && Homed(order, chains)
    && forall b :: 0 <= b < |chains| ==>
         ChainLinked(chains[b]) && buckets[b].head == First(chains[b]) && buckets[b].count == |chains[b]|
  }

  lemma TableParts<V(!new)>(buckets: array<Bucket<V>>, log2: nat, order: seq<Item<V>>, chains: seq<seq<Item<V>>>)
    requires TableOk(buckets, log2, order, chains)
    ensures |chains| == buckets.Length == Pow2(log2) && 2 * buckets.Length == Pow2(log2 + 1) && Homed(order, chains)
    ensures forall b :: 0 <= b < |chains| ==> ChainLinked(chains[b]) && buckets[b].head == First(chains[b])
  {
  }

  /** A bucket's multiplier is how many ideal chains its chain is worth, if it is longer than one. */
  ghost predicate MultsOk<V(!new)>(buckets: array<Bucket<V>>, chains: seq<seq<Item<V>>>, ideal: nat)
    reads buckets
  {
    |chains| == buckets.Length && forall b :: 0 <= b < |chains| ==> buckets[b].expandMult == Mult(|chains[b]|, ideal)
  }

  lemma NewIsTable<V(!new)>(nb: array<Bucket<V>>, log2: nat, order: seq<Item<V>>, nc: seq<seq<Item<V>>>, ideal: nat)
    requires NewBuckets(nb, nc, order, ideal) && nb.Length == Pow2(log2)
    ensures TableOk(nb, log2, order, nc) && MultsOk(nb, nc, ideal)
  {
    forall b | 0 <= b < |nc| ensures BucketOk(nb[b], nc[b], ideal) {}
  }

  method FreshBuckets<V(!new)>(n: nat) returns (nb: array<Bucket<V>>)
    ensures fresh(nb) && nb.Length == n && forall c :: 0 <= c < n ==> nb[c] == Bucket(null, 0, 0)
  {
    nb := new Bucket<V>[n](_ => Bucket(null, 0, 0));
  }

  /** Twice as many buckets with the same items. */
  method Redistribute<V(!new)>(buckets: array<Bucket<V>>, log2: nat, items: nat, ghost chains: seq<seq<Item<V>>>,
      ghost order: seq<Item<V>>)
      returns (nb: array<Bucket<V>>, ideal: nat, nonideal: nat, ghost nc: seq<seq<Item<V>>>)
    requires TableOk(buckets, log2, order, chains) && items > 0
    modifies (set y | y in order)`hhNext, (set y | y in order)`hhPrev
    ensures fresh(nb) && TableOk(nb, log2 + 1, order, nc) && MultsOk(nb, nc, ideal)
    ensures nb.Length == 2 * buckets.Length > 0 && ideal == IdealLength(items, nb.Length)
    ensures nonideal == Excess(nc, ideal)
  {
    hide Homed, Excess, Mult, MultsOk, TableOk, ChainLinked, IdealLength, Pow2, NewBuckets, First;
    TableParts(buckets, log2, order, chains);
    nb := FreshBuckets(2 * buckets.Length);
    ideal := IdealLength(items, nb.Length);
    IdealPositive(items, nb.Length);
    nonideal, nc := MoveAll(buckets, nb, ideal, chains, order);
    NewIsTable(nb, log2 + 1, order, nc, ideal);
  }

  // ----- the list in the order of insertion -----

  method AppendList<V(!new)>(x: Item<V>, tail: Item<V>, ghost order: seq<Item<V>>)
    requires Linked(order) && order != [] && tail == Last(order) && x !in order
    modifies x`next, x`prev, tail`next
    ensures Linked(order + [x])
  {
    x.next := null;
    x.prev := tail;
    tail.next := x;
    ghost var longer := order + [x];
    forall i | 0 <= i < |longer| - 1 ensures longer[i].next == longer[i + 1] {
      assert longer[i] == order[i];
    }
    forall i | 0 <= i < |longer| ensures longer[i].prev == Before(longer, i) {
      if i < |order| { assert longer[i] == order[i]; }
    }
  }

  /** The neighbours of an item of the list are linked to each other; returns the new ends. */
  method Unlink<V(!new)>(x: Item<V>, head: Item<V>, tail: Item<V>, ghost order: seq<Item<V>>, ghost k: nat)
      returns (head': Item?<V>, tail': Item?<V>)
    requires Linked(order) && k < |order| && x == order[k] && head == First(order) && tail == Last(order)
    modifies (set y | y in order)`next, (set y | y in order)`prev
    ensures Linked(Without(order, k)) && head' == First(Without(order, k)) && tail' == Last(Without(order, k))
  {
    NextIsFollowing(order);
    assert x.prev == Before(order, k) && x.next == Following(order, k);
    Once(order, k);
    if k > 0 { Once(order, k - 1); }
    if k + 1 < |order| { Once(order, k + 1); }
    hide Distinct, Chained;
    head', tail' := head, tail;
    if x == tail {
      tail' := x.prev;
    }
    if x.prev != null {
      x.prev.next := x.next;
    } else {
      head' := x.next;
    }
    if x.next != null {
      x.next.prev := x.prev;
    }
    assert forall i :: 0 <= i < |order| && i != k + 1 ==> order[i].prev == Before(order, i);
    assert forall i :: 0 <= i < |order| && i + 1 != k ==> order[i].next == Following(order, i);
    assert k > 0 ==> order[k - 1].next == Following(order, k);
    assert k + 1 < |order| ==> order[k + 1].prev == Before(order, k);
    ShortenedList(order, k);
  }

  lemma NextIsFollowing<V(!new)>(s: seq<Item<V>>)
    requires Linked(s)
    ensures forall i {:trigger s[i].next} :: 0 <= i < |s| ==> s[i].next == Following(s, i)
  {
  }

  lemma Once<V(!new)>(s: seq<Item<V>>, k: nat)
    requires Distinct(s) && k < |s|
    ensures forall i :: 0 <= i < |s| && i != k ==> s[i] != s[k]
  {
  }

  lemma ShortenedList<V(!new)>(order: seq<Item<V>>, k: nat)
    requires Distinct(order) && k < |order|
    requires forall i :: 0 <= i < |order| && i != k + 1 ==> order[i].prev == Before(order, i)
    requires forall i :: 0 <= i < |order| && i + 1 != k ==> order[i].next == Following(order, i)
    requires k > 0 ==> order[k - 1].next == Following(order, k)
    requires k + 1 < |order| ==> order[k + 1].prev == Before(order, k)
    ensures Linked(Without(order, k))
  {
    WithoutDistinct(order, k);
    assert forall i :: 0 <= i < |order| - 1 ==> Following(order, i) == order[i + 1];
    hide Distinct, Without, Before;
    var shorter := Without(order, k);
    forall i | 0 <= i < |shorter|
      ensures shorter[i].prev == Before(shorter, i) && shorter[i].next == Following(shorter, i)
    {
      AroundWithout(order, k, i);
    }
    assert Chained(shorter);
  }

  // ----- adding to and removing from a bucket -----

  lemma OnlyItsBucket<V(!new)>(order: seq<Item<V>>, chains: seq<seq<Item<V>>>, x: Item<V>)
    requires Homed(order, chains)
    ensures var c := x.hashv % |chains|;
            forall d :: 0 <= d < |chains| && d != c ==> forall y :: y in chains[c] ==> y !in chains[d]
    ensures x !in order ==> forall d :: 0 <= d < |chains| ==> x !in chains[d]
    ensures x in order ==> x in chains[x.hashv % |chains|]
    ensures forall d, y :: 0 <= d < |chains| && y in chains[d] ==> y in order
  {
    var c := x.hashv % |chains|;
    ChainIsHome(order, chains, c);
    forall d | 0 <= d < |chains| ensures forall y :: y in chains[d] ==> y in order && y.hashv % |chains| == d {
      ChainIsHome(order, chains, d);
    }
  }

  method AddToBucket<V(!new)>(x: Item<V>, buckets: array<Bucket<V>>, ghost log2: nat, ghost order: seq<Item<V>>,
      ghost chains: seq<seq<Item<V>>>)
      returns (ghost chains': seq<seq<Item<V>>>)
    requires TableOk(buckets, log2, order, chains) && x !in order
    modifies buckets, x`hhNext, x`hhPrev, (set y | y in order)`hhPrev
    ensures TableOk(buckets, log2, order + [x], chains') && buckets.Length > 0
    ensures var c := x.hashv % buckets.Length;
            buckets[c] == old(buckets[c]).(head := x, count := old(buckets[c]).count + 1)
  {
    TableParts(buckets, log2, order, chains);
    assert |chains| > 0;
    var c := x.hashv % buckets.Length;
    OnlyItsBucket(order, chains, x);
    HomedMore(order, chains, x);
    hide Homed, ChainLinked;
    var bucket := buckets[c];
    PushFront(x, bucket.head, chains[c]);
    buckets[c] := bucket.(head := x, count := bucket.count + 1);
    chains' := chains[c := [x] + chains[c]];
    forall d | 0 <= d < |chains'|
      ensures ChainLinked(chains'[d]) && buckets[d].head == First(chains'[d]) && buckets[d].count == |chains'[d]|
    {
      if d != c { assert chains'[d] == chains[d]; }
    }
  }

  method RemoveFromBucket<V(!new)>(x: Item<V>, buckets: array<Bucket<V>>, ghost log2: nat, ghost order: seq<Item<V>>,
                             ghost chains: seq<seq<Item<V>>>, ghost k: nat) returns (ghost chains': seq<seq<Item<V>>>)
    requires TableOk(buckets, log2, order, chains) && Distinct(order) && k < |order| && order[k] == x
    modifies buckets, (set y | y in order)`hhNext, (set y | y in order)`hhPrev
    ensures TableOk(buckets, log2, Without(order, k), chains')
  {
    TableParts(buckets, log2, order, chains);
    assert |chains| > 0;
    var c := x.hashv % buckets.Length;
    OnlyItsBucket(order, chains, x);
    ghost var j :| 0 <= j < |chains[c]| && chains[c][j] == x;
    assert ChainLinked(chains[c]);
    HomedLess(order, chains, k, j);
    hide Homed, ChainLinked, Without;
    var bucket := buckets[c];
    var first := PullOut(x, bucket.head, chains[c], j);
    buckets[c] := bucket.(head := first, count := bucket.count - 1);
    chains' := chains[c := Without(chains[c], j)];
    forall d | 0 <= d < |chains'|
      ensures ChainLinked(chains'[d]) && buckets[d].head == First(chains'[d]) && buckets[d].count == |chains'[d]|
    {
      if d != c { assert chains'[d] == chains[d]; }
    }
  }

  lemma LinkedDistinct<V(!new)>(s: seq<Item<V>>)
    requires Linked(s)
    ensures Distinct(s)
  {
  }

  lemma LinksAt<V(!new)>(s: seq<Item<V>>, k: nat)
    requires Linked(s) && k < |s|
    ensures s[k].prev == null && s[k].next == null <==> |s| == 1
    ensures |s| == 1 ==> Without(s, k) == []
    ensures |s| > 1 ==> |Without(s, k)| == |s| - 1 > 0
  {
    assert s[k].prev == Before(s, k);
    assert k < |s| - 1 ==> s[k].next == s[k + 1];
  }

  lemma EndsAppended<V(!new)>(s: seq<Item<V>>, x: Item<V>)
    ensures First(s + [x]) == (if s == [] then x else First(s)) && Last(s + [x]) == x
  {
  }

  lemma TablePositive<V(!new)>(buckets: array<Bucket<V>>, log2: nat, order: seq<Item<V>>, chains: seq<seq<Item<V>>>)
    requires TableOk(buckets, log2, order, chains)
    ensures buckets.Length > 0
  {
  }

  lemma TableSameItems<V(!new)>(buckets: array<Bucket<V>>, log2: nat, order: seq<Item<V>>, order': seq<Item<V>>,
                                chains: seq<seq<Item<V>>>)
    requires TableOk(buckets, log2, order, chains) && multiset(order') == multiset(order)
    ensures TableOk(buckets, log2, order', chains)
  {
    forall x: Item<V> ensures x in order' <==> x in order {
      assert x in multiset(order') <==> x in multiset(order);
    }
    forall i | 0 <= i < |order'| ensures order'[i] in chains[order'[i].hashv % |chains|] {
      ChainIsHome(order, chains, order'[i].hashv % |chains|);
    }
    assert Homed(order', chains);
  }

  lemma NothingLinked<V(!new)>()
    ensures Linked<V>([])
  {
  }

  lemma OneItem<V(!new)>(x: Item<V>)
    requires x.next == null && x.prev == null
    ensures Linked([x])
  {
  }

  lemma EmptyTable<V(!new)>(buckets: array<Bucket<V>>, chains: seq<seq<Item<V>>>)
    requires buckets.Length == |chains| == 32
    requires forall b :: 0 <= b < 32 ==> buckets[b] == Bucket(null, 0, 0) && chains[b] == []
    ensures TableOk(buckets, INITIAL_LOG2, [], chains)
  {
    assert Pow2(5) == 2 * Pow2(4) == 4 * Pow2(3) == 8 * Pow2(2) == 16 * Pow2(1) == 32 * Pow2(0);
    assert Homed([], chains);
  }

  class Table<V(!new)> {
    var head: Item?<V>
    var tail: Item?<V>
    var numItems: nat
    var buckets: array<Bucket<V>>
    var log2: nat
    var idealMax: nat
    var nonideal: nat
    var ineffective: nat
    var noExpand: bool
    ghost var order: seq<Item<V>>
    ghost var chains: seq<seq<Item<V>>>

    /** Each bucket's head, count and chain agree. */
    ghost predicate ChainsOk()
      reads this, buckets, order`hhNext, order`hhPrev
    {
      TableOk(buckets, log2, order, chains)
    }

    ghost predicate Valid()
      reads this, buckets, order
    {
      && Linked(order) && head == First(order) && numItems == |order|
      && (order != [] ==> tail == Last(order) && ChainsOk())
    }

    /** Everything the debugging check compares: links both ways, bucket counts, and their sum. */
    lemma PassesCheck()
      requires Valid() && order != []
      ensures Linked(order) && head == order[0] && tail == order[|order| - 1] && numItems == |order|
      ensures |chains| == buckets.Length && Total(chains) == numItems
      ensures forall b :: 0 <= b < |chains| ==>
                ChainLinked(chains[b]) && buckets[b].head == First(chains[b]) && buckets[b].count == |chains[b]|
      ensures forall x, b :: 0 <= b < |chains| ==> (x in chains[b] <==> x in order && x.hashv % buckets.Length == b)
    {
      CountsAgree(order, chains);
      forall b | 0 <= b < |chains| ensures forall x :: x in chains[b] <==> x in order && x.hashv % buckets.Length == b {
        ChainIsHome(order, chains, b);
      }
    }

    constructor ()
      ensures Valid() && order == [] && fresh(buckets)
    {
      head, tail, numItems, buckets := null, null, 0, new Bucket[0];
      log2, idealMax, nonideal, ineffective, noExpand := 0, 0, 0, 0, false;
      order, chains := [], [];
    }

    /** The first item of the bucket's chain with this hash value and key. */
    method Find(key: string, hashv: nat) returns (out: Item?<V>)
      requires Valid()
      ensures out != null ==> out in order && out.hashv == hashv && out.key == key
      ensures out == null ==> forall x :: x in order ==> x.hashv != hashv || x.key != key
    {
      out := null;
      if head != null {
        var b := hashv % buckets.Length;
        out := buckets[b].head;
        ghost var i: nat := 0;
        ChainIsHome(order, chains, b);
        while out != null
          invariant i <= |chains[b]| && out == (if i < |chains[b]| then chains[b][i] else null)
          invariant forall j :: 0 <= j < i ==> chains[b][j].hashv != hashv || chains[b][j].key != key
          decreases |chains[b]| - i
        {
          assert ChainLinked(chains[b]) && chains[b][i] in order;
          if out.hashv == hashv && out.key == key { break; }
          out := out.hhNext;
          i := i + 1;
        }
      }
    }

    /** Double the number of buckets and redistribute the items, counting those past the ideal length. */
    method Expand()
      requires ChainsOk() && order != [] && Distinct(order) && numItems == |order|
      modifies this, (set y | y in order)`hhNext, (set y | y in order)`hhPrev
      ensures ChainsOk() && fresh(buckets) && log2 == old(log2) + 1
      ensures order == old(order) && head == old(head) && tail == old(tail) && numItems == old(numItems)
      ensures buckets.Length == 2 * old(buckets.Length) > 0 && idealMax == IdealLength(numItems, buckets.Length)
      ensures nonideal == Excess(chains, idealMax)
      ensures MultsOk(buckets, chains, idealMax)
      ensures ineffective == if nonideal > numItems / 2 then old(ineffective) + 1 else 0
      ensures noExpand == (old(noExpand) || ineffective > 1)
    {
      hide TableOk, Excess, Mult, Distinct, IdealLength, Pow2, MultsOk;
      var nb: array<Bucket<V>>;
      ghost var nc: seq<seq<Item<V>>>;
      nb, idealMax, nonideal, nc := Redistribute(buckets, log2, numItems, chains, order);
      buckets, chains, log2 := nb, nc, log2 + 1;
      ineffective := if nonideal > numItems / 2 then ineffective + 1 else 0;
      if ineffective > 1 {
        noExpand := true;
      }
    }

    /** A table for the first item. */
    method MakeTable()
      modifies this
      ensures fresh(buckets) && TableOk(buckets, log2, [], chains) && !noExpand
      ensures buckets.Length == 32 && forall b :: 0 <= b < 32 ==> buckets[b] == Bucket(null, 0, 0)
      ensures order == old(order) && head == old(head) && tail == old(tail) && numItems == 0
    {
      hide TableOk;
      buckets := FreshBuckets(32);
      numItems, log2, idealMax, nonideal, ineffective, noExpand := 0, INITIAL_LOG2, 0, 0, 0, false;
      chains := seq(32, _ => []);
      EmptyTable(buckets, chains);
    }

    /** Put the item at the end of the list, making a table if it is the first one. */
    method AddToList(x: Item<V>)
      requires Valid() && x !in order
      modifies this, x`next, x`prev, (set y | y in order)`next
      ensures Linked(order + [x]) && head == First(order + [x]) && tail == x
      ensures TableOk(buckets, log2, order, chains) && numItems == |order| && order == old(order)
      ensures buckets == old(buckets) || fresh(buckets)
      ensures order != [] ==> buckets == old(buckets) && noExpand == old(noExpand)
      ensures order == [] ==>
                !noExpand && buckets.Length == 32 && forall b :: 0 <= b < 32 ==> buckets[b] == Bucket(null, 0, 0)
    {
      hide TableOk, Linked;
      if head == null {
        x.next, x.prev := null, null;
        MakeTable();
        head, tail := x, x;
        OneItem(x);
        assert order + [x] == [x];
      } else {
        AppendList(x, tail, order);
        tail := x;
      }
    }

    /** With this item its bucket is too long, measured by the multiplier from the last expansion. */
    ghost predicate WorthExpanding(x: Item<V>)
      reads this, buckets
    {
      && buckets.Length > 0
      && var bucket := buckets[x.hashv % buckets.Length];
      bucket.count + 1 >= (bucket.expandMult + 1) * 10
    }

    /** Append the item to the list and put it into its bucket, which may then be worth an expansion. */
    method Add(x: Item<V>)
      requires Valid() && x !in order
      modifies this, buckets, x, (set y | y in order)`next, (set y | y in order)`hhNext, (set y | y in order)`hhPrev
      ensures Valid() && order == old(order) + [x] && (buckets == old(buckets) || fresh(buckets))
      ensures buckets.Length == if old(order) == [] then 32
                                else old(if WorthExpanding(x) && !noExpand then 2 * buckets.Length else buckets.Length)
    {
      hide TableOk, Linked;
      AddToList(x);
      EndsAppended(order, x);
      numItems := numItems + 1;
      chains := AddToBucket(x, buckets, log2, order, chains);
      order := order + [x];
      TablePositive(buckets, log2, order, chains);
      LinkedDistinct(order);
      var b := x.hashv % buckets.Length;
      var worth := buckets[b].count >= (buckets[b].expandMult + 1) * THRESHOLD;
      if worth && !noExpand {
        Expand();
      }
    }

    /** Take the item out of the list and its bucket; with the last item the table itself goes. */
    method Delete(x: Item<V>, ghost k: nat)
      requires Valid() && k < |order| && order[k] == x
      modifies this, buckets, (set y | y in order)`next, (set y | y in order)`prev,
               (set y | y in order)`hhNext, (set y | y in order)`hhPrev
      ensures Valid() && order == Without(old(order), k) && buckets == old(buckets)
    {
      hide TableOk, Linked, Without, Distinct;
      LinksAt(order, k);
      LinkedDistinct(order);
      if x.prev == null && x.next == null {
        head, numItems := null, 0;
        order, chains := [], [];
        NothingLinked<V>();
      } else {
        ghost var shorter := Without(order, k);
        head, tail := Unlink(x, head, tail, order, k);
        assert Linked(shorter);
        chains := RemoveFromBucket(x, buckets, log2, order, chains, k);
        assert Linked(shorter);
        order := shorter;
        numItems := numItems - 1;
        assert Linked(shorter);
      }
    }

    /** Put the item in place of the one with its hash value and key, if there is one. */
    method Replace(x: Item<V>) returns (replaced: Item?<V>)
      requires Valid() && x !in order
      modifies this, buckets, x, (set y | y in order)
      ensures Valid() && (buckets == old(buckets) || fresh(buckets))
      ensures replaced == null ==>
                && order == old(order) + [x]
                && forall y :: y in old(order) ==> y.hashv != x.hashv || y.key != x.key
      ensures replaced != null ==>
                && replaced.hashv == x.hashv && replaced.key == x.key
                && exists k: nat :: k < |old(order)| && old(order)[k] == replaced &&
                     order == Without(old(order), k) + [x]
    {
      hide Linked, TableOk;
      replaced := Find(x.key, x.hashv);
      if replaced != null {
        ghost var k :| 0 <= k < |order| && order[k] == replaced;
        Delete(replaced, k);
      }
      Add(x);
    }

    /** Put the list in the order of a stable merge sort; the buckets do not change. */
    method Sort(cmp: (V, V) -> int)
      requires Valid() && |order| < 0x1_0000_0000
      modifies this`head, this`tail, this`order, (set y | y in order)`next, (set y | y in order)`prev
      ensures Valid() && order == BottomUp(ByData(cmp), old(order), 1)
    {
      hide TableOk, BottomUp, Linked;
      if head != null {
        head, tail := HashSort.Sort(cmp, head, (set y | y in order), order);
        BottomUpItems(ByData(cmp), order, 1);
        TableSameItems(buckets, log2, order, BottomUp(ByData(cmp), order, 1), chains);
        order := BottomUp(ByData(cmp), order, 1);
      }
    }
  }

  /** Any number of items, added one after the other and then sorted. */
  method Build<V(!new)>(items: seq<Item<V>>, cmp: (V, V) -> int) returns (table: Table<V>)
    requires Distinct(items) && |items| < 0x1_0000_0000
    modifies (set x | x in items)
    ensures fresh(table) && table.Valid() && fresh(table.buckets)
    ensures table.order == BottomUp(ByData(cmp), items, 1)
  {
    hide Linked, TableOk, BottomUp, Distinct;
    table := new Table<V>();
    for i := 0 to |items|
      invariant fresh(table) && table.Valid() && fresh(table.buckets) && table.order == items[..i]
    {
      NextIsNew(items, i);
      assert items[..i + 1] == items[..i] + [items[i]];
      table.Add(items[i]);
    }
    assert items[..|items|] == items;
    table.Sort(cmp);
  }

  lemma NextIsNew<V(!new)>(items: seq<Item<V>>, i: nat)
    requires Distinct(items) && i < |items|
    ensures items[i] !in items[..i] && items[i] in items && forall x :: x in items[..i] ==> x in items
  {
  }
}

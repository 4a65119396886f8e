/** The hash's merge sort: it relinks the items of the insertion-order list in place. */
module HashSort {
  import opened MergeSorting

  /** An item with its two pairs of links: the insertion-order list, and the chain of its bucket. */
  class Item<V(!new)> {
    const data: V
    const key: string
    const hashv: nat
    var next: Item?<V>
    var prev: Item?<V>
    var hhNext: Item?<V>
    var hhPrev: Item?<V>

    constructor (data: V, key: string, hashv: nat)
      ensures this.data == data && this.key == key && this.hashv == hashv
    {
      this.data, this.key, this.hashv, next, prev, hhNext, hhPrev := data, key, hashv, null, null, null, null;
    }
  }

  function ByData<V(!new)>(cmp: (V, V) -> int): Order<Item<V>, V> {
    Order((x: Item<V>) => x.data, cmp)
  }

  function First<V(!new)>(s: seq<Item<V>>): Item?<V> {
    if s == [] then null else s[0]
  }

  function Last<V(!new)>(s: seq<Item<V>>): Item?<V> {
    if s == [] then null else s[|s| - 1]
  }

  ghost predicate Distinct<V(!new)>(s: seq<Item<V>>) {
    forall i, j :: 0 <= i < j < |s| ==> s[i] != s[j]
  }

  ghost predicate Disjoint<V(!new)>(s: seq<Item<V>>, t: seq<Item<V>>) {
    forall i, j :: 0 <= i < |s| && 0 <= j < |t| ==> s[i] != t[j]
  }

  ghost predicate From<V(!new)>(s: seq<Item<V>>, nodes: set<Item<V>>) {
    forall i :: 0 <= i < |s| ==> s[i] in nodes
  }

  /** Three lists without a common or repeated item, all from `nodes`. */
  ghost predicate Apart<V(!new)>(nodes: set<Item<V>>, a: seq<Item<V>>, b: seq<Item<V>>, c: seq<Item<V>>) {
    && Distinct(a) && Distinct(b) && Distinct(c) && Disjoint(a, b) && Disjoint(a, c) && Disjoint(b, c)
    && From(a, nodes) && From(b, nodes) && From(c, nodes)
  }

  lemma ApartMoves<V(!new)>(nodes: set<Item<V>>, a: seq<Item<V>>, b: seq<Item<V>>, c: seq<Item<V>>)
    requires Apart(nodes, a, b, c)
    ensures b != [] ==> Apart(nodes, a + [b[0]], b[1..], c) && b[0] in nodes
    ensures c != [] ==> Apart(nodes, a + [c[0]], b, c[1..]) && c[0] in nodes
  {
  }

  /** Each item's `next` is the following one; what the last one's is does not matter. */
  ghost predicate Chained<V(!new)>(s: seq<Item<V>>)
    reads s`next
  {
    forall i {:trigger s[i].next} :: 0 <= i < |s| - 1 ==> s[i].next == s[i + 1]
  }

  ghost predicate Ended<V(!new)>(s: seq<Item<V>>)
    reads s`next
  {
    Chained(s) && (s != [] ==> s[|s| - 1].next == null)
  }

  function Before<V(!new)>(s: seq<Item<V>>, i: nat): Item?<V>
    requires i <= |s|
  {
    if i == 0 then null else s[i - 1]
  }

  ghost predicate BackLinked<V(!new)>(s: seq<Item<V>>)
    reads s`prev
  {
    forall i {:trigger s[i].prev} :: 0 <= i < |s| ==> s[i].prev == Before(s, i)
  }

  /** A whole list: `next` and `prev` agree with the order of the items. */
  ghost predicate Linked<V(!new)>(s: seq<Item<V>>)
    reads s`next, s`prev
  {
    Distinct(s) && Ended(s) && BackLinked(s)
  }

  /** Append `e` to the list built so far. */
  method Emit<V(!new)>(list: Item?<V>, tail: Item?<V>, e: Item<V>, ghost nodes: set<Item<V>>,
                 ghost out: seq<Item<V>>, ghost ps: seq<Item<V>>, ghost rest: seq<Item<V>>) returns (list': Item?<V>)
    requires Apart(nodes, out + [e], ps, rest)
    requires Chained(out) && BackLinked(out) && Chained(ps) && Ended(rest)
    requires list == First(out) && tail == Last(out)
    modifies nodes`next, nodes`prev
    ensures Chained(out + [e]) && BackLinked(out + [e]) && Chained(ps) && Ended(rest)
    ensures list' == First(out + [e])
  {
    assert (out + [e])[|out|] == e && (tail != null ==> (out + [e])[|out| - 1] == tail);
    list' := list;
    if tail != null {
      tail.next := e;
    } else {
      list' := e;
    }
    e.prev := tail;
    ghost var whole := out + [e];
    forall i | 0 <= i < |whole| ensures whole[i].prev == Before(whole, i) {
      assert i > 0 ==> whole[i - 1] == out[i - 1];
      if i < |out| { assert whole[i] == out[i] && whole[i] != whole[|out|]; }
    }
  }

  /** Walk over at most `size` items; `psize` says how many, `q` is the item after them. */
  method Walk<V(!new)>(p: Item<V>, size: nat, ghost rest: seq<Item<V>>) returns (q: Item?<V>, psize: nat)
    requires Ended(rest) && rest != [] && p == rest[0] && size > 0
    ensures psize == |Take(rest, size)| && q == First(Drop(rest, size))
  {
    q, psize := p, 0;
    var i := 0;
    while i < size
      invariant i == psize <= size && psize < |rest| && q == rest[psize]
    {
      psize := psize + 1;
      assert q == rest[i] && (i + 1 < |rest| ==> rest[i].next == rest[i + 1]);
      q := q.next;
      if q == null { break; }
      i := i + 1;
    }
  }

  /** Merge the run of `psize` items at `p` with the run of at most `qsize` items at `q`. */
  method MergeRuns<V(!new)>(cmp: (V, V) -> int, p0: Item<V>, psize0: nat, q0: Item?<V>, qsize0: nat,
                      list0: Item?<V>, tail0: Item?<V>, ghost nodes: set<Item<V>>,
                      ghost out0: seq<Item<V>>, ghost ps0: seq<Item<V>>, ghost rest0: seq<Item<V>>)
      returns (list: Item?<V>, tail: Item?<V>, q: Item?<V>, ghost out: seq<Item<V>>)
    requires Apart(nodes, out0, ps0, rest0) && Chained(out0) && BackLinked(out0) && Chained(ps0) && Ended(rest0)
    requires psize0 == |ps0| > 0 && p0 == ps0[0] && q0 == First(rest0)
    requires list0 == First(out0) && tail0 == Last(out0)
    modifies nodes`next, nodes`prev
    ensures out == out0 + Merge(ByData(cmp), ps0, Take(rest0, qsize0))
    ensures Apart(nodes, out, [], Drop(rest0, qsize0))
    ensures Chained(out) && BackLinked(out) && Ended(Drop(rest0, qsize0))
    ensures list == First(out) && tail == Last(out) && q == First(Drop(rest0, qsize0))
  {
    hide Apart, Chained, Ended, BackLinked, Take, Drop, Merge;
    var p: Item?<V>, psize, qsize := p0, psize0, qsize0;
    list, tail, q, out := list0, tail0, q0, out0;
    ghost var ps, rest := ps0, rest0;
    while psize != 0 || (qsize != 0 && q != null)
      invariant Apart(nodes, out, ps, rest) && Chained(out) && BackLinked(out) && Chained(ps) && Ended(rest)
      invariant psize == |ps| && (psize > 0 ==> p == ps[0]) && q == First(rest)
      invariant list == First(out) && tail == Last(out)
      invariant out + Merge(ByData(cmp), ps, Take(rest, qsize)) == out0 + Merge(ByData(cmp), ps0, Take(rest0, qsize0))
      invariant Drop(rest, qsize) == Drop(rest0, qsize0)
      decreases psize + |rest|
    {
      ghost var o := ByData(cmp);
      ApartMoves(nodes, out, ps, rest);
      MergeStep(o, ps, rest, qsize);
      RunLinks(ps);
      ListLinks(rest);
      var e: Item?<V>;
      if psize != 0 && (qsize == 0 || q == null || cmp(p.data, q.data) <= 0) {
        e, p, psize := p, p.next, psize - 1;
        ps := ps[1..];
      } else {
        e, q, qsize := q, q.next, qsize - 1;
        rest := rest[1..];
      }
      list := Emit(list, tail, e, nodes, out, ps, rest);
      tail := e;
      AppendAssoc(out, e, Merge(o, ps, Take(rest, qsize)));
      out := out + [e];
    }
    NothingLeft(ByData(cmp), rest, qsize, out);
  }

  lemma AppendAssoc<T>(a: seq<T>, x: T, b: seq<T>)
    ensures a + ([x] + b) == (a + [x]) + b
  {
  }

  lemma RunLinks<V(!new)>(s: seq<Item<V>>)
    requires Chained(s)
    ensures s != [] ==> Chained(s[1..])
    ensures |s| > 1 ==> s[0].next == s[1]
  {
  }

  lemma ListLinks<V(!new)>(s: seq<Item<V>>)
    requires Ended(s)
    ensures s != [] ==> Ended(s[1..]) && s[0].next == First(s[1..])
  {
  }

  /** Which item a merge takes next, and what is left to merge. */
  lemma MergeStep<T, V>(o: Order<T, V>, ps: seq<T>, rest: seq<T>, qsize: nat)
    ensures var qs := Take(rest, qsize);
            if ps != [] && (qsize == 0 || rest == [] || o.Le(ps[0], rest[0])) then
              Merge(o, ps, qs) == [ps[0]] + Merge(o, ps[1..], qs)
            else if rest != [] && qsize != 0 then
              && Merge(o, ps, qs) == [rest[0]] + Merge(o, ps, Take(rest[1..], qsize - 1))
              && Drop(rest, qsize) == Drop(rest[1..], qsize - 1)
            else Merge(o, ps, qs) == []
  {
    if rest != [] && qsize != 0 {
      assert Take(rest, qsize)[1..] == Take(rest[1..], qsize - 1);
    }
  }

  lemma NothingLeft<T, V>(o: Order<T, V>, rest: seq<T>, qsize: nat, out: seq<T>)
    requires qsize == 0 || rest == []
    ensures out + Merge(o, [], Take(rest, qsize)) == out && Drop(rest, qsize) == rest
  {
  }

  /** One pass over the list at `list0`: merge its runs of length `size` in pairs. */
  method SortPass<V(!new)>(cmp: (V, V) -> int, list0: Item<V>, size: nat, ghost nodes: set<Item<V>>,
      ghost items: seq<Item<V>>)
      returns (list: Item?<V>, tail: Item?<V>, merges: nat)
    requires size > 0 && items != [] && list0 == items[0]
    requires Distinct(items) && From(items, nodes) && Ended(items)
    modifies nodes`next, nodes`prev
    ensures Linked(Pass(ByData(cmp), items, size)) && From(Pass(ByData(cmp), items, size), nodes)
    ensures list == First(Pass(ByData(cmp), items, size)) && tail == Last(Pass(ByData(cmp), items, size))
    ensures merges <= 1 <==> |items| <= 2 * size
  {
    hide Apart, Chained, BackLinked, Take, Drop, Merge, Pass;
    ghost var o := ByData(cmp);
    var p: Item?<V> := list0;
    list, tail, merges := null, null, 0;
    ghost var out, rest: seq<Item<V>> := [], items;
    NothingEmitted(nodes, items);
    while p != null
      invariant Apart(nodes, out, [], rest) && Chained(out) && BackLinked(out) && Ended(rest)
      invariant p == First(rest) && list == First(out) && tail == Last(out)
      invariant out + Pass(o, rest, size) == Pass(o, items, size)
      invariant merges == 0 ==> rest == items
      invariant merges == 1 ==> |rest| == if |items| <= 2 * size then 0 else |items| - 2 * size
      invariant merges > 1 ==> |items| > 2 * size
      decreases |rest|
    {
      merges := merges + 1;
      var q, psize := Walk(p, size, rest);
      ghost var ps, rest1 := Take(rest, size), Drop(rest, size);
      SplitRun(nodes, out, rest, size);
      PassStep(o, rest, size, out);
      list, tail, p, out := MergeRuns(cmp, p, psize, q, size, list, tail, nodes, out, ps, rest1);
      rest := Drop(rest1, size);
    }
    PassEnd(o, size, out);
    assert tail in nodes && Distinct(out) && From(out, nodes) by { ApartParts(nodes, out); }
    if tail != null {
      EndChain(out, tail);
    }
    assert Linked(out);
  }

  method EndChain<V(!new)>(ghost s: seq<Item<V>>, tail: Item<V>)
    requires s != [] && Distinct(s) && Chained(s) && BackLinked(s) && tail == Last(s)
    modifies tail`next
    ensures Linked(s)
  {
    tail.next := null;
  }

  lemma ApartParts<V(!new)>(nodes: set<Item<V>>, out: seq<Item<V>>)
    requires Apart(nodes, out, [], [])
    ensures Distinct(out) && From(out, nodes) && (out != [] ==> Last(out) in nodes)
  {
  }

  lemma NothingEmitted<V(!new)>(nodes: set<Item<V>>, items: seq<Item<V>>)
    requires Distinct(items) && From(items, nodes)
    ensures Apart(nodes, [], [], items) && Chained<V>([]) && BackLinked<V>([])
  {
  }

  lemma SplitRun<V(!new)>(nodes: set<Item<V>>, out: seq<Item<V>>, rest: seq<Item<V>>, size: nat)
    requires Apart(nodes, out, [], rest) && Ended(rest) && size > 0 && rest != []
    ensures Apart(nodes, out, Take(rest, size), Drop(rest, size)) && Chained(Take(rest, size))
    ensures Ended(Drop(rest, size))
    ensures Take(rest, size) != [] && Take(rest, size)[0] == rest[0]
    ensures |Drop(Drop(rest, size), size)| == if |rest| <= 2 * size then 0 else |rest| - 2 * size
  {
  }

  lemma PassStep<T, V>(o: Order<T, V>, s: seq<T>, size: nat, out: seq<T>)
    requires size > 0 && s != []
    ensures var pair := Merge(o, Take(s, size), Take(Drop(s, size), size));
            out + Pass(o, s, size) == (out + pair) + Pass(o, Drop(Drop(s, size), size), size)
  {
  }

  lemma PassEnd<T, V>(o: Order<T, V>, size: nat, out: seq<T>)
    requires size > 0
    ensures out + Pass(o, [], size) == out
  {
  }

  /** Sort the list by passes over runs of doubling length; `size` has the width of an unsigned int. */
  method Sort<V(!new)>(cmp: (V, V) -> int, head: Item<V>, ghost nodes: set<Item<V>>, ghost items: seq<Item<V>>)
      returns (list: Item<V>, tail: Item<V>)
    requires items != [] && head == items[0] && |items| < 0x1_0000_0000
    requires From(items, nodes) && Linked(items)
    modifies nodes`next, nodes`prev
    ensures Linked(BottomUp(ByData(cmp), items, 1)) && From(BottomUp(ByData(cmp), items, 1), nodes)
    ensures list == First(BottomUp(ByData(cmp), items, 1)) && tail == Last(BottomUp(ByData(cmp), items, 1))
  {
    hide Linked, Pass;
    ghost var o, at := ByData(cmp), items;
    list := head;
    var size, looping := 1, true;
    var first: Item?<V>, last: Item?<V>, merges := null, null, 0;
    while looping
      invariant at != [] && |at| == |items| && From(at, nodes) && Linked(at) && list == First(at)
      invariant looping ==> 0 < size < 0x1_0000_0000 && BottomUp(o, at, size) == BottomUp(o, items, 1)
      invariant !looping ==> at == BottomUp(o, items, 1) && last == Last(at)
      decreases looping, if |items| > size then |items| - size else 0
    {
      LinkedParts(at);
      first, last, merges := SortPass(cmp, list, size, nodes, at);
      at := Pass(o, at, size);
      list := first;
      if merges <= 1 {
        looping := false;
      }
      size := (size * 2) % 0x1_0000_0000;
    }
    tail := last;
  }

  lemma LinkedParts<V(!new)>(s: seq<Item<V>>)
    requires Linked(s)
    ensures Distinct(s) && Ended(s)
  {
  }
}

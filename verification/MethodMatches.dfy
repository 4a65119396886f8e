/**
  Looking up the methods that apply to a call at one world: the matches come with an interval of worlds in which
  the same lookup gives the same answer.
*/
module MethodMatches {
  import opened Wrappers

  /** Types and methods are identified by numbers; `ambiguous` lists the methods this one is ambiguous with. */
  datatype Entry = Entry(minWorld: nat, maxWorld: nat, meth: nat, matched: nat, env: nat,
                         covers: bool, allVariables: bool, ambiguous: Option<seq<nat>>)

  datatype Match = Match(matched: nat, env: nat, meth: nat)

  /** What subtyping and intersection say; they depend on no world. */
  datatype Types = Types(leaf: nat -> bool, subtype: (nat, nat) -> bool, signature: nat -> nat,
                         meet: nat -> Option<(nat, nat)>, leafQuery: bool)

  /** A negative limit means none. World 0 asks for all matches of all worlds. */
  datatype Query = Query(types: Types, limit: int, includeAmbiguous: bool, world: nat)

  /** `found` is None when there were more matches than the limit. */
  datatype Result = Result(found: Option<seq<Match>>, minValid: nat, maxValid: nat)

  // ----- one entry -----

  predicate Active(e: Entry, world: nat) {
    world == 0 || e.minWorld <= world <= e.maxWorld
  }

  /** The worlds of the interval in which the entry is active or not just as it is at `world`. */
  function Narrow(r: Result, e: Entry, world: nat): Result {
    if world == 0 then r
    else if world < e.minWorld then (if r.maxValid >= e.minWorld then r.(maxValid := e.minWorld - 1) else r)
    else if world > e.maxWorld then (if r.minValid <= e.maxWorld then r.(minValid := e.maxWorld + 1) else r)
    else
      r.(minValid := if r.minValid < e.minWorld then e.minWorld else r.minValid,
         maxValid := if r.maxValid > e.maxWorld then e.maxWorld else r.maxValid)
  }

  /** An earlier match on a leaf type already covers everything this entry matches. */
  predicate Shadowed(q: Query, e: Entry, found: seq<Match>) {
    && q.limit >= 0
    && exists i :: 0 <= i < |found| && q.types.leaf(found[i].matched) && q.types.subtype(e.matched, found[i].matched)
  }

  /** The ambiguous methods from number `j` on that overlap the query and have not been found yet. */
  function AmbiguousMatches(q: Query, ms: seq<nat>, found: seq<Match>, j: nat): seq<Match>
    requires j <= |ms|
    decreases |ms| - j
  {
    if j == |ms| then []
    else
      var rest := AmbiguousMatches(q, ms, found, j + 1);
      var meet := q.types.meet(ms[j]);
      if meet.None? then rest
      else
        var m := Match(meet.value.0, meet.value.1, ms[j]);
        if exists i :: 0 <= i < |found| && found[i].meth == ms[j] then rest
        else [m] + AmbiguousMatches(q, ms, found + [m], j + 1)
  }

  /** Some ambiguous method's signature covers everything this entry matches. */
  predicate NeverMatches(q: Query, e: Entry, ms: seq<nat>) {
    exists j :: 0 <= j < |ms| && q.types.meet(ms[j]).Some? && q.types.subtype(e.matched, q.types.signature(ms[j]))
  }

  /** The matches after an active entry, and whether the search ends with it. */
  function Consider(q: Query, e: Entry, found: seq<Match>): (r: (Option<seq<Match>>, bool)) {
    if Shadowed(q, e, found) then (Some(found), false)
    else
      var done := e.covers && e.allVariables;
      var wanted := !(e.covers && !e.allVariables && q.types.leafQuery);
      var check := wanted && e.ambiguous.Some? && (!q.includeAmbiguous || done);
      var more :=
        if check && q.includeAmbiguous then found + AmbiguousMatches(q, e.ambiguous.value, found, 0) else found;
      if !wanted || (check && !q.includeAmbiguous && NeverMatches(q, e, e.ambiguous.value)) then (Some(more), done)
      else if q.limit >= 0 && |more| >= q.limit then (None, true)
      else (Some(more + [Match(e.matched, e.env, e.meth)]), done)
  }

  // ----- all entries -----

  /** Run through the entries from number `k` on. */
  function Lookup(q: Query, es: seq<Entry>, k: nat, r: Result): Result
    requires k <= |es|
    decreases |es| - k
  {
    if k == |es| || r.found.None? then r
    else
      var r' := Narrow(r, es[k], q.world);
      if !Active(es[k], q.world) then Lookup(q, es, k + 1, r')
      else
        var (found, stop) := Consider(q, es[k], r.found.value);
        if stop then r'.(found := found) else Lookup(q, es, k + 1, r'.(found := found))
  }

  /** How many entries are looked at. */
  function Looked(q: Query, es: seq<Entry>, k: nat, r: Result): (n: nat)
    requires k <= |es|
    ensures k <= n <= |es|
    decreases |es| - k
  {
    if k == |es| || r.found.None? then k
    else
      var r' := Narrow(r, es[k], q.world);
      if !Active(es[k], q.world) then Looked(q, es, k + 1, r')
      else
        var (found, stop) := Consider(q, es[k], r.found.value);
        if stop then k + 1 else Looked(q, es, k + 1, r'.(found := found))
  }

  predicate Holds(r: Result, world: nat) {
    r.minValid <= world <= r.maxValid
  }

  lemma {:induction false} IntervalShrinks(q: Query, es: seq<Entry>, k: nat, r: Result)
    requires k <= |es|
    ensures r.minValid <= Lookup(q, es, k, r).minValid && Lookup(q, es, k, r).maxValid <= r.maxValid
    ensures q.world != 0 && Holds(r, q.world) ==> Holds(Lookup(q, es, k, r), q.world)
    decreases |es| - k
  {
    if k < |es| && r.found.Some? {
      var r' := Narrow(r, es[k], q.world);
      if !Active(es[k], q.world) {
        IntervalShrinks(q, es, k + 1, r');
      } else {
        var (found, stop) := Consider(q, es[k], r.found.value);
        if !stop { IntervalShrinks(q, es, k + 1, r'.(found := found)); }
      }
    }
  }

  lemma SameActivity(r: Result, e: Entry, world: nat, other: nat)
    requires world != 0 && other != 0 && Holds(r, world) && Holds(Narrow(r, e, world), other)
    ensures Active(e, other) <==> Active(e, world)
    ensures e.minWorld <= e.maxWorld + 1 ==> Narrow(r, e, other) == Narrow(r, e, world)
  {
  }

  /** Anywhere in the interval returned, the same lookup gives the same matches, whatever interval it starts from. */
  lemma {:induction false} SameMatches(q: Query, es: seq<Entry>, k: nat, r: Result, r2: Result, other: nat)
    requires k <= |es| && q.world != 0 && other != 0 && Holds(r, q.world) && Holds(Lookup(q, es, k, r), other)
    requires r2.found == r.found
    ensures Lookup(q.(world := other), es, k, r2).found == Lookup(q, es, k, r).found
    decreases |es| - k
  {
    hide Consider, Narrow;
    if k < |es| && r.found.Some? {
      var r', r2' := Narrow(r, es[k], q.world), Narrow(r2, es[k], other);
      NarrowKeeps(r, es[k], q.world);
      NarrowKeeps(r2, es[k], other);
      if !Active(es[k], q.world) {
        IntervalShrinks(q, es, k + 1, r');
        SameActivity(r, es[k], q.world, other);
        SameMatches(q, es, k + 1, r', r2', other);
      } else {
        var (found, stop) := Consider(q, es[k], r.found.value);
        ConsiderSame(q, es[k], r.found.value, other);
        IntervalShrinks(q, es, k + 1, r'.(found := found));
        SameActivity(r, es[k], q.world, other);
        if !stop { SameMatches(q, es, k + 1, r'.(found := found), r2'.(found := found), other); }
      }
    }
  }

  lemma NarrowKeeps(r: Result, e: Entry, world: nat)
    ensures Narrow(r, e, world).found == r.found
    ensures world != 0 && Holds(r, world) ==> Holds(Narrow(r, e, world), world)
  {
  }

  /** If no range is upside down by more than being empty, the interval is the same as well. */
  lemma {:induction false} SameInterval(q: Query, es: seq<Entry>, k: nat, r: Result, other: nat)
    requires k <= |es| && q.world != 0 && other != 0 && Holds(r, q.world) && Holds(Lookup(q, es, k, r), other)
    requires forall j :: 0 <= j < |es| ==> es[j].minWorld <= es[j].maxWorld + 1
    ensures Lookup(q.(world := other), es, k, r) == Lookup(q, es, k, r)
    decreases |es| - k
  {
    hide Consider, Narrow;
    if k < |es| && r.found.Some? {
      var r' := Narrow(r, es[k], q.world);
      NarrowKeeps(r, es[k], q.world);
      if !Active(es[k], q.world) {
        IntervalShrinks(q, es, k + 1, r');
        SameActivity(r, es[k], q.world, other);
        SameInterval(q, es, k + 1, r', other);
      } else {
        var (found, stop) := Consider(q, es[k], r.found.value);
        ConsiderSame(q, es[k], r.found.value, other);
        IntervalShrinks(q, es, k + 1, r'.(found := found));
        SameActivity(r, es[k], q.world, other);
        if !stop { SameInterval(q, es, k + 1, r'.(found := found), other); }
      }
    }
  }

  lemma ConsiderSame(q: Query, e: Entry, found: seq<Match>, other: nat)
    ensures Consider(q.(world := other), e, found) == Consider(q, e, found)
  {
    if e.ambiguous.Some? { AmbiguousSame(q, e.ambiguous.value, found, 0, other); }
  }

  lemma {:induction false} AmbiguousSame(q: Query, ms: seq<nat>, found: seq<Match>, j: nat, other: nat)
    requires j <= |ms|
    ensures AmbiguousMatches(q.(world := other), ms, found, j) == AmbiguousMatches(q, ms, found, j)
    decreases |ms| - j
  {
    if j < |ms| {
      AmbiguousSame(q, ms, found, j + 1, other);
      var meet := q.types.meet(ms[j]);
      if meet.Some? { AmbiguousSame(q, ms, found + [Match(meet.value.0, meet.value.1, ms[j])], j + 1, other); }
    }
  }

  /**
    Just outside the interval, within the one asked for, some entry looked at is active when it was not, or
    the other way round.
  */
  lemma {:induction false} CannotBeWider(q: Query, es: seq<Entry>, k: nat, r: Result, other: nat) returns (i: nat)
    requires k <= |es| && q.world != 0 && Holds(r, q.world) && Holds(r, other) && other != 0
    requires other + 1 == Lookup(q, es, k, r).minValid || other == Lookup(q, es, k, r).maxValid + 1
    requires forall j :: 0 <= j < |es| ==> es[j].minWorld <= es[j].maxWorld
    ensures k <= i < Looked(q, es, k, r) && (Active(es[i], other) <==> !Active(es[i], q.world))
    decreases |es| - k
  {
    var r' := Narrow(r, es[k], q.world);
    if Active(es[k], other) <==> !Active(es[k], q.world) {
      i := k;
    } else if !Active(es[k], q.world) {
      IntervalShrinks(q, es, k + 1, r');
      i := CannotBeWider(q, es, k + 1, r', other);
    } else {
      var (found, stop) := Consider(q, es[k], r.found.value);
      IntervalShrinks(q, es, k + 1, r'.(found := found));
      i := CannotBeWider(q, es, k + 1, r'.(found := found), other);
    }
  }

  /** Never more matches than the limit. */
  lemma {:induction false} WithinLimit(q: Query, es: seq<Entry>, k: nat, r: Result)
    requires k <= |es| && q.limit >= 0 && (r.found.Some? ==> |r.found.value| <= q.limit)
    ensures var found := Lookup(q, es, k, r).found; found.Some? ==> |found.value| <= q.limit
    decreases |es| - k
  {
    if k < |es| && r.found.Some? {
      var r' := Narrow(r, es[k], q.world);
      if !Active(es[k], q.world) {
        WithinLimit(q, es, k + 1, r');
      } else {
        var (found, stop) := Consider(q, es[k], r.found.value);
        if !stop { WithinLimit(q, es, k + 1, r'.(found := found)); }
      }
    }
  }

  /** World 0 may lie in the interval returned, but asks a different question. */
  lemma ZeroIsDifferent()
    ensures exists q: Query, es: seq<Entry>, r: Result ::
              && q.world != 0 && Holds(r, q.world) && Holds(Lookup(q, es, 0, r), 0)
              && Lookup(q.(world := 0), es, 0, r).found != Lookup(q, es, 0, r).found
  {
    var q := Query(Types(_ => false, (_, _) => false, _ => 0, _ => None, false), -1, false, 1);
    var es := [Entry(5, 10, 0, 0, 0, true, true, None)];
    var r := Result(Some([]), 0, 20);
    var r' := Narrow(r, es[0], 1);
    assert r' == Result(Some([]), 0, 4) && Lookup(q, es, 1, r') == r';
    var (found, stop) := Consider(q.(world := 0), es[0], []);
    assert [] + [Match(0, 0, 0)] == [Match(0, 0, 0)];
    assert stop && found.Some? && found.value == [Match(0, 0, 0)];
    assert Lookup(q, es, 0, r).found != Lookup(q.(world := 0), es, 0, r).found;
  }

  // ----- the visitor -----

  class Visitor {
    const query: Query
    var found: seq<Match>
    var tooMany: bool
    var minValid: nat
    var maxValid: nat

    constructor (query: Query, minValid: nat, maxValid: nat)
      ensures this.query == query && Current() == Result(Some([]), minValid, maxValid)
    {
      this.query, found, tooMany, this.minValid, this.maxValid := query, [], false, minValid, maxValid;
    }

    ghost function Current(): Result
      reads this
    {
      Result(if tooMany then None else Some(found), minValid, maxValid)
    }

    method IsShadowed(e: Entry) returns (skip: bool)
      ensures skip == Shadowed(query, e, found)
    {
      skip := false;
      if query.limit >= 0 {
        for i := 0 to |found|
          invariant !skip && forall j :: 0 <= j < i ==>
                      !(query.types.leaf(found[j].matched) && query.types.subtype(e.matched, found[j].matched))
        {
          if query.types.leaf(found[i].matched) && query.types.subtype(e.matched, found[i].matched) {
            skip := true;
            break;
          }
        }
      }
    }

    /** Go through the methods the entry's one is ambiguous with; returns whether the entry may still match. */
    method CheckAmbiguous(e: Entry, ms: seq<nat>) returns (matches: bool)
      requires !tooMany
      modifies this`found
      ensures found ==
              if query.includeAmbiguous then old(found) + AmbiguousMatches(query, ms, old(found), 0) else old(found)
      ensures matches == (query.includeAmbiguous || !NeverMatches(query, e, ms))
    {
      ghost var goal := found + AmbiguousMatches(query, ms, found, 0);
      ghost var start := found;
      matches := true;
      for j := 0 to |ms|
        invariant matches
        invariant if query.includeAmbiguous then found + AmbiguousMatches(query, ms, found, j) == goal
                  else found == start
        invariant !query.includeAmbiguous ==> forall i :: 0 <= i < j ==>
                    !(query.types.meet(ms[i]).Some? && query.types.subtype(e.matched, query.types.signature(ms[i])))
      {
        var meet := query.types.meet(ms[j]);
        if meet.Some? {
          if query.includeAmbiguous {
            var k := 0;
            while k < |found|
              invariant k <= |found| && forall i :: 0 <= i < k ==> found[i].meth != ms[j]
            {
              if found[k].meth == ms[j] { break; }
              k := k + 1;
            }
            if k >= |found| {
              ghost var rest := AmbiguousMatches(query, ms, found + [Match(meet.value.0, meet.value.1, ms[j])], j + 1);
              AppendOne(found, Match(meet.value.0, meet.value.1, ms[j]), rest);
              found := found + [Match(meet.value.0, meet.value.1, ms[j])];
            }
          } else if query.types.subtype(e.matched, query.types.signature(ms[j])) {
            matches := false;
            break;
          }
        }
      }
    }

    /** One entry; returns whether to go on. */
    method Visit(e: Entry) returns (more: bool)
      requires !tooMany
      modifies this
      ensures if !Active(e, query.world) then more && Current() == Narrow(old(Current()), e, query.world)
              else
                var (after, stop) := Consider(query, e, old(found));
                more == !stop && Current() == Narrow(old(Current()), e, query.world).(found := after)
      ensures more ==> !tooMany
    {
      hide Shadowed, AmbiguousMatches, NeverMatches;
      if query.world != 0 {
        if query.world < e.minWorld {
          if maxValid >= e.minWorld { maxValid := e.minWorld - 1; }
          return true;
        } else if query.world > e.maxWorld {
          if minValid <= e.maxWorld { minValid := e.maxWorld + 1; }
          return true;
        } else {
          if minValid < e.minWorld { minValid := e.minWorld; }
          if maxValid > e.maxWorld { maxValid := e.maxWorld; }
        }
      }
      var skip := IsShadowed(e);
      if !skip {
        var done, matches := false, true;
        if e.covers {
          if !e.allVariables {
            matches := !query.types.leafQuery;
          } else {
            done := true;
          }
        }
        if matches && e.ambiguous.Some? && (!query.includeAmbiguous || done) {
          matches := CheckAmbiguous(e, e.ambiguous.value);
        }
        if matches {
          if query.limit >= 0 && |found| >= query.limit {
            tooMany := true;
            return false;
          }
          found := found + [Match(e.matched, e.env, e.meth)];
        }
        if done { return false; }
      }
      return true;
    }
  }

  lemma AppendOne<T>(a: seq<T>, x: T, b: seq<T>)
    ensures a + ([x] + b) == (a + [x]) + b
  {
  }

  /** Run the visitor over all entries. */
  method FindMatches(query: Query, es: seq<Entry>, minValid: nat, maxValid: nat) returns (r: Result)
    ensures r == Lookup(query, es, 0, Result(Some([]), minValid, maxValid))
  {
    hide Consider, Narrow;
    var visitor := new Visitor(query, minValid, maxValid);
    ghost var goal := Lookup(query, es, 0, visitor.Current());
    var k, more := 0, true;
    while more && k < |es|
      invariant k <= |es| && visitor.query == query && (more ==> !visitor.tooMany)
      invariant if more then Lookup(query, es, k, visitor.Current()) == goal else visitor.Current() == goal
    {
      ghost var before := visitor.Current();
      NarrowKeeps(before, es[k], query.world);
      more := visitor.Visit(es[k]);
      k := k + 1;
    }
    r := Result(if visitor.tooMany then None else Some(visitor.found), visitor.minValid, visitor.maxValid);
  }
}

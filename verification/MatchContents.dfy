/** What a method lookup finds, entry by entry, and what its limit does to it. */
module MatchContents {
  import opened Wrappers
  import opened MethodMatches

  // ----- the limit cuts, and does nothing else -----

  lemma {:induction false} AmbiguousSize(q: Query, ms: seq<nat>, found: seq<Match>, j: nat)
    requires j <= |ms|
    ensures |AmbiguousMatches(q, ms, found, j)| <= |ms| - j
    decreases |ms| - j
  {
    if j < |ms| {
      AmbiguousSize(q, ms, found, j + 1);
      var meet := q.types.meet(ms[j]);
      if meet.Some? { AmbiguousSize(q, ms, found + [Match(meet.value.0, meet.value.1, ms[j])], j + 1); }
    }
  }

  lemma {:induction false} AmbiguousSameLimit(q: Query, ms: seq<nat>, found: seq<Match>, j: nat, limit: int)
    requires j <= |ms|
    ensures AmbiguousMatches(q.(limit := limit), ms, found, j) == AmbiguousMatches(q, ms, found, j)
    decreases |ms| - j
  {
    if j < |ms| {
      AmbiguousSameLimit(q, ms, found, j + 1, limit);
      var meet := q.types.meet(ms[j]);
      if meet.Some? {
        AmbiguousSameLimit(q, ms, found + [Match(meet.value.0, meet.value.1, ms[j])], j + 1, limit);
      }
    }
  }

  /** At one entry: the same outcome as with a larger limit, as long as it fits. */
  lemma ConsiderCut(q: Query, e: Entry, found: seq<Match>, limit: int)
    requires 0 <= |found| <= q.limit <= limit
    ensures var (cut, stop), (full, stop') := Consider(q, e, found), Consider(q.(limit := limit), e, found);
            if full.Some? && |full.value| <= q.limit then cut == full && stop == stop' else cut == None && stop
  {
    if e.ambiguous.Some? { AmbiguousSameLimit(q, e.ambiguous.value, found, 0, limit); }
  }

  lemma {:induction false} LookupGrows(q: Query, es: seq<Entry>, k: nat, r: Result)
    requires k <= |es| && r.found.Some?
    ensures Lookup(q, es, k, r).found.Some? ==> |r.found.value| <= |Lookup(q, es, k, r).found.value|
    decreases |es| - k
  {
    if k < |es| {
      var r' := Narrow(r, es[k], q.world);
      if !Active(es[k], q.world) {
        LookupGrows(q, es, k + 1, r');
      } else {
        var (found, stop) := Consider(q, es[k], r.found.value);
        if !stop && found.Some? { LookupGrows(q, es, k + 1, r'.(found := found)); }
      }
    }
  }

  /** A lookup gives what the same lookup with a larger limit gives, if that fits the limit, and gives up if not. */
  lemma {:induction false} LimitOnlyCuts(q: Query, es: seq<Entry>, k: nat, r: Result, limit: int)
    requires k <= |es| && r.found.Some? && |r.found.value| <= q.limit <= limit
    ensures var cut, full := Lookup(q, es, k, r), Lookup(q.(limit := limit), es, k, r);
            if full.found.Some? && |full.found.value| <= q.limit then cut == full else cut.found == None
    decreases |es| - k
  {
    hide Consider, Narrow;
    if k < |es| {
      var r' := Narrow(r, es[k], q.world);
      NarrowKeeps(r, es[k], q.world);
      if !Active(es[k], q.world) {
        LimitOnlyCuts(q, es, k + 1, r', limit);
      } else {
        ConsiderCut(q, es[k], r.found.value, limit);
        var (full, stop) := Consider(q.(limit := limit), es[k], r.found.value);
        if full.Some? && !stop {
          LookupGrows(q.(limit := limit), es, k + 1, r'.(found := full));
          if |full.value| <= q.limit { LimitOnlyCuts(q, es, k + 1, r'.(found := full), limit); }
        }
      }
    }
  }

  /** How many matches the entries from number `k` on can give. */
  function Room(q: Query, es: seq<Entry>, k: nat): nat
    requires k <= |es|
    decreases |es| - k
  {
    if k == |es| then 0
    else
      var ambiguous := if q.includeAmbiguous && es[k].ambiguous.Some? then |es[k].ambiguous.value| else 0;
      1 + ambiguous + Room(q, es, k + 1)
  }

  lemma {:induction false} OneForEach(q: Query, es: seq<Entry>, k: nat)
    requires k <= |es| && (q.includeAmbiguous ==> forall j :: 0 <= j < |es| ==> es[j].ambiguous.None?)
    ensures Room(q, es, k) == |es| - k
    decreases |es| - k
  {
    if k < |es| { OneForEach(q, es, k + 1); }
  }

  lemma ConsiderFits(q: Query, e: Entry, found: seq<Match>)
    requires q.limit < 0 ||
             |found| + 1 + (if q.includeAmbiguous && e.ambiguous.Some? then |e.ambiguous.value| else 0) <= q.limit
    ensures var (after, _) := Consider(q, e, found);
            after.Some? &&
            |after.value| <=
            |found| + 1 + if q.includeAmbiguous && e.ambiguous.Some? then |e.ambiguous.value| else 0
  {
    if e.ambiguous.Some? { AmbiguousSize(q, e.ambiguous.value, found, 0); }
  }

  /** Without a limit, or with room for all that the entries can give, a lookup does not give up. */
  lemma {:induction false} NeverGivesUp(q: Query, es: seq<Entry>, k: nat, r: Result)
    requires k <= |es| && r.found.Some? && (q.limit < 0 || |r.found.value| + Room(q, es, k) <= q.limit)
    ensures Lookup(q, es, k, r).found.Some?
    decreases |es| - k
  {
    hide Consider, Narrow;
    if k < |es| {
      var r' := Narrow(r, es[k], q.world);
      NarrowKeeps(r, es[k], q.world);
      if !Active(es[k], q.world) {
        NeverGivesUp(q, es, k + 1, r');
      } else {
        ConsiderFits(q, es[k], r.found.value);
        var (found, stop) := Consider(q, es[k], r.found.value);
        if !stop { NeverGivesUp(q, es, k + 1, r'.(found := found)); }
      }
    }
  }

  /** A limited lookup gives up exactly when the lookup with room for everything finds more than the limit. */
  lemma GivesUpExactly(q: Query, es: seq<Entry>, minValid: nat, maxValid: nat)
    requires q.limit >= 0
    ensures var start := Result(Some([]), minValid, maxValid);
            var room := if q.limit < Room(q, es, 0) then Room(q, es, 0) else q.limit;
            var full := Lookup(q.(limit := room), es, 0, start);
            && full.found.Some?
            && if |full.found.value| <= q.limit then Lookup(q, es, 0, start) == full
               else Lookup(q, es, 0, start).found == None
  {
    var start := Result(Some([]), minValid, maxValid);
    var room := if q.limit < Room(q, es, 0) then Room(q, es, 0) else q.limit;
    SameRoom(q, es, 0, room);
    NeverGivesUp(q.(limit := room), es, 0, start);
    LimitOnlyCuts(q, es, 0, start, room);
  }

  lemma {:induction false} SameRoom(q: Query, es: seq<Entry>, k: nat, limit: int)
    requires k <= |es|
    ensures Room(q.(limit := limit), es, k) == Room(q, es, k)
    decreases |es| - k
  {
    if k < |es| { SameRoom(q, es, k + 1, limit); }
  }

  // ----- which entries are in the answer -----

  /** The entry is active and neither its type parameters nor a more specific ambiguous method rule it out. */
  predicate MayMatch(q: Query, e: Entry) {
    && Active(e, q.world)
    && !(e.covers && !e.allVariables && q.types.leafQuery)
    && (e.ambiguous.Some? && !q.includeAmbiguous ==>
          forall j :: 0 <= j < |e.ambiguous.value| && q.types.meet(e.ambiguous.value[j]).Some? ==>
            !q.types.subtype(e.matched, q.types.signature(e.ambiguous.value[j])))
  }

  /** The entry covers the whole query, so that nothing after it can apply. */
  predicate CoversQuery(q: Query, e: Entry) {
    Active(e, q.world) && e.covers && e.allVariables
  }

  /** In a limited lookup an earlier entry of the answer is on a leaf type that covers entry number `i`. */
  ghost predicate HiddenBehind(q: Query, es: seq<Entry>, at: seq<nat>, i: nat)
    requires i < |es| && forall j :: 0 <= j < |at| ==> at[j] < |es|
  {
    && q.limit >= 0
    && exists j :: 0 <= j < |at| && at[j] < i && CoveredBy(q, es[i], es[at[j]])
  }

  predicate CoveredBy(q: Query, e: Entry, earlier: Entry) {
    q.types.leaf(earlier.matched) && q.types.subtype(e.matched, earlier.matched)
  }

  /** The positions `at`, in order: of the first `n` entries exactly those that may match and are not hidden. */
  ghost predicate Chosen(q: Query, es: seq<Entry>, at: seq<nat>, n: nat) {
    && n <= |es|
    && (forall j :: 0 <= j < |at| ==> at[j] < n)
    && (forall j, k :: 0 <= j < k < |at| ==> at[j] < at[k])
    && (forall i: nat :: i < n ==> (i in at <==> MayMatch(q, es[i]) && !HiddenBehind(q, es, at, i)))
  }

  function MatchOf(e: Entry): Match {
    Match(e.matched, e.env, e.meth)
  }

  /** The matches of the entries at these positions. */
  ghost predicate MatchesAt(es: seq<Entry>, ms: seq<Match>, at: seq<nat>) {
    |at| == |ms| && forall j :: 0 <= j < |at| ==> at[j] < |es| && ms[j] == MatchOf(es[at[j]])
  }

  /** Nothing covers the query among the first `n` entries, save what is hidden. */
  ghost predicate Uncovered(q: Query, es: seq<Entry>, at: seq<nat>, n: nat)
    requires n <= |es| && forall j :: 0 <= j < |at| ==> at[j] < |es|
  {
    forall i: nat :: i < n ==> !CoversQuery(q, es[i]) || HiddenBehind(q, es, at, i)
  }

  lemma {:induction false} HiddenIsShadowed(q: Query, es: seq<Entry>, ms: seq<Match>, at: seq<nat>, k: nat)
    requires k < |es| && MatchesAt(es, ms, at) && forall j :: 0 <= j < |at| ==> at[j] < k
    ensures Shadowed(q, es[k], ms) <==> HiddenBehind(q, es, at, k)
  {
    if q.limit >= 0 && HiddenBehind(q, es, at, k) {
      var j :| 0 <= j < |at| && at[j] < k && CoveredBy(q, es[k], es[at[j]]);
      assert ms[j].matched == es[at[j]].matched;
    }
  }

  /** One more entry looked at. */
  lemma OneMoreChosen(q: Query, es: seq<Entry>, at: seq<nat>, k: nat)
    requires k < |es| && Chosen(q, es, at, k)
    ensures var taken := MayMatch(q, es[k]) && !HiddenBehind(q, es, at, k);
            var at' := if taken then at + [k] else at;
            && Chosen(q, es, at', k + 1)
            && (forall i: nat :: i <= k ==> (HiddenBehind(q, es, at', i) <==> HiddenBehind(q, es, at, i)))
  {
    hide MayMatch, HiddenBehind;
    var taken := MayMatch(q, es[k]) && !HiddenBehind(q, es, at, k);
    var at' := if taken then at + [k] else at;
    forall i: nat | i <= k ensures HiddenBehind(q, es, at', i) <==> HiddenBehind(q, es, at, i) {
      HiddenSame(q, es, at, at', i);
    }
    assert k !in at;
    assert forall i: nat :: i in at' <==> i in at || (taken && i == k);
  }

  lemma HiddenSame(q: Query, es: seq<Entry>, at: seq<nat>, at': seq<nat>, i: nat)
    requires i < |es| && (forall j :: 0 <= j < |at'| ==> at'[j] < |es|) && at <= at'
    requires forall j :: |at| <= j < |at'| ==> at'[j] >= i
    ensures HiddenBehind(q, es, at', i) <==> HiddenBehind(q, es, at, i)
  {
    if HiddenBehind(q, es, at, i) {
      var j :| 0 <= j < |at| && at[j] < i && CoveredBy(q, es[i], es[at[j]]);
      assert at'[j] == at[j];
    }
  }

  // ----- the ambiguous methods that are asked for -----

  /**
    `extra` holds, in order and once each, the ambiguous methods from number `j` on that overlap the query and are
    not found yet.
  */
  ghost predicate AddsAmbiguous(q: Query, ms: seq<nat>, found: seq<Match>, j: nat, extra: seq<Match>, from: seq<nat>) {
    && |from| == |extra|
    && (forall i :: 0 <= i < |from| ==> j <= from[i] < |ms| && IsMeet(q, ms[from[i]], extra[i]))
    && (forall i, k :: 0 <= i < k < |from| ==> from[i] < from[k] && extra[i].meth != extra[k].meth)
    && (forall i, k :: 0 <= i < |extra| && 0 <= k < |found| ==> extra[i].meth != found[k].meth)
    && (forall i :: j <= i < |ms| && q.types.meet(ms[i]).Some? ==> HasMethod(found, ms[i]) || HasMethod(extra, ms[i]))
  }

  predicate IsMeet(q: Query, m: nat, x: Match) {
    q.types.meet(m).Some? && x == Match(q.types.meet(m).value.0, q.types.meet(m).value.1, m)
  }

  ghost predicate HasMethod(found: seq<Match>, m: nat) {
    exists i :: 0 <= i < |found| && found[i].meth == m
  }

  lemma {:induction false} AmbiguousAdded(q: Query, ms: seq<nat>, found: seq<Match>, j: nat) returns (from: seq<nat>)
    requires j <= |ms|
    ensures AddsAmbiguous(q, ms, found, j, AmbiguousMatches(q, ms, found, j), from)
    decreases |ms| - j
  {
    from := [];
    if j < |ms| {
      var meet := q.types.meet(ms[j]);
      if meet.None? || HasMethod(found, ms[j]) {
        from := AmbiguousAdded(q, ms, found, j + 1);
      } else {
        var m := Match(meet.value.0, meet.value.1, ms[j]);
        var rest := AmbiguousAdded(q, ms, found + [m], j + 1);
        FirstAdded(q, ms, found, j, m, AmbiguousMatches(q, ms, found + [m], j + 1), rest);
        from := [j] + rest;
      }
    }
  }

  lemma FirstAdded(q: Query, ms: seq<nat>, found: seq<Match>, j: nat, m: Match, extra: seq<Match>, from: seq<nat>)
    requires j < |ms| && IsMeet(q, ms[j], m) && !HasMethod(found, ms[j])
    requires AddsAmbiguous(q, ms, found + [m], j + 1, extra, from)
    ensures AddsAmbiguous(q, ms, found, j, [m] + extra, [j] + from)
  {
    assert (found + [m])[|found|] == m;
    forall i, k | 0 <= i < |extra| && 0 <= k < |found| ensures extra[i].meth != found[k].meth {
      assert (found + [m])[k] == found[k];
    }
    forall i | j <= i < |ms| && q.types.meet(ms[i]).Some?
      ensures HasMethod(found, ms[i]) || HasMethod([m] + extra, ms[i])
    {
      MethodSplit(found, m, extra, ms[i]);
      assert ([m] + extra)[0] == m;
    }
  }

  lemma MethodSplit(found: seq<Match>, m: Match, extra: seq<Match>, x: nat)
    ensures HasMethod(found + [m], x) ==> HasMethod(found, x) || m.meth == x
    ensures HasMethod(extra, x) ==> HasMethod([m] + extra, x)
  {
    if HasMethod(extra, x) {
      var i :| 0 <= i < |extra| && extra[i].meth == x;
      assert ([m] + extra)[i + 1] == extra[i];
    }
  }

  // ----- the answer -----

  /** The ambiguous methods are added right before an entry that covers the query, and only if asked for. */
  ghost predicate Extra(q: Query, e: Entry, covering: bool, front: seq<Match>, extra: seq<Match>) {
    if covering && q.includeAmbiguous && e.ambiguous.Some?
    then exists from :: AddsAmbiguous(q, e.ambiguous.value, front, 0, extra, from)
    else extra == []
  }

  /** What happens at one active entry. */
  lemma ConsiderDecides(q: Query, es: seq<Entry>, ms: seq<Match>, at: seq<nat>, k: nat) returns (extra: seq<Match>)
    requires k < |es| && MatchesAt(es, ms, at) && (forall j :: 0 <= j < |at| ==> at[j] < k)
    requires Active(es[k], q.world) && Consider(q, es[k], ms).0.Some?
    ensures var shown := !HiddenBehind(q, es, at, k);
            && Extra(q, es[k], CoversQuery(q, es[k]) && shown, ms, extra)
            && Consider(q, es[k], ms) ==
               (Some(ms + extra + if MayMatch(q, es[k]) && shown then [MatchOf(es[k])] else []),
                CoversQuery(q, es[k]) && shown)
            && (extra != [] ==> MayMatch(q, es[k]) && shown && CoversQuery(q, es[k]))
  {
    HiddenIsShadowed(q, es, ms, at, k);
    var e := es[k];
    extra := [];
    if !Shadowed(q, e, ms) && e.covers && e.allVariables && q.includeAmbiguous && e.ambiguous.Some? {
      extra := AmbiguousMatches(q, e.ambiguous.value, ms, 0);
      var from := AmbiguousAdded(q, e.ambiguous.value, ms, 0);
    }
    assert ms + [] == ms;
  }

  /** Entry number `n - 1` is the first one that covers the query. */
  ghost predicate StopsAt(q: Query, es: seq<Entry>, at: seq<nat>, n: nat)
    requires n <= |es| && forall j :: 0 <= j < |at| ==> at[j] < |es|
  {
    n > 0 && Uncovered(q, es, at, n - 1) && CoversQuery(q, es[n - 1]) && !HiddenBehind(q, es, at, n - 1)
  }

  /** The end of the answer: the covering entry, if it may match, with the ambiguous methods before it. */
  ghost predicate EndsWith(q: Query, es: seq<Entry>, at: seq<nat>, n: nat, front: seq<Match>, extra: seq<Match>,
      last: seq<Match>)
    requires n <= |es| && forall j :: 0 <= j < |at| ==> at[j] < |es|
  {
    if StopsAt(q, es, at, n) then
      && last == (if MayMatch(q, es[n - 1]) then [MatchOf(es[n - 1])] else [])
      && Extra(q, es[n - 1], true, front, extra)
    else n == |es| && Uncovered(q, es, at, n) && extra == [] && last == []
  }

  /**
    Every active entry that may match and is not hidden is in the answer, up to the first one that covers the query;
    and no other is, but for the ambiguous methods right before that one, when they are asked for.
  */
  lemma {:induction false} LookupAnswers(q: Query, es: seq<Entry>, k: nat, r: Result, at: seq<nat>)
      returns (at': seq<nat>, n: nat, front: seq<Match>, extra: seq<Match>, last: seq<Match>)
    requires k <= |es| && r.found.Some? && MatchesAt(es, r.found.value, at)
    requires Chosen(q, es, at, k) && Uncovered(q, es, at, k)
    requires Lookup(q, es, k, r).found.Some?
    ensures Lookup(q, es, k, r).found.value == front + extra + last
    ensures Chosen(q, es, at', n) && MatchesAt(es, front + last, at')
    ensures EndsWith(q, es, at', n, front, extra, last)
    decreases |es| - k
  {
    hide Consider, Narrow, MayMatch, CoversQuery, Active, Extra, Chosen, HiddenBehind;
    ChosenRange(q, es, at, k);
    var ms := r.found.value;
    if k == |es| {
      at', n, front, extra, last := at, k, ms, [], [];
      assert front + extra + last == front && front + last == front;
    } else {
      var r' := Narrow(r, es[k], q.world);
      NarrowKeeps(r, es[k], q.world);
      OneMoreChosen(q, es, at, k);
      ChosenRange(q, es, at + [k], k + 1);
      if !Active(es[k], q.world) {
        Inactive(q, es[k]);
        at', n, front, extra, last := LookupAnswers(q, es, k + 1, r', at);
      } else {
        extra := ConsiderDecides(q, es, ms, at, k);
        var shown := !HiddenBehind(q, es, at, k);
        var taken := if MayMatch(q, es[k]) && shown then [MatchOf(es[k])] else [];
        var more := if MayMatch(q, es[k]) && shown then at + [k] else at;
        assert MatchesAt(es, ms + taken, more);
        if CoversQuery(q, es[k]) && shown {
          at', n, front, last := more, k + 1, ms, taken;
        } else {
          assert ms + extra + taken == ms + taken;
          at', n, front, extra, last := LookupAnswers(q, es, k + 1, r'.(found := Some(ms + taken)), more);
        }
      }
    }
  }

  lemma Inactive(q: Query, e: Entry)
    requires !Active(e, q.world)
    ensures !MayMatch(q, e) && !CoversQuery(q, e)
  {
  }

  lemma ChosenRange(q: Query, es: seq<Entry>, at: seq<nat>, n: nat)
    requires n <= |es|
    ensures Chosen(q, es, at, n) ==> forall j :: 0 <= j < |at| ==> at[j] < n
  {
  }

  /** The answer to a whole lookup that does not give up. */
  lemma FoundExactly(q: Query, es: seq<Entry>, minValid: nat, maxValid: nat)
      returns (at: seq<nat>, n: nat, front: seq<Match>, extra: seq<Match>, last: seq<Match>)
    requires Lookup(q, es, 0, Result(Some([]), minValid, maxValid)).found.Some?
    ensures Lookup(q, es, 0, Result(Some([]), minValid, maxValid)).found.value == front + extra + last
    ensures Chosen(q, es, at, n) && MatchesAt(es, front + last, at)
    ensures EndsWith(q, es, at, n, front, extra, last)
  {
    hide EndsWith;
    at, n, front, extra, last := LookupAnswers(q, es, 0, Result(Some([]), minValid, maxValid), []);
  }
}

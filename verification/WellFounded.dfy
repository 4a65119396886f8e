/**
  Preorders without infinite strict ascent, and the closure of that property under the
  constructions from which the state of type inference is built: pairs, options and sequences.

  "No infinite strict ascent" is accessibility: a value is accessible when everything strictly
  above it is. No bound on the length of an ascending chain is assumed.
*/
module WellFounded {
  import opened Wrappers

  ghost predicate Preorder<X(!new)>(le: (X, X) -> bool) {
    && (forall x :: le(x, x))
    && (forall x, y, z :: le(x, y) && le(y, z) ==> le(x, z))
  }

  ghost predicate Above<X(!new)>(le: (X, X) -> bool, x: X, y: X) {
    le(x, y) && !le(y, x)
  }

  least predicate Acc<X(!new)>(le: (X, X) -> bool, x: X) {
    forall y :: Above(le, x, y) ==> Acc(le, y)
  }

  ghost predicate NoInfiniteAscent<X(!new)>(le: (X, X) -> bool) {
    forall x :: Acc(le, x)
  }

  /** The well-founded step a loop needs: a strictly larger value has a strictly smaller rank. */
  lemma Descend<X(!new)>(le: (X, X) -> bool, k: ORDINAL, x: X, y: X) returns (k': ORDINAL)
    requires Acc#[k](le, x) && Above(le, x, y)
    ensures k' < k && Acc#[k'](le, y)
    decreases k
  {
    if k.IsLimit {
      var j: ORDINAL :| j < k && Acc#[j](le, x);
      k' := Descend(le, j, x, y);
    } else {
      k' := k - 1;
    }
  }

  lemma AccRank<X(!new)>(le: (X, X) -> bool, x: X) returns (k: ORDINAL)
    requires Acc(le, x)
    ensures Acc#[k](le, x)
  {
    k :| Acc#[k](le, x);
  }

  lemma AccUpward<X(!new)>(le: (X, X) -> bool, k: ORDINAL, x: X, y: X)
    requires Preorder(le) && Acc#[k](le, x) && le(x, y)
    ensures Acc#[k](le, y)
    decreases k
  {
    if k.IsLimit {
      var j: ORDINAL :| j < k && Acc#[j](le, x);
      AccUpward(le, j, x, y);
    } else {
      forall z | Above(le, y, z) ensures Acc#[k - 1](le, z) {
        assert Above(le, x, z);
      }
    }
  }

  // ----- pairs, ordered componentwise -----

  ghost function LePair<X(!new), Y(!new)>(leX: (X, X) -> bool, leY: (Y, Y) -> bool): (((X, Y), (X, Y)) -> bool) {
    (p: (X, Y), q: (X, Y)) => leX(p.0, q.0) && leY(p.1, q.1)
  }

  lemma PairAcc<X(!new), Y(!new)>(leX: (X, X) -> bool, leY: (Y, Y) -> bool, j: ORDINAL, k: ORDINAL, x: X, y: Y)
    requires Preorder(leX) && Preorder(leY)
    requires Acc#[j](leX, x) && Acc#[k](leY, y)
    ensures Acc(LePair(leX, leY), (x, y))
    decreases j, k
  {
    var le := LePair(leX, leY);
    forall q: (X, Y) | Above(le, (x, y), q) ensures Acc(le, q) {
      AccUpward(leY, k, y, q.1);
      if leX(q.0, x) {
        AccUpward(leX, j, x, q.0);
        var k' := Descend(leY, k, y, q.1);
        PairAcc(leX, leY, j, k', q.0, q.1);
      } else {
        var j' := Descend(leX, j, x, q.0);
        PairAcc(leX, leY, j', k, q.0, q.1);
      }
    }
  }

  lemma PairNoInfiniteAscent<X(!new), Y(!new)>(leX: (X, X) -> bool, leY: (Y, Y) -> bool)
    requires Preorder(leX) && NoInfiniteAscent(leX)
    requires Preorder(leY) && NoInfiniteAscent(leY)
    ensures Preorder(LePair(leX, leY)) && NoInfiniteAscent(LePair(leX, leY))
  {
    var le := LePair(leX, leY);
    forall p: (X, Y) ensures le(p, p) {
      assert leX(p.0, p.0) && leY(p.1, p.1);
    }
    forall p: (X, Y), q: (X, Y), r: (X, Y) | le(p, q) && le(q, r) ensures le(p, r) {
      assert leX(p.0, q.0) && leX(q.0, r.0) && leY(p.1, q.1) && leY(q.1, r.1);
    }
    forall p: (X, Y) ensures Acc(le, p) {
      var j := AccRank(leX, p.0);
      var k := AccRank(leY, p.1);
      PairAcc(leX, leY, j, k, p.0, p.1);
    }
  }

  // ----- options, None below everything -----

  ghost function LeOption<X(!new)>(le: (X, X) -> bool): ((Option<X>, Option<X>) -> bool) {
    (p: Option<X>, q: Option<X>) => p.None? || (q.Some? && le(p.value, q.value))
  }

  lemma SomeAcc<X(!new)>(le: (X, X) -> bool, k: ORDINAL, x: X)
    requires Acc#[k](le, x)
    ensures Acc(LeOption(le), Some(x))
    decreases k
  {
    forall q: Option<X> | Above(LeOption(le), Some(x), q) ensures Acc(LeOption(le), q) {
      var k' := Descend(le, k, x, q.value);
      SomeAcc(le, k', q.value);
    }
  }

  lemma OptionNoInfiniteAscent<X(!new)>(le: (X, X) -> bool)
    requires Preorder(le) && NoInfiniteAscent(le)
    ensures Preorder(LeOption(le)) && NoInfiniteAscent(LeOption(le))
  {
    forall p: Option<X> | p.Some? ensures Acc(LeOption(le), p) {
      var k := AccRank(le, p.value);
      SomeAcc(le, k, p.value);
    }
    forall p: Option<X> ensures Acc(LeOption(le), p) {
      assert forall q: Option<X> :: Above(LeOption(le), None, q) ==> q.Some?;
    }
  }

  // ----- sequences of equal length, ordered pointwise -----

  ghost function LeSeq<X(!new)>(le: (X, X) -> bool): ((seq<X>, seq<X>) -> bool) {
    (s: seq<X>, t: seq<X>) => |s| == |t| && forall i :: 0 <= i < |s| ==> le(s[i], t[i])
  }

  lemma ConsLe<X(!new)>(le: (X, X) -> bool, s: seq<X>, t: seq<X>)
    requires s != [] && t != []
    ensures LeSeq(le)(s, t) <==> LePair(le, LeSeq(le))((s[0], s[1..]), (t[0], t[1..]))
  {
    if LePair(le, LeSeq(le))((s[0], s[1..]), (t[0], t[1..])) {
      forall i | 0 <= i < |s| ensures le(s[i], t[i]) {
        if i > 0 { assert le(s[1..][i - 1], t[1..][i - 1]); }
      }
    }
  }

  lemma ConsAcc<X(!new)>(le: (X, X) -> bool, k: ORDINAL, s: seq<X>)
    requires s != [] && Acc#[k](LePair(le, LeSeq(le)), (s[0], s[1..]))
    ensures Acc(LeSeq(le), s)
    decreases k
  {
    var lePair := LePair(le, LeSeq(le));
    forall t: seq<X> | Above(LeSeq(le), s, t) ensures Acc(LeSeq(le), t) {
      ConsLe(le, s, t);
      ConsLe(le, t, s);
      var k' := Descend(lePair, k, (s[0], s[1..]), (t[0], t[1..]));
      ConsAcc(le, k', t);
    }
  }

  lemma SeqAcc<X(!new)>(le: (X, X) -> bool, s: seq<X>)
    requires Preorder(le) && NoInfiniteAscent(le)
    ensures Acc(LeSeq(le), s)
  {
    if s == [] {
      assert forall t: seq<X> :: !Above(LeSeq(le), s, t);
    } else {
      SeqAcc(le, s[1..]);
      var j := AccRank(le, s[0]);
      var k := AccRank(LeSeq(le), s[1..]);
      PairAcc(le, LeSeq(le), j, k, s[0], s[1..]);
      var m := AccRank(LePair(le, LeSeq(le)), (s[0], s[1..]));
      ConsAcc(le, m, s);
    }
  }

  lemma SeqNoInfiniteAscent<X(!new)>(le: (X, X) -> bool)
    requires Preorder(le) && NoInfiniteAscent(le)
    ensures Preorder(LeSeq(le)) && NoInfiniteAscent(LeSeq(le))
  {
    forall s: seq<X> ensures Acc(LeSeq(le), s) { SeqAcc(le, s); }
  }

  // ----- Booleans, false below true -----

  ghost function LeBool(): ((bool, bool) -> bool) {
    (a: bool, b: bool) => a ==> b
  }

  lemma BoolNoInfiniteAscent()
    ensures Preorder(LeBool()) && NoInfiniteAscent(LeBool())
  {
    assert Acc(LeBool(), true) by {
      assert forall b :: !Above(LeBool(), true, b);
    }
    assert Acc(LeBool(), false);
  }

  // ----- transport along an order embedding -----

  ghost predicate Embedding<X(!new), Y(!new)>(leX: (X, X) -> bool, leY: (Y, Y) -> bool, f: X -> Y) {
    forall x, y :: leX(x, y) <==> leY(f(x), f(y))
  }

  lemma EmbedAcc<X(!new), Y(!new)>(leX: (X, X) -> bool, leY: (Y, Y) -> bool, f: X -> Y, k: ORDINAL, x: X)
    requires Embedding(leX, leY, f) && Acc#[k](leY, f(x))
    ensures Acc(leX, x)
    decreases k
  {
    forall y | Above(leX, x, y) ensures Acc(leX, y) {
      var k' := Descend(leY, k, f(x), f(y));
      EmbedAcc(leX, leY, f, k', y);
    }
  }

  lemma EmbedNoInfiniteAscent<X(!new), Y(!new)>(leX: (X, X) -> bool, leY: (Y, Y) -> bool, f: X -> Y)
    requires Embedding(leX, leY, f)
    requires Preorder(leY) && NoInfiniteAscent(leY)
    ensures Preorder(leX) && NoInfiniteAscent(leX)
  {
    forall x ensures leX(x, x) {
      assert leY(f(x), f(x));
    }
    forall x, y, z | leX(x, y) && leX(y, z) ensures leX(x, z) {
      assert leY(f(x), f(y)) && leY(f(y), f(z));
    }
    forall x ensures Acc(leX, x) {
      var k := AccRank(leY, f(x));
      EmbedAcc(leX, leY, f, k, x);
    }
  }
}

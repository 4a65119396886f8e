/** An open-addressing hash table with triangular probing, tombstones and an in-place rehash. */
module KHash {
  import opened Probing
  import opened Rounding

  /** The two flag bits of a bucket: never used since the last rehash, deleted, or holding an entry. */
  datatype Flag = Empty | Deleted | Live

  // ----- sizes -----

  /** The largest bucket count 32-bit sizes can express. */
  const MAX_BUCKETS: nat := 0x8000_0000

  lemma DoubleIsPow2(n: nat)
    requires IsPow2(n)
    ensures IsPow2(2 * n)
  {
    assert (2 * n) / 2 == n && (2 * n) % 2 == 0;
  }

  lemma Times16(n: nat)
    requires IsPow2(n)
    ensures IsPow2(16 * n)
  {
    hide IsPow2;
    DoubleIsPow2(n);
    DoubleIsPow2(2 * n);
    DoubleIsPow2(4 * n);
    DoubleIsPow2(8 * n);
  }

  lemma MaxIsPow2()
    ensures IsPow2(MAX_BUCKETS)
  {
    hide IsPow2;
    OneIsPow2();
    DoubleIsPow2(1);
    DoubleIsPow2(2);
    DoubleIsPow2(4);
    Times16(0x8);
    Times16(0x80);
    Times16(0x800);
    Times16(0x8000);
    Times16(0x8_0000);
    Times16(0x80_0000);
    Times16(0x800_0000);
  }

  lemma {:induction false} Pow2Gap(p: nat, q: nat)
    requires IsPow2(p) && p < q && IsPow2(q)
    ensures 2 * p <= q
    decreases q
  {
    if p > 1 && q > 1 {
      Pow2Gap(p / 2, q / 2);
    }
  }

  /** The bucket count a requested size leads to. */
  function BucketsFor(x: nat): (n: nat)
    requires x < UINT32
    ensures IsPow2(n) && 4 <= n <= MAX_BUCKETS
    ensures 4 <= x <= MAX_BUCKETS ==> x <= n < 2 * x
    ensures x > MAX_BUCKETS || x < 4 ==> n == 4
  {
    KRoundUpLeast(x);
    FourIsPow2();
    SmallAndLarge(KRoundUp32(x));
    if KRoundUp32(x) < 4 then 4 else KRoundUp32(x)
  }

  lemma FourIsPow2()
    ensures IsPow2(4)
  {
    assert IsPow2(2) && 4 / 2 == 2;
  }

  lemma SmallAndLarge(r: nat)
    ensures IsPow2(r) && r > 2 ==> r >= 4
    ensures IsPow2(r) && r < UINT32 ==> r <= MAX_BUCKETS
  {
    if IsPow2(r) { BelowHalf(r); }
  }

  lemma OneIsPow2()
    ensures IsPow2(1)
  {
  }

  lemma BucketsForPow2(n: nat)
    requires IsPow2(n) && 4 <= n <= MAX_BUCKETS
    ensures BucketsFor(n - 1) == n
    ensures BucketsFor(n + 1) == if n < MAX_BUCKETS then 2 * n else 4
  {
    hide IsPow2, BucketsFor;
    var r := BucketsFor(n - 1);
    if n < r { Pow2Gap(n, r); }
    if r < n { Pow2Gap(r, n); }
    if n < MAX_BUCKETS {
      MaxIsPow2();
      Pow2Gap(n, MAX_BUCKETS);
      var q := BucketsFor(n + 1);
      Pow2Gap(n, q);
      if 2 * n < q { Pow2Gap(2 * n, q); }
    }
  }

  /** The bucket count of a used-up table after making room: the same if tombstones take up half of it. */
  function WithRoom(n: nat, size: nat): nat {
    if n == 0 then 4 else if n > 2 * size || n == 0x8000_0000 then n else 2 * n
  }

  /** The bound is the load factor times the number of buckets, rounded to the nearest whole number. */
  lemma BoundIsRounded(n: nat)
    ensures UpperBound(n) == (n as real * 0.77 + 0.5).Floor
  {
  }

  /** n * 0.77 + 0.5, truncated: never a whole number for the powers of two used here, so rounding plays no part. */
  function UpperBound(n: nat): nat {
    (77 * n + 50) / 100
  }

  // ----- entries at a set of positions -----

  ghost predicate Represents<K, V>(m: map<K, V>, at: set<nat>, keys: seq<K>, vals: seq<V>) {
    && (forall x :: x in at ==> x < |keys| && x < |vals| && keys[x] in m && m[keys[x]] == vals[x])
    && (forall k :: k in m ==> exists x :: x in at && x < |keys| && keys[x] == k)
    && (forall x, y :: x in at && y in at && x < |keys| && y < |keys| && keys[x] == keys[y] ==> x == y)
  }

  lemma RepresentsRemove<K, V>(m: map<K, V>, at: set<nat>, keys: seq<K>, vals: seq<V>, x: nat)
    requires Represents(m, at, keys, vals) && x in at
    ensures x < |keys| && Represents(m - {keys[x]}, at - {x}, keys, vals)
  {
  }

  lemma RepresentsInsert<K, V>(m: map<K, V>, at: set<nat>, keys: seq<K>, vals: seq<V>, x: nat, k: K, v: V)
    requires Represents(m, at, keys, vals) && x !in at && x < |keys| == |vals| && k !in m
    ensures Represents(m[k := v], at + {x}, keys[x := k], vals[x := v])
  {
    var keys' := keys[x := k];
    var m' := m[k := v];
    forall k' | k' in m' ensures exists y :: y in at + {x} && y < |keys'| && keys'[y] == k' {
      if k' != k {
        var y :| y in at && y < |keys| && keys[y] == k';
        assert keys'[y] == k';
      } else {
        assert keys'[x] == k';
      }
    }
  }

  lemma {:induction false} RepresentsSize<K, V>(m: map<K, V>, at: set<nat>, keys: seq<K>, vals: seq<V>)
    requires Represents(m, at, keys, vals)
    ensures |m| == |at|
    decreases |at|
  {
    if at == {} {
      assert m == map[];
    } else {
      var x :| x in at;
      RepresentsRemove(m, at, keys, vals, x);
      RepresentsSize(m - {keys[x]}, at - {x}, keys, vals);
      assert m.Keys == (m - {keys[x]}).Keys + {keys[x]};
    }
  }

  ghost function LiveAt(flags: seq<Flag>): set<nat> {
    set x: nat | x < |flags| && flags[x] == Live
  }

  ghost function UsedAt(flags: seq<Flag>): set<nat> {
    set x: nat | x < |flags| && flags[x] != Empty
  }

  lemma UsedBounded(flags: seq<Flag>)
    ensures |UsedAt(flags)| <= |flags|
    ensures |UsedAt(flags)| < |flags| <==> exists x :: 0 <= x < |flags| && flags[x] == Empty
    ensures LiveAt(flags) <= UsedAt(flags) && |LiveAt(flags)| <= |UsedAt(flags)|
  {
    var all := Buckets(|flags|);
    assert UsedAt(flags) <= all;
    SubsetSize(UsedAt(flags), all);
    SubsetSize(LiveAt(flags), UsedAt(flags));
    if forall x :: 0 <= x < |flags| ==> flags[x] != Empty {
      assert UsedAt(flags) == all;
    } else {
      var x :| 0 <= x < |flags| && flags[x] == Empty;
      assert x in all && x !in UsedAt(flags);
    }
  }

  lemma LiveAtAll(flags: seq<Flag>)
    ensures LiveAt(flags) <= Buckets(|flags|)
    ensures LiveAt(flags) == Buckets(|flags|) <==> forall x :: 0 <= x < |flags| ==> flags[x] == Live
  {
    if LiveAt(flags) == Buckets(|flags|) {
      forall x: nat | x < |flags| ensures flags[x] == Live {
        assert x in Buckets(|flags|);
      }
    }
  }

  lemma SubsetSize<X>(a: set<X>, b: set<X>)
    requires a <= b
    ensures |a| <= |b| && (a != b ==> |a| < |b|)
  {
    assert b == a + (b - a);
  }

  // ----- probe paths -----

  /** Probing for hash `h` passes `s` used buckets and arrives at `x`. */
  ghost predicate Path(h: nat, flags: seq<Flag>, x: nat, s: nat)
    requires |flags| > 0
  {
    && s < |flags| && Probe(h, s, |flags|) == x
    && forall t :: 0 <= t < s ==> flags[Probe(h, t, |flags|)] != Empty
  }

  ghost predicate Reachable(h: nat, flags: seq<Flag>, x: nat)
    requires |flags| > 0
  {
    exists s: nat :: Path(h, flags, x, s)
  }

  /** Every entry lies on the probe path of its key. */
  ghost predicate AllReachable<K>(hash: K -> nat, flags: seq<Flag>, keys: seq<K>)
    requires |flags| > 0
  {
    |flags| <= |keys| && forall x: nat :: x < |flags| && flags[x] == Live ==> Reachable(hash(keys[x]), flags, x)
  }

  /** Filling or deleting buckets never cuts a path. */
  lemma PathStays(h: nat, flags: seq<Flag>, flags': seq<Flag>, x: nat)
    requires 0 < |flags| == |flags'| && Reachable(h, flags, x)
    requires forall y :: 0 <= y < |flags| && flags[y] != Empty ==> flags'[y] != Empty
    ensures Reachable(h, flags', x)
  {
    var s: nat :| Path(h, flags, x, s);
    assert Path(h, flags', x, s);
  }

  /** The first `step` probes met used buckets only, none of them holding the key. */
  ghost predicate Passed<K>(h: nat, flags: seq<Flag>, keys: seq<K>, key: K, step: nat)
    requires 0 < |flags| <= |keys|
  {
    forall t :: 0 <= t < step ==>
      var y := Probe(h, t, |flags|); flags[y] != Empty && !(flags[y] == Live && keys[y] == key)
  }

  /** The last tombstone among the first `step` probes, or the number of buckets when there was none. */
  ghost predicate LastTombstone(h: nat, flags: seq<Flag>, step: nat, site: nat)
    requires 0 < |flags|
  {
    if site == |flags| then forall t :: 0 <= t < step ==> flags[Probe(h, t, |flags|)] != Deleted
    else site < |flags| && flags[site] == Deleted && exists t :: 0 <= t < step && Probe(h, t, |flags|) == site
  }

  lemma PassedStep<K>(h: nat, flags: seq<Flag>, keys: seq<K>, key: K, step: nat, i: nat, site: nat)
    requires 0 < |flags| <= |keys| && Passed(h, flags, keys, key, step) && i == Probe(h, step, |flags|)
    requires LastTombstone(h, flags, step, site)
    requires flags[i] != Empty && (flags[i] == Deleted || keys[i] != key)
    ensures Passed(h, flags, keys, key, step + 1)
    ensures LastTombstone(h, flags, step + 1, if flags[i] == Deleted then i else site)
    ensures Probe(h, step + 1, |flags|) == (i + (step + 1)) % |flags|
  {
    ProbeStep(h, step, |flags|);
    if flags[i] != Deleted && site < |flags| {
      var t :| 0 <= t < step && Probe(h, t, |flags|) == site;
      assert 0 <= t < step + 1;
    }
  }

  /** A search that has passed used buckets without the key up to an empty one, or all the way round, has decided. */
  lemma NotFound<K>(hash: K -> nat, flags: seq<Flag>, keys: seq<K>, key: K, step: nat)
    requires IsPow2(|flags|) && AllReachable(hash, flags, keys)
    requires Passed(hash(key), flags, keys, key, step)
    requires step >= |flags| || flags[Probe(hash(key), step, |flags|)] == Empty
    ensures forall x: nat :: x < |flags| && flags[x] == Live ==> keys[x] != key
  {
    forall x: nat | x < |flags| && flags[x] == Live ensures keys[x] != key {
      var s: nat :| Path(hash(keys[x]), flags, x, s);
      assert s < step ==> var y := Probe(hash(key), s, |flags|); !(flags[y] == Live && keys[y] == key);
    }
  }

  // ----- one step of the in-place rehash -----

  /**
    Halfway through a rehash one array holds the old entries not yet moved, at `left`, and the moved
    ones, at `moved`; the entries of `m` are exactly those at the two sets of positions, which never meet.
  */
  ghost predicate Halfway<K, V>(hash: K -> nat, m: map<K, V>, oldFlags: seq<Flag>, newFlags: seq<Flag>,
                               keys: seq<K>, vals: seq<V>)
  {
    && IsPow2(|newFlags|) && |oldFlags| <= |keys| == |vals| && |newFlags| <= |keys|
    && LiveAt(oldFlags) !! LiveAt(newFlags)
    && Represents(m, LiveAt(oldFlags) + LiveAt(newFlags), keys, vals)
    && UsedAt(newFlags) == LiveAt(newFlags)
    && AllReachable(hash, newFlags, keys)
  }

  /** Taking an old entry out of its place. */
  lemma TakeOut<K, V>(hash: K -> nat, m: map<K, V>, oldFlags: seq<Flag>, newFlags: seq<Flag>,
                     keys: seq<K>, vals: seq<V>, j: nat)
    requires Halfway(hash, m, oldFlags, newFlags, keys, vals) && j < |oldFlags| && oldFlags[j] == Live
    ensures keys[j] in m && m[keys[j]] == vals[j]
    ensures Halfway(hash, m - {keys[j]}, oldFlags[j := Deleted], newFlags, keys, vals)
    ensures LiveAt(oldFlags[j := Deleted]) == LiveAt(oldFlags) - {j}
  {
    assert j in LiveAt(oldFlags) && j !in LiveAt(newFlags);
    RepresentsRemove(m, LiveAt(oldFlags) + LiveAt(newFlags), keys, vals, j);
    assert LiveAt(oldFlags[j := Deleted]) == LiveAt(oldFlags) - {j};
    assert LiveAt(oldFlags) - {j} + LiveAt(newFlags) == LiveAt(oldFlags) + LiveAt(newFlags) - {j};
  }

  /** Dropping an entry at an empty new bucket of its probe path, where no old entry is left. */
  lemma PutDown<K, V>(hash: K -> nat, m: map<K, V>, oldFlags: seq<Flag>, newFlags: seq<Flag>,
                     keys: seq<K>, vals: seq<V>, i: nat, s: nat, k: K, v: V)
    requires Halfway(hash, m, oldFlags, newFlags, keys, vals) && k !in m
    requires i < |newFlags| && newFlags[i] == Empty && Path(hash(k), newFlags, i, s)
    requires i < |oldFlags| ==> oldFlags[i] != Live
    ensures Halfway(hash, m[k := v], oldFlags, newFlags[i := Live], keys[i := k], vals[i := v])
  {
    var flags' := newFlags[i := Live];
    assert LiveAt(flags') == LiveAt(newFlags) + {i} && UsedAt(flags') == UsedAt(newFlags) + {i};
    assert i !in LiveAt(oldFlags) + LiveAt(newFlags);
    RepresentsInsert(m, LiveAt(oldFlags) + LiveAt(newFlags), keys, vals, i, k, v);
    assert LiveAt(oldFlags) + LiveAt(newFlags) + {i} == LiveAt(oldFlags) + LiveAt(flags');
    forall x: nat | x < |flags'| && flags'[x] == Live ensures Reachable(hash(keys[i := k][x]), flags', x) {
      if x == i {
        assert Path(hash(k), flags', i, s);
      } else {
        PathStays(hash(keys[x]), newFlags, flags', x);
      }
    }
  }

  lemma RoomLeft<K, V>(hash: K -> nat, m: map<K, V>, oldFlags: seq<Flag>, newFlags: seq<Flag>, keys: seq<K>,
      vals: seq<V>)
    requires Halfway(hash, m, oldFlags, newFlags, keys, vals) && |m| < |newFlags|
    ensures IsPow2(|newFlags|) && |oldFlags| <= |keys| == |vals| && |newFlags| <= |keys|
    ensures exists x :: 0 <= x < |newFlags| && newFlags[x] == Empty
  {
    RepresentsSize(m, LiveAt(oldFlags) + LiveAt(newFlags), keys, vals);
    SubsetSize(LiveAt(newFlags), LiveAt(oldFlags) + LiveAt(newFlags));
    UsedBounded(newFlags);
  }

  lemma RemoveSize<K, V>(m: map<K, V>, k: K)
    requires k in m
    ensures |m - {k}| < |m|
  {
    assert m.Keys == (m - {k}).Keys + {k};
  }

  /** Exchanging the entry in hand with an old one that sits at the bucket found for it. */
  lemma KickOut<K, V>(hash: K -> nat, m: map<K, V>, oldFlags: seq<Flag>, newFlags: seq<Flag>,
                     keys: seq<K>, vals: seq<V>, i: nat, s: nat, k: K, v: V)
    requires k in m && m[k] == v && Halfway(hash, m - {k}, oldFlags, newFlags, keys, vals)
    requires i < |newFlags| && newFlags[i] == Empty && Path(hash(k), newFlags, i, s)
    requires i < |oldFlags| && oldFlags[i] == Live
    ensures keys[i] in m && m[keys[i]] == vals[i]
    ensures Halfway(hash, m - {keys[i]}, oldFlags[i := Deleted], newFlags[i := Live], keys[i := k], vals[i := v])
    ensures LiveAt(oldFlags[i := Deleted]) < LiveAt(oldFlags)
  {
    TakeOut(hash, m - {k}, oldFlags, newFlags, keys, vals, i);
    PutDown(hash, m - {k} - {keys[i]}, oldFlags[i := Deleted], newFlags, keys, vals, i, s, k, v);
    assert (m - {k} - {keys[i]})[k := v] == m - {keys[i]};
    assert i in LiveAt(oldFlags);
  }

  /** The first empty bucket on the probe path of hash `h`. */
  method FindEmpty(h: nat, flags: array<Flag>) returns (i: nat, ghost s: nat)
    requires IsPow2(flags.Length) && exists x :: 0 <= x < flags.Length && flags[x] == Empty
    ensures i < flags.Length && flags[i] == Empty && Path(h, flags[..], i, s)
  {
    ghost var n := flags.Length;
    ghost var x :| 0 <= x < flags.Length && flags[x] == Empty;
    ghost var limit := ProbesCover(h, n, x);
    i := h % flags.Length;
    var step := 0;
    assert i == Probe(h, 0, n);
    while flags[i] != Empty
      invariant 0 <= step <= limit && i == Probe(h, step, n)
      invariant forall t :: 0 <= t < step ==> flags[..][Probe(h, t, n)] != Empty
      decreases limit - step
    {
      ProbeStep(h, step, n);
      step := step + 1;
      i := (i + step) % flags.Length;
    }
    s := step;
  }

  /**
    The kick-out rehash: every old entry is taken out and put at the first empty bucket of its new probe
    path; an old entry found sitting there is taken out in turn. No second array of entries is used.
  */
  method Rehash<K(==), V>(hash: K -> nat, oldFlags: array<Flag>, newFlags: array<Flag>, keys: array<K>, vals: array<V>,
                         ghost m: map<K, V>)
    requires oldFlags != newFlags
    requires oldFlags as object != keys && oldFlags as object != vals
    requires newFlags as object != keys && newFlags as object != vals && keys as object != vals
    requires Halfway(hash, m, oldFlags[..], newFlags[..], keys[..], vals[..]) && |m| < newFlags.Length
    modifies oldFlags, newFlags, keys, vals
    ensures Halfway(hash, m, oldFlags[..], newFlags[..], keys[..], vals[..]) && LiveAt(oldFlags[..]) == {}
  {
    hide Halfway;
    var j := 0;
    while j != oldFlags.Length
      invariant 0 <= j <= oldFlags.Length
      invariant forall x :: x in LiveAt(oldFlags[..]) ==> j <= x
      invariant Halfway(hash, m, oldFlags[..], newFlags[..], keys[..], vals[..])
    {
      if oldFlags[j] == Live {
        MoveFrom(hash, oldFlags, newFlags, keys, vals, j, m);
      }
      j := j + 1;
    }
  }

  /** Move the entry at `j`, and every entry that is kicked out on the way. */
  method MoveFrom<K(==), V>(hash: K -> nat, oldFlags: array<Flag>, newFlags: array<Flag>, keys: array<K>,
      vals: array<V>, j: nat, ghost m: map<K, V>)
    requires oldFlags != newFlags
    requires oldFlags as object != keys && oldFlags as object != vals
    requires newFlags as object != keys && newFlags as object != vals && keys as object != vals
    requires Halfway(hash, m, oldFlags[..], newFlags[..], keys[..], vals[..]) && |m| < newFlags.Length
    requires j < oldFlags.Length && oldFlags[j] == Live
    modifies oldFlags, newFlags, keys, vals
    ensures Halfway(hash, m, oldFlags[..], newFlags[..], keys[..], vals[..])
    ensures LiveAt(oldFlags[..]) <= old(LiveAt(oldFlags[..])) - {j}
  {
    hide Halfway, IsPow2, LiveAt, Path, UsedAt, Represents, AllReachable;
    RoomLeft(hash, m, oldFlags[..], newFlags[..], keys[..], vals[..]);
    var key, val := keys[j], vals[j];
    TakeOut(hash, m, oldFlags[..], newFlags[..], keys[..], vals[..], j);
    oldFlags[j] := Deleted;
    assert oldFlags[..] == old(oldFlags[..])[j := Deleted];
    ghost var rest := m - {key};
    while true
      invariant Halfway(hash, rest, oldFlags[..], newFlags[..], keys[..], vals[..])
      invariant key in m && m[key] == val && rest == m - {key}
      invariant |m| < newFlags.Length <= keys.Length == vals.Length && oldFlags.Length <= keys.Length
      invariant LiveAt(oldFlags[..]) <= old(LiveAt(oldFlags[..])) - {j}
      decreases LiveAt(oldFlags[..])
    {
      RemoveSize(m, key);
      RoomLeft(hash, rest, oldFlags[..], newFlags[..], keys[..], vals[..]);
      var i, s := FindEmpty(hash(key), newFlags);
      if i < oldFlags.Length && oldFlags[i] == Live {
        ghost var F, G, A, B := oldFlags[..], newFlags[..], keys[..], vals[..];
        KickOut(hash, m, F, G, A, B, i, s, key, val);
        newFlags[i] := Live;
        keys[i], key := key, keys[i];
        vals[i], val := val, vals[i];
        oldFlags[i] := Deleted;
        assert oldFlags[..] == F[i := Deleted] && newFlags[..] == G[i := Live];
        assert keys[..] == A[i := keys[i]] && vals[..] == B[i := vals[i]];
        rest := m - {key};
      } else {
        ghost var G, A, B := newFlags[..], keys[..], vals[..];
        PutDown(hash, rest, oldFlags[..], G, A, B, i, s, key, val);
        newFlags[i] := Live;
        keys[i] := key;
        vals[i] := val;
        assert newFlags[..] == G[i := Live] && keys[..] == A[i := key] && vals[..] == B[i := val];
        assert rest[key := val] == m;
        return;
      }
    }
  }

  lemma AbsentWhenEmpty<K, V>(m: map<K, V>, at: set<nat>, keys: seq<K>, vals: seq<V>, k: K)
    requires Represents(m, at, keys, vals) && keys == []
    ensures k !in m
  {
  }

  // ----- changing one entry -----

  lemma RepresentsSet<K, V>(m: map<K, V>, at: set<nat>, keys: seq<K>, vals: seq<V>, x: nat, v: V)
    requires Represents(m, at, keys, vals) && x in at
    ensures x < |keys| && x < |vals| && Represents(m[keys[x] := v], at, keys, vals[x := v])
    ensures |m[keys[x] := v]| == |m|
  {
    assert m[keys[x] := v].Keys == m.Keys;
  }

  lemma RepresentsAt<K, V>(m: map<K, V>, at: set<nat>, keys: seq<K>, vals: seq<V>, x: nat)
    requires Represents(m, at, keys, vals) && x in at
    ensures x < |keys| && x < |vals| && keys[x] in m && m[keys[x]] == vals[x]
  {
  }

  lemma DeleteEntry<K, V>(hash: K -> nat, m: map<K, V>, flags: seq<Flag>, keys: seq<K>, vals: seq<V>, x: nat)
    requires Represents(m, LiveAt(flags), keys, vals) && 0 < |flags| == |keys| && AllReachable(hash, flags, keys)
    requires x < |flags| && flags[x] == Live
    ensures Represents(m - {keys[x]}, LiveAt(flags[x := Deleted]), keys, vals)
    ensures AllReachable(hash, flags[x := Deleted], keys)
    ensures |m - {keys[x]}| == |m| - 1 && UsedAt(flags[x := Deleted]) == UsedAt(flags)
  {
    hide Reachable, Represents;
    var flags' := flags[x := Deleted];
    assert x in LiveAt(flags) && LiveAt(flags') == LiveAt(flags) - {x};
    assert keys[x] in m by { RepresentsAt(m, LiveAt(flags), keys, vals, x); }
    RepresentsRemove(m, LiveAt(flags), keys, vals, x);
    assert m.Keys == (m - {keys[x]}).Keys + {keys[x]};
    forall y: nat | y < |flags'| && flags'[y] == Live ensures Reachable(hash(keys[y]), flags', y) {
      PathStays(hash(keys[y]), flags, flags', y);
    }
  }

  lemma SearchStart<K>(h: nat, flags: seq<Flag>, keys: seq<K>, key: K, i: nat)
    requires IsPow2(|flags|) && |flags| <= |keys| && i == h % |flags|
    ensures i == Probe(h, 0, |flags|) && Passed(h, flags, keys, key, 0) && LastTombstone(h, flags, 0, |flags|)
  {
  }

  lemma Returned(h: nat, flags: seq<Flag>, step: nat)
    requires IsPow2(|flags|) && 0 < step && Probe(h, step, |flags|) == h % |flags|
    ensures step >= 2 * |flags| - 1
  {
    FirstReturn(h, |flags|);
    assert Probe(h, 0, |flags|) == h % |flags|;
  }

  lemma NotReturned(h: nat, flags: seq<Flag>, step: nat)
    requires IsPow2(|flags|) && Probe(h, step, |flags|) != h % |flags|
    ensures step != 2 * |flags| - 1
  {
    FirstReturn(h, |flags|);
    assert Probe(h, 0, |flags|) == h % |flags|;
  }

  /** Whatever a search has passed lies on the probe path. */
  lemma PassedReachable(h: nat, flags: seq<Flag>, x: nat, t: nat, step: nat)
    requires IsPow2(|flags|) && t < step && Probe(h, t, |flags|) == x
    requires forall u :: 0 <= u < step ==> flags[Probe(h, u, |flags|)] != Empty
    ensures Reachable(h, flags, x)
  {
    if t < |flags| {
      assert Path(h, flags, x, t);
    } else {
      var s := ProbesCover(h, |flags|, x);
      assert Path(h, flags, x, s);
    }
  }

  /** The empty bucket that ends a search lies on the probe path. */
  lemma EmptyReachable(h: nat, flags: seq<Flag>, x: nat, step: nat)
    requires IsPow2(|flags|) && Probe(h, step, |flags|) == x && flags[x] == Empty
    requires forall u :: 0 <= u < step ==> flags[Probe(h, u, |flags|)] != Empty
    ensures Reachable(h, flags, x)
  {
    if step >= |flags| {
      var t := ProbesCover(h, |flags|, x);
      assert false;
    }
    assert Path(h, flags, x, step);
  }

  /** A search that went all the way round has passed every bucket. */
  lemma PassedAll(h: nat, flags: seq<Flag>, step: nat, x: nat) returns (t: nat)
    requires IsPow2(|flags|) && |flags| <= step && x < |flags|
    ensures t < step && Probe(h, t, |flags|) == x
  {
    t := ProbesCover(h, |flags|, x);
  }

  lemma FillCounts(flags: seq<Flag>, x: nat)
    requires x < |flags| && flags[x] != Live
    ensures x !in LiveAt(flags) && LiveAt(flags[x := Live]) == LiveAt(flags) + {x}
    ensures |UsedAt(flags[x := Live])| == |UsedAt(flags)| + if flags[x] == Empty then 1 else 0
  {
    assert LiveAt(flags[x := Live]) == LiveAt(flags) + {x};
    var used, used' := UsedAt(flags), UsedAt(flags[x := Live]);
    if flags[x] == Empty {
      assert used' == used + {x} && x !in used;
    } else {
      assert used' == used;
    }
  }

  lemma InsertEntry<K, V>(hash: K -> nat, m: map<K, V>, flags: seq<Flag>, keys: seq<K>, vals: seq<V>, x: nat, k: K)
    requires Represents(m, LiveAt(flags), keys, vals) && 0 < |flags| == |keys| == |vals|
    requires AllReachable(hash, flags, keys)
    requires x < |flags| && flags[x] != Live && k !in m && Reachable(hash(k), flags, x)
    ensures Represents(m[k := vals[x]], LiveAt(flags[x := Live]), keys[x := k], vals)
    ensures AllReachable(hash, flags[x := Live], keys[x := k])
    ensures |m[k := vals[x]]| == |m| + 1
    ensures |UsedAt(flags[x := Live])| == |UsedAt(flags)| + if flags[x] == Empty then 1 else 0
  {
    var flags' := flags[x := Live];
    FillCounts(flags, x);
    hide Reachable, Represents, LiveAt, UsedAt;
    RepresentsInsert(m, LiveAt(flags), keys, vals, x, k, vals[x]);
    assert vals[x := vals[x]] == vals;
    assert m[k := vals[x]].Keys == m.Keys + {k};
    forall y: nat | y < |flags'| && flags'[y] == Live ensures Reachable(hash(keys[x := k][y]), flags', y) {
      PathStays(hash(keys[x := k][y]), flags, flags', y);
    }
  }

  // ----- growing and shrinking the arrays -----

  method Realloc<T(0)>(a: array<T>, n: nat) returns (b: array<T>)
    ensures fresh(b) && b.Length == n
    ensures forall i :: 0 <= i < n && i < a.Length ==> b[i] == a[i]
  {
    b := new T[n];
    var i := 0;
    while i < n && i < a.Length
      invariant 0 <= i <= n && i <= a.Length
      invariant forall k :: 0 <= k < i ==> b[k] == a[k]
    {
      b[i] := a[i];
      i := i + 1;
    }
  }

  /** Only the entries at the given positions matter. */
  lemma RepresentsElsewhere<K, V>(m: map<K, V>, at: set<nat>, keys: seq<K>, vals: seq<V>, keys': seq<K>, vals': seq<V>)
    requires Represents(m, at, keys, vals)
    requires forall x :: x in at ==> x < |keys'| && x < |vals'| && keys'[x] == keys[x] && vals'[x] == vals[x]
    ensures Represents(m, at, keys', vals')
  {
    forall k | k in m ensures exists x :: x in at && x < |keys'| && keys'[x] == k {
      var x :| x in at && x < |keys| && keys[x] == k;
      assert keys'[x] == k;
    }
  }

  /** Before the first move everything is old. */
  lemma HalfwayStart<K, V>(hash: K -> nat, m: map<K, V>, oldFlags: seq<Flag>, n: nat, keys: seq<K>, vals: seq<V>,
                          keys': seq<K>, vals': seq<V>)
    requires IsPow2(n) && |oldFlags| <= |keys| && |oldFlags| <= |vals|
    requires Represents(m, LiveAt(oldFlags), keys, vals)
    requires |oldFlags| <= |keys'| == |vals'| && n <= |keys'|
    requires forall x :: 0 <= x < |oldFlags| ==> keys'[x] == keys[x] && vals'[x] == vals[x]
    ensures Halfway(hash, m, oldFlags, seq(n, _ => Empty), keys', vals')
  {
    var flags' := seq(n, _ => Empty);
    assert LiveAt(flags') == {} && UsedAt(flags') == {};
    assert LiveAt(oldFlags) + LiveAt(flags') == LiveAt(oldFlags);
    RepresentsElsewhere(m, LiveAt(oldFlags), keys, vals, keys', vals');
  }

  /** After the last move everything is new, and the arrays may be cut to the new size. */
  lemma HalfwayEnd<K, V>(hash: K -> nat, m: map<K, V>, oldFlags: seq<Flag>, newFlags: seq<Flag>, keys: seq<K>,
      vals: seq<V>, keys': seq<K>, vals': seq<V>)
    requires Halfway(hash, m, oldFlags, newFlags, keys, vals) && LiveAt(oldFlags) == {}
    requires |keys'| == |vals'| == |newFlags|
    requires forall x :: 0 <= x < |newFlags| ==> keys'[x] == keys[x] && vals'[x] == vals[x]
    ensures Represents(m, LiveAt(newFlags), keys', vals') && AllReachable(hash, newFlags, keys')
    ensures |UsedAt(newFlags)| == |m|
  {
    assert LiveAt(oldFlags) + LiveAt(newFlags) == LiveAt(newFlags);
    RepresentsElsewhere(m, LiveAt(newFlags), keys, vals, keys', vals');
    RepresentsSize(m, LiveAt(newFlags), keys', vals');
  }

  lemma BoundBelow(n: nat)
    requires n >= 4
    ensures UpperBound(n) < n
  {
  }

  /** The size asked for when a table is used up is large enough, except at the maximum size. */
  lemma RoomArithmetic(n: nat, size: nat, requested: nat)
    requires size <= n && (n == 0 || (IsPow2(n) && 4 <= n < MAX_BUCKETS))
    requires requested == if n > (2 * size) % UINT32 then n - 1 else n + 1
    ensures size < UpperBound(BucketsFor(requested)) && BucketsFor(requested) == WithRoom(n, size)
  {
    hide IsPow2, BucketsFor, UpperBound;
    if n > 0 {
      BucketsForPow2(n);
      assert (2 * size) % UINT32 == 2 * size;
    }
    BoundAbove(size, BucketsFor(requested));
  }

  /** A table of the largest size keeps it. */
  lemma LargestArithmetic(size: nat, requested: nat)
    requires size <= MAX_BUCKETS
    requires requested == if MAX_BUCKETS > (2 * size) % UINT32 then MAX_BUCKETS - 1 else MAX_BUCKETS + 1
    ensures size < UpperBound(BucketsFor(requested)) ==> BucketsFor(requested) == MAX_BUCKETS
  {
    hide IsPow2, BucketsFor;
    MaxIsPow2();
    BucketsForPow2(MAX_BUCKETS);
  }

  lemma BoundAbove(size: nat, n: nat)
    requires n >= 4 && 2 * size <= n
    ensures size < UpperBound(n)
  {
  }

  /** Grow the arrays if need be, rehash in place, and cut them if need be. */
  method Rebuild<K(0, ==), V(0)>(hash: K -> nat, flags: array<Flag>, keys: array<K>, vals: array<V>, n: nat,
      ghost m: map<K, V>)
      returns (flags': array<Flag>, keys': array<K>, vals': array<V>)
    requires flags.Length == keys.Length == vals.Length && IsPow2(n) && |m| < n
    requires flags as object != keys && flags as object != vals && keys as object != vals
    requires Represents(m, LiveAt(flags[..]), keys[..], vals[..])
    modifies flags, keys, vals
    ensures flags'.Length == keys'.Length == vals'.Length == n
    ensures fresh(flags') && (keys' == keys || fresh(keys')) && (vals' == vals || fresh(vals'))
    ensures flags' as object != keys' && flags' as object != vals' && keys' as object != vals'
    ensures Represents(m, LiveAt(flags'[..]), keys'[..], vals'[..]) && AllReachable(hash, flags'[..], keys'[..])
    ensures |UsedAt(flags'[..])| == |m|
  {
    hide IsPow2, Represents, AllReachable, Halfway, LiveAt, UsedAt;
    keys', vals' := keys, vals;
    flags' := new Flag[n](_ => Empty);
    if flags.Length < n {
      keys' := Realloc(keys, n);
      vals' := Realloc(vals, n);
    }
    assert flags'[..] == seq(n, _ => Empty);
    HalfwayStart(hash, m, flags[..], n, keys[..], vals[..], keys'[..], vals'[..]);
    Rehash(hash, flags, flags', keys', vals', m);
    ghost var A, B := keys'[..], vals'[..];
    if flags.Length > n {
      keys' := Realloc(keys', n);
      vals' := Realloc(vals', n);
    }
    HalfwayEnd(hash, m, flags[..], flags'[..], A, B, keys'[..], vals'[..]);
  }

  // ----- the table -----

  class Table<K(0, ==), V(0)> {
    const hash: K -> nat
    var nBuckets: nat
    var size: nat
    var nOccupied: nat
    var upperBound: nat
    var flags: array<Flag>
    var keys: array<K>
    var vals: array<V>
    ghost var contents: map<K, V>

    ghost predicate Valid()
      reads this, flags, keys, vals
    {
      && flags.Length == keys.Length == vals.Length == nBuckets
      && flags as object != keys && flags as object != vals && keys as object != vals
      && size == |contents| && nOccupied == |UsedAt(flags[..])|
      && Represents(contents, LiveAt(flags[..]), keys[..], vals[..])
      && if nBuckets == 0 then upperBound == 0 else
           && IsPow2(nBuckets) && 4 <= nBuckets <= MAX_BUCKETS
           && upperBound == UpperBound(nBuckets)
           && AllReachable(hash, flags[..], keys[..])
           && (nOccupied <= upperBound || nBuckets == MAX_BUCKETS)
    }

    constructor (hash: K -> nat)
      ensures Valid() && contents == map[] && nBuckets == 0 && this.hash == hash
      ensures fresh(flags) && fresh(keys) && fresh(vals)
    {
      this.hash := hash;
      nBuckets, size, nOccupied, upperBound := 0, 0, 0, 0;
      flags, keys, vals := new Flag[0], new K[0], new V[0];
      contents := map[];
      new;
      assert UsedAt(flags[..]) == {} && LiveAt(flags[..]) == {};
    }

    /** Below the maximum size there is always an empty bucket. */
    lemma SomeEmpty()
      requires Valid() && 0 < nBuckets < MAX_BUCKETS
      ensures exists x :: 0 <= x < nBuckets && flags[x] == Empty
    {
      UsedBounded(flags[..]);
      assert UpperBound(nBuckets) < nBuckets;
      var x :| 0 <= x < |flags[..]| && flags[..][x] == Empty;
      assert flags[x] == Empty;
    }

    /** The position of a key, or the number of buckets when it is absent. */
    method Get(key: K) returns (x: nat)
      requires Valid()
      ensures x <= nBuckets
      ensures if key in contents then x < nBuckets && flags[x] == Live && keys[x] == key && vals[x] == contents[key]
              else x == nBuckets
    {
      hide UpperBound, UsedAt, IsPow2, AllReachable;
      if nBuckets == 0 {
        AbsentWhenEmpty(contents, LiveAt(flags[..]), keys[..], vals[..], key);
        return 0;
      }
      ghost var h, fs := hash(key), flags[..];
      var i := hash(key) % nBuckets;
      var last, step := i, 0;
      FirstReturn(h, nBuckets);
      assert i == Probe(h, 0, nBuckets);
      while flags[i] != Empty && (flags[i] == Deleted || keys[i] != key)
        invariant 0 <= step < 2 * nBuckets - 1 && i == Probe(h, step, nBuckets)
        invariant Passed(h, fs, keys[..], key, step)
        decreases 2 * nBuckets - step
      {
        ProbeStep(h, step, nBuckets);
        step := step + 1;
        i := (i + step) % nBuckets;
        if i == last {
          NotFound(hash, fs, keys[..], key, step);
          return nBuckets;
        }
      }
      if flags[i] == Live {
        assert i in LiveAt(fs);
        x := i;
      } else {
        NotFound(hash, fs, keys[..], key, step);
        x := nBuckets;
      }
    }

    /**
      Rebuild the table with the bucket count a requested size leads to, unless that is too small. The
      entries stay the same, and a rebuilt table has no tombstones.
    */
    method Resize(requested: nat)
      requires Valid() && requested < UINT32
      modifies this, flags, keys, vals
      ensures Valid() && contents == old(contents)
      ensures flags == old(flags) || fresh(flags)
      ensures keys == old(keys) || fresh(keys)
      ensures vals == old(vals) || fresh(vals)
      ensures if size >= UpperBound(BucketsFor(requested))
              then nBuckets == old(nBuckets) && nOccupied == old(nOccupied) &&
                flags == old(flags) && flags[..] == old(flags[..])
              else nBuckets == BucketsFor(requested) && nOccupied == size && fresh(flags)
    {
      hide IsPow2, Represents, AllReachable, LiveAt, UsedAt, UpperBound, BucketsFor;
      var newN := BucketsFor(requested);
      if size >= UpperBound(newN) {
        return;
      }
      BoundBelow(newN);
      flags, keys, vals := Rebuild(hash, flags, keys, vals, newN, contents);
      nBuckets := newN;
      nOccupied := size;
      upperBound := UpperBound(nBuckets);
    }

    /**
      Where a key is, or where it is to go: the last tombstone passed, or else the empty bucket that ended
      the search. When every bucket is live and the key is absent there is no such place.
    */
    method FindSite(key: K) returns (x: nat)
      requires Valid() && nBuckets > 0
      ensures x < nBuckets
      ensures key in contents ==> flags[x] == Live && keys[x] == key
      ensures key !in contents && flags[x] != Live ==> Reachable(hash(key), flags[..], x)
      ensures key !in contents && flags[x] == Live ==> AllLive()
    {
      hide UpperBound, UsedAt, LiveAt, IsPow2, AllReachable, Reachable, Represents, Passed, LastTombstone;
      ghost var h, fs := hash(key), flags[..];
      x := nBuckets;
      var site: nat, i: nat := nBuckets, hash(key) % nBuckets;
      SearchStart(h, fs, keys[..], key, i);
      if flags[i] == Empty {
        EndsEmpty(key, 0, i, nBuckets);
        return i;
      }
      var last, step: nat := i, 0;
      while flags[i] != Empty && (flags[i] == Deleted || keys[i] != key)
        invariant 0 <= step < 2 * nBuckets - 1 && i < nBuckets && i == Probe(h, step, nBuckets) && x == nBuckets
        invariant Passed(h, fs, keys[..], key, step) && LastTombstone(h, fs, step, site)
        decreases 2 * nBuckets - step
      {
        PassedStep(h, fs, keys[..], key, step, i, site);
        if flags[i] == Deleted {
          site := i;
        }
        step := step + 1;
        i := (i + step) % nBuckets;
        if i == last {
          Returned(h, fs, step);
          EndsRound(key, step, i, site);
          x := site;
          break;
        }
        NotReturned(h, fs, step);
      }
      if x == nBuckets {
        if flags[i] == Empty && site != nBuckets {
          EndsEmpty(key, step, i, site);
          x := site;
        } else {
          if flags[i] == Empty {
            EndsEmpty(key, step, i, site);
          } else if step < 2 * nBuckets - 1 {
            EndsFound(key, i);
          }
          x := i;
        }
      }
    }

    /** The search met an empty bucket. */
    lemma EndsEmpty(key: K, step: nat, i: nat, site: nat)
      requires Valid() && nBuckets > 0 && i == Probe(hash(key), step, nBuckets) && flags[i] == Empty
      requires Passed(hash(key), flags[..], keys[..], key, step) && LastTombstone(hash(key), flags[..], step, site)
      ensures key !in contents && Reachable(hash(key), flags[..], i)
      ensures site <= nBuckets
      ensures site < nBuckets ==> flags[site] == Deleted && Reachable(hash(key), flags[..], site)
    {
      var h, fs := hash(key), flags[..];
      NotFound(hash, fs, keys[..], key, step);
      EmptyReachable(h, fs, i, step);
      if site < nBuckets {
        var t :| 0 <= t < step && Probe(h, t, nBuckets) == site;
        PassedReachable(h, fs, site, t, step);
      }
    }

    /** The search went all the way round. */
    lemma EndsRound(key: K, step: nat, i: nat, site: nat)
      requires Valid() && nBuckets > 0 && step >= nBuckets && i == Probe(hash(key), step, nBuckets)
      requires Passed(hash(key), flags[..], keys[..], key, step) && LastTombstone(hash(key), flags[..], step, site)
      ensures key !in contents && flags[i] != Empty && site <= nBuckets
      ensures if site < nBuckets then flags[site] == Deleted && Reachable(hash(key), flags[..], site)
              else flags[i] == Live && AllLive()
    {
      var h, fs := hash(key), flags[..];
      NotFound(hash, fs, keys[..], key, step);
      forall y: nat | y < nBuckets ensures fs[y] != Empty && (site == nBuckets ==> fs[y] == Live) {
        var t := PassedAll(h, fs, step, y);
        assert fs[Probe(h, t, nBuckets)] == fs[y];
      }
      if site == nBuckets {
        forall y | 0 <= y < nBuckets ensures flags[y] == Live { assert fs[y] == Live; }
      }
      if site < nBuckets {
        var t :| 0 <= t < step && Probe(h, t, nBuckets) == site;
        PassedReachable(h, fs, site, t, step);
      }
    }

    lemma EndsFound(key: K, i: nat)
      requires Valid() && i < nBuckets && flags[i] == Live && keys[i] == key
      ensures key in contents
    {
      assert i in LiveAt(flags[..]);
    }

    /**
      Enter a key. `ret` is 0 when it was there already, 1 when it took a bucket never used and 2 when it
      took a tombstone's, which happens only in a table that is not rebuilt. Only a table of the maximum
      size with every bucket live has no room for a new key.
    */
    method Put(key: K) returns (x: nat, ret: nat)
      requires Valid()
      modifies this, flags, keys, vals
      ensures Valid() && x < nBuckets
      ensures nBuckets == if old(nOccupied) < old(upperBound) then old(nBuckets) else WithRoom(old(nBuckets), old(size))
      ensures (flags == old(flags) || fresh(flags)) && (keys == old(keys) || fresh(keys))
      ensures vals == old(vals) || fresh(vals)
      ensures (key in old(contents) || old(size) < MAX_BUCKETS) <==> (flags[x] == Live && keys[x] == key)
      ensures ret == 0 <==> (key in old(contents) || old(size) == MAX_BUCKETS)
      ensures ret == 0 ==> contents == old(contents)
      ensures ret != 0 ==> contents == old(contents)[key := vals[x]] && ret <= 2
      ensures ret == 1 ==> nOccupied == (if flags == old(flags) then old(nOccupied) else old(size)) + 1
      ensures ret == 1 && flags == old(flags) ==> x < old(nBuckets) && old(flags[..])[x] == Empty
      ensures ret == 2 ==> flags == old(flags) && nOccupied == old(nOccupied)
      ensures ret == 2 ==> x < old(nBuckets) && old(flags[..])[x] == Deleted
    {
      hide Represents, AllReachable, IsPow2, UsedAt, LiveAt, UpperBound, Reachable;
      if nOccupied >= upperBound {
        MakeRoom();
      }
      x := FindSite(key);
      FullSize();
      if flags[x] != Live {
        if flags[x] == Deleted { NoTombstones(x); }
        ret := Enter(key, x);
      } else {
        LiveKey(x);
        ret := 0;
      }
    }

    lemma LiveKey(x: nat)
      requires Valid() && x < nBuckets && flags[x] == Live
      ensures keys[x] in contents
    {
      assert x in LiveAt(flags[..]);
    }

    /** Write a new key at the place found for it. */
    method Enter(key: K, x: nat) returns (ret: nat)
      requires Valid() && x < nBuckets && flags[x] != Live && key !in contents && Reachable(hash(key), flags[..], x)
      requires nOccupied < upperBound || nBuckets == MAX_BUCKETS
      modifies `size, `nOccupied, `contents, flags, keys
      ensures Valid() && flags[x] == Live && keys[x] == key
      ensures ret == if old(flags[x]) == Empty then 1 else 2
      ensures nOccupied == old(nOccupied) + if ret == 1 then 1 else 0
      ensures contents == old(contents)[key := vals[x]]
    {
      hide Represents, AllReachable, IsPow2, UsedAt, LiveAt, UpperBound, Reachable;
      ghost var F, A := flags[..], keys[..];
      InsertEntry(hash, contents, F, A, vals[..], x, key);
      if flags[x] == Empty {
        nOccupied := nOccupied + 1;
        ret := 1;
      } else {
        ret := 2;
      }
      size := size + 1;
      keys[x] := key;
      flags[x] := Live;
      contents := contents[key := vals[x]];
      assert flags[..] == F[x := Live] && keys[..] == A[x := key];
    }

    /** A table with no more used buckets than entries has no tombstones. */
    lemma NoTombstones(x: nat)
      requires Valid() && x < nBuckets && flags[x] == Deleted
      ensures nOccupied > size
    {
      RepresentsSize(contents, LiveAt(flags[..]), keys[..], vals[..]);
      UsedBounded(flags[..]);
      assert x in UsedAt(flags[..]) && x !in LiveAt(flags[..]);
      SubsetSize(LiveAt(flags[..]), UsedAt(flags[..]));
    }

    lemma SizeBounded()
      requires Valid()
      ensures size <= nOccupied <= nBuckets <= MAX_BUCKETS
    {
      RepresentsSize(contents, LiveAt(flags[..]), keys[..], vals[..]);
      UsedBounded(flags[..]);
    }

    /** A table is full of live entries exactly when it is as large as can be and holds as many. */
    lemma FullSize()
      requires Valid() && nBuckets > 0
      ensures size <= MAX_BUCKETS && (AllLive() <==> size == MAX_BUCKETS)
    {
      RepresentsSize(contents, LiveAt(flags[..]), keys[..], vals[..]);
      LiveAtAll(flags[..]);
      hide Represents, LiveAt, AllReachable, IsPow2;
      UsedBounded(flags[..]);
      SubsetSize(LiveAt(flags[..]), Buckets(nBuckets));
      BoundBelow(nBuckets);
    }

    ghost predicate AllLive()
      reads this, flags
      requires flags.Length == nBuckets
    {
      var fs := flags[..];
      forall x :: 0 <= x < nBuckets ==> fs[x] == Live
    }

    /**
      Rebuild the table when it is used up: to the same size if tombstones take up half of it, else to
      twice the size.
    */
    method MakeRoom()
      requires Valid() && nOccupied >= upperBound
      modifies this, flags, keys, vals
      ensures Valid() && contents == old(contents) && nBuckets > 0
      ensures (flags == old(flags) || fresh(flags)) && (keys == old(keys) || fresh(keys))
      ensures vals == old(vals) || fresh(vals)
      ensures nOccupied < upperBound || nBuckets == MAX_BUCKETS
      ensures nBuckets == WithRoom(old(nBuckets), old(size))
      ensures flags == old(flags) ==> flags[..] == old(flags[..]) && nOccupied == old(nOccupied)
      ensures flags != old(flags) ==> nOccupied == size
    {
      hide Represents, AllReachable, LiveAt, UsedAt, UpperBound, BucketsFor;
      SizeBounded();
      var requested := if nBuckets > (2 * size) % UINT32 then nBuckets - 1 else nBuckets + 1;
      if nBuckets < MAX_BUCKETS {
        RoomArithmetic(nBuckets, size, requested);
      } else {
        LargestArithmetic(size, requested);
      }
      Resize(requested);
    }

    /** The value stored beside a key. */
    method SetValue(x: nat, v: V)
      requires Valid() && x < nBuckets && flags[x] == Live
      modifies vals, `contents
      ensures Valid() && keys[x] in old(contents) && contents == old(contents)[keys[x] := v]
    {
      ghost var k := keys[x];
      assert x in LiveAt(flags[..]);
      vals[x] := v;
      contents := contents[k := v];
      RepresentsSet(old(contents), LiveAt(flags[..]), keys[..], old(vals[..]), x, v);
      assert vals[..] == old(vals[..])[x := v];
    }

    /** Delete the entry at a position; a position without an entry, or the end, is left alone. */
    method Delete(x: nat)
      requires Valid() && x <= nBuckets
      modifies `size, `contents, flags
      ensures Valid()
      ensures contents == if x < nBuckets && old(flags[x]) == Live then old(contents) - {keys[x]} else old(contents)
    {
      hide Represents, AllReachable, IsPow2, LiveAt, UsedAt;
      if x != nBuckets && flags[x] == Live {
        ghost var F := flags[..];
        DeleteEntry(hash, contents, F, keys[..], vals[..], x);
        flags[x] := Deleted;
        size := size - 1;
        contents := contents - {keys[x]};
        assert flags[..] == F[x := Deleted];
      }
    }

    /** Forget every entry; the buckets stay. */
    method Clear()
      requires Valid()
      modifies `size, `nOccupied, `contents, flags
      ensures Valid() && contents == map[] && nBuckets == old(nBuckets)
    {
      forall i | 0 <= i < flags.Length {
        flags[i] := Empty;
      }
      size, nOccupied := 0, 0;
      contents := map[];
      assert LiveAt(flags[..]) == {} && UsedAt(flags[..]) == {};
    }
  }

  /** The numbers below `n`. */
  ghost function Numbers(n: nat): set<int> {
    if n == 0 then {} else Numbers(n - 1) + {n - 1}
  }

  lemma {:induction false} NumbersSize(n: nat)
    ensures |Numbers(n)| == n && forall k :: k in Numbers(n) <==> 0 <= k < n
  {
    if n > 0 { NumbersSize(n - 1); }
  }

  /** One more number: it was not there, and there is room for it below the largest size. */
  method PutNext(table: Table<int, int>, i: nat) returns (x: nat, ret: nat)
    requires table.Valid() && table.contents.Keys == Numbers(i) && i <= MAX_BUCKETS
    modifies table, table.flags, table.keys, table.vals
    ensures table.Valid() && x < table.nBuckets && table.size <= MAX_BUCKETS
    ensures table.flags == old(table.flags) || fresh(table.flags)
    ensures table.keys == old(table.keys) || fresh(table.keys)
    ensures table.vals == old(table.vals) || fresh(table.vals)
    ensures i !in old(table.contents) && old(table.size) == i
    ensures i < MAX_BUCKETS ==> ret != 0 && table.contents.Keys == Numbers(i + 1)
    ensures i == MAX_BUCKETS ==> ret == 0 && table.contents == old(table.contents) && table.keys[x] != i
  {
    hide Represents, AllReachable, IsPow2, UsedAt, LiveAt, UpperBound;
    NumbersSize(i);
    assert |table.contents.Keys| == |table.contents|;
    x, ret := table.Put(i);
    if ret == 0 { table.FullSize(); table.LiveKey(x); }
  }

  /** A table can be filled up: the key after the 2^31st is refused with the code of a key that is there. */
  method FillUp(hash: int -> nat) returns (table: Table<int, int>, x: nat, ret: nat)
    ensures table.Valid() && table.contents.Keys == Numbers(MAX_BUCKETS)
    ensures ret == 0 && MAX_BUCKETS !in table.contents
    ensures x < table.nBuckets && table.keys[x] != MAX_BUCKETS
  {
    hide Table.Valid, Numbers;
    table := new Table(hash);
    assert Numbers(0) == {} by { NumbersSize(0); }
    for i := 0 to MAX_BUCKETS
      invariant fresh(table) && fresh(table.flags) && fresh(table.keys) && fresh(table.vals)
      invariant table.Valid() && table.contents.Keys == Numbers(i)
    {
      x, ret := PutNext(table, i);
    }
    x, ret := PutNext(table, MAX_BUCKETS);
  }
}

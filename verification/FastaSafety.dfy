/** What every interleaving of the generator's steps keeps. */
module FastaSafety {
  import opened Wrappers
  import opened Fasta
  import Probing

  // ----- the order of claims -----

  /** Number of blocks the whole output takes. */
  function Total(p: Params): nat {
    (p.n + BLOCK - 1) / BLOCK
  }

  /** Where the text of claim `r` starts. */
  function Start(p: Params, r: nat): nat {
    if r * BLOCK < p.n then r * BLOCK else p.n
  }

  function Length(p: Params, r: nat): nat {
    Start(p, r + 1) - Start(p, r)
  }

  /** The ring position that claim `r` uses. */
  function Slot(p: Params, r: nat): (b: nat)
    requires p.ring > 0
    ensures b < p.ring
  {
    r % p.ring
  }

  lemma SlotsDistinct(p: Params, low: nat)
    requires p.ring > 0
    ensures forall r, r' :: low <= r < low + p.ring && low <= r' < low + p.ring && Slot(p, r) == Slot(p, r') ==> r == r'
  {
    forall r, r' | low <= r < low + p.ring && low <= r' < low + p.ring && Slot(p, r) == Slot(p, r')
      ensures r == r'
    {
      var q := Probing.EqualMods(r, r', p.ring);
      if q >= 1 { Probing.MulMonotone(p.ring, 0, q); }
      if q < 0 { Probing.MulMonotone(p.ring, q, 0); }
    }
  }

  lemma SlotStep(p: Params, r: nat)
    requires p.ring > 0
    ensures (Slot(p, r) + 1) % p.ring == Slot(p, r + 1)
    ensures Slot(p, r + p.ring) == Slot(p, r)
  {
    Probing.ModAdd(r, 1, p.ring);
    Probing.ModMultiple(r, 1, p.ring);
  }

  lemma SlotAhead(p: Params, r: nat, i: nat)
    requires p.ring > 0
    ensures (Slot(p, r) + i) % p.ring == Slot(p, r + i)
  {
    Probing.ModAdd(r, i, p.ring);
  }

  // ----- the invariant -----

  predicate InCritical(w: Worker) {
    w.Searching? || w.Waiting? || w.Outputting? || w.Claiming? || w.Drawing?
  }

  /** The worker has taken an iteration and not yet claimed a block for it. */
  predicate Pending(w: Worker) {
    w.Entering? || w.Searching? || w.Waiting? || w.Outputting? || w.Claiming?
  }

  predicate Owns(w: Worker) {
    w.Drawing? || w.Filling?
  }

  function PendingCount(ws: seq<Worker>): nat {
    if ws == [] then 0 else (if Pending(ws[0]) then 1 else 0) + PendingCount(ws[1..])
  }

  ghost predicate Drawn(p: Params, numbers: seq<nat>, from: nat) {
    forall i :: 0 <= i < |numbers| ==> numbers[i] == SeedAt(p.seed, from + i + 1)
  }

  ghost predicate Filled(p: Params, block: seq<char>, from: nat, count: nat) {
    |block| == BUFFER && count <= BLOCK && forall k :: 0 <= k < count ==> At(block, k) == Letter(p, from + k)
  }

  function At(block: seq<char>, k: nat): char
    requires |block| == BUFFER && k < BLOCK
  {
    PositionInBuffer(k);
    block[Position(k)]
  }

  /** In-use slots form an arc of the ring from `written` to `claimed`; each is being filled or finished. */
  ghost predicate RingOk(p: Params, s: State) {
    && p.ring > 0 && |s.status| == |s.blocks| == p.ring
    && (forall b :: 0 <= b < p.ring ==> |s.blocks[b]| == BUFFER)
    && s.written <= s.claimed <= s.written + p.ring && s.claimed <= Total(p)
    && s.next == Slot(p, s.written)
    && (forall r :: s.claimed <= r < s.written + p.ring ==> s.status[Slot(p, r)] == -1)
    && (forall r :: s.written <= r < s.claimed ==>
          || s.status[Slot(p, r)] == 0
          || (s.status[Slot(p, r)] == Length(p, r) && Filled(p, s.blocks[Slot(p, r)], Start(p, r), Length(p, r))))
  }

  /** What a worker between claiming and finishing a block knows. */
  ghost predicate OwnerOk(p: Params, s: State, b: nat, r: nat, len: nat, numbers: seq<nat>)
    requires RingOk(p, s)
  {
    && s.written <= r < s.claimed && b == Slot(p, r) && s.status[b] == 0
    && len == Length(p, r) && |numbers| <= len && Drawn(p, numbers, Start(p, r))
  }

  ghost predicate WorkerOk(p: Params, s: State, w: Worker)
    requires RingOk(p, s)
  {
    match w
    case Searching(i) => s.written + i <= s.claimed
    case Waiting(b) => b == Slot(p, s.claimed)
    case Outputting(b) => b == Slot(p, s.claimed) && (s.claimed < s.written + p.ring || s.status[s.next] > 0)
    case Claiming(b) => b == Slot(p, s.claimed) && s.claimed < s.written + p.ring
    case Drawing(b, r, len, numbers) =>
      OwnerOk(p, s, b, r, len, numbers) && r + 1 == s.claimed && s.seed == SeedAt(p.seed, Start(p, r) + |numbers|)
    case Filling(b, r, len, numbers, j) =>
      && OwnerOk(p, s, b, r, len, numbers) && |numbers| == len && j <= len
      && Filled(p, s.blocks[b], Start(p, r), j)
    case _ => true
  }

  ghost predicate WorkersOk(p: Params, s: State)
    requires RingOk(p, s)
  {
    && (forall t :: 0 <= t < |s.workers| ==> WorkerOk(p, s, s.workers[t]))
    && (forall t :: 0 <= t < |s.workers| ==> (InCritical(s.workers[t]) <==> s.lock == Some(t)))
    && (s.lock.Some? ==> s.lock.value < |s.workers|)
    && (forall t, u :: 0 <= t < u < |s.workers| && Owns(s.workers[t]) && Owns(s.workers[u]) ==>
          s.workers[t].order != s.workers[u].order)
    && (forall r :: s.written <= r < s.claimed && s.status[Slot(p, r)] == 0 ==> HasOwner(s, r))
  }

  ghost predicate HasOwner(s: State, r: nat) {
    exists t :: 0 <= t < |s.workers| && Owns(s.workers[t]) && s.workers[t].order == r
  }

  /** Iterations, characters and random numbers are all accounted for. */
  ghost predicate CountsOk(p: Params, s: State) {
    && s.claimed + PendingCount(s.workers) + s.iterations == Total(p)
    && s.left + Start(p, s.claimed) == p.n
    && ((forall t :: 0 <= t < |s.workers| ==> !s.workers[t].Drawing?) ==> s.seed == SeedAt(p.seed, Start(p, s.claimed)))
    && (!s.main.Parallel? ==> s.iterations == 0 && forall t :: 0 <= t < |s.workers| ==> s.workers[t] == Ready)
    && (s.main.Done? ==> s.status != [] && s.next < |s.status| && s.status[s.next] <= 0)
  }

  /** What has been written is exactly the sequential text of the blocks written so far. */
  ghost predicate OutputOk(p: Params, s: State) {
    s.out == Wrap(Letters(p, 0, Start(p, s.written)))
  }

  ghost predicate Inv(p: Params, s: State) {
    RingOk(p, s) && WorkersOk(p, s) && CountsOk(p, s) && OutputOk(p, s)
  }

  // ----- lengths and text -----

  lemma LengthFacts(p: Params, r: nat)
    requires r < Total(p)
    ensures 0 < Length(p, r) <= BLOCK && Start(p, r) == r * BLOCK
    ensures r + 1 < Total(p) ==> Length(p, r) == BLOCK
    ensures Length(p, r) == if p.n - Start(p, r) < BLOCK then p.n - Start(p, r) else BLOCK
  {
  }

  lemma {:induction false} WrapAppend(a: seq<char>, b: seq<char>)
    requires |a| % WIDTH == 0
    ensures Wrap(a + b) == Wrap(a) + Wrap(b)
  {
    if a == [] {
      assert a + b == b;
    } else {
      assert (a + b)[..WIDTH] == a[..WIDTH] && (a + b)[WIDTH..] == a[WIDTH..] + b;
      WrapAppend(a[WIDTH..], b);
      assert Wrap(a + b) == a[..WIDTH] + ['\n'] + (Wrap(a[WIDTH..]) + Wrap(b));
    }
  }

  /** One line of a filled block holds the letters it stands for. */
  lemma LineText(p: Params, block: seq<char>, from: nat, count: nat, m: nat, width: nat)
    requires Filled(p, block, from, count) && width <= WIDTH && m * WIDTH + width <= count
    ensures var line := m * (WIDTH + 1);
            && line + width <= BUFFER
            && block[line..line + width] == Letters(p, from + m * WIDTH, from + m * WIDTH + width)
  {
    hide SeedAt, Letter;
    var done, line := m * WIDTH, m * (WIDTH + 1);
    var slice, letters := block[line..line + width], Letters(p, from + done, from + done + width);
    forall k | 0 <= k < width ensures slice[k] == letters[k] {
      assert Position(done + k) == line + k;
      assert At(block, done + k) == Letter(p, from + (done + k));
    }
  }

  /** A finished block is written as the wrapped text of its letters. */
  lemma {:induction false} BlockTextWraps(p: Params, block: seq<char>, from: nat, count: nat, m: nat)
    requires Filled(p, block, from, count) && m * WIDTH <= count
    ensures |block| == BUFFER && count <= BLOCK
    ensures BlockText(block, m, count - m * WIDTH) == Wrap(Letters(p, from + m * WIDTH, from + count))
    decreases count - m * WIDTH
  {
    hide SeedAt, Letter, Filled, Letters;
    FilledBounds(p, block, from, count);
    var done := m * WIDTH;
    var letters := Letters(p, from + done, from + count);
    if count - done >= WIDTH {
      LineText(p, block, from, count, m, WIDTH);
      LettersSplit(p, from + done, from + done + WIDTH, from + count);
      BlockTextWraps(p, block, from, count, m + 1);
    } else {
      LineText(p, block, from, count, m, count - done);
    }
  }

  lemma LettersSplit(p: Params, a: nat, b: nat, c: nat)
    requires a <= b <= c
    ensures Letters(p, a, c)[..b - a] == Letters(p, a, b) && Letters(p, a, c)[b - a..] == Letters(p, b, c)
    ensures Letters(p, a, c) == Letters(p, a, b) + Letters(p, b, c)
  {
    hide Letter;
    assert Letters(p, a, c) == Letters(p, a, b) + Letters(p, b, c);
  }

  lemma FilledBounds(p: Params, block: seq<char>, from: nat, count: nat)
    requires Filled(p, block, from, count)
    ensures |block| == BUFFER && count <= BLOCK
  {
  }

  lemma {:induction false} PendingUpdate(ws: seq<Worker>, t: nat, w: Worker)
    requires t < |ws|
    ensures PendingCount(ws[t := w]) ==
            PendingCount(ws) - (if Pending(ws[t]) then 1 else 0) + (if Pending(w) then 1 else 0)
  {
    if t > 0 {
      PendingUpdate(ws[1..], t - 1, w);
      assert ws[t := w][1..] == ws[1..][t - 1 := w];
    } else {
      assert ws[0 := w][1..] == ws[1..];
    }
  }

  // ----- steps that move one worker and touch neither the ring nor the counts -----

  lemma InvShaped(p: Params, s: State)
    requires Inv(p, s)
    ensures Shaped(p, s)
  {
    SlotsDistinct(p, s.written);
    forall b | 0 <= b < p.ring ensures -1 <= s.status[b] <= BLOCK {
      var r := SlotOwner(p, s.written, b);
      if r < s.claimed { LengthFacts(p, r); }
    }
    forall t | 0 <= t < |s.workers| && Owns(s.workers[t]) ensures s.workers[t].len <= BLOCK {
      assert WorkerOk(p, s, s.workers[t]);
      LengthFacts(p, s.workers[t].order);
    }
    forall t | 0 <= t < |s.workers| ensures WorkerOk(p, s, s.workers[t]) {}
  }

  /** Every ring position is the slot of one of the next `ring` claims. */
  lemma SlotOwner(p: Params, low: nat, b: nat) returns (r: nat)
    requires b < p.ring
    ensures low <= r < low + p.ring && Slot(p, r) == b
  {
    var first := Slot(p, low);
    r := if b >= first then low + (b - first) else low + (b - first) + p.ring;
    SlotAhead(p, low, r - low);
    Probing.ModUnique(first + (r - low), p.ring, if b >= first then 0 else 1, b);
  }

  /** The parts of two states that the ring invariant and the workers' knowledge are about agree. */
  ghost predicate SameRing(s: State, s': State) {
    && s'.status == s.status && s'.blocks == s.blocks && s'.next == s.next && s'.seed == s.seed
    && s'.claimed == s.claimed && s'.written == s.written
  }

  lemma RingSame(p: Params, s: State, s': State)
    requires RingOk(p, s) && SameRing(s, s')
    ensures RingOk(p, s')
    ensures forall w :: WorkerOk(p, s, w) <==> WorkerOk(p, s', w)
  {
    hide Filled, Drawn, Length, Start, SeedAt;
  }

  lemma OwnersMoved(p: Params, s: State, s': State, t: nat)
    requires RingOk(p, s) && RingOk(p, s') && WorkersOk(p, s) && t < |s.workers| == |s'.workers|
    requires s'.workers == s.workers[t := s'.workers[t]] && !Owns(s.workers[t]) && !Owns(s'.workers[t])
    requires SameRing(s, s')
    ensures forall r :: s'.written <= r < s'.claimed && s'.status[Slot(p, r)] == 0 ==> HasOwner(s', r)
  {
    hide Filled, Drawn, Length, Start, SeedAt, WorkerOk, Slot;
    forall r | s'.written <= r < s'.claimed && s'.status[Slot(p, r)] == 0 ensures HasOwner(s', r) {
      assert HasOwner(s, r);
      var u :| 0 <= u < |s.workers| && Owns(s.workers[u]) && s.workers[u].order == r;
      assert s'.workers[u] == s.workers[u];
    }
  }

  /** A worker moves without claiming, drawing or filling anything. */
  lemma MovePreserves(p: Params, s: State, t: nat, w: Worker, lock: Option<nat>, iterations: nat)
    requires Inv(p, s) && t < |s.workers|
    requires !Owns(s.workers[t]) && !Owns(w)
    requires WorkerOk(p, s, w)
    requires InCritical(w) <==> lock == Some(t)
    requires lock == s.lock || (lock == Some(t) && s.lock.None?)
    requires (if Pending(w) then 1 else 0) + iterations == (if Pending(s.workers[t]) then 1 else 0) + s.iterations
    requires s.main.Parallel?
    ensures Inv(p, s.(workers := s.workers[t := w], lock := lock, iterations := iterations))
  {
    hide RingOk, WorkerOk, Wrap, Letters, SeedAt, Start, InCritical, Pending;
    var s' := s.(workers := s.workers[t := w], lock := lock, iterations := iterations);
    PendingUpdate(s.workers, t, w);
    RingSame(p, s, s');
    OwnersMoved(p, s, s', t);
    forall u | 0 <= u < |s'.workers| ensures InCritical(s'.workers[u]) <==> s'.lock == Some(u) {
      assert InCritical(s.workers[u]) <==> s.lock == Some(u);
    }
    assert forall u :: 0 <= u < |s.workers| ==> (s'.workers[u].Drawing? <==> s.workers[u].Drawing?);
  }

  // ----- writing a block -----

  /** Only the worker in the critical section can be anywhere but outside it, filling, or about to enter. */
  lemma OthersOutside(p: Params, s: State, t: nat, u: nat)
    requires RingOk(p, s) && WorkersOk(p, s) && u < |s.workers| && u != t && s.lock == Some(t)
    ensures s.workers[u].Ready? || s.workers[u].Entering? || s.workers[u].Filling?
  {
    assert InCritical(s.workers[u]) <==> s.lock == Some(u);
  }

  lemma FinishedAtNext(p: Params, s: State)
    requires RingOk(p, s) && s.status[s.next] > 0
    ensures s.written < s.claimed && 0 < Length(p, s.written) == s.status[s.next] <= BLOCK
    ensures Start(p, s.written + 1) == Start(p, s.written) + Length(p, s.written) && Start(p, s.written) % WIDTH == 0
    ensures Filled(p, s.blocks[s.next], Start(p, s.written), Length(p, s.written))
  {
    hide Filled;
    assert Slot(p, s.written) == s.next;
    hide Slot;
    LengthFacts(p, s.written);
    LinesInBlock(s.written);
  }

  lemma LinesInBlock(r: nat)
    ensures r * BLOCK % WIDTH == 0
  {
    assert r * BLOCK == (r * LINES) * WIDTH;
  }

  lemma WrittenText(p: Params, s: State)
    requires RingOk(p, s) && OutputOk(p, s) && s.status[s.next] > 0
    ensures s.written < s.claimed && Shaped'(p, s)
    ensures s.out + BlockText(s.blocks[s.next], 0, s.status[s.next]) == Wrap(Letters(p, 0, Start(p, s.written + 1)))
  {
    hide Letter, SeedAt, Filled, Letters, Start, Length, Wrap, BlockText, Slot;
    var r := s.written;
    FinishedAtNext(p, s);
    BlockTextWraps(p, s.blocks[s.next], Start(p, r), Length(p, r), 0);
    LettersSplit(p, 0, Start(p, r), Start(p, r + 1));
    WrapAppend(Letters(p, 0, Start(p, r)), Letters(p, Start(p, r), Start(p, r + 1)));
  }

  /** What `BlockText` asks of the block at `next`. */
  predicate Shaped'(p: Params, s: State) {
    s.next < |s.blocks| == |s.status| && |s.blocks[s.next]| == BUFFER && 0 <= s.status[s.next] <= BLOCK
  }

  lemma RingAfterOutput(p: Params, s: State, s': State)
    requires RingOk(p, s) && s.status[s.next] > 0
    requires s'.status == s.status[s.next := -1] && s'.blocks == s.blocks && s'.next == (s.next + 1) % p.ring
    requires s'.claimed == s.claimed && s'.written == s.written + 1
    ensures RingOk(p, s')
    ensures forall r :: s'.written <= r < s'.claimed ==> s'.status[Slot(p, r)] == s.status[Slot(p, r)]
  {
    hide Filled, Length, Start, Slot;
    var w := s.written;
    SlotsDistinct(p, w);
    SlotStep(p, w);
    forall r | s'.claimed <= r < s'.written + p.ring ensures s'.status[Slot(p, r)] == -1 {
      if r < w + p.ring {
        assert s.status[Slot(p, r)] == -1;
      }
    }
    forall r | s'.written <= r < s'.claimed ensures Slot(p, r) != s.next {
      assert Slot(p, w) == s.next;
    }
  }

  lemma WorkersAfterOutput(p: Params, s: State, s': State)
    requires RingOk(p, s) && WorkersOk(p, s) && RingOk(p, s') && s.status[s.next] > 0
    requires s'.workers == s.workers && s'.lock == s.lock && s'.seed == s.seed && s'.blocks == s.blocks
    requires s'.claimed == s.claimed && s'.written == s.written + 1 && s'.status == s.status[s.next := -1]
    requires forall r :: s'.written <= r < s'.claimed ==> s'.status[Slot(p, r)] == s.status[Slot(p, r)]
    requires forall t :: 0 <= t < |s.workers| && InCritical(s.workers[t]) ==> s.workers[t].Outputting?
    ensures WorkersOk(p, s')
  {
    hide Filled, Drawn, Length, Start, SeedAt, Slot;
    forall t | 0 <= t < |s.workers| ensures WorkerOk(p, s', s'.workers[t]) {
      assert WorkerOk(p, s, s.workers[t]);
    }
    forall r | s'.written <= r < s'.claimed && s'.status[Slot(p, r)] == 0 ensures HasOwner(s', r) {
      assert HasOwner(s, r);
      var u :| 0 <= u < |s.workers| && Owns(s.workers[u]) && s.workers[u].order == r;
      assert s'.workers[u] == s.workers[u];
    }
  }

  lemma OutputPreserves(p: Params, s: State)
    requires Inv(p, s) && Shaped(p, s) && s.status[s.next] > 0 && !s.main.Done?
    requires forall t :: 0 <= t < |s.workers| && InCritical(s.workers[t]) ==> s.workers[t].Outputting?
    ensures Inv(p, OutputNext(p, s))
  {
    hide RingOk, WorkersOk, Wrap, BlockText, Letters, Start, Shaped;
    var s' := OutputNext(p, s);
    WrittenText(p, s);
    RingAfterOutput(p, s, s');
    WorkersAfterOutput(p, s, s');
  }

  // ----- claiming a block -----

  lemma {:induction false} PendingPositive(ws: seq<Worker>, t: nat)
    requires t < |ws| && Pending(ws[t])
    ensures PendingCount(ws) > 0
  {
    if t > 0 {
      PendingPositive(ws[1..], t - 1);
    }
  }

  lemma RingAfterClaim(p: Params, s: State, s': State)
    requires RingOk(p, s) && s.claimed < s.written + p.ring && s.claimed < Total(p)
    requires s'.status == s.status[Slot(p, s.claimed) := 0] && s'.blocks == s.blocks && s'.next == s.next
    requires s'.claimed == s.claimed + 1 && s'.written == s.written
    ensures RingOk(p, s') && s.status[Slot(p, s.claimed)] == -1
    ensures forall r :: s.written <= r < s.claimed ==> s'.status[Slot(p, r)] == s.status[Slot(p, r)]
  {
    hide Filled, Length, Start, Slot;
    SlotsDistinct(p, s.written);
    forall r | s.written <= r < s.written + p.ring && r != s.claimed ensures Slot(p, r) != Slot(p, s.claimed) {}
  }

  lemma WorkersAfterClaim(p: Params, s: State, s': State, t: nat)
    requires RingOk(p, s) && WorkersOk(p, s) && RingOk(p, s') && t < |s.workers| && s.workers[t].Claiming?
    requires |s'.workers| == |s.workers| && s'.workers == s.workers[t := s'.workers[t]]
    requires s'.lock == s.lock && s'.blocks == s.blocks
    requires s'.seed == s.seed == SeedAt(p.seed, Start(p, s.claimed))
    requires s'.workers[t] == Drawing(Slot(p, s.claimed), s.claimed, Length(p, s.claimed), [])
    requires s'.claimed == s.claimed + 1 && s'.written == s.written
    requires s'.status == s.status[Slot(p, s.claimed) := 0] && s.claimed < s.written + p.ring
    requires forall r :: s.written <= r < s.claimed ==> s'.status[Slot(p, r)] == s.status[Slot(p, r)]
    ensures WorkersOk(p, s')
  {
    hide Filled, Length, Start, SeedAt, Slot;
    assert s.lock == Some(t) by { assert InCritical(s.workers[t]); }
    forall u | 0 <= u < |s.workers| ensures WorkerOk(p, s', s'.workers[u]) {
      if u != t {
        OthersOutside(p, s, t, u);
        assert WorkerOk(p, s, s.workers[u]);
      }
    }
    forall u | 0 <= u < |s.workers| && u != t && Owns(s.workers[u]) ensures s.workers[u].order < s.claimed {
      assert WorkerOk(p, s, s.workers[u]);
    }
    hide WorkerOk, Drawn;
    forall u | 0 <= u < |s.workers| ensures InCritical(s'.workers[u]) <==> s'.lock == Some(u) {
      assert InCritical(s.workers[u]) <==> s.lock == Some(u);
    }
    OwnersAfterClaim(p, s, s', t);
  }

  lemma OwnersAfterClaim(p: Params, s: State, s': State, t: nat)
    requires RingOk(p, s) && WorkersOk(p, s) && RingOk(p, s') && t < |s.workers| && s.workers[t].Claiming?
    requires |s'.workers| == |s.workers| && s'.workers == s.workers[t := s'.workers[t]]
    requires Owns(s'.workers[t]) && s'.workers[t].order == s.claimed
    requires s'.claimed == s.claimed + 1 && s'.written == s.written
    requires forall r :: s.written <= r < s.claimed ==> s'.status[Slot(p, r)] == s.status[Slot(p, r)]
    ensures forall r :: s'.written <= r < s'.claimed && s'.status[Slot(p, r)] == 0 ==> HasOwner(s', r)
  {
    hide Filled, Length, Start, SeedAt, Slot, WorkerOk;
    forall r | s'.written <= r < s'.claimed && s'.status[Slot(p, r)] == 0 ensures HasOwner(s', r) {
      if r == s.claimed {
        assert Owns(s'.workers[t]) && s'.workers[t].order == r;
      } else {
        assert HasOwner(s, r);
        var u :| 0 <= u < |s.workers| && Owns(s.workers[u]) && s.workers[u].order == r;
        assert s'.workers[u] == s.workers[u];
      }
    }
  }

  /** A worker that is about to claim knows where, and that there is something to claim. */
  lemma ClaimReady(p: Params, s: State, t: nat)
    requires RingOk(p, s) && WorkersOk(p, s) && CountsOk(p, s) && t < |s.workers| && s.workers[t].Claiming?
    ensures s.workers[t].b == Slot(p, s.claimed) && s.claimed < s.written + p.ring && s.claimed < Total(p)
    ensures s.status[s.workers[t].b] == -1 && s.lock == Some(t)
    ensures s.seed == SeedAt(p.seed, Start(p, s.claimed))
    ensures Length(p, s.claimed) == (if s.left < BLOCK then s.left else BLOCK) <= s.left
    ensures s.left - Length(p, s.claimed) + Start(p, s.claimed + 1) == p.n
  {
    hide Filled, SeedAt, Start, Length, Slot;
    PendingPositive(s.workers, t);
    LengthLeft(p, s.claimed, s.left);
    assert InCritical(s.workers[t]) && WorkerOk(p, s, s.workers[t]);
    forall u | 0 <= u < |s.workers| ensures !s.workers[u].Drawing? {
      if u != t { OthersOutside(p, s, t, u); }
    }
  }

  lemma LengthLeft(p: Params, r: nat, left: nat)
    requires r < Total(p) && left + Start(p, r) == p.n
    ensures Length(p, r) == (if left < BLOCK then left else BLOCK) <= left
    ensures left - Length(p, r) + Start(p, r + 1) == p.n
  {
    LengthFacts(p, r);
  }

  lemma CountsAfterClaim(p: Params, s: State, s': State, t: nat)
    requires CountsOk(p, s) && t < |s.workers| && s.workers[t].Claiming? && s'.claimed == s.claimed + 1
    requires |s'.workers| == |s.workers| && s'.workers == s.workers[t := s'.workers[t]] && s'.workers[t].Drawing?
    requires s'.iterations == s.iterations && s'.main == s.main && s'.left + Start(p, s'.claimed) == p.n
    ensures CountsOk(p, s')
  {
    hide Start, SeedAt;
    PendingUpdate(s.workers, t, s'.workers[t]);
  }

  lemma ClaimPreserves(p: Params, s: State, t: nat)
    requires Inv(p, s) && Shaped(p, s) && t < |s.workers| && s.workers[t].Claiming?
    ensures WorkerStep(p, s, t).Some? && Inv(p, WorkerStep(p, s, t).value)
  {
    hide RingOk, WorkersOk, CountsOk, Wrap, Letters, Start, Slot, SeedAt, Length, Shaped, Total;
    var s' := WorkerStep(p, s, t).value;
    ClaimReady(p, s, t);
    RingAfterClaim(p, s, s');
    WorkersAfterClaim(p, s, s', t);
    CountsAfterClaim(p, s, s', t);
  }

  // ----- drawing random numbers -----

  /** A step that changes one owner's own progress, and at most its own block and the seed. */
  ghost predicate OwnProgress(s: State, s': State, t: nat) {
    && t < |s.workers| == |s'.workers| && s'.workers == s.workers[t := s'.workers[t]]
    && s'.status == s.status && s'.next == s.next && s'.claimed == s.claimed && s'.written == s.written
    && Owns(s.workers[t]) && Owns(s'.workers[t]) && s'.workers[t].order == s.workers[t].order
  }

  lemma OwnersKept(p: Params, s: State, s': State, t: nat)
    requires RingOk(p, s) && RingOk(p, s') && WorkersOk(p, s) && OwnProgress(s, s', t)
    ensures forall u, v :: 0 <= u < v < |s'.workers| && Owns(s'.workers[u]) && Owns(s'.workers[v]) ==>
              s'.workers[u].order != s'.workers[v].order
    ensures forall r :: s'.written <= r < s'.claimed && s'.status[Slot(p, r)] == 0 ==> HasOwner(s', r)
  {
    hide Filled, Drawn, Length, Start, SeedAt, Slot, WorkerOk;
    forall r | s'.written <= r < s'.claimed && s'.status[Slot(p, r)] == 0 ensures HasOwner(s', r) {
      assert HasOwner(s, r);
      var u :| 0 <= u < |s.workers| && Owns(s.workers[u]) && s.workers[u].order == r;
      assert Owns(s'.workers[u]) && s'.workers[u].order == r;
    }
  }

  lemma WorkersAfterDraw(p: Params, s: State, s': State, t: nat)
    requires RingOk(p, s) && WorkersOk(p, s) && RingOk(p, s') && OwnProgress(s, s', t) && s.workers[t].Drawing?
    requires s'.blocks == s.blocks && WorkerOk(p, s', s'.workers[t])
    requires s'.lock == if s'.workers[t].Drawing? then s.lock else None
    ensures WorkersOk(p, s')
  {
    hide Filled, Drawn, Length, Start, SeedAt, Slot;
    OwnersKept(p, s, s', t);
    assert s.lock == Some(t) by { assert InCritical(s.workers[t]); }
    forall u | 0 <= u < |s'.workers|
      ensures WorkerOk(p, s', s'.workers[u]) && (InCritical(s'.workers[u]) <==> s'.lock == Some(u))
    {
      if u != t {
        OthersOutside(p, s, t, u);
        assert WorkerOk(p, s, s.workers[u]);
      }
    }
  }

  /** One more number: the next seed of the stream, for the next character of the block. */
  lemma DrawnOneMore(p: Params, numbers: seq<nat>, from: nat, seed: nat)
    requires Drawn(p, numbers, from) && seed == SeedAt(p.seed, from + |numbers|)
    ensures Drawn(p, numbers + [Lcg(seed)], from) && Lcg(seed) == SeedAt(p.seed, from + (|numbers| + 1))
  {
  }

  lemma DrawReady(p: Params, s: State, t: nat)
    requires RingOk(p, s) && WorkersOk(p, s) && t < |s.workers| && s.workers[t].Drawing?
    ensures WorkerOk(p, s, s.workers[t]) && s.lock == Some(t) && |s.workers[t].numbers| <= s.workers[t].len
    ensures s.workers[t].order + 1 == s.claimed
    ensures Start(p, s.workers[t].order) + s.workers[t].len == Start(p, s.claimed)
    ensures forall u :: 0 <= u < |s.workers| && u != t ==> !s.workers[u].Drawing?
  {
    hide Filled, SeedAt, Start, Slot, Drawn, RingOk, WorkersOk;
    HasLock(p, s, t);
    assert WorkerOk(p, s, s.workers[t]);
    forall u | 0 <= u < |s.workers| && u != t ensures !s.workers[u].Drawing? {
      OthersOutside(p, s, t, u);
    }
  }

  lemma HasLock(p: Params, s: State, t: nat)
    requires RingOk(p, s) && WorkersOk(p, s) && t < |s.workers| && InCritical(s.workers[t])
    ensures WorkerOk(p, s, s.workers[t]) && s.lock == Some(t)
  {
    hide WorkerOk, RingOk;
  }

  lemma CountsAfterOwner(p: Params, s: State, s': State, t: nat)
    requires CountsOk(p, s) && s.main.Parallel? && t < |s.workers| == |s'.workers| && Owns(s.workers[t])
    requires s'.workers == s.workers[t := s'.workers[t]] && !Pending(s'.workers[t])
    requires s'.claimed == s.claimed && s'.iterations == s.iterations && s'.main == s.main && s'.left == s.left
    requires (forall u :: 0 <= u < |s'.workers| ==> !s'.workers[u].Drawing?) ==>
             s'.seed == SeedAt(p.seed, Start(p, s.claimed))
    ensures CountsOk(p, s')
  {
    hide Start, SeedAt;
    PendingUpdate(s.workers, t, s'.workers[t]);
  }

  /** While a worker is busy the main thread is still waiting. */
  lemma BusyParallel(p: Params, s: State, t: nat)
    requires CountsOk(p, s) && t < |s.workers| && !s.workers[t].Ready?
    ensures s.main.Parallel?
  {
  }

  lemma DrawPreserves(p: Params, s: State, t: nat)
    requires Inv(p, s) && Shaped(p, s) && t < |s.workers| && s.workers[t].Drawing?
    ensures WorkerStep(p, s, t).Some? && Inv(p, WorkerStep(p, s, t).value)
  {
    hide RingOk, WorkersOk, CountsOk, Wrap, Letters, Start, Slot, SeedAt, Length, Shaped, Drawn, Filled;
    DrawReady(p, s, t);
    BusyParallel(p, s, t);
    var w, s' := s.workers[t], WorkerStep(p, s, t).value;
    RingSeed(p, s, s');
    DrawnOneMore(p, w.numbers, Start(p, w.order), s.seed);
    FilledNothing(p, s, w.b, Start(p, w.order));
    WorkersAfterDraw(p, s, s', t);
    CountsAfterOwner(p, s, s', t);
  }

  lemma RingSeed(p: Params, s: State, s': State)
    requires RingOk(p, s) && s'.status == s.status && s'.blocks == s.blocks && s'.next == s.next
    requires s'.claimed == s.claimed && s'.written == s.written
    ensures RingOk(p, s')
  {
    hide Filled, Length, Start;
  }

  lemma FilledNothing(p: Params, s: State, b: nat, from: nat)
    requires RingOk(p, s) && b < p.ring
    ensures Filled(p, s.blocks[b], from, 0)
  {
  }

  // ----- filling a block -----

  lemma PositionInjective(j: nat, k: nat)
    requires j != k
    ensures Position(j) != Position(k)
  {
  }

  lemma RingAfterFill(p: Params, s: State, s': State, r: nat, at: nat, c: char)
    requires RingOk(p, s) && s.written <= r < s.claimed && s.status[Slot(p, r)] == 0 && at < BUFFER
    requires s'.status == s.status && s'.next == s.next && s'.claimed == s.claimed && s'.written == s.written
    requires s'.blocks == s.blocks[Slot(p, r) := s.blocks[Slot(p, r)][at := c]]
    ensures RingOk(p, s')
    ensures forall q :: s.written <= q < s.claimed && q != r ==> Slot(p, q) != Slot(p, r)
  {
    hide Filled, Length, Start, Slot;
    SlotsDistinct(p, s.written);
  }

  lemma FilledOneMore(p: Params, block: seq<char>, from: nat, j: nat, c: char)
    requires Filled(p, block, from, j) && j < BLOCK && c == Letter(p, from + j)
    ensures Position(j) < BUFFER && Filled(p, block[Position(j) := c], from, j + 1)
  {
    hide Letter;
    PositionInBuffer(j);
    var block' := block[Position(j) := c];
    forall k | 0 <= k < j + 1 ensures At(block', k) == Letter(p, from + k) {
      if k < j {
        PositionInjective(j, k);
        assert At(block', k) == At(block, k);
      }
    }
  }

  lemma WorkersAfterFill(p: Params, s: State, s': State, t: nat)
    requires RingOk(p, s) && WorkersOk(p, s) && RingOk(p, s') && OwnProgress(s, s', t)
    requires s.workers[t].Filling? && s'.workers[t].Filling? && WorkerOk(p, s', s'.workers[t])
    requires s'.seed == s.seed && s'.lock == s.lock
    requires forall q :: s.written <= q < s.claimed && q != s.workers[t].order ==>
               s'.blocks[Slot(p, q)] == s.blocks[Slot(p, q)]
    ensures WorkersOk(p, s')
  {
    hide Filled, Drawn, Length, Start, SeedAt, Slot;
    OwnersKept(p, s, s', t);
    forall u | 0 <= u < |s'.workers|
      ensures WorkerOk(p, s', s'.workers[u]) && (InCritical(s'.workers[u]) <==> s'.lock == Some(u))
    {
      if u != t {
        assert WorkerOk(p, s, s.workers[u]);
        assert Owns(s.workers[u]) ==> s.workers[u].order != s.workers[t].order;
      }
      assert InCritical(s.workers[u]) <==> s.lock == Some(u);
    }
  }

  lemma FillPreserves(p: Params, s: State, t: nat)
    requires Inv(p, s) && Shaped(p, s) && t < |s.workers| && s.workers[t].Filling? && s.workers[t].j < s.workers[t].len
    ensures Inv(p, WorkerStep(p, s, t).value)
  {
    hide WorkersOk, CountsOk, Wrap, Letters, Start, Slot, SeedAt, Length, Shaped, Filled, Position;
    var w, s' := s.workers[t], WorkerStep(p, s, t).value;
    OwnerFacts(p, s, t);
    LengthFacts(p, w.order);
    BusyParallel(p, s, t);
    PositionInBuffer(w.j);
    assert w.numbers[w.j] == SeedAt(p.seed, Start(p, w.order) + w.j + 1);
    FilledOneMore(p, s.blocks[w.b], Start(p, w.order), w.j, p.letter(w.numbers[w.j]));
    RingAfterFill(p, s, s', w.order, Position(w.j), p.letter(w.numbers[w.j]));
    hide RingOk;
    WorkersAfterFill(p, s, s', t);
    SameDrawing(s, s', t);
    SeedSettled(p, s, s', t);
    CountsAfterOwner(p, s, s', t);
  }

  lemma OwnerFacts(p: Params, s: State, t: nat)
    requires RingOk(p, s) && WorkersOk(p, s) && t < |s.workers| && s.workers[t].Filling?
    ensures WorkerOk(p, s, s.workers[t])
  {
  }

  lemma SameDrawing(s: State, s': State, t: nat)
    requires t < |s.workers| == |s'.workers| && s'.workers == s.workers[t := s'.workers[t]]
    requires s'.workers[t].Drawing? <==> s.workers[t].Drawing?
    ensures (forall u :: 0 <= u < |s'.workers| ==> !s'.workers[u].Drawing?) ==>
              forall u :: 0 <= u < |s.workers| ==> !s.workers[u].Drawing?
  {
    if forall u :: 0 <= u < |s'.workers| ==> !s'.workers[u].Drawing? {
      forall u | 0 <= u < |s.workers| ensures !s.workers[u].Drawing? {
        assert !s'.workers[u].Drawing?;
      }
    }
  }

  lemma SeedSettled(p: Params, s: State, s': State, t: nat)
    requires CountsOk(p, s) && s'.seed == s.seed
    ensures (forall u :: 0 <= u < |s.workers| ==> !s.workers[u].Drawing?) ==>
            s'.seed == SeedAt(p.seed, Start(p, s.claimed))
  {
  }

  // ----- finishing a block -----

  lemma RingAfterFinish(p: Params, s: State, s': State, r: nat)
    requires RingOk(p, s) && s.written <= r < s.claimed && s.status[Slot(p, r)] == 0
    requires Filled(p, s.blocks[Slot(p, r)], Start(p, r), Length(p, r))
    requires s'.blocks == s.blocks && s'.next == s.next && s'.claimed == s.claimed && s'.written == s.written
    requires s'.status == s.status[Slot(p, r) := Length(p, r)]
    ensures RingOk(p, s')
    ensures forall q :: s.written <= q < s.claimed && q != r ==> s'.status[Slot(p, q)] == s.status[Slot(p, q)]
  {
    hide Filled, Length, Start, Slot;
    SlotsDistinct(p, s.written);
  }

  /** What a finishing step of worker `t` does to the state. */
  ghost predicate FinishStep(p: Params, s: State, s': State, t: nat)
    requires RingOk(p, s) && RingOk(p, s')
  {
    && t < |s.workers| == |s'.workers| && s.workers[t].Filling? && s'.workers == s.workers[t := Ready]
    && s'.seed == s.seed && s'.lock == s.lock && s'.blocks == s.blocks && s'.next == s.next
    && s'.claimed == s.claimed && s'.written == s.written
    && s'.status[Slot(p, s.workers[t].order)] > 0
    && (forall q :: s.written <= q < s.claimed && q != s.workers[t].order ==>
          s'.status[Slot(p, q)] == s.status[Slot(p, q)])
    && (forall b :: 0 <= b < p.ring && s.status[b] > 0 ==> s'.status[b] > 0)
  }

  lemma OwnersAfterFinish(p: Params, s: State, s': State, t: nat)
    requires RingOk(p, s) && WorkersOk(p, s) && RingOk(p, s') && FinishStep(p, s, s', t)
    ensures forall r :: s'.written <= r < s'.claimed && s'.status[Slot(p, r)] == 0 ==> HasOwner(s', r)
  {
    hide Filled, Drawn, Length, Start, SeedAt, Slot, WorkerOk;
    forall r | s'.written <= r < s'.claimed && s'.status[Slot(p, r)] == 0 ensures HasOwner(s', r) {
      assert r != s.workers[t].order && HasOwner(s, r);
      var u :| 0 <= u < |s.workers| && Owns(s.workers[u]) && s.workers[u].order == r;
      assert s'.workers[u] == s.workers[u];
    }
  }

  lemma OtherAfterFinish(p: Params, s: State, s': State, t: nat, u: nat)
    requires RingOk(p, s) && WorkersOk(p, s) && RingOk(p, s') && FinishStep(p, s, s', t)
    requires u < |s.workers| && u != t
    ensures WorkerOk(p, s', s'.workers[u])
  {
    hide Filled, Drawn, Length, Start, SeedAt, Slot;
    assert WorkerOk(p, s, s.workers[u]);
    assert Owns(s.workers[u]) ==> s.workers[u].order != s.workers[t].order;
    assert s.next < p.ring;
  }

  lemma WorkersAfterFinish(p: Params, s: State, s': State, t: nat)
    requires RingOk(p, s) && WorkersOk(p, s) && RingOk(p, s') && FinishStep(p, s, s', t)
    ensures WorkersOk(p, s')
  {
    OwnersAfterFinish(p, s, s', t);
    hide Slot, RingOk;
    forall u | 0 <= u < |s'.workers|
      ensures WorkerOk(p, s', s'.workers[u]) && (InCritical(s'.workers[u]) <==> s'.lock == Some(u))
    {
      if u != t {
        OtherAfterFinish(p, s, s', t, u);
      }
      assert InCritical(s.workers[u]) <==> s.lock == Some(u);
    }
    hide WorkerOk;
  }

  lemma FinishPreserves(p: Params, s: State, t: nat)
    requires Inv(p, s) && Shaped(p, s) && t < |s.workers| && s.workers[t].Filling? && s.workers[t].j == s.workers[t].len
    ensures Inv(p, WorkerStep(p, s, t).value)
  {
    hide WorkersOk, CountsOk, Wrap, Letters, Start, Slot, SeedAt, Length, Shaped, Filled;
    var w, s' := s.workers[t], WorkerStep(p, s, t).value;
    OwnerFacts(p, s, t);
    BusyParallel(p, s, t);
    LengthFacts(p, w.order);
    RingAfterFinish(p, s, s', w.order);
    hide RingOk;
    WorkersAfterFinish(p, s, s', t);
    SameDrawing(s, s', t);
    SeedSettled(p, s, s', t);
    CountsAfterOwner(p, s, s', t);
  }

  // ----- the steps before a claim -----

  lemma EnterPreserves(p: Params, s: State, t: nat)
    requires Inv(p, s) && Shaped(p, s) && t < |s.workers|
    requires s.workers[t].Ready? || s.workers[t].Entering?
    requires WorkerStep(p, s, t).Some?
    ensures Inv(p, WorkerStep(p, s, t).value)
  {
    var w, s' := s.workers[t], WorkerStep(p, s, t).value;
    if w.Entering? { BusyParallel(p, s, t); }
    assert InCritical(w) <==> s.lock == Some(t);
    MovePreserves(p, s, t, s'.workers[t], s'.lock, s'.iterations);
  }

  /** The search stops at the first slot past the arc, or comes back to `next` when the ring is full. */
  lemma SearchPreserves(p: Params, s: State, t: nat)
    requires Inv(p, s) && Shaped(p, s) && t < |s.workers| && s.workers[t].Searching?
    ensures WorkerStep(p, s, t).Some? && Inv(p, WorkerStep(p, s, t).value)
  {
    hide Filled, Wrap, Letters, Length, Start, SeedAt, Slot;
    var w, s' := s.workers[t], WorkerStep(p, s, t).value;
    BusyParallel(p, s, t);
    assert InCritical(w) && WorkerOk(p, s, w);
    SlotAhead(p, s.written, w.i);
    StatusOfClaimed(p, s);
    assert WorkerOk(p, s, s'.workers[t]);
    MovePreserves(p, s, t, s'.workers[t], s.lock, s.iterations);
  }

  /** A claimed block is never marked unused. */
  lemma StatusOfClaimed(p: Params, s: State)
    requires RingOk(p, s)
    ensures forall r :: s.written <= r < s.claimed ==> s.status[Slot(p, r)] >= 0
  {
    hide Filled, Start, Slot;
  }

  lemma WaitPreserves(p: Params, s: State, t: nat)
    requires Inv(p, s) && Shaped(p, s) && t < |s.workers| && s.workers[t].Waiting? && s.status[s.workers[t].b] != 0
    ensures WorkerStep(p, s, t).Some? && Inv(p, WorkerStep(p, s, t).value)
  {
    hide Filled, Wrap, Letters, Length, Start, SeedAt, Slot;
    var w, s' := s.workers[t], WorkerStep(p, s, t).value;
    BusyParallel(p, s, t);
    assert InCritical(w) && WorkerOk(p, s, w);
    SlotStep(p, s.written);
    StatusOfClaimed(p, s);
    assert WorkerOk(p, s, s'.workers[t]);
    MovePreserves(p, s, t, s'.workers[t], s.lock, s.iterations);
  }

  lemma OutputtingPreserves(p: Params, s: State, t: nat)
    requires Inv(p, s) && Shaped(p, s) && t < |s.workers| && s.workers[t].Outputting?
    ensures WorkerStep(p, s, t).Some? && Inv(p, WorkerStep(p, s, t).value)
  {
    hide RingOk, CountsOk, OutputOk, Wrap, Letters, Start, SeedAt, Slot;
    BusyParallel(p, s, t);
    assert InCritical(s.workers[t]) && WorkerOk(p, s, s.workers[t]);
    if s.status[s.next] > 0 {
      forall u | 0 <= u < |s.workers| && InCritical(s.workers[u]) ensures u == t {}
      OutputPreserves(p, s);
    } else {
      MovePreserves(p, s, t, Claiming(s.workers[t].b), s.lock, s.iterations);
    }
  }

  // ----- every step of every actor -----

  lemma WorkerPreserves(p: Params, s: State, t: nat)
    requires Inv(p, s) && Shaped(p, s) && t < |s.workers| && WorkerStep(p, s, t).Some?
    ensures Inv(p, WorkerStep(p, s, t).value)
  {
    match s.workers[t]
    case Ready => EnterPreserves(p, s, t);
    case Entering => EnterPreserves(p, s, t);
    case Searching(_) => SearchPreserves(p, s, t);
    case Waiting(_) => WaitPreserves(p, s, t);
    case Outputting(_) => OutputtingPreserves(p, s, t);
    case Claiming(_) => ClaimPreserves(p, s, t);
    case Drawing(_, _, _, _) => DrawPreserves(p, s, t);
    case Filling(_, _, len, _, j) => if j < len { FillPreserves(p, s, t); } else { FinishPreserves(p, s, t); }
  }

  lemma MainPreserves(p: Params, s: State)
    requires Inv(p, s) && Shaped(p, s) && MainStep(p, s).Some?
    ensures Inv(p, MainStep(p, s).value)
  {
    hide Wrap, Letters, SeedAt, BlockText, Filled, Drawn, Length;
    if s.main.Flushing? && s.status[s.next] > 0 {
      OutputPreserves(p, s);
    } else {
      var s' := MainStep(p, s).value;
      RingSame(p, s, s');
      WorkersSame(p, s, s');
    }
  }

  lemma WorkersSame(p: Params, s: State, s': State)
    requires RingOk(p, s) && WorkersOk(p, s) && RingOk(p, s') && SameRing(s, s')
    requires s'.workers == s.workers && s'.lock == s.lock
    requires forall w :: WorkerOk(p, s, w) <==> WorkerOk(p, s', w)
    ensures WorkersOk(p, s')
  {
    hide WorkerOk, Slot, Filled, Length, Start;
    forall r | s'.written <= r < s'.claimed && s'.status[Slot(p, r)] == 0 ensures HasOwner(s', r) {
      assert HasOwner(s, r);
    }
  }

  /** Whoever moves, the invariant holds again, and so the next step of any actor is defined. */
  lemma StepPreserves(p: Params, s: State, t: nat)
    requires Inv(p, s) && Shaped(p, s) && Step(p, s, t).Some?
    ensures Inv(p, Step(p, s, t).value) && Shaped(p, Step(p, s, t).value)
  {
    hide Inv, Shaped;
    if t < |s.workers| { WorkerPreserves(p, s, t); } else { MainPreserves(p, s); }
    InvShaped(p, Step(p, s, t).value);
  }
}

/** Whole runs of the generator: they cannot get stuck, they end, and they write the sequential text. */
module FastaRuns {
  import opened Wrappers
  import opened Fasta
  import opened FastaSafety

  /** All blocks unused, all iterations still to be handed out; what the buffers hold does not matter. */
  predicate Initial(p: Params, s: State) {
    && p.ring > 0 && s.workers != [] && (forall t :: 0 <= t < |s.workers| ==> s.workers[t] == Ready)
    && s.main == Parallel && s.lock == None && s.iterations == Total(p)
    && |s.status| == |s.blocks| == p.ring
    && (forall b :: 0 <= b < p.ring ==> s.status[b] == -1 && |s.blocks[b]| == BUFFER)
    && s.next == 0 && s.left == p.n && s.seed == p.seed && s.out == [] && s.claimed == 0 && s.written == 0
  }

  /** `schedule` names the actor of each step. */
  ghost predicate Reaches(p: Params, s: State, schedule: seq<nat>, s': State)
    decreases |schedule|
  {
    if schedule == [] then s' == s
    else
      && Shaped(p, s) && Step(p, s, schedule[0]).Some?
      && Reaches(p, Step(p, s, schedule[0]).value, schedule[1..], s')
  }

  /** No actor can move. */
  ghost predicate Stuck(p: Params, s: State)
    requires Shaped(p, s)
  {
    forall t: nat :: Step(p, s, t).None?
  }

  lemma {:induction false} PendingNone(ws: seq<Worker>)
    requires forall t :: 0 <= t < |ws| ==> ws[t] == Ready
    ensures PendingCount(ws) == 0
  {
    if ws != [] { PendingNone(ws[1..]); }
  }

  lemma InitialInv(p: Params, s: State)
    requires Initial(p, s)
    ensures Inv(p, s) && Shaped(p, s)
  {
    PendingNone(s.workers);
    assert RingOk(p, s);
    InvShaped(p, s);
  }

  lemma {:induction false} RunKeeps(p: Params, s: State, schedule: seq<nat>, s': State)
    requires Inv(p, s) && Shaped(p, s) && Reaches(p, s, schedule, s')
    ensures Inv(p, s') && Shaped(p, s') && |s'.workers| == |s.workers|
    decreases |schedule|
  {
    if schedule != [] {
      StepPreserves(p, s, schedule[0]);
      StepKeepsWorkers(p, s, schedule[0]);
      hide Step, Inv, Shaped;
      RunKeeps(p, Step(p, s, schedule[0]).value, schedule[1..], s');
    }
  }

  lemma StepKeepsWorkers(p: Params, s: State, t: nat)
    requires Shaped(p, s) && Step(p, s, t).Some?
    ensures |Step(p, s, t).value.workers| == |s.workers|
  {
  }

  // ----- the ring and the text at any time -----

  /** The blocks in use are exactly the `claimed - written` ones from `next` on. */
  lemma InUseIsAnArc(p: Params, s: State, i: nat)
    requires Inv(p, s) && i < p.ring
    ensures |s.status| == p.ring && s.written <= s.claimed
    ensures s.status[(s.next + i) % p.ring] != -1 <==> i < s.claimed - s.written
  {
    hide Slot, Filled, Start, WorkersOk, CountsOk, OutputOk;
    SlotAhead(p, s.written, i);
    StatusOfClaimed(p, s);
  }

  /** At any time the text written is a prefix of the sequential program's. */
  lemma OutputIsPrefix(p: Params, s: State)
    requires Inv(p, s)
    ensures s.out <= SequentialText(p)
  {
    hide RingOk, WorkersOk, CountsOk, Wrap, Letters;
    var at := Start(p, s.written);
    LettersSplit(p, 0, at, p.n);
    assert at == s.written * BLOCK || at == p.n;
    hide Start;
    if at % WIDTH == 0 {
      WrapAppend(Letters(p, 0, at), Letters(p, at, p.n));
    } else {
      assert at == p.n;
    }
  }

  // ----- progress -----

  lemma CriticalCanStep(p: Params, s: State, t: nat)
    requires Inv(p, s) && Shaped(p, s) && s.lock == Some(t)
    ensures t < |s.workers| && (Step(p, s, t).None? ==> s.workers[t].Waiting? && s.status[s.workers[t].b] == 0)
  {
    hide Filled, Wrap, Letters, Start, SeedAt, Slot;
    assert InCritical(s.workers[t]) && WorkerOk(p, s, s.workers[t]);
  }

  /** A worker that waits for a block waits for one that another worker is filling. */
  lemma WaitedForIsFilled(p: Params, s: State, t: nat) returns (u: nat)
    requires Inv(p, s) && Shaped(p, s) && s.lock == Some(t) && t < |s.workers|
    requires s.workers[t].Waiting? && s.status[s.workers[t].b] == 0
    ensures u < |s.workers| && s.workers[u].Filling? && Step(p, s, u).Some?
  {
    hide Filled, Wrap, Letters, Start, SeedAt, Slot, CountsOk, OutputOk, Drawn, Length;
    assert WorkerOk(p, s, s.workers[t]);
    SlotStep(p, s.written);
    assert HasOwner(s, s.written);
    hide RingOk, WorkerOk;
    u :| 0 <= u < |s.workers| && Owns(s.workers[u]) && s.workers[u].order == s.written;
    OthersOutside(p, s, t, u);
  }

  /** As long as the main thread is not done, some actor can move. */
  lemma NeverStuck(p: Params, s: State) returns (t: nat)
    requires Inv(p, s) && Shaped(p, s) && !s.main.Done? && s.workers != []
    ensures Step(p, s, t).Some?
  {
    if !s.main.Parallel? {
      t := |s.workers|;
    } else if s.lock.Some? {
      t := s.lock.value;
      CriticalCanStep(p, s, t);
      if Step(p, s, t).None? { t := WaitedForIsFilled(p, s, t); }
    } else {
      t := ProgressOutside(p, s);
    }
  }

  lemma ProgressOutside(p: Params, s: State) returns (t: nat)
    requires Inv(p, s) && Shaped(p, s) && s.main.Parallel? && s.lock.None? && s.workers != []
    ensures Step(p, s, t).Some?
  {
    hide RingOk, Wrap, Letters, Start, SeedAt;
    if u: nat :| u < |s.workers| && s.workers[u] != Ready {
      assert !InCritical(s.workers[u]);
      t := u;
    } else {
      t := if s.iterations == 0 then |s.workers| else 0;
    }
  }

  // ----- runs end -----

  function Weight(p: Params, w: Worker): (n: nat) {
    match w
    case Ready => 0
    case Entering => 2 * BLOCK + 7 + p.ring
    case Searching(i) => 2 * BLOCK + 6 + if i < p.ring then p.ring - i else 0
    case Waiting(_) => 2 * BLOCK + 5
    case Outputting(_) => 2 * BLOCK + 4
    case Claiming(_) => 2 * BLOCK + 3
    case Drawing(_, _, len, numbers) => len + 2 + if |numbers| < len then len - |numbers| else 0
    case Filling(_, _, len, _, j) => 1 + if j < len then len - j else 0
  }

  function Weights(p: Params, ws: seq<Worker>): nat {
    if ws == [] then 0 else Weight(p, ws[0]) + Weights(p, ws[1..])
  }

  lemma {:induction false} WeightsUpdate(p: Params, ws: seq<Worker>, t: nat, w: Worker)
    requires t < |ws|
    ensures Weights(p, ws[t := w]) == Weights(p, ws) - Weight(p, ws[t]) + Weight(p, w)
  {
    if t > 0 {
      WeightsUpdate(p, ws[1..], t - 1, w);
      assert ws[t := w][1..] == ws[1..][t - 1 := w];
    } else {
      assert ws[0 := w][1..] == ws[1..];
    }
  }

  function Phase(m: Main): nat {
    match m case Parallel => 2 case Flushing => 1 case Done => 0
  }

  /** A bound on the number of steps still to come. */
  function StepsLeft(p: Params, s: State): nat {
    s.iterations * (2 * BLOCK + 8 + p.ring) + Weights(p, s.workers) + Phase(s.main)
    + if s.written < Total(p) then Total(p) - s.written else 0
  }

  lemma WrittenBelowTotal(p: Params, s: State)
    requires RingOk(p, s) && s.status[s.next] > 0
    ensures s.written < s.claimed <= Total(p)
  {
    hide Filled, Length, Start;
    assert s.next == Slot(p, s.written);
  }

  lemma StepDecreases(p: Params, s: State, t: nat)
    requires Inv(p, s) && Shaped(p, s) && Step(p, s, t).Some?
    ensures StepsLeft(p, Step(p, s, t).value) < StepsLeft(p, s)
  {
    hide RingOk, WorkersOk, OutputOk, CountsOk, BlockText, Total, WorkerStep;
    var s' := Step(p, s, t).value;
    if s.status[s.next] > 0 { WrittenBelowTotal(p, s); }
    if t < |s.workers| {
      hide Shaped;
      WorkerLighter(p, s, s', t);
      hide Step, Weight;
      WeightsUpdate(p, s.workers, t, s'.workers[t]);
      IterationsLeft(s.iterations, s'.iterations, 2 * BLOCK + 8 + p.ring);
    }
  }

  lemma IterationsLeft(n: nat, m: nat, weight: nat)
    ensures n == m + 1 ==> n * weight == m * weight + weight
  {
  }

  lemma WorkerLighter(p: Params, s: State, s': State, t: nat)
    requires Shaped(p, s) && t < |s.workers| && WorkerStep(p, s, t) == Some(s')
    ensures s'.main == s.main
    ensures s'.workers == s.workers[t := s'.workers[t]]
    ensures
      || (s'.iterations == s.iterations && s'.written == s.written
         && Weight(p, s'.workers[t]) < Weight(p, s.workers[t]))
      || (s'.iterations + 1 == s.iterations && s'.written == s.written
          && Weight(p, s'.workers[t]) < Weight(p, s.workers[t]) + 2 * BLOCK + 8 + p.ring)
      || (s'.iterations == s.iterations && s'.written == s.written + 1 && s'.workers == s.workers
         && s.status[s.next] > 0)
  {
    hide BlockText;
  }

  /** Every run is finite, whatever the schedule. */
  lemma {:induction false} RunsAreFinite(p: Params, s: State, schedule: seq<nat>, s': State)
    requires Inv(p, s) && Shaped(p, s) && Reaches(p, s, schedule, s')
    ensures |schedule| + StepsLeft(p, s') <= StepsLeft(p, s)
    decreases |schedule|
  {
    if schedule != [] {
      StepPreserves(p, s, schedule[0]);
      StepDecreases(p, s, schedule[0]);
      hide Step, Inv, Shaped, StepsLeft;
      RunsAreFinite(p, Step(p, s, schedule[0]).value, schedule[1..], s');
    }
  }

  // ----- what a finished run has written -----

  lemma AllWritten(p: Params, s: State)
    requires RingOk(p, s) && WorkersOk(p, s) && s.status[s.next] <= 0
    requires forall t :: 0 <= t < |s.workers| ==> s.workers[t] == Ready
    ensures s.written == s.claimed
  {
    hide Filled, Start, Length, Slot;
    assert forall r :: !HasOwner(s, r);
    assert s.next == Slot(p, s.written);
    LengthPositive(p, s.written);
  }

  lemma LengthPositive(p: Params, r: nat)
    ensures r < Total(p) ==> Length(p, r) > 0
  {
    if r < Total(p) { LengthFacts(p, r); }
  }

  lemma DoneIsComplete(p: Params, s: State)
    requires Inv(p, s) && s.main.Done?
    ensures s.out == SequentialText(p) && s.seed == SeedAt(p.seed, p.n)
  {
    hide Wrap, Letters, SeedAt, Filled;
    PendingNone(s.workers);
    AllWritten(p, s);
  }

  /**
    Under every schedule: the run ends, only the end of the main thread stops it, and then the text
    is the sequential one and the seed is the one after as many draws as there are characters.
  */
  lemma ParallelIsSequential(p: Params, s: State, schedule: seq<nat>, s': State)
    requires Initial(p, s) && Reaches(p, s, schedule, s')
    ensures Shaped(p, s') && s'.out <= SequentialText(p)
    ensures |schedule| <= StepsLeft(p, s)
    ensures Stuck(p, s') <==> s'.main.Done?
    ensures Stuck(p, s') ==> s'.out == SequentialText(p) && s'.seed == SeedAt(p.seed, p.n)
  {
    hide Inv, Step, StepsLeft, Reaches, Letters, Wrap;
    InitialInv(p, s);
    RunKeeps(p, s, schedule, s');
    OutputIsPrefix(p, s');
    RunsAreFinite(p, s, schedule, s');
    if s'.main.Done? {
      DoneIsComplete(p, s');
      DoneIsStuck(p, s');
    } else {
      var t := NeverStuck(p, s');
    }
  }

  lemma DoneIsStuck(p: Params, s: State)
    requires Inv(p, s) && Shaped(p, s) && s.main.Done?
    ensures Stuck(p, s)
  {
    forall t: nat ensures Step(p, s, t).None? {
      if t < |s.workers| { assert s.workers[t] == Ready; }
    }
  }
}

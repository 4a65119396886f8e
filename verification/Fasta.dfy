/**
  The parallel generator of pseudorandom sequences: workers claim blocks of a ring in a critical
  section, draw their random numbers there, and fill and release the blocks outside it.
*/
module Fasta {
  import opened Wrappers

  const WIDTH: nat := 60
  const LINES: nat := 1024
  const BLOCK: nat := WIDTH * LINES
  const BUFFER: nat := BLOCK + LINES

  // ----- the sequential program -----

  const IM: nat := 139968
  const IA: nat := 3877
  const IC: nat := 29573

  function Lcg(seed: nat): nat {
    (seed * IA + IC) % IM
  }

  /** The seed after `i` draws. */
  function SeedAt(seed: nat, i: nat): nat {
    if i == 0 then seed else Lcg(SeedAt(seed, i - 1))
  }

  /** Lines of 60 characters, the last one possibly shorter. */
  function Wrap(text: seq<char>): seq<char> {
    if text == [] then []
    else if |text| < WIDTH then text + ['\n']
    else text[..WIDTH] + ['\n'] + Wrap(text[WIDTH..])
  }

  /** How many characters to create, the ring's size, the first seed, and the letter each random number selects. */
  datatype Params = Params(n: nat, ring: nat, seed: nat, letter: nat -> char)

  function Letter(p: Params, i: nat): char {
    p.letter(SeedAt(p.seed, i + 1))
  }

  function Letters(p: Params, from: nat, to: nat): (s: seq<char>)
    requires from <= to
    ensures |s| == to - from
  {
    seq(to - from, i requires 0 <= i < to - from => Letter(p, from + i))
  }

  /** What one thread would write: every letter in the order of the draws, wrapped. */
  function SequentialText(p: Params): seq<char> {
    Wrap(Letters(p, 0, p.n))
  }

  // ----- the parallel program -----

  /**
    Where a worker is. `order` is the rank of its claim among all claims; no step looks at it.
  */
  datatype Worker =
    | Ready
    | Entering
    | Searching(i: nat)
    | Waiting(b: nat)
    | Outputting(b: nat)
    | Claiming(b: nat)
    | Drawing(b: nat, order: nat, len: nat, numbers: seq<nat>)
    | Filling(b: nat, order: nat, len: nat, numbers: seq<nat>, j: nat)

  datatype Main = Parallel | Flushing | Done

  /** A status is -1 for an unused block, 0 for one being filled, and the length of a finished one. */
  datatype State = State(
    workers: seq<Worker>, main: Main, lock: Option<nat>, iterations: nat,
    status: seq<int>, blocks: seq<seq<char>>, next: nat, left: nat, seed: nat, out: seq<char>,
    claimed: nat, written: nat)

  /** Where character `j` of a block is kept: each line is followed by room for a line feed. */
  function Position(j: nat): nat {
    (j / WIDTH) * (WIDTH + 1) + j % WIDTH
  }

  /** The text of a finished block from its line number `m` on, with `left` characters still to write. */
  function BlockText(block: seq<char>, m: nat, left: nat): seq<char>
    requires |block| == BUFFER && m * WIDTH + left <= BLOCK
    decreases left
  {
    var line := m * (WIDTH + 1);
    if left == 0 then []
    else if left < WIDTH then block[line..line + left] + ['\n']
    else block[line..line + WIDTH] + ['\n'] + BlockText(block, m + 1, left - WIDTH)
  }

  predicate Shaped(p: Params, s: State) {
    && p.ring > 0 && |s.status| == |s.blocks| == p.ring && s.next < p.ring
    && (forall b :: 0 <= b < p.ring ==> |s.blocks[b]| == BUFFER && -1 <= s.status[b] <= BLOCK)
    && (forall t :: 0 <= t < |s.workers| ==>
          match s.workers[t]
          case Waiting(b) => b < p.ring
          case Outputting(b) => b < p.ring
          case Claiming(b) => b < p.ring && s.status[b] < BLOCK
          case Drawing(b, _, len, _) => b < p.ring && len <= BLOCK
          case Filling(b, _, len, numbers, j) => b < p.ring && len <= BLOCK && |numbers| == len && j <= len
          case _ => true)
  }

  /** Write out the block at `next` and mark it unused. */
  function OutputNext(p: Params, s: State): State
    requires Shaped(p, s) && s.status[s.next] > 0
  {
    s.(out := s.out + BlockText(s.blocks[s.next], 0, s.status[s.next]),
       status := s.status[s.next := -1],
       next := (s.next + 1) % p.ring,
       written := s.written + 1)
  }

  /** One atomic step of worker `t`, or None when it cannot move. */
  function WorkerStep(p: Params, s: State, t: nat): Option<State>
    requires Shaped(p, s) && t < |s.workers|
  {
    match s.workers[t]
    case Ready =>
      if s.iterations == 0 || !s.main.Parallel? then None
      else Some(s.(iterations := s.iterations - 1, workers := s.workers[t := Entering]))
    case Entering =>
      if s.lock.Some? then None else Some(s.(lock := Some(t), workers := s.workers[t := Searching(0)]))
    case Searching(i) =>
      var b := (s.next + i) % p.ring;
      if i >= p.ring || s.status[b] == -1 then Some(s.(workers := s.workers[t := Waiting(b)]))
      else Some(s.(workers := s.workers[t := Searching(i + 1)]))
    case Waiting(b) =>
      if s.status[b] == 0 then None else Some(s.(workers := s.workers[t := Outputting(b)]))
    case Outputting(b) =>
      if s.status[s.next] > 0 then Some(OutputNext(p, s))
      else Some(s.(workers := s.workers[t := Claiming(b)]))
    case Claiming(b) =>
      var len := if s.left < BLOCK then s.left else BLOCK;
      Some(s.(status := s.status[b := s.status[b] + 1], left := s.left - len,
              workers := s.workers[t := Drawing(b, s.claimed, len, [])], claimed := s.claimed + 1))
    case Drawing(b, r, len, numbers) =>
      if |numbers| < len then
        var seed := Lcg(s.seed);
        Some(s.(seed := seed, workers := s.workers[t := Drawing(b, r, len, numbers + [seed])]))
      else if |numbers| == len then
        Some(s.(lock := None, workers := s.workers[t := Filling(b, r, len, numbers, 0)]))
      else None
    case Filling(b, r, len, numbers, j) =>
      if j < len then
        PositionInBuffer(j);
        Some(s.(blocks := s.blocks[b := s.blocks[b][Position(j) := p.letter(numbers[j])]],
                workers := s.workers[t := Filling(b, r, len, numbers, j + 1)]))
      else
        Some(s.(status := s.status[b := len], workers := s.workers[t := Ready]))
  }

  /** The main thread waits for all workers and then writes what is left. */
  function MainStep(p: Params, s: State): Option<State>
    requires Shaped(p, s)
  {
    match s.main
    case Parallel =>
      if s.iterations == 0 && forall t :: 0 <= t < |s.workers| ==> s.workers[t] == Ready
      then Some(s.(main := Flushing)) else None
    case Flushing => if s.status[s.next] > 0 then Some(OutputNext(p, s)) else Some(s.(main := Done))
    case Done => None
  }

  /** Actor `t` is a worker, or the main thread when `t` is the number of workers. */
  function Step(p: Params, s: State, t: nat): Option<State>
    requires Shaped(p, s)
  {
    if t < |s.workers| then WorkerStep(p, s, t) else if t == |s.workers| then MainStep(p, s) else None
  }

  lemma PositionInBuffer(j: nat)
    requires j < BLOCK
    ensures Position(j) < BUFFER
  {
  }
}

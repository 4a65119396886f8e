/** The loops inside the generator's steps, on the blocks as arrays that they change in place. */
module FastaBlocks {
  import opened Wrappers
  import opened Fasta
  import opened FastaSafety
  import opened FastaRuns

  lemma {:induction false} HeldText(block: seq<char>, other: seq<char>, m: nat, left: nat)
    requires |block| == |other| == BUFFER && m * WIDTH + left <= BLOCK
    requires forall k :: 0 <= k < m * WIDTH + left ==> At(block, k) == At(other, k)
    ensures BlockText(block, m, left) == BlockText(other, m, left)
    decreases left
  {
    var line, done := m * (WIDTH + 1), m * WIDTH;
    var width := if left < WIDTH then left else WIDTH;
    var mine, theirs := block[line..line + width], other[line..line + width];
    forall k | 0 <= k < width ensures mine[k] == theirs[k] {
      assert Position(done + k) == line + k;
      assert At(block, done + k) == At(other, done + k);
    }
    assert mine == theirs;
    if left >= WIDTH { HeldText(block, other, m + 1, left - WIDTH); }
  }

  /** Looking up and storing each letter, stepping over the room for a line feed at the end of a line. */
  method FillBlock(p: Params, block: array<char>, numbers: seq<nat>)
    requires block.Length == BUFFER && |numbers| <= BLOCK
    modifies block
    ensures forall k :: 0 <= k < |numbers| ==> At(block[..], k) == p.letter(numbers[k])
    ensures forall i :: 0 <= i < BUFFER && (forall k :: 0 <= k < |numbers| ==> Position(k) != i) ==>
              block[i] == old(block[i])
  {
    var line, column := 0, 0;
    for j := 0 to |numbers|
      invariant column < WIDTH && line == (j / WIDTH) * (WIDTH + 1) && column == j % WIDTH
      invariant forall k :: 0 <= k < j ==> At(block[..], k) == p.letter(numbers[k])
      invariant forall i :: 0 <= i < BUFFER && (forall k :: 0 <= k < |numbers| ==> Position(k) != i) ==>
                  block[i] == old(block[i])
    {
      PositionInBuffer(j);
      assert Position(j) == line + column;
      forall k | 0 <= k < j ensures Position(k) != Position(j) { PositionInjective(j, k); }
      ghost var before := block[..];
      block[line + column] := p.letter(numbers[j]);
      assert block[..] == before[Position(j) := p.letter(numbers[j])];
      forall k | 0 <= k < j ensures At(block[..], k) == At(before, k) {}
      column := column + 1;
      if column == WIDTH {
        column := 0;
        line := line + WIDTH + 1;
      }
    }
  }

  /** The blocks, their statuses, the first one to write, and everything written. */
  class BlockQueue {
    const blocks: seq<array<char>>
    const statuses: array<int>
    var next: nat
    var out: seq<char>

    constructor (blocks: seq<array<char>>, statuses: array<int>)
      requires |blocks| == statuses.Length > 0 && forall b :: 0 <= b < |blocks| ==> blocks[b].Length == BUFFER
      requires forall b, c :: 0 <= b < c < |blocks| ==> blocks[b] != blocks[c]
      modifies statuses
      ensures Valid() && this.blocks == blocks && this.statuses == statuses && next == 0 && out == []
      ensures forall b :: 0 <= b < |blocks| ==> statuses[b] == -1
    {
      this.blocks, this.statuses, next, out := blocks, statuses, 0, [];
      new;
      for i := 0 to statuses.Length
        invariant next == 0 && out == [] && forall b :: 0 <= b < i ==> statuses[b] == -1
      {
        statuses[i] := -1;
      }
    }

    ghost predicate Valid()
      reads this, statuses
    {
      && |blocks| == statuses.Length > next
      && (forall b :: 0 <= b < |blocks| ==> blocks[b].Length == BUFFER && -1 <= statuses[b] <= BLOCK)
      && (forall b, c :: 0 <= b < c < |blocks| ==> blocks[b] != blocks[c])
    }

    ghost function Buffers(): set<object> {
      set a | a in blocks
    }

    /** The queue of state `s`; buffers need to agree only on the characters of finished blocks. */
    ghost predicate Models(p: Params, s: State)
      requires Shaped(p, s)
      reads this, statuses, Buffers()
    {
      && Valid() && |blocks| == p.ring && statuses[..] == s.status && next == s.next && out == s.out
      && |s.blocks| == |s.status| == p.ring
      && forall b :: 0 <= b < |blocks| ==> Agrees(blocks[b][..], s.blocks[b], s.status[b])
    }

    /** Write the lines of block `b`, putting the line feeds into the buffer first. */
    method WriteBlock(b: nat)
      requires Valid() && b < |blocks| && statuses[b] > 0
      modifies this`out, blocks[b]
      ensures out == old(out) + BlockText(old(blocks[b][..]), 0, statuses[b])
    {
      hide BlockText;
      var block := blocks[b];
      ghost var row := block[..];
      ghost var rest, m: nat := BlockText(row, 0, statuses[b]), 0;
      var line, left := 0, statuses[b];
      while left > 0
        invariant 0 <= left && out + rest == old(out) + BlockText(row, 0, statuses[b])
        invariant if left == 0 then rest == [] else
          && line == m * (WIDTH + 1) && m * WIDTH + left <= BLOCK
          && block[line..] == row[line..] && rest == BlockText(row, m, left)
      {
        TextStep(row, m, left);
        block[line + WIDTH] := '\n';
        var length := WIDTH;
        if left < WIDTH {
          length := left;
          block[line + length] := '\n';
        }
        LineWritten(block[..], row, line, length);
        out := out + block[line..line + length + 1];
        left := left - length;
        line := line + length + 1;
        m := m + 1;
        rest := rest[length + 1..];
      }
    }

    /** Write the block at `next`, mark it unused and move on. */
    method OutputOne(ghost p: Params, ghost s: State)
      requires Shaped(p, s) && Models(p, s) && statuses[next] > 0
      modifies this, statuses, Buffers()
      ensures Shaped(p, OutputNext(p, s)) && Models(p, OutputNext(p, s))
    {
      hide BlockText;
      HeldText(blocks[next][..], s.blocks[next], 0, statuses[next]);
      OutputKeepsShape(p, s);
      hide Shaped;
      assert blocks[next] in Buffers();
      WriteBlock(next);
      assert forall b :: 0 <= b < |blocks| && b != next ==> blocks[b][..] == old(blocks[b][..]);
      statuses[next] := -1;
      next := (next + 1) % |blocks|;
    }

    /** Write all finished blocks from `next` on and mark them unused. */
    method OutputBlocks(ghost p: Params, ghost s: State)
      requires Shaped(p, s) && Models(p, s)
      modifies this, statuses, Buffers()
      ensures Shaped(p, Flushed(p, s)) && Models(p, Flushed(p, s))
    {
      hide Agrees, OutputNext;
      ghost var at := s;
      while statuses[next] > 0
        invariant Shaped(p, at) && Models(p, at) && Flushed(p, at) == Flushed(p, s)
        decreases Finished(at.status)
      {
        FlushStep(p, at);
        OutputOne(p, at);
        at := OutputNext(p, at);
      }
      FlushStep(p, at);
    }
  }

  lemma FlushStep(p: Params, s: State)
    requires Shaped(p, s)
    ensures if s.status[s.next] <= 0 then Flushed(p, s) == s
            else
              && Shaped(p, OutputNext(p, s)) && Flushed(p, s) == Flushed(p, OutputNext(p, s))
              && Finished(OutputNext(p, s).status) < Finished(s.status)
  {
    if s.status[s.next] > 0 {
      FinishedOneLess(s.status, s.next);
      OutputKeepsShape(p, s);
    }
  }

  lemma TextStep(row: seq<char>, m: nat, left: nat)
    requires |row| == BUFFER && m * WIDTH + left <= BLOCK && left > 0
    ensures var length, text := if left < WIDTH then left else WIDTH, BlockText(row, m, left);
            && m * (WIDTH + 1) + WIDTH < BUFFER && (m + 1) * WIDTH + (left - length) <= BLOCK + WIDTH - length
            && |text| > length && text[..length + 1] == row[m * (WIDTH + 1)..][..length] + ['\n']
            && text[length + 1..] == if left <= WIDTH then [] else BlockText(row, m + 1, left - WIDTH)
  {
  }

  lemma LineWritten(block: seq<char>, row: seq<char>, line: nat, length: nat)
    requires |block| == |row| && line + length < |row| && block[line + length] == '\n'
    requires forall i :: line <= i < line + length ==> block[i] == row[i]
    ensures block[line..line + length + 1] == row[line..][..length] + ['\n']
  {
  }

  /** What is left after writing every finished block from `next` on. */
  ghost function Flushed(p: Params, s: State): (r: State)
    requires Shaped(p, s)
    ensures Shaped(p, r) && r.status[r.next] <= 0
    decreases Finished(s.status)
  {
    if s.status[s.next] <= 0 then s
    else
      FinishedOneLess(s.status, s.next);
      OutputKeepsShape(p, s);
      Flushed(p, OutputNext(p, s))
  }

  lemma OutputKeepsShape(p: Params, s: State)
    requires Shaped(p, s) && s.status[s.next] > 0
    ensures Shaped(p, OutputNext(p, s))
  {
  }

  /** A worker that writes in the critical section, left alone, gets to the state that `OutputBlocks` computes. */
  lemma {:induction false} FlushedBySteps(p: Params, s: State, t: nat) returns (schedule: seq<nat>)
    requires Shaped(p, s) && t < |s.workers| && s.workers[t].Outputting?
    ensures (forall i :: 0 <= i < |schedule| ==> schedule[i] == t) && Reaches(p, s, schedule, Flushed(p, s))
    decreases Finished(s.status)
  {
    FlushStep(p, s);
    schedule := [];
    if s.status[s.next] > 0 {
      var rest := FlushedBySteps(p, OutputNext(p, s), t);
      schedule := [t] + rest;
      assert schedule[1..] == rest && Step(p, s, schedule[0]) == Some(OutputNext(p, s));
    }
  }

  function Finished(status: seq<int>): nat {
    if status == [] then 0 else (if status[0] > 0 then 1 else 0) + Finished(status[1..])
  }

  lemma {:induction false} FinishedOneLess(status: seq<int>, b: nat)
    requires b < |status| && status[b] > 0
    ensures Finished(status[b := -1]) < Finished(status)
  {
    if b > 0 {
      FinishedOneLess(status[1..], b - 1);
      assert status[b := -1][1..] == status[1..][b - 1 := -1];
    } else {
      assert status[0 := -1][1..] == status[1..];
    }
  }

  ghost predicate Agrees(block: seq<char>, other: seq<char>, status: int) {
    |block| == |other| == BUFFER && status <= BLOCK && forall k :: 0 <= k < status ==> At(block, k) == At(other, k)
  }
}

/** The in-place procedure, and that it leaves what the line-by-line program writes. */
module RevcompProcess {
  import opened Fasta
  import opened Revcomp

  /** `full` lines of 60 characters and a last one of 1 to 60. */
  ghost predicate Lines(n: nat, full: nat, last: nat) {
    n == WIDTH * full + last && 0 < last <= WIDTH
  }

  lemma LinesOf(n: nat) returns (full: nat, last: nat)
    requires n > 0
    ensures Lines(n, full, last)
  {
    full := (n - 1) / WIDTH;
    last := n - WIDTH * full;
  }

  lemma WrappedSize(text: seq<char>, full: nat, last: nat)
    requires Lines(|text|, full, last)
    ensures |Wrap(text)| == (WIDTH + 1) * full + last + 1
    ensures ((WIDTH + 1) * full + last) % (WIDTH + 1) == last
  {
    WrapSize(text);
    assert (WIDTH * full + last + WIDTH - 1) / WIDTH == full + 1;
  }

  /** The body, without its last line feed, once each line's own feed has moved to place `last` of the line. */
  function Shifted(body: seq<char>, last: nat): (s: seq<char>)
    requires 0 < last
    ensures |s| == |body|
  {
    seq(|body|, q requires 0 <= q < |body| =>
      var b := q % (WIDTH + 1);
      if b == last then '\n' else if b < last then body[q] else body[q - 1])
  }

  lemma ShiftedAt(body: seq<char>, last: nat, a: nat, b: nat)
    requires 0 < last && b <= WIDTH && (WIDTH + 1) * a + b < |body|
    ensures var q := (WIDTH + 1) * a + b;
            Shifted(body, last)[q] == if b == last then '\n' else if b < last then body[q] else body[q - 1]
  {
    assert ((WIDTH + 1) * a + b) % (WIDTH + 1) == b;
  }

  /** Reading the shifted body backwards gives the wrapped reversal. */
  lemma ShiftReverses(text: seq<char>, f: char -> char, full: nat, last: nat, a: nat, b: nat)
    requires Lines(|text|, full, last) && f('\n') == '\n' && b <= WIDTH
    requires (WIDTH + 1) * a + b < (WIDTH + 1) * full + last
    ensures var size, p := (WIDTH + 1) * full + last, (WIDTH + 1) * a + b;
            && |Wrap(text)| == |Wrap(Reversed(text, f))| == size + 1
            && f(Shifted(Wrap(text)[..size], last)[size - 1 - p]) == Wrap(Reversed(text, f))[p]
  {
    hide Wrap, Shifted;
    var size, p := (WIDTH + 1) * full + last, (WIDTH + 1) * a + b;
    WrappedSize(text, full, last);
    var body, reversed := Wrap(text)[..size], Reversed(text, f);
    WrappedSize(reversed, full, last);
    WrapAt(reversed, a, b);
    if b < last {
      ShiftedAt(body, last, full - a, last - 1 - b);
      WrapAt(text, full - a, last - 1 - b);
    } else {
      var line, place := full - a - 1, WIDTH + last - b;
      ShiftedAt(body, last, line, place);
      if b < WIDTH { WrapAt(text, line, place - 1); }
    }
  }

  ghost predicate LineShifted(now: seq<char>, next: seq<char>, m: nat, n: nat) {
    && |next| == |now| > m + n
    && forall i {:trigger next[i]} :: 0 <= i < |now| ==>
         next[i] == if i == m then '\n' else if m < i <= m + n then now[i - 1] else now[i]
  }

  /** Move `n` characters up by one place, as if through a copy, and put a line feed in front of them. */
  method ShiftLine(buf: array<char>, m: nat, n: nat)
    requires m + n < buf.Length
    modifies buf
    ensures LineShifted(old(buf[..]), buf[..], m, n)
  {
    forall i | m < i <= m + n {
      buf[i] := buf[i - 1];
    }
    buf[m] := '\n';
  }

  /** Every full line of the body ends in a line feed. */
  ghost predicate FeedsInPlace(body: seq<char>) {
    forall q :: 0 <= q < |body| && q % (WIDTH + 1) == WIDTH ==> body[q] == '\n'
  }

  lemma NothingToShift(body: seq<char>)
    requires FeedsInPlace(body)
    ensures Shifted(body, WIDTH) == body
  {
  }

  /** The first `a` lines have been shifted, nothing else has changed. */
  ghost predicate ShiftedSoFar(before: seq<char>, now: seq<char>, from: nat, to: nat, last: nat, a: nat)
    requires from <= to < |before| == |now| && 0 < last && (WIDTH + 1) * a <= to - from
  {
    forall i :: 0 <= i < |before| ==>
      now[i] == if from <= i < from + (WIDTH + 1) * a then Shifted(before[from..to], last)[i - from] else before[i]
  }

  lemma ShiftedMore(before: seq<char>, now: seq<char>, next: seq<char>, from: nat, to: nat, last: nat, a: nat)
    requires from <= to < |before| == |now| == |next| && 0 < last < WIDTH && (WIDTH + 1) * (a + 1) <= to - from
    requires ShiftedSoFar(before, now, from, to, last, a)
    requires LineShifted(now, next, from + (WIDTH + 1) * a + last, WIDTH - last)
    ensures ShiftedSoFar(before, next, from, to, last, a + 1)
  {
    hide Shifted;
    var body, start := before[from..to], (WIDTH + 1) * a;
    forall i | 0 <= i < |before|
      ensures next[i] == if from <= i < from + start + WIDTH + 1 then Shifted(body, last)[i - from] else before[i]
    {
      if from + start <= i < from + start + WIDTH + 1 {
        var b := i - from - start;
        ShiftedAt(body, last, a, b);
        assert now[i] == before[i] && body[start + b] == before[i];
        assert b > 0 ==> now[i - 1] == before[i - 1] && body[start + b - 1] == before[i - 1];
      }
    }
  }

  lemma ShiftedAll(before: seq<char>, now: seq<char>, from: nat, to: nat, full: nat, last: nat)
    requires from <= to < |before| == |now| && 0 < last && to - from == (WIDTH + 1) * full + last && last < WIDTH
    requires ShiftedSoFar(before, now, from, to, last, full)
    ensures now[..from] == before[..from] && now[to..] == before[to..]
    ensures now[from..to] == Shifted(before[from..to], last)
  {
    hide Shifted;
    var body, start := before[from..to], (WIDTH + 1) * full;
    forall q | 0 <= q < to - from ensures now[from..to][q] == Shifted(body, last)[q] {
      if q >= start { ShiftedAt(body, last, full, q - start); }
    }
  }

  /** Shift the line feeds of the body between `from` and `to`. */
  method ShiftFeeds(buf: array<char>, from: nat, to: nat, ghost full: nat, ghost last: nat)
    requires from <= to < buf.Length && to - from == (WIDTH + 1) * full + last && 0 < last <= WIDTH
    requires FeedsInPlace(buf[from..to])
    modifies buf
    ensures buf[..from] == old(buf[..from]) && buf[to..] == old(buf[to..])
    ensures buf[from..to] == Shifted(old(buf[from..to]), last)
  {
    hide Shifted, FeedsInPlace, ShiftedSoFar;
    ghost var before := buf[..];
    RemainderOf(full, last);
    var off := WIDTH - (to - from) % (WIDTH + 1);
    NothingShifted(before, from, to, last);
    if off != 0 {
      var m := from + WIDTH - off;
      ghost var a: nat := 0;
      while m < to
        invariant m == from + (WIDTH + 1) * a + last && a <= full
        invariant ShiftedSoFar(before, buf[..], from, to, last, a)
        decreases full - a
      {
        ghost var now := buf[..];
        ShiftLine(buf, m, off);
        ShiftedMore(before, now, buf[..], from, to, last, a);
        m := m + WIDTH + 1;
        a := a + 1;
      }
      ShiftedAll(before, buf[..], from, to, full, last);
    } else {
      NothingToShift(buf[from..to]);
    }
  }

  lemma NothingShifted(before: seq<char>, from: nat, to: nat, last: nat)
    requires from <= to < |before| && 0 < last
    ensures ShiftedSoFar(before, before, from, to, last, 0)
  {
  }

  lemma {:induction false} RemainderOf(full: nat, last: nat)
    requires 0 < last <= WIDTH
    ensures ((WIDTH + 1) * full + last) % (WIDTH + 1) == last
  {
    if full > 0 { RemainderOf(full - 1, last); }
  }

  /** Exchange the bytes from both ends inwards, looking each of them up. */
  method SwapEnds(buf: array<char>, from0: nat, to0: nat)
    requires from0 < to0 < buf.Length
    modifies buf
    ensures buf[..from0] == old(buf[..from0]) && buf[to0..] == old(buf[to0..])
    ensures buf[from0..to0] == Reversed(old(buf[from0..to0]), Table)
  {
    hide Table;
    var from, to := from0, to0 - 1;
    while from <= to
      invariant from0 <= from <= to + 2 && from - from0 == to0 - 1 - to && to < to0
      invariant forall i :: 0 <= i < buf.Length && (i < from0 || from <= i <= to || to0 <= i) ==> buf[i] == old(buf[i])
      invariant forall i :: from0 <= i < to0 && (i < from || to < i) ==> buf[i] == Table(old(buf[from0 + to0 - 1 - i]))
      decreases 1 + to - from
    {
      var c := Table(buf[from]);
      buf[from] := Table(buf[to]);
      buf[to] := c;
      from := from + 1;
      to := to - 1;
    }
    assert buf[from0..to0] == Reversed(old(buf[from0..to0]), Table) by {
      ghost var was := old(buf[from0..to0]);
      forall i | from0 <= i < to0 ensures buf[i] == Reversed(was, Table)[i - from0] {
        assert was[from0 + to0 - 1 - i - from0] == old(buf[from0 + to0 - 1 - i]);
      }
    }
  }

  /** To the character after the header line. */
  method SkipHeader(buf: array<char>, from0: nat, to: nat, ghost header: string, ghost rest: string) returns (from: nat)
    requires from0 <= to < buf.Length && '\n' !in header && buf[from0..to + 1] == header + ['\n'] + rest
    ensures from == from0 + |header| + 1 <= to + 1
    ensures buf[from0..from] == header + ['\n'] && buf[from..to + 1] == rest
  {
    ghost var record := buf[from0..to + 1];
    from := from0;
    while buf[from] != '\n'
      invariant from0 <= from <= from0 + |header|
      decreases from0 + |header| - from
    {
      assert record[from - from0] == header[from - from0];
      from := from + 1;
    }
    assert record[from - from0] == '\n';
    assert from - from0 == |header|;
    from := from + 1;
    assert buf[from0..from] == record[..|header| + 1];
    assert buf[from..to + 1] == record[|header| + 1..];
  }

  /**
    A record from its `>` on: a header line, and then the wrapped text, whose last line feed is at `to`.
  */
  method Process(buf: array<char>, from0: nat, to: nat, ghost header: string, ghost text: string)
    requires from0 <= to < buf.Length && '\n' !in header && text != []
    requires buf[from0..to + 1] == header + ['\n'] + Wrap(text)
    modifies buf
    ensures buf[..from0] == old(buf[..from0]) && buf[to + 1..] == old(buf[to + 1..])
    ensures buf[from0..to + 1] == header + ['\n'] + Wrap(Reversed(text, Table))
  {
    hide Wrap, Table, Reversed, Shifted, FeedsInPlace;
    ghost var full, last := LinesOf(|text|);
    WrappedFeeds(text, full, last);
    Rewrapped(text, full, last);
    var from := SkipHeader(buf, from0, to, header, Wrap(text));
    ghost var size: nat := to - from;
    assert buf[from..to] == Wrap(text)[..size];
    ghost var before := buf[..];
    ShiftFeeds(buf, from, to, full, last);
    SwapEnds(buf, from, to);
    Reassembled(before, buf[..], from0, from, to);
  }

  lemma Reassembled(before: seq<char>, after: seq<char>, from0: nat, from: nat, to: nat)
    requires from0 <= from <= to < |before| == |after|
    requires after[..from] == before[..from] && after[to..] == before[to..]
    ensures after[..from0] == before[..from0] && after[to + 1..] == before[to + 1..]
    ensures after[from0..to + 1] == before[from0..from] + after[from..to] + [before[to]]
  {
    assert after[..from0] == after[..from][..from0] && before[..from0] == before[..from][..from0];
    assert after[to + 1..] == after[to..][1..] && before[to + 1..] == before[to..][1..];
    assert after[from0..from] == after[..from][from0..] && before[from0..from] == before[..from][from0..];
    assert after[to] == after[to..][0] && before[to] == before[to..][0];
  }

  lemma WrappedFeeds(text: string, full: nat, last: nat)
    requires Lines(|text|, full, last)
    ensures var size := (WIDTH + 1) * full + last;
            |Wrap(text)| == size + 1 && Wrap(text)[size] == '\n' && FeedsInPlace(Wrap(text)[..size])
  {
    hide Wrap;
    var size := (WIDTH + 1) * full + last;
    WrappedSize(text, full, last);
    WrapEnds(text);
    forall q | 0 <= q < size && q % (WIDTH + 1) == WIDTH ensures Wrap(text)[q] == '\n' {
      WrapAt(text, q / (WIDTH + 1), WIDTH);
    }
  }

  /** The shifted body, read backwards through the table, with the last line feed after it. */
  lemma Rewrapped(text: string, full: nat, last: nat)
    requires Lines(|text|, full, last)
    ensures var size := (WIDTH + 1) * full + last;
            && |Wrap(text)| == size + 1
            && Reversed(Shifted(Wrap(text)[..size], last), Table) + ['\n'] == Wrap(Reversed(text, Table))
  {
    hide Wrap, Shifted, Table;
    var size, goal := (WIDTH + 1) * full + last, Wrap(Reversed(text, Table));
    LineFeeds();
    WrappedSize(text, full, last);
    WrappedSize(Reversed(text, Table), full, last);
    WrapEnds(Reversed(text, Table));
    var got := Reversed(Shifted(Wrap(text)[..size], last), Table);
    forall p | 0 <= p < size ensures got[p] == goal[p] {
      RewrappedAt(text, full, last, p);
    }
  }

  lemma RewrappedAt(text: string, full: nat, last: nat, p: nat)
    requires Lines(|text|, full, last) && p < (WIDTH + 1) * full + last
    ensures var size := (WIDTH + 1) * full + last;
            && |Wrap(text)| == |Wrap(Reversed(text, Table))| == size + 1
            && Table(Shifted(Wrap(text)[..size], last)[size - 1 - p]) == Wrap(Reversed(text, Table))[p]
  {
    hide Wrap, Shifted, Table;
    LineFeeds();
    ShiftReverses(text, Table, full, last, p / (WIDTH + 1), p % (WIDTH + 1));
  }

  // ----- the line-by-line program -----

  /** What it writes for a record with this header line and body. */
  function Show(header: string, body: string): string {
    header + ['\n'] + Wrap(Reversed(WithoutFeeds(body), Complement))
  }

  function WrapFrom(s: string, i: nat): string {
    if i < |s| then Wrap(s[i..]) else []
  }

  function LineAt(s: string, i: nat): string
    requires i <= |s|
  {
    if i + WIDTH < |s| then s[i..i + WIDTH] else s[i..]
  }

  /** Write the lines of 60 characters and the rest. */
  method WriteLines(s: string) returns (out: string)
    ensures out == Wrap(s)
  {
    hide Wrap, WrapFrom, LineAt;
    out := "";
    var i := 0;
    WholeText(s);
    while i < |s|
      invariant out + WrapFrom(s, i) == Wrap(s)
      decreases |s| - i
    {
      LineByLine(s, i);
      ghost var rest := WrapFrom(s, i + WIDTH);
      assert out + (LineAt(s, i) + ['\n'] + rest) == (out + LineAt(s, i) + ['\n']) + rest;
      out := out + LineAt(s, i) + ['\n'];
      i := i + WIDTH;
    }
    TextEnds(s, i, out);
  }

  lemma WholeText(s: string)
    ensures "" + WrapFrom(s, 0) == Wrap(s)
  {
    if s != [] { assert s[0..] == s; }
  }

  lemma TextEnds(s: string, i: nat, out: string)
    requires i >= |s|
    ensures out + WrapFrom(s, i) == out
  {
  }

  lemma LineByLine(s: string, i: nat)
    requires i < |s|
    ensures WrapFrom(s, i) == LineAt(s, i) + ['\n'] + WrapFrom(s, i + WIDTH)
  {
    var rest := s[i..];
    if i + WIDTH < |s| {
      assert rest[WIDTH..] == s[i + WIDTH..] && rest[..WIDTH] == LineAt(s, i);
    } else if i + WIDTH == |s| {
      assert rest[WIDTH..] == [] && rest[..WIDTH] == rest;
      assert Wrap(rest) == rest + ['\n'] + Wrap([]);
    }
  }

  lemma {:induction false} WrapTells(s: string, t: string)
    requires |s| == |t| && Wrap(s) == Wrap(t)
    ensures s == t
  {
    hide Wrap;
    forall i | 0 <= i < |s| ensures s[i] == t[i] {
      WrapAt(s, i / WIDTH, i % WIDTH);
      WrapAt(t, i / WIDTH, i % WIDTH);
    }
  }

  predicate InBothTables(text: string) {
    forall i :: 0 <= i < |text| ==> IsBase(text[i]) || text[i] == 0 as char
  }

  lemma SameReversals(text: string)
    requires forall i :: 0 <= i < |text| ==> text[i] != '\n'
    ensures Reversed(text, Table) == Reversed(text, Complement) <==> InBothTables(text)
  {
    hide Table, Complement, IsBase;
    var mine, theirs := Reversed(text, Table), Reversed(text, Complement);
    forall i | 0 <= i < |text|
      ensures mine[|text| - 1 - i] == theirs[|text| - 1 - i] <==> IsBase(text[i]) || text[i] == 0 as char
    {
      TablesAgree(text[i]);
    }
    if InBothTables(text) {
      forall j | 0 <= j < |text| ensures mine[j] == theirs[j] {
        assert mine[|text| - 1 - (|text| - 1 - j)] == theirs[j];
        assert IsBase(text[|text| - 1 - j]) || text[|text| - 1 - j] == 0 as char;
      }
    }
  }

  /** Both programs leave the same record exactly if every character is in the code, or a zero byte. */
  lemma SameRecords(header: string, text: string)
    requires forall i :: 0 <= i < |text| ==> text[i] != '\n'
    ensures header + ['\n'] + Wrap(Reversed(text, Table)) == Show(header, Wrap(text)) <==> InBothTables(text)
  {
    hide Wrap, WithoutFeeds, InBothTables, Reversed;
    var mine, theirs := Reversed(text, Table), Reversed(text, Complement);
    WrapUndone(text);
    SameReversals(text);
    if header + ['\n'] + Wrap(mine) == header + ['\n'] + Wrap(theirs) {
      SameEnds(header + ['\n'], Wrap(mine), Wrap(theirs));
      WrapTells(mine, theirs);
    }
  }

  lemma SameEnds<T>(a: seq<T>, b: seq<T>, c: seq<T>)
    requires a + b == a + c
    ensures b == c
  {
    assert b == (a + b)[|a|..] && c == (a + c)[|a|..];
  }
}

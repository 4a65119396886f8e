/** The rendezvous protocol: creatures register at a meeting place one at a time, and a broker pairs them. */
module Chameneos {

  datatype Color = Blue | Red | Yellow

  function Complement(a: Color, b: Color): Color {
    if a == b then a
    else if a.Blue? then (if b.Red? then Yellow else Red)
    else if a.Red? then (if b.Blue? then Yellow else Blue)
    else if b.Blue? then Red else Blue
  }

  /** The initial colours of the creatures, and how many meetings are asked for. */
  datatype Params = Params(zoo: seq<Color>, meetings: int)

  /** What a creature does next: take its own lock, take the shared one, write its id, signal. */
  datatype Creature = Resting | Wanting | Registering | Signalling

  datatype Broker =
    | Opening | AwaitingFirst | ReadingFirst
    | Looping | Reopening | AwaitingSecond | ReadingSecond | Meeting | Kicking
    | Done

  /** `registered` records who has signalled a registration, in order; no step looks at it. */
  datatype State = State(
    creatures: seq<Creature>, locks: seq<bool>, inLock: bool, outLock: bool, venue: int,
    broker: Broker, id1: int, id2: int, left: int,
    colors: seq<Color>, met: seq<nat>, selfMet: seq<nat>, registered: seq<nat>)

  /** A lock that is released must be held, and an id must be that of a creature: otherwise a step fails. */
  datatype Outcome = Blocked | Failed | Moved(state: State)

  function Initial(p: Params): State {
    var n := |p.zoo|;
    State(seq(n, _ => Resting), seq(n, _ => false), true, true, -1, Opening, -1, -1, p.meetings,
          p.zoo, seq(n, _ => 0), seq(n, _ => 0), [])
  }

  predicate Shaped(s: State) {
    |s.creatures| == |s.locks| == |s.colors| == |s.met| == |s.selfMet|
  }

  function CreatureStep(s: State, c: nat): Outcome
    requires Shaped(s) && c < |s.creatures|
  {
    match s.creatures[c]
    case Resting =>
      if s.locks[c] then Blocked
      else Moved(s.(locks := s.locks[c := true], creatures := s.creatures[c := Wanting]))
    case Wanting =>
      if s.inLock then Blocked
      else Moved(s.(inLock := true, creatures := s.creatures[c := Registering]))
    case Registering =>
      Moved(s.(venue := c, creatures := s.creatures[c := Signalling]))
    case Signalling =>
      if !s.outLock then Failed
      else Moved(s.(outLock := false, creatures := s.creatures[c := Resting], registered := s.registered + [c]))
  }

  function BrokerStep(s: State): Outcome
    requires Shaped(s)
  {
    match s.broker
    case Opening => if !s.inLock then Failed else Moved(s.(inLock := false, broker := AwaitingFirst))
    case AwaitingFirst => if s.outLock then Blocked else Moved(s.(outLock := true, broker := ReadingFirst))
    case ReadingFirst => Moved(s.(id1 := s.venue, broker := Looping))
    case Looping => Moved(s.(broker := if s.left > 0 then Reopening else Done))
    case Reopening => if !s.inLock then Failed else Moved(s.(inLock := false, broker := AwaitingSecond))
    case AwaitingSecond => if s.outLock then Blocked else Moved(s.(outLock := true, broker := ReadingSecond))
    case ReadingSecond => Moved(s.(id2 := s.venue, broker := Meeting))
    case Meeting => Meet(s)
    case Kicking =>
      if !(0 <= s.id1 < |s.locks|) || !s.locks[s.id1] then Failed
      else Moved(s.(locks := s.locks[s.id1 := false], id1 := s.id2, broker := Looping))
    case Done => Blocked
  }

  function Meet(s: State): Outcome
    requires Shaped(s)
  {
    var a, b := s.id1, s.id2;
    if !(0 <= a < |s.met| && 0 <= b < |s.met|) then Failed
    else
      var after := s.(left := s.left - 1, broker := if s.left - 1 > 0 then Kicking else Looping);
      if a != b then
        var color := Complement(s.colors[a], s.colors[b]);
        var met := s.met[a := s.met[a] + 1];
        Moved(after.(colors := s.colors[a := color][b := color], met := met[b := met[b] + 1]))
      else
        Moved(after.(selfMet := s.selfMet[a := s.selfMet[a] + 1], met := s.met[a := s.met[a] + 1]))
  }

  /** Actor `t` is a creature, or the broker when `t` is the number of creatures. */
  function Step(s: State, t: nat): Outcome
    requires Shaped(s)
  {
    if t < |s.creatures| then CreatureStep(s, t) else if t == |s.creatures| then BrokerStep(s) else Blocked
  }

  // ----- the sequential meaning of a list of registrations -----

  datatype Tally = Tally(colors: seq<Color>, met: seq<nat>)

  predicate Ids(reg: seq<nat>, n: nat) {
    forall i :: 0 <= i < |reg| ==> reg[i] < n
  }

  /** Colours and counts after the first `h` meetings, in which each arrival meets the one before it. */
  function After(zoo: seq<Color>, reg: seq<nat>, h: nat): (t: Tally)
    requires Ids(reg, |zoo|) && (h == 0 || h < |reg|)
    ensures |t.colors| == |t.met| == |zoo|
  {
    if h == 0 then Tally(zoo, seq(|zoo|, _ => 0))
    else
      var t, a, b := After(zoo, reg, h - 1), reg[h - 1], reg[h];
      var color := Complement(t.colors[a], t.colors[b]);
      Tally(seq(|zoo|, c requires 0 <= c < |zoo| => if c == a || c == b then color else t.colors[c]),
            seq(|zoo|, c requires 0 <= c < |zoo| => if c == a || c == b then t.met[c] + 1 else t.met[c]))
  }

  /** How many of the first `h` meetings creature `c` takes part in. */
  function Meetings(reg: seq<nat>, h: nat, c: nat): nat
    requires h == 0 || h < |reg|
  {
    if h == 0 then 0 else Meetings(reg, h - 1, c) + if reg[h - 1] == c || reg[h] == c then 1 else 0
  }

  function Sum(s: seq<nat>): nat {
    if s == [] then 0 else s[0] + Sum(s[1..])
  }

  function Hue(c: Color): nat {
    match c case Blue => 0 case Red => 1 case Yellow => 2
  }

  function Hues(s: seq<Color>): nat {
    if s == [] then 0 else Hue(s[0]) + Hues(s[1..])
  }

  lemma {:induction false} SumUpdate(s: seq<nat>, i: nat, x: nat)
    requires i < |s|
    ensures Sum(s[i := x]) == Sum(s) - s[i] + x
  {
    if i > 0 {
      SumUpdate(s[1..], i - 1, x);
      assert s[i := x][1..] == s[1..][i - 1 := x];
    } else {
      assert s[0 := x][1..] == s[1..];
    }
  }

  lemma {:induction false} HuesUpdate(s: seq<Color>, i: nat, x: Color)
    requires i < |s|
    ensures Hues(s[i := x]) == Hues(s) - Hue(s[i]) + Hue(x)
  {
    if i > 0 {
      HuesUpdate(s[1..], i - 1, x);
      assert s[i := x][1..] == s[1..][i - 1 := x];
    } else {
      assert s[0 := x][1..] == s[1..];
    }
  }

  lemma {:induction false} SumZero(s: seq<nat>)
    requires forall i :: 0 <= i < |s| ==> s[i] == 0
    ensures Sum(s) == 0
  {
    if s != [] { SumZero(s[1..]); }
  }

  lemma {:induction false} MetIsMeetings(zoo: seq<Color>, reg: seq<nat>, h: nat, c: nat)
    requires Ids(reg, |zoo|) && (h == 0 || h < |reg|) && c < |zoo|
    ensures After(zoo, reg, h).met[c] == Meetings(reg, h, c)
  {
    if h > 0 { MetIsMeetings(zoo, reg, h - 1, c); }
  }

  /** When no creature follows itself, one meeting changes two entries, and what they add up to is known. */
  lemma AfterStep(zoo: seq<Color>, reg: seq<nat>, h: nat)
    requires Ids(reg, |zoo|) && 0 < h < |reg| && reg[h - 1] != reg[h]
    ensures var t, a, b := After(zoo, reg, h - 1), reg[h - 1], reg[h];
            var color, met := Complement(t.colors[a], t.colors[b]), t.met[a := t.met[a] + 1];
            After(zoo, reg, h) == Tally(t.colors[a := color][b := color], met[b := met[b] + 1])
  {
    hide Complement;
    var t, a, b := After(zoo, reg, h - 1), reg[h - 1], reg[h];
    var color, met := Complement(t.colors[a], t.colors[b]), t.met[a := t.met[a] + 1];
    assert After(zoo, reg, h).colors == t.colors[a := color][b := color];
    assert After(zoo, reg, h).met == met[b := met[b] + 1];
  }

  /** The counts add up to two a meeting. */
  lemma {:induction false} CountsAddUp(zoo: seq<Color>, reg: seq<nat>, h: nat)
    requires Ids(reg, |zoo|) && (h == 0 || h < |reg|)
    requires forall i :: 0 <= i < h ==> reg[i] != reg[i + 1]
    ensures Sum(After(zoo, reg, h).met) == 2 * h
  {
    if h == 0 {
      SumZero(seq(|zoo|, _ => 0));
    } else {
      CountsAddUp(zoo, reg, h - 1);
      AfterStep(zoo, reg, h);
      hide After, Complement, Sum;
      var t, a, b := After(zoo, reg, h - 1), reg[h - 1], reg[h];
      TwoMore(t.met, a, b);
      assert After(zoo, reg, h).met == t.met[a := t.met[a] + 1][b := t.met[b] + 1];
    }
  }

  lemma TwoMore(s: seq<nat>, a: nat, b: nat)
    requires a < |s| && b < |s| && a != b
    ensures Sum(s[a := s[a] + 1][b := s[b] + 1]) == Sum(s) + 2
  {
    SumUpdate(s, a, s[a] + 1);
    SumUpdate(s[a := s[a] + 1], b, s[b] + 1);
  }

  /** The hues keep their sum modulo three. */
  lemma {:induction false} HuesConserved(zoo: seq<Color>, reg: seq<nat>, h: nat)
    requires Ids(reg, |zoo|) && (h == 0 || h < |reg|)
    requires forall i :: 0 <= i < h ==> reg[i] != reg[i + 1]
    ensures Hues(After(zoo, reg, h).colors) % 3 == Hues(zoo) % 3
  {
    if h > 0 {
      HuesConserved(zoo, reg, h - 1);
      AfterStep(zoo, reg, h);
      hide After, Complement, Hue;
      var t, a, b := After(zoo, reg, h - 1), reg[h - 1], reg[h];
      var color := Complement(t.colors[a], t.colors[b]);
      HuesUpdate(t.colors, a, color);
      HuesUpdate(t.colors[a := color], b, color);
      HueKept(Hues(t.colors), t.colors[a], t.colors[b]);
    }
  }

  lemma HueKept(sum: nat, a: Color, b: Color)
    ensures (sum - Hue(a) - Hue(b) + 2 * Hue(Complement(a, b))) % 3 == sum % 3
  {
  }

  lemma {:induction false} AfterPrefix(zoo: seq<Color>, reg: seq<nat>, c: nat, h: nat)
    requires Ids(reg, |zoo|) && c < |zoo| && (h == 0 || h < |reg|)
    ensures After(zoo, reg + [c], h) == After(zoo, reg, h)
  {
    if h > 0 { AfterPrefix(zoo, reg, c, h - 1); }
  }
}

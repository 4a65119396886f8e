/** What every interleaving of the rendezvous protocol keeps, and how every run of it ends. */
module ChameneosRuns {
  import opened Chameneos

  function Held(p: Params, s: State): int {
    p.meetings - s.left
  }

  predicate Busy(c: Creature) {
    c.Registering? || c.Signalling?
  }

  /** Between opening the meeting place and hearing of a registration, the right to register is in one place only. */
  ghost predicate TokenOk(s: State) {
    && (forall c, d :: 0 <= c < |s.creatures| && 0 <= d < |s.creatures| ==>
          Busy(s.creatures[c]) && Busy(s.creatures[d]) ==> c == d)
    && (forall c :: 0 <= c < |s.creatures| && s.creatures[c].Signalling? ==> s.venue == c)
    && if s.broker.AwaitingFirst? || s.broker.AwaitingSecond? then
         && (!s.inLock ==> s.outLock)
         && (s.inLock && s.outLock <==> SomeBusy(s))
       else s.inLock && s.outLock && !SomeBusy(s)
  }

  ghost predicate SomeBusy(s: State) {
    exists c :: 0 <= c < |s.creatures| && Busy(s.creatures[c])
  }

  /** How many registrations have been signalled in this phase, beyond the meetings held. */
  function Arrivals(s: State): nat {
    match s.broker
    case Opening => 0
    case AwaitingFirst => if s.outLock then 0 else 1
    case AwaitingSecond => if s.outLock then 1 else 2
    case ReadingSecond => 2
    case Meeting => 2
    case _ => 1
  }

  /** How many of the last registered creatures are kept at the meeting place. */
  function GuestCount(s: State): nat {
    if s.broker.Kicking? then 2
    else if (s.broker.Looping? || s.broker.Done?) && s.left <= 0 then (if |s.registered| < 2 then |s.registered| else 2)
    else Arrivals(s)
  }

  predicate IsGuest(s: State, c: int) {
    var k := |s.registered|;
    || (k >= 1 && GuestCount(s) >= 1 && c == s.registered[k - 1])
    || (k >= 2 && GuestCount(s) >= 2 && c == s.registered[k - 2])
  }

  predicate InMeeting(b: Broker) {
    b.Reopening? || b.AwaitingSecond? || b.ReadingSecond? || b.Meeting? || b.Kicking?
  }

  /** The ids in the broker's variables are those of the last registrations, which are distinct. */
  ghost predicate HistoryOk(p: Params, s: State) {
    var reg, k := s.registered, |s.registered|;
    && Ids(reg, |s.creatures|) && Held(p, s) >= 0 && k == Held(p, s) + Arrivals(s)
    && (forall i :: 0 <= i < k - 1 ==> reg[i] != reg[i + 1])
    && (s.left == p.meetings || s.left >= 0)
    && (s.broker.Opening? || s.broker.AwaitingFirst? || s.broker.ReadingFirst? ==> Held(p, s) == 0)
    && (InMeeting(s.broker) ==> s.left > 0)
    && (s.broker.Done? ==> s.left <= 0)
    && (s.broker.Kicking? ==> k >= 2 && s.id1 == reg[k - 2] && s.id2 == reg[k - 1])
    && ((s.broker.ReadingFirst? || s.broker.ReadingSecond? || !s.outLock) ==> k >= 1 && s.venue == reg[k - 1])
    && (((s.broker.Looping? && s.left > 0) || s.broker.Reopening? || s.broker.AwaitingSecond? || s.broker.ReadingSecond?
         || s.broker.Meeting?) ==> s.id1 == reg[Held(p, s)])
    && (s.broker.Meeting? ==> s.id2 == reg[k - 1])
  }

  /** A creature's own lock is held exactly while it is on its way or kept at the meeting place. */
  ghost predicate LocksOk(s: State)
    requires Shaped(s)
  {
    forall c :: 0 <= c < |s.creatures| ==>
      && (s.locks[c] <==> (!s.creatures[c].Resting? || IsGuest(s, c)))
      && (IsGuest(s, c) ==> s.creatures[c].Resting?)
  }

  /** Colours and counts are what the meetings between successive registrations give. */
  ghost predicate CountsOk(p: Params, s: State)
    requires HistoryOk(p, s)
  {
    && |s.creatures| == |p.zoo| && Tally(s.colors, s.met) == After(p.zoo, s.registered, Held(p, s))
    && forall c :: 0 <= c < |s.selfMet| ==> s.selfMet[c] == 0
  }

  ghost predicate Inv(p: Params, s: State) {
    Shaped(s) && TokenOk(s) && HistoryOk(p, s) && LocksOk(s) && CountsOk(p, s)
  }

  lemma InitialInv(p: Params)
    ensures Inv(p, Initial(p))
  {
  }

  // ----- the steps of a creature -----

  /** A creature that arrives is not one of the guests, since its lock was free when it set out. */
  lemma SignalPreserves(p: Params, s: State, c: nat)
    requires Inv(p, s) && c < |s.creatures| && s.creatures[c].Signalling?
    ensures CreatureStep(s, c).Moved? && Inv(p, CreatureStep(s, c).state)
  {
    hide After, Complement;
    assert Busy(s.creatures[c]) && SomeBusy(s) && s.outLock;
    var s' := CreatureStep(s, c).state;
    assert !IsGuest(s, c);
    AfterPrefix(p.zoo, s.registered, c, Held(p, s));
    assert forall d :: IsGuest(s', d) <==> (IsGuest(s, d) || d == c);
    assert !SomeBusy(s');
  }

  lemma OtherCreatures(s: State, s': State, c: nat)
    requires c < |s.creatures| == |s'.creatures| && s'.creatures == s.creatures[c := s'.creatures[c]]
    ensures SomeBusy(s') <==>
              Busy(s'.creatures[c]) || exists d :: 0 <= d < |s.creatures| && d != c && Busy(s.creatures[d])
    ensures SomeBusy(s) <==>
              Busy(s.creatures[c]) || exists d :: 0 <= d < |s.creatures| && d != c && Busy(s.creatures[d])
  {
    forall d | 0 <= d < |s.creatures| && d != c ensures s'.creatures[d] == s.creatures[d] {}
    if SomeBusy(s') {
      var d :| 0 <= d < |s.creatures| && Busy(s'.creatures[d]);
      assert d != c ==> Busy(s.creatures[d]);
    }
    if d :| 0 <= d < |s.creatures| && d != c && Busy(s.creatures[d]) {
      assert Busy(s'.creatures[d]);
    }
  }

  lemma TokenPreserved(p: Params, s: State, c: nat)
    requires Inv(p, s) && c < |s.creatures| && !s.creatures[c].Signalling? && CreatureStep(s, c).Moved?
    ensures TokenOk(CreatureStep(s, c).state)
  {
    hide After, LocksOk, CountsOk, HistoryOk, IsGuest;
    var s' := CreatureStep(s, c).state;
    OtherCreatures(s, s', c);
    assert Busy(s.creatures[c]) ==> SomeBusy(s);
    hide SomeBusy;
  }

  lemma LocksPreserved(p: Params, s: State, c: nat)
    requires Inv(p, s) && c < |s.creatures| && !s.creatures[c].Signalling? && CreatureStep(s, c).Moved?
    ensures LocksOk(CreatureStep(s, c).state)
  {
    hide TokenOk, CountsOk, HistoryOk;
    var s' := CreatureStep(s, c).state;
    forall d ensures IsGuest(s', d) <==> IsGuest(s, d) {}
    hide IsGuest;
  }

  lemma HistoryPreserved(p: Params, s: State, c: nat)
    requires Inv(p, s) && c < |s.creatures| && !s.creatures[c].Signalling? && CreatureStep(s, c).Moved?
    ensures HistoryOk(p, CreatureStep(s, c).state) && CountsOk(p, CreatureStep(s, c).state)
  {
    hide TokenOk, LocksOk, After;
    BusyOutLock(s, c);
  }

  lemma CreaturePreserves(p: Params, s: State, c: nat)
    requires Inv(p, s) && c < |s.creatures|
    ensures !CreatureStep(s, c).Failed?
    ensures CreatureStep(s, c).Moved? ==> Inv(p, CreatureStep(s, c).state)
  {
    hide TokenOk, LocksOk, HistoryOk, CountsOk;
    if s.creatures[c].Signalling? {
      SignalPreserves(p, s, c);
    } else if CreatureStep(s, c).Moved? {
      TokenPreserved(p, s, c);
      LocksPreserved(p, s, c);
      HistoryPreserved(p, s, c);
    }
  }

  lemma BusyOutLock(s: State, c: nat)
    requires TokenOk(s) && c < |s.creatures|
    ensures Busy(s.creatures[c]) ==> s.inLock && s.outLock && (s.broker.AwaitingFirst? || s.broker.AwaitingSecond?)
  {
    assert Busy(s.creatures[c]) ==> SomeBusy(s);
  }

  // ----- the steps of the broker -----

  lemma MeetPreserves(p: Params, s: State)
    requires Inv(p, s) && s.broker.Meeting?
    ensures Meet(s).Moved? && Inv(p, Meet(s).state)
  {
    hide After, Complement;
    var h := Held(p, s) + 1;
    AfterStep(p.zoo, s.registered, h);
    var s' := Meet(s).state;
    assert s.id1 == s.registered[h - 1] && s.id2 == s.registered[h];
    assert forall d :: IsGuest(s', d) <==> IsGuest(s, d);
  }

  lemma BrokerToken(p: Params, s: State)
    requires Inv(p, s) && BrokerStep(s).Moved? && !s.broker.Meeting?
    ensures TokenOk(BrokerStep(s).state)
  {
    hide LocksOk, HistoryOk, CountsOk;
    var s' := BrokerStep(s).state;
    assert SomeBusy(s') <==> SomeBusy(s);
    hide SomeBusy;
  }

  lemma BrokerLocks(p: Params, s: State)
    requires Inv(p, s) && !s.broker.Meeting?
    ensures !BrokerStep(s).Failed?
    ensures BrokerStep(s).Moved? ==> LocksOk(BrokerStep(s).state)
  {
    hide CountsOk;
    if s.broker.Kicking? {
      var s' := BrokerStep(s).state;
      assert IsGuest(s, s.id1);
      forall d ensures IsGuest(s', d) <==> (IsGuest(s, d) && d != s.id1) {}
    } else if BrokerStep(s).Moved? {
      var s' := BrokerStep(s).state;
      forall d ensures IsGuest(s', d) <==> IsGuest(s, d) {}
    }
  }

  lemma BrokerHistory(p: Params, s: State)
    requires Inv(p, s) && BrokerStep(s).Moved? && !s.broker.Meeting?
    ensures HistoryOk(p, BrokerStep(s).state) && CountsOk(p, BrokerStep(s).state)
  {
    hide LocksOk, After, SomeBusy;
  }

  lemma BrokerPreserves(p: Params, s: State)
    requires Inv(p, s)
    ensures !BrokerStep(s).Failed?
    ensures BrokerStep(s).Moved? ==> Inv(p, BrokerStep(s).state)
  {
    hide TokenOk, LocksOk, HistoryOk, CountsOk, Meet;
    if s.broker.Meeting? {
      MeetPreserves(p, s);
    } else {
      BrokerLocks(p, s);
      if BrokerStep(s).Moved? {
        BrokerToken(p, s);
        BrokerHistory(p, s);
      }
    }
  }

  lemma StepPreserves(p: Params, s: State, t: nat)
    requires Inv(p, s)
    ensures !Step(s, t).Failed?
    ensures Step(s, t).Moved? ==> Inv(p, Step(s, t).state)
  {
    if t < |s.creatures| { CreaturePreserves(p, s, t); } else { BrokerPreserves(p, s); }
  }

  // ----- runs -----

  /** `schedule` names the actor of each step. */
  ghost predicate Reaches(s: State, schedule: seq<nat>, s': State)
    decreases |schedule|
  {
    if schedule == [] then s' == s
    else
      && Shaped(s) && Step(s, schedule[0]).Moved?
      && Reaches(Step(s, schedule[0]).state, schedule[1..], s')
  }

  /** No actor can move. */
  ghost predicate Stuck(s: State)
    requires Shaped(s)
  {
    forall t: nat :: !Step(s, t).Moved?
  }

  lemma {:induction false} RunKeeps(p: Params, s: State, schedule: seq<nat>, s': State)
    requires Inv(p, s) && Reaches(s, schedule, s')
    ensures Inv(p, s')
    decreases |schedule|
  {
    if schedule != [] {
      StepPreserves(p, s, schedule[0]);
      hide Step, Inv;
      RunKeeps(p, Step(s, schedule[0]).state, schedule[1..], s');
    }
  }

  /** With two creatures somebody can always come; one is enough when no meeting is wanted. */
  predicate EnoughCreatures(p: Params) {
    |p.zoo| >= 2 || (|p.zoo| == 1 && p.meetings <= 0)
  }

  lemma CanMove(p: Params, s: State) returns (t: nat)
    requires Inv(p, s) && EnoughCreatures(p) && !s.broker.Done?
    ensures Step(s, t).Moved?
  {
    hide After, Complement;
    t := |s.creatures|;
    if Step(s, t).Blocked? {
      if s.inLock {
        assert SomeBusy(s);
        t :| 0 <= t < |s.creatures| && Busy(s.creatures[t]);
      } else {
        t := if IsGuest(s, 0) then 1 else 0;
        assert !IsGuest(s, t);
      }
    } else {
      StepPreserves(p, s, t);
    }
  }

  // ----- runs end -----

  function BrokerStepsLeft(b: Broker, left: int): nat {
    var meetings := if left > 0 then 6 * left else 0;
    match b
    case Opening => meetings + 4
    case AwaitingFirst => meetings + 3
    case ReadingFirst => meetings + 2
    case Looping => meetings + 1
    case Reopening => meetings
    case AwaitingSecond => if left > 0 then meetings - 1 else 0
    case ReadingSecond => if left > 0 then meetings - 2 else 0
    case Meeting => if left > 0 then meetings - 3 else 0
    case Kicking => meetings + 2
    case Done => 0
  }

  function Weight(c: Creature, locked: bool): nat {
    match c
    case Resting => if locked then 0 else 1
    case Wanting => 0
    case Registering => 4
    case Signalling => 3
  }

  function Weights(creatures: seq<Creature>, locks: seq<bool>): nat
    requires |creatures| == |locks|
  {
    if creatures == [] then 0 else Weight(creatures[0], locks[0]) + Weights(creatures[1..], locks[1..])
  }

  lemma {:induction false} WeightsUpdate(creatures: seq<Creature>, locks: seq<bool>, i: nat, c: Creature, locked: bool)
    requires i < |creatures| == |locks|
    ensures Weights(creatures[i := c], locks[i := locked])
         == Weights(creatures, locks) - Weight(creatures[i], locks[i]) + Weight(c, locked)
  {
    if i > 0 {
      WeightsUpdate(creatures[1..], locks[1..], i - 1, c, locked);
      assert creatures[i := c][1..] == creatures[1..][i - 1 := c];
      assert locks[i := locked][1..] == locks[1..][i - 1 := locked];
    } else {
      assert creatures[0 := c][1..] == creatures[1..] && locks[0 := locked][1..] == locks[1..];
    }
  }

  /** A bound on the number of steps still to come. */
  function StepsLeft(s: State): nat
    requires Shaped(s)
  {
    6 * BrokerStepsLeft(s.broker, s.left) + Weights(s.creatures, s.locks)
    + (if s.inLock then 0 else 5) + (if s.outLock then 0 else 1)
  }

  lemma CreatureDecreases(s: State, c: nat)
    requires Shaped(s) && c < |s.creatures| && CreatureStep(s, c).Moved?
    ensures Shaped(CreatureStep(s, c).state) && StepsLeft(CreatureStep(s, c).state) < StepsLeft(s)
  {
    hide BrokerStepsLeft;
    var s' := CreatureStep(s, c).state;
    WeightsUpdate(s.creatures, s.locks, c, s'.creatures[c], s'.locks[c]);
    assert s'.creatures == s.creatures[c := s'.creatures[c]] && s'.locks == s.locks[c := s'.locks[c]];
  }

  lemma BrokerDecreases(s: State)
    requires Shaped(s) && BrokerStep(s).Moved? && (InMeeting(s.broker) ==> s.left > 0)
    ensures Shaped(BrokerStep(s).state) && StepsLeft(BrokerStep(s).state) < StepsLeft(s)
  {
    var s' := BrokerStep(s).state;
    BrokerStepsFewer(s);
    hide BrokerStepsLeft, Complement, Meet;
    if s.broker.Kicking? {
      WeightsUpdate(s.creatures, s.locks, s.id1, s.creatures[s.id1], false);
      assert s.creatures == s.creatures[s.id1 := s.creatures[s.id1]];
      WeightOfFreed(s.creatures[s.id1]);
      hide Weight, Weights;
    } else {
      if s.broker.Meeting? { MeetKeeps(s); }
      hide Weights;
    }
  }

  lemma MeetKeeps(s: State)
    requires Shaped(s) && Meet(s).Moved?
    ensures var s' := Meet(s).state;
            && Shaped(s') && s'.creatures == s.creatures && s'.locks == s.locks
            && s'.inLock == s.inLock && s'.outLock == s.outLock
  {
    hide Complement;
  }

  lemma BrokerStepsFewer(s: State)
    requires Shaped(s) && BrokerStep(s).Moved? && (InMeeting(s.broker) ==> s.left > 0)
    ensures var s' := BrokerStep(s).state; BrokerStepsLeft(s'.broker, s'.left) + 1 <= BrokerStepsLeft(s.broker, s.left)
  {
    hide Complement;
  }

  lemma WeightOfFreed(c: Creature)
    ensures Weight(c, false) <= Weight(c, true) + 1
  {
  }

  lemma StepDecreases(p: Params, s: State, t: nat)
    requires Inv(p, s) && Step(s, t).Moved?
    ensures Shaped(Step(s, t).state) && StepsLeft(Step(s, t).state) < StepsLeft(s)
  {
    hide TokenOk, LocksOk, CountsOk, StepsLeft, CreatureStep, BrokerStep;
    if t < |s.creatures| { CreatureDecreases(s, t); } else { BrokerDecreases(s); }
  }

  lemma {:induction false} RunsAreFinite(p: Params, s: State, schedule: seq<nat>, s': State)
    requires Inv(p, s) && Reaches(s, schedule, s')
    ensures Shaped(s') && |schedule| + StepsLeft(s') <= StepsLeft(s)
    decreases |schedule|
  {
    if schedule != [] {
      StepPreserves(p, s, schedule[0]);
      StepDecreases(p, s, schedule[0]);
      hide Step, Inv, StepsLeft;
      RunsAreFinite(p, Step(s, schedule[0]).state, schedule[1..], s');
    }
  }

  // ----- what runs do -----

  /** At any time: no release fails, nobody has met itself, and every count and colour is accounted for. */
  lemma EveryRunIsSafe(p: Params, schedule: seq<nat>, s: State)
    requires Reaches(Initial(p), schedule, s)
    ensures Shaped(s) && |s.met| == |p.zoo| && 0 <= Held(p, s) && (Held(p, s) == 0 || Held(p, s) < |s.registered|)
    ensures forall t: nat :: !Step(s, t).Failed?
    ensures forall c :: 0 <= c < |s.selfMet| ==> s.selfMet[c] == 0
    ensures forall i :: 0 <= i < |s.registered| - 1 ==> s.registered[i] != s.registered[i + 1]
    ensures forall c :: 0 <= c < |s.met| ==> s.met[c] == Meetings(s.registered, Held(p, s), c)
    ensures Sum(s.met) == 2 * Held(p, s) && Hues(s.colors) % 3 == Hues(p.zoo) % 3
  {
    hide Reaches, TokenOk, LocksOk, Step;
    InitialInv(p);
    RunKeeps(p, Initial(p), schedule, s);
    forall t: nat ensures !Step(s, t).Failed? { StepPreserves(p, s, t); }
    var h := Held(p, s);
    hide After, Meetings, Hues, Sum;
    CountsAddUp(p.zoo, s.registered, h);
    HuesConserved(p.zoo, s.registered, h);
    forall c | 0 <= c < |s.met| ensures s.met[c] == Meetings(s.registered, h, c) {
      MetIsMeetings(p.zoo, s.registered, h, c);
    }
  }

  /** The broker reads the ids in the order of the registrations and pairs each with the one before. */
  lemma PairsAreSuccessive(p: Params, schedule: seq<nat>, s: State)
    requires Reaches(Initial(p), schedule, s) && s.broker.Meeting?
    ensures var k := |s.registered|;
            k >= 2 && s.id1 == s.registered[k - 2] && s.id2 == s.registered[k - 1] && s.id1 != s.id2
  {
    InitialInv(p);
    RunKeeps(p, Initial(p), schedule, s);
  }

  /** With enough creatures a run ends only when all meetings have been held. */
  lemma EveryRunEnds(p: Params, schedule: seq<nat>, s: State)
    requires EnoughCreatures(p) && Reaches(Initial(p), schedule, s)
    ensures Shaped(s) && |schedule| <= StepsLeft(Initial(p))
    ensures Stuck(s) ==> s.broker.Done?
    ensures s.broker.Done? ==> Held(p, s) == if p.meetings > 0 then p.meetings else 0
  {
    hide Reaches, TokenOk, LocksOk, CountsOk, StepsLeft, Step;
    InitialInv(p);
    RunKeeps(p, Initial(p), schedule, s);
    RunsAreFinite(p, Initial(p), schedule, s);
    if !s.broker.Done? {
      var t := CanMove(p, s);
    }
  }

  /** Without enough creatures some run gets stuck before the meetings are over. */
  lemma TooFewGetStuck(p: Params) returns (schedule: seq<nat>, s: State)
    requires !EnoughCreatures(p)
    ensures Reaches(Initial(p), schedule, s) && Shaped(s) && Stuck(s) && !s.broker.Done?
  {
    if p.zoo == [] {
      schedule := [0];
      s := Initial(p).(inLock := false, broker := AwaitingFirst);
      assert Reaches(s, [], s);
    } else {
      schedule, s := AloneAtTheMeetingPlace(p);
    }
  }

  lemma AloneAtTheMeetingPlace(p: Params) returns (schedule: seq<nat>, s: State)
    requires |p.zoo| == 1 && p.meetings > 0
    ensures Reaches(Initial(p), schedule, s) && Shaped(s) && Stuck(s) && !s.broker.Done?
  {
    hide Reaches;
    var s0 := Initial(p);
    var s1 := s0.(inLock := false, broker := AwaitingFirst);
    var s2 := s1.(locks := [true], creatures := [Wanting]);
    var s3 := s2.(inLock := true, creatures := [Registering]);
    var s4 := s3.(venue := 0, creatures := [Signalling]);
    var s5 := s4.(outLock := false, creatures := [Resting], registered := [0]);
    var s6 := s5.(outLock := true, broker := ReadingFirst);
    var s7 := s6.(id1 := 0, broker := Looping);
    var s8 := s7.(broker := Reopening);
    s := s8.(inLock := false, broker := AwaitingSecond);
    schedule := StepFirst(s8, s, 1, [], s);
    schedule := StepFirst(s7, s8, 1, schedule, s);
    schedule := StepFirst(s6, s7, 1, schedule, s);
    schedule := StepFirst(s5, s6, 1, schedule, s);
    schedule := StepFirst(s4, s5, 0, schedule, s);
    schedule := StepFirst(s3, s4, 0, schedule, s);
    schedule := StepFirst(s2, s3, 0, schedule, s);
    schedule := StepFirst(s1, s2, 0, schedule, s);
    schedule := StepFirst(s0, s1, 1, schedule, s);
  }

  lemma StepFirst(s: State, s': State, t: nat, rest: seq<nat>, end: State) returns (schedule: seq<nat>)
    requires Shaped(s) && Step(s, t) == Moved(s') && (Reaches(s', rest, end) || (rest == [] && s' == end))
    ensures Reaches(s, schedule, end)
  {
    schedule := [t] + rest;
    assert schedule[1..] == rest;
  }

  /** The run along `schedule` comes to rest in `s`. */
  ghost predicate EndsIn(p: Params, schedule: seq<nat>, s: State) {
    Reaches(Initial(p), schedule, s) && Shaped(s) && Stuck(s)
  }

  /** Two creatures, or one and no meeting, is exactly what it takes never to get stuck early. */
  lemma NeverStuckEarly(p: Params)
    ensures EnoughCreatures(p) <==> forall schedule, s :: EndsIn(p, schedule, s) ==> s.broker.Done?
  {
    if EnoughCreatures(p) {
      forall schedule, s | EndsIn(p, schedule, s) ensures s.broker.Done? {
        EveryRunEnds(p, schedule, s);
      }
    } else {
      var schedule, s := TooFewGetStuck(p);
      assert EndsIn(p, schedule, s);
    }
  }
}

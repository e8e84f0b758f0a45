/**
 The ping/pong client: one fiber sends a numbered ping per round and suspends itself; a pong with the
 round's number or the round's one-shot timer wakes it. Everything runs on one cooperative loop, so
 each handler and each stretch of the fiber between two suspensions is one step. The network may
 lose, delay, repeat and reorder pongs.
 */
module PingPong {
  datatype Config = Config(warmup: nat, count: nat, intervalUs: nat)

  function Total(c: Config): nat { c.warmup + c.count }

  datatype Pong = Pong(seqNo: nat, sendUs: nat)

  /** Where the fiber goes on when it runs next. */
  datatype Place = AtStart | AtWait | AtPause

  datatype Fiber = Suspended(yieldId: int) | Ready | Finished

  /** A recorded round trip: the round, the pong it was taken from, and when that pong came in. */
  datatype Sample = Sample(round: nat, pong: Pong, at: nat)

  datatype State = State(
    expectedSeq: nat, gotAck: bool, lastRtt: nat, waitId: int, timeoutTimerId: int,   // shared with the handlers
    place: Place, fiber: Fiber, round: nat, rtts: seq<nat>,                           // the fiber
    timers: map<int, int>, nextTimer: nat, nextYield: nat,                            // the event loop: timer -> yield id to wake
    sendAt: seq<nat>, lastPong: Pong, lastAt: nat, answered: set<nat>, samples: seq<Sample>)  // history

  const INITIAL := State(0, false, 0, 0, -1, AtStart, Ready, 0, [], map[], 0, 0, [], Pong(0, 0), 0, {}, [])

  /** Inside the wait of a round, woken or not. */
  predicate InRound(s: State) { s.place.AtWait? && !s.fiber.Finished? }

  predicate InPause(s: State) { s.place.AtPause? && !s.fiber.Finished? }

  function Rtt(now: nat, sendUs: nat): nat { if now >= sendUs then now - sendUs else 0 }

  // ---- the event loop's primitives ---------------------------------------------------------------------------------------

  /** Removing a timer that is not there does nothing. */
  function WithoutTimer(timers: map<int, int>, id: int): map<int, int> {
    map t | t in timers && t != id && t != -1 :: timers[t]
  }

  /** Waking an id nobody waits for does nothing. */
  function Woken(fiber: Fiber, id: int): Fiber { if fiber == Suspended(id) then Ready else fiber }

  function YieldIdFor(n: nat): int { -(n + 1) }

  // ---- the steps --------------------------------------------------------------------------------------------------------------

  datatype Event = Resume(now: nat) | Fire(timer: int) | Deliver(pong: Pong, now: nat)

  function OnPong(s: State, pong: Pong, now: nat): State {
    if pong.seqNo != s.expectedSeq then s
    else
      s.(lastRtt := Rtt(now, pong.sendUs), gotAck := true,
         timers := if s.timeoutTimerId != -1 then WithoutTimer(s.timers, s.timeoutTimerId) else s.timers,
         timeoutTimerId := -1,
         fiber := if s.waitId != 0 then Woken(s.fiber, s.waitId) else s.fiber,
         lastPong := pong, lastAt := now, answered := if InRound(s) then s.answered + {s.expectedSeq} else s.answered)
  }

  /** A timer that was removed before its turn does nothing. */
  function OnTimer(s: State, timer: int): State {
    if timer !in s.timers then s
    else s.(timers := map t | t in s.timers && t != timer :: s.timers[t], fiber := Woken(s.fiber, s.timers[timer]))
  }

  /** A fresh yield id and a timer that wakes it. */
  function Armed(s: State): State {
    var y := YieldIdFor(s.nextYield);
    s.(waitId := y, nextYield := s.nextYield + 1,
       timers := s.timers[s.nextTimer := y], timeoutTimerId := s.nextTimer, nextTimer := s.nextTimer + 1)
  }

  function Paused(s: State): State {
    var y := YieldIdFor(s.nextYield);
    s.(timers := s.timers[s.nextTimer := y], nextTimer := s.nextTimer + 1, nextYield := s.nextYield + 1,
       place := AtPause, fiber := Suspended(y))
  }

  /** The head of the loop: the next round up to its suspension, or the end. */
  function BeginRound(c: Config, s: State, now: nat): State {
    if s.round < Total(c) then
      Armed(s).(expectedSeq := s.round, gotAck := false, sendAt := s.sendAt + [now],
                place := AtWait, fiber := Suspended(Armed(s).waitId))
    else
      s.(fiber := Finished)
  }

  /** Arming the timeout leaves what the round waits for alone. */
  lemma ArmedLater(s: State, seqNo: nat, ack: bool)
    ensures Armed(s.(expectedSeq := seqNo, gotAck := ack)) == Armed(s).(expectedSeq := seqNo, gotAck := ack)
  {
    hide WithoutTimer, YieldIdFor;
  }

  /** After the wait: clean up, record the round if it was answered, and pause or go on. */
  function AfterWait(c: Config, s: State, now: nat): State {
    var t := s.(timers := if s.timeoutTimerId != -1 then WithoutTimer(s.timers, s.timeoutTimerId) else s.timers,
                timeoutTimerId := -1, waitId := 0);
    if !t.gotAck then BeginRound(c, t.(round := t.round + 1), now)
    else
      var u := if t.round >= c.warmup
               then t.(rtts := t.rtts + [t.lastRtt], samples := t.samples + [Sample(t.round, t.lastPong, t.lastAt)])
               else t;
      if c.intervalUs > 0 then Paused(u) else BeginRound(c, u.(round := u.round + 1), now)
  }

  function Step(c: Config, s: State, e: Event): State {
    match e
    case Deliver(pong, now) => OnPong(s, pong, now)
    case Fire(timer) => OnTimer(s, timer)
    case Resume(now) =>
      if s.fiber != Ready then s
      else match s.place
           case AtStart => BeginRound(c, s, now)
           case AtWait => AfterWait(c, s, now)
           case AtPause => BeginRound(c, s.(round := s.round + 1), now)
  }

  // ---- what every step keeps ------------------------------------------------------------------------------------------------

  /**
   A suspended fiber has the timer armed that wakes it, and no other timer is alive: none outlives its
   round. The wake-up id and the timer id are those of the current round or cleared.
   */
  predicate Wakeable(s: State) {
    match s.fiber
    case Suspended(y) =>
      && s.nextYield > 0 && y == YieldIdFor(s.nextYield - 1)
      && s.nextTimer > 0 && s.timers == map[s.nextTimer - 1 := y]
      && (match s.place
          case AtStart => false
          case AtWait => s.waitId == y && s.timeoutTimerId == s.nextTimer - 1
          case AtPause => s.waitId == 0 && s.timeoutTimerId == -1)
    case Ready =>
      s.timers == map[] && (s.place.AtWait? || (s.waitId == 0 && s.timeoutTimerId == -1))
    case Finished =>
      s.timers == map[] && s.waitId == 0 && s.timeoutTimerId == -1
  }

  /** How far the rounds are, and which of them have been answered. */
  predicate RoundsAgree(c: Config, s: State) {
    match s.place
    case AtStart => s.round == 0 && s.sendAt == [] && (s.fiber.Finished? ==> Total(c) == 0)
    case _ =>
      if s.fiber.Finished? then s.round == Total(c) && |s.sendAt| == Total(c)
      else s.expectedSeq == s.round < Total(c) && |s.sendAt| == s.round + 1
  }

  /** Rounds whose sample is settled. */
  function Settled(s: State): nat { if InPause(s) then s.round + 1 else s.round }

  predicate AnswersAgree(s: State) {
    && (forall r :: r in s.answered ==> r < |s.sendAt|)
    && (InRound(s) ==> (s.gotAck <==> s.round in s.answered))
    && (InRound(s) && s.fiber.Suspended? ==> !s.gotAck)
    && (InPause(s) ==> s.round in s.answered)
  }

  /** An acknowledgement is accepted only from a pong that carries the expected number. */
  predicate LastAgrees(s: State) {
    s.gotAck ==> s.lastPong.seqNo == s.expectedSeq && s.lastRtt == Rtt(s.lastAt, s.lastPong.sendUs)
  }

  /** Each sample comes from a pong of its own round; the rounds increase and lie in the measured range. */
  ghost predicate Recorded(c: Config, rtts: seq<nat>, samples: seq<Sample>, settled: nat) {
    && |rtts| == |samples|
    && (forall k :: 0 <= k < |samples| ==>
          && samples[k].pong.seqNo == samples[k].round
          && rtts[k] == Rtt(samples[k].at, samples[k].pong.sendUs)
          && c.warmup <= samples[k].round < settled)
    && (forall k, l :: 0 <= k < l < |samples| ==> samples[k].round < samples[l].round)
  }

  ghost predicate SamplesAgree(c: Config, s: State) { Recorded(c, s.rtts, s.samples, Settled(s)) }

  ghost predicate HasSample(samples: seq<Sample>, r: nat) { exists k :: 0 <= k < |samples| && samples[k].round == r }

  /** A measured round has a sample exactly when it was answered before its fiber went on. */
  ghost predicate NoneLost(c: Config, s: State) {
    forall r :: c.warmup <= r < Settled(s) ==> (r in s.answered <==> HasSample(s.samples, r))
  }

  ghost predicate Inv(c: Config, s: State) {
    Wakeable(s) && RoundsAgree(c, s) && AnswersAgree(s) && LastAgrees(s) && SamplesAgree(c, s) && NoneLost(c, s)
  }

  lemma InitialInv(c: Config)
    ensures Inv(c, INITIAL)
  {
  }

  lemma StepKeepsWakeable(c: Config, s: State, e: Event)
    requires Wakeable(s) && RoundsAgree(c, s)
    ensures Wakeable(Step(c, s, e))
  {
  }

  lemma StepKeepsRounds(c: Config, s: State, e: Event)
    requires Wakeable(s) && RoundsAgree(c, s)
    ensures RoundsAgree(c, Step(c, s, e))
  {
  }

  lemma StepKeepsAnswers(c: Config, s: State, e: Event)
    requires Wakeable(s) && RoundsAgree(c, s) && AnswersAgree(s) && LastAgrees(s)
    ensures AnswersAgree(Step(c, s, e)) && LastAgrees(Step(c, s, e))
  {
  }

  lemma StepKeepsSamples(c: Config, s: State, e: Event)
    requires Inv(c, s)
    ensures SamplesAgree(c, Step(c, s, e))
  {
    hide Recorded, NoneLost, WithoutTimer, Rtt;
    RecordedLater(c, s.rtts, s.samples, Settled(s), Settled(Step(c, s, e)));
    if InRound(s) && s.gotAck && c.warmup <= s.round {
      RecordedMore(c, s.rtts, s.samples, s.round, Sample(s.round, s.lastPong, s.lastAt));
    }
  }

  lemma RecordedLater(c: Config, rtts: seq<nat>, samples: seq<Sample>, settled: nat, later: nat)
    requires Recorded(c, rtts, samples, settled) && settled <= later
    ensures Recorded(c, rtts, samples, later)
  {
  }

  lemma RecordedMore(c: Config, rtts: seq<nat>, samples: seq<Sample>, settled: nat, x: Sample)
    requires Recorded(c, rtts, samples, settled)
    requires x.round == settled == x.pong.seqNo && c.warmup <= settled
    ensures Recorded(c, rtts + [Rtt(x.at, x.pong.sendUs)], samples + [x], settled + 1)
  {
  }

  lemma HasSampleSnoc(samples: seq<Sample>, x: Sample, r: nat)
    ensures HasSample(samples + [x], r) <==> HasSample(samples, r) || x.round == r
  {
    if HasSample(samples, r) {
      var k :| 0 <= k < |samples| && samples[k].round == r;
      assert (samples + [x])[k].round == r;
    }
    assert (samples + [x])[|samples|] == x;
  }

  lemma StepLosesNone(c: Config, s: State, e: Event)
    requires Inv(c, s)
    ensures NoneLost(c, Step(c, s, e))
  {
    hide HasSample;
    forall r: nat ensures HasSample(s.samples + [Sample(s.round, s.lastPong, s.lastAt)], r) <==> HasSample(s.samples, r) || s.round == r {
      HasSampleSnoc(s.samples, Sample(s.round, s.lastPong, s.lastAt), r);
    }
    forall r | Settled(s) <= r ensures !HasSample(s.samples, r) { NotYet(c, s, r); }
  }

  lemma NotYet(c: Config, s: State, r: nat)
    requires SamplesAgree(c, s) && Settled(s) <= r
    ensures !HasSample(s.samples, r)
  {
  }

  lemma StepKeepsInv(c: Config, s: State, e: Event)
    requires Inv(c, s)
    ensures Inv(c, Step(c, s, e))
  {
    hide Step, Wakeable, RoundsAgree, AnswersAgree, LastAgrees, SamplesAgree, NoneLost;
    StepKeepsWakeable(c, s, e);
    StepKeepsRounds(c, s, e);
    StepKeepsAnswers(c, s, e);
    StepKeepsSamples(c, s, e);
    StepLosesNone(c, s, e);
  }

  // ---- whole runs ------------------------------------------------------------------------------------------------------------------

  function Run(c: Config, s: State, es: seq<Event>): State
    decreases |es|
  {
    if es == [] then s else Run(c, Step(c, s, es[0]), es[1..])
  }

  lemma {:induction false} RunKeepsInv(c: Config, s: State, es: seq<Event>)
    requires Inv(c, s)
    ensures Inv(c, Run(c, s, es))
    decreases |es|
  {
    hide Inv, Step;
    if es != [] {
      StepKeepsInv(c, s, es[0]);
      RunKeepsInv(c, Step(c, s, es[0]), es[1..]);
    }
  }

  lemma {:induction false} RoundsSpread(c: Config, s: State, k: nat)
    requires SamplesAgree(c, s) && k < |s.samples|
    ensures c.warmup + k <= s.samples[k].round
  {
    if k > 0 { RoundsSpread(c, s, k - 1); }
  }

  lemma InvTimers(c: Config, s: State)
    requires Inv(c, s)
    ensures -1 !in s.timers
  {
  }

  lemma StepYields(c: Config, s: State, e: Event)
    requires Inv(c, s)
    ensures s.nextYield <= Step(c, s, e).nextYield
    ensures !s.fiber.Suspended? && Step(c, s, e).fiber.Suspended? ==> s.nextYield < Step(c, s, e).nextYield
  {
  }

  lemma {:induction false} RunYields(c: Config, s: State, es: seq<Event>)
    requires Inv(c, s)
    ensures s.nextYield <= Run(c, s, es).nextYield
    ensures !s.fiber.Suspended? && Run(c, s, es).fiber.Suspended? ==> s.nextYield < Run(c, s, es).nextYield
    decreases |es|
  {
    hide Inv, Step;
    if es != [] {
      StepYields(c, s, es[0]);
      StepKeepsInv(c, s, es[0]);
      RunYields(c, Step(c, s, es[0]), es[1..]);
    }
  }

  /**
   Yield ids are negative and never come back: once a suspended fiber has been woken, every later
   suspension, whatever happens in between, waits for a smaller id.
   */
  lemma YieldIdsNeverRepeat(c: Config, s: State, untilWoken: seq<Event>, later: seq<Event>)
    requires Inv(c, s) && s.fiber.Suspended?
    requires !Run(c, s, untilWoken).fiber.Suspended?
    requires Run(c, Run(c, s, untilWoken), later).fiber.Suspended?
    ensures Run(c, Run(c, s, untilWoken), later).fiber.yieldId < s.fiber.yieldId < 0
  {
    hide Step;
    var m := Run(c, s, untilWoken);
    RunKeepsInv(c, s, untilWoken);
    RunKeepsInv(c, m, later);
    RunYields(c, s, untilWoken);
    RunYields(c, m, later);
    InvWakeable(c, s);
    InvWakeable(c, Run(c, m, later));
  }

  /** No lost wake-up over any run: a suspended fiber has its timer armed, and nothing else is ever armed. */
  lemma NoLostWakeUp(c: Config, es: seq<Event>)
    ensures var s := Run(c, INITIAL, es);
            && (s.fiber.Suspended? ==> exists t :: s.timers == map[t := s.fiber.yieldId] && (s.place.AtWait? ==> s.timeoutTimerId == t))
            && (!s.fiber.Suspended? ==> s.timers == map[])
  {
    InitialInv(c);
    RunKeepsInv(c, INITIAL, es);
    var s := Run(c, INITIAL, es);
    if s.fiber.Suspended? { assert s.timers == map[s.nextTimer - 1 := s.fiber.yieldId]; }
  }

  // ---- pongs in time ------------------------------------------------------------------------------------------------------------

  /** Event `i` of a run is a pong with the number of the round whose wait it comes in. */
  predicate PongInTime(c: Config, es: seq<Event>, i: nat, r: nat)
    requires i < |es|
  {
    var s := Run(c, INITIAL, es[..i]);
    es[i].Deliver? && es[i].pong.seqNo == r == s.round && s.place.AtWait? && !s.fiber.Finished?
  }

  /** Read off the events alone: round `r` got a pong with its number before its wait was over. */
  predicate InTime(c: Config, es: seq<Event>, r: nat) { exists i :: 0 <= i < |es| && PongInTime(c, es, i, r) }

  lemma {:induction false} RunSnoc(c: Config, s: State, es: seq<Event>, e: Event)
    ensures Run(c, s, es + [e]) == Step(c, Run(c, s, es), e)
    decreases |es|
  {
    hide Step;
    if es == [] {
      assert [] + [e] == [e] && [e][1..] == [];
    } else {
      assert (es + [e])[1..] == es[1..] + [e];
      RunSnoc(c, Step(c, s, es[0]), es[1..], e);
    }
  }

  lemma StepAnswers(c: Config, s: State, e: Event)
    requires Inv(c, s)
    ensures Step(c, s, e).answered
            == s.answered + if e.Deliver? && e.pong.seqNo == s.round && s.place.AtWait? && !s.fiber.Finished? then {s.round} else {}
  {
    hide WithoutTimer, Woken, SamplesAgree, NoneLost;
  }

  lemma InTimeSnoc(c: Config, es: seq<Event>, r: nat)
    requires es != []
    ensures InTime(c, es, r) <==> InTime(c, es[..|es| - 1], r) || PongInTime(c, es, |es| - 1, r)
  {
    hide Run;
    var n := |es| - 1;
    forall i | 0 <= i < n ensures PongInTime(c, es, i, r) <==> PongInTime(c, es[..n], i, r) { assert es[..n][..i] == es[..i]; }
    if i :| 0 <= i < |es| && PongInTime(c, es, i, r) && i < n { assert PongInTime(c, es[..n], i, r); }
    if i :| 0 <= i < n && PongInTime(c, es[..n], i, r) { assert PongInTime(c, es, i, r); }
  }

  /** The rounds the client takes as answered are exactly those that got their pong in time. */
  lemma {:induction false} AnsweredInTime(c: Config, es: seq<Event>, r: nat)
    ensures r in Run(c, INITIAL, es).answered <==> InTime(c, es, r)
    decreases |es|
  {
    hide Inv, Step;
    if es != [] {
      var n := |es| - 1;
      var before := es[..n];
      assert es == before + [es[n]];
      InitialInv(c);
      RunKeepsInv(c, INITIAL, before);
      RunSnoc(c, INITIAL, before, es[n]);
      StepAnswers(c, Run(c, INITIAL, before), es[n]);
      AnsweredInTime(c, before, r);
      InTimeSnoc(c, es, r);
    }
  }

  /**
   A pong with the number of the round, as long as its wait is not over, makes the fiber ready, or leaves it
   so. Its next run adds exactly one sample, the time of this pong and not of an earlier one, if the round is
   past the warmup, and none otherwise.
   */
  lemma PongIsTaken(c: Config, s: State, pong: Pong, at: nat, now: nat)
    requires Inv(c, s) && !s.fiber.Finished? && s.place.AtWait? && pong.seqNo == s.round
    ensures var t := Step(c, s, Deliver(pong, at)); var u := Step(c, t, Resume(now));
            && t.fiber == Ready && t.timers == map[] && t.rtts == s.rtts
            && u.rtts == s.rtts + if s.round >= c.warmup then [if at >= pong.sendUs then at - pong.sendUs else 0] else []
  {
    hide SamplesAgree, NoneLost;
    if s.fiber.Suspended? { assert WithoutTimer(s.timers, s.timeoutTimerId) == map[]; }
  }

  /** A pong with any other number changes nothing. */
  lemma OtherPongIgnored(c: Config, s: State, pong: Pong, at: nat)
    requires Inv(c, s) && s.place.AtWait? && !s.fiber.Finished? && pong.seqNo != s.round
    ensures Step(c, s, Deliver(pong, at)) == s
  {
    hide SamplesAgree, NoneLost;
  }

  /** A round whose timer fires without a pong adds no sample, and the next round begins at once. */
  lemma TimeoutIsNoSample(c: Config, s: State, now: nat)
    requires Inv(c, s) && s.fiber.Suspended? && s.place.AtWait?
    ensures var t := Step(c, s, Fire(s.timeoutTimerId)); var u := Step(c, t, Resume(now));
            && t.fiber == Ready && u.rtts == s.rtts && u.round == s.round + 1
            && if s.round + 1 < c.warmup + c.count then u.place.AtWait? && u.sendAt == s.sendAt + [now] else u.fiber == Finished
  {
    hide SamplesAgree, NoneLost;
  }

  /** After an answered round: a pause without a ping when an interval is set, the next ping at once otherwise. */
  lemma PauseOnlyWithInterval(c: Config, s: State, now: nat)
    requires Inv(c, s) && s.fiber == Ready && s.place.AtWait? && s.gotAck
    ensures var t := Step(c, s, Resume(now));
            if c.intervalUs > 0 then t.place.AtPause? && t.fiber.Suspended? && t.round == s.round && t.sendAt == s.sendAt
            else t.round == s.round + 1 && if s.round + 1 < c.warmup + c.count then t.place.AtWait? && t.sendAt == s.sendAt + [now]
                                           else t.fiber == Finished && t.sendAt == s.sendAt
  {
    hide SamplesAgree, NoneLost, WithoutTimer;
  }

  /** At the end every round was pinged once, and a round has a sample exactly when it is measured and its pong was in time. */
  lemma FinalSamples(c: Config, es: seq<Event>, r: nat)
    requires Run(c, INITIAL, es).fiber.Finished?
    ensures var s := Run(c, INITIAL, es);
            && (HasSample(s.samples, r) <==> c.warmup <= r < c.warmup + c.count && InTime(c, es, r))
            && |s.rtts| == |s.samples| && |s.sendAt| == c.warmup + c.count
            && forall k, l :: 0 <= k < l < |s.samples| ==> s.samples[k].round != s.samples[l].round
  {
    InitialInv(c);
    RunKeepsInv(c, INITIAL, es);
    AnsweredInTime(c, es, r);
  }

  lemma {:induction false} RoundsCounted(samples: seq<Sample>)
    requires forall k, l :: 0 <= k < l < |samples| ==> samples[k].round != samples[l].round
    ensures |set x | x in samples :: x.round| == |samples|
  {
    if samples != [] {
      var n := |samples| - 1;
      RoundsCounted(samples[..n]);
      assert samples == samples[..n] + [samples[n]];
      assert (set x | x in samples :: x.round) == (set x | x in samples[..n] :: x.round) + {samples[n].round};
    }
  }

  /** The rounds from `from` on, `n` of them. */
  function Rounds(from: nat, n: nat): (s: set<nat>)
    ensures forall r :: r in s <==> from <= r < from + n
  {
    if n == 0 then {} else Rounds(from, n - 1) + {from + n - 1}
  }

  lemma {:induction false} RoundsMany(from: nat, n: nat)
    ensures |Rounds(from, n)| == n
  {
    if n > 0 { RoundsMany(from, n - 1); }
  }

  /** The measured rounds that got their pong in time. */
  function TakenRounds(c: Config, es: seq<Event>): set<nat> {
    set r | r in Rounds(c.warmup, c.count) && InTime(c, es, r)
  }

  lemma SubsetCount(a: set<nat>, b: set<nat>)
    requires a <= b
    ensures |a| <= |b| && (|a| == |b| <==> a == b)
  {
    assert b == a + (b - a);
  }

  /** A client that has ended recorded one value per measured round with its pong in time: `count` of them if and only if all were. */
  lemma EveryPongCounts(c: Config, es: seq<Event>)
    requires Run(c, INITIAL, es).fiber.Finished?
    ensures |Run(c, INITIAL, es).rtts| == |TakenRounds(c, es)|
    ensures |Run(c, INITIAL, es).rtts| == c.count
            <==> forall r :: c.warmup <= r < c.warmup + c.count ==> InTime(c, es, r)
  {
    hide Run, InTime;
    var s := Run(c, INITIAL, es);
    FinalSamples(c, es, 0);
    RoundsCounted(s.samples);
    forall r: nat ensures r in TakenRounds(c, es) <==> exists x :: x in s.samples && x.round == r { FinalSamples(c, es, r); }
    assert TakenRounds(c, es) == set x | x in s.samples :: x.round;
    RoundsMany(c.warmup, c.count);
    SubsetCount(TakenRounds(c, es), Rounds(c.warmup, c.count));
    assert TakenRounds(c, es) == Rounds(c.warmup, c.count) <==> forall r :: r in Rounds(c.warmup, c.count) ==> InTime(c, es, r);
  }

  /** Whatever the network does, a run never records more samples than there are measured rounds. */
  lemma SamplesBounded(c: Config, es: seq<Event>)
    ensures |Run(c, INITIAL, es).rtts| <= c.count
  {
    var s := Run(c, INITIAL, es);
    InitialInv(c);
    RunKeepsInv(c, INITIAL, es);
    if s.samples != [] { RoundsSpread(c, s, |s.samples| - 1); }
  }

  // ---- an echoing network ----------------------------------------------------------------------------------------------------

  /** The server answers with the number and the send time of a ping that was sent; clocks do not run back. */
  predicate Fair(s: State, clock: nat, e: Event) {
    match e
    case Deliver(pong, now) => now >= clock && pong.seqNo < |s.sendAt| && pong.sendUs == s.sendAt[pong.seqNo]
    case Resume(now) => now >= clock
    case Fire(_) => true
  }

  function Clock(clock: nat, e: Event): nat {
    match e
    case Deliver(_, now) => now
    case Resume(now) => now
    case Fire(_) => clock
  }

  predicate FairRun(c: Config, s: State, clock: nat, es: seq<Event>)
    decreases |es|
  {
    es == [] || (Fair(s, clock, es[0]) && FairRun(c, Step(c, s, es[0]), Clock(clock, es[0]), es[1..]))
  }

  /** Every accepted pong answers the very ping of its round and came in after that ping was sent. */
  ghost predicate Measured(s: State, clock: nat) {
    && Timed(s.sendAt, s.samples, clock)
    && (s.gotAck ==> s.expectedSeq < |s.sendAt| && s.lastPong.sendUs == s.sendAt[s.expectedSeq] <= s.lastAt <= clock)
  }

  ghost predicate Timed(sendAt: seq<nat>, samples: seq<Sample>, clock: nat) {
    && (forall r :: 0 <= r < |sendAt| ==> sendAt[r] <= clock)
    && (forall k :: 0 <= k < |samples| ==>
          samples[k].round < |sendAt| && samples[k].pong.sendUs == sendAt[samples[k].round] <= samples[k].at <= clock)
  }

  lemma TimedLater(sendAt: seq<nat>, samples: seq<Sample>, clock: nat, now: nat)
    requires Timed(sendAt, samples, clock) && clock <= now
    ensures Timed(sendAt, samples, now) && Timed(sendAt + [now], samples, now)
  {
  }

  lemma TimedMore(sendAt: seq<nat>, samples: seq<Sample>, clock: nat, x: Sample)
    requires Timed(sendAt, samples, clock)
    requires x.round < |sendAt| && x.pong.sendUs == sendAt[x.round] <= x.at <= clock
    ensures Timed(sendAt, samples + [x], clock)
  {
  }

  lemma StepKeepsMeasured(c: Config, s: State, clock: nat, e: Event)
    requires Inv(c, s) && Measured(s, clock) && Fair(s, clock, e)
    ensures Measured(Step(c, s, e), Clock(clock, e))
  {
    hide Rtt, WithoutTimer, Woken, Timed, SamplesAgree, NoneLost;
    var now, x := Clock(clock, e), Sample(s.round, s.lastPong, s.lastAt);
    TimedLater(s.sendAt, s.samples, clock, now);
    if InRound(s) && s.gotAck {
      TimedMore(s.sendAt, s.samples, now, x);
      TimedLater(s.sendAt, s.samples + [x], now, now);
    }
  }

  lemma {:induction false} RunKeepsMeasured(c: Config, s: State, clock: nat, es: seq<Event>) returns (last: nat)
    requires Inv(c, s) && Measured(s, clock) && FairRun(c, s, clock, es)
    ensures Measured(Run(c, s, es), last)
    decreases |es|
  {
    hide Inv, Step, Measured;
    last := clock;
    if es != [] {
      StepKeepsInv(c, s, es[0]);
      StepKeepsMeasured(c, s, clock, es[0]);
      last := RunKeepsMeasured(c, Step(c, s, es[0]), Clock(clock, es[0]), es[1..]);
    }
  }

  /** Every recorded value is the exact time between that round's own ping and a pong that answered it. */
  lemma SamplesAreRoundTrips(c: Config, clock: nat, es: seq<Event>, k: nat)
    requires FairRun(c, INITIAL, clock, es) && k < |Run(c, INITIAL, es).rtts|
    ensures var s := Run(c, INITIAL, es);
            && k < |s.samples| && s.samples[k].round < |s.sendAt|
            && s.samples[k].pong.seqNo == s.samples[k].round
            && s.rtts[k] == s.samples[k].at - s.sendAt[s.samples[k].round]
  {
    InitialInv(c);
    RunKeepsInv(c, INITIAL, es);
    var last := RunKeepsMeasured(c, INITIAL, clock, es);
  }

  // ---- progress ---------------------------------------------------------------------------------------------------------------------

  /** A bound on how often the fiber still has to run. */
  function Work(c: Config, s: State): int {
    if s.fiber.Finished? then 0
    else match s.place
         case AtStart => 2 * Total(c) + 1
         case AtWait => 2 * (Total(c) - s.round)
         case AtPause => 2 * (Total(c) - s.round) - 1
  }

  lemma WorkShrinks(c: Config, s: State, e: Event)
    requires Inv(c, s)
    ensures 0 <= Work(c, Step(c, s, e)) <= Work(c, s)
    ensures e.Resume? && s.fiber.Ready? ==> Work(c, Step(c, s, e)) < Work(c, s)
  {
  }

  /** Firing the armed timer of a suspended fiber makes it ready. */
  lemma ArmedTimerWakes(c: Config, s: State)
    requires Wakeable(s) && s.fiber.Suspended?
    ensures s.timers.Keys == {s.nextTimer - 1} && Step(c, s, Fire(s.nextTimer - 1)).fiber == Ready
  {
    assert s.nextTimer - 1 in s.timers;
  }

  /** Timers and the scheduler alone bring the client to its end from anywhere, even if every pong is lost. */
  lemma {:induction false} AlwaysFinishes(c: Config, s: State, now: nat) returns (es: seq<Event>)
    requires Inv(c, s)
    ensures Run(c, s, es).fiber == Finished
    ensures forall e :: e in es ==> !e.Deliver?
    decreases Work(c, s), s.fiber.Suspended?
  {
    hide Inv, Step;
    if s.fiber.Finished? { return []; }
    var e := Resume(now);
    if s.fiber.Suspended? {
      assert Wakeable(s) by { InvWakeable(c, s); }
      ArmedTimerWakes(c, s);
      e := Fire(s.nextTimer - 1);
    }
    StepKeepsInv(c, s, e);
    WorkShrinks(c, s, e);
    var rest := AlwaysFinishes(c, Step(c, s, e), now);
    es := [e] + rest;
    assert es[1..] == rest;
  }

  lemma InvWakeable(c: Config, s: State)
    requires Inv(c, s)
    ensures Wakeable(s)
  {
  }

  // ---- the client as an object ---------------------------------------------------------------------------------------------

  class Client {
    const config: Config
    var expectedSeq: nat
    var gotAck: bool
    var lastRtt: nat
    var waitId: int
    var timeoutTimerId: int
    var place: Place
    var fiber: Fiber
    var round: nat
    var rtts: seq<nat>
    var timers: map<int, int>
    var nextTimer: nat
    var nextYield: nat
    ghost var sendAt: seq<nat>
    ghost var lastPong: Pong
    ghost var lastAt: nat
    ghost var answered: set<nat>
    ghost var samples: seq<Sample>

    ghost function Now(): State
      reads this
    {
      State(expectedSeq, gotAck, lastRtt, waitId, timeoutTimerId, place, fiber, round, rtts,
            timers, nextTimer, nextYield, sendAt, lastPong, lastAt, answered, samples)
    }

    constructor (config: Config)
      ensures Now() == INITIAL && Inv(config, Now()) && this.config == config
    {
      this.config := config;
      expectedSeq, gotAck, lastRtt, waitId, timeoutTimerId := 0, false, 0, 0, -1;
      place, fiber, round, rtts := AtStart, Ready, 0, [];
      timers, nextTimer, nextYield := map[], 0, 0;
      sendAt, lastPong, lastAt, answered, samples := [], Pong(0, 0), 0, {}, [];
      new;
      InitialInv(config);
    }

    method AddTimer(yieldId: int) returns (id: int)
      modifies `timers, `nextTimer
      ensures id == old(nextTimer)
      ensures Now() == old(Now()).(timers := old(timers)[id := yieldId], nextTimer := id + 1)
    {
      id := nextTimer;
      timers, nextTimer := timers[id := yieldId], nextTimer + 1;
    }

    method RemoveTimer(id: int)
      modifies `timers
      ensures timers.Keys == old(timers).Keys - {id, -1} && forall t :: t in timers ==> timers[t] == old(timers)[t]
      ensures old(Inv(config, Now())) && id !in old(timers) ==> Now() == old(Now())
      ensures Now() == old(Now()).(timers := WithoutTimer(old(timers), id))
    {
      timers := map t | t in timers && t != id && t != -1 :: timers[t];
      if old(Inv(config, Now())) { InvTimers(config, old(Now())); }
    }

    method GenerateYieldId() returns (id: int)
      modifies `nextYield
      ensures id < 0 && forall earlier: nat :: earlier < old(nextYield) ==> id != YieldIdFor(earlier)
      ensures id == YieldIdFor(old(nextYield))
      ensures Now() == old(Now()).(nextYield := old(nextYield) + 1)
    {
      id := -(nextYield + 1);
      nextYield := nextYield + 1;
    }

    method UnYieldFiber(id: int)
      modifies `fiber
      ensures old(fiber) != Suspended(id) ==> Now() == old(Now())
      ensures old(fiber) == Suspended(id) ==> Now() == old(Now()).(fiber := Ready)
    {
      if fiber == Suspended(id) { fiber := Ready; }
    }

    /** Takes the timer id out of the shared state and removes the timer if there was one. */
    method CancelTimeout()
      modifies `timers, `timeoutTimerId
      ensures Now() == old(Now()).(
                timers := if old(timeoutTimerId) != -1 then WithoutTimer(old(timers), old(timeoutTimerId)) else old(timers),
                timeoutTimerId := -1)
    {
      var tid := timeoutTimerId;
      timeoutTimerId := -1;
      if tid != -1 { RemoveTimer(tid); }
    }

    method Acknowledge(pong: Pong, now: nat)
      modifies `lastRtt, `gotAck, `lastPong, `lastAt, `answered
      ensures Now() == old(Now()).(lastRtt := Rtt(now, pong.sendUs), gotAck := true, lastPong := pong, lastAt := now,
                                   answered := if InRound(old(Now())) then old(answered) + {expectedSeq} else old(answered))
    {
      lastRtt := if now >= pong.sendUs then now - pong.sendUs else 0;
      gotAck := true;
      lastPong, lastAt := pong, now;
      if place.AtWait? && !fiber.Finished? { answered := answered + {expectedSeq}; }
    }

    method HandlePong(pong: Pong, now: nat)
      modifies this
      ensures Now() == Step(config, old(Now()), Deliver(pong, now))
      ensures old(Inv(config, Now())) ==> Inv(config, Now())
    {
      hide WithoutTimer, Inv, AfterWait, BeginRound, Rtt;
      ghost var before := Now();
      if Inv(config, before) { StepKeepsInv(config, before, Deliver(pong, now)); }
      if pong.seqNo != expectedSeq { return; }
      Acknowledge(pong, now);
      CancelTimeout();
      if waitId != 0 { UnYieldFiber(waitId); }
    }

    /** A one-shot timer: it is gone before its callback runs. */
    method FireTimer(timer: int)
      modifies this
      ensures Now() == Step(config, old(Now()), Fire(timer))
      ensures old(Inv(config, Now())) ==> Inv(config, Now())
    {
      ghost var before := Now();
      if Inv(config, before) { StepKeepsInv(config, before, Fire(timer)); }
      if timer !in timers { return; }
      var wakes := timers[timer];
      timers := map t | t in timers && t != timer :: timers[t];
      UnYieldFiber(wakes);
    }

    method ArmTimeout()
      modifies `waitId, `timeoutTimerId, `timers, `nextTimer, `nextYield
      ensures Now() == Armed(old(Now()))
    {
      waitId := GenerateYieldId();
      timeoutTimerId := AddTimer(waitId);
    }

    /** Suspends the fiber for the time between two rounds. */
    method Pause()
      modifies `timers, `nextTimer, `nextYield, `place, `fiber
      ensures Now() == Paused(old(Now()))
    {
      var pauseId := GenerateYieldId();
      var _ := AddTimer(pauseId);
      place, fiber := AtPause, Suspended(pauseId);
    }

    /** What the next pong must answer, and the timer that ends the wait for it. */
    method OpenRound()
      modifies `expectedSeq, `gotAck, `waitId, `timeoutTimerId, `timers, `nextTimer, `nextYield
      ensures Now() == Armed(old(Now()).(expectedSeq := old(round), gotAck := false))
    {
      hide WithoutTimer, Woken, YieldIdFor, Inv, Step, OnPong, AfterWait, Paused, Armed, BeginRound;
      expectedSeq, gotAck := round, false;
      ArmTimeout();
    }

    method SendPing(now: nat)
      modifies this
      ensures Now() == BeginRound(config, old(Now()), now)
    {
      hide WithoutTimer, Woken, YieldIdFor, Inv, Step, OnPong, AfterWait, Paused, Armed;
      ArmedLater(Now(), round, false);
      if round < config.warmup + config.count {
        OpenRound();
        sendAt := sendAt + [now];
        place, fiber := AtWait, Suspended(waitId);
      } else {
        fiber := Finished;
      }
    }

    method TakeSample()
      modifies `rtts, `samples
      ensures Now() == old(Now().(rtts := rtts + [lastRtt], samples := samples + [Sample(round, lastPong, lastAt)]))
    {
      rtts := rtts + [lastRtt];
      samples := samples + [Sample(round, lastPong, lastAt)];
    }

    method FinishRound(now: nat)
      modifies this
      ensures Now() == AfterWait(config, old(Now()), now)
    {
      hide WithoutTimer, Woken, YieldIdFor, BeginRound, Inv, Step, OnPong, Paused, Armed;
      CancelTimeout();
      waitId := 0;
      if !gotAck {
        round := round + 1;
        SendPing(now);
        return;
      }
      if round >= config.warmup { TakeSample(); }
      if config.intervalUs > 0 {
        Pause();
      } else {
        round := round + 1;
        SendPing(now);
      }
    }

    /** The scheduler runs the fiber, if it is ready, up to its next suspension. */
    method ResumeFiber(now: nat)
      modifies this
      ensures Now() == Step(config, old(Now()), Resume(now))
      ensures old(Inv(config, Now())) ==> Inv(config, Now())
    {
      ghost var before := Now();
      if Inv(config, before) { StepKeepsInv(config, before, Resume(now)); }
      if fiber != Ready { return; }
      match place
      case AtStart => SendPing(now);
      case AtWait => FinishRound(now);
      case AtPause =>
        round := round + 1;
        SendPing(now);
    }
  }
}

/** The spin/result state machine of the lottery page (components/LotteryPage.tsx).

    The page keeps five displayed numbers and a few flags in React state. Its
    timers become explicit events: one `Tick` per 60 ms interval callback, the
    run of the `hasResult` effect, and the firing of a 4 s timeout. Every use
    of `Math.random` becomes a parameter: a `Tick` carries the digits the
    callback would draw, a `ResultEffect` the palette indices of its confetti.
    Confetti positions, delays, durations and rotations (floating point, used
    only for styling) are not modelled. */
module Page {
  import Text

  type Digit = d: int | 0 <= d <= 9

  type PaletteIndex = i: int | 0 <= i < 6

  /** The confetti colours. */
  const Palette: seq<string> := ["#FFD700", "#FF1493", "#00F5FF", "#FF69B4", "#7B68EE", "#FFA500"]

  /** The spin stops on the first tick whose counter exceeds this. */
  const TickLimit := 40

  /** Confetti pieces per result. */
  const BurstSize := 100

  datatype Confetti = Confetti(id: nat, color: string)

  datatype State = State(
    numbers: seq<int>,
    isSpinning: bool,
    hasResult: bool,
    confetti: seq<Confetti>,
    showFireworks: bool,
    /** The running interval's tick counter; 0 when no interval runs. */
    counter: nat,
    /** `hasResult` has become true and the effect has not run for it yet. */
    effectDue: bool,
    /** How many 4 s timeouts are pending. */
    timers: nat)

  /** The page as first rendered. */
  const Init := State([0, 0, 0, 0, 0], false, false, [], false, 0, false, 0)

  /** A random source: the i-th digit `Math.floor(Math.random() * 10)` yields. */
  type Roll = nat -> Digit

  /** A click carries the palette indices the pending `hasResult` effect
      draws if the click makes React run it first. */
  datatype Event =
    | Spin(pick: nat -> PaletteIndex)   // the spin button is clicked
    | Tick(roll: Roll)                  // the 60 ms interval fires
    | ResultEffect(pick: nat -> PaletteIndex)  // the effect on `hasResult` runs
    | Timeout                           // a pending 4 s timeout fires
    | Reset(pick: nat -> PaletteIndex)  // the reset button is clicked

  /** Five freshly drawn digits. */
  function Draw(roll: Roll, n: nat): (r: seq<int>)
    ensures |r| == n
    ensures forall i :: 0 <= i < n ==> 0 <= r[i] <= 9
  {
    seq(n, i requires 0 <= i < n => roll(i))
  }

  /** A full burst: pieces numbered 0 .. 99, each in a palette colour. */
  predicate IsBurst(c: seq<Confetti>) {
    |c| == BurstSize && forall i :: 0 <= i < |c| ==> c[i].id == i && c[i].color in Palette
  }

  /** `spinLottery`: starts spinning, clears the result and the confetti, and
      starts a fresh interval. */
  function SpinLottery(s: State): (r: State)
    ensures r.isSpinning && !r.hasResult && r.confetti == [] && r.counter == 0
    ensures r.numbers == s.numbers && r.showFireworks == s.showFireworks && r.timers == s.timers
  {
    s.(isSpinning := true, hasResult := false, confetti := [], counter := 0, effectDue := false)
  }

  /** One interval callback: shows fresh digits and counts; the tick whose
      count exceeds 40 stops the interval and shows the final draw. (That tick
      also queues a random update of the old numbers, but the final draw is
      queued after it in the same batch and wins.) */
  function TickOnce(s: State, roll: Roll): (r: State)
    ensures |r.numbers| == (if s.counter + 1 > TickLimit then Text.DrawLength else |s.numbers|)
    ensures forall i :: 0 <= i < |r.numbers| ==> 0 <= r.numbers[i] <= 9
    ensures s.counter + 1 > TickLimit ==> !r.isSpinning && r.hasResult && r.counter == 0
    ensures s.counter + 1 <= TickLimit ==>
      r.isSpinning == s.isSpinning && r.hasResult == s.hasResult && r.counter == s.counter + 1
    ensures r.confetti == s.confetti && r.showFireworks == s.showFireworks && r.timers == s.timers
  {
    var count := s.counter + 1;
    if count > TickLimit then
      s.(numbers := Draw(roll, Text.DrawLength), isSpinning := false, hasResult := true,
         counter := 0, effectDue := !s.hasResult)
    else
      s.(numbers := Draw(roll, |s.numbers|), counter := count)
  }

  /** The effect on `hasResult`, run with `hasResult` true: fireworks on, a
      burst of 100 confetti, and a 4 s timeout scheduled. */
  function CelebrateResult(s: State, pick: nat -> PaletteIndex): (r: State)
    ensures r.showFireworks && IsBurst(r.confetti)
    ensures r.timers == s.timers + 1
    ensures r.numbers == s.numbers && r.isSpinning == s.isSpinning && r.hasResult == s.hasResult
  {
    var burst := seq(BurstSize, i requires 0 <= i < BurstSize => Confetti(i, Palette[pick(i)]));
    s.(showFireworks := true, confetti := burst, timers := s.timers + 1, effectDue := false)
  }

  /** A 4 s timeout fires: confetti and fireworks are cleared. */
  function ClearCelebration(s: State): (r: State)
    requires s.timers > 0
    ensures r.confetti == [] && !r.showFireworks && r.timers == s.timers - 1
    ensures r.numbers == s.numbers && r.isSpinning == s.isSpinning && r.hasResult == s.hasResult
  {
    s.(confetti := [], showFireworks := false, timers := s.timers - 1)
  }

  /** `reset`: zeroes the numbers and clears the result and the confetti. */
  function ResetPage(s: State): (r: State)
    ensures r.numbers == [0, 0, 0, 0, 0] && !r.hasResult && r.confetti == []
    ensures r.isSpinning == s.isSpinning && r.showFireworks == s.showFireworks && r.timers == s.timers
  {
    s.(numbers := [0, 0, 0, 0, 0], hasResult := false, confetti := [], effectDue := false)
  }

  /** A click's state updates `t`, followed by those of the `hasResult`
      effect if it was still pending. React runs a pending effect before it
      renders the click, so the effect's updates are queued after the
      click's and win: its burst replaces the click's cleared confetti. */
  function AfterPendingEffect(pending: bool, t: State, pick: nat -> PaletteIndex): (r: State)
    ensures pending ==> r.showFireworks && IsBurst(r.confetti) && r.timers == t.timers + 1
    ensures !pending ==> r == t
    ensures r.numbers == t.numbers && r.isSpinning == t.isSpinning && r.hasResult == t.hasResult
  {
    if pending then CelebrateResult(t, pick) else t
  }

  /** One event, as the page handles it. An event that cannot occur in a state
      changes nothing: the spin button is disabled while spinning, no
      interval runs unless spinning, the effect runs only after `hasResult`
      became true, a timeout fires only if one is pending, and the reset
      button is shown only while a result is. A click first lets a pending
      effect run. */
  function Step(s: State, e: Event): (r: State)
    ensures r.isSpinning && !s.isSpinning ==> e.Spin?
    ensures !r.isSpinning && s.isSpinning ==> e.Tick? && s.counter >= TickLimit
    ensures r.hasResult && !s.hasResult ==> e.Tick? && r.effectDue && Text.IsDraw(r.numbers)
    ensures r.timers > s.timers ==>
      s.effectDue && r.timers == s.timers + 1 && r.showFireworks && IsBurst(r.confetti)
    ensures r.timers < s.timers ==> e.Timeout? && r.timers == s.timers - 1 && !r.showFireworks
    ensures e.Spin? && s.isSpinning ==> r == s
    ensures e.Reset? && !s.hasResult ==> r == s
  {
    match e
    case Spin(pick) => if s.isSpinning then s else AfterPendingEffect(s.effectDue, SpinLottery(s), pick)
    case Tick(roll) => if s.isSpinning then TickOnce(s, roll) else s
    case ResultEffect(pick) => if s.effectDue then CelebrateResult(s, pick) else s
    case Timeout => if s.timers > 0 then ClearCelebration(s) else s
    case Reset(pick) => if s.hasResult then AfterPendingEffect(s.effectDue, ResetPage(s), pick) else s
  }

  function Run(s: State, es: seq<Event>): State
    decreases |es|
  {
    if |es| == 0 then s else Run(Step(s, es[0]), es[1..])
  }

  /** What holds of the page at every moment. */
  predicate Valid(s: State) {
    && Text.IsDraw(s.numbers)
    && (s.isSpinning ==> !s.hasResult && s.counter <= TickLimit)
    && (!s.isSpinning ==> s.counter == 0)
    && (s.effectDue ==> s.hasResult)
    && (s.confetti == [] || IsBurst(s.confetti))
    && (s.confetti != [] ==> s.showFireworks)
    && (s.showFireworks ==> s.timers > 0)
  }

  /** Every event keeps the page valid: five digits shown, no result while
      spinning, confetti either absent or one full burst, and fireworks only
      while a timeout that will clear them is pending. */
  lemma StepPreservesValid(s: State, e: Event)
    requires Valid(s)
    ensures Valid(Step(s, e))
  {
  }

  lemma InitValid()
    ensures Valid(Init)
  {
  }

  /** Valid states stay valid under any sequence of events. */
  lemma {:induction false} RunPreservesValid(s: State, es: seq<Event>)
    requires Valid(s)
    ensures Valid(Run(s, es))
    decreases |es|
  {
    if |es| > 0 {
      StepPreservesValid(s, es[0]);
      RunPreservesValid(Step(s, es[0]), es[1..]);
    }
  }

  /** Whatever the user clicks and whatever the timers do, the page shows
      exactly five digits, each 0 .. 9. */
  lemma AlwaysFiveDigits(es: seq<Event>)
    ensures Text.IsDraw(Run(Init, es).numbers)
  {
    RunPreservesValid(Init, es);
  }

  /** The interval firing once per entry of `rolls`. */
  function Ticks(s: State, rolls: seq<Roll>): State
    decreases |rolls|
  {
    if |rolls| == 0 then s else Ticks(Step(s, Tick(rolls[0])), rolls[1..])
  }

  /** Ticks that do not yet exceed the limit keep the page spinning and only
      advance the counter and the digits. */
  lemma {:induction false} TicksBelowLimit(s: State, rolls: seq<Roll>)
    requires Valid(s) && s.isSpinning && s.counter + |rolls| <= TickLimit
    ensures var t := Ticks(s, rolls);
      && Valid(t) && t.isSpinning && !t.hasResult && t.counter == s.counter + |rolls|
      && t.confetti == s.confetti && t.showFireworks == s.showFireworks && t.timers == s.timers
    decreases |rolls|
  {
    if |rolls| > 0 {
      StepPreservesValid(s, Tick(rolls[0]));
      TicksBelowLimit(Step(s, Tick(rolls[0])), rolls[1..]);
    }
  }

  /** No interval runs when the page is not spinning, so ticks change nothing. */
  lemma {:induction false} TicksWhenIdle(s: State, rolls: seq<Roll>)
    requires !s.isSpinning
    ensures Ticks(s, rolls) == s
    decreases |rolls|
  {
    if |rolls| > 0 {
      TicksWhenIdle(s, rolls[1..]);
    }
  }

  lemma TicksSplit(s: State, a: seq<Roll>, b: seq<Roll>)
    ensures Ticks(s, a + b) == Ticks(Ticks(s, a), b)
    decreases |a|
  {
    if |a| > 0 {
      assert (a + b)[0] == a[0] && (a + b)[1..] == a[1..] + b;
      assert Ticks(s, a + b) == Ticks(Step(s, Tick(a[0])), a[1..] + b);
      assert Ticks(s, a) == Ticks(Step(s, Tick(a[0])), a[1..]);
      TicksSplit(Step(s, Tick(a[0])), a[1..], b);
    } else {
      assert a + b == b;
    }
  }

  /** A spin lasts exactly 41 ticks: after a click on the enabled spin
      button, ticks 1 .. 40 keep the page spinning with no result, the 41st
      shows its final draw, ends the spin and reports a result, and no
      further tick changes anything. */
  lemma SpinLasts41Ticks(s: State, rolls: seq<Roll>, pick: nat -> PaletteIndex)
    requires Valid(s) && !s.isSpinning && |rolls| == TickLimit + 1
    ensures var spun := Step(s, Spin(pick));
      && (forall k :: 1 <= k <= TickLimit ==>
            Ticks(spun, rolls[..k]).isSpinning && !Ticks(spun, rolls[..k]).hasResult)
      && var done := Ticks(spun, rolls);
        && Valid(done) && !done.isSpinning && done.hasResult && done.effectDue
        && done.numbers == Draw(rolls[TickLimit], Text.DrawLength)
        && (!s.effectDue ==> done.confetti == [] && done.showFireworks == s.showFireworks && done.timers == s.timers)
        && (s.effectDue ==> IsBurst(done.confetti) && done.showFireworks && done.timers == s.timers + 1)
        && (forall more :: Ticks(done, more) == done)
  {
    var spun := Step(s, Spin(pick));
    forall k | 1 <= k <= TickLimit
      ensures Ticks(spun, rolls[..k]).isSpinning && !Ticks(spun, rolls[..k]).hasResult
    {
      TicksBelowLimit(spun, rolls[..k]);
    }
    var before := Ticks(spun, rolls[..TickLimit]);
    TicksBelowLimit(spun, rolls[..TickLimit]);
    TicksSplit(spun, rolls[..TickLimit], [rolls[TickLimit]]);
    assert rolls[..TickLimit] + [rolls[TickLimit]] == rolls;
    var done := Ticks(spun, rolls);
    assert done == TickOnce(before, rolls[TickLimit]);
    StepPreservesValid(before, Tick(rolls[TickLimit]));
    forall more
      ensures Ticks(done, more) == done
    {
      TicksWhenIdle(done, more);
    }
  }

  /** A click that comes before the `hasResult` effect has run lets it run
      first: the burst, the fireworks and a new timeout appear on top of the
      click, whether it starts a new spin or resets the page. */
  lemma ClickRunsPendingEffect(s: State, pick: nat -> PaletteIndex)
    requires Valid(s) && s.effectDue
    ensures var t := Step(s, Spin(pick));
      && t.isSpinning && !t.hasResult && t.counter == 0
      && IsBurst(t.confetti) && t.showFireworks && t.timers == s.timers + 1
    ensures var t := Step(s, Reset(pick));
      && t.numbers == [0, 0, 0, 0, 0] && !t.hasResult && !t.isSpinning
      && IsBurst(t.confetti) && t.showFireworks && t.timers == s.timers + 1
  {
  }

  /** The spin button is disabled while spinning: clicking it changes nothing. */
  lemma SpinDisabledWhileSpinning(s: State, pick: nat -> PaletteIndex)
    requires s.isSpinning
    ensures Step(s, Spin(pick)) == s
  {
  }

  // ---------------------------------------------------------------------------
  // The 4 s timeout is never cancelled
  // ---------------------------------------------------------------------------

  /** A spin followed by its 41 ticks and the result effect. */
  function SpinToResult(s: State, rolls: seq<Roll>, pick: nat -> PaletteIndex): State {
    var done := Ticks(Step(s, Spin(pick)), rolls);
    Step(done, ResultEffect(pick))
  }

  lemma SpinToResultEffect(s: State, rolls: seq<Roll>, pick: nat -> PaletteIndex)
    requires Valid(s) && !s.isSpinning && |rolls| == TickLimit + 1
    ensures var r := SpinToResult(s, rolls, pick);
      && Valid(r) && r.hasResult && !r.isSpinning && IsBurst(r.confetti) && r.showFireworks
      && r.timers == s.timers + (if s.effectDue then 2 else 1)
  {
    SpinLasts41Ticks(s, rolls, pick);
    var done := Ticks(Step(s, Spin(pick)), rolls);
    StepPreservesValid(s, Spin(pick));
    TicksBelowLimit(Step(s, Spin(pick)), rolls[..TickLimit]);
    StepPreservesValid(done, ResultEffect(pick));
  }

  /** As written, the effect never cancels its timeout and neither spin nor
      reset hides the fireworks. Spin again soon after a result: the fireworks
      keep going through the spin, two timeouts are pending once the second
      result is celebrated, and the first of them ends the second burst while
      that burst's own timeout is still pending, so the burst is cut short. */
  lemma StaleTimeoutCutsBurstShort(rolls1: seq<Roll>, rolls2: seq<Roll>, pick: nat -> PaletteIndex)
    requires |rolls1| == |rolls2| == TickLimit + 1
    ensures var first := SpinToResult(Init, rolls1, pick);
      var spinning := Step(first, Spin(pick));
      var second := SpinToResult(first, rolls2, pick);
      var after := Step(second, Timeout);
      && spinning.isSpinning && spinning.showFireworks && !spinning.hasResult
      && IsBurst(second.confetti) && second.timers == 2
      && after.hasResult && after.confetti == [] && !after.showFireworks && after.timers == 1
  {
    InitValid();
    SpinToResultEffect(Init, rolls1, pick);
    var first := SpinToResult(Init, rolls1, pick);
    SpinToResultEffect(first, rolls2, pick);
  }

  // ---------------------------------------------------------------------------
  // With the effect's cleanup
  // ---------------------------------------------------------------------------

  /** The cleanup the effect should return: when `hasResult` turns false it
      cancels the pending timeout and ends the burst at once. */
  function Cleanup(s: State): (r: State)
    ensures s.hasResult ==> r.timers == 0 && r.confetti == [] && !r.showFireworks
    ensures !s.hasResult ==> r == s
    ensures r.numbers == s.numbers && r.isSpinning == s.isSpinning && r.hasResult == s.hasResult
  {
    if s.hasResult then s.(timers := 0, confetti := [], showFireworks := false) else s
  }

  /** `Step` with the cleanup run by the two events that turn `hasResult`
      false. The cleanup runs after a pending effect, so it also cancels the
      timeout that effect has just set. */
  function StepWithCleanup(s: State, e: Event): (r: State)
    ensures !e.Spin? && !e.Reset? ==> r == Step(s, e)
    ensures r.numbers == Step(s, e).numbers && r.isSpinning == Step(s, e).isSpinning
    ensures r.hasResult == Step(s, e).hasResult && r.counter == Step(s, e).counter
    ensures r != s && s.hasResult && (e.Spin? || e.Reset?) ==>
      r.timers == 0 && r.confetti == [] && !r.showFireworks
  {
    match e
    case Spin(pick) =>
      if s.isSpinning then s else SpinLottery(Cleanup(AfterPendingEffect(s.effectDue, s, pick)))
    case Reset(pick) =>
      if s.hasResult then ResetPage(Cleanup(AfterPendingEffect(s.effectDue, s, pick))) else s
    case _ => Step(s, e)
  }

  /** Every pending timeout belongs to the burst on screen: one is pending
      exactly while fireworks show, and fireworks show only while the result
      they celebrate does. */
  predicate TimerOwnsBurst(s: State) {
    && s.timers == (if s.showFireworks then 1 else 0)
    && (s.showFireworks ==> s.hasResult && !s.effectDue)
  }

  /** With the cleanup, a timeout can only end the burst it was set for, and
      ending a burst leaves no timeout behind. */
  lemma CleanupKeepsTimerOwnership(s: State, e: Event)
    requires Valid(s) && TimerOwnsBurst(s)
    ensures Valid(StepWithCleanup(s, e)) && TimerOwnsBurst(StepWithCleanup(s, e))
    ensures e.Timeout? && s.showFireworks ==> StepWithCleanup(s, e).timers == 0
  {
  }

  function RunWithCleanup(s: State, es: seq<Event>): State
    decreases |es|
  {
    if |es| == 0 then s else RunWithCleanup(StepWithCleanup(s, es[0]), es[1..])
  }

  /** From the first render on, under any events, every timeout belongs to
      the burst on screen. */
  lemma {:induction false} RunWithCleanupOwnsTimers(s: State, es: seq<Event>)
    requires Valid(s) && TimerOwnsBurst(s)
    ensures Valid(RunWithCleanup(s, es)) && TimerOwnsBurst(RunWithCleanup(s, es))
    decreases |es|
  {
    if |es| > 0 {
      CleanupKeepsTimerOwnership(s, es[0]);
      RunWithCleanupOwnsTimers(StepWithCleanup(s, es[0]), es[1..]);
    }
  }
}

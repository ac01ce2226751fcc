/**
 The step loop of a game server's zone (`ZoneHandler::startThread`): the measured step times are
 averaged over windows of at least a second, the average becomes a load between 0 and 1, and the load
 slows the game clock down or sets it right again. Times are real numbers.
 */
module ZoneLoop {

  datatype Settings = Settings(
    minStep: real, maxStep: real, // step times that mean no load and full load
    boundary: real,               // load above which the clock slows down
    decreaser: real)              // factor of one slowing down

  predicate Sane(c: Settings) {
    0.0 <= c.minStep < c.maxStep && 0.0 < c.decreaser < 1.0
  }

  // ---------- windows ----------

  function Sum(s: seq<real>, n: nat): real
    requires n <= |s|
  {
    if n == 0 then 0.0 else Sum(s, n - 1) + s[n - 1]
  }

  /** The step at which the window open after n steps began. */
  function Start(times: seq<real>, n: nat): (start: nat)
    requires n <= |times|
    ensures start <= n
  {
    if n == 0 then 0 else if Full(times, Start(times, n - 1), n) then n else Start(times, n - 1)
  }

  /** The steps from one to another take a second or more. */
  predicate Full(times: seq<real>, from: nat, to: nat)
    requires from <= |times| && to <= |times|
  {
    Sum(times, to) - Sum(times, from) >= 1.0
  }

  /** The steps after `from` up to `to`. */
  datatype Window = Window(from: nat, to: nat)

  /** The windows that closed within the first n steps. */
  function Closed(times: seq<real>, n: nat): seq<Window>
    requires n <= |times|
  {
    if n == 0 then []
    else if Full(times, Start(times, n - 1), n) then Closed(times, n - 1) + [Window(Start(times, n - 1), n)]
    else Closed(times, n - 1)
  }

  /** A window that closes at the first step that brings it to a second. */
  ghost predicate IsSecond(times: seq<real>, w: Window) {
    && w.from < w.to <= |times|
    && Sum(times, w.to) - Sum(times, w.from) >= 1.0 && StaysOpen(times, w.from, w.to)
  }

  ghost predicate StaysOpen(times: seq<real>, from: nat, to: nat)
    requires from <= |times| && to <= |times|
  {
    forall k :: from <= k < to ==> Sum(times, k) - Sum(times, from) < 1.0
  }

  function EndOf(windows: seq<Window>): nat {
    if windows == [] then 0 else windows[|windows| - 1].to
  }

  /** Each window starts where the one before it ended, the first at the first step. */
  ghost predicate Adjoining(windows: seq<Window>) {
    forall i :: 0 <= i < |windows| ==> windows[i].from == EndOf(windows[..i])
  }

  /** The open window is shorter than a second at every step of it. */
  lemma {:induction false} OpenWindowIsShort(times: seq<real>, n: nat)
    requires n <= |times|
    ensures StaysOpen(times, Start(times, n), n) && Sum(times, n) - Sum(times, Start(times, n)) < 1.0
  {
    if n > 0 {
      OpenWindowIsShort(times, n - 1);
    }
  }

  lemma AdjoiningMore(windows: seq<Window>, w: Window)
    requires Adjoining(windows) && w.from == EndOf(windows)
    ensures Adjoining(windows + [w]) && EndOf(windows + [w]) == w.to
  {
  }

  /** The windows lie end to end, and the open one begins where the last of them ended. */
  lemma {:induction false} WindowsAdjoin(times: seq<real>, n: nat)
    requires n <= |times|
    ensures Adjoining(Closed(times, n)) && Start(times, n) == EndOf(Closed(times, n))
  {
    if n > 0 {
      WindowsAdjoin(times, n - 1);
      AdjoiningMore(Closed(times, n - 1), Window(Start(times, n - 1), n));
    }
  }

  /** Every window closes at the first step that brings it to a second. */
  lemma {:induction false} WindowsAreSeconds(times: seq<real>, n: nat)
    requires n <= |times|
    ensures forall w <- Closed(times, n) :: IsSecond(times, w) && w.to <= n
  {
    if n > 0 {
      WindowsAreSeconds(times, n - 1);
      OpenWindowIsShort(times, n - 1);
      if Full(times, Start(times, n - 1), n) {
        assert IsSecond(times, Window(Start(times, n - 1), n));
      }
    }
  }

  // ---------- loads and the clock ----------

  function Clamp(x: real): (r: real)
    ensures 0.0 <= r <= 1.0 && (0.0 <= x <= 1.0 ==> r == x)
  {
    if x > 1.0 then 1.0 else if x < 0.0 then 0.0 else x
  }

  /** The mean step time of a window, as a share of the way from no load to full load. */
  function LoadOf(c: Settings, times: seq<real>, w: Window): real
    requires Sane(c) && w.from <= |times| && w.to <= |times|
  {
    if w.from < w.to then LoadOfSum(c, Sum(times, w.to) - Sum(times, w.from), w.to - w.from) else 0.0
  }

  function LoadOfSum(c: Settings, total: real, steps: nat): (load: real)
    requires Sane(c) && steps > 0
    ensures 0.0 <= load <= 1.0
  {
    Clamp((total / steps as real - c.minStep) / (c.maxStep - c.minStep))
  }

  /** The load says how far a mean step time is on the way from no load to full load, and stops at both ends. */
  ghost predicate IsShareOf(c: Settings, load: real, mean: real) {
    && (load == 0.0 <==> mean <= c.minStep)
    && (load == 1.0 <==> mean >= c.maxStep)
    && (c.minStep <= mean <= c.maxStep ==> mean == c.minStep + load * (c.maxStep - c.minStep))
  }

  lemma Share(a: real, b: real)
    requires b > 0.0
    ensures (a / b <= 0.0 <==> a <= 0.0) && (a / b >= 1.0 <==> a >= b) && a / b * b == a
  {
    var q := a / b;
    assert q * b == a;
    if q > 0.0 {
      assert q * b > 0.0;
    } else {
      assert (-q) * b >= 0.0;
    }
    if q >= 1.0 {
      assert (q - 1.0) * b >= 0.0;
    } else {
      assert (1.0 - q) * b > 0.0;
    }
  }

  lemma LoadIsShare(c: Settings, total: real, steps: nat)
    requires Sane(c) && steps > 0
    ensures IsShareOf(c, LoadOfSum(c, total, steps), total / steps as real)
  {
    Share(total / steps as real - c.minStep, c.maxStep - c.minStep);
  }

  /** More step time never gives less load. */
  lemma LoadGrows(c: Settings, total: real, more: real, steps: nat)
    requires Sane(c) && steps > 0 && total <= more
    ensures LoadOfSum(c, total, steps) <= LoadOfSum(c, more, steps)
  {
    Divided(total, more, steps as real);
    Divided(total / steps as real - c.minStep, more / steps as real - c.minStep, c.maxStep - c.minStep);
  }

  lemma Divided(a: real, b: real, d: real)
    requires a <= b && d > 0.0
    ensures a / d <= b / d
  {
    var p, q := a / d, b / d;
    assert p * d == a && q * d == b;
    assert (q - p) * d == b - a;
    SameSign(q - p, d);
  }

  lemma SameSign(x: real, d: real)
    requires d > 0.0
    ensures x * d >= 0.0 <==> x >= 0.0
  {
    if x < 0.0 {
      assert (-x) * d > 0.0;
    }
  }

  /** The loads reported in the first n steps, one for each closed window. */
  function Loads(c: Settings, times: seq<real>, n: nat): seq<real>
    requires Sane(c) && n <= |times|
  {
    if n == 0 then []
    else if Full(times, Start(times, n - 1), n) then
      Loads(c, times, n - 1) + [LoadOf(c, times, Window(Start(times, n - 1), n))]
    else Loads(c, times, n - 1)
  }

  function Latest(loads: seq<real>): real {
    if loads == [] then 0.0 else loads[|loads| - 1]
  }

  /** Every report is between 0 and 1 and is the clamped mean of its own window. */
  lemma {:induction false} LoadOfEachWindow(c: Settings, times: seq<real>, n: nat)
    requires Sane(c) && n <= |times|
    ensures var windows := Closed(times, n);
            && |Loads(c, times, n)| == |windows|
            && forall i :: 0 <= i < |windows| ==>
              && windows[i].from < windows[i].to <= |times|
              && 0.0 <= Loads(c, times, n)[i] <= 1.0
              && Loads(c, times, n)[i] == LoadOf(c, times, windows[i])
  {
    if n > 0 {
      LoadOfEachWindow(c, times, n - 1);
      OpenWindowIsShort(times, n - 1);
    }
  }

  function NextStrain(c: Settings, strain: nat, load: real): nat {
    if load > c.boundary then strain + 1 else if load < c.boundary then 0 else strain
  }

  /** Each reported load is the share that the mean step time of its window makes. */
  lemma EachLoadIsShare(c: Settings, times: seq<real>, n: nat, i: nat)
    requires Sane(c) && n <= |times| && i < |Closed(times, n)|
    ensures |Loads(c, times, n)| == |Closed(times, n)|
    ensures var w := Closed(times, n)[i];
            w.from < w.to <= |times|
            && IsShareOf(c, Loads(c, times, n)[i], (Sum(times, w.to) - Sum(times, w.from)) / (w.to - w.from) as real)
  {
    LoadOfEachWindow(c, times, n);
    var w := Closed(times, n)[i];
    LoadIsShare(c, Sum(times, w.to) - Sum(times, w.from), w.to - w.from);
  }

  /** How often the clock is slowed down by the first n loads since it was last set right. */
  function Strain(c: Settings, loads: seq<real>, n: nat): nat
    requires n <= |loads|
  {
    if n == 0 then 0 else NextStrain(c, Strain(c, loads, n - 1), loads[n - 1])
  }

  /** How many of the loads from one to another are over the boundary. */
  function Over(c: Settings, loads: seq<real>, from: nat, n: nat): nat
    requires from <= n <= |loads|
    decreases n
  {
    if n == from then 0 else Over(c, loads, from, n - 1) + if loads[n - 1] > c.boundary then 1 else 0
  }

  /** The clock was last set right by the load before `calm`, or never if that is the first. */
  ghost predicate LastCalm(c: Settings, loads: seq<real>, calm: nat, n: nat) {
    && calm <= n <= |loads|
    && (calm > 0 ==> loads[calm - 1] < c.boundary)
    && forall i :: calm <= i < n ==> loads[i] >= c.boundary
  }

  /** The strain counts the loads over the boundary since the last load below it. */
  lemma {:induction false} StrainCounts(c: Settings, loads: seq<real>, calm: nat, n: nat)
    requires LastCalm(c, loads, calm, n)
    ensures Strain(c, loads, n) == Over(c, loads, calm, n)
    decreases n
  {
    if n > calm {
      StrainCounts(c, loads, calm, n - 1);
    }
  }

  lemma {:induction false} SomeLastCalm(c: Settings, loads: seq<real>, n: nat) returns (calm: nat)
    requires n <= |loads|
    ensures LastCalm(c, loads, calm, n)
  {
    if n == 0 || loads[n - 1] < c.boundary {
      calm := n;
    } else {
      calm := SomeLastCalm(c, loads, n - 1);
    }
  }

  function Times(x: real, y: real): (r: real)
    ensures 0.0 < y < 1.0 && 0.0 <= x ==> 0.0 <= r <= x
    ensures 0.0 < y < 1.0 && 0.0 < x ==> 0.0 < r < x
  {
    Shrink(x, y);
    x * y
  }

  function Power(x: real, k: nat): real {
    if k == 0 then 1.0 else Times(Power(x, k - 1), x)
  }

  lemma {:induction false} PowerBounds(x: real, k: nat)
    requires 0.0 < x < 1.0
    ensures 0.0 < Power(x, k) <= 1.0 && (Power(x, k) == 1.0 <==> k == 0)
  {
    if k > 0 {
      PowerBounds(x, k - 1);
    }
  }

  lemma Shrink(p: real, x: real)
    ensures 0.0 < x < 1.0 && 0.0 <= p ==> 0.0 <= p * x <= p
    ensures 0.0 < x < 1.0 && 0.0 < p ==> 0.0 < p * x < p
  {
  }

  /** A time slowed down k times. */
  function Slowed(t: real, x: real, k: nat): real {
    if k == 0 then t else Times(Slowed(t, x, k - 1), x)
  }

  lemma {:induction false} SlowedNeverGrows(t: real, x: real, k: nat)
    requires 0.0 <= t && 0.0 < x < 1.0
    ensures 0.0 <= Slowed(t, x, k) <= t
  {
    if k > 0 {
      SlowedNeverGrows(t, x, k - 1);
    }
  }

  /** A time slowed down k times is the time multiplied by the delay. */
  lemma {:induction false} SlowedByDelay(t: real, x: real, k: nat)
    ensures t * Power(x, k) == Slowed(t, x, k)
  {
    if k > 0 {
      SlowedByDelay(t, x, k - 1);
      assert t * (Power(x, k - 1) * x) == (t * Power(x, k - 1)) * x;
    }
  }

  /** How often the clock was slowed down in the first n steps since it was last set right. */
  function StrainAfter(c: Settings, times: seq<real>, n: nat): nat
    requires Sane(c) && n <= |times|
  {
    Strain(c, Loads(c, times, n), |Loads(c, times, n)|)
  }

  /** The time of the step before step n; the first step has none before it. */
  function Previous(times: seq<real>, n: nat): real
    requires n <= |times|
  {
    if n == 0 then 0.0 else times[n - 1]
  }

  /** The game time handed to the first n steps: each gets the time of the step before, slowed down. */
  function GameTime(c: Settings, times: seq<real>, n: nat): real
    requires Sane(c) && n <= |times|
  {
    if n == 0 then 0.0
    else GameTime(c, times, n - 1) + Slowed(Previous(times, n - 1), c.decreaser, StrainAfter(c, times, n - 1))
  }

  /** The game clock never runs ahead of real time, and never backwards. */
  lemma {:induction false} GameClockNeverAhead(c: Settings, times: seq<real>, n: nat)
    requires Sane(c) && n <= |times| && forall i :: 0 <= i < |times| ==> times[i] >= 0.0
    ensures 0.0 <= GameTime(c, times, n) <= Sum(times, if n == 0 then 0 else n - 1)
  {
    if n > 0 {
      GameClockNeverAhead(c, times, n - 1);
      SlowedNeverGrows(Previous(times, n - 1), c.decreaser, StrainAfter(c, times, n - 1));
    }
  }

  /** As long as no load was over the boundary the game clock shows real time. */
  lemma {:induction false} GameClockUndelayed(c: Settings, times: seq<real>, n: nat)
    requires Sane(c) && n <= |times| && forall k :: 0 <= k < n ==> StrainAfter(c, times, k) == 0
    ensures GameTime(c, times, n) == Sum(times, if n == 0 then 0 else n - 1)
  {
    if n > 0 {
      GameClockUndelayed(c, times, n - 1);
    }
  }

  /** When a window closes, its load joins the others, and the next window starts. */
  lemma OneMoreLoad(c: Settings, times: seq<real>, k: nat)
    requires Sane(c) && 0 < k <= |times| && Full(times, Start(times, k - 1), k)
    ensures Start(times, k) == k
    ensures var from := Start(times, k - 1);
            var load := LoadOfSum(c, Sum(times, k) - Sum(times, from), k - from);
            && Latest(Loads(c, times, k)) == load
            && StrainAfter(c, times, k) == NextStrain(c, StrainAfter(c, times, k - 1), load)
  {
    var loads := Loads(c, times, k - 1);
    StrainPrefix(c, loads, LoadOf(c, times, Window(Start(times, k - 1), k)), |loads|);
  }

  lemma NoNewLoad(c: Settings, times: seq<real>, k: nat)
    requires Sane(c) && 0 < k <= |times| && !Full(times, Start(times, k - 1), k)
    ensures Start(times, k) == Start(times, k - 1)
    ensures Loads(c, times, k) == Loads(c, times, k - 1) && StrainAfter(c, times, k) == StrainAfter(c, times, k - 1)
  {
  }

  lemma {:induction false} StrainPrefix(c: Settings, loads: seq<real>, more: real, n: nat)
    requires n <= |loads|
    ensures Strain(c, loads + [more], n) == Strain(c, loads, n)
  {
    if n > 0 {
      StrainPrefix(c, loads, more, n - 1);
    }
  }

  // ---------- the loop

  class ZoneHandler {
    const settings: Settings
    var load: real
    var delay: real

    constructor (settings: Settings)
      ensures this.settings == settings && load == 0.0 && delay == 1.0
    {
      this.settings, load, delay := settings, 0.0, 1.0;
    }

    /** The time handed to `step`, with a clock that was slowed down `strain` times. */
    method StepTime(stepTime: real, ghost strain: nat) returns (time: real)
      requires delay == Power(settings.decreaser, strain)
      ensures time == stepTime * delay
      ensures time == Slowed(stepTime, settings.decreaser, strain)
    {
      SlowedByDelay(stepTime, settings.decreaser, strain);
      time := stepTime * delay;
    }

    /** The load of a window, with its clamps. */
    method Measure(total: real, steps: nat) returns (measured: real)
      requires Sane(settings) && steps > 0
      ensures measured == LoadOfSum(settings, total, steps) && IsShareOf(settings, measured, total / steps as real)
    {
      LoadIsShare(settings, total, steps);
      var average := total / steps as real;
      measured := (average - settings.minStep) / (settings.maxStep - settings.minStep);
      measured := if measured > 1.0 then 1.0 else measured;
      measured := if measured < 0.0 then 0.0 else measured;
    }

    /** The end of a window: the load and the clock. */
    method CloseWindow(total: real, steps: nat, ghost strain: nat)
      requires Sane(settings) && steps > 0 && delay == Power(settings.decreaser, strain)
      modifies this
      ensures load == LoadOfSum(settings, total, steps) && IsShareOf(settings, load, total / steps as real)
      ensures delay == Power(settings.decreaser, NextStrain(settings, strain, load))
      ensures delay == if load > settings.boundary then old(delay) * settings.decreaser
                       else if load < settings.boundary then 1.0
                       else old(delay)
    {
      load := Measure(total, steps);
      PowerBounds(settings.decreaser, strain);
      if load > settings.boundary {
        delay := delay * settings.decreaser;
      } else if delay < 1.0 && load < settings.boundary {
        delay := 1.0;
      }
    }

    /** The end of the window that is full after step k. */
    method EndWindow(total: real, steps: nat, ghost times: seq<real>, ghost k: nat)
      requires Sane(settings) && 0 < k <= |times| && Full(times, Start(times, k - 1), k)
      requires total == Sum(times, k) - Sum(times, Start(times, k - 1)) && steps == k - Start(times, k - 1)
      requires delay == Power(settings.decreaser, StrainAfter(settings, times, k - 1))
      modifies this
      ensures load == Latest(Loads(settings, times, k))
      ensures delay == Power(settings.decreaser, StrainAfter(settings, times, k))
    {
      OneMoreLoad(settings, times, k);
      CloseWindow(total, steps, StrainAfter(settings, times, k - 1));
    }

    /** `startThread`, for the steps whose times are given; `game` is the game time handed to the steps. */
    method StartThread(times: seq<real>) returns (game: real)
      requires Sane(settings) && load == 0.0 && delay == 1.0
      modifies this
      ensures load == Latest(Loads(settings, times, |times|))
      ensures delay == Power(settings.decreaser, StrainAfter(settings, times, |times|))
      ensures game == GameTime(settings, times, |times|)
    {
      var stepTime, timeTillSec, stepsPerSec := 0.0, 0.0, 0;
      game := 0.0;
      var k := 0;
      while k < |times|
        invariant k <= |times| && Measures(times, k, stepTime, timeTillSec, stepsPerSec)
        invariant game == GameTime(settings, times, k)
        invariant delay == Power(settings.decreaser, StrainAfter(settings, times, k))
        invariant load == Latest(Loads(settings, times, k))
      {
        ghost var strain := StrainAfter(settings, times, k);
        MeasuresOn(times, k, stepTime, timeTillSec, stepsPerSec);
        GameTimeOn(settings, times, k);
        var time := StepTime(stepTime, strain);
        game := game + time;
        stepTime := times[k];
        stepsPerSec := stepsPerSec + 1;
        timeTillSec := timeTillSec + stepTime;
        k := k + 1;
        if timeTillSec >= 1.0 {
          EndWindow(timeTillSec, stepsPerSec, times, k);
          timeTillSec, stepsPerSec := 0.0, 0;
        } else {
          NoNewLoad(settings, times, k);
        }
      }
    }
  }

  /** The times that the loop has taken after k steps. */
  ghost predicate Measures(times: seq<real>, k: nat, stepTime: real, timeTillSec: real, stepsPerSec: int)
    requires k <= |times|
  {
    && stepTime == Previous(times, k)
    && timeTillSec == Sum(times, k) - Sum(times, Start(times, k))
    && stepsPerSec == k - Start(times, k)
  }

  /** One more step, before the window is looked at and after. */
  lemma MeasuresOn(times: seq<real>, k: nat, stepTime: real, timeTillSec: real, stepsPerSec: int)
    requires k < |times| && Measures(times, k, stepTime, timeTillSec, stepsPerSec)
    ensures var from, total := Start(times, k), timeTillSec + times[k];
            && total == Sum(times, k + 1) - Sum(times, from) && stepsPerSec + 1 == k + 1 - from
            && (Full(times, from, k + 1) <==> total >= 1.0)
            && (if total >= 1.0 then Measures(times, k + 1, times[k], 0.0, 0)
                else Measures(times, k + 1, times[k], total, stepsPerSec + 1))
  {
  }

  /** Each step is handed the time of the step before, slowed down as often as the strain says. */
  lemma GameTimeOn(c: Settings, times: seq<real>, k: nat)
    requires Sane(c) && k < |times|
    ensures GameTime(c, times, k + 1)
         == GameTime(c, times, k) + Slowed(Previous(times, k), c.decreaser, StrainAfter(c, times, k))
  {
  }
}

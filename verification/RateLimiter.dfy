/**
  The fixed-window limiter in front of the error reporter.

  The source calls it "at most ten a minute".  That holds for a minute with no window beginning
  strictly inside it; for an arbitrary minute the true bound is twenty, and it is reached.
 */
module RateLimiter {

  const RATE_LIMIT_MAX: nat := 10
  const RATE_LIMIT_WINDOW_MS: nat := 60_000

  datatype Limiter = Limiter(errorCount: nat, windowStart: int)

  // A report let through: when, and the start of the window it was counted in.
  datatype Admitted = Admitted(time: int, window: int)

  function Refresh(l: Limiter, now: int): Limiter {
    if now - l.windowStart >= RATE_LIMIT_WINDOW_MS then Limiter(0, now) else l
  }

  // isRateLimited at time `now`: the limiter afterwards, and the answer.
  function Ask(l: Limiter, now: int): (Limiter, bool) {
    var r := Refresh(l, now);
    if r.errorCount >= RATE_LIMIT_MAX then (r, true) else (Limiter(r.errorCount + 1, r.windowStart), false)
  }

  // The limiter after calls at `times`, and the reports let through.
  function Run(loaded: int, times: seq<int>): (Limiter, seq<Admitted>)
    decreases |times|
  {
    if times == [] then (Limiter(0, loaded), [])
    else
      var (l, log) := Run(loaded, times[..|times| - 1]);
      var now := times[|times| - 1];
      var (l', limited) := Ask(l, now);
      (l', if limited then log else log + [Admitted(now, l'.windowStart)])
  }

  // The clock never runs backwards.
  ghost predicate Monotone(loaded: int, times: seq<int>) {
    && (forall i, j :: 0 <= i <= j < |times| ==> times[i] <= times[j])
    && (forall i :: 0 <= i < |times| ==> loaded <= times[i])
  }

  ghost predicate Apart(a: int, b: int) { a == b || a + RATE_LIMIT_WINDOW_MS <= b }

  // What is known of the log: the last `errorCount` reports belong to the current window.
  ghost predicate LogOk(l: Limiter, log: seq<Admitted>, now: int) {
    && l.errorCount <= |log| && l.errorCount <= RATE_LIMIT_MAX && l.windowStart <= now
    && (forall i :: 0 <= i < |log| ==>
          && log[i].window <= log[i].time < log[i].window + RATE_LIMIT_WINDOW_MS
          && log[i].time <= now
          && Apart(log[i].window, l.windowStart)
          && (log[i].window == l.windowStart <==> i >= |log| - l.errorCount))
    && (forall i, j :: 0 <= i <= j < |log| ==> log[i].time <= log[j].time && Apart(log[i].window, log[j].window))
    && (forall i, j :: 0 <= i && i + RATE_LIMIT_MAX <= j < |log| ==>
          log[i].window + RATE_LIMIT_WINDOW_MS <= log[j].window)
  }

  lemma AskKeepsLog(l: Limiter, log: seq<Admitted>, was: int, now: int)
    requires LogOk(l, log, was) && was <= now
    ensures var (l', limited) := Ask(l, now);
      LogOk(l', if limited then log else log + [Admitted(now, l'.windowStart)], now)
  {
  }

  lemma {:induction false} RunKeepsLog(loaded: int, times: seq<int>)
    requires Monotone(loaded, times)
    ensures LogOk(Run(loaded, times).0, Run(loaded, times).1, if times == [] then loaded else times[|times| - 1])
    decreases |times|
  {
    if times != [] {
      var n := |times| - 1;
      RunKeepsLog(loaded, times[..n]);
      var (l, log) := Run(loaded, times[..n]);
      AskKeepsLog(l, log, if n == 0 then loaded else times[n - 1], times[n]);
    }
  }

  function CountIn(log: seq<Admitted>, from: int, to: int): nat
    decreases |log|
  {
    if log == [] then 0
    else
      var n := |log| - 1;
      CountIn(log[..n], from, to) + if from <= log[n].time < to then 1 else 0
  }

  // If all reports of an interval sit within `width` consecutive places, there are no more.
  lemma {:induction false} CountWithin(log: seq<Admitted>, from: int, to: int, first: nat, width: nat)
    requires forall i :: 0 <= i < |log| && from <= log[i].time < to ==> first <= i < first + width
    ensures CountIn(log, from, to) <=
      (if |log| <= first then 0 else if |log| - first < width then |log| - first else width)
    decreases |log|
  {
    if log != [] {
      var n := |log| - 1;
      forall i | 0 <= i < n && from <= log[..n][i].time < to ensures first <= i < first + width {
        assert log[..n][i] == log[i];
      }
      CountWithin(log[..n], from, to, first, width);
    }
  }

  // The first report of an interval, if it has one.
  lemma {:induction false} FirstIn(log: seq<Admitted>, from: int, to: int) returns (first: nat)
    ensures forall i :: 0 <= i < |log| && from <= log[i].time < to ==> first <= i
    ensures first < |log| ==> from <= log[first].time < to
    ensures first <= |log|
    decreases |log|
  {
    if log == [] { return 0; }
    var n := |log| - 1;
    first := FirstIn(log[..n], from, to);
    if first < n { assert log[..n][first] == log[first]; }
    forall i | 0 <= i < n && from <= log[i].time < to ensures first <= i { assert log[..n][i] == log[i]; }
    if first == n && !(from <= log[n].time < to) { first := |log|; }
  }

  /** No interval of one minute, wherever it starts, lets more than twenty reports through. */
  lemma AtMostTwentyInAnyMinute(loaded: int, times: seq<int>, from: int)
    requires Monotone(loaded, times)
    ensures CountIn(Run(loaded, times).1, from, from + 60_000) <= 20
  {
    RunKeepsLog(loaded, times);
    var log := Run(loaded, times).1;
    var to := from + RATE_LIMIT_WINDOW_MS;
    var first := FirstIn(log, from, to);
    forall i | first + 2 * RATE_LIMIT_MAX <= i < |log| ensures log[i].time >= to {
      assert log[first].window + RATE_LIMIT_WINDOW_MS <= log[first + RATE_LIMIT_MAX].window;
      assert log[first + RATE_LIMIT_MAX].window + RATE_LIMIT_WINDOW_MS <= log[i].window;
    }
    CountWithin(log, from, to, first, 2 * RATE_LIMIT_MAX);
  }

  lemma LaterWindowsAreLater(l: Limiter, log: seq<Admitted>, now: int, k: nat)
    requires LogOk(l, log, now) && k < |log|
    ensures forall j :: 0 <= j < |log| && log[j].window > log[k].window ==>
      log[j].window >= log[k].window + RATE_LIMIT_WINDOW_MS
  {
  }

  // From the first report in a window on, the eleventh lies past the window.
  lemma EleventhIsLater(l: Limiter, log: seq<Admitted>, now: int, k: nat, first: nat, i: nat)
    requires LogOk(l, log, now) && first <= k < |log| && first + RATE_LIMIT_MAX <= i < |log|
    requires log[k].window <= log[first].time
    ensures log[i].time >= log[k].window + RATE_LIMIT_WINDOW_MS
  {
  }

  /** The minute from a window's start lets at most ten through, and the next window starts no
      earlier than its end. */
  lemma AtMostTenInAWindow(loaded: int, times: seq<int>, k: nat)
    requires Monotone(loaded, times) && k < |Run(loaded, times).1|
    ensures var log := Run(loaded, times).1;
      && CountIn(log, log[k].window, log[k].window + 60_000) <= 10
      && forall j :: 0 <= j < |log| && log[j].window > log[k].window ==>
           log[j].window >= log[k].window + 60_000
  {
    RunKeepsLog(loaded, times);
    var (l, log) := Run(loaded, times);
    TenInAWindow(l, log, if times == [] then loaded else times[|times| - 1], k);
  }

  lemma TenInAWindow(l: Limiter, log: seq<Admitted>, now: int, k: nat)
    requires LogOk(l, log, now) && k < |log|
    ensures CountIn(log, log[k].window, log[k].window + RATE_LIMIT_WINDOW_MS) <= RATE_LIMIT_MAX
    ensures forall j :: 0 <= j < |log| && log[j].window > log[k].window ==>
      log[j].window >= log[k].window + RATE_LIMIT_WINDOW_MS
  {
    var from, to := log[k].window, log[k].window + RATE_LIMIT_WINDOW_MS;
    var first := FirstIn(log, from, to);
    LaterWindowsAreLater(l, log, now, k);
    forall i | first + RATE_LIMIT_MAX <= i < |log| ensures log[i].time >= to {
      EleventhIsLater(l, log, now, k, first, i);
    }
    CountWithin(log, from, to, first, RATE_LIMIT_MAX);
  }

  /** A minute with no window beginning strictly inside lets at most ten through. */
  lemma AtMostTenUnlessAWindowBegins(loaded: int, times: seq<int>, from: int)
    requires Monotone(loaded, times)
    requires forall k :: 0 <= k < |Run(loaded, times).1| ==>
      !(from < Run(loaded, times).1[k].window < from + 60_000)
    ensures CountIn(Run(loaded, times).1, from, from + 60_000) <= 10
  {
    RunKeepsLog(loaded, times);
    var log := Run(loaded, times).1;
    var to := from + RATE_LIMIT_WINDOW_MS;
    var first := FirstIn(log, from, to);
    forall i | first + RATE_LIMIT_MAX <= i < |log| ensures log[i].time >= to {
      assert log[first].window + RATE_LIMIT_WINDOW_MS <= log[i].window;
    }
    CountWithin(log, from, to, first, RATE_LIMIT_MAX);
  }

  // ---------- how many a minute lets through ----------

  // The calls made in [from, to).
  function Calls(times: seq<int>, from: int, to: int): nat
    decreases |times|
  {
    if times == [] then 0
    else
      var n := |times| - 1;
      Calls(times[..n], from, to) + if from <= times[n] < to then 1 else 0
  }

  // The limiter as it is when the minute from `from` begins.
  function At(loaded: int, times: seq<int>, from: int): Limiter
    decreases |times|
  {
    if times == [] || times[|times| - 1] < from then Run(loaded, times).0
    else At(loaded, times[..|times| - 1], from)
  }

  function Min(a: int, b: int): int { if a <= b then a else b }

  // Where the old window, or else the minute, ends; and where a new window can begin.
  function OldEnd(l: Limiter, from: int): int {
    Min(l.windowStart + RATE_LIMIT_WINDOW_MS, from + RATE_LIMIT_WINDOW_MS)
  }

  function LateFrom(l: Limiter, from: int): int {
    var end := l.windowStart + RATE_LIMIT_WINDOW_MS;
    if end <= from then from else end
  }

  // Calls of the minute that still fall in the old window, and those that come after it.
  function EarlyCalls(loaded: int, times: seq<int>, from: int): nat {
    Calls(times, from, OldEnd(At(loaded, times, from), from))
  }

  function LateCalls(loaded: int, times: seq<int>, from: int): nat {
    Calls(times, LateFrom(At(loaded, times, from), from), from + RATE_LIMIT_WINDOW_MS)
  }

  // What the old window still lets through.
  function OldShare(loaded: int, times: seq<int>, from: int): int {
    Min(EarlyCalls(loaded, times, from), RATE_LIMIT_MAX - At(loaded, times, from).errorCount)
  }

  // From limiter `b` before the minute, after `early` and `late` calls: limiter `l`, `count` let through.
  ghost predicate Tally(b: Limiter, early: nat, late: nat, from: int, l: Limiter, count: nat) {
    var share := Min(early, RATE_LIMIT_MAX - b.errorCount);
    && b.errorCount <= RATE_LIMIT_MAX
    && count == share + Min(late, RATE_LIMIT_MAX)
    && (if late == 0 then l == Limiter(b.errorCount + share, b.windowStart)
        else l.windowStart >= from && l.errorCount == Min(late, RATE_LIMIT_MAX))
  }

  lemma TallyStep(b: Limiter, early: nat, late: nat, from: int, l: Limiter, count: nat, now: int)
    requires Tally(b, early, late, from, l, count) && from <= now < from + RATE_LIMIT_WINDOW_MS
    requires late > 0 ==> LateFrom(b, from) <= now
    ensures var (l', limited) := Ask(l, now);
      Tally(b, early + (if now < OldEnd(b, from) then 1 else 0), late + (if now >= LateFrom(b, from) then 1 else 0),
            from, l', count + if limited then 0 else 1)
  {
  }

  lemma {:induction false} CallsAreEarlier(times: seq<int>, from: int, to: int, now: int)
    requires forall i :: 0 <= i < |times| ==> times[i] <= now
    ensures Calls(times, from, to) > 0 ==> from <= now
  {
    if times != [] { CallsAreEarlier(times[..|times| - 1], from, to, now); }
  }

  lemma {:induction false} NoCallsYet(times: seq<int>, from: int, to: int)
    requires forall i :: 0 <= i < |times| ==> times[i] < from
    ensures Calls(times, from, to) == 0
  {
    if times != [] { NoCallsYet(times[..|times| - 1], from, to); }
  }

  lemma CountSnoc(log: seq<Admitted>, a: Admitted, from: int, to: int)
    ensures CountIn(log + [a], from, to) == CountIn(log, from, to) + if from <= a.time < to then 1 else 0
  {
    assert (log + [a])[..|log|] == log;
  }

  // The tally of the minute after all calls so far.
  ghost predicate Tallied(loaded: int, times: seq<int>, from: int) {
    var (l, log) := Run(loaded, times);
    Tally(At(loaded, times, from), EarlyCalls(loaded, times, from), LateCalls(loaded, times, from), from,
          l, CountIn(log, from, from + RATE_LIMIT_WINDOW_MS))
  }

  lemma NothingYet(loaded: int, times: seq<int>, from: int)
    requires Monotone(loaded, times) && (times == [] || times[|times| - 1] < from)
    ensures Tallied(loaded, times, from)
  {
    var to := from + RATE_LIMIT_WINDOW_MS;
    var (l, log) := Run(loaded, times);
    RunKeepsLog(loaded, times);
    NoCallsYet(times, from, OldEnd(l, from));
    assert from <= LateFrom(l, from);
    NoCallsYet(times, LateFrom(l, from), to);
    NothingCounted(log, from, to);
  }

  lemma NothingCounted(log: seq<Admitted>, from: int, to: int)
    requires forall i :: 0 <= i < |log| ==> log[i].time < from
    ensures CountIn(log, from, to) == 0
  {
    CountWithin(log, from, to, |log|, 0);
  }

  lemma CallsStep(loaded: int, times: seq<int>, from: int)
    requires times != [] && from <= times[|times| - 1] < from + RATE_LIMIT_WINDOW_MS
    ensures var n := |times| - 1;
      var b := At(loaded, times, from);
      && b == At(loaded, times[..n], from)
      && EarlyCalls(loaded, times, from)
         == EarlyCalls(loaded, times[..n], from) + (if times[n] < OldEnd(b, from) then 1 else 0)
      && LateCalls(loaded, times, from)
         == LateCalls(loaded, times[..n], from) + (if times[n] >= LateFrom(b, from) then 1 else 0)
  {
  }

  lemma LogStep(loaded: int, times: seq<int>, from: int)
    requires times != [] && from <= times[|times| - 1] < from + RATE_LIMIT_WINDOW_MS
    ensures var n := |times| - 1;
      var (l, log) := Run(loaded, times[..n]);
      var (l', limited) := Ask(l, times[n]);
      && Run(loaded, times).0 == l'
      && CountIn(Run(loaded, times).1, from, from + RATE_LIMIT_WINDOW_MS)
         == CountIn(log, from, from + RATE_LIMIT_WINDOW_MS) + if limited then 0 else 1
  {
    var n := |times| - 1;
    var (l, log) := Run(loaded, times[..n]);
    CountSnoc(log, Admitted(times[n], Ask(l, times[n]).0.windowStart), from, from + RATE_LIMIT_WINDOW_MS);
  }

  lemma {:induction false} MinuteTally(loaded: int, times: seq<int>, from: int)
    requires Monotone(loaded, times) && (times == [] || times[|times| - 1] < from + RATE_LIMIT_WINDOW_MS)
    ensures Tallied(loaded, times, from)
    decreases |times|
  {
    if times == [] || times[|times| - 1] < from {
      NothingYet(loaded, times, from);
    } else {
      var n := |times| - 1;
      var b := At(loaded, times, from);
      var (l, log) := Run(loaded, times[..n]);
      MinuteTally(loaded, times[..n], from);
      CallsAreEarlier(times[..n], LateFrom(b, from), from + RATE_LIMIT_WINDOW_MS, times[n]);
      CallsStep(loaded, times, from);
      LogStep(loaded, times, from);
      TallyStep(b, EarlyCalls(loaded, times[..n], from), LateCalls(loaded, times[..n], from), from,
                l, CountIn(log, from, from + RATE_LIMIT_WINDOW_MS), times[n]);
    }
  }

  /** Exactly how many reports a minute lets through, from the limiter before it and the calls in it:
      what is left in the old window, and up to ten more once that window is over.  It is more than
      ten exactly when the old window takes some and those that come after it are too many. */
  lemma {:induction false} MinuteLetsThrough(loaded: int, times: seq<int>, from: int)
    requires Monotone(loaded, times)
    ensures CountIn(Run(loaded, times).1, from, from + 60_000)
         == OldShare(loaded, times, from) + Min(LateCalls(loaded, times, from), 10)
    ensures CountIn(Run(loaded, times).1, from, from + 60_000) > 10
       <==> OldShare(loaded, times, from) > 0
            && LateCalls(loaded, times, from) > 10 - OldShare(loaded, times, from)
    decreases |times|
  {
    var n := |times| - 1;
    if times != [] && times[n] >= from + RATE_LIMIT_WINDOW_MS {
      MinuteLetsThrough(loaded, times[..n], from);
      var log := Run(loaded, times[..n]).1;
      CountSnoc(log, Admitted(times[n], Run(loaded, times).0.windowStart), from, from + RATE_LIMIT_WINDOW_MS);
    } else {
      MinuteTally(loaded, times, from);
    }
  }

  /** A report is turned away only when ten have gone through in the window that holds `now`, each
      of them less than a minute ago. */
  lemma TurnedAwayOnlyAfterTen(loaded: int, times: seq<int>, now: int)
    requires Monotone(loaded, times + [now])
    ensures var (l, log) := Run(loaded, times);
      && (Ask(l, now).1 <==>
            |log| >= 10 && log[|log| - 10].window == l.windowStart
            && now < l.windowStart + 60_000)
      && (Ask(l, now).1 ==>
            forall i :: |log| - 10 <= i < |log| ==> now - log[i].time < 60_000)
  {
    forall i | 0 <= i < |times| ensures (times + [now])[i] == times[i] {}
    assert Monotone(loaded, times);
    RunKeepsLog(loaded, times);
  }

  // ---------- twenty is reached ----------

  function Burst(n: nat, time: int): seq<int> { seq(n, i => time) }

  function TwoBursts(n: nat): seq<int> {
    Burst(10, RATE_LIMIT_WINDOW_MS - 1) + Burst(n, RATE_LIMIT_WINDOW_MS)
  }

  lemma {:induction false} FirstBurst(n: nat)
    requires n <= 10
    ensures var t := RATE_LIMIT_WINDOW_MS - 1;
      && Run(0, Burst(n, t)).0 == Limiter(n, 0)
      && |Run(0, Burst(n, t)).1| == n
      && CountIn(Run(0, Burst(n, t)).1, t, t + RATE_LIMIT_WINDOW_MS) == n
  {
    if n > 0 {
      var t := RATE_LIMIT_WINDOW_MS - 1;
      assert Burst(n, t)[..n - 1] == Burst(n - 1, t);
      FirstBurst(n - 1);
      assert (Run(0, Burst(n - 1, t)).1 + [Admitted(t, 0)])[..n - 1] == Run(0, Burst(n - 1, t)).1;
    }
  }

  /** Ten reports at the end of one window and ten at the start of the next, a millisecond apart,
      all go through. */
  lemma {:induction false} TwentyWithinAMillisecond(n: nat)
    requires n <= 10
    ensures var t := 60_000 - 1;
      && CountIn(Run(0, TwoBursts(n)).1, t, t + 60_000) == 10 + n
      && |Run(0, TwoBursts(n)).1| == 10 + n
      && (n > 0 ==> Run(0, TwoBursts(n)).0 == Limiter(n, 60_000))
  {
    var t := RATE_LIMIT_WINDOW_MS - 1;
    FirstBurst(10);
    if n == 0 {
      assert TwoBursts(0) == Burst(10, t);
    } else {
      TwentyWithinAMillisecond(n - 1);
      assert TwoBursts(n)[..|TwoBursts(n)| - 1] == TwoBursts(n - 1);
      var log := Run(0, TwoBursts(n - 1)).1;
      assert n == 1 ==> TwoBursts(0) == Burst(10, t);
      assert (log + [Admitted(t + 1, t + 1)])[..|log|] == log;
    }
  }

  // ---------- the module's variables ----------

  class ErrorReporter {
    var errorCount: nat
    var windowStart: int

    method IsRateLimited(now: int) returns (limited: bool)
      modifies this
      ensures (Limiter(errorCount, windowStart), limited) == Ask(Limiter(old(errorCount), old(windowStart)), now)
    {
      if now - windowStart >= RATE_LIMIT_WINDOW_MS {
        errorCount := 0;
        windowStart := now;
      }
      if errorCount >= RATE_LIMIT_MAX { return true; }
      errorCount := errorCount + 1;
      return false;
    }
  }
}

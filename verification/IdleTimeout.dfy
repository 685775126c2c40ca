/**
  Logging out an idle tab: a timer that user input resets, a warning with a countdown, and a tick
  every second that compares.

  Input events are throttled: one that comes within five seconds of the last accepted one is
  dropped.  Times are milliseconds of a clock that never runs backwards.
 */
module IdleTimeout {
  const IDLE_TIMEOUT_SECONDS: nat := 1800
  const IDLE_WARNING_BEFORE_SECONDS: nat := 300
  const IDLE_ACTIVITY_THROTTLE_MS: nat := 5_000

  datatype State = State(
    lastActivity: int,
    lastThrottle: int,
    warning: bool,
    secondsRemaining: int,
    loggedOut: bool)

  // Input: a raw browser event.  Continue: the button, or a message from another tab's button.
  datatype Event = Input(time: int) | Continue(time: int) | Tick(time: int)

  function Initial(now: int): State { State(now, 0, false, IDLE_WARNING_BEFORE_SECONDS, false) }

  function Reset(st: State, now: int): State {
    if st.warning then st.(lastActivity := now, warning := false, secondsRemaining := IDLE_WARNING_BEFORE_SECONDS)
    else st.(lastActivity := now)
  }

  predicate Dropped(st: State, now: int) { now - st.lastThrottle < IDLE_ACTIVITY_THROTTLE_MS }

  function Elapsed(st: State, now: int): int { (now - st.lastActivity) / 1000 }

  function Step(st: State, ev: Event): State {
    match ev
    case Input(t) => if st.loggedOut || Dropped(st, t) then st else Reset(st.(lastThrottle := t), t)
    case Continue(t) => if st.loggedOut then st else Reset(st, t)
    case Tick(t) =>
      var e := Elapsed(st, t);
      if st.loggedOut then st
      else if e >= IDLE_TIMEOUT_SECONDS then st.(loggedOut := true)
      else if e >= IDLE_TIMEOUT_SECONDS - IDLE_WARNING_BEFORE_SECONDS then
        st.(warning := true, secondsRemaining := IDLE_TIMEOUT_SECONDS - e)
      else st.(warning := false)
  }

  function Run(start: int, evs: seq<Event>): State
    decreases |evs|
  {
    if evs == [] then Initial(start)
    else Step(Run(start, evs[..|evs| - 1]), evs[|evs| - 1])
  }

  // The hook starts more than five seconds into the epoch, and the clock does not run backwards.
  ghost predicate Timed(start: int, evs: seq<Event>) {
    && start >= IDLE_ACTIVITY_THROTTLE_MS
    && (forall i :: 0 <= i < |evs| ==> start <= evs[i].time)
    && (forall i, j :: 0 <= i <= j < |evs| ==> evs[i].time <= evs[j].time)
  }

  // ---------- what the state remembers of the input ----------

  ghost predicate Inv(start: int, evs: seq<Event>, st: State) {
    && start <= st.lastActivity
    && st.lastThrottle <= st.lastActivity
    && (forall i :: 0 <= i < |evs| && st.lastActivity < evs[i].time ==> !evs[i].Continue? || st.loggedOut)
    && (st.lastActivity == start || exists i :: 0 <= i < |evs| && !evs[i].Tick? && evs[i].time == st.lastActivity)
    && (!st.loggedOut ==>
          forall i :: 0 <= i < |evs| && evs[i].Input? ==> evs[i].time - st.lastActivity < IDLE_ACTIVITY_THROTTLE_MS)
  }

  lemma {:induction false} RunKeepsInv(start: int, evs: seq<Event>)
    requires Timed(start, evs)
    ensures Inv(start, evs, Run(start, evs))
    ensures evs != [] ==> Run(start, evs).lastActivity <= evs[|evs| - 1].time
    decreases |evs|
  {
    if evs != [] {
      var n := |evs| - 1;
      RunKeepsInv(start, evs[..n]);
      var st, st' := Run(start, evs[..n]), Run(start, evs);
      assert forall i :: 0 <= i < n ==> evs[..n][i] == evs[i];
      if st'.lastActivity == st.lastActivity && st.lastActivity != start {
        var i :| 0 <= i < n && !evs[..n][i].Tick? && evs[..n][i].time == st.lastActivity;
        assert evs[i].time == st'.lastActivity;
      }
    }
  }

  // ---------- main results ----------

  /** A tick logs the tab out only if every input it ever saw lies more than 1795 seconds back,
      throttled ones included; and if every press of continue lies at least 1800 seconds back. */
  lemma LogoutMeansIdle(start: int, evs: seq<Event>, now: int, i: nat)
    requires Timed(start, evs + [Tick(now)]) && i < |evs|
    requires !Run(start, evs).loggedOut && Step(Run(start, evs), Tick(now)).loggedOut
    ensures evs[i].Input? ==> now - evs[i].time > 1_795_000
    ensures evs[i].Continue? ==> now - evs[i].time >= 1_800_000
  {
    assert forall j :: 0 <= j < |evs| ==> (evs + [Tick(now)])[j] == evs[j];
    assert Timed(start, evs);
    RunKeepsInv(start, evs);
  }

  /** An input that is not dropped does what the promise says: no logout within thirty minutes. */
  lemma AcceptedInputBuysThirtyMinutes(st: State, t: int, now: int)
    requires !st.loggedOut && !Dropped(st, t)
    ensures Step(Step(st, Input(t)), Tick(now)).loggedOut <==> now - t >= 1_800_000
  {
  }

  /** An input buys its thirty minutes exactly when it is not dropped, or when activity is on record
      for that very moment anyway. */
  lemma InputBuysThirtyMinutesIff(st: State, t: int)
    requires !st.loggedOut && st.lastActivity <= t
    ensures (forall now :: now >= t && Step(Step(st, Input(t)), Tick(now)).loggedOut ==> now - t >= 1_800_000)
       <==> !Dropped(st, t) || st.lastActivity == t
  {
    if Dropped(st, t) && st.lastActivity < t {
      var due := st.lastActivity + 1_800_000;
      var now := if due >= t then due else t;
      assert Step(Step(st, Input(t)), Tick(now)).loggedOut && now - t < 1_800_000;
    }
  }

  /** The promise is half an hour from the last input; with an input just inside the throttle the
      tab is logged out five seconds short of it. */
  lemma ThrottledInputShortensTheTimeout()
    ensures var evs := [Input(10_000), Input(14_999)];
      && Timed(10_000, evs + [Tick(1_810_000)])
      && !Run(10_000, evs).loggedOut
      && Step(Run(10_000, evs), Tick(1_810_000)).loggedOut
      && 1_810_000 - evs[1].time == 1_795_001
  {
  }

  predicate HasTick(evs: seq<Event>, from: int) { exists i :: 0 <= i < |evs| && TickAt(evs[i], from) }

  predicate TickAt(ev: Event, from: int) { ev.Tick? && ev.time >= from }

  predicate TickInSecond(evs: seq<Event>, from: int) {
    exists i :: 0 <= i < |evs| && TickAt(evs[i], from) && evs[i].time <= from + 1000
  }

  // The interval callback ran at least once in every second from `start` to `now`.
  ghost predicate Dense(start: int, evs: seq<Event>, now: int) {
    forall t :: start <= t <= now - 1000 ==> TickInSecond(evs, t)
  }

  lemma {:induction false} ActivityGrows(start: int, evs: seq<Event>, i: nat)
    requires Timed(start, evs) && i <= |evs|
    ensures Run(start, evs[..i]).lastActivity <= Run(start, evs).lastActivity
    decreases |evs|
  {
    if i == |evs| {
      assert evs[..i] == evs;
    } else {
      var n := |evs| - 1;
      assert forall j :: 0 <= j < n ==> evs[..n][j] == evs[j];
      assert evs[..n][..i] == evs[..i];
      ActivityGrows(start, evs[..n], i);
      RunKeepsInv(start, evs[..n]);
      LastActivityIsPast(start, evs);
    }
  }

  lemma LastActivityIsPast(start: int, evs: seq<Event>)
    requires Timed(start, evs) && evs != []
    ensures Run(start, evs[..|evs| - 1]).lastActivity <= evs[|evs| - 1].time
  {
    var n := |evs| - 1;
    assert forall j :: 0 <= j < n ==> evs[..n][j] == evs[j];
    RunKeepsInv(start, evs[..n]);
  }

  lemma LogoutStays(start: int, evs: seq<Event>, i: nat)
    requires i <= |evs| && Run(start, evs[..i]).loggedOut
    ensures Run(start, evs) == Run(start, evs[..i])
  {
    LogoutIsFinal(start, evs[..i], evs[i..]);
    assert evs[..i] + evs[i..] == evs;
  }

  lemma {:induction false} LogoutHasItsTick(start: int, evs: seq<Event>)
    requires Run(start, evs).loggedOut
    ensures HasTick(evs, Run(start, evs).lastActivity + 1_800_000)
    decreases |evs|
  {
    var n := |evs| - 1;
    var due := Run(start, evs).lastActivity + 1_800_000;
    if Run(start, evs[..n]).loggedOut {
      LogoutHasItsTick(start, evs[..n]);
      var i :| 0 <= i < n && TickAt(evs[..n][i], due);
      assert TickAt(evs[i], due);
    } else {
      assert TickAt(evs[n], due);
    }
  }

  lemma DueTickLogsOut(start: int, evs: seq<Event>, i: nat)
    requires Timed(start, evs) && i < |evs| && TickAt(evs[i], Run(start, evs).lastActivity + 1_800_000)
    ensures Run(start, evs).loggedOut
  {
    ActivityGrows(start, evs, i);
    assert evs[..i + 1][..i] == evs[..i];
    LogoutStays(start, evs, i + 1);
  }

  /** A tab is logged out exactly when some tick came 1800 seconds or more after the activity on
      record. */
  lemma LoggedOutIff(start: int, evs: seq<Event>)
    requires Timed(start, evs)
    ensures Run(start, evs).loggedOut <==> HasTick(evs, Run(start, evs).lastActivity + 1_800_000)
  {
    var due := Run(start, evs).lastActivity + 1_800_000;
    if HasTick(evs, due) {
      var i :| 0 <= i < |evs| && TickAt(evs[i], due);
      DueTickLogsOut(start, evs, i);
    } else if Run(start, evs).loggedOut {
      LogoutHasItsTick(start, evs);
    }
  }

  /** While a tick comes at least once a second, a tab is logged out no later than 1801 seconds after
      the activity on record, whatever came in between. */
  lemma LogoutIsPrompt(start: int, evs: seq<Event>, now: int)
    requires Timed(start, evs) && Dense(start, evs, now)
    requires now >= Run(start, evs).lastActivity + 1_801_000
    ensures Run(start, evs).loggedOut
  {
    var due := Run(start, evs).lastActivity + 1_800_000;
    RunKeepsInv(start, evs);
    assert TickInSecond(evs, due);
    LoggedOutIff(start, evs);
  }

  /** After a tick that does not log out, the warning shows exactly in the last five minutes, with a
      countdown of the whole seconds left, between 1 and 300. */
  lemma WarningCountsDown(start: int, evs: seq<Event>, now: int)
    requires Timed(start, evs + [Tick(now)])
    requires var st := Run(start, evs); !st.loggedOut && !Step(st, Tick(now)).loggedOut
    ensures var st := Run(start, evs);
      var st' := Step(st, Tick(now));
      var idle := now - st.lastActivity;
      && (st'.warning <==> idle >= 1_500_000)
      && (st'.warning ==>
            && 1 <= st'.secondsRemaining <= 300
            && 0 <= idle + 1000 * st'.secondsRemaining - 1_800_000 < 1000)
  {
  }

  lemma {:induction false} ThrottleIsLastInput(start: int, evs: seq<Event>)
    requires Timed(start, evs)
    ensures var st := Run(start, evs);
      st.lastThrottle == 0 || exists i :: 0 <= i < |evs| && evs[i].Input? && evs[i].time == st.lastThrottle
    decreases |evs|
  {
    if evs != [] {
      var n := |evs| - 1;
      assert forall i :: 0 <= i < n ==> evs[..n][i] == evs[i];
      ThrottleIsLastInput(start, evs[..n]);
      var st := Run(start, evs[..n]);
      if st.lastThrottle != 0 {
        var i :| 0 <= i < n && evs[..n][i].Input? && evs[..n][i].time == st.lastThrottle;
        assert evs[i].Input?;
      }
    }
  }

  // Active since `now`: the activity is on record, no warning shows, and a countdown starts afresh.
  ghost predicate Refreshed(st: State, st': State, now: int) {
    && st'.lastActivity == now && !st'.warning && !st'.loggedOut
    && st'.secondsRemaining == if st.warning then 300 else st.secondsRemaining
  }

  /** "Continue" hides the warning at once and counts as activity; so does an input that no other
      input preceded by less than five seconds. */
  lemma ActivityHidesWarning(start: int, evs: seq<Event>, now: int)
    requires Timed(start, evs) && start <= now && !Run(start, evs).loggedOut
    ensures Refreshed(Run(start, evs), Step(Run(start, evs), Continue(now)), now)
    ensures (forall i :: 0 <= i < |evs| && evs[i].Input? ==> now - evs[i].time >= 5000) ==>
      Refreshed(Run(start, evs), Step(Run(start, evs), Input(now)), now)
  {
    ThrottleIsLastInput(start, evs);
  }

  /** Once logged out a tab stays so. */
  lemma {:induction false} LogoutIsFinal(start: int, evs: seq<Event>, more: seq<Event>)
    requires Run(start, evs).loggedOut
    ensures Run(start, evs + more) == Run(start, evs)
    decreases |more|
  {
    if more == [] {
      assert evs + more == evs;
    } else {
      var all := evs + more;
      assert all[..|all| - 1] == evs + more[..|more| - 1];
      LogoutIsFinal(start, evs, more[..|more| - 1]);
    }
  }

  // ---------- the hook ----------

  class IdleHook {
    var lastActivity: int
    var lastThrottleTime: int
    var isWarningVisible: bool
    var secondsRemaining: int
    var loggedOut: bool

    function Current(): State reads this {
      State(lastActivity, lastThrottleTime, isWarningVisible, secondsRemaining, loggedOut)
    }

    method ResetTimer(now: int)
      modifies this
      ensures Current() == Reset(old(Current()), now)
    {
      lastActivity := now;
      if isWarningVisible {
        isWarningVisible := false;
        secondsRemaining := IDLE_WARNING_BEFORE_SECONDS;
      }
    }

    method HandleActivity(now: int)
      requires !loggedOut
      modifies this
      ensures Current() == Step(old(Current()), Input(now))
    {
      if now - lastThrottleTime < IDLE_ACTIVITY_THROTTLE_MS { return; }
      lastThrottleTime := now;
      ResetTimer(now);
    }

    method HandleContinue(now: int)
      requires !loggedOut
      modifies this
      ensures Current() == Step(old(Current()), Continue(now))
    {
      ResetTimer(now);
    }

    method OnTick(now: int)
      requires !loggedOut
      modifies this
      ensures Current() == Step(old(Current()), Tick(now))
    {
      var elapsedSeconds := (now - lastActivity) / 1000;
      if elapsedSeconds >= IDLE_TIMEOUT_SECONDS {
        loggedOut := true;
        return;
      }
      var warningThreshold := IDLE_TIMEOUT_SECONDS - IDLE_WARNING_BEFORE_SECONDS;
      if elapsedSeconds >= warningThreshold {
        if !isWarningVisible { isWarningVisible := true; }
        secondsRemaining := IDLE_TIMEOUT_SECONDS - elapsedSeconds;
      } else if isWarningVisible {
        isWarningVisible := false;
      }
    }
  }
}

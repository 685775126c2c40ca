/**
  Optimistic mutations over a shared query cache, with an undo window.

  A mutation writes a guess into the cache at once, calls the server (after the undo window, when
  there is one), and on settling, whatever the outcome, marks every entry under its keys stale so
  that it is fetched again.  Mutations of any number of hooks, their timers, aborts, server
  effects, responses, and fetches of any entry interleave freely; each is one step of `Step`.

  Of the query library the model keeps: cancelling drops a fetch on the way, writing data clears
  the stale mark, invalidating marks an entry stale and drops a fetch on the way, and a fetch that
  completes stores what the server held when it answered.
 */
module OptimisticMutation {
  import opened Options

  type Key = seq<string>

  datatype Scope = Exact | Matching

  datatype Config = Config(queryKey: Key, scope: Scope, invalidateKeys: seq<Key>, windowed: bool, hook: nat)

  // Mutating: onMutate awaits the cancellation.  Waiting: the undo window is open.
  // Calling: mutationFn was called.  Settling: the promise is settled.  Finished: onSettled ran.
  datatype Phase = Mutating | Waiting | Calling | Settling | Finished

  datatype Request = NotSent | OnTheWay | Landed

  datatype Mutation = Mutation(config: Config, phase: Phase, request: Request, calls: nat, settles: nat, undone: bool)

  datatype Fetch = Idle | Requested | Answered(value: int)

  // A cache entry; `guess` says that its data was written by a mutation, not by a fetch.
  datatype Entry = Entry(data: Option<int>, guess: bool, stale: bool, fetch: Fetch)

  datatype State = State(
    cache: map<Key, Entry>,
    server: map<Key, int>,
    muts: seq<Mutation>,
    controller: map<nat, nat>,     // abortControllerRef of each hook: the mutation it aborts
    latest: map<nat, nat>,         // the window each hook opened last
    drift: set<Key>)               // changed on the server with no invalidation still to come

  datatype Event =
    | Mutate(config: Config)
    | Write(m: nat, values: map<Key, int>)
    | Fire(m: nat)
    | Land(m: nat, effect: map<Key, int>)
    | Respond(m: nat)
    | Abort(hook: nat)
    | Settle(m: nat)
    | StartFetch(k: Key)
    | Serve(k: Key)
    | Complete(k: Key)
    | FailFetch(k: Key)

  function Initial(server: map<Key, int>): State { State(map[], server, [], map[], map[], {}) }

  // ---------- the cache ----------

  function ValueAt(m: map<Key, int>, k: Key): int { if k in m then m[k] else 0 }

  function Cancel(c: map<Key, Entry>, p: Key): map<Key, Entry> {
    map k | k in c :: if p <= k then c[k].(fetch := Idle) else c[k]
  }

  function Invalidate(c: map<Key, Entry>, p: Key): map<Key, Entry> {
    map k | k in c :: if p <= k then c[k].(stale := true, fetch := Idle) else c[k]
  }

  function InvalidateAll(c: map<Key, Entry>, ps: seq<Key>): map<Key, Entry> {
    if ps == [] then c
    else Invalidate(InvalidateAll(c, ps[..|ps| - 1]), ps[|ps| - 1])
  }

  function Guessed(e: Entry, v: int): Entry { e.(data := Some(v), guess := true, stale := false) }

  const NO_ENTRY: Entry := Entry(None, false, false, Idle)

  // setQueryData on the one key, or setQueriesData on the entries there are under it.
  function WriteGuess(c: map<Key, Entry>, cfg: Config, values: map<Key, int>): map<Key, Entry> {
    match cfg.scope
    case Exact =>
      var was := if cfg.queryKey in c then c[cfg.queryKey] else NO_ENTRY;
      c[cfg.queryKey := Guessed(was, ValueAt(values, cfg.queryKey))]
    case Matching =>
      map k | k in c :: if cfg.queryKey <= k then Guessed(c[k], ValueAt(values, k)) else c[k]
  }

  // ---------- steps ----------

  predicate In(st: State, m: nat, phase: Phase) { m < |st.muts| && st.muts[m].phase == phase }

  function Sent(mu: Mutation): Mutation { mu.(phase := Calling, request := OnTheWay, calls := mu.calls + 1) }

  function Step(st: State, ev: Event): State {
    match ev
    case Mutate(cfg) =>
      st.(muts := st.muts + [Mutation(cfg, Mutating, NotSent, 0, 0, false)], cache := Cancel(st.cache, cfg.queryKey))
    case Write(m, values) =>
      if !In(st, m, Mutating) then st
      else
        var mu := st.muts[m];
        var st1 := st.(cache := WriteGuess(st.cache, mu.config, values));
        if mu.config.windowed then
          st1.(muts := st.muts[m := mu.(phase := Waiting)],
               controller := st.controller[mu.config.hook := m], latest := st.latest[mu.config.hook := m])
        else st1.(muts := st.muts[m := Sent(mu)])
    case Fire(m) =>
      if !In(st, m, Waiting) then st else st.(muts := st.muts[m := Sent(st.muts[m])])
    case Land(m, effect) =>
      if m < |st.muts| && st.muts[m].request == OnTheWay then
        st.(muts := st.muts[m := st.muts[m].(request := Landed)],
            server := st.server + effect,
            drift := st.drift + (set k | k in effect && !StillInvalidates(st.muts[m], k)))
      else st
    case Respond(m) => if In(st, m, Calling) then SettlePromise(st, m) else st
    case Abort(h) =>
      if h !in st.controller then st
      else
        var m := st.controller[h];
        var st1 := st.(controller := st.controller - {h});
        if In(st1, m, Waiting) then SettlePromise(st1.(muts := st1.muts[m := st1.muts[m].(undone := true)]), m)
        else if In(st1, m, Calling) then SettlePromise(st1, m)
        else st1
    case Settle(m) =>
      if !In(st, m, Settling) then st
      else
        var cfg := st.muts[m].config;
        st.(muts := st.muts[m := st.muts[m].(phase := Finished)],
            cache := InvalidateAll(st.cache, [cfg.queryKey] + cfg.invalidateKeys))
    case StartFetch(k) =>
      if k !in st.cache then st.(cache := st.cache[k := NO_ENTRY.(fetch := Requested)])
      else if st.cache[k].fetch == Idle then st.(cache := st.cache[k := st.cache[k].(fetch := Requested)])
      else st
    case Serve(k) =>
      if k in st.cache && st.cache[k].fetch == Requested then
        st.(cache := st.cache[k := st.cache[k].(fetch := Answered(ValueAt(st.server, k)))])
      else st
    case Complete(k) =>
      if k in st.cache && st.cache[k].fetch.Answered? then
        var v := st.cache[k].fetch.value;
        st.(cache := st.cache[k := Entry(Some(v), false, false, Idle)],
            drift := if v == ValueAt(st.server, k) then st.drift - {k} else st.drift)
      else st
    case FailFetch(k) =>
      if k in st.cache then st.(cache := st.cache[k := st.cache[k].(fetch := Idle)]) else st
  }

  function SettlePromise(st: State, m: nat): State
    requires m < |st.muts|
  {
    st.(muts := st.muts[m := st.muts[m].(phase := Settling, settles := st.muts[m].settles + 1)])
  }

  predicate AnyPrefix(ps: seq<Key>, k: Key) { exists i :: 0 <= i < |ps| && ps[i] <= k }

  predicate Covers(cfg: Config, k: Key) { cfg.queryKey <= k || AnyPrefix(cfg.invalidateKeys, k) }

  predicate StillInvalidates(mu: Mutation, k: Key) { mu.phase != Finished && Covers(mu.config, k) }

  function Run(st: State, evs: seq<Event>): State
    decreases |evs|
  {
    if evs == [] then st
    else Step(Run(st, evs[..|evs| - 1]), evs[|evs| - 1])
  }

  // ---------- what every step keeps ----------

  // Some mutation is still to invalidate `k`.
  ghost predicate Pending(st: State, k: Key) {
    exists m :: 0 <= m < |st.muts| && StillInvalidates(st.muts[m], k)
  }

  ghost predicate PendingUnderQueryKey(st: State, k: Key) {
    exists m :: 0 <= m < |st.muts| && st.muts[m].phase != Finished && st.muts[m].config.queryKey <= k
  }

  // A guess is never left behind: the entry is stale, or will be made so.
  ghost predicate GuessOk(st: State, k: Key)
    requires k in st.cache
  {
    st.cache[k].guess ==> st.cache[k].stale || PendingUnderQueryKey(st, k)
  }

  // Data that differs from the server's is stale or will be made so, and an answer on its way
  // that differs will be dropped.
  ghost predicate DataOk(st: State, k: Key)
    requires k in st.cache
  {
    && (st.cache[k].data.Some? ==>
          st.cache[k].data.value == ValueAt(st.server, k) || st.cache[k].stale || Pending(st, k))
    && (st.cache[k].fetch.Answered? ==>
          st.cache[k].fetch.value == ValueAt(st.server, k) || Pending(st, k))
  }

  // How often the server was called and the promise settled, phase by phase.
  predicate MutationOk(mu: Mutation) {
    match mu.phase
    case Mutating => mu.calls == 0 && mu.settles == 0 && mu.request == NotSent && !mu.undone
    case Waiting => mu.config.windowed && mu.calls == 0 && mu.settles == 0 && mu.request == NotSent && !mu.undone
    case Calling => mu.calls == 1 && mu.settles == 0 && mu.request != NotSent && !mu.undone
    case _ =>
      && mu.settles == 1 && mu.calls == (if mu.undone then 0 else 1)
      && (mu.request == NotSent <==> mu.undone) && (mu.undone ==> mu.config.windowed)
  }

  ghost predicate MutationsOk(st: State) { forall m :: 0 <= m < |st.muts| ==> MutationOk(st.muts[m]) }

  ghost predicate ControllersOk(st: State) {
    forall h :: h in st.controller ==>
      && h in st.latest && st.controller[h] == st.latest[h] < |st.muts|
      && st.muts[st.controller[h]].config.hook == h && st.muts[st.controller[h]].config.windowed
      && st.muts[st.controller[h]].phase != Mutating
  }

  ghost predicate Inv(st: State) {
    CacheOk(st) && MutationsOk(st) && ControllersOk(st)
  }

  lemma AnyPrefixSplit(ps: seq<Key>, k: Key)
    requires ps != []
    ensures AnyPrefix(ps, k) <==> AnyPrefix(ps[..|ps| - 1], k) || ps[|ps| - 1] <= k
  {
    var n := |ps| - 1;
    if i :| 0 <= i < n && ps[i] <= k { assert ps[..n][i] <= k; }
  }

  lemma {:induction false} InvalidateAllIs(c: map<Key, Entry>, ps: seq<Key>)
    ensures InvalidateAll(c, ps).Keys == c.Keys
    ensures forall k :: k in c ==>
      (InvalidateAll(c, ps)[k] == if AnyPrefix(ps, k) then c[k].(stale := true, fetch := Idle) else c[k])
  {
    if ps != [] {
      InvalidateAllIs(c, ps[..|ps| - 1]);
      forall k | k in c ensures AnyPrefix(ps, k) <==> AnyPrefix(ps[..|ps| - 1], k) || ps[|ps| - 1] <= k {
        AnyPrefixSplit(ps, k);
      }
    }
  }

  lemma CoversIsAPrefix(cfg: Config, k: Key)
    ensures Covers(cfg, k) <==> AnyPrefix([cfg.queryKey] + cfg.invalidateKeys, k)
  {
    var ps := [cfg.queryKey] + cfg.invalidateKeys;
    if cfg.queryKey <= k { assert ps[0] <= k; }
    if i :| 0 <= i < |cfg.invalidateKeys| && cfg.invalidateKeys[i] <= k { assert ps[i + 1] <= k; }
    if i :| 0 < i < |ps| && ps[i] <= k { assert cfg.invalidateKeys[i - 1] <= k; }
  }

  // onSettled invalidates exactly what the configuration covers.
  lemma SettledCache(c: map<Key, Entry>, cfg: Config)
    ensures var c' := InvalidateAll(c, [cfg.queryKey] + cfg.invalidateKeys);
      && c'.Keys == c.Keys
      && forall k :: k in c ==>
           c'[k] == if Covers(cfg, k) then c[k].(stale := true, fetch := Idle) else c[k]
  {
    InvalidateAllIs(c, [cfg.queryKey] + cfg.invalidateKeys);
    forall k | k in c
      ensures InvalidateAll(c, [cfg.queryKey] + cfg.invalidateKeys)[k] ==
        if Covers(cfg, k) then c[k].(stale := true, fetch := Idle) else c[k]
    {
      CoversIsAPrefix(cfg, k);
    }
  }

  // Unless a mutation finishes, whatever was still to be invalidated still is.
  lemma PendingStays(st: State, st': State)
    requires |st.muts| <= |st'.muts|
    requires forall m :: 0 <= m < |st.muts| ==>
      st'.muts[m].config == st.muts[m].config && (st.muts[m].phase != Finished ==> st'.muts[m].phase != Finished)
    ensures forall k :: Pending(st, k) ==> Pending(st', k)
    ensures forall k :: PendingUnderQueryKey(st, k) ==> PendingUnderQueryKey(st', k)
  {
    forall k | Pending(st, k) ensures Pending(st', k) {
      var m :| 0 <= m < |st.muts| && StillInvalidates(st.muts[m], k);
      assert StillInvalidates(st'.muts[m], k);
    }
    forall k | PendingUnderQueryKey(st, k) ensures PendingUnderQueryKey(st', k) {
      var m :| 0 <= m < |st.muts| && st.muts[m].phase != Finished && st.muts[m].config.queryKey <= k;
      assert st'.muts[m].config.queryKey <= k;
    }
  }

  ghost predicate CacheOk(st: State) {
    && (forall k :: k in st.cache ==> GuessOk(st, k))
    && (forall k :: k in st.cache && k !in st.drift ==> DataOk(st, k))
  }

  lemma WriteKeepsCache(st: State, m: nat, values: map<Key, int>)
    requires CacheOk(st) && In(st, m, Mutating)
    ensures CacheOk(Step(st, Write(m, values)))
  {
    var st' := Step(st, Write(m, values));
    PendingStays(st, st');
    forall k | k in st'.cache
      ensures GuessOk(st', k)
      ensures k !in st'.drift ==> DataOk(st', k)
    {
      if st.muts[m].config.queryKey <= k {
        assert st'.muts[m].config.queryKey <= k && StillInvalidates(st'.muts[m], k);
      } else {
        assert GuessOk(st, k);
        assert k !in st.drift ==> DataOk(st, k);
      }
    }
  }

  // A step that changes no phase to Finished and at most drops fetches.
  lemma QuietStepKeepsCache(st: State, st': State)
    requires CacheOk(st)
    requires |st.muts| <= |st'.muts|
    requires forall m :: 0 <= m < |st.muts| ==>
      st'.muts[m].config == st.muts[m].config && (st.muts[m].phase != Finished ==> st'.muts[m].phase != Finished)
    requires st'.server == st.server && st'.drift == st.drift && st'.cache.Keys == st.cache.Keys
    requires forall k :: k in st.cache ==> st'.cache[k] == st.cache[k] || st'.cache[k] == st.cache[k].(fetch := Idle)
    ensures CacheOk(st')
  {
    PendingStays(st, st');
    forall k | k in st'.cache
      ensures GuessOk(st', k)
      ensures k !in st'.drift ==> DataOk(st', k)
    {
      assert GuessOk(st, k);
      assert k !in st.drift ==> DataOk(st, k);
    }
  }

  // A fetch event leaves an entry as it was but for the fetch, or stores an answer.
  ghost predicate FetchOnly(st: State, st': State, k: Key)
    requires k in st'.cache
  {
    var was := if k in st.cache then st.cache[k] else NO_ENTRY;
    var f := st'.cache[k].fetch;
    && st'.cache[k] == was.(fetch := f) && (k in st'.drift <==> k in st.drift)
    && (f.Answered? ==> f == was.fetch || f.value == ValueAt(st.server, k))
  }

  ghost predicate AnswerStored(st: State, st': State, k: Key)
    requires k in st'.cache
  {
    && k in st.cache && st.cache[k].fetch.Answered?
    && var v := st.cache[k].fetch.value;
       && st'.cache[k] == Entry(Some(v), false, false, Idle)
       && (k in st'.drift <==> k in st.drift && v != ValueAt(st.server, k))
  }

  lemma StartedOrFailed(st: State, ev: Event, k: Key)
    requires k in Step(st, ev).cache && (ev.StartFetch? || ev.Serve? || ev.FailFetch?)
    ensures FetchOnly(st, Step(st, ev), k)
  {
  }

  lemma Completed(st: State, j: Key, k: Key)
    requires k in Step(st, Complete(j)).cache
    ensures var st' := Step(st, Complete(j)); FetchOnly(st, st', k) || AnswerStored(st, st', k)
  {
  }

  lemma FetchEffect(st: State, ev: Event, k: Key)
    requires k in Step(st, ev).cache
    requires ev.StartFetch? || ev.Serve? || ev.Complete? || ev.FailFetch?
    ensures var st' := Step(st, ev);
      && st'.muts == st.muts && st'.server == st.server
      && (FetchOnly(st, st', k) || AnswerStored(st, st', k))
  {
    if ev.Complete? { Completed(st, ev.k, k); } else { StartedOrFailed(st, ev, k); }
  }

  lemma FetchKeepsEntry(st: State, ev: Event, k: Key)
    requires CacheOk(st) && k in Step(st, ev).cache
    requires ev.StartFetch? || ev.Serve? || ev.Complete? || ev.FailFetch?
    ensures GuessOk(Step(st, ev), k)
    ensures k !in Step(st, ev).drift ==> DataOk(Step(st, ev), k)
  {
    FetchEffect(st, ev, k);
    if k in st.cache {
      assert GuessOk(st, k);
      assert k !in st.drift ==> DataOk(st, k);
    }
  }

  lemma FetchKeepsCache(st: State, ev: Event)
    requires CacheOk(st)
    requires ev.StartFetch? || ev.Serve? || ev.Complete? || ev.FailFetch?
    ensures CacheOk(Step(st, ev))
  {
    var st' := Step(st, ev);
    forall k | k in st'.cache
      ensures GuessOk(st', k)
      ensures k !in st'.drift ==> DataOk(st', k)
    {
      FetchKeepsEntry(st, ev, k);
    }
  }

  lemma LandKeepsCache(st: State, m: nat, effect: map<Key, int>)
    requires CacheOk(st)
    ensures CacheOk(Step(st, Land(m, effect)))
  {
    var st' := Step(st, Land(m, effect));
    PendingStays(st, st');
    forall k | k in st'.cache
      ensures GuessOk(st', k)
      ensures k !in st'.drift ==> DataOk(st', k)
    {
      assert GuessOk(st, k);
      if k !in st'.drift && st' != st {
        assert DataOk(st, k);
        if k in effect {
          assert StillInvalidates(st.muts[m], k) && StillInvalidates(st'.muts[m], k);
        }
      }
    }
  }

  lemma SettleKeepsCache(st: State, m: nat)
    requires CacheOk(st) && In(st, m, Settling)
    ensures CacheOk(Step(st, Settle(m)))
  {
    var st' := Step(st, Settle(m));
    var cfg := st.muts[m].config;
    SettledCache(st.cache, cfg);
    forall k | k in st'.cache
      ensures GuessOk(st', k)
      ensures k !in st'.drift ==> DataOk(st', k)
    {
      assert GuessOk(st, k);
      if !Covers(cfg, k) {
        if Pending(st, k) {
          var j :| 0 <= j < |st.muts| && StillInvalidates(st.muts[j], k);
          assert StillInvalidates(st'.muts[j], k);
        }
        if PendingUnderQueryKey(st, k) {
          var j :| 0 <= j < |st.muts| && st.muts[j].phase != Finished && st.muts[j].config.queryKey <= k;
          assert st'.muts[j].config.queryKey <= k;
        }
        assert k !in st.drift ==> DataOk(st, k);
      }
    }
  }

  lemma StepKeepsMutations(st: State, ev: Event)
    requires MutationsOk(st) && ControllersOk(st)
    ensures MutationsOk(Step(st, ev))
  {
  }

  lemma WriteKeepsControllers(st: State, m: nat, values: map<Key, int>)
    requires ControllersOk(st)
    ensures ControllersOk(Step(st, Write(m, values)))
  {
  }

  // No controller is set, and no mutation goes back to its start.
  lemma QuietStepKeepsControllers(st: State, st': State)
    requires ControllersOk(st)
    requires st'.latest == st.latest && |st.muts| <= |st'.muts|
    requires forall h :: h in st'.controller ==> h in st.controller && st'.controller[h] == st.controller[h]
    requires forall m :: 0 <= m < |st.muts| ==>
      st'.muts[m].config == st.muts[m].config && (st.muts[m].phase != Mutating ==> st'.muts[m].phase != Mutating)
    ensures ControllersOk(st')
  {
  }

  lemma CallEventKeepsControllers(st: State, ev: Event)
    requires ControllersOk(st) && (ev.Mutate? || ev.Fire? || ev.Respond?)
    ensures ControllersOk(Step(st, ev))
  {
    QuietStepKeepsControllers(st, Step(st, ev));
  }

  lemma ServerEventKeepsControllers(st: State, ev: Event)
    requires ControllersOk(st) && (ev.Land? || ev.Settle?)
    ensures ControllersOk(Step(st, ev))
  {
    QuietStepKeepsControllers(st, Step(st, ev));
  }

  lemma AbortKeepsControllers(st: State, h: nat)
    requires ControllersOk(st)
    ensures ControllersOk(Step(st, Abort(h)))
  {
    QuietStepKeepsControllers(st, Step(st, Abort(h)));
  }

  lemma FetchKeepsControllers(st: State, ev: Event)
    requires ControllersOk(st) && (ev.StartFetch? || ev.Serve? || ev.Complete? || ev.FailFetch?)
    ensures ControllersOk(Step(st, ev))
  {
    var st' := Step(st, ev);
    assert st'.muts == st.muts && st'.controller == st.controller && st'.latest == st.latest;
  }

  lemma StepKeepsControllers(st: State, ev: Event)
    requires ControllersOk(st)
    ensures ControllersOk(Step(st, ev))
  {
    if ev.Write? { WriteKeepsControllers(st, ev.m, ev.values); }
    else if ev.Abort? { AbortKeepsControllers(st, ev.hook); }
    else if ev.Mutate? || ev.Fire? || ev.Respond? { CallEventKeepsControllers(st, ev); }
    else if ev.Land? || ev.Settle? { ServerEventKeepsControllers(st, ev); }
    else { FetchKeepsControllers(st, ev); }
  }

  lemma StepKeepsInv(st: State, ev: Event)
    requires Inv(st)
    ensures Inv(Step(st, ev))
  {
    StepKeepsMutations(st, ev);
    StepKeepsControllers(st, ev);
    StepKeepsCache(st, ev);
  }

  lemma CallEventKeepsCache(st: State, ev: Event)
    requires CacheOk(st) && (ev.Mutate? || ev.Fire? || ev.Respond?)
    ensures CacheOk(Step(st, ev))
  {
    QuietStepKeepsCache(st, Step(st, ev));
  }

  lemma AbortKeepsCache(st: State, h: nat)
    requires CacheOk(st)
    ensures CacheOk(Step(st, Abort(h)))
  {
    QuietStepKeepsCache(st, Step(st, Abort(h)));
  }

  lemma StepKeepsCache(st: State, ev: Event)
    requires CacheOk(st)
    ensures CacheOk(Step(st, ev))
  {
    if ev.Settle? {
      if In(st, ev.m, Settling) { SettleKeepsCache(st, ev.m); }
    } else if ev.Write? {
      if In(st, ev.m, Mutating) { WriteKeepsCache(st, ev.m, ev.values); }
    } else if ev.Land? {
      LandKeepsCache(st, ev.m, ev.effect);
    } else if ev.Abort? {
      AbortKeepsCache(st, ev.hook);
    } else if ev.Mutate? || ev.Fire? || ev.Respond? {
      CallEventKeepsCache(st, ev);
    } else {
      FetchKeepsCache(st, ev);
    }
  }

  lemma {:induction false} RunKeepsInv(st: State, evs: seq<Event>)
    requires Inv(st)
    ensures Inv(Run(st, evs))
    decreases |evs|
  {
    if evs != [] {
      RunKeepsInv(st, evs[..|evs| - 1]);
      StepKeepsInv(Run(st, evs[..|evs| - 1]), evs[|evs| - 1]);
    }
  }

  // ---------- the cache after everything has settled ----------

  // Every mutation has finished, and every entry it made stale has been fetched again.
  ghost predicate Quiescent(st: State) {
    && (forall m :: 0 <= m < |st.muts| ==> st.muts[m].phase == Finished)
    && (forall k :: k in st.cache ==> !st.cache[k].stale && st.cache[k].fetch == Idle)
  }

  predicate Agrees(st: State, k: Key) {
    k in st.cache && st.cache[k].data.Some? ==> st.cache[k].data.value == ValueAt(st.server, k)
  }

  // ---------- the guess on screen ----------

  // `ev` writes another guess into the entry of `k`.
  predicate Overwrites(st: State, ev: Event, k: Key) {
    ev.Write? && In(st, ev.m, Mutating) && st.muts[ev.m].config.queryKey <= k
  }

  predicate NoFetch(st: State, k: Key) { k in st.cache ==> st.cache[k].fetch == Idle }

  ghost predicate NoneStarted(evs: seq<Event>, k: Key) { forall i :: 0 <= i < |evs| ==> evs[i] != StartFetch(k) }

  ghost predicate NoneOverwrites(st: State, evs: seq<Event>, k: Key) {
    forall i :: 0 <= i < |evs| ==> !Overwrites(Run(st, evs[..i]), evs[i], k)
  }

  // Nothing was fetched into the entry of `k`, and nothing is on the way.
  ghost predicate LeftAlone(c: map<Key, Entry>, c': map<Key, Entry>, k: Key) {
    && (k in c' ==> c'[k].fetch == Idle)
    && (k in c ==> k in c' && c'[k].data == c[k].data && c'[k].guess == c[k].guess)
  }

  lemma OwnStepLeavesAlone(st: State, ev: Event, k: Key)
    requires ev.Mutate? || ev.Fire? || ev.Land? || ev.Respond? || ev.Abort?
    requires NoFetch(st, k)
    ensures LeftAlone(st.cache, Step(st, ev).cache, k)
  {
  }

  lemma WriteLeavesAlone(st: State, m: nat, values: map<Key, int>, k: Key)
    requires NoFetch(st, k)
    ensures NoFetch(Step(st, Write(m, values)), k)
    ensures !Overwrites(st, Write(m, values), k) ==> LeftAlone(st.cache, Step(st, Write(m, values)).cache, k)
  {
  }

  lemma FetchLeavesAlone(st: State, ev: Event, k: Key)
    requires ev.StartFetch? || ev.Serve? || ev.Complete? || ev.FailFetch?
    requires NoFetch(st, k) && ev != StartFetch(k)
    ensures LeftAlone(st.cache, Step(st, ev).cache, k)
  {
  }

  lemma StepKeepsQuiet(st: State, ev: Event, k: Key)
    requires NoFetch(st, k) && ev != StartFetch(k)
    ensures NoFetch(Step(st, ev), k)
    ensures !Overwrites(st, ev, k) ==> LeftAlone(st.cache, Step(st, ev).cache, k)
  {
    match ev
    case Settle(m) => if In(st, m, Settling) { SettledCache(st.cache, st.muts[m].config); }
    case Write(m, values) => WriteLeavesAlone(st, m, values, k);
    case StartFetch(_) => FetchLeavesAlone(st, ev, k);
    case Serve(_) => FetchLeavesAlone(st, ev, k);
    case Complete(_) => FetchLeavesAlone(st, ev, k);
    case FailFetch(_) => FetchLeavesAlone(st, ev, k);
    case _ => OwnStepLeavesAlone(st, ev, k);
  }

  lemma {:induction false} RunKeepsNoFetch(st: State, evs: seq<Event>, k: Key)
    requires NoFetch(st, k) && NoneStarted(evs, k)
    ensures NoFetch(Run(st, evs), k)
    decreases |evs|
  {
    if evs != [] {
      RunKeepsNoFetch(st, evs[..|evs| - 1], k);
      StepKeepsQuiet(Run(st, evs[..|evs| - 1]), evs[|evs| - 1], k);
    }
  }

  lemma {:induction false} RunKeepsData(st: State, evs: seq<Event>, k: Key)
    requires NoFetch(st, k) && NoneStarted(evs, k) && NoneOverwrites(st, evs, k) && k in st.cache
    ensures var c := Run(st, evs).cache; k in c && c[k].data == st.cache[k].data && c[k].guess == st.cache[k].guess
    decreases |evs|
  {
    if evs != [] {
      var less := evs[..|evs| - 1];
      forall i | 0 <= i < |less| ensures !Overwrites(Run(st, less[..i]), less[i], k) {
        assert less[..i] == evs[..i];
      }
      RunKeepsData(st, less, k);
      RunKeepsNoFetch(st, less, k);
      StepKeepsQuiet(Run(st, less), evs[|evs| - 1], k);
    }
  }

  lemma StepKeepsConfig(st: State, ev: Event, m: nat)
    requires m < |st.muts|
    ensures m < |Step(st, ev).muts| && Step(st, ev).muts[m].config == st.muts[m].config
  {
  }

  lemma {:induction false} RunKeepsConfig(st: State, evs: seq<Event>, m: nat)
    requires m < |st.muts|
    ensures m < |Run(st, evs).muts| && Run(st, evs).muts[m].config == st.muts[m].config
    decreases |evs|
  {
    if evs != [] {
      RunKeepsConfig(st, evs[..|evs| - 1], m);
      StepKeepsConfig(Run(st, evs[..|evs| - 1]), evs[|evs| - 1], m);
    }
  }

  // The entries a mutation writes into: the exact one, or those there are under its key.
  predicate Targets(c: map<Key, Entry>, cfg: Config, k: Key) {
    if cfg.scope == Exact then k == cfg.queryKey else k in c && cfg.queryKey <= k
  }

  lemma WriteShowsGuess(st: State, m: nat, values: map<Key, int>, k: Key)
    requires In(st, m, Mutating) && NoFetch(st, k) && Targets(st.cache, st.muts[m].config, k)
    ensures var st' := Step(st, Write(m, values));
      && k in st'.cache && NoFetch(st', k)
      && st'.cache[k].data == Some(ValueAt(values, k)) && st'.cache[k].guess && !st'.cache[k].stale
      && forall j :: j in st.cache && !Targets(st.cache, st.muts[m].config, j) ==>
           j in st'.cache && st'.cache[j] == st.cache[j]
  {
  }

  /** A guess goes into the entries it is meant for and no other, and cancelling before writing does
      its work: once written, the guess stays on screen through
      landings, responses, errors, undos and invalidations, until another guess is written over it or
      a fetch begun after the mutation completes.  No fetch that was on the way when the mutation
      began can ever replace it. */
  lemma GuessStaysUntilRefetched(st: State, cfg: Config, during: seq<Event>, values: map<Key, int>,
                                 after: seq<Event>, k: Key)
    requires var st1 := Run(Step(st, Mutate(cfg)), during);
      && In(st1, |st.muts|, Mutating) && Targets(st1.cache, cfg, k)
      && NoneStarted(during, k) && NoneStarted(after, k)
      && NoneOverwrites(Step(st1, Write(|st.muts|, values)), after, k)
    ensures var st1 := Run(Step(st, Mutate(cfg)), during);
      var c := Step(st1, Write(|st.muts|, values)).cache;
      && k in c && !c[k].stale
      && forall j :: j in st1.cache && !Targets(st1.cache, cfg, j) ==> j in c && c[j] == st1.cache[j]
    ensures var st2 := Step(Run(Step(st, Mutate(cfg)), during), Write(|st.muts|, values));
      var c := Run(st2, after).cache;
      k in c && c[k].data == Some(ValueAt(values, k)) && c[k].guess
  {
    var st0 := Step(st, Mutate(cfg));
    assert cfg.queryKey <= k && NoFetch(st0, k);
    RunKeepsNoFetch(st0, during, k);
    RunKeepsConfig(st0, during, |st.muts|);
    var st1 := Run(st0, during);
    WriteShowsGuess(st1, |st.muts|, values, k);
    RunKeepsData(Step(st1, Write(|st.muts|, values)), after, k);
  }

  /** However mutations overlapped and whether each succeeded, failed or was undone: once all have
      settled and the stale entries are fetched again, no entry holds a guess. */
  lemma NoGuessSurvives(server: map<Key, int>, evs: seq<Event>, k: Key)
    requires Quiescent(Run(Initial(server), evs)) && k in Run(Initial(server), evs).cache
    ensures !Run(Initial(server), evs).cache[k].guess
  {
    RunKeepsInv(Initial(server), evs);
    assert GuessOk(Run(Initial(server), evs), k);
  }

  /** The server is the one source of truth: then every entry also equals the server's value,
      except where the server changed after the mutation that changed it had invalidated, or
      outside the keys it invalidates. */
  lemma CacheAgreesOutsideDrift(server: map<Key, int>, evs: seq<Event>, k: Key)
    requires Quiescent(Run(Initial(server), evs)) && k !in Run(Initial(server), evs).drift
    ensures Agrees(Run(Initial(server), evs), k)
  {
    RunKeepsInv(Initial(server), evs);
    var st := Run(Initial(server), evs);
    if k in st.cache { assert DataOk(st, k); }
  }

  // The server's change lands while its mutation is still to invalidate every key it touched.
  predicate Prompt(st: State, ev: Event) {
    ev.Land? && ev.m < |st.muts| ==> forall k :: k in ev.effect ==> StillInvalidates(st.muts[ev.m], k)
  }

  predicate PromptRun(st: State, evs: seq<Event>)
    decreases |evs|
  {
    evs != [] ==> PromptRun(st, evs[..|evs| - 1]) && Prompt(Run(st, evs[..|evs| - 1]), evs[|evs| - 1])
  }

  lemma {:induction false} PromptRunsDoNotDrift(st: State, evs: seq<Event>)
    requires st.drift == {} && PromptRun(st, evs)
    ensures Run(st, evs).drift == {}
    decreases |evs|
  {
    if evs != [] {
      PromptRunsDoNotDrift(st, evs[..|evs| - 1]);
      PromptStepDoesNotDrift(Run(st, evs[..|evs| - 1]), evs[|evs| - 1]);
    }
  }

  lemma PromptStepDoesNotDrift(st: State, ev: Event)
    requires st.drift == {} && Prompt(st, ev)
    ensures Step(st, ev).drift == {}
  {
  }

  /** When every change lands in time, the settled cache is the server's data, entry by entry. */
  lemma PromptCacheAgrees(server: map<Key, int>, evs: seq<Event>)
    requires PromptRun(Initial(server), evs) && Quiescent(Run(Initial(server), evs))
    ensures forall k :: Agrees(Run(Initial(server), evs), k)
  {
    PromptRunsDoNotDrift(Initial(server), evs);
    forall k ensures Agrees(Run(Initial(server), evs), k) { CacheAgreesOutsideDrift(server, evs, k); }
  }

  // ---------- when rest is safe ----------

  ghost predicate AllAgree(st: State) { forall k :: Agrees(st, k) }

  ghost predicate NoneOnTheWay(st: State) { forall m :: 0 <= m < |st.muts| ==> st.muts[m].request != OnTheWay }

  ghost predicate NoneBegun(evs: seq<Event>) { forall i :: 0 <= i < |evs| ==> !evs[i].Mutate? }

  // The server changes no more, and all that is cached or about to be is what it holds.
  ghost predicate Safe(st: State) {
    && NoneOnTheWay(st)
    && (forall m :: 0 <= m < |st.muts| ==> st.muts[m].phase == Finished)
    && (forall k :: k in st.cache ==> EntryIsServers(st, k))
  }

  ghost predicate EntryIsServers(st: State, k: Key)
    requires k in st.cache
  {
    && (st.cache[k].data.Some? ==> st.cache[k].data.value == ValueAt(st.server, k))
    && (st.cache[k].fetch.Answered? ==> st.cache[k].fetch.value == ValueAt(st.server, k))
  }

  lemma StepKeepsSafe(st: State, ev: Event)
    requires Safe(st) && !ev.Mutate?
    ensures Safe(Step(st, ev))
  {
    var st' := Step(st, ev);
    if ev.StartFetch? || ev.Serve? || ev.Complete? || ev.FailFetch? {
      forall k | k in st'.cache ensures EntryIsServers(st', k) {
        FetchEffect(st, ev, k);
        if k in st.cache { assert EntryIsServers(st, k); }
      }
    } else {
      NothingLeftToDo(st, ev);
    }
  }

  lemma NothingLeftToDo(st: State, ev: Event)
    requires Safe(st)
    requires ev.Write? || ev.Fire? || ev.Land? || ev.Respond? || ev.Abort? || ev.Settle?
    ensures var st' := Step(st, ev); st'.cache == st.cache && st'.server == st.server && st'.muts == st.muts
  {
  }

  lemma {:induction false} RunKeepsSafe(st: State, evs: seq<Event>)
    requires Safe(st) && NoneBegun(evs)
    ensures Safe(Run(st, evs))
    decreases |evs|
  {
    if evs != [] {
      RunKeepsSafe(st, evs[..|evs| - 1]);
      StepKeepsSafe(Run(st, evs[..|evs| - 1]), evs[|evs| - 1]);
    }
  }

  lemma RunSnoc(st: State, evs: seq<Event>, ev: Event)
    ensures Run(st, evs + [ev]) == Step(Run(st, evs), ev)
  {
    assert (evs + [ev])[..|evs|] == evs;
  }

  // Fetching `k`, whether it is cached or not.
  function Fetched(st: State, k: Key): State {
    st.(cache := st.cache[k := Entry(Some(ValueAt(st.server, k)), false, false, Idle)], drift := st.drift - {k})
  }

  lemma FetchStores(st: State, k: Key)
    requires NoFetch(st, k)
    ensures Step(Step(Step(st, StartFetch(k)), Serve(k)), Complete(k)) == Fetched(st, k)
  {
    var was := if k in st.cache then st.cache[k] else NO_ENTRY;
    var st1 := st.(cache := st.cache[k := was.(fetch := Requested)]);
    assert Step(st, StartFetch(k)) == st1;
    var st2 := st1.(cache := st1.cache[k := was.(fetch := Answered(ValueAt(st.server, k)))]);
    assert Step(st1, Serve(k)) == st2;
    assert Step(st2, Complete(k)).cache == Fetched(st, k).cache;
  }

  lemma FetchThree(st: State, k: Key)
    requires NoFetch(st, k)
    ensures Run(st, [StartFetch(k), Serve(k), Complete(k)]) == Fetched(st, k)
  {
    var e := [StartFetch(k), Serve(k), Complete(k)];
    assert e[..1] == [] + [e[0]] && e[..2] == e[..1] + [e[1]] && e == e[..2] + [e[2]];
    RunSnoc(st, [], e[0]);
    RunSnoc(st, e[..1], e[1]);
    RunSnoc(st, e[..2], e[2]);
    FetchStores(st, k);
  }

  lemma RestIsSafe(st: State)
    requires Quiescent(st) && AllAgree(st) && NoneOnTheWay(st)
    ensures Safe(st)
  {
    forall k | k in st.cache ensures EntryIsServers(st, k) { assert Agrees(st, k); }
  }

  lemma SafeAgrees(st: State)
    requires Safe(st)
    ensures AllAgree(st)
  {
    forall k ensures Agrees(st, k) {
      if k in st.cache { assert EntryIsServers(st, k); }
    }
  }

  lemma LandingDisagrees(st: State, m: nat, k: Key)
    requires Quiescent(st) && m < |st.muts| && st.muts[m].request == OnTheWay
    requires k in st.cache && st.cache[k].data == Some(ValueAt(st.server, k))
    ensures var r := Step(st, Land(m, map[k := ValueAt(st.server, k) + 1])); Quiescent(r) && !Agrees(r, k)
  {
  }

  // A failed fetch leaves the entry as it was, ready to be fetched again.
  lemma FailedFetchChangesNothing(st: State, k: Key)
    requires k in st.cache && st.cache[k].fetch == Idle
    ensures Step(Step(st, StartFetch(k)), FailFetch(k)) == st
  {
    assert Step(Step(st, StartFetch(k)), FailFetch(k)).cache == st.cache;
  }

  // With a change still on its way to the server, the cache can come to rest on an old value.
  ghost predicate EndsStale(st: State, more: seq<Event>) {
    NoneBegun(more) && Quiescent(Run(st, more)) && !AllAgree(Run(st, more))
  }

  lemma LandsAfterTheFetch(st: State, m: nat, k: Key) returns (more: seq<Event>)
    requires Quiescent(st) && m < |st.muts| && st.muts[m].request == OnTheWay
    ensures EndsStale(st, more)
  {
    var fetch := [StartFetch(k), Serve(k), Complete(k)];
    var late := Land(m, map[k := ValueAt(st.server, k) + 1]);
    FetchThree(st, k);
    LandingDisagrees(Run(st, fetch), m, k);
    RunSnoc(st, fetch, late);
    more := fetch + [late];
    assert !Agrees(Run(st, more), k);
  }

  /** Being at rest with a cache that agrees is safe, in the sense that whatever happens short of a
      new mutation the next rest agrees again, exactly when no call is still on its way to the
      server.  An undo after the timer fired leaves such a call behind. */
  lemma RestIsSafeIff(server: map<Key, int>, evs: seq<Event>)
    requires Quiescent(Run(Initial(server), evs)) && AllAgree(Run(Initial(server), evs))
    ensures var st := Run(Initial(server), evs);
      (forall more :: NoneBegun(more) && Quiescent(Run(st, more)) ==> AllAgree(Run(st, more)))
        <==> NoneOnTheWay(st)
  {
    var st := Run(Initial(server), evs);
    if NoneOnTheWay(st) {
      RestIsSafe(st);
      forall more | NoneBegun(more) && Quiescent(Run(st, more)) ensures AllAgree(Run(st, more)) {
        RunKeepsSafe(st, more);
        SafeAgrees(Run(st, more));
      }
    } else {
      var m :| 0 <= m < |st.muts| && st.muts[m].request == OnTheWay;
      var more := LandsAfterTheFetch(st, m, []);
    }
  }

  // ---------- the undo window ----------

  /** The server is called at most once and the promise settles at most once; when the promise has
      settled, the call was made unless the window was undone, and then it never was. */
  lemma ServerCalledOnceUnlessUndone(server: map<Key, int>, evs: seq<Event>, m: nat)
    requires m < |Run(Initial(server), evs).muts|
    ensures var mu := Run(Initial(server), evs).muts[m];
      && mu.calls <= 1 && mu.settles <= 1
      && (mu.settles == 1 <==> mu.phase == Settling || mu.phase == Finished)
      && (mu.settles == 1 ==> (mu.calls == 0 <==> mu.undone))
      && (mu.request == NotSent <==> mu.calls == 0)
      && (mu.undone ==> mu.config.windowed && mu.calls == 0)
  {
    RunKeepsInv(Initial(server), evs);
    assert MutationOk(Run(Initial(server), evs).muts[m]);
  }

  /** An abort touches at most the window its hook opened last: it undoes that one if the window
      is still open, and no other mutation changes at all. */
  lemma AbortReachesOnlyTheLatestWindow(server: map<Key, int>, evs: seq<Event>, h: nat, m: nat)
    requires m < |Run(Initial(server), evs).muts|
    ensures var st := Run(Initial(server), evs);
      var st' := Step(st, Abort(h));
      && |st'.muts| == |st.muts| && h !in st'.controller
      && (st'.muts[m] != st.muts[m] ==> h in st.latest && st.latest[h] == m && st.muts[m].config.hook == h)
      && (st'.muts[m].undone && !st.muts[m].undone <==>
            h in st.controller && st.controller[h] == m && st.muts[m].phase == Waiting)
      && st'.cache == st.cache && st'.server == st.server
      && (h in st.controller && st.controller[h] == m ==>
            var mu, mu' := st.muts[m], st'.muts[m];
            if mu.phase == Waiting || mu.phase == Calling
            then mu'.phase == Settling && mu'.settles == 1 && mu'.calls == mu.calls && mu'.request == mu.request
            else mu' == mu)
  {
    RunKeepsInv(Initial(server), evs);
    var st := Run(Initial(server), evs);
    assert MutationsOk(st) && ControllersOk(st);
    assert MutationOk(st.muts[m]);
  }

  // ---------- a mutation goes its way ----------

  // Nothing but mutation `m` has moved, and it has kept its configuration.
  ghost predicate OnlyMoves(st: State, st': State, m: nat)
    requires m < |st.muts|
  {
    && |st'.muts| == |st.muts| && st'.muts[m].config == st.muts[m].config
    && forall j :: 0 <= j < |st.muts| && j != m ==> st'.muts[j] == st.muts[j]
  }

  /** After its guess is written a mutation calls the server at once, or opens its window if it has
      one; when the timer fires the call goes out. */
  lemma CallGoesOut(server: map<Key, int>, evs: seq<Event>, m: nat, values: map<Key, int>)
    requires m < |Run(Initial(server), evs).muts|
    ensures var st := Run(Initial(server), evs);
      var st' := Step(st, Write(m, values));
      st.muts[m].phase == Mutating ==>
        && OnlyMoves(st, st', m) && st'.server == st.server && !st'.muts[m].undone && st'.muts[m].settles == 0
        && if st.muts[m].config.windowed
           then st'.muts[m].phase == Waiting && st'.muts[m].calls == 0 && st'.muts[m].request == NotSent
           else st'.muts[m].phase == Calling && st'.muts[m].calls == 1 && st'.muts[m].request == OnTheWay
    ensures var st := Run(Initial(server), evs);
      var st' := Step(st, Fire(m));
      st.muts[m].phase == Waiting ==>
        && OnlyMoves(st, st', m) && st'.server == st.server && st'.cache == st.cache
        && st'.muts[m].phase == Calling && st'.muts[m].calls == 1 && st'.muts[m].request == OnTheWay
        && st'.muts[m].settles == 0 && !st'.muts[m].undone
  {
    RunKeepsInv(Initial(server), evs);
    assert MutationOk(Run(Initial(server), evs).muts[m]);
  }

  /** Writing a guess neither starts nor drops a fetch. */
  lemma WritingLeavesFetches(st: State, m: nat, values: map<Key, int>, k: Key)
    requires k in st.cache
    ensures var c := Step(st, Write(m, values)).cache; k in c && c[k].fetch == st.cache[k].fetch
  {
  }

  /** A call on its way lands with all it changes and nothing else. */
  lemma CallLands(server: map<Key, int>, evs: seq<Event>, m: nat, effect: map<Key, int>)
    requires var st := Run(Initial(server), evs); m < |st.muts| && st.muts[m].request == OnTheWay
    ensures var st := Run(Initial(server), evs);
      var st' := Step(st, Land(m, effect));
      && OnlyMoves(st, st', m) && st'.cache == st.cache
      && st'.muts[m].request == Landed && st'.muts[m].phase == st.muts[m].phase
      && forall k :: ValueAt(st'.server, k) == if k in effect then effect[k] else ValueAt(st.server, k)
  {
  }

  /** A response settles its mutation, whatever it says. */
  lemma ResponseSettles(server: map<Key, int>, evs: seq<Event>, m: nat)
    requires var st := Run(Initial(server), evs); m < |st.muts| && st.muts[m].phase == Calling
    ensures var st := Run(Initial(server), evs);
      var st' := Step(st, Respond(m));
      && OnlyMoves(st, st', m) && st'.server == st.server && st'.cache == st.cache
      && st'.muts[m].phase == Settling && st'.muts[m].settles == 1 && st'.muts[m].calls == 1
      && !st'.muts[m].undone && st'.muts[m].request == st.muts[m].request
  {
    RunKeepsInv(Initial(server), evs);
    assert MutationOk(Run(Initial(server), evs).muts[m]);
  }

  /** Settling finishes it and makes exactly the entries stale that lie under the query key or an
      invalidate key, dropping their fetches. */
  lemma SettlingInvalidates(server: map<Key, int>, evs: seq<Event>, m: nat)
    requires var st := Run(Initial(server), evs); m < |st.muts| && st.muts[m].phase == Settling
    ensures var st := Run(Initial(server), evs);
      var st' := Step(st, Settle(m));
      && OnlyMoves(st, st', m) && st'.server == st.server
      && st'.muts[m] == st.muts[m].(phase := Finished) && st'.muts[m].settles == 1
      && st'.cache.Keys == st.cache.Keys
      && forall k :: k in st.cache ==> Invalidated(st.muts[m].config, st.cache, st'.cache, k)
  {
    var st := Run(Initial(server), evs);
    RunKeepsInv(Initial(server), evs);
    assert MutationOk(st.muts[m]);
    SettledCache(st.cache, st.muts[m].config);
  }

  // An entry under the query key or an invalidate key is stale with no fetch on the way, its data as
  // it was; any other is untouched.
  ghost predicate Invalidated(cfg: Config, c: map<Key, Entry>, c': map<Key, Entry>, k: Key)
    requires k in c
  {
    && k in c'
    && if cfg.queryKey <= k || (exists i :: 0 <= i < |cfg.invalidateKeys| && cfg.invalidateKeys[i] <= k)
       then c'[k].stale && c'[k].fetch == Idle && c'[k].data == c[k].data && c'[k].guess == c[k].guess
       else c'[k] == c[k]
  }

  predicate IsOwn(ev: Event, m: nat) {
    ev == Fire(m) || ev == Respond(m) || ev == Settle(m) || (ev.Write? && ev.m == m)
  }

  function Rank(phase: Phase): nat {
    match phase
    case Mutating => 4 case Waiting => 3 case Calling => 2 case Settling => 1 case Finished => 0
  }

  lemma RunConcat(st: State, a: seq<Event>, ev: Event, b: seq<Event>)
    ensures Run(st, a + [ev] + b) == Run(st, a + ([ev] + b))
  {
    assert a + [ev] + b == a + ([ev] + b);
  }

  // The event that takes an unfinished mutation on.
  function NextOwn(phase: Phase, m: nat): Event {
    match phase
    case Mutating => Write(m, map[]) case Waiting => Fire(m) case Calling => Respond(m)
    case _ => Settle(m)
  }

  ghost predicate CoveredIsStale(st: State, cfg: Config) {
    forall k :: k in st.cache && Covers(cfg, k) ==> st.cache[k].stale && st.cache[k].fetch == Idle
  }

  // What its own events have made of a mutation once it has finished.
  ghost predicate BroughtToItsEnd(st: State, st': State, m: nat)
    requires m < |st.muts|
  {
    && OnlyMoves(st, st', m) && st'.server == st.server
    && st'.muts[m].phase == Finished && st'.muts[m].settles == 1 && st'.muts[m].undone == st.muts[m].undone
    && st'.muts[m].calls == (if st.muts[m].undone then 0 else 1)
    && (st.muts[m].phase != Finished ==>
          CoveredIsStale(st', st.muts[m].config))
  }

  lemma OwnStep(server: map<Key, int>, evs: seq<Event>, m: nat)
    requires m < |Run(Initial(server), evs).muts| && Run(Initial(server), evs).muts[m].phase != Finished
    ensures var st := Run(Initial(server), evs);
      var st' := Step(st, NextOwn(st.muts[m].phase, m));
      && OnlyMoves(st, st', m) && st'.server == st.server && st'.muts[m].undone == st.muts[m].undone
      && Rank(st'.muts[m].phase) < Rank(st.muts[m].phase)
      && (st'.muts[m].phase == Finished ==>
            CoveredIsStale(st', st.muts[m].config))
  {
    var st := Run(Initial(server), evs);
    match st.muts[m].phase
    case Mutating => CallGoesOut(server, evs, m, map[]);
    case Waiting => CallGoesOut(server, evs, m, map[]);
    case Calling => ResponseSettles(server, evs, m);
    case Settling => SettlingInvalidates(server, evs, m);
  }

  /** No mutation is ever stuck: from any moment of any run its own next events, none of them an
      abort, settle it once and finish it, the call made unless it was undone before, everything it
      covers stale, and no other mutation touched. */
  lemma {:induction false} EveryMutationCanFinish(server: map<Key, int>, evs: seq<Event>, m: nat)
      returns (more: seq<Event>)
    requires m < |Run(Initial(server), evs).muts|
    ensures forall i :: 0 <= i < |more| ==> IsOwn(more[i], m)
    ensures BroughtToItsEnd(Run(Initial(server), evs), Run(Initial(server), evs + more), m)
    decreases Rank(Run(Initial(server), evs).muts[m].phase)
  {
    var st := Run(Initial(server), evs);
    RunKeepsInv(Initial(server), evs);
    assert MutationOk(st.muts[m]);
    if st.muts[m].phase == Finished {
      more := [];
      assert evs + more == evs;
    } else {
      var ev := NextOwn(st.muts[m].phase, m);
      OwnStep(server, evs, m);
      RunSnoc(Initial(server), evs, ev);
      var rest := EveryMutationCanFinish(server, evs + [ev], m);
      RunConcat(Initial(server), evs, ev, rest);
      if rest == [] { assert evs + [ev] + rest == evs + [ev]; }
      if Step(st, ev).muts[m].phase == Finished { OwnEventsAreOver(server, evs + [ev], m, rest); }
      more := [ev] + rest;
    }
  }

  // A finished mutation has no events left.
  lemma {:induction false} OwnEventsAreOver(server: map<Key, int>, evs: seq<Event>, m: nat, more: seq<Event>)
    requires var st := Run(Initial(server), evs); m < |st.muts| && st.muts[m].phase == Finished
    requires forall i :: 0 <= i < |more| ==> IsOwn(more[i], m)
    ensures Run(Initial(server), evs + more) == Run(Initial(server), evs)
    decreases |more|
  {
    if more == [] {
      assert evs + more == evs;
    } else {
      var n := |more| - 1;
      assert evs + more == evs + more[..n] + [more[n]];
      OwnEventsAreOver(server, evs, m, more[..n]);
      RunSnoc(Initial(server), evs + more[..n], more[n]);
    }
  }

  // A window its hook can no longer abort.
  predicate OutOfReach(st: State, m: nat) {
    && m < |st.muts| && st.muts[m].phase != Mutating && !st.muts[m].undone
    && (st.muts[m].config.hook in st.controller ==> st.controller[st.muts[m].config.hook] != m)
  }

  lemma StepKeepsOutOfReach(st: State, ev: Event, m: nat)
    requires ControllersOk(st) && OutOfReach(st, m)
    ensures OutOfReach(Step(st, ev), m)
  {
  }

  /** Opening a second window loses the first one's controller: from then on no abort, however
      early, can undo the first, and its call to the server goes out. */
  lemma {:induction false} SupersededWindowCannotBeUndone(st: State, evs: seq<Event>, m: nat)
    requires Inv(st) && OutOfReach(st, m)
    ensures OutOfReach(Run(st, evs), m)
    ensures Run(st, evs).muts[m].phase != Waiting ==> Run(st, evs).muts[m].calls == 1
    decreases |evs|
  {
    RunKeepsInv(st, evs);
    if evs != [] {
      RunKeepsInv(st, evs[..|evs| - 1]);
      SupersededWindowCannotBeUndone(st, evs[..|evs| - 1], m);
      StepKeepsOutOfReach(Run(st, evs[..|evs| - 1]), evs[|evs| - 1], m);
    }
    assert MutationOk(Run(st, evs).muts[m]);
  }

  lemma SecondWindowSupersedesFirst(st: State, m: nat, n: nat, values: map<Key, int>)
    requires Inv(st) && In(st, m, Waiting) && In(st, n, Mutating)
    requires st.muts[n].config.windowed && st.muts[n].config.hook == st.muts[m].config.hook
    ensures OutOfReach(Step(st, Write(n, values)), m)
  {
    assert MutationOk(st.muts[m]);
  }

  // ---------- the abort that comes too late ----------

  const KEY: Key := ["list"]

  const CONFIG: Config := Config(KEY, Exact, [], true, 0)

  function LateAbort(): seq<Event> {
    [Mutate(CONFIG), Write(0, map[KEY := 1]), Fire(0), Abort(0), Settle(0),
     StartFetch(KEY), Serve(KEY), Complete(KEY), Land(0, map[KEY := 1])]
  }

  function After(n: nat): State
    requires n <= 9
  {
    Run(Initial(map[]), LateAbort()[..n])
  }

  lemma AfterStep(n: nat)
    requires n < 9
    ensures After(n + 1) == Step(After(n), LateAbort()[n])
  {
    assert LateAbort()[..n + 1][..n] == LateAbort()[..n];
  }

  function OneEntry(e: Entry): map<Key, Entry> { map[KEY := e] }

  // Where the run stands after each group of its steps.
  lemma AfterFire()
    ensures After(3) == State(OneEntry(Entry(Some(1), true, false, Idle)), map[],
                              [Mutation(CONFIG, Calling, OnTheWay, 1, 0, false)], map[0 := 0], map[0 := 0], {})
  {
    AfterStep(0);
    assert After(1).muts == [Mutation(CONFIG, Mutating, NotSent, 0, 0, false)];
    AfterStep(1);
    assert After(2).cache == OneEntry(Entry(Some(1), true, false, Idle));
    assert After(2).muts == [Mutation(CONFIG, Waiting, NotSent, 0, 0, false)];
    AfterStep(2);
  }

  lemma AfterAbort()
    ensures After(4) == State(OneEntry(Entry(Some(1), true, false, Idle)), map[],
                              [Mutation(CONFIG, Settling, OnTheWay, 1, 1, false)], map[], map[0 := 0], {})
  {
    AfterFire();
    AfterStep(3);
  }

  lemma AfterSettle()
    ensures After(5) == State(OneEntry(Entry(Some(1), true, true, Idle)), map[],
                              [Mutation(CONFIG, Finished, OnTheWay, 1, 1, false)], map[], map[0 := 0], {})
  {
    AfterAbort();
    AfterStep(4);
    assert LateAbort()[4] == Settle(0);
    SettledCache(After(4).cache, CONFIG);
    assert After(5).cache == OneEntry(Entry(Some(1), true, true, Idle));
  }

  // One undisturbed fetch of an idle entry.
  lemma AfterThreeSteps()
    ensures After(8) == Step(Step(Step(After(5), StartFetch(KEY)), Serve(KEY)), Complete(KEY))
  {
    var e := LateAbort();
    assert e[5] == StartFetch(KEY) && e[6] == Serve(KEY) && e[7] == Complete(KEY);
    AfterStep(5);
    AfterStep(6);
    AfterStep(7);
  }

  lemma AfterFetch()
    ensures After(8) == State(OneEntry(Entry(Some(0), false, false, Idle)), map[],
                              [Mutation(CONFIG, Finished, OnTheWay, 1, 1, false)], map[], map[0 := 0], {})
  {
    AfterSettle();
    var st := After(5);
    FetchStores(st, KEY);
    AfterThreeSteps();
    assert st.cache[KEY := Entry(Some(0), false, false, Idle)] == OneEntry(Entry(Some(0), false, false, Idle));
  }

  /** Undoing after the timer fired rejects the promise although the call went out.  The cache is
      fetched again before the change lands, and everything comes to rest on the old value. */
  lemma AbortAfterFireLeavesStaleCache()
    ensures Quiescent(After(9)) && !Agrees(After(9), KEY)
    ensures |After(9).muts| == 1 && After(9).muts[0].settles == 1 && !After(9).muts[0].undone
  {
    AfterFetch();
    AfterStep(8);
    assert After(9).server[KEY] == 1;
  }

  // ---------- the hook ----------

  class Mutations {
    var cache: map<Key, Entry>
    var server: map<Key, int>
    var muts: seq<Mutation>
    var controller: map<nat, nat>
    var latest: map<nat, nat>
    var drift: set<Key>

    function Current(): State reads this { State(cache, server, muts, controller, latest, drift) }

    method OnMutate(config: Config)
      modifies this
      ensures Current() == Step(old(Current()), Mutate(config))
    {
      muts := muts + [Mutation(config, Mutating, NotSent, 0, 0, false)];
      cache := Cancel(cache, config.queryKey);
    }

    // The rest of onMutate, and then effectiveMutationFn.
    method OnMutateResumes(m: nat, values: map<Key, int>)
      requires In(Current(), m, Mutating)
      modifies this
      ensures Current() == Step(old(Current()), Write(m, values))
    {
      var config := muts[m].config;
      if config.scope == Matching {
        cache := map k | k in cache :: if config.queryKey <= k then Guessed(cache[k], ValueAt(values, k)) else cache[k];
      } else {
        var was := NO_ENTRY;
        if config.queryKey in cache { was := cache[config.queryKey]; }
        cache := cache[config.queryKey := Guessed(was, ValueAt(values, config.queryKey))];
      }
      if !config.windowed {
        CallServer(m);
        return;
      }
      controller := controller[config.hook := m];
      latest := latest[config.hook := m];
      muts := muts[m := muts[m].(phase := Waiting)];
    }

    method CallServer(m: nat)
      requires m < |muts|
      modifies this`muts
      ensures muts == old(muts)[m := Sent(old(muts)[m])]
    {
      muts := muts[m := muts[m].(phase := Calling, request := OnTheWay, calls := muts[m].calls + 1)];
    }

    // The timer's own check of the abort signal can never find it set.
    method TimerFires(m: nat)
      requires In(Current(), m, Waiting) && MutationOk(muts[m])
      modifies this
      ensures Current() == Step(old(Current()), Fire(m))
    {
      assert !muts[m].undone;
      CallServer(m);
    }

    method AbortUndo(hook: nat)
      requires ControllersOk(Current())
      modifies this
      ensures Current() == Step(old(Current()), Abort(hook))
    {
      if hook in controller {
        var m := controller[hook];
        if muts[m].phase == Waiting {
          muts := muts[m := muts[m].(undone := true)];
          muts := muts[m := muts[m].(phase := Settling, settles := muts[m].settles + 1)];
        } else if muts[m].phase == Calling {
          muts := muts[m := muts[m].(phase := Settling, settles := muts[m].settles + 1)];
        }
        controller := controller - {hook};
      }
    }

    // mutationFn resolves or rejects, and so does the promise of the mutation.
    method OnResponse(m: nat)
      requires In(Current(), m, Calling)
      modifies this
      ensures Current() == Step(old(Current()), Respond(m))
    {
      muts := muts[m := muts[m].(phase := Settling, settles := muts[m].settles + 1)];
    }

    method OnSettled(m: nat)
      requires In(Current(), m, Settling)
      modifies this
      ensures Current() == Step(old(Current()), Settle(m))
    {
      var config := muts[m].config;
      ghost var keys := [config.queryKey] + config.invalidateKeys;
      ghost var before := cache;
      assert keys[..1][..0] == [] && keys[..1][0] == config.queryKey;
      cache := Invalidate(cache, config.queryKey);
      for i := 0 to |config.invalidateKeys|
        invariant cache == InvalidateAll(before, keys[..i + 1])
        invariant muts == old(muts) && server == old(server) && drift == old(drift)
        invariant controller == old(controller) && latest == old(latest)
      {
        assert keys[..i + 2][..i + 1] == keys[..i + 1];
        cache := Invalidate(cache, config.invalidateKeys[i]);
      }
      assert keys[..|keys|] == keys;
      muts := muts[m := muts[m].(phase := Finished)];
    }
  }
}

/**
  The pool that installs the precache: a fixed number of workers share one stack of items.

  Every worker takes the top item, awaits its task, notes the result with the item's place, and
  takes the next; it resolves when the stack is empty.  Tasks of different workers complete in any
  order.  A task that rejects leaves its worker's promise unsettled, so the pool never resolves.
 */
module WorkerPool {
  import opened Sorting

  datatype Noted<R> = Noted(index: nat, result: R)

  datatype Job = Running(index: nat) | Stuck(index: nat) | Finished

  datatype Worker<R> = Worker(job: Job, notes: seq<Noted<R>>)

  datatype State<R> = State(stack: seq<nat>, workers: seq<Worker<R>>)

  datatype Event = Complete(worker: nat) | Reject(worker: nat)

  // pop() by a worker that noted `notes` so far.
  function TakeNext<R>(stack: seq<nat>, notes: seq<Noted<R>>): (seq<nat>, Worker<R>) {
    if stack == [] then ([], Worker(Finished, notes))
    else (stack[..|stack| - 1], Worker(Running(stack[|stack| - 1]), notes))
  }

  // The executors run one after another, each up to its first await.
  function Start<R>(n: nat, size: nat): State<R>
    decreases size
  {
    if size == 0 then State(Range(n), [])
    else
      var st := Start<R>(n, size - 1);
      var (stack, w) := TakeNext<R>(st.stack, []);
      State(stack, st.workers + [w])
  }

  function Step<T, R>(items: seq<T>, task: T -> R, st: State<R>, ev: Event): State<R> {
    if ev.worker >= |st.workers| || !st.workers[ev.worker].job.Running? then st
    else
      var w := st.workers[ev.worker];
      match ev
      case Complete(k) =>
        if w.job.index >= |items| then st
        else
          var (stack, w') := TakeNext(st.stack, w.notes + [Noted(w.job.index, task(items[w.job.index]))]);
          State(stack, st.workers[k := w'])
      case Reject(k) => st.(workers := st.workers[k := w.(job := Stuck(w.job.index))])
  }

  function Run<T, R>(items: seq<T>, task: T -> R, size: nat, evs: seq<Event>): State<R>
    decreases |evs|
  {
    if evs == [] then Start(|items|, size)
    else Step(items, task, Run(items, task, size, evs[..|evs| - 1]), evs[|evs| - 1])
  }

  // Promise.all has resolved.
  predicate Resolved<R>(st: State<R>) { forall w :: 0 <= w < |st.workers| ==> st.workers[w].job == Finished }

  function Notes<R>(ws: seq<Worker<R>>): seq<Noted<R>> {
    if ws == [] then [] else Notes(ws[..|ws| - 1]) + ws[|ws| - 1].notes
  }

  function IndexKey<R>(): Noted<R> -> int { (p: Noted<R>) => p.index }

  // flat, sort by index, keep the results.
  function Output<R>(st: State<R>): seq<R> {
    var sorted := SortBy(Notes(st.workers), IndexKey());
    seq(|sorted|, i requires 0 <= i < |sorted| => sorted[i].result)
  }

  // ---------- where each item is ----------

  function Indices<R>(notes: seq<Noted<R>>): (r: seq<nat>)
    ensures |r| == |notes| && forall i :: 0 <= i < |notes| ==> r[i] == notes[i].index
  {
    seq(|notes|, i requires 0 <= i < |notes| => notes[i].index)
  }

  function InHand(job: Job, i: nat): nat {
    if !job.Finished? && job.index == i then 1 else 0
  }

  // How many workers hold item `i`, and how many notes there are of it.
  function Holders<R>(ws: seq<Worker<R>>, i: nat): nat {
    if ws == [] then 0 else Holders(ws[..|ws| - 1], i) + InHand(ws[|ws| - 1].job, i)
  }

  function Noters<R>(ws: seq<Worker<R>>, i: nat): nat {
    if ws == [] then 0 else Noters(ws[..|ws| - 1], i) + multiset(Indices(ws[|ws| - 1].notes))[i]
  }

  ghost predicate NoteOk<T, R>(items: seq<T>, task: T -> R, p: Noted<R>) {
    p.index < |items| && p.result == task(items[p.index])
  }

  // Each item is in exactly one place: on the stack, in one worker's hand, or noted once.
  ghost predicate Inv<T, R>(items: seq<T>, task: T -> R, st: State<R>) {
    Balanced(|items|, st) && Drained(st) && NotesOk(items, task, st.workers)
  }

  ghost predicate Balanced<R>(n: nat, st: State<R>) {
    forall i: nat :: multiset(st.stack)[i] + Holders(st.workers, i) + Noters(st.workers, i) == if i < n then 1 else 0
  }

  // A worker finishes only on an empty stack.
  ghost predicate Drained<R>(st: State<R>) {
    forall w :: 0 <= w < |st.workers| && st.workers[w].job == Finished ==> st.stack == []
  }

  ghost predicate NotesOk<T, R>(items: seq<T>, task: T -> R, ws: seq<Worker<R>>) {
    forall w, k :: 0 <= w < |ws| && 0 <= k < |ws[w].notes| ==> NoteOk(items, task, ws[w].notes[k])
  }

  lemma {:induction false} ReplaceWorker<R>(ws: seq<Worker<R>>, k: nat, w: Worker<R>, i: nat)
    requires k < |ws|
    ensures Holders(ws[k := w], i) + InHand(ws[k].job, i) == Holders(ws, i) + InHand(w.job, i)
    ensures Noters(ws[k := w], i) + multiset(Indices(ws[k].notes))[i] == Noters(ws, i) + multiset(Indices(w.notes))[i]
    decreases |ws|
  {
    var n := |ws| - 1;
    if k == n {
      assert ws[k := w][..n] == ws[..n];
    } else {
      assert ws[k := w][..n] == ws[..n][k := w];
      ReplaceWorker(ws[..n], k, w, i);
    }
  }

  lemma PopSplits(stack: seq<nat>, i: nat)
    requires stack != []
    ensures multiset(stack)[i] == multiset(stack[..|stack| - 1])[i] + if stack[|stack| - 1] == i then 1 else 0
  {
    assert stack == stack[..|stack| - 1] + [stack[|stack| - 1]];
  }

  // A worker takes the top of the stack in hand, or finishes.
  lemma TakeKeepsItems<R>(stack: seq<nat>, notes: seq<Noted<R>>, i: nat)
    ensures var (stack', w) := TakeNext(stack, notes);
      && multiset(stack')[i] + InHand(w.job, i) == multiset(stack)[i]
      && w.notes == notes
  {
    if stack != [] { PopSplits(stack, i); }
  }

  lemma {:induction false} RangeHasEachOnce(n: nat, i: nat)
    ensures multiset(Range(n))[i] == if i < n then 1 else 0
  {
    if n > 0 {
      RangeHasEachOnce(n - 1, i);
      assert Range(n) == Range(n - 1) + [n - 1];
    }
  }

  lemma AppendWorker<R>(ws: seq<Worker<R>>, w: Worker<R>, i: nat)
    ensures Holders(ws + [w], i) == Holders(ws, i) + InHand(w.job, i)
    ensures Noters(ws + [w], i) == Noters(ws, i) + multiset(Indices(w.notes))[i]
  {
  }

  lemma AppendBalances<R>(n: nat, st: State<R>)
    requires Balanced(n, st)
    ensures var (stack, w) := TakeNext<R>(st.stack, []);
      Balanced(n, State(stack, st.workers + [w]))
  {
    var (stack, w) := TakeNext<R>(st.stack, []);
    assert Indices<R>([]) == [];
    forall i: nat
      ensures multiset(stack)[i] + Holders(st.workers + [w], i) + Noters(st.workers + [w], i) == if i < n then 1 else 0
    {
      TakeKeepsItems<R>(st.stack, [], i);
      AppendWorker(st.workers, w, i);
      assert multiset(st.stack)[i] + Holders(st.workers, i) + Noters(st.workers, i) == if i < n then 1 else 0;
    }
  }

  lemma {:induction false} StartBalances<R>(n: nat, size: nat)
    ensures Balanced(n, Start<R>(n, size))
  {
    if size == 0 {
      forall i: nat ensures multiset(Range(n))[i] + Holders<R>([], i) + Noters<R>([], i) == if i < n then 1 else 0 {
        RangeHasEachOnce(n, i);
      }
    } else {
      StartBalances<R>(n, size - 1);
      AppendBalances(n, Start<R>(n, size - 1));
    }
  }

  lemma {:induction false} StartKeepsRest<T, R>(items: seq<T>, task: T -> R, n: nat, size: nat)
    ensures Drained(Start<R>(n, size)) && NotesOk(items, task, Start<R>(n, size).workers)
    ensures |Start<R>(n, size).workers| == size
    decreases size
  {
    if size > 0 { StartKeepsRest(items, task, n, size - 1); }
  }

  lemma InHandIsItem<R>(n: nat, st: State<R>, k: nat)
    requires Balanced(n, st) && k < |st.workers| && st.workers[k].job.Running?
    ensures st.workers[k].job.index < n
  {
    HolderCounts(st.workers, k, st.workers[k].job.index);
  }

  lemma {:induction false} HolderCounts<R>(ws: seq<Worker<R>>, k: nat, i: nat)
    requires k < |ws| && InHand(ws[k].job, i) == 1
    ensures Holders(ws, i) > 0
    decreases |ws|
  {
    if k < |ws| - 1 { HolderCounts(ws[..|ws| - 1], k, i); }
  }

  // The item moves from the hand to the notes, and the next one from the stack to the hand.
  lemma CompleteKeepsBalance<R>(n: nat, st: State<R>, k: nat, result: R)
    requires Balanced(n, st) && k < |st.workers| && st.workers[k].job.Running?
    ensures var w := st.workers[k];
      var (stack, w') := TakeNext(st.stack, w.notes + [Noted(w.job.index, result)]);
      Balanced(n, State(stack, st.workers[k := w']))
  {
    var w := st.workers[k];
    var notes := w.notes + [Noted(w.job.index, result)];
    var (stack, w') := TakeNext(st.stack, notes);
    assert Indices(notes) == Indices(w.notes) + [w.job.index];
    var st' := State(stack, st.workers[k := w']);
    forall i: nat
      ensures multiset(st'.stack)[i] + Holders(st'.workers, i) + Noters(st'.workers, i) == if i < n then 1 else 0
    {
      TakeKeepsItems(st.stack, notes, i);
      ReplaceWorker(st.workers, k, w', i);
      assert multiset(st.stack)[i] + Holders(st.workers, i) + Noters(st.workers, i) == if i < n then 1 else 0;
    }
  }

  lemma RejectKeepsBalance<R>(n: nat, st: State<R>, k: nat)
    requires Balanced(n, st) && k < |st.workers| && st.workers[k].job.Running?
    ensures Balanced(n, st.(workers := st.workers[k := st.workers[k].(job := Stuck(st.workers[k].job.index))]))
  {
    var w' := st.workers[k].(job := Stuck(st.workers[k].job.index));
    var st' := st.(workers := st.workers[k := w']);
    forall i: nat
      ensures multiset(st'.stack)[i] + Holders(st'.workers, i) + Noters(st'.workers, i) == if i < n then 1 else 0
    {
      ReplaceWorker(st.workers, k, w', i);
      assert multiset(st.stack)[i] + Holders(st.workers, i) + Noters(st.workers, i) == if i < n then 1 else 0;
    }
  }

  lemma StepKeepsRest<T, R>(items: seq<T>, task: T -> R, st: State<R>, ev: Event)
    requires Drained(st) && NotesOk(items, task, st.workers)
    ensures Drained(Step(items, task, st, ev)) && NotesOk(items, task, Step(items, task, st, ev).workers)
    ensures |Step(items, task, st, ev).workers| == |st.workers|
  {
  }

  lemma StepKeepsInv<T, R>(items: seq<T>, task: T -> R, st: State<R>, ev: Event)
    requires Inv(items, task, st)
    ensures Inv(items, task, Step(items, task, st, ev))
    ensures |Step(items, task, st, ev).workers| == |st.workers|
  {
    var k := ev.worker;
    StepKeepsRest(items, task, st, ev);
    if k < |st.workers| && st.workers[k].job.Running? {
      InHandIsItem(|items|, st, k);
      match ev
      case Complete(_) => CompleteKeepsBalance(|items|, st, k, task(items[st.workers[k].job.index]));
      case Reject(_) => RejectKeepsBalance(|items|, st, k);
    }
  }

  lemma {:induction false} RunKeepsInv<T, R>(items: seq<T>, task: T -> R, size: nat, evs: seq<Event>)
    ensures Inv(items, task, Run(items, task, size, evs))
    ensures |Run(items, task, size, evs).workers| == size
    decreases |evs|
  {
    if evs == [] {
      StartBalances<R>(|items|, size);
      StartKeepsRest(items, task, |items|, size);
    } else {
      RunKeepsInv(items, task, size, evs[..|evs| - 1]);
      StepKeepsInv(items, task, Run(items, task, size, evs[..|evs| - 1]), evs[|evs| - 1]);
    }
  }

  // ---------- the output ----------

  lemma {:induction false} NotesAreNoted<R>(ws: seq<Worker<R>>, i: nat)
    ensures multiset(Indices(Notes(ws)))[i] == Noters(ws, i)
  {
    if ws != [] {
      var n := |ws| - 1;
      NotesAreNoted(ws[..n], i);
      IndicesOfConcat(Notes(ws[..n]), ws[n].notes);
    }
  }

  lemma {:induction false} NotesAreOk<T, R>(items: seq<T>, task: T -> R, ws: seq<Worker<R>>)
    requires NotesOk(items, task, ws)
    ensures forall i :: 0 <= i < |Notes(ws)| ==> NoteOk(items, task, Notes(ws)[i])
  {
    if ws != [] { NotesAreOk(items, task, ws[..|ws| - 1]); }
  }

  lemma {:induction false} NothingInHand<R>(ws: seq<Worker<R>>, i: nat)
    requires forall w :: 0 <= w < |ws| ==> ws[w].job == Finished
    ensures Holders(ws, i) == 0
  {
    if ws != [] { NothingInHand(ws[..|ws| - 1], i); }
  }

  lemma IndicesOfConcat<R>(a: seq<Noted<R>>, b: seq<Noted<R>>)
    ensures Indices(a + b) == Indices(a) + Indices(b)
  {
  }

  lemma {:induction false} IndicesFollow<R>(a: seq<Noted<R>>, b: seq<Noted<R>>)
    requires multiset(a) == multiset(b)
    ensures multiset(Indices(a)) == multiset(Indices(b))
    decreases |a|
  {
    assert |multiset(a)| == |a| && |multiset(b)| == |b|;
    if a != [] {
      assert a[0] in multiset(b);
      var i :| 0 <= i < |b| && b[i] == a[0];
      var rest := b[..i] + b[i + 1..];
      RemoveOne(a, 0);
      RemoveOne(b, i);
      assert a[..0] + a[1..] == a[1..];
      assert multiset(a[1..]) == multiset(rest) by {
        assert multiset(a[1..]) == multiset(a) - multiset{a[0]};
        assert multiset(rest) == multiset(b) - multiset{b[i]};
      }
      IndicesFollow(a[1..], rest);
    }
  }

  lemma RemoveOne<R>(s: seq<Noted<R>>, i: nat)
    requires i < |s|
    ensures var rest := s[..i] + s[i + 1..];
      multiset(s) == multiset(rest) + multiset{s[i]}
      && multiset(Indices(s)) == multiset(Indices(rest)) + multiset{s[i].index}
  {
    var rest := s[..i] + s[i + 1..];
    assert s == s[..i] + ([s[i]] + s[i + 1..]);
    IndicesOfConcat(s[..i], s[i + 1..]);
    IndicesOfConcat(s[..i], [s[i]] + s[i + 1..]);
    IndicesOfConcat([s[i]], s[i + 1..]);
    assert Indices([s[i]]) == [s[i].index];
  }

  /** Whatever the interleaving, if the pool resolves it returns the result of every item, each
      computed from its own item, in the order of the items. */
  lemma ResultsInInputOrder<T, R>(items: seq<T>, task: T -> R, size: nat, evs: seq<Event>)
    requires size >= 1 && Resolved(Run(items, task, size, evs))
    ensures var out := Output(Run(items, task, size, evs));
      |out| == |items| && forall i :: 0 <= i < |items| ==> out[i] == task(items[i])
  {
    var st := Run(items, task, size, evs);
    RunKeepsInv(items, task, size, evs);
    AllNotedAtTheEnd(|items|, st);
    NotesAreOk(items, task, st.workers);
    SortedNotes(items, task, Notes(st.workers));
  }

  lemma AllNotedAtTheEnd<R>(n: nat, st: State<R>)
    requires Balanced(n, st) && Drained(st) && Resolved(st) && |st.workers| >= 1
    ensures multiset(Indices(Notes(st.workers))) == multiset(Range(n))
  {
    assert st.workers[0].job == Finished && st.stack == [];
    forall i: nat ensures multiset(Indices(Notes(st.workers)))[i] == multiset(Range(n))[i] {
      NothingInHand(st.workers, i);
      NotesAreNoted(st.workers, i);
      RangeHasEachOnce(n, i);
      assert multiset(st.stack)[i] + Holders(st.workers, i) + Noters(st.workers, i) == if i < n then 1 else 0;
    }
  }

  lemma SortedNotes<T, R>(items: seq<T>, task: T -> R, notes: seq<Noted<R>>)
    requires multiset(Indices(notes)) == multiset(Range(|items|))
    requires forall i :: 0 <= i < |notes| ==> NoteOk(items, task, notes[i])
    ensures var sorted := SortBy(notes, IndexKey());
      |sorted| == |items| && forall i :: 0 <= i < |items| ==> sorted[i].result == task(items[i])
  {
    var sorted := SortBy(notes, IndexKey());
    IndicesFollow(sorted, notes);
    SortedIsUnique(Indices(sorted), Range(|items|), (i: nat) => i);
    forall i | 0 <= i < |items| ensures sorted[i].result == task(items[i]) {
      assert Indices(sorted)[i] == i;
      assert sorted[i] in multiset(notes);
      var j :| 0 <= j < |notes| && notes[j] == sorted[i];
    }
  }

  /** No task runs twice: at every moment each item is on the stack, with one worker, or noted
      once; and the pool resolves exactly when every item is noted. */
  lemma ResolvesWhenAllAreNoted<T, R>(items: seq<T>, task: T -> R, size: nat, evs: seq<Event>)
    requires size >= 1
    ensures var st := Run(items, task, size, evs);
      && (forall i: nat :: i < |items| ==>
            multiset(st.stack)[i] + Holders(st.workers, i) + multiset(Indices(Notes(st.workers)))[i] == 1)
      && (Resolved(st) <==> forall i: nat :: i < |items| ==> multiset(Indices(Notes(st.workers)))[i] == 1)
  {
    var st := Run(items, task, size, evs);
    RunKeepsInv(items, task, size, evs);
    forall i: nat | i < |items|
      ensures multiset(st.stack)[i] + Holders(st.workers, i) + multiset(Indices(Notes(st.workers)))[i] == 1
    {
      NotesAreNoted(st.workers, i);
    }
    if Resolved(st) {
      AllNotedAtTheEnd(|items|, st);
      forall i: nat | i < |items| ensures multiset(Indices(Notes(st.workers)))[i] == 1 { RangeHasEachOnce(|items|, i); }
    } else {
      var k :| 0 <= k < |st.workers| && st.workers[k].job != Finished;
      var i := st.workers[k].job.index;
      HolderCounts(st.workers, k, i);
      NotesAreNoted(st.workers, i);
      assert multiset(st.stack)[i] + Holders(st.workers, i) + Noters(st.workers, i) == if i < |items| then 1 else 0;
      assert i < |items| && multiset(Indices(Notes(st.workers)))[i] == 0;
    }
  }

  /** One rejected task, and the pool never resolves whatever else completes. */
  lemma {:induction false} RejectionHangsThePool<T, R>(items: seq<T>, task: T -> R, size: nat, evs: seq<Event>,
      more: seq<Event>, w: nat)
    requires w < |Run(items, task, size, evs).workers| && Run(items, task, size, evs).workers[w].job.Stuck?
    ensures var st := Run(items, task, size, evs + more);
      w < |st.workers| && st.workers[w].job.Stuck? && !Resolved(st)
    decreases |more|
  {
    if more == [] {
      assert evs + more == evs;
    } else {
      var all := evs + more;
      assert all[..|all| - 1] == evs + more[..|more| - 1];
      RejectionHangsThePool(items, task, size, evs, more[..|more| - 1], w);
    }
  }

  // How many workers still run a task.
  function Busy<R>(ws: seq<Worker<R>>): nat {
    if ws == [] then 0 else Busy(ws[..|ws| - 1]) + if ws[|ws| - 1].job.Running? then 1 else 0
  }

  lemma {:induction false} ReplaceBusy<R>(ws: seq<Worker<R>>, k: nat, w: Worker<R>)
    requires k < |ws|
    ensures Busy(ws[k := w]) + (if ws[k].job.Running? then 1 else 0) == Busy(ws) + if w.job.Running? then 1 else 0
    decreases |ws|
  {
    var n := |ws| - 1;
    if k == n {
      assert ws[k := w][..n] == ws[..n];
    } else {
      assert ws[k := w][..n] == ws[..n][k := w];
      ReplaceBusy(ws[..n], k, w);
    }
  }

  ghost predicate NoneStuck<R>(st: State<R>) { forall w :: 0 <= w < |st.workers| ==> !st.workers[w].job.Stuck? }

  lemma CompleteGetsCloser<T, R>(items: seq<T>, task: T -> R, st: State<R>, k: nat)
    requires k < |st.workers| && st.workers[k].job.Running? && st.workers[k].job.index < |items|
    ensures var st' := Step(items, task, st, Complete(k));
      && |st'.stack| + Busy(st'.workers) < |st.stack| + Busy(st.workers)
      && (NoneStuck(st) ==> NoneStuck(st'))
  {
    var w' := Step(items, task, st, Complete(k)).workers[k];
    ReplaceBusy(st.workers, k, w');
  }

  // Some task still runs, and completing it brings the pool closer to its end.
  lemma OneMoreTask<T, R>(items: seq<T>, task: T -> R, size: nat, evs: seq<Event>) returns (k: nat)
    requires NoneStuck(Run(items, task, size, evs)) && !Resolved(Run(items, task, size, evs))
    ensures var st, st' := Run(items, task, size, evs), Run(items, task, size, evs + [Complete(k)]);
      && |st'.stack| + Busy(st'.workers) < |st.stack| + Busy(st.workers)
      && NoneStuck(st')
  {
    var st := Run(items, task, size, evs);
    k :| k < |st.workers| && st.workers[k].job != Finished;
    RunKeepsInv(items, task, size, evs);
    InHandIsItem(|items|, st, k);
    CompleteGetsCloser(items, task, st, k);
    assert (evs + [Complete(k)])[..|evs|] == evs;
  }

  // Completing whatever still runs, one task after the other, ends with every worker finished.
  lemma {:induction false} Finish<T, R>(items: seq<T>, task: T -> R, size: nat, evs: seq<Event>)
      returns (more: seq<Event>)
    requires NoneStuck(Run(items, task, size, evs))
    ensures Resolved(Run(items, task, size, evs + more))
    decreases |Run(items, task, size, evs).stack| + Busy(Run(items, task, size, evs).workers)
  {
    if Resolved(Run(items, task, size, evs)) {
      more := [];
      assert evs + more == evs;
    } else {
      var k := OneMoreTask(items, task, size, evs);
      var rest := Finish(items, task, size, evs + [Complete(k)]);
      more := [Complete(k)] + rest;
      assert evs + more == evs + [Complete(k)] + rest;
    }
  }

  /** At every moment of every run the pool can still resolve exactly when no task was rejected so
      far. */
  lemma CanResolveIff<T, R>(items: seq<T>, task: T -> R, size: nat, evs: seq<Event>)
    ensures (exists more :: Resolved(Run(items, task, size, evs + more)))
       <==> NoneStuck(Run(items, task, size, evs))
  {
    var st := Run(items, task, size, evs);
    if NoneStuck(st) {
      var more := Finish(items, task, size, evs);
    } else if more :| Resolved(Run(items, task, size, evs + more)) {
      var w :| 0 <= w < |st.workers| && st.workers[w].job.Stuck?;
      RejectionHangsThePool(items, task, size, evs, more, w);
    }
  }

  /** Two items, two workers: one task is rejected, the other completes, and the pool hangs. */
  lemma OneOfTwoRejected(more: seq<Event>)
    ensures var evs := [Reject(0), Complete(1)];
      !Resolved(Run([3, 4], (x: int) => x, 2, evs + more))
  {
    var evs := [Reject(0), Complete(1)];
    var task := (x: int) => x;
    var start := Run<int, int>([3, 4], task, 2, []);
    assert Start<int>(2, 1).workers == [Worker(Running(1), [])] && Start<int>(2, 1).stack == [0];
    assert start.workers == [Worker(Running(1), []), Worker(Running(0), [])];
    assert evs[..1] == [Reject(0)] && [Reject(0)][..0] == [];
    assert Run([3, 4], task, 2, evs[..1]).workers[0].job == Stuck(1);
    RejectionHangsThePool([3, 4], task, 2, evs, more, 0);
  }

  /** Items are taken from the end: at every moment those not yet taken are the first ones. */
  lemma {:induction false} TakenFromTheEnd<T, R>(items: seq<T>, task: T -> R, size: nat, evs: seq<Event>)
    ensures var st := Run(items, task, size, evs);
      |st.stack| <= |items| && forall i :: 0 <= i < |st.stack| ==> st.stack[i] == i
    decreases |evs|
  {
    if evs == [] {
      StartTakesFromTheEnd<R>(|items|, size);
    } else {
      TakenFromTheEnd(items, task, size, evs[..|evs| - 1]);
    }
  }

  lemma {:induction false} StartTakesFromTheEnd<R>(n: nat, size: nat)
    ensures var st := Start<R>(n, size);
      |st.stack| == (if size <= n then n - size else 0) && forall i :: 0 <= i < |st.stack| ==> st.stack[i] == i
    decreases size
  {
    if size > 0 { StartTakesFromTheEnd<R>(n, size - 1); }
  }

  /** With no workers the pool resolves at once and runs nothing: right only if there is nothing. */
  lemma EmptyPoolRunsNothing<T, R>(items: seq<T>, task: T -> R, evs: seq<Event>)
    ensures var st := Run(items, task, 0, evs);
      && Resolved(st) && Output(st) == []
      && ((|Output(st)| == |items|) <==> items == [])
  {
  }

  // ---------- the pool ----------

  class Pool<T, R> {
    const items: seq<T>
    const task: T -> R
    var stack: seq<nat>
    var workers: seq<Worker<R>>

    function Current(): State<R> reads this { State(stack, workers) }

    constructor (items: seq<T>, task: T -> R, size: nat)
      ensures this.items == items && this.task == task
      ensures Current() == Start(|items|, size)
    {
      this.items, this.task := items, task;
      stack, workers := Range(|items|), [];
      new;
      for k := 0 to size
        invariant Current() == Start(|items|, k)
      {
        var w := Next([]);
        workers := workers + [w];
      }
    }

    method Next(notes: seq<Noted<R>>) returns (w: Worker<R>)
      modifies this`stack
      ensures (stack, w) == TakeNext(old(stack), notes)
    {
      if stack == [] { return Worker(Finished, notes); }
      var r := stack[|stack| - 1];
      stack := stack[..|stack| - 1];
      return Worker(Running(r), notes);
    }

    method OnComplete(k: nat)
      requires k < |workers| && workers[k].job.Running? && workers[k].job.index < |items|
      modifies this
      ensures Current() == Step(items, task, old(Current()), Complete(k))
    {
      var r := workers[k].job.index;
      var n := task(items[r]);
      var w := Next(workers[k].notes + [Noted(r, n)]);
      workers := workers[k := w];
    }

    method Collect() returns (out: seq<R>)
      ensures out == Output(Current())
    {
      var all := [];
      for k := 0 to |workers|
        invariant all == Notes(workers[..k])
      {
        assert workers[..k + 1][..k] == workers[..k];
        all := all + workers[k].notes;
      }
      assert workers[..|workers|] == workers;
      var sorted := SortBy(all, IndexKey());
      out := seq(|sorted|, i requires 0 <= i < |sorted| => sorted[i].result);
    }
  }
}

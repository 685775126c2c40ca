/**
  The undo and redo stacks of a controlled value, refining a timeline with a cursor.

  The hook does not own the value: `push` is called just before a change, and the owner then
  changes the value.  Snapshots are compared by value; a clone is the value itself here.
 */
module UndoableState {

  datatype State<T> = State(past: seq<T>, current: T, future: seq<T>)

  datatype Event<T> = Push | Change(value: T) | Undo | Redo

  function Trim<T>(s: seq<T>, limit: nat): seq<T> { if |s| > limit then s[1..] else s }

  function Step<T>(st: State<T>, ev: Event<T>, limit: nat): State<T> {
    match ev
    case Push => State(Trim(st.past + [st.current], limit), st.current, [])
    case Change(v) => st.(current := v)
    case Undo =>
      if st.past == [] then st
      else
        var n := |st.past| - 1;
        State(st.past[..n], st.past[n], st.future + [st.current])
    case Redo =>
      if st.future == [] then st
      else
        var n := |st.future| - 1;
        State(Trim(st.past + [st.current], limit), st.future[n], st.future[..n])
  }

  function Run<T>(st: State<T>, evs: seq<Event<T>>, limit: nat): State<T>
    decreases |evs|
  {
    if evs == [] then st
    else Step(Run(st, evs[..|evs| - 1], limit), evs[|evs| - 1], limit)
  }

  // ---------- the bound ----------

  predicate Bounded<T>(st: State<T>, limit: nat) { |st.past| + |st.future| <= limit }

  /** The two stacks together never hold more than `limit` snapshots, for any use of the hook; so
      redo never trims, and what it can redo it can undo again. */
  lemma {:induction false} StacksStayBounded<T>(st: State<T>, evs: seq<Event<T>>, limit: nat)
    requires Bounded(st, limit)
    ensures var r := Run(st, evs, limit);
      && Bounded(r, limit)
      && (r.future != [] ==> Trim(r.past + [r.current], limit) == r.past + [r.current])
    decreases |evs|
  {
    if evs != [] { StacksStayBounded(st, evs[..|evs| - 1], limit); }
  }

  /** Undo and redo are each other's inverse, value and both stacks included. */
  lemma UndoRedoInverse<T>(st: State<T>, limit: nat)
    requires Bounded(st, limit)
    ensures st.past != [] ==> Step(Step(st, Undo, limit), Redo, limit) == st
    ensures st.future != [] ==> Step(Step(st, Redo, limit), Undo, limit) == st
  {
  }

  // ---------- the timeline it refines ----------

  // All values in order of time, and which of them is the current one.
  datatype Timeline<T> = Timeline(values: seq<T>, cursor: nat) {
    predicate Valid() { cursor < |values| }
  }

  function Reverse<T>(s: seq<T>): (r: seq<T>)
    ensures |r| == |s| && forall i :: 0 <= i < |s| ==> r[i] == s[|s| - 1 - i]
  {
    if s == [] then [] else Reverse(s[1..]) + [s[0]]
  }

  function Abstract<T>(st: State<T>): (r: Timeline<T>)
    ensures r.Valid() && r.values[r.cursor] == st.current
  {
    Timeline(st.past + [st.current] + Reverse(st.future), |st.past|)
  }

  // Moving the cursor, changing the value under it, or starting a new end after it; a timeline
  // keeps at most `limit` values before the current one.
  function Move<T>(t: Timeline<T>, ev: Event<T>, limit: nat): Timeline<T>
    requires t.Valid()
  {
    match ev
    case Push =>
      var kept := t.values[..t.cursor + 1];
      if t.cursor + 1 > limit then Timeline(kept[1..] + [t.values[t.cursor]], t.cursor)
      else Timeline(kept + [t.values[t.cursor]], t.cursor + 1)
    case Change(v) => t.(values := t.values[t.cursor := v])
    case Undo => if t.cursor == 0 then t else t.(cursor := t.cursor - 1)
    case Redo => if t.cursor + 1 == |t.values| then t else t.(cursor := t.cursor + 1)
  }

  /** Every operation on the stacks is the operation on the timeline. */
  lemma StepRefinesMove<T>(st: State<T>, ev: Event<T>, limit: nat)
    requires Bounded(st, limit)
    ensures Abstract(Step(st, ev, limit)) == Move(Abstract(st), ev, limit)
  {
  }

  predicate IsTravel<T>(evs: seq<Event<T>>) { forall i :: 0 <= i < |evs| ==> evs[i].Undo? || evs[i].Redo? }

  /** Any mix of undos and redos only moves along the timeline; it loses and changes nothing. */
  lemma {:induction false} TravelKeepsTimeline<T>(st: State<T>, evs: seq<Event<T>>, limit: nat)
    requires Bounded(st, limit) && IsTravel(evs)
    ensures Abstract(Run(st, evs, limit)).values == Abstract(st).values
    decreases |evs|
  {
    if evs != [] {
      var n := |evs| - 1;
      TravelKeepsTimeline(st, evs[..n], limit);
      StacksStayBounded(st, evs[..n], limit);
      StepRefinesMove(Run(st, evs[..n], limit), evs[n], limit);
    }
  }

  // ---------- edits and their undoing ----------

  // Each edit pushes and then changes the value.
  function Edits<T>(st: State<T>, vs: seq<T>, limit: nat): State<T>
    decreases |vs|
  {
    if vs == [] then st
    else
      var n := |vs| - 1;
      Step(Step(Edits(st, vs[..n], limit), Push, limit), Change(vs[n]), limit)
  }

  function Undos<T>(st: State<T>, k: nat, limit: nat): State<T> {
    if k == 0 then st else Step(Undos(st, k - 1, limit), Undo, limit)
  }

  // The current value is the newest of `all`, and the past holds the `limit` values before it.
  ghost predicate HoldsLatest<T>(st: State<T>, all: seq<T>, limit: nat) {
    var n := |all| - 1;
    && n >= 0 && st.current == all[n]
    && |st.past| == (if n <= limit then n else limit)
    && st.past == all[n - |st.past|..n]
  }

  lemma EditKeepsTheLatest<T>(st: State<T>, all: seq<T>, v: T, limit: nat)
    requires HoldsLatest(st, all, limit)
    ensures HoldsLatest(Step(Step(st, Push, limit), Change(v), limit), all + [v], limit)
  {
    var n := |all| - 1;
    assert st.past + [st.current] == all[n - |st.past|..];
    var r := Step(Step(st, Push, limit), Change(v), limit);
    assert r.past == all[|all| - |r.past|..];
    assert (all + [v])[|all| - |r.past|..|all|] == all[|all| - |r.past|..];
  }

  lemma {:induction false} EditsKeepTheLatest<T>(st: State<T>, vs: seq<T>, limit: nat)
    requires Bounded(st, limit)
    ensures HoldsLatest(Edits(st, vs, limit), st.past + [st.current] + vs, limit)
    decreases |vs|
  {
    if vs != [] {
      var n := |vs| - 1;
      EditsKeepTheLatest(st, vs[..n], limit);
      EditKeepsTheLatest(Edits(st, vs[..n], limit), st.past + [st.current] + vs[..n], vs[n], limit);
      assert vs == vs[..n] + [vs[n]];
      assert st.past + [st.current] + vs[..n] + [vs[n]] == st.past + [st.current] + vs;
    }
  }

  lemma {:induction false} UndosPop<T>(st: State<T>, k: nat, limit: nat)
    requires k <= |st.past|
    ensures var r := Undos(st, k, limit);
      && r.past == st.past[..|st.past| - k]
      && r.current == if k == 0 then st.current else st.past[|st.past| - k]
  {
    if k > 0 { UndosPop(st, k - 1, limit); }
  }

  lemma HeldAt<T>(st: State<T>, all: seq<T>, limit: nat, k: nat)
    requires HoldsLatest(st, all, limit) && k <= |st.past|
    ensures (if k == 0 then st.current else st.past[|st.past| - k]) == all[|all| - 1 - k]
  {
  }

  /** After any use of the hook and any further edits `vs`, `k` undos bring back the value of `k`
      edits ago: one of `vs`, or of what could be undone before them.  That many undos are possible
      as are both kept by the limit and there to be undone. */
  lemma UndoRestoresEarlierValue<T>(start: T, evs: seq<Event<T>>, vs: seq<T>, k: nat, limit: nat)
    ensures var before := Run(State([], start, []), evs, limit);
      var st := Edits(before, vs, limit);
      var all := before.past + [before.current] + vs;
      && |st.past| == (if |all| - 1 <= limit then |all| - 1 else limit)
      && (k <= |st.past| ==> Undos(st, k, limit).current == all[|all| - 1 - k])
  {
    var before := Run(State([], start, []), evs, limit);
    var st := Edits(before, vs, limit);
    StacksStayBounded(State([], start, []), evs, limit);
    EditsKeepTheLatest(before, vs, limit);
    if k <= |st.past| {
      UndosPop(st, k, limit);
      HeldAt(st, before.past + [before.current] + vs, limit, k);
    }
  }

  // ---------- the hook ----------

  class UndoableHook<T> {
    var pastRef: seq<T>
    var futureRef: seq<T>
    var current: T
    var canUndo: bool
    var canRedo: bool
    const limit: nat

    function Current(): State<T> reads this { State(pastRef, current, futureRef) }

    predicate Valid() reads this {
      && Bounded(Current(), limit)
      && canUndo == (|pastRef| > 0) && canRedo == (|futureRef| > 0)
    }

    constructor (current: T, limit: nat)
      ensures Valid() && Current() == State([], current, []) && this.limit == limit
    {
      pastRef, futureRef, this.current, this.limit := [], [], current, limit;
      canUndo, canRedo := false, false;
    }

    method Recompute()
      modifies this`canUndo, this`canRedo
      ensures canUndo == (|pastRef| > 0) && canRedo == (|futureRef| > 0)
    {
      canUndo := |pastRef| > 0;
      canRedo := |futureRef| > 0;
    }

    // A snapshot on the undo stack; the oldest one goes when the stack is too deep.
    method SaveCurrent()
      modifies this`pastRef
      ensures pastRef == Trim(old(pastRef) + [current], limit)
    {
      pastRef := pastRef + [current];
      if |pastRef| > limit { pastRef := pastRef[1..]; }
    }

    method PushSnapshot()
      requires Valid()
      modifies this
      ensures Valid() && Current() == Step(old(Current()), Push, limit)
    {
      SaveCurrent();
      futureRef := [];
      Recompute();
    }

    method OnChange(v: T)
      requires Valid()
      modifies this`current
      ensures Valid() && Current() == Step(old(Current()), Change(v), limit)
    {
      current := v;
    }

    method UndoLast()
      requires Valid()
      modifies this
      ensures Valid() && Current() == Step(old(Current()), Undo, limit)
    {
      if |pastRef| == 0 { return; }
      var previous := pastRef[|pastRef| - 1];
      pastRef := pastRef[..|pastRef| - 1];
      futureRef := futureRef + [current];
      current := previous;
      Recompute();
    }

    method RedoLast()
      requires Valid()
      modifies this
      ensures Valid() && Current() == Step(old(Current()), Redo, limit)
    {
      if |futureRef| == 0 { return; }
      var next := futureRef[|futureRef| - 1];
      futureRef := futureRef[..|futureRef| - 1];
      SaveCurrent();
      current := next;
      Recompute();
    }
  }
}

/**
  The row-selection hook: a set of selected keys and an insertion-ordered, capped map of row
  snapshots that have to agree with each other.

  `setSelected(updater)` only queues the updater.  Updaters run later, one at a time and in the
  order they were queued; an eviction found while an updater runs queues one more updater behind
  everything already waiting.  `clear` and the reset effect empty the snapshot map at once but the
  selected set only when their queued updater runs.  `State` makes the queue explicit and `Step`
  covers every interleaving of calls with updater runs.
 */
module RowSelection {

  // A JavaScript Map: keys in insertion order, and the value of each key.
  datatype Snapshots<T> = Snapshots(order: seq<string>, items: map<string, T>) {
    ghost predicate Valid() {
      && Distinct(order)
      && (forall k :: k in order <==> k in items)
    }
  }

  datatype Row<T> = Row(key: string, item: T)

  // What a queued updater does to the selection when it runs.
  datatype Update<T> =
    | Toggle(key: string, item: T, selectable: bool)
    | SetTo(key: string, checked: bool, item: T, selectable: bool)
    | SelectAll(rows: seq<Row<T>>)
    | Evict(key: string)
    | Clear

  datatype State<T> = State(selected: set<string>, snaps: Snapshots<T>, queue: seq<Update<T>>)

  // A call of the public API (which queues), or the run of the oldest queued updater.
  datatype Event<T> =
    | CallToggle(key: string, item: T, selectable: bool)
    | CallSetTo(key: string, checked: bool, item: T, selectable: bool)
    | CallSelectAll(rows: seq<Row<T>>)
    | CallClear
    | RunNext

  ghost predicate Distinct<A>(s: seq<A>) {
    forall i, j :: 0 <= i < j < |s| ==> s[i] != s[j]
  }

  // ---------- the snapshot map ----------

  function Without(s: seq<string>, k: string): (r: seq<string>)
    ensures forall x :: x in r <==> x in s && x != k
    ensures |r| <= |s|
    ensures Distinct(s) ==> Distinct(r)
    ensures k !in s ==> r == s
  {
    if s == [] then []
    else if s[0] == k then Without(s[1..], k)
    else
      var t := Without(s[1..], k);
      assert s == [s[0]] + s[1..];
      assert Distinct(s) ==> Distinct(s[1..]) && s[0] !in t;
      [s[0]] + t
  }

  function Delete<T>(m: Snapshots<T>, k: string): Snapshots<T> {
    Snapshots(Without(m.order, k), m.items - {k})
  }

  function Put<T>(m: Snapshots<T>, k: string, item: T): Snapshots<T> {
    Snapshots(if k in m.items then m.order else m.order + [k], m.items[k := item])
  }

  // addSnapshot: the new map, and the keys (none or one) whose eviction it queues.
  function Add<T>(m: Snapshots<T>, k: string, item: T, cap: nat): (Snapshots<T>, seq<string>) {
    if k in m.items then (Put(m, k, item), [])
    else if |m.order| >= cap && m.order != [] then
      (Put(Delete(m, m.order[0]), k, item), [m.order[0]])
    else (Put(m, k, item), [])
  }

  function AddAll<T>(m: Snapshots<T>, rows: seq<Row<T>>, cap: nat): (Snapshots<T>, seq<string>)
    decreases |rows|
  {
    if rows == [] then (m, [])
    else
      var n := |rows| - 1;
      var (m1, e1) := AddAll(m, rows[..n], cap);
      var (m2, e2) := Add(m1, rows[n].key, rows[n].item, cap);
      (m2, e1 + e2)
  }

  function KeysOf<T>(rows: seq<Row<T>>): (ks: seq<string>)
    ensures |ks| == |rows| && forall i :: 0 <= i < |rows| ==> ks[i] == rows[i].key
  {
    seq(|rows|, i requires 0 <= i < |rows| => rows[i].key)
  }

  function Evictions<T>(keys: seq<string>): (q: seq<Update<T>>)
    ensures |q| == |keys| && forall i :: 0 <= i < |keys| ==> q[i] == Evict(keys[i])
  {
    seq(|keys|, i requires 0 <= i < |keys| => Evict(keys[i]))
  }

  function SetOf(s: seq<string>): set<string> { set k | k in s }

  // ---------- one updater, one event, whole runs ----------

  function Apply<T>(st: State<T>, u: Update<T>, cap: nat): State<T> {
    match u
    case Toggle(k, item, selectable) =>
      if k in st.selected then State(st.selected - {k}, Delete(st.snaps, k), st.queue)
      else if !selectable then st
      else
        var (m, e) := Add(st.snaps, k, item, cap);
        State(st.selected + {k}, m, st.queue + Evictions(e))
    case SetTo(k, checked, item, selectable) =>
      if checked == (k in st.selected) then st
      else if checked && !selectable then st
      else if checked then
        var (m, e) := Add(st.snaps, k, item, cap);
        State(st.selected + {k}, m, st.queue + Evictions(e))
      else State(st.selected - {k}, Delete(st.snaps, k), st.queue)
    case SelectAll(rows) =>
      var (m, e) := AddAll(st.snaps, rows, cap);
      State(st.selected + SetOf(KeysOf(rows)), m, st.queue + Evictions(e))
    case Evict(k) => st.(selected := st.selected - {k})
    case Clear => st.(selected := {})
  }

  function Step<T>(st: State<T>, ev: Event<T>, cap: nat): State<T> {
    match ev
    case CallToggle(k, item, ok) => st.(queue := st.queue + [Toggle(k, item, ok)])
    case CallSetTo(k, checked, item, ok) => st.(queue := st.queue + [SetTo(k, checked, item, ok)])
    case CallSelectAll(rows) => st.(queue := st.queue + [SelectAll(rows)])
    case CallClear => State(st.selected, Snapshots([], map[]), st.queue + [Clear])
    case RunNext =>
      if st.queue == [] then st
      else Apply(st.(queue := st.queue[1..]), st.queue[0], cap)
  }

  function Run<T>(st: State<T>, evs: seq<Event<T>>, cap: nat): State<T>
    decreases |evs|
  {
    if evs == [] then st
    else Step(Run(st, evs[..|evs| - 1], cap), evs[|evs| - 1], cap)
  }

  function Initial<T>(): State<T> { State({}, Snapshots([], map[]), []) }

  // selectedItems: the snapshots of the selected keys, in insertion order.
  function SelectedKeys(order: seq<string>, selected: set<string>): (r: seq<string>)
    ensures forall k :: k in r <==> k in order && k in selected
    ensures Distinct(order) ==> Distinct(r)
  {
    if order == [] then []
    else
      var n := |order| - 1;
      var t := SelectedKeys(order[..n], selected);
      assert order == order[..n] + [order[n]];
      if order[n] in selected then t + [order[n]] else t
  }

  // `ks` are the selected keys of `order`, taken from the places `at` in order.
  ghost predicate Located(order: seq<string>, selected: set<string>, ks: seq<string>, at: seq<nat>) {
    && |at| == |ks|
    && (forall q :: 0 <= q < |at| ==> at[q] < |order| && order[at[q]] == ks[q])
    && (forall q, r :: 0 <= q < r < |at| ==> at[q] < at[r])
    && (forall i: nat :: i < |order| && order[i] in selected ==> i in at)
  }

  lemma Locate(order: seq<string>, selected: set<string>, ks: seq<string>, at: seq<nat>)
    requires order != []
    requires var n := |order| - 1;
      var k := order[n];
      if k !in selected then Located(order[..n], selected, ks, at)
      else ks != [] && at != [] && ks[|ks| - 1] == k && at[|at| - 1] == n
           && Located(order[..n], selected, ks[..|ks| - 1], at[..|at| - 1])
    ensures Located(order, selected, ks, at)
  {
    var n := |order| - 1;
    if order[n] in selected {
      var m := |at| - 1;
      assert at == at[..m] + [n] && ks == ks[..|ks| - 1] + [order[n]];
      forall q | 0 <= q < m ensures at[q] < n && order[at[q]] == ks[q] { assert at[..m][q] == at[q]; }
      forall i: nat | i < n && order[i] in selected ensures i in at { assert order[..n][i] in selected; }
    }
  }

  lemma {:induction false} SelectedKeysInOrder(order: seq<string>, selected: set<string>) returns (at: seq<nat>)
    ensures Located(order, selected, SelectedKeys(order, selected), at)
  {
    at := [];
    if order != [] {
      var n := |order| - 1;
      at := SelectedKeysInOrder(order[..n], selected);
      if order[n] in selected { at := at + [n]; }
      Locate(order, selected, SelectedKeys(order, selected), at);
    }
  }

  // ---------- safety over every run ----------

  // A queued updater that will drop `k` from the selection.
  ghost predicate WillDrop<T>(queue: seq<Update<T>>, k: string) {
    Evict(k) in queue || Clear in queue
  }

  function Cap(cap: nat): nat { if cap == 0 then 1 else cap }

  ghost predicate Inv<T>(st: State<T>, cap: nat) {
    && st.snaps.Valid()
    && |st.snaps.order| <= Cap(cap)
    && forall k :: k in st.selected ==> k in st.snaps.items || WillDrop(st.queue, k)
  }

  lemma WithoutFirst(s: seq<string>)
    requires s != [] && Distinct(s)
    ensures Without(s, s[0]) == s[1..]
  {
    assert s[0] !in s[1..];
  }

  lemma PutKeepsMap<T>(m: Snapshots<T>, k: string, item: T)
    requires m.Valid()
    ensures Put(m, k, item).Valid()
    ensures Put(m, k, item).items.Keys == m.items.Keys + {k}
  {
    forall x | x in Put(m, k, item).order ensures x in Put(m, k, item).items {
      assert x in m.order || x == k;
    }
    if k !in m.items { assert (m.order + [k])[|m.order|] == k; }
    forall x | x in m.order ensures x in Put(m, k, item).order {
      var i :| 0 <= i < |m.order| && m.order[i] == x;
      assert Put(m, k, item).order[i] == x;
    }
  }

  lemma DropOldest<T>(m: Snapshots<T>)
    requires m.Valid() && m.order != []
    ensures Delete(m, m.order[0]).Valid()
    ensures Delete(m, m.order[0]).order == m.order[1..]
  {
    WithoutFirst(m.order);
  }

  lemma AddKeepsMap<T>(m: Snapshots<T>, k: string, item: T, cap: nat)
    requires m.Valid() && |m.order| <= Cap(cap)
    ensures var (m', e) := Add(m, k, item, cap);
      && m'.Valid() && |m'.order| <= Cap(cap)
      && k in m'.items && m'.items[k] == item
      && forall x :: x in m.items ==> x in m'.items || x in e
    ensures var (m', e) := Add(m, k, item, cap);
      if k in m.items then m'.order == m.order && e == []
      else |e| <= 1 && e + m'.order == m.order + [k] && (e != [] <==> |m.order| >= cap && m.order != [])
  {
    if k !in m.items && |m.order| >= cap && m.order != [] {
      DropOldest(m);
      PutKeepsMap(Delete(m, m.order[0]), k, item);
      assert m.order == [m.order[0]] + m.order[1..];
    } else {
      PutKeepsMap(m, k, item);
    }
  }

  lemma KeysOfSplit<T>(rows: seq<Row<T>>)
    requires rows != []
    ensures var n := |rows| - 1; KeysOf(rows) == KeysOf(rows[..n]) + [rows[n].key]
    ensures var n := |rows| - 1; SetOf(KeysOf(rows)) == SetOf(KeysOf(rows[..n])) + {rows[n].key}
  {
    var n := |rows| - 1;
    assert KeysOf(rows) == KeysOf(rows[..n]) + [rows[n].key];
  }

  lemma AddAllNext<T>(m: Snapshots<T>, rows: seq<Row<T>>, i: nat, cap: nat)
    requires i < |rows|
    ensures var (m1, e1) := AddAll(m, rows[..i], cap);
      var (m2, e2) := Add(m1, rows[i].key, rows[i].item, cap);
      AddAll(m, rows[..i + 1], cap) == (m2, e1 + e2)
    ensures SetOf(KeysOf(rows[..i + 1])) == SetOf(KeysOf(rows[..i])) + {rows[i].key}
  {
    assert rows[..i + 1][..i] == rows[..i];
    KeysOfSplit(rows[..i + 1]);
  }

  lemma {:induction false} AddAllKeepsMap<T>(m: Snapshots<T>, rows: seq<Row<T>>, cap: nat)
    requires m.Valid() && |m.order| <= Cap(cap)
    ensures var (m', e) := AddAll(m, rows, cap);
      && m'.Valid() && |m'.order| <= Cap(cap)
      && (forall x :: x in m.items || x in KeysOf(rows) ==> x in m'.items || x in e)
    decreases |rows|
  {
    if rows != [] {
      var n := |rows| - 1;
      AddAllKeepsMap(m, rows[..n], cap);
      var (m1, e1) := AddAll(m, rows[..n], cap);
      AddKeepsMap(m1, rows[n].key, rows[n].item, cap);
      KeysOfSplit(rows);
    }
  }

  lemma StepKeepsInv<T>(st: State<T>, ev: Event<T>, cap: nat)
    requires Inv(st, cap)
    ensures Inv(Step(st, ev, cap), cap)
  {
    var st' := Step(st, ev, cap);
    if ev.RunNext? && st.queue != [] {
      var u, rest := st.queue[0], st.queue[1..];
      assert st.queue == [u] + rest;
      match u
      case Toggle(k, item, _) =>
        AddKeepsMap(st.snaps, k, item, cap);
        KeptOrDropped(st, st', if k in st.selected || !u.selectable then [] else Add(st.snaps, k, item, cap).1);
      case SetTo(k, checked, item, _) =>
        AddKeepsMap(st.snaps, k, item, cap);
        var adds := k !in st.selected && checked && u.selectable;
        KeptOrDropped(st, st', if adds then Add(st.snaps, k, item, cap).1 else []);
      case SelectAll(rows) =>
        AddAllKeepsMap(st.snaps, rows, cap);
        KeptOrDropped(st, st', AddAll(st.snaps, rows, cap).1);
      case Evict(k) =>
        assert Evict(k) !in rest ==> forall x :: x != k && WillDrop(st.queue, x) ==> WillDrop(rest, x);
      case Clear =>
    } else {
      forall k | k in st'.selected ensures k in st'.snaps.items || WillDrop(st'.queue, k) {
        if WillDrop(st.queue, k) {
          assert st'.queue == st.queue || st'.queue[..|st.queue|] == st.queue;
        }
        if ev.CallClear? { assert st'.queue[|st.queue|] == Clear; }
      }
    }
  }

  // The queue of `st'` is the rest of the queue of `st` followed by the evictions `e`.
  lemma KeptOrDropped<T>(st: State<T>, st': State<T>, e: seq<string>)
    requires st.queue != [] && !st.queue[0].Evict? && !st.queue[0].Clear?
    requires st'.queue == st.queue[1..] + Evictions(e)
    ensures forall k :: WillDrop(st.queue, k) || k in e ==> WillDrop(st'.queue, k)
  {
    forall k | WillDrop(st.queue, k) || k in e ensures WillDrop(st'.queue, k) {
      if k in e {
        var i :| 0 <= i < |e| && e[i] == k;
        assert Evictions<T>(e)[i] == Evict(k);
        assert st'.queue[|st.queue| - 1 + i] == Evict(k);
      } else {
        var u: Update<T> :| u in st.queue && (u == Evict(k) || u == Clear);
        var i :| 0 <= i < |st.queue| && st.queue[i] == u;
        assert st'.queue[i - 1] == u;
      }
    }
  }

  lemma {:induction false} RunKeepsInv<T>(evs: seq<Event<T>>, cap: nat)
    ensures Inv(Run(Initial<T>(), evs, cap), cap)
    decreases |evs|
  {
    if evs != [] {
      RunKeepsInv(evs[..|evs| - 1], cap);
      StepKeepsInv(Run(Initial<T>(), evs[..|evs| - 1], cap), evs[|evs| - 1], cap);
    }
  }

  lemma {:induction false} DistinctCount(s: seq<string>)
    requires Distinct(s)
    ensures |SetOf(s)| == |s|
  {
    if s != [] {
      var n := |s| - 1;
      DistinctCount(s[..n]);
      assert SetOf(s) == SetOf(s[..n]) + {s[n]};
      assert s[n] !in s[..n];
    }
  }

  /** Once nothing is queued, after any run in any batching: every selected key has a snapshot,
      the cap holds (a cap of 0 behaves as 1), and `selectedItems` has exactly `count` entries. */
  lemma DrainedSelectionIsConsistent<T>(evs: seq<Event<T>>, cap: nat)
    requires Run(Initial<T>(), evs, cap).queue == []
    ensures var st := Run(Initial<T>(), evs, cap);
      && st.selected <= st.snaps.items.Keys
      && |st.snaps.order| <= Cap(cap)
      && Distinct(SelectedKeys(st.snaps.order, st.selected))
      && SetOf(SelectedKeys(st.snaps.order, st.selected)) == st.selected
      && |SelectedKeys(st.snaps.order, st.selected)| == |st.selected|
  {
    RunKeepsInv(evs, cap);
    var st := Run(Initial<T>(), evs, cap);
    var ks := SelectedKeys(st.snaps.order, st.selected);
    assert SetOf(ks) == st.selected;
    DistinctCount(ks);
  }

  // ---------- draining the queue ----------

  function Weight<T>(q: seq<Update<T>>): nat {
    if q == [] then 0
    else (match q[0]
          case Toggle(_, _, _) => 2
          case SetTo(_, _, _, _) => 2
          case SelectAll(rows) => 1 + |rows|
          case Evict(_) => 1
          case Clear => 1) + Weight(q[1..])
  }

  lemma {:induction false} WeightOfEvictions<T>(q: seq<Update<T>>, e: seq<string>)
    ensures Weight(q + Evictions(e)) == Weight(q) + |e|
    decreases |q| + |e|
  {
    if q != [] {
      assert (q + Evictions(e))[1..] == q[1..] + Evictions(e);
      WeightOfEvictions(q[1..], e);
    } else if e != [] {
      assert q + Evictions(e) == Evictions(e);
      assert Evictions<T>(e)[1..] == Evictions(e[1..]);
      WeightOfEvictions(q, e[1..]);
      assert q + Evictions(e[1..]) == Evictions(e[1..]);
    }
  }

  lemma {:induction false} AtMostOneEvictionPerRow<T>(m: Snapshots<T>, rows: seq<Row<T>>, cap: nat)
    ensures |AddAll(m, rows, cap).1| <= |rows|
    decreases |rows|
  {
    if rows != [] { AtMostOneEvictionPerRow(m, rows[..|rows| - 1], cap); }
  }

  lemma EvictionsConcat<T>(q: seq<Update<T>>, e1: seq<string>, e2: seq<string>)
    ensures (q + Evictions(e1)) + Evictions(e2) == q + Evictions(e1 + e2)
  {
  }

  lemma RunNextGetsLighter<T>(st: State<T>, cap: nat)
    requires st.queue != []
    ensures Weight(Step(st, RunNext, cap).queue) < Weight(st.queue)
  {
    var rest := st.queue[1..];
    match st.queue[0]
    case Toggle(k, item, _) => WeightOfEvictions(rest, Add(st.snaps, k, item, cap).1);
    case SetTo(k, _, item, _) => WeightOfEvictions(rest, Add(st.snaps, k, item, cap).1);
    case SelectAll(rows) =>
      WeightOfEvictions(rest, AddAll(st.snaps, rows, cap).1);
      AtMostOneEvictionPerRow(st.snaps, rows, cap);
    case Evict(_) =>
    case Clear =>
  }

  /** Running updaters until none is queued; the evictions they queue cannot go on for ever. */
  function Drain<T>(st: State<T>, cap: nat): (r: State<T>)
    ensures r.queue == []
    decreases Weight(st.queue)
  {
    if st.queue == [] then st
    else
      RunNextGetsLighter(st, cap);
      Drain(Step(st, RunNext, cap), cap)
  }

  lemma {:induction false} DrainEvictions<T>(st: State<T>, e: seq<string>, cap: nat)
    requires st.queue == Evictions(e)
    ensures Drain(st, cap) == State(st.selected - SetOf(e), st.snaps, [])
    decreases |e|
  {
    if e == [] {
      assert st.selected - SetOf(e) == st.selected;
    } else {
      assert Evictions<T>(e)[1..] == Evictions(e[1..]);
      DrainEvictions(Step(st, RunNext, cap), e[1..], cap);
      assert SetOf(e) == {e[0]} + SetOf(e[1..]);
    }
  }

  lemma {:induction false} DrainKeepsInv<T>(st: State<T>, cap: nat)
    requires Inv(st, cap)
    ensures Inv(Drain(st, cap), cap)
    decreases Weight(st.queue)
  {
    if st.queue != [] {
      RunNextGetsLighter(st, cap);
      StepKeepsInv(st, RunNext, cap);
      DrainKeepsInv(Step(st, RunNext, cap), cap);
    }
  }

  // A state between renders: nothing queued.
  ghost predicate AtRest<T>(st: State<T>, cap: nat) { Inv(st, cap) && st.queue == [] }

  function Settle<T>(st: State<T>, ev: Event<T>, cap: nat): State<T> {
    Drain(Step(st, ev, cap), cap)
  }

  lemma OneUpdaterThenEvictions<T>(st: State<T>, u: Update<T>, e: seq<string>, cap: nat)
    requires st.queue == [u]
    requires Apply(st.(queue := []), u, cap).queue == Evictions(e)
    ensures var st' := Apply(st.(queue := []), u, cap);
      Drain(st, cap) == State(st'.selected - SetOf(e), st'.snaps, [])
  {
    assert st.queue[1..] == [];
    DrainEvictions(Apply(st.(queue := []), u, cap), e, cap);
  }

  // ---------- what each call does, once settled ----------

  /** A toggle flips its own key (when it may), stores the row, and touches no other key except
      that a full map gives up its oldest one.  */
  lemma ToggleEffect<T>(st: State<T>, k: string, item: T, selectable: bool, cap: nat)
    requires AtRest(st, cap) && cap >= 1
    ensures var r := Settle(st, CallToggle(k, item, selectable), cap);
      var evicts := k !in st.selected && selectable && k !in st.snaps.items && |st.snaps.order| == cap;
      && AtRest(r, cap)
      && (k in r.selected <==> k !in st.selected && selectable)
      && (k in r.selected ==> k in r.snaps.items && r.snaps.items[k] == item)
      && (forall x :: x != k ==>
            (x in r.selected <==> x in st.selected && !(evicts && x == st.snaps.order[0])))
      && (k in st.selected ==> k !in r.snaps.items)
      && (k !in st.selected && !selectable ==> r == st)
      && (forall x :: x != k ==>
            (x in r.snaps.items <==> x in st.snaps.items && !(evicts && x == st.snaps.order[0])))
      && (forall x :: x != k && x in r.snaps.items ==> r.snaps.items[x] == st.snaps.items[x])
  {
    ToggleSettles(st, k, item, selectable, cap);
    AddKeepsMap(st.snaps, k, item, cap);
    var e := if k in st.selected || !selectable then [] else Add(st.snaps, k, item, cap).1;
    if e != [] {
      assert e == [st.snaps.order[0]] && SetOf(e) == {st.snaps.order[0]};
      assert st.snaps.order[0] in st.snaps.items;
    }
  }

  lemma ToggleSettles<T>(st: State<T>, k: string, item: T, selectable: bool, cap: nat)
    requires AtRest(st, cap)
    ensures var r := Settle(st, CallToggle(k, item, selectable), cap);
      var run := Apply(st, Toggle(k, item, selectable), cap);
      var e := if k in st.selected || !selectable then [] else Add(st.snaps, k, item, cap).1;
      AtRest(r, cap) && r == State(run.selected - SetOf(e), run.snaps, [])
  {
    var st1 := Step(st, CallToggle(k, item, selectable), cap);
    StepKeepsInv(st, CallToggle(k, item, selectable), cap);
    DrainKeepsInv(st1, cap);
    assert st1.queue == [Toggle(k, item, selectable)] && st1.(queue := []) == st;
    var e := if k in st.selected || !selectable then [] else Add(st.snaps, k, item, cap).1;
    assert Apply(st, st1.queue[0], cap).queue == Evictions(e);
    OneUpdaterThenEvictions(st1, st1.queue[0], e, cap);
  }

  /** `setSelected(key, checked)` leaves the key exactly as asked (a row that may not be selected
      stays unselected), and setting a key to the value it has changes nothing at all. */
  lemma SetToEffect<T>(st: State<T>, k: string, checked: bool, item: T, selectable: bool, cap: nat)
    requires AtRest(st, cap) && cap >= 1
    ensures var r := Settle(st, CallSetTo(k, checked, item, selectable), cap);
      && (k in r.selected <==> checked && (k in st.selected || selectable))
      && (checked == (k in st.selected) ==> r == st)
      && (k in r.selected && k !in st.selected ==> k in r.snaps.items && r.snaps.items[k] == item)
      && (k !in r.selected && k in st.selected ==> k !in r.snaps.items)
      && var evicts := checked && selectable && k !in st.selected && k !in st.snaps.items && |st.snaps.order| == cap;
         && (forall x :: x != k ==>
               (x in r.selected <==> x in st.selected && !(evicts && x == st.snaps.order[0])))
         && (forall x :: x != k ==>
               (x in r.snaps.items <==> x in st.snaps.items && !(evicts && x == st.snaps.order[0])))
         && (forall x :: x != k && x in r.snaps.items ==> r.snaps.items[x] == st.snaps.items[x])
  {
    SetToSettles(st, k, checked, item, selectable, cap);
    AddKeepsMap(st.snaps, k, item, cap);
    var e := if checked == (k in st.selected) || !checked || !selectable then []
             else Add(st.snaps, k, item, cap).1;
    if e != [] {
      assert e == [st.snaps.order[0]] && SetOf(e) == {st.snaps.order[0]};
      assert st.snaps.order[0] in st.snaps.items;
    } else {
      assert SetOf(e) == {};
    }
  }

  lemma SetToSettles<T>(st: State<T>, k: string, checked: bool, item: T, selectable: bool, cap: nat)
    requires AtRest(st, cap)
    ensures var r := Settle(st, CallSetTo(k, checked, item, selectable), cap);
      var run := Apply(st, SetTo(k, checked, item, selectable), cap);
      var e := if checked == (k in st.selected) || !checked || !selectable then []
               else Add(st.snaps, k, item, cap).1;
      r == State(run.selected - SetOf(e), run.snaps, [])
  {
    var st1 := Step(st, CallSetTo(k, checked, item, selectable), cap);
    assert st1.queue == [SetTo(k, checked, item, selectable)] && st1.(queue := []) == st;
    var e := if checked == (k in st.selected) || !checked || !selectable then []
             else Add(st.snaps, k, item, cap).1;
    assert Apply(st, st1.queue[0], cap).queue == Evictions(e);
    OneUpdaterThenEvictions(st1, st1.queue[0], e, cap);
  }

  lemma {:induction false} EvictionsSelectNothing<T>(st: State<T>, cap: nat)
    requires st.selected == {} && forall j :: 0 <= j < |st.queue| ==> st.queue[j].Evict?
    ensures Drain(st, cap).selected == {}
    decreases Weight(st.queue)
  {
    if st.queue != [] {
      RunNextGetsLighter(st, cap);
      EvictionsSelectNothing(Step(st, RunNext, cap), cap);
    }
  }

  /** A clear, or a reset, wins over everything called before it, however much of that is still
      queued and whatever it evicts on the way. */
  lemma {:induction false} ClearWins<T>(st: State<T>, i: nat, cap: nat)
    requires i < |st.queue| && st.queue[i] == Clear && forall j :: i < j < |st.queue| ==> st.queue[j].Evict?
    ensures Drain(st, cap).selected == {}
    decreases Weight(st.queue)
  {
    RunNextGetsLighter(st, cap);
    var next := Step(st, RunNext, cap);
    if i == 0 {
      EvictionsSelectNothing(next, cap);
    } else {
      RunNextAppends(st, cap);
      assert next.queue[i - 1] == Clear;
      ClearWins(next, i - 1, cap);
    }
  }

  /** A clear on a settled selection leaves the hook as it began, snapshots included. */
  lemma ClearLeavesNothing<T>(st: State<T>, cap: nat)
    requires AtRest(st, cap)
    ensures Settle(st, CallClear, cap) == Initial()
  {
    var st1 := Step(st, CallClear, cap);
    assert Apply(st1.(queue := []), Clear, cap).queue == Evictions<T>([]);
    OneUpdaterThenEvictions(st1, Clear, [], cap);
    assert {} - SetOf([]) == {};
  }

  // Running an updater only adds evictions at the end of the queue.
  lemma RunNextAppends<T>(st: State<T>, cap: nat)
    requires st.queue != []
    ensures var q := Step(st, RunNext, cap).queue;
      && |q| >= |st.queue| - 1 && q[..|st.queue| - 1] == st.queue[1..]
      && forall j :: |st.queue| - 1 <= j < |q| ==> q[j].Evict?
  {
  }

  // ---------- when select-all-on-page really selects the page ----------

  // The keys `AddAll` inserts, in order; an update in place inserts nothing and moves nothing.
  ghost function Inserted<T>(m: Snapshots<T>, rows: seq<Row<T>>, cap: nat): seq<string>
    decreases |rows|
  {
    if rows == [] then []
    else
      var n := |rows| - 1;
      Inserted(m, rows[..n], cap) +
      (if rows[n].key in AddAll(m, rows[..n], cap).0.items then [] else [rows[n].key])
  }

  // Evictions are first-in first-out: what was evicted followed by what is left is everything
  // that was ever inserted, in insertion order.
  lemma {:induction false} FirstInFirstOut<T>(m: Snapshots<T>, rows: seq<Row<T>>, cap: nat)
    requires m.Valid() && 1 <= cap && |m.order| <= cap
    ensures var (m', e) := AddAll(m, rows, cap);
      && e + m'.order == m.order + Inserted(m, rows, cap)
      && |m'.order| <= cap && (e != [] ==> |m'.order| == cap)
    decreases |rows|
  {
    if rows != [] {
      var n := |rows| - 1;
      FirstInFirstOut(m, rows[..n], cap);
      AddAllKeepsMap(m, rows[..n], cap);
      var (m1, e1) := AddAll(m, rows[..n], cap);
      FirstInFirstOutStep(m1, rows[n], cap, m.order, Inserted(m, rows[..n], cap), e1);
    }
  }

  lemma Assoc(a: seq<string>, b: seq<string>, c: seq<string>)
    ensures (a + b) + c == a + (b + c)
  {
  }

  lemma FirstInFirstOutStep<T>(m: Snapshots<T>, row: Row<T>, cap: nat, order: seq<string>, ins: seq<string>,
      e: seq<string>)
    requires m.Valid() && 1 <= cap && |m.order| <= cap && (e != [] ==> |m.order| == cap)
    requires e + m.order == order + ins
    ensures var (m', e') := Add(m, row.key, row.item, cap);
      && (e + e') + m'.order == order + (ins + if row.key in m.items then [] else [row.key])
      && |m'.order| <= cap && (e + e' != [] ==> |m'.order| == cap)
  {
    var (m', e') := Add(m, row.key, row.item, cap);
    AddKeepsMap(m, row.key, row.item, cap);
    if row.key in m.items {
      assert e + e' == e && ins + [] == ins;
    } else {
      Assoc(e, e', m'.order);
      Assoc(e, m.order, [row.key]);
      Assoc(order, ins, [row.key]);
      assert |e'| + |m'.order| == |m.order| + 1;
    }
  }

  lemma {:induction false} FreshKeysAreInserted<T>(m: Snapshots<T>, rows: seq<Row<T>>, cap: nat)
    requires m.Valid() && 1 <= cap && |m.order| <= cap
    ensures forall k :: k in SetOf(KeysOf(rows)) && k !in m.items ==> k in Inserted(m, rows, cap)
    decreases |rows|
  {
    if rows != [] {
      var n := |rows| - 1;
      KeysOfSplit(rows);
      FreshKeysAreInserted(m, rows[..n], cap);
      var m1 := AddAll(m, rows[..n], cap).0;
      if rows[n].key in m1.items && rows[n].key !in m.items {
        FirstInFirstOut(m, rows[..n], cap);
        AddAllKeepsMap(m, rows[..n], cap);
        assert rows[n].key in AddAll(m, rows[..n], cap).1 + m1.order;
        assert rows[n].key in Inserted(m, rows[..n], cap);
      }
    }
  }

  function Fresh<T>(m: Snapshots<T>, rows: seq<Row<T>>): set<string> {
    SetOf(KeysOf(rows)) - m.items.Keys
  }

  // How many entries the page pushes out of the map if none of its own keys is pushed out.
  function Overflow<T>(m: Snapshots<T>, rows: seq<Row<T>>, cap: nat): nat {
    var n := |m.order| + |Fresh(m, rows)|;
    if n <= cap then 0 else n - cap
  }

  // What a caller can check beforehand: the new keys fit in the map at all, and none of the
  // oldest entries that have to go belongs to the page.
  predicate PageFits<T>(m: Snapshots<T>, rows: seq<Row<T>>, cap: nat) {
    && |Fresh(m, rows)| <= cap
    && forall i :: 0 <= i < Overflow(m, rows, cap) && i < |m.order| ==> m.order[i] !in SetOf(KeysOf(rows))
  }

  lemma SubsetCount(a: set<string>, b: set<string>)
    requires a <= b
    ensures |a| <= |b|
  {
    assert b == a + (b - a);
  }

  lemma {:induction false} CountAtMostLength(s: seq<string>)
    ensures |SetOf(s)| <= |s|
  {
    if s != [] {
      CountAtMostLength(s[1..]);
      assert SetOf(s) == {s[0]} + SetOf(s[1..]);
    }
  }

  // While only foreign keys are evicted, a page key is inserted once and stays.
  lemma {:induction false} PageKeysStay<T>(m: Snapshots<T>, rows: seq<Row<T>>, cap: nat, page: set<string>, over: nat)
    requires m.Valid() && 1 <= cap && |m.order| <= cap
    requires SetOf(KeysOf(rows)) <= page
    requires over <= |m.order| && |m.order| + |page - m.items.Keys| - cap <= over
    requires forall i :: 0 <= i < over ==> m.order[i] !in page
    ensures forall k :: k in AddAll(m, rows, cap).1 ==> k !in page
    ensures Distinct(Inserted(m, rows, cap)) && SetOf(Inserted(m, rows, cap)) <= page - m.items.Keys
    decreases |rows|
  {
    var ins := Inserted(m, rows, cap);
    if rows != [] {
      var n := |rows| - 1;
      KeysOfSplit(rows);
      PageKeysStay(m, rows[..n], cap, page, over);
      InsertedOnce(m, rows, cap, page);
    }
    DistinctCount(ins);
    SubsetCount(SetOf(ins), page - m.items.Keys);
    FirstInFirstOut(m, rows, cap);
    EvictedAreOldest(m, rows, cap, over);
  }

  lemma InsertedOnce<T>(m: Snapshots<T>, rows: seq<Row<T>>, cap: nat, page: set<string>)
    requires m.Valid() && 1 <= cap && |m.order| <= cap && rows != []
    requires var n := |rows| - 1;
      && rows[n].key in page
      && (forall k :: k in AddAll(m, rows[..n], cap).1 ==> k !in page)
      && Distinct(Inserted(m, rows[..n], cap))
      && SetOf(Inserted(m, rows[..n], cap)) <= page - m.items.Keys
    ensures Distinct(Inserted(m, rows, cap)) && SetOf(Inserted(m, rows, cap)) <= page - m.items.Keys
  {
    var n := |rows| - 1;
    var k := rows[n].key;
    var (m1, e1) := AddAll(m, rows[..n], cap);
    var ins1 := Inserted(m, rows[..n], cap);
    if k !in m1.items {
      AddAllKeepsMap(m, rows[..n], cap);
      FirstInFirstOut(m, rows[..n], cap);
      assert k !in e1 + m1.order;
      NotInConcat(m.order, ins1, k);
      DistinctSnoc(ins1, k);
    }
  }

  lemma NotInConcat(a: seq<string>, b: seq<string>, k: string)
    requires k !in a + b
    ensures k !in a && k !in b
  {
    assert forall i :: 0 <= i < |a| ==> (a + b)[i] == a[i];
    assert forall i :: 0 <= i < |b| ==> (a + b)[|a| + i] == b[i];
  }

  lemma DistinctSnoc(s: seq<string>, k: string)
    requires Distinct(s) && k !in s
    ensures Distinct(s + [k]) && SetOf(s + [k]) == SetOf(s) + {k}
  {
  }

  lemma EvictedAreOldest<T>(m: Snapshots<T>, rows: seq<Row<T>>, cap: nat, over: nat)
    requires m.Valid() && 1 <= cap && |m.order| <= cap && over <= |m.order|
    requires |m.order| + |Inserted(m, rows, cap)| - cap <= over
    ensures forall k :: k in AddAll(m, rows, cap).1 ==> k in m.order[..over]
  {
    var (m', e) := AddAll(m, rows, cap);
    var ins := Inserted(m, rows, cap);
    FirstInFirstOut(m, rows, cap);
    assert |e| + |m'.order| == |m.order| + |ins|;
    forall k | k in e ensures k in m.order[..over] {
      var i :| 0 <= i < |e| && e[i] == k;
      assert (e + m'.order)[i] == (m.order + ins)[i];
    }
  }

  lemma SelectAllSettles<T>(st: State<T>, rows: seq<Row<T>>, cap: nat)
    requires AtRest(st, cap)
    ensures var r := Settle(st, CallSelectAll(rows), cap);
      && AtRest(r, cap)
      && r.snaps == AddAll(st.snaps, rows, cap).0
      && r.selected == (st.selected + SetOf(KeysOf(rows))) - SetOf(AddAll(st.snaps, rows, cap).1)
  {
    var st1 := Step(st, CallSelectAll(rows), cap);
    StepKeepsInv(st, CallSelectAll(rows), cap);
    DrainKeepsInv(st1, cap);
    var e := AddAll(st.snaps, rows, cap).1;
    assert st1.queue == [SelectAll(rows)];
    assert Apply(st1.(queue := []), st1.queue[0], cap).queue == Evictions(e);
    OneUpdaterThenEvictions(st1, st1.queue[0], e, cap);
  }

  /** `selectAllOnPage` promises to select every selectable row of the page.  It does exactly when
      the page fits: otherwise at least one row of that page ends up unselected. */
  lemma SelectAllOnPageSelectsPage<T>(st: State<T>, rows: seq<Row<T>>, cap: nat)
    requires AtRest(st, cap) && cap >= 1
    ensures SetOf(KeysOf(rows)) <= Settle(st, CallSelectAll(rows), cap).selected
        <==> PageFits(st.snaps, rows, cap)
  {
    var m := st.snaps;
    var page := SetOf(KeysOf(rows));
    var r := Settle(st, CallSelectAll(rows), cap);
    var (m', e) := AddAll(m, rows, cap);
    var ins := Inserted(m, rows, cap);
    var over := Overflow(m, rows, cap);
    SelectAllSettles(st, rows, cap);
    if PageFits(m, rows, cap) {
      PageKeysStay(m, rows, cap, page, over);
    } else {
      FirstInFirstOut(m, rows, cap);
      FreshKeysAreInserted(m, rows, cap);
      CountAtMostLength(ins);
      SubsetCount(Fresh(m, rows), SetOf(ins));
      assert |e| + |m'.order| == |m.order| + |ins|;
      if |Fresh(m, rows)| > cap {
        if page <= r.selected {
          assert page <= SetOf(m'.order);
          CountAtMostLength(m'.order);
          SubsetCount(Fresh(m, rows), SetOf(m'.order));
        }
      } else {
        var i :| 0 <= i < over && i < |m.order| && m.order[i] in page;
        assert (e + m'.order)[i] == (m.order + ins)[i];
        assert e[i] == m.order[i];
      }
    }
  }

  // The same condition written out for a set of keys: the new ones fit under the cap, and none of
  // the oldest entries that have to make room is among the keys.
  ghost predicate KeysFit<T>(m: Snapshots<T>, keys: set<string>, cap: nat) {
    && |keys - m.items.Keys| <= cap
    && forall i :: 0 <= i < |m.order| && i < |m.order| + |keys - m.items.Keys| - cap ==> m.order[i] !in keys
  }

  // What a page that fits pushes out is exactly that many of the oldest entries.
  lemma FittingPageEvicts<T>(m: Snapshots<T>, rows: seq<Row<T>>, cap: nat)
    requires m.Valid() && 1 <= cap && |m.order| <= cap && PageFits(m, rows, cap)
    ensures Overflow(m, rows, cap) <= |m.order|
    ensures AddAll(m, rows, cap).1 == m.order[..Overflow(m, rows, cap)]
  {
    var (m', e) := AddAll(m, rows, cap);
    var ins, over := Inserted(m, rows, cap), Overflow(m, rows, cap);
    PageKeysStay(m, rows, cap, SetOf(KeysOf(rows)), over);
    FreshKeysAreInserted(m, rows, cap);
    assert SetOf(ins) == Fresh(m, rows);
    DistinctCount(ins);
    FirstInFirstOut(m, rows, cap);
    PrefixOfBoth(e, m'.order, m.order, ins, over);
  }

  lemma PrefixOfBoth(e: seq<string>, kept: seq<string>, order: seq<string>, ins: seq<string>, over: nat)
    requires e + kept == order + ins && |e| == over <= |order|
    ensures e == order[..over]
  {
    assert e == (e + kept)[..over] && order[..over] == (order + ins)[..over];
  }

  /** A page that fits is selected, what was selected stays so, and only the oldest entries that had
      to make room drop out. */
  lemma FittingPageEffect<T>(st: State<T>, rows: seq<Row<T>>, cap: nat)
    requires AtRest(st, cap) && cap >= 1 && KeysFit(st.snaps, SetOf(KeysOf(rows)), cap)
    ensures var keys := SetOf(KeysOf(rows));
      var n := |st.snaps.order| + |keys - st.snaps.items.Keys| - cap;
      var r := Settle(st, CallSelectAll(rows), cap);
      && n <= |st.snaps.order|
      && r.selected == (st.selected + keys) - SetOf(if n <= 0 then [] else st.snaps.order[..n])
  {
    SelectAllSettles(st, rows, cap);
    FittingPageEvicts(st.snaps, rows, cap);
  }

  ghost function SelectableKeys<T>(page: seq<Row<T>>, ok: T -> bool): set<string> {
    set i | 0 <= i < |page| && ok(page[i].item) :: page[i].key
  }

  lemma SelectableKeysAreQueued<T>(page: seq<Row<T>>, ok: T -> bool)
    ensures SetOf(KeysOf(Selectable(page, ok))) == SelectableKeys(page, ok)
  {
    var rows := Selectable(page, ok);
    var at := SelectableInOrder(page, ok);
    forall k | k in SetOf(KeysOf(rows)) ensures k in SelectableKeys(page, ok) {
      var q :| 0 <= q < |rows| && KeysOf(rows)[q] == k;
      assert page[at[q]].key == k && ok(page[at[q]].item);
    }
    forall k | k in SelectableKeys(page, ok) ensures k in SetOf(KeysOf(rows)) {
      var i: nat :| i < |page| && ok(page[i].item) && page[i].key == k;
      var q :| 0 <= q < |at| && at[q] == i;
      assert KeysOf(rows)[q] == k;
    }
  }

  /** Select-all on a page, from the page to the selection: every selectable row of it ends up
      selected exactly when those rows fit. */
  lemma SelectAllSelectsEverySelectable<T>(st: State<T>, page: seq<Row<T>>, ok: T -> bool, cap: nat)
    requires AtRest(st, cap) && cap >= 1
    ensures var r := Settle(st, CallSelectAll(Selectable(page, ok)), cap);
      (forall i :: 0 <= i < |page| && ok(page[i].item) ==> page[i].key in r.selected)
        <==> KeysFit(st.snaps, SelectableKeys(page, ok), cap)
  {
    var rows := Selectable(page, ok);
    var r := Settle(st, CallSelectAll(rows), cap);
    SelectableKeysAreQueued(page, ok);
    SelectAllOnPageSelectsPage(st, rows, cap);
    assert PageFits(st.snaps, rows, cap) <==> KeysFit(st.snaps, SelectableKeys(page, ok), cap);
    if forall i :: 0 <= i < |page| && ok(page[i].item) ==> page[i].key in r.selected {
      assert SelectableKeys(page, ok) <= r.selected;
    }
    forall i | 0 <= i < |page| && ok(page[i].item) ensures page[i].key in SelectableKeys(page, ok) {}
  }

  lemma AddTwo<T>(m: Snapshots<T>, r0: Row<T>, r1: Row<T>, cap: nat)
    ensures var (m0, e0) := Add(m, r0.key, r0.item, cap);
      var (m1, e1) := Add(m0, r1.key, r1.item, cap);
      AddAll(m, [r0, r1], cap) == (m1, e0 + e1)
  {
    assert [r0, r1][..1] == [r0] && [r0][..0] == [];
    assert AddAll(m, [r0], cap) == (Add(m, r0.key, r0.item, cap).0, [] + Add(m, r0.key, r0.item, cap).1);
    assert [] + Add(m, r0.key, r0.item, cap).1 == Add(m, r0.key, r0.item, cap).1;
  }

  function TwoSelected(): State<int> {
    State({"b", "c"}, Snapshots(["b", "c"], map["b" := 0, "c" := 0]), [])
  }

  lemma TwoSelectedIsReachable()
    ensures Run(Initial(), [CallSelectAll([Row("b", 0), Row("c", 0)]), RunNext], 2) == TwoSelected()
  {
    var rows := [Row("b", 0), Row("c", 0)];
    var evs := [CallSelectAll(rows), RunNext];
    assert evs[..1] == [CallSelectAll(rows)] && evs[..1][..0] == [];
    var st1 := Step(Initial<int>(), CallSelectAll(rows), 2);
    assert Run(Initial(), evs[..1], 2) == st1;
    assert st1.queue == [SelectAll(rows)] && st1.queue[1..] == [];
    TwoAdded();
    assert KeysOf(rows) == ["b", "c"] && SetOf(["b", "c"]) == {"b", "c"};
    assert Apply(st1.(queue := []), SelectAll(rows), 2).queue == [];
  }

  lemma TwoAdded()
    ensures AddAll(Snapshots([], map[]), [Row("b", 0), Row("c", 0)], 2) == (TwoSelected().snaps, [])
  {
    AddTwo(Snapshots([], map[]), Row("b", 0), Row("c", 0), 2);
    assert [] + ["b"] == ["b"] && ["b"] + ["c"] == ["b", "c"];
  }

  function PageOfTwo(): seq<Row<int>> { [Row("a", 0), Row("b", 0)] }

  lemma PageOfTwoDoesNotFit()
    ensures !PageFits(TwoSelected().snaps, PageOfTwo(), 2)
  {
    var m := TwoSelected().snaps;
    assert KeysOf(PageOfTwo()) == ["a", "b"] && SetOf(["a", "b"]) == {"a", "b"};
    assert Fresh(m, PageOfTwo()) == {"a"};
    assert m.order[0] in SetOf(KeysOf(PageOfTwo())) && Overflow(m, PageOfTwo(), 2) == 1;
  }

  /** The snapshot kept for a selected row of the page is the row as it was on the page. */
  lemma {:induction false} SelectAllStoresTheRows<T>(m: Snapshots<T>, rows: seq<Row<T>>, cap: nat, i: nat)
    requires i < |rows| && forall j :: i < j < |rows| ==> rows[j].key != rows[i].key
    requires rows[i].key in AddAll(m, rows, cap).0.items
    ensures AddAll(m, rows, cap).0.items[rows[i].key] == rows[i].item
    decreases |rows|
  {
    if i < |rows| - 1 { SelectAllStoresTheRows(m, rows[..|rows| - 1], cap, i); }
  }

  /** A page of two rows in a map that holds two: selecting the page leaves one row out, because
      the first row pushes the second one's snapshot out before its turn comes. */
  lemma SelectAllCanMissARow()
    ensures Run(Initial(), [CallSelectAll([Row("b", 0), Row("c", 0)]), RunNext], 2) == TwoSelected()
    ensures !(SetOf(KeysOf(PageOfTwo())) <= Settle(TwoSelected(), CallSelectAll(PageOfTwo()), 2).selected)
  {
    TwoSelectedIsReachable();
    TwoSelectedAtRest();
    PageOfTwoDoesNotFit();
    SelectAllOnPageSelectsPage(TwoSelected(), PageOfTwo(), 2);
  }

  function RefreshThenAdd(): seq<Row<int>> { [Row("b", 1), Row("a", 0)] }

  lemma RefreshAndAdd()
    ensures AddAll(TwoSelected().snaps, RefreshThenAdd(), 2)
         == (Snapshots(["c", "a"], map["c" := 0, "a" := 0]), ["b"])
  {
    var m := TwoSelected().snaps;
    var m1 := Snapshots(["b", "c"], map["b" := 1, "c" := 0]);
    AddTwo(m, Row("b", 1), Row("a", 0), 2);
    assert Add(m, "b", 1, 2) == (m1, []) by { assert m.items["b" := 1] == m1.items; }
    RefreshedGoes();
    assert [] + ["b"] == ["b"];
  }

  lemma RefreshedGoes()
    ensures Add(Snapshots(["b", "c"], map["b" := 1, "c" := 0]), "a", 0, 2)
         == (Snapshots(["c", "a"], map["c" := 0, "a" := 0]), ["b"])
  {
    var m := Snapshots(["b", "c"], map["b" := 1, "c" := 0]);
    assert ["b", "c"][1..] == ["c"] && Without(["c"], "b") == ["c"];
    assert Delete(m, "b") == Snapshots(["c"], map["c" := 0]);
    assert ["c"] + ["a"] == ["c", "a"];
  }

  lemma WhatRefreshLeaves()
    ensures ({"b", "c"} + SetOf(KeysOf(RefreshThenAdd()))) - SetOf(["b"]) == {"a", "c"}
  {
    assert KeysOf(RefreshThenAdd()) == ["b", "a"];
    assert SetOf(["b", "a"]) == {"b", "a"} && SetOf(["b"]) == {"b"};
  }

  lemma TwoSelectedAtRest()
    ensures AtRest(TwoSelected(), 2)
  {
    TwoSelectedIsReachable();
    RunKeepsInv([CallSelectAll([Row("b", 0), Row("c", 0)]), RunNext], 2);
  }

  /** Not a least-recently-used map: "b" was inserted first but has just been refreshed, and still it
      is "b" that goes, snapshot and selection, and "c", used less recently, that stays. */
  lemma RefreshedRowIsEvicted()
    ensures AddAll(TwoSelected().snaps, RefreshThenAdd(), 2).1 == ["b"]
    ensures var r := Settle(TwoSelected(), CallSelectAll(RefreshThenAdd()), 2);
      r.selected == {"a", "c"} && r.snaps.order == ["c", "a"]
  {
    RefreshAndAdd();
    TwoSelectedAtRest();
    SelectAllSettles(TwoSelected(), RefreshThenAdd(), 2);
    WhatRefreshLeaves();
  }

  // ---------- the hook ----------

  // items.filter(isSelectable)
  function Selectable<T>(page: seq<Row<T>>, ok: T -> bool): (r: seq<Row<T>>)
    ensures forall i :: 0 <= i < |r| ==> ok(r[i].item)
  {
    if page == [] then []
    else
      var n := |page| - 1;
      Selectable(page[..n], ok) + (if ok(page[n].item) then [page[n]] else [])
  }

  /** The filter takes exactly the selectable rows, each as often as it is on the page, in the order of
      the page. */
  lemma {:induction false} SelectableInOrder<T>(page: seq<Row<T>>, ok: T -> bool) returns (at: seq<nat>)
    ensures var r := Selectable(page, ok);
      |at| == |r| && forall q :: 0 <= q < |at| ==> at[q] < |page| && r[q] == page[at[q]]
    ensures forall q, r :: 0 <= q < r < |at| ==> at[q] < at[r]
    ensures forall i: nat :: i < |page| && ok(page[i].item) ==> i in at
  {
    at := [];
    if page != [] {
      var n := |page| - 1;
      at := SelectableInOrder(page[..n], ok);
      if ok(page[n].item) { at := at + [n]; }
    }
  }

  lemma {:induction false} SelectableIsFilter<T>(page: seq<Row<T>>, ok: T -> bool, x: Row<T>)
    ensures multiset(Selectable(page, ok))[x] == if ok(x.item) then multiset(page)[x] else 0
  {
    if page != [] {
      var n := |page| - 1;
      SelectableIsFilter(page[..n], ok, x);
      assert page == page[..n] + [page[n]];
    }
  }

  class Selection<T> {
    var selected: set<string>
    var order: seq<string>
    var items: map<string, T>
    var queue: seq<Update<T>>
    const maxSnapshots: nat

    function Current(): State<T> reads this {
      State(selected, Snapshots(order, items), queue)
    }

    constructor (maxSnapshots: nat)
      ensures Current() == Initial() && this.maxSnapshots == maxSnapshots
    {
      this.maxSnapshots := maxSnapshots;
      selected, order, items, queue := {}, [], map[], [];
    }

    // React's setSelected(updater): the updater waits behind those already queued.
    method SetSelected(u: Update<T>)
      modifies this`queue
      ensures queue == old(queue) + [u]
    {
      queue := queue + [u];
    }

    method CallToggleRow(key: string, item: T, isSelectable: T -> bool)
      modifies this
      ensures Current() == Step(old(Current()), CallToggle(key, item, isSelectable(item)), maxSnapshots)
    {
      SetSelected(Toggle(key, item, isSelectable(item)));
    }

    method CallSetRow(key: string, checked: bool, item: T, isSelectable: T -> bool)
      modifies this
      ensures Current() == Step(old(Current()), CallSetTo(key, checked, item, isSelectable(item)), maxSnapshots)
    {
      SetSelected(SetTo(key, checked, item, isSelectable(item)));
    }

    // The page is filtered when the call is made, not when its updater runs.
    method SelectAllOnPage(page: seq<Row<T>>, isSelectable: T -> bool)
      modifies this
      ensures Current() == Step(old(Current()), CallSelectAll(Selectable(page, isSelectable)), maxSnapshots)
    {
      var rows := [];
      for i := 0 to |page|
        invariant rows == Selectable(page[..i], isSelectable)
      {
        assert page[..i + 1][..i] == page[..i];
        if isSelectable(page[i].item) { rows := rows + [page[i]]; }
      }
      assert page[..|page|] == page;
      SetSelected(SelectAll(rows));
    }

    method ClearAll()
      modifies this
      ensures Current() == Step(old(Current()), CallClear, maxSnapshots)
    {
      SetSelected(Clear);
      order, items := [], map[];
    }

    method AddSnapshot(key: string, item: T)
      modifies this`order, this`items, this`queue
      ensures var (m, e) := Add(Snapshots(old(order), old(items)), key, item, maxSnapshots);
        Snapshots(order, items) == m && queue == old(queue) + Evictions(e)
    {
      if key in items {
        items := items[key := item];
        return;
      }
      if |order| >= maxSnapshots {
        if |order| > 0 {
          var oldest := order[0];
          order, items := Without(order, oldest), items - {oldest};
          SetSelected(Evict(oldest));
        }
      }
      order := order + [key];
      items := items[key := item];
    }

    method RunOldest()
      modifies this
      ensures Current() == Step(old(Current()), RunNext, maxSnapshots)
    {
      if queue == [] { return; }
      var u := queue[0];
      queue := queue[1..];
      match u
      case Toggle(key, item, selectable) =>
        if key in selected {
          selected := selected - {key};
          order, items := Without(order, key), items - {key};
        } else if selectable {
          AddSnapshot(key, item);
          selected := selected + {key};
        }
      case SetTo(key, checked, item, selectable) =>
        var isIn := key in selected;
        if checked == isIn { return; }
        if checked && !selectable { return; }
        if checked {
          AddSnapshot(key, item);
          selected := selected + {key};
        } else {
          selected := selected - {key};
          order, items := Without(order, key), items - {key};
        }
      case SelectAll(rows) =>
        AddPage(rows);
      case Evict(key) =>
        selected := selected - {key};
      case Clear =>
        selected := {};
    }

    method AddPage(rows: seq<Row<T>>)
      modifies this
      ensures Current() == Apply(old(Current()), SelectAll(rows), maxSnapshots)
    {
      var next := selected;
      ghost var m0, q0 := Snapshots(order, items), queue;
      var i := 0;
      while i < |rows|
        invariant 0 <= i <= |rows|
        invariant selected == old(selected)
        invariant var (m, e) := AddAll(m0, rows[..i], maxSnapshots);
          Snapshots(order, items) == m && queue == q0 + Evictions(e)
        invariant next == old(selected) + SetOf(KeysOf(rows[..i]))
      {
        ghost var (m1, e1) := AddAll(m0, rows[..i], maxSnapshots);
        AddAllNext(m0, rows, i, maxSnapshots);
        EvictionsConcat<T>(q0, e1, Add(m1, rows[i].key, rows[i].item, maxSnapshots).1);
        AddSnapshot(rows[i].key, rows[i].item);
        next := next + {rows[i].key};
        i := i + 1;
      }
      assert rows[..|rows|] == rows;
      selected := next;
    }

    method SelectedItems() returns (r: seq<T>)
      requires Snapshots(order, items).Valid()
      ensures var ks := SelectedKeys(order, selected);
        |r| == |ks| && forall i :: 0 <= i < |r| ==> ks[i] in items && r[i] == items[ks[i]]
    {
      r := [];
      var i := 0;
      while i < |order|
        invariant 0 <= i <= |order|
        invariant var ks := SelectedKeys(order[..i], selected);
          |r| == |ks| && forall j :: 0 <= j < |r| ==> ks[j] in items && r[j] == items[ks[j]]
      {
        assert order[..i + 1][..i] == order[..i];
        if order[i] in selected { r := r + [items[order[i]]]; }
        i := i + 1;
      }
      assert order[..|order|] == order;
    }
  }
}

/**
  The history lists of the equipment form: what is shown, and what is submitted with a new equipment.

  Each of the four lists shows the newest row first and keeps the rows to submit in the order they
  were added.  In create mode both change together; the ids are temporary ones made by the form.
 */
module HistoryHandlers {
  import opened Options

  datatype Row = Row(id: string, data: int)

  datatype Lists = Lists(shown: seq<Row>, pending: seq<Row>)

  datatype Kind = Location | Maintenance | Incident | Calibration

  type Form = Kind -> Lists

  datatype Event = Add(kind: Kind, id: string, data: int) | Delete(kind: Kind, id: string)

  predicate IsTemp(id: string) { |id| >= 5 && id[..5] == "temp-" }

  lemma TempIdsBeginWithTemp(id: string)
    ensures IsTemp(id) <==> exists rest :: id == "temp-" + rest
  {
    if IsTemp(id) { assert id == "temp-" + id[5..]; }
  }

  // prev.filter((item) => item.id !== id)
  function WithoutId(rows: seq<Row>, id: string): (r: seq<Row>)
    ensures forall i :: 0 <= i < |r| ==> r[i].id != id
  {
    if rows == [] then []
    else if rows[0].id == id then WithoutId(rows[1..], id)
    else [rows[0]] + WithoutId(rows[1..], id)
  }

  // One list after an event, in create mode.
  function StepList(l: Lists, ev: Event): Lists {
    match ev
    case Add(_, id, data) => Lists([Row(id, data)] + l.shown, l.pending + [Row(id, data)])
    case Delete(_, id) =>
      Lists(WithoutId(l.shown, id), if IsTemp(id) then WithoutId(l.pending, id) else l.pending)
  }

  function Step(f: Form, ev: Event): Form { (k: Kind) => if k == ev.kind then StepList(f(k), ev) else f(k) }

  function Run(evs: seq<Event>): Form
    decreases |evs|
  {
    if evs == [] then (k: Kind) => Lists([], []) else Step(Run(evs[..|evs| - 1]), evs[|evs| - 1])
  }

  // The form makes its own ids.
  ghost predicate TempIds(evs: seq<Event>) { forall i :: 0 <= i < |evs| && evs[i].Add? ==> IsTemp(evs[i].id) }

  function Reverse(s: seq<Row>): seq<Row> {
    if s == [] then [] else Reverse(s[1..]) + [s[0]]
  }

  lemma {:induction false} ReverseAppend(a: seq<Row>, b: seq<Row>)
    ensures Reverse(a + b) == Reverse(b) + Reverse(a)
  {
    if a == [] {
      assert a + b == b && Reverse(b) + [] == Reverse(b);
    } else {
      assert (a + b)[1..] == a[1..] + b;
      ReverseAppend(a[1..], b);
    }
  }

  lemma {:induction false} WithoutAppend(a: seq<Row>, b: seq<Row>, id: string)
    ensures WithoutId(a + b, id) == WithoutId(a, id) + WithoutId(b, id)
  {
    if a == [] {
      assert a + b == b;
    } else {
      assert (a + b)[1..] == a[1..] + b;
      WithoutAppend(a[1..], b, id);
    }
  }

  lemma {:induction false} WithoutReversed(s: seq<Row>, id: string)
    ensures WithoutId(Reverse(s), id) == Reverse(WithoutId(s, id))
  {
    if s != [] {
      WithoutReversed(s[1..], id);
      WithoutAppend(Reverse(s[1..]), [s[0]], id);
      if s[0].id != id { ReverseAppend([s[0]], WithoutId(s[1..], id)); }
    }
  }

  lemma {:induction false} AbsentIdIsNoChange(s: seq<Row>, id: string)
    requires forall i :: 0 <= i < |s| ==> s[i].id != id
    ensures WithoutId(s, id) == s
  {
    if s != [] { AbsentIdIsNoChange(s[1..], id); }
  }

  lemma {:induction false} WithoutKeepsTemp(s: seq<Row>, id: string)
    requires forall i :: 0 <= i < |s| ==> IsTemp(s[i].id)
    ensures forall i :: 0 <= i < |WithoutId(s, id)| ==> IsTemp(WithoutId(s, id)[i].id)
  {
    if s != [] { WithoutKeepsTemp(s[1..], id); }
  }

  /** After any run of adds and deletes each list shows exactly its pending rows, newest first. */
  lemma {:induction false} ShownIsPendingReversed(evs: seq<Event>, k: Kind)
    requires TempIds(evs)
    ensures Run(evs)(k).shown == Reverse(Run(evs)(k).pending)
    ensures forall i :: 0 <= i < |Run(evs)(k).pending| ==> IsTemp(Run(evs)(k).pending[i].id)
    decreases |evs|
  {
    if evs != [] {
      var ev := evs[|evs| - 1];
      ShownIsPendingReversed(evs[..|evs| - 1], k);
      var l := Run(evs[..|evs| - 1])(k);
      if k == ev.kind {
        match ev
        case Add(_, id, data) => ReverseAppend(l.pending, [Row(id, data)]);
        case Delete(_, id) =>
          WithoutReversed(l.pending, id);
          WithoutKeepsTemp(l.pending, id);
          if !IsTemp(id) { AbsentIdIsNoChange(l.pending, id); }
      }
    }
  }

  /** Deleting the row just added, under an id not yet in use, restores both of its lists; and no
      event reaches another kind's lists. */
  lemma AddThenDelete(evs: seq<Event>, k: Kind, id: string, data: int)
    requires TempIds(evs) && IsTemp(id)
    requires forall i :: 0 <= i < |Run(evs)(k).pending| ==> Run(evs)(k).pending[i].id != id
    ensures Step(Step(Run(evs), Add(k, id, data)), Delete(k, id))(k) == Run(evs)(k)
    ensures forall j :: j != k ==> Step(Step(Run(evs), Add(k, id, data)), Delete(k, id))(j) == Run(evs)(j)
  {
    ShownIsPendingReversed(evs, k);
    var l := Run(evs)(k);
    var row := Row(id, data);
    WithoutAppend(l.pending, [row], id);
    AbsentIdIsNoChange(l.pending, id);
    assert l.pending + [] == l.pending;
    WithoutReversed(l.pending, id);
    assert ([row] + l.shown)[1..] == l.shown;
    var added := StepList(l, Add(k, id, data));
    assert StepList(added, Delete(k, id)) == l;
    assert Step(Run(evs), Add(k, id, data))(k) == added;
  }

  // ---------- the order of the rows ----------

  // Event `i` added a row of kind `k` that nothing deleted since.
  ghost predicate Survives(evs: seq<Event>, k: Kind, i: int) {
    && 0 <= i < |evs| && evs[i].Add? && evs[i].kind == k
    && forall j :: i < j < |evs| ==> evs[j] != Delete(k, evs[i].id)
  }

  // The places of those among the first `n` events, in order of time.
  ghost function Surviving(evs: seq<Event>, k: Kind, n: nat): seq<nat>
    requires n <= |evs|
  {
    if n == 0 then [] else Surviving(evs, k, n - 1) + if Survives(evs, k, n - 1) then [n - 1] else []
  }

  ghost function RowsAt(evs: seq<Event>, at: seq<nat>): (r: seq<Row>)
    requires forall p :: 0 <= p < |at| ==> at[p] < |evs| && evs[at[p]].Add?
    ensures |r| == |at| && forall p :: 0 <= p < |at| ==> r[p] == Row(evs[at[p]].id, evs[at[p]].data)
  {
    seq(|at|, p requires 0 <= p < |at| => Row(evs[at[p]].id, evs[at[p]].data))
  }

  ghost predicate InOrder(evs: seq<Event>, k: Kind, at: seq<nat>, n: nat) {
    && (forall p, q :: 0 <= p < q < |at| ==> at[p] < at[q])
    && (forall p :: 0 <= p < |at| ==> at[p] < n && Survives(evs, k, at[p]))
  }

  lemma {:induction false} SurvivingInOrder(evs: seq<Event>, k: Kind, n: nat)
    requires n <= |evs|
    ensures InOrder(evs, k, Surviving(evs, k, n), n)
  {
    if n > 0 { SurvivingInOrder(evs, k, n - 1); }
  }

  lemma {:induction false} SurvivingIsComplete(evs: seq<Event>, k: Kind, n: nat, i: nat)
    requires i < n <= |evs| && Survives(evs, k, i)
    ensures i in Surviving(evs, k, n)
  {
    if i < n - 1 { SurvivingIsComplete(evs, k, n - 1, i); }
  }

  // The rows of the first `n` events that survive all of `evs`.
  ghost function SurvivingRows(evs: seq<Event>, k: Kind, n: nat): seq<Row>
    requires n <= |evs|
  {
    SurvivingInOrder(evs, k, n);
    RowsAt(evs, Surviving(evs, k, n))
  }

  lemma SurvivingRowsStep(evs: seq<Event>, k: Kind, n: nat)
    requires 0 < n <= |evs|
    ensures SurvivingRows(evs, k, n) == SurvivingRows(evs, k, n - 1) + RowIf(evs, k, n - 1)
  {
    SurvivingInOrder(evs, k, n - 1);
  }

  lemma SurvivesOneMore(evs: seq<Event>, ev: Event, k: Kind, i: nat)
    requires i < |evs|
    ensures Survives(evs + [ev], k, i) <==> Survives(evs, k, i) && ev != Delete(k, evs[i].id)
  {
    var all := evs + [ev];
    assert all[|evs|] == ev;
    forall j | 0 <= j < |evs| ensures all[j] == evs[j] {}
  }

  ghost function RowIf(evs: seq<Event>, k: Kind, i: nat): seq<Row>
    requires i < |evs|
  {
    if Survives(evs, k, i) then [Row(evs[i].id, evs[i].data)] else []
  }

  lemma WithoutOne(row: Row, id: string)
    ensures WithoutId([row], id) == if row.id == id then [] else [row]
  {
    assert [row][1..] == [];
  }

  lemma OneRowAfter(evs: seq<Event>, ev: Event, k: Kind, i: nat)
    requires i < |evs|
    ensures RowIf(evs + [ev], k, i) == Left(RowIf(evs, k, i), ev, k)
  {
    SurvivesOneMore(evs, ev, k, i);
    assert (evs + [ev])[i] == evs[i];
    if ev.Delete? { WithoutOne(Row(evs[i].id, if evs[i].Add? then evs[i].data else 0), ev.id); }
  }

  // What one more event leaves of some rows of kind `k`.
  function Left(rows: seq<Row>, ev: Event, k: Kind): seq<Row> {
    if ev.Delete? && ev.kind == k then WithoutId(rows, ev.id) else rows
  }

  lemma LeftOfConcat(a: seq<Row>, b: seq<Row>, ev: Event, k: Kind)
    ensures Left(a + b, ev, k) == Left(a, ev, k) + Left(b, ev, k)
  {
    if ev.Delete? { WithoutAppend(a, b, ev.id); }
  }

  lemma {:induction false} OneMoreEvent(evs: seq<Event>, ev: Event, k: Kind, n: nat)
    requires n <= |evs|
    ensures SurvivingRows(evs + [ev], k, n) == Left(SurvivingRows(evs, k, n), ev, k)
  {
    if n > 0 {
      OneMoreEvent(evs, ev, k, n - 1);
      SurvivingRowsStep(evs, k, n);
      SurvivingRowsStep(evs + [ev], k, n);
      OneRowAfter(evs, ev, k, n - 1);
      LeftOfConcat(SurvivingRows(evs, k, n - 1), RowIf(evs, k, n - 1), ev, k);
    }
  }

  lemma {:induction false} PendingAreSurvivors(evs: seq<Event>, k: Kind)
    requires TempIds(evs)
    ensures Run(evs)(k).pending == SurvivingRows(evs, k, |evs|)
    decreases |evs|
  {
    if evs != [] {
      var n := |evs| - 1;
      var before, ev := evs[..n], evs[n];
      PendingAreSurvivors(before, k);
      ShownIsPendingReversed(before, k);
      assert before + [ev] == evs;
      OneMoreEvent(before, ev, k, n);
      SurvivingRowsStep(evs, k, n + 1);
      if ev.Delete? && !IsTemp(ev.id) { AbsentIdIsNoChange(Run(before)(k).pending, ev.id); }
    }
  }

  // ---------- the submission ----------

  datatype Pending = Pending(location: seq<int>, maintenance: seq<int>, incident: seq<int>, calibration: seq<int>)

  function Data(rows: seq<Row>): (r: seq<int>)
    ensures |r| == |rows| && forall i :: 0 <= i < |rows| ==> r[i] == rows[i].data
  {
    seq(|rows|, i requires 0 <= i < |rows| => rows[i].data)
  }

  function PendingHistory(f: Form, isEdit: bool): Option<Pending> {
    if !isEdit && (|f(Location).pending| > 0 || |f(Maintenance).pending| > 0
                   || |f(Incident).pending| > 0 || |f(Calibration).pending| > 0)
    then Some(Pending(Data(f(Location).pending), Data(f(Maintenance).pending),
                      Data(f(Incident).pending), Data(f(Calibration).pending)))
    else None
  }

  /** Creating, nothing is submitted exactly when nothing is shown; what is submitted is what is
      shown, oldest first. */
  lemma SubmitsWhatIsShown(evs: seq<Event>)
    requires TempIds(evs)
    ensures var f := Run(evs);
      && PendingHistory(f, true).None?
      && (PendingHistory(f, false).None? <==> forall k :: f(k).shown == [])
      && (PendingHistory(f, false).Some? ==>
            var p := PendingHistory(f, false).value;
            && p.location == Data(Reverse(f(Location).shown)) && p.maintenance == Data(Reverse(f(Maintenance).shown))
            && p.incident == Data(Reverse(f(Incident).shown)) && p.calibration == Data(Reverse(f(Calibration).shown)))
  {
    forall k ensures Run(evs)(k).pending == Reverse(Run(evs)(k).shown)
      ensures Run(evs)(k).shown == [] <==> Run(evs)(k).pending == []
    {
      ShownIsPendingReversed(evs, k);
      ReverseTwice(Run(evs)(k).pending);
    }
  }

  /** Submission order is insertion order: what a list submits is exactly what was added to it and
      not deleted since, in the order of the adds. */
  lemma SubmitsInOrderOfAdding(evs: seq<Event>, k: Kind)
    requires TempIds(evs)
    ensures var at := Surviving(evs, k, |evs|);
      && InOrder(evs, k, at, |evs|)
      && (forall i: nat :: Survives(evs, k, i) ==> i in at)
      && |Data(Run(evs)(k).pending)| == |at|
      && (forall p :: 0 <= p < |at| ==>
            evs[at[p]] == Add(k, Run(evs)(k).pending[p].id, Data(Run(evs)(k).pending)[p]))
  {
    SurvivingInOrder(evs, k, |evs|);
    forall i: nat | Survives(evs, k, i) ensures i in Surviving(evs, k, |evs|) {
      SurvivingIsComplete(evs, k, |evs|, i);
    }
    PendingAreSurvivors(evs, k);
  }

  lemma {:induction false} ReverseTwice(s: seq<Row>)
    ensures Reverse(Reverse(s)) == s
    ensures Reverse(s) == [] <==> s == []
  {
    if s != [] {
      ReverseTwice(s[1..]);
      ReverseAppend(Reverse(s[1..]), [s[0]]);
    }
  }

  // ---------- the handlers ----------

  class HistoryList {
    var shown: seq<Row>
    var pending: seq<Row>

    function Current(): Lists reads this { Lists(shown, pending) }

    method HandleAdd(kind: Kind, tempId: string, data: int)
      modifies this
      ensures Current() == StepList(old(Current()), Add(kind, tempId, data))
    {
      shown := [Row(tempId, data)] + shown;
      pending := pending + [Row(tempId, data)];
    }

    method HandleDelete(kind: Kind, historyId: string)
      modifies this
      ensures Current() == StepList(old(Current()), Delete(kind, historyId))
    {
      shown := WithoutId(shown, historyId);
      if IsTemp(historyId) { pending := WithoutId(pending, historyId); }
    }
  }
}

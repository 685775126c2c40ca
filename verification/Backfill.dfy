/**
  The one-off script that makes a first template version for every inspected equipment.

  The two passes of the script, for intermediate and for self inspections, differ only in the
  tables they read; `kind` tells them apart here.  The inspections arrive in the order of the
  query, descending by approval time; in that order PostgreSQL puts a missing time first.
 */
module Backfill {
  import opened Options

  datatype Kind = Intermediate | SelfCheck

  datatype Inspection = Inspection(id: nat, equipment: nat, approved: bool, approvedAt: Option<int>,
      empty: bool, structure: int)

  datatype Template = Template(equipment: nat, kind: Kind, version: int, superseded: bool, deleted: bool,
      structure: int, source: nat)

  datatype Status = Created | Skipped | Failed

  datatype Result = Result(kind: Kind, equipment: nat, inspection: nat, status: Status)

  // `down` is the set of equipment for which the insert fails for a reason outside the model.
  datatype BackfillOptions = BackfillOptions(dryRun: bool, down: set<nat>)

  // ---------- the query ----------

  predicate NotAfter(a: Option<int>, b: Option<int>) {
    a.None? || (b.Some? && a.value >= b.value)
  }

  // ORDER BY approved_at DESC
  ghost predicate Ordered(rows: seq<Inspection>) {
    forall i, j :: 0 <= i < j < |rows| ==> NotAfter(rows[i].approvedAt, rows[j].approvedAt)
  }

  // WHERE approval_status = 'approved', and the equipment filter of the command line.
  ghost predicate IsQuery(table: seq<Inspection>, only: Option<nat>, rows: seq<Inspection>) {
    && Ordered(rows)
    && forall x :: x in rows <==> x in table && x.approved && (only.None? || x.equipment == only.value)
  }

  // ---------- the script as a function ----------

  predicate HasEquipment(rows: seq<Inspection>, e: nat) { exists i :: 0 <= i < |rows| && rows[i].equipment == e }

  // latestPerEquipment, in insertion order: the first row of each equipment.
  function Latest(rows: seq<Inspection>): (r: seq<Inspection>)
    ensures forall x :: x in r ==> x in rows
  {
    if rows == [] then []
    else
      var n := |rows| - 1;
      var t := Latest(rows[..n]);
      assert rows == rows[..n] + [rows[n]];
      if HasEquipment(t, rows[n].equipment) then t else t + [rows[n]]
  }

  predicate Live(t: Template, e: nat, kind: Kind) {
    t.equipment == e && t.kind == kind && !t.superseded && !t.deleted
  }

  predicate HasLive(ts: seq<Template>, e: nat, kind: Kind) { exists i :: 0 <= i < |ts| && Live(ts[i], e, kind) }

  // The unique constraint on (equipment, type, version), for version 1.
  predicate HasFirst(ts: seq<Template>, e: nat, kind: Kind) {
    exists i :: 0 <= i < |ts| && ts[i].equipment == e && ts[i].kind == kind && ts[i].version == 1
  }

  function StatusOf(ts: seq<Template>, kind: Kind, x: Inspection, opts: BackfillOptions): Status {
    if HasLive(ts, x.equipment, kind) then Skipped
    else if x.empty then Skipped
    else if opts.dryRun then Created
    else if HasFirst(ts, x.equipment, kind) || x.equipment in opts.down then Failed
    else Created
  }

  function NewTemplate(kind: Kind, x: Inspection): Template {
    Template(x.equipment, kind, 1, false, false, x.structure, x.id)
  }

  function Inserts(ts: seq<Template>, kind: Kind, x: Inspection, opts: BackfillOptions): seq<Template> {
    if StatusOf(ts, kind, x, opts) == Created && !opts.dryRun then [NewTemplate(kind, x)] else []
  }

  // The templates after the loop over `xs`, and its results.
  function Process(ts: seq<Template>, kind: Kind, xs: seq<Inspection>, opts: BackfillOptions)
      : (seq<Template>, seq<Result>)
    decreases |xs|
  {
    if xs == [] then (ts, [])
    else
      var n := |xs| - 1;
      var (ts', rs) := Process(ts, kind, xs[..n], opts);
      (ts' + Inserts(ts', kind, xs[n], opts),
       rs + [Result(kind, xs[n].equipment, xs[n].id, StatusOf(ts', kind, xs[n], opts))])
  }

  function Script(ts: seq<Template>, kind: Kind, rows: seq<Inspection>, opts: BackfillOptions)
      : (seq<Template>, seq<Result>) {
    Process(ts, kind, Latest(rows), opts)
  }

  // ---------- the latest inspection of each equipment ----------

  ghost predicate OnePerEquipment(xs: seq<Inspection>) {
    forall i, j :: 0 <= i < j < |xs| ==> xs[i].equipment != xs[j].equipment
  }

  // `x` is the first row of its equipment.
  ghost predicate IsFirstRow(rows: seq<Inspection>, x: Inspection) {
    exists i :: 0 <= i < |rows| && FirstRowAt(rows, x, i)
  }

  ghost predicate FirstRowAt(rows: seq<Inspection>, x: Inspection, i: int)
    requires 0 <= i < |rows|
  {
    rows[i] == x && forall j :: 0 <= j < i ==> rows[j].equipment != x.equipment
  }

  lemma HasEquipmentSnoc(xs: seq<Inspection>, x: Inspection, e: nat)
    ensures HasEquipment(xs + [x], e) <==> HasEquipment(xs, e) || x.equipment == e
  {
    var all := xs + [x];
    if i :| 0 <= i < |xs| && xs[i].equipment == e { assert all[i].equipment == e; }
    if x.equipment == e { assert all[|xs|].equipment == e; }
  }

  lemma {:induction false} LatestCoversEquipment(rows: seq<Inspection>, e: nat)
    ensures HasEquipment(Latest(rows), e) <==> HasEquipment(rows, e)
  {
    if rows != [] {
      var n := |rows| - 1;
      assert rows == rows[..n] + [rows[n]];
      LatestCoversEquipment(rows[..n], e);
      HasEquipmentSnoc(rows[..n], rows[n], e);
      HasEquipmentSnoc(Latest(rows[..n]), rows[n], e);
    }
  }

  lemma {:induction false} LatestHasOneEach(rows: seq<Inspection>)
    ensures OnePerEquipment(Latest(rows))
  {
    if rows != [] { LatestHasOneEach(rows[..|rows| - 1]); }
  }

  lemma {:induction false} LatestIsFirst(rows: seq<Inspection>, x: Inspection)
    requires x in Latest(rows)
    ensures IsFirstRow(rows, x)
  {
    var n := |rows| - 1;
    var t := Latest(rows[..n]);
    if x in t {
      LatestIsFirst(rows[..n], x);
      var i :| 0 <= i < n && FirstRowAt(rows[..n], x, i);
      assert FirstRowAt(rows, x, i);
    } else {
      assert x == rows[n];
      LatestCoversEquipment(rows[..n], x.equipment);
      forall j | 0 <= j < n ensures rows[j].equipment != x.equipment { assert rows[..n][j] == rows[j]; }
      assert FirstRowAt(rows, x, n);
    }
  }

  lemma LatestIsFirstRows(rows: seq<Inspection>)
    ensures OnePerEquipment(Latest(rows))
    ensures forall x :: x in Latest(rows) ==> IsFirstRow(rows, x)
    ensures forall e :: HasEquipment(Latest(rows), e) <==> HasEquipment(rows, e)
  {
    LatestHasOneEach(rows);
    forall x | x in Latest(rows) ensures IsFirstRow(rows, x) { LatestIsFirst(rows, x); }
    forall e ensures HasEquipment(Latest(rows), e) <==> HasEquipment(rows, e) { LatestCoversEquipment(rows, e); }
  }

  ghost predicate IsLatest(table: seq<Inspection>, x: Inspection) {
    && x.approved && x.approvedAt.Some?
    && forall r :: r in table && r.approved && r.equipment == x.equipment && r.approvedAt.Some? ==>
         r.approvedAt.value <= x.approvedAt.value
  }

  /** The source of a template is the inspection of that equipment approved last, exactly when none
      of its approved inspections lacks an approval time: one that does is picked instead. */
  lemma SourceIsLatestUnlessOneHasNoTime(table: seq<Inspection>, only: Option<nat>, rows: seq<Inspection>,
      x: Inspection)
    requires IsQuery(table, only, rows) && x in Latest(rows)
    ensures IsLatest(table, x) <==>
      forall r :: r in table && r.approved && r.equipment == x.equipment ==> r.approvedAt.Some?
  {
    LatestIsFirstRows(rows);
    var i :| 0 <= i < |rows| && FirstRowAt(rows, x, i);
    forall r | r in rows && r.equipment == x.equipment ensures NotAfter(x.approvedAt, r.approvedAt) || r == x {
      var j :| 0 <= j < |rows| && rows[j] == r;
    }
    assert x in rows;
  }

  // ---------- the loop, item by item ----------

  lemma {:induction false} OtherEquipmentUntouched(ts: seq<Template>, kind: Kind, xs: seq<Inspection>,
      opts: BackfillOptions, e: nat, k: Kind)
    requires !HasEquipment(xs, e) || k != kind
    ensures var ts' := Process(ts, kind, xs, opts).0;
      && (HasLive(ts', e, k) <==> HasLive(ts, e, k))
      && (HasFirst(ts', e, k) <==> HasFirst(ts, e, k))
    decreases |xs|
  {
    if xs != [] {
      var n := |xs| - 1;
      forall i | 0 <= i < n ensures xs[..n][i] == xs[i] {}
      OtherEquipmentUntouched(ts, kind, xs[..n], opts, e, k);
      var ts1 := Process(ts, kind, xs[..n], opts).0;
      InsertTouchesOne(ts1, kind, xs[n], opts, e, k);
    }
  }

  lemma InsertTouchesOne(ts: seq<Template>, kind: Kind, x: Inspection, opts: BackfillOptions, e: nat, k: Kind)
    ensures var ts' := ts + Inserts(ts, kind, x, opts);
      var hit := e == x.equipment && k == kind && Inserts(ts, kind, x, opts) != [];
      && (HasLive(ts', e, k) <==> HasLive(ts, e, k) || hit)
      && (HasFirst(ts', e, k) <==> HasFirst(ts, e, k) || hit)
  {
    var ts' := ts + Inserts(ts, kind, x, opts);
    if i :| 0 <= i < |ts| && Live(ts[i], e, k) { assert Live(ts'[i], e, k); }
    if i :| 0 <= i < |ts| && ts[i].equipment == e && ts[i].kind == k && ts[i].version == 1 {
      assert ts'[i].version == 1;
    }
    if Inserts(ts, kind, x, opts) != [] {
      assert ts'[|ts|] == NewTemplate(kind, x);
    }
  }

  /** The order of the loop does not matter: each equipment is treated as if it were alone, and is
      reported once, in order. */
  lemma {:induction false} ResultsAreIndependent(ts: seq<Template>, kind: Kind, xs: seq<Inspection>,
      opts: BackfillOptions)
    requires OnePerEquipment(xs)
    ensures var (ts', rs) := Process(ts, kind, xs, opts);
      && |rs| == |xs|
      && (forall i :: 0 <= i < |xs| ==>
            rs[i] == Result(kind, xs[i].equipment, xs[i].id, StatusOf(ts, kind, xs[i], opts)))
      && (forall i :: 0 <= i < |xs| ==>
            (HasLive(ts', xs[i].equipment, kind) <==>
               HasLive(ts, xs[i].equipment, kind) || (rs[i].status == Created && !opts.dryRun)))
      && (forall i :: 0 <= i < |xs| ==>
            (HasFirst(ts', xs[i].equipment, kind) <==>
               HasFirst(ts, xs[i].equipment, kind) || (rs[i].status == Created && !opts.dryRun)))
      && (opts.dryRun ==> ts' == ts)
    decreases |xs|
  {
    if xs != [] {
      var n := |xs| - 1;
      var x := xs[n];
      ResultsAreIndependent(ts, kind, xs[..n], opts);
      var ts1 := Process(ts, kind, xs[..n], opts).0;
      assert !HasEquipment(xs[..n], x.equipment);
      OtherEquipmentUntouched(ts, kind, xs[..n], opts, x.equipment, kind);
      forall i | 0 <= i < |xs|
        ensures var ts' := ts1 + Inserts(ts1, kind, x, opts);
          var hit := i == n && Inserts(ts1, kind, x, opts) != [];
          && (HasLive(ts', xs[i].equipment, kind) <==> HasLive(ts1, xs[i].equipment, kind) || hit)
          && (HasFirst(ts', xs[i].equipment, kind) <==> HasFirst(ts1, xs[i].equipment, kind) || hit)
      {
        InsertTouchesOne(ts1, kind, x, opts, xs[i].equipment, kind);
        if i < n { assert xs[..n][i] == xs[i]; }
      }
    }
  }

  // ---------- main results ----------

  /** Every distinct equipment of the query gets exactly one result. */
  lemma OneResultPerEquipment(ts: seq<Template>, kind: Kind, rows: seq<Inspection>, opts: BackfillOptions)
    ensures var rs := Script(ts, kind, rows, opts).1;
      && (forall i, j :: 0 <= i < j < |rs| ==> rs[i].equipment != rs[j].equipment)
      && (forall e :: HasEquipment(rows, e) <==> exists i :: 0 <= i < |rs| && rs[i].equipment == e)
  {
    LatestIsFirstRows(rows);
    var xs := Latest(rows);
    ResultsAreIndependent(ts, kind, xs, opts);
    var rs := Script(ts, kind, rows, opts).1;
    forall e ensures HasEquipment(rows, e) <==> exists i :: 0 <= i < |rs| && rs[i].equipment == e {
      if HasEquipment(xs, e) {
        var i :| 0 <= i < |xs| && xs[i].equipment == e;
        assert rs[i].equipment == e;
      }
      if i :| 0 <= i < |rs| && rs[i].equipment == e { assert xs[i].equipment == e; }
    }
  }

  ghost predicate OneLiveEach(ts: seq<Template>) {
    forall i, j, e, kind :: 0 <= i < j < |ts| ==> !(Live(ts[i], e, kind) && Live(ts[j], e, kind))
  }

  /** No equipment ever has two live templates of a kind. */
  lemma {:induction false} OneLiveTemplateIsKept(ts: seq<Template>, kind: Kind, xs: seq<Inspection>,
      opts: BackfillOptions)
    requires OneLiveEach(ts)
    ensures OneLiveEach(Process(ts, kind, xs, opts).0)
    decreases |xs|
  {
    if xs != [] { OneLiveTemplateIsKept(ts, kind, xs[..|xs| - 1], opts); }
  }

  /** A second run takes up exactly what failed in the first; everything else it skips.  So after a
      run without failures a second one writes nothing. */
  lemma SecondRunRetriesOnlyFailures(ts: seq<Template>, kind: Kind, rows: seq<Inspection>,
      opts: BackfillOptions, opts2: BackfillOptions)
    requires !opts.dryRun
    ensures var (ts1, rs1) := Script(ts, kind, rows, opts);
      var (ts2, rs2) := Script(ts1, kind, rows, opts2);
      && |rs2| == |rs1|
      && (forall i :: 0 <= i < |rs1| ==> (rs2[i].status == Skipped <==> rs1[i].status != Failed))
      && ((forall i :: 0 <= i < |rs1| ==> rs1[i].status != Failed) ==> ts2 == ts1)
  {
    LatestIsFirstRows(rows);
    var xs := Latest(rows);
    var ts1 := Process(ts, kind, xs, opts).0;
    ResultsAreIndependent(ts, kind, xs, opts);
    ResultsAreIndependent(ts1, kind, xs, opts2);
    if forall i :: 0 <= i < |xs| ==> StatusOf(ts1, kind, xs[i], opts2) == Skipped {
      AllSkippedWritesNothing(ts1, kind, xs, opts2);
    }
  }

  lemma {:induction false} AllSkippedWritesNothing(ts: seq<Template>, kind: Kind, xs: seq<Inspection>,
      opts: BackfillOptions)
    requires OnePerEquipment(xs) && forall i :: 0 <= i < |xs| ==> StatusOf(ts, kind, xs[i], opts) == Skipped
    ensures Process(ts, kind, xs, opts).0 == ts
    decreases |xs|
  {
    if xs != [] {
      var n := |xs| - 1;
      AllSkippedWritesNothing(ts, kind, xs[..n], opts);
    }
  }

  /** A dry run writes nothing and announces exactly the inserts a real run attempts. */
  lemma DryRunAnnouncesTheAttempts(ts: seq<Template>, kind: Kind, rows: seq<Inspection>, down: set<nat>)
    ensures var (dry, announced) := Script(ts, kind, rows, BackfillOptions(true, down));
      var (written, results) := Script(ts, kind, rows, BackfillOptions(false, down));
      && dry == ts && |announced| == |results|
      && forall i :: 0 <= i < |results| ==> (announced[i].status == Created <==> results[i].status != Skipped)
  {
    LatestIsFirstRows(rows);
    ResultsAreIndependent(ts, kind, Latest(rows), BackfillOptions(true, down));
    ResultsAreIndependent(ts, kind, Latest(rows), BackfillOptions(false, down));
  }

  /** With the database up, a run reports a failure exactly for equipment whose version 1 exists but
      is superseded or deleted; no rerun gets past that. */
  lemma DeadFirstVersionAlwaysFails(ts: seq<Template>, kind: Kind, rows: seq<Inspection>, i: nat)
    requires i < |Latest(rows)|
    ensures var opts := BackfillOptions(false, {});
      var x := Latest(rows)[i];
      var (ts1, rs1) := Script(ts, kind, rows, opts);
      && i < |rs1|
      && (rs1[i].status == Failed <==>
            !x.empty && HasFirst(ts, x.equipment, kind) && !HasLive(ts, x.equipment, kind))
      && (rs1[i].status == Failed ==>
            i < |Script(ts1, kind, rows, opts).1| && Script(ts1, kind, rows, opts).1[i].status == Failed)
  {
    LatestIsFirstRows(rows);
    var opts := BackfillOptions(false, {});
    ResultsAreIndependent(ts, kind, Latest(rows), opts);
    ResultsAreIndependent(Script(ts, kind, rows, opts).0, kind, Latest(rows), opts);
  }

  // ---------- the two surprises on a small table ----------

  const UNTIMED := Inspection(1, 7, true, None, false, 0)

  const TIMED := Inspection(2, 7, true, Some(5), false, 0)

  /** Two approved inspections of one equipment, one without an approval time: that one is the
      source, though the other is the last approved. */
  lemma UntimedInspectionWins()
    ensures IsQuery([TIMED, UNTIMED], None, [UNTIMED, TIMED])
    ensures Latest([UNTIMED, TIMED]) == [UNTIMED]
    ensures !IsLatest([TIMED, UNTIMED], UNTIMED) && IsLatest([TIMED, UNTIMED], TIMED)
  {
    var rows, table := [UNTIMED, TIMED], [TIMED, UNTIMED];
    assert rows[0] == UNTIMED && rows[1] == TIMED && table[0] == TIMED && table[1] == UNTIMED;
    LatestOfOne(UNTIMED);
    assert rows[..1] == [UNTIMED];
    assert HasEquipment([UNTIMED], 7) by { assert [UNTIMED][0].equipment == 7; }
    assert Latest(rows) == [UNTIMED];
    forall x ensures x in rows <==> x in table && x.approved { assert x in table ==> x == TIMED || x == UNTIMED; }
    assert IsQuery(table, None, rows);
  }

  lemma LatestOfOne(x: Inspection)
    ensures Latest([x]) == [x]
  {
    assert [x][..0] == [] && [] + [x] == [x];
  }

  /** Version 1 was superseded by version 2, which was then deleted: the insert fails. */
  lemma SupersededFirstVersionBlocks()
    ensures var ts := [Template(7, SelfCheck, 1, true, false, 0, 9), Template(7, SelfCheck, 2, false, true, 0, 9)];
      Script(ts, SelfCheck, [TIMED], BackfillOptions(false, {})) == (ts, [Result(SelfCheck, 7, 2, Failed)])
  {
    var ts := [Template(7, SelfCheck, 1, true, false, 0, 9), Template(7, SelfCheck, 2, false, true, 0, 9)];
    var opts := BackfillOptions(false, {});
    LatestOfOne(TIMED);
    assert HasFirst(ts, 7, SelfCheck) by { assert ts[0].version == 1; }
    assert StatusOf(ts, SelfCheck, TIMED, opts) == Failed;
    assert [TIMED][..0] == [] && Process(ts, SelfCheck, [], opts) == (ts, []);
    assert ts + Inserts(ts, SelfCheck, TIMED, opts) == ts;
    assert [] + [Result(SelfCheck, 7, 2, Failed)] == [Result(SelfCheck, 7, 2, Failed)];
  }

  /** What was there stays as it was, and every template added is the live first version of an
      equipment of the query, made from that equipment's first row. */
  lemma {:induction false} OnlyFirstVersionsAreAdded(ts: seq<Template>, kind: Kind, xs: seq<Inspection>,
      opts: BackfillOptions)
    ensures var ts' := Process(ts, kind, xs, opts).0;
      && ts <= ts'
      && forall i :: |ts| <= i < |ts'| ==> exists x :: x in xs && !x.empty && ts'[i] == NewTemplate(kind, x)
    decreases |xs|
  {
    if xs != [] {
      var n := |xs| - 1;
      OnlyFirstVersionsAreAdded(ts, kind, xs[..n], opts);
      var ts1 := Process(ts, kind, xs[..n], opts).0;
      var ts' := Process(ts, kind, xs, opts).0;
      forall i | |ts| <= i < |ts'| ensures exists x :: x in xs && !x.empty && ts'[i] == NewTemplate(kind, x) {
        if i < |ts1| {
          var x :| x in xs[..n] && !x.empty && ts1[i] == NewTemplate(kind, x);
          assert x in xs && ts'[i] == NewTemplate(kind, x);
        } else {
          assert xs[n] in xs && ts'[i] == NewTemplate(kind, xs[n]);
        }
      }
    }
  }

  // ---------- what a result means ----------

  // The template made from `x` is in the table.
  ghost predicate MadeFrom(ts: seq<Template>, kind: Kind, x: Inspection) {
    exists t :: t in ts && t.equipment == x.equipment && t.kind == kind && t.version == 1
      && !t.superseded && !t.deleted && t.structure == x.structure && t.source == x.id
  }

  lemma {:induction false} CreatedIsThere(ts: seq<Template>, kind: Kind, xs: seq<Inspection>, down: set<nat>, i: nat)
    requires i < |xs|
    ensures var (ts', rs) := Process(ts, kind, xs, BackfillOptions(false, down));
      i < |rs| && (rs[i].status == Created ==> MadeFrom(ts', kind, xs[i]))
    decreases |xs|
  {
    var n := |xs| - 1;
    var opts := BackfillOptions(false, down);
    var (ts1, rs1) := Process(ts, kind, xs[..n], opts);
    var ts' := Process(ts, kind, xs, opts).0;
    ResultsHaveLength(ts, kind, xs[..n], opts);
    if i < n {
      CreatedIsThere(ts, kind, xs[..n], down, i);
      if rs1[i].status == Created {
        var t :| t in ts1 && t.equipment == xs[i].equipment && t.kind == kind && t.version == 1
          && !t.superseded && !t.deleted && t.structure == xs[i].structure && t.source == xs[i].id;
        assert t in ts';
      }
    } else if StatusOf(ts1, kind, xs[n], opts) == Created {
      assert NewTemplate(kind, xs[n]) in ts';
    }
  }

  lemma {:induction false} ResultsHaveLength(ts: seq<Template>, kind: Kind, xs: seq<Inspection>, opts: BackfillOptions)
    ensures |Process(ts, kind, xs, opts).1| == |xs|
    decreases |xs|
  {
    if xs != [] { ResultsHaveLength(ts, kind, xs[..|xs| - 1], opts); }
  }

  /** What a real run reports of each equipment, by the table before the run: created exactly when its
      inspection has content, it has no live template and no version 1 at all, and the database takes
      the insert, and then version 1 is there, live, with the structure of that inspection; skipped
      exactly when it has a live template or there is no content. */
  lemma ResultMeans(ts: seq<Template>, kind: Kind, rows: seq<Inspection>, down: set<nat>, i: nat)
    requires i < |Latest(rows)|
    ensures var (ts', rs) := Script(ts, kind, rows, BackfillOptions(false, down));
      var x := Latest(rows)[i];
      var live := exists t :: t in ts && t.equipment == x.equipment && t.kind == kind && !t.superseded && !t.deleted;
      var first := exists t :: t in ts && t.equipment == x.equipment && t.kind == kind && t.version == 1;
      && |rs| == |Latest(rows)|
      && rs[i].equipment == x.equipment && rs[i].inspection == x.id && rs[i].kind == kind
      && (rs[i].status == Skipped <==> live || x.empty)
      && (rs[i].status == Created <==> !live && !x.empty && !first && x.equipment !in down)
      && (rs[i].status == Created ==> MadeFrom(ts', kind, x))
  {
    var opts := BackfillOptions(false, down);
    var x := Latest(rows)[i];
    LatestIsFirstRows(rows);
    ResultsAreIndependent(ts, kind, Latest(rows), opts);
    CreatedIsThere(ts, kind, Latest(rows), down, i);
    LiveMeans(ts, x.equipment, kind);
  }

  lemma LiveMeans(ts: seq<Template>, e: nat, kind: Kind)
    ensures HasLive(ts, e, kind) <==>
      exists t :: t in ts && t.equipment == e && t.kind == kind && !t.superseded && !t.deleted
    ensures HasFirst(ts, e, kind) <==> exists t :: t in ts && t.equipment == e && t.kind == kind && t.version == 1
  {
    if j :| 0 <= j < |ts| && Live(ts[j], e, kind) { assert ts[j] in ts; }
    if j :| 0 <= j < |ts| && ts[j].equipment == e && ts[j].kind == kind && ts[j].version == 1 { assert ts[j] in ts; }
  }

  // ---------- the script ----------

  class TemplateTable {
    var templates: seq<Template>

    method Insert(t: Template, down: bool) returns (ok: bool)
      requires t.version == 1
      modifies this
      ensures ok <==> !down && !HasFirst(old(templates), t.equipment, t.kind)
      ensures templates == if ok then old(templates) + [t] else old(templates)
    {
      if down || HasFirst(templates, t.equipment, t.kind) { return false; }
      templates := templates + [t];
      return true;
    }

    method Backfill(kind: Kind, rows: seq<Inspection>, opts: BackfillOptions) returns (results: seq<Result>)
      modifies this
      ensures (templates, results) == Script(old(templates), kind, rows, opts)
    {
      var latest: seq<Inspection> := [];
      for i := 0 to |rows|
        invariant latest == Latest(rows[..i]) && templates == old(templates)
      {
        assert rows[..i + 1][..i] == rows[..i];
        if !HasEquipment(latest, rows[i].equipment) { latest := latest + [rows[i]]; }
      }
      assert rows[..|rows|] == rows;

      results := [];
      for i := 0 to |latest|
        invariant (templates, results) == Process(old(templates), kind, latest[..i], opts)
      {
        assert latest[..i + 1][..i] == latest[..i];
        var x := latest[i];
        ghost var before := templates;
        var status;
        if HasLive(templates, x.equipment, kind) {
          status := Skipped;
        } else if x.empty {
          status := Skipped;
        } else if opts.dryRun {
          status := Created;
        } else {
          var ok := Insert(NewTemplate(kind, x), x.equipment in opts.down);
          status := if ok then Created else Failed;
        }
        assert templates == before + Inserts(before, kind, x, opts);
        results := results + [Result(kind, x.equipment, x.id, status)];
      }
      assert latest[..|latest|] == latest;
    }
  }
}

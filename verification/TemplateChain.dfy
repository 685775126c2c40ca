/**
  The version chain of one equipment's inspection template, and the clients that fork it.

  An upsert reads the current template outside any transaction, checks its base and version
  against what it read, and later commits: the insert is guarded only by the uniqueness of
  (equipment, type, version), and the template that was read is then marked superseded.  Any
  number of requests, automatic first versions among them, interleave between read and commit.
  A form that finds its structure changed asks whether to apply the change forward; it then
  upserts first and creates its inspection when the upsert is answered.
 */
module TemplateChain {
  import opened Options

  datatype Template = Template(id: nat, version: int, supersededBy: Option<nat>, structure: int)

  datatype Body = Body(version: int, supersededBy: Option<nat>, structure: int)

  // Checked: read and validated, not committed.  Rejected: 400.  Conflict: 409.  Skipped: an
  // automatic first version that found one already there.
  datatype Phase = Checked(base: Option<Template>) | Accepted(id: nat) | Rejected | Conflict | Skipped | Failed

  datatype Request = Request(client: nat, body: Body, auto: bool, dto: int, phase: Phase, answered: bool)

  // The form of one user: the template it last fetched, and the submission waiting for a choice.
  datatype Client = Client(latest: Option<Template>, pending: Option<int>, dialogOpen: bool)

  datatype Reason = Direct | ThisOnly | Applied(request: nat)

  // An inspection create call, and what led to it.
  datatype Create = Create(client: nat, dto: int, reason: Reason)

  datatype Choice = CancelChoice | ThisOnlyChoice | ApplyForward

  datatype State = State(rows: seq<Template>, requests: seq<Request>, clients: seq<Client>, creates: seq<Create>)

  datatype Event =
    | Refetch(client: nat)
    | Submit(client: nat, dto: int, valid: bool, enabled: bool, changed: bool)
    | Choose(client: nat, choice: Choice, structure: int)
    | AutoCreate(structure: int)
    | AdminUpsert(body: Body)
    | Commit(request: nat, newId: nat)
    | Fail(request: nat)
    | Respond(request: nat)

  // ---------- the service ----------

  function FindCurrent(rows: seq<Template>): (r: Option<Template>)
    ensures r.Some? ==> r.value in rows && r.value.supersededBy.None?
    ensures r.None? ==> forall t :: t in rows ==> t.supersededBy.Some?
  {
    if rows == [] then None
    else if rows[0].supersededBy.None? then Some(rows[0])
    else FindCurrent(rows[1..])
  }

  // What an upsert is after its read: rejected, or ready to commit on the base it read.
  function Validate(current: Option<Template>, body: Body): Phase {
    if current.Some? && body.supersededBy != Some(current.value.id) then Rejected
    else if body.version != (if current.Some? then current.value.version + 1 else 1) then Rejected
    else Checked(current)
  }

  predicate HasVersion(rows: seq<Template>, v: int) { exists i :: 0 <= i < |rows| && rows[i].version == v }

  predicate HasId(rows: seq<Template>, id: nat) { exists i :: 0 <= i < |rows| && rows[i].id == id }

  function Supersede(rows: seq<Template>, base: Option<Template>, newId: nat): (r: seq<Template>)
    ensures |r| == |rows|
    ensures forall i :: 0 <= i < |rows| ==>
      r[i] == if base.Some? && rows[i].id == base.value.id then rows[i].(supersededBy := Some(newId)) else rows[i]
  {
    seq(|rows|, i requires 0 <= i < |rows| =>
      if base.Some? && rows[i].id == base.value.id then rows[i].(supersededBy := Some(newId)) else rows[i])
  }

  // The transaction: insert under the uniqueness constraint, then mark the base superseded.
  function CommitRows(rows: seq<Template>, base: Option<Template>, body: Body, newId: nat): Option<seq<Template>> {
    if HasVersion(rows, body.version) then None
    else Some(Supersede(rows, base, newId) + [Template(newId, body.version, None, body.structure)])
  }

  // ---------- the system ----------

  function Arrive(st: State, client: nat, body: Body, dto: int): State {
    st.(requests := st.requests + [Request(client, body, false, dto, Validate(FindCurrent(st.rows), body), false)])
  }

  function Step(st: State, ev: Event): State {
    match ev
    case Refetch(c) =>
      if c < |st.clients| then st.(clients := st.clients[c := st.clients[c].(latest := FindCurrent(st.rows))]) else st
    case Submit(c, dto, valid, enabled, changed) =>
      if c >= |st.clients| || !valid then st
      else if !enabled || st.clients[c].latest.None? || !changed then
        st.(creates := st.creates + [Create(c, dto, Direct)])
      else st.(clients := st.clients[c := st.clients[c].(pending := Some(dto), dialogOpen := true)])
    case Choose(c, choice, structure) =>
      if c >= |st.clients| || st.clients[c].pending.None? then st
      else (match choice
        case CancelChoice => st
        case ThisOnlyChoice =>
          st.(clients := st.clients[c := st.clients[c].(dialogOpen := false)],
              creates := st.creates + [Create(c, st.clients[c].pending.value, ThisOnly)])
        case ApplyForward =>
          if st.clients[c].latest.None? then st
          else
            var t := st.clients[c].latest.value;
            Arrive(st, c, Body(t.version + 1, Some(t.id), structure), st.clients[c].pending.value))
    case AutoCreate(structure) =>
      st.(requests := st.requests + [Request(0, Body(1, None, structure), true, 0,
            if FindCurrent(st.rows).Some? then Skipped else Checked(None), true)])
    case AdminUpsert(body) =>
      var st1 := Arrive(st, 0, body, 0);
      st1.(requests := st1.requests[|st.requests| := st1.requests[|st.requests|].(answered := true)])
    case Commit(r, newId) =>
      if r < |st.requests| && st.requests[r].phase.Checked? && !HasId(st.rows, newId) then
        var req := st.requests[r];
        var committed := CommitRows(st.rows, req.phase.base, req.body, newId);
        if committed.None? then
          st.(requests := st.requests[r := req.(phase := if req.auto then Skipped else Conflict)])
        else st.(rows := committed.value, requests := st.requests[r := req.(phase := Accepted(newId))])
      else st
    case Fail(r) =>
      if r < |st.requests| && st.requests[r].phase.Checked? then
        st.(requests := st.requests[r := st.requests[r].(phase := Failed)])
      else st
    case Respond(r) =>
      if r < |st.requests| && !st.requests[r].phase.Checked? && !st.requests[r].answered
         && st.requests[r].client < |st.clients| then
        var req := st.requests[r];
        var st1 := st.(requests := st.requests[r := req.(answered := true)]);
        if req.phase.Accepted? then
          st1.(clients := st.clients[req.client := st.clients[req.client].(dialogOpen := false)],
               creates := st.creates + [Create(req.client, req.dto, Applied(r))])
        else st1
      else st
  }

  function Initial(clients: nat): State {
    State([], [], seq(clients, i => Client(None, None, false)), [])
  }

  function Run(clients: nat, evs: seq<Event>): State
    decreases |evs|
  {
    if evs == [] then Initial(clients)
    else Step(Run(clients, evs[..|evs| - 1]), evs[|evs| - 1])
  }

  // ---------- the invariant ----------

  function NextId(rows: seq<Template>, i: nat): Option<nat> {
    if i + 1 < |rows| then Some(rows[i + 1].id) else None
  }

  // Versions 1, 2, 3, ... each superseded by the next; the last one is current.
  ghost predicate Chain(rows: seq<Template>) {
    && (forall i :: 0 <= i < |rows| ==> rows[i].version == i + 1)
    && (forall i :: 0 <= i < |rows| ==> rows[i].supersededBy == NextId(rows, i))
    && (forall i, j :: 0 <= i < j < |rows| ==> rows[i].id != rows[j].id)
  }

  // A template a request once read: its row is still there, with the same version.
  ghost predicate WasRead(rows: seq<Template>, t: Template) {
    exists i :: 0 <= i < |rows| && rows[i].id == t.id && rows[i].version == t.version
  }

  // The row an upsert became, and the base it was built on.
  ghost predicate Built(rows: seq<Template>, id: nat, body: Body) {
    exists i :: 0 <= i < |rows| && BuiltAt(rows, id, body, i)
  }

  ghost predicate BuiltAt(rows: seq<Template>, id: nat, body: Body, i: int)
    requires 0 <= i < |rows|
  {
    && rows[i].id == id && rows[i].version == body.version && rows[i].structure == body.structure
    && (i > 0 ==> body.supersededBy == Some(rows[i - 1].id))
  }

  ghost predicate RequestOk(rows: seq<Template>, req: Request) {
    && (req.phase.Checked? && req.phase.base.Some? ==>
          && WasRead(rows, req.phase.base.value)
          && req.body.version == req.phase.base.value.version + 1
          && req.body.supersededBy == Some(req.phase.base.value.id))
    && (req.phase.Checked? && req.phase.base.None? ==> req.body.version == 1)
    && (req.phase.Accepted? ==> Built(rows, req.phase.id, req.body))
  }

  ghost predicate CreateOk(st: State, c: Create) {
    c.reason.Applied? ==>
      && c.reason.request < |st.requests|
      && var req := st.requests[c.reason.request];
         req.phase.Accepted? && req.answered && !req.auto && req.client == c.client && req.dto == c.dto
  }

  ghost predicate CreatesOk(st: State) {
    && (forall i :: 0 <= i < |st.creates| ==> CreateOk(st, st.creates[i]))
    && (forall i, j :: 0 <= i < j < |st.creates| && st.creates[i].reason.Applied? && st.creates[j].reason.Applied? ==>
          st.creates[i].reason != st.creates[j].reason)
  }

  ghost predicate RequestsOk(st: State) {
    && (forall r :: 0 <= r < |st.requests| ==> RequestOk(st.rows, st.requests[r]))
    && (forall r :: 0 <= r < |st.requests| ==> st.requests[r].auto ==> st.requests[r].answered)
  }

  ghost predicate Inv(st: State) { Chain(st.rows) && RequestsOk(st) && CreatesOk(st) }

  lemma {:induction false} FirstOpen(rows: seq<Template>)
    requires rows != [] && rows[|rows| - 1].supersededBy.None?
    requires forall i :: 0 <= i < |rows| - 1 ==> rows[i].supersededBy.Some?
    ensures FindCurrent(rows) == Some(rows[|rows| - 1])
  {
    if |rows| > 1 {
      assert rows[0].supersededBy.Some?;
      FirstOpen(rows[1..]);
    }
  }

  lemma CurrentIsLast(rows: seq<Template>)
    requires Chain(rows)
    ensures FindCurrent(rows) == if rows == [] then None else Some(rows[|rows| - 1])
  {
    if rows != [] {
      assert rows[|rows| - 1].supersededBy == NextId(rows, |rows| - 1);
      forall i | 0 <= i < |rows| - 1 ensures rows[i].supersededBy.Some? {
        assert rows[i].supersededBy == NextId(rows, i);
      }
      FirstOpen(rows);
    }
  }

  // A commit on a chain: the insert is let through exactly when the base is still the head.
  ghost predicate BaseIsHead(rows: seq<Template>, base: Option<Template>) {
    var head := FindCurrent(rows);
    (base.None? && head.None?) || (base.Some? && head.Some? && head.value.id == base.value.id)
  }

  lemma VersionGuardsHead(rows: seq<Template>, req: Request)
    requires Chain(rows) && req.phase.Checked? && RequestOk(rows, req)
    ensures HasVersion(rows, req.body.version) <==> !BaseIsHead(rows, req.phase.base)
    ensures !HasVersion(rows, req.body.version) ==> req.body.version == |rows| + 1
  {
    CurrentIsLast(rows);
    if req.phase.base.Some? {
      var t := req.phase.base.value;
      var i :| 0 <= i < |rows| && rows[i].id == t.id && rows[i].version == t.version;
      assert rows[i].version == i + 1;
      if i + 1 < |rows| { assert rows[i + 1].version == req.body.version; }
    } else if rows != [] {
      assert rows[0].version == 1;
    }
  }

  lemma CommitExtendsChain(rows: seq<Template>, req: Request, newId: nat)
    requires Chain(rows) && req.phase.Checked? && RequestOk(rows, req) && !HasId(rows, newId)
    requires BaseIsHead(rows, req.phase.base)
    ensures var committed := CommitRows(rows, req.phase.base, req.body, newId);
      && committed.Some? && |committed.value| == |rows| + 1
      && Chain(committed.value)
      && BuiltAt(committed.value, newId, req.body, |rows|)
      && (forall i :: 0 <= i < |rows| ==> committed.value[i] == Supersede(rows, req.phase.base, newId)[i])
  {
    VersionGuardsHead(rows, req);
    CurrentIsLast(rows);
    var rows' := CommitRows(rows, req.phase.base, req.body, newId).value;
    forall i | 0 <= i < |rows'|
      ensures rows'[i].version == i + 1
      ensures rows'[i].supersededBy == NextId(rows', i)
    {
      if i < |rows| { assert rows'[i].id == rows[i].id; }
    }
    forall i, j | 0 <= i < j < |rows'| ensures rows'[i].id != rows'[j].id {
      assert rows'[i].id == rows[i].id;
    }
  }

  lemma RequestsSurviveCommit(rows: seq<Template>, rows': seq<Template>, req: Request)
    requires RequestOk(rows, req) && |rows| <= |rows'|
    requires forall i :: 0 <= i < |rows| ==>
      rows'[i].id == rows[i].id && rows'[i].version == rows[i].version && rows'[i].structure == rows[i].structure
    ensures RequestOk(rows', req)
  {
    if req.phase.Accepted? {
      var i :| 0 <= i < |rows| && BuiltAt(rows, req.phase.id, req.body, i);
      assert BuiltAt(rows', req.phase.id, req.body, i);
    }
    if req.phase.Checked? && req.phase.base.Some? {
      var t := req.phase.base.value;
      var i :| 0 <= i < |rows| && rows[i].id == t.id && rows[i].version == t.version;
      assert rows'[i].id == t.id;
    }
  }

  lemma CommitKeepsInv(st: State, r: nat, newId: nat)
    requires Inv(st)
    ensures Inv(Step(st, Commit(r, newId)))
  {
    var st' := Step(st, Commit(r, newId));
    if st' != st {
      var req := st.requests[r];
      VersionGuardsHead(st.rows, req);
      if BaseIsHead(st.rows, req.phase.base) { CommitExtendsChain(st.rows, req, newId); }
      forall i | 0 <= i < |st'.requests| ensures RequestOk(st'.rows, st'.requests[i]) {
        assert RequestOk(st.rows, st.requests[i]);
        if st'.rows != st.rows {
          assert forall j :: 0 <= j < |st.rows| ==> st'.rows[j] == Supersede(st.rows, req.phase.base, newId)[j];
          RequestsSurviveCommit(st.rows, st'.rows, st.requests[i]);
        }
      }
      forall i | 0 <= i < |st'.creates| ensures CreateOk(st', st'.creates[i]) { assert CreateOk(st, st.creates[i]); }
    }
  }

  lemma ArriveKeepsInv(st: State, client: nat, body: Body, dto: int)
    requires Inv(st)
    ensures Inv(Arrive(st, client, body, dto))
  {
    var st' := Arrive(st, client, body, dto);
    CurrentIsLast(st.rows);
    forall r | 0 <= r < |st'.requests| ensures RequestOk(st'.rows, st'.requests[r]) {
      if r < |st.requests| { assert RequestOk(st.rows, st.requests[r]); }
    }
    forall i | 0 <= i < |st'.creates| ensures CreateOk(st', st'.creates[i]) { assert CreateOk(st, st.creates[i]); }
  }

  lemma RespondKeepsInv(st: State, r: nat)
    requires Inv(st)
    ensures Inv(Step(st, Respond(r)))
  {
    var st' := Step(st, Respond(r));
    forall i | 0 <= i < |st'.requests| ensures RequestOk(st'.rows, st'.requests[i]) {
      assert RequestOk(st.rows, st.requests[i]);
    }
    forall i | 0 <= i < |st'.creates| ensures CreateOk(st', st'.creates[i]) {
      if i < |st.creates| { assert CreateOk(st, st.creates[i]); }
    }
    forall i, j | 0 <= i < j < |st'.creates| && st'.creates[i].reason.Applied? && st'.creates[j].reason.Applied?
      ensures st'.creates[i].reason != st'.creates[j].reason
    {
      assert CreateOk(st, st.creates[i]);
    }
  }

  // A step that adds or changes one request that was not accepted.
  lemma RequestStepKeepsInv(st: State, st': State, r: nat)
    requires Inv(st) && st'.rows == st.rows && st'.creates == st.creates && r < |st'.requests|
    requires |st.requests| <= |st'.requests| <= |st.requests| + 1
    requires forall i :: 0 <= i < |st.requests| && i != r ==> st'.requests[i] == st.requests[i]
    requires |st'.requests| > |st.requests| ==> r == |st.requests|
    requires RequestOk(st'.rows, st'.requests[r]) && (st'.requests[r].auto ==> st'.requests[r].answered)
    requires r < |st.requests| && st.requests[r].phase.Accepted? ==>
      st'.requests[r] == st.requests[r].(answered := true)
    ensures Inv(st')
  {
    forall i | 0 <= i < |st'.requests|
      ensures RequestOk(st'.rows, st'.requests[i]) && (st'.requests[i].auto ==> st'.requests[i].answered)
    {
      if i < |st.requests| && i != r { assert RequestOk(st.rows, st.requests[i]); }
    }
    forall i | 0 <= i < |st'.creates| ensures CreateOk(st', st'.creates[i]) { assert CreateOk(st, st.creates[i]); }
  }

  // Steps of the form itself: no request changes, and a new create is not an applied one.
  lemma SameRequestsKeepInv(st: State, st': State)
    requires Inv(st) && st'.rows == st.rows && st'.requests == st.requests
    requires st'.creates == st.creates
      || (|st'.creates| == |st.creates| + 1 && st'.creates[..|st.creates|] == st.creates
          && !st'.creates[|st.creates|].reason.Applied?)
    ensures Inv(st')
  {
    assert forall i :: 0 <= i < |st.creates| ==> st'.creates[i] == st.creates[i];
    forall i | 0 <= i < |st'.creates| ensures CreateOk(st', st'.creates[i]) {
      if i < |st.creates| { assert CreateOk(st, st.creates[i]); }
    }
  }

  lemma AdminUpsertKeepsInv(st: State, body: Body)
    requires Inv(st)
    ensures Inv(Step(st, AdminUpsert(body)))
  {
    var st1 := Arrive(st, 0, body, 0);
    ArriveKeepsInv(st, 0, body, 0);
    assert RequestOk(st1.rows, st1.requests[|st.requests|]);
    RequestStepKeepsInv(st1, Step(st, AdminUpsert(body)), |st.requests|);
  }

  lemma AutoCreateOrFailKeepsInv(st: State, ev: Event)
    requires Inv(st) && (ev.AutoCreate? || ev.Fail?)
    ensures Inv(Step(st, ev))
  {
    var st' := Step(st, ev);
    if st' != st { RequestStepKeepsInv(st, st', if ev.Fail? then ev.request else |st.requests|); }
  }

  // The handler sends an upsert: "apply forward" with a form waiting and a template known.
  predicate Sends(st: State, ev: Event) {
    && ev.Choose? && ev.choice == ApplyForward && ev.client < |st.clients|
    && st.clients[ev.client].pending.Some? && st.clients[ev.client].latest.Some?
  }

  lemma FormEffect(st: State, ev: Event)
    requires (ev.Refetch? || ev.Submit? || ev.Choose?) && !Sends(st, ev)
    ensures var st' := Step(st, ev);
      && st'.rows == st.rows && st'.requests == st.requests
      && (st'.creates == st.creates
          || (|st'.creates| == |st.creates| + 1 && st'.creates[..|st.creates|] == st.creates
              && !st'.creates[|st.creates|].reason.Applied?))
  {
  }

  lemma FormKeepsInv(st: State, ev: Event)
    requires Inv(st) && (ev.Refetch? || ev.Submit? || ev.Choose?)
    ensures Inv(Step(st, ev))
  {
    if Sends(st, ev) {
      var t := st.clients[ev.client].latest.value;
      ArriveKeepsInv(st, ev.client, Body(t.version + 1, Some(t.id), ev.structure), st.clients[ev.client].pending.value);
    } else {
      FormEffect(st, ev);
      SameRequestsKeepInv(st, Step(st, ev));
    }
  }

  lemma StepKeepsInv(st: State, ev: Event)
    requires Inv(st)
    ensures Inv(Step(st, ev))
  {
    match ev
    case Commit(r, newId) => CommitKeepsInv(st, r, newId);
    case Respond(r) => RespondKeepsInv(st, r);
    case AdminUpsert(body) => AdminUpsertKeepsInv(st, body);
    case AutoCreate(_) => AutoCreateOrFailKeepsInv(st, ev);
    case Fail(_) => AutoCreateOrFailKeepsInv(st, ev);
    case _ => FormKeepsInv(st, ev);
  }

  lemma {:induction false} RunKeepsInv(clients: nat, evs: seq<Event>)
    ensures Inv(Run(clients, evs))
    decreases |evs|
  {
    if evs != [] {
      RunKeepsInv(clients, evs[..|evs| - 1]);
      StepKeepsInv(Run(clients, evs[..|evs| - 1]), evs[|evs| - 1]);
    }
  }

  // ---------- main results ----------

  /** However reads and commits interleave, the templates are one chain of consecutive versions
      from 1, each superseded by the next, and the last is the only current one. */
  lemma OneLinearChain(clients: nat, evs: seq<Event>)
    ensures var rows := Run(clients, evs).rows;
      && Chain(rows)
      && (forall i :: 0 <= i < |rows| ==> (rows[i].supersededBy.None? <==> i == |rows| - 1))
      && FindCurrent(rows) == if rows == [] then None else Some(rows[|rows| - 1])
  {
    RunKeepsInv(clients, evs);
    CurrentIsLast(Run(clients, evs).rows);
  }

  /** No update is lost: an accepted upsert is a row of the chain with its own structure, and the
      version right before it is the very one it named as its base. */
  lemma NoLostUpdate(clients: nat, evs: seq<Event>, r: nat)
    requires r < |Run(clients, evs).requests| && Run(clients, evs).requests[r].phase.Accepted?
    ensures var st := Run(clients, evs);
      Built(st.rows, st.requests[r].phase.id, st.requests[r].body)
  {
    RunKeepsInv(clients, evs);
    assert RequestOk(Run(clients, evs).rows, Run(clients, evs).requests[r]);
  }

  // The specification of an upsert as one indivisible compare-and-swap.
  predicate AtomicallyAcceptable(rows: seq<Template>, body: Body) {
    Validate(FindCurrent(rows), body).Checked?
  }

  /** Reading first and committing later behaves as one compare-and-swap at the commit: a validated
      upsert is accepted exactly when it would be accepted by a read at that very moment, which is
      when nobody committed since its read; otherwise it is a conflict. */
  lemma CommitIsCompareAndSwap(clients: nat, evs: seq<Event>, r: nat, newId: nat)
    requires r < |Run(clients, evs).requests| && Run(clients, evs).requests[r].phase.Checked?
    requires !HasId(Run(clients, evs).rows, newId)
    ensures var st := Run(clients, evs);
      var req := st.requests[r];
      var st' := Step(st, Commit(r, newId));
      && (st'.requests[r].phase == Accepted(newId) <==> AtomicallyAcceptable(st.rows, req.body))
      && (st'.requests[r].phase == Accepted(newId) <==> BaseIsHead(st.rows, req.phase.base))
      && (st'.requests[r].phase != Accepted(newId) ==>
            st'.rows == st.rows && st'.requests[r].phase == (if req.auto then Skipped else Conflict))
      && (st'.requests[r].phase == Accepted(newId) ==>
            FindCurrent(st'.rows) == Some(Template(newId, req.body.version, None, req.body.structure)))
  {
    RunKeepsInv(clients, evs);
    var st := Run(clients, evs);
    var req := st.requests[r];
    assert RequestOk(st.rows, req);
    VersionGuardsHead(st.rows, req);
    HeadAgreesWithValidation(st.rows, req);
    if BaseIsHead(st.rows, req.phase.base) {
      CommitExtendsChain(st.rows, req, newId);
      CurrentIsLast(CommitRows(st.rows, req.phase.base, req.body, newId).value);
    }
  }

  lemma HeadAgreesWithValidation(rows: seq<Template>, req: Request)
    requires Chain(rows) && req.phase.Checked? && RequestOk(rows, req)
    ensures AtomicallyAcceptable(rows, req.body) <==> BaseIsHead(rows, req.phase.base)
  {
    CurrentIsLast(rows);
    if req.phase.base.Some? {
      var t := req.phase.base.value;
      var i :| 0 <= i < |rows| && rows[i].id == t.id && rows[i].version == t.version;
      assert rows[i].version == i + 1;
    }
  }

  // What a form fetched once was a version of the chain, and it still is.
  ghost predicate ClientsOk(st: State) {
    forall c :: 0 <= c < |st.clients| && st.clients[c].latest.Some? ==> WasRead(st.rows, st.clients[c].latest.value)
  }

  lemma CommitKeepsReads(st: State, r: nat, newId: nat, t: Template)
    requires WasRead(st.rows, t)
    ensures WasRead(Step(st, Commit(r, newId)).rows, t)
  {
    var rows' := Step(st, Commit(r, newId)).rows;
    var i :| 0 <= i < |st.rows| && st.rows[i].id == t.id && st.rows[i].version == t.version;
    assert rows'[i].id == t.id && rows'[i].version == t.version;
  }

  // Only a commit changes the rows, and only a refetch what a form knows.
  lemma KnownAsBefore(st: State, ev: Event, c: nat)
    requires c < |st.clients| && ev != Refetch(c)
    ensures var st' := Step(st, ev);
      && |st'.clients| == |st.clients| && st'.clients[c].latest == st.clients[c].latest
      && (ev.Commit? || st'.rows == st.rows)
  {
  }

  lemma RefetchedIsHead(st: State, c: nat)
    requires Chain(st.rows) && c < |st.clients|
    ensures var st' := Step(st, Refetch(c));
      && st'.rows == st.rows && |st'.clients| == |st.clients|
      && (st'.clients[c].latest.Some? ==> WasRead(st.rows, st'.clients[c].latest.value))
  {
    CurrentIsLast(st.rows);
  }

  lemma SameNumberOfClients(st: State, ev: Event)
    ensures |Step(st, ev).clients| == |st.clients|
  {
  }

  lemma StepKeepsClients(st: State, ev: Event)
    requires Chain(st.rows) && ClientsOk(st)
    ensures ClientsOk(Step(st, ev))
  {
    var st' := Step(st, ev);
    SameNumberOfClients(st, ev);
    forall c | 0 <= c < |st'.clients| && st'.clients[c].latest.Some?
      ensures WasRead(st'.rows, st'.clients[c].latest.value)
    {
      if ev == Refetch(c) {
        RefetchedIsHead(st, c);
      } else {
        KnownAsBefore(st, ev, c);
        if ev.Commit? { CommitKeepsReads(st, ev.request, ev.newId, st.clients[c].latest.value); }
      }
    }
  }

  lemma {:induction false} RunKeepsClients(clients: nat, evs: seq<Event>)
    ensures ClientsOk(Run(clients, evs))
    decreases |evs|
  {
    if evs != [] {
      RunKeepsClients(clients, evs[..|evs| - 1]);
      RunKeepsInv(clients, evs[..|evs| - 1]);
      StepKeepsClients(Run(clients, evs[..|evs| - 1]), evs[|evs| - 1]);
    }
  }

  /** The upsert of a form is turned away as a bad request exactly when its template was replaced
      before it arrived.  Otherwise it passes, and then only an overtaking commit makes it a
      conflict. */
  lemma BadRequestIffStale(clients: nat, evs: seq<Event>, c: nat, structure: int)
    requires var st := Run(clients, evs);
      c < |st.clients| && st.clients[c].pending.Some? && st.clients[c].latest.Some?
    ensures var st := Run(clients, evs);
      var head := FindCurrent(st.rows);
      var st' := Step(st, Choose(c, ApplyForward, structure));
      && head.Some? && |st'.requests| == |st.requests| + 1
      && var phase := st'.requests[|st.requests|].phase;
         && (phase == Rejected <==> st.clients[c].latest.value.id != head.value.id)
         && (phase != Rejected ==> phase == Checked(head))
  {
    RunKeepsInv(clients, evs);
    RunKeepsClients(clients, evs);
    var st := Run(clients, evs);
    var t := st.clients[c].latest.value;
    ChooseSends(st, c, t, structure);
    ReadVersionIsHead(st.rows, t);
  }

  lemma ReadVersionIsHead(rows: seq<Template>, t: Template)
    requires Chain(rows) && WasRead(rows, t)
    ensures var head := FindCurrent(rows);
      head.Some? && (t.id == head.value.id <==> t.version == head.value.version)
  {
    var i :| 0 <= i < |rows| && rows[i].id == t.id && rows[i].version == t.version;
    CurrentIsLast(rows);
    assert rows[i].version == i + 1;
  }

  // ---------- a form that comes too late ----------

  const FIRST := Template(10, 1, None, 0)

  const ADMIN := Body(2, Some(10), 1)

  // A form knows version 1 and waits for a choice; an administrator's version 2 is under way.
  function Opening(): seq<Event> {
    [AutoCreate(0), Commit(0, 10), Refetch(0), Submit(0, 7, true, true, true), AdminUpsert(ADMIN)]
  }

  function Opened(): State {
    State([FIRST],
          [Request(0, Body(1, None, 0), true, 0, Accepted(10), true),
           Request(0, ADMIN, false, 0, Checked(Some(FIRST)), true)],
          [Client(Some(FIRST), Some(7), true)], [])
  }

  lemma RunSnoc(clients: nat, evs: seq<Event>, ev: Event)
    ensures Run(clients, evs + [ev]) == Step(Run(clients, evs), ev)
  {
    assert (evs + [ev])[..|evs|] == evs;
  }

  lemma AfterFirstVersion()
    ensures Run(1, Opening()[..2])
         == State([FIRST], [Request(0, Body(1, None, 0), true, 0, Accepted(10), true)], [Client(None, None, false)], [])
  {
    var e := Opening();
    assert e[..1] == [] + [e[0]] && e[..2] == e[..1] + [e[1]];
    RunSnoc(1, [], e[0]);
    RunSnoc(1, e[..1], e[1]);
    assert Run(1, e[..1]).requests == [Request(0, Body(1, None, 0), true, 0, Checked(None), true)];
    assert Supersede([], None, 10) == [];
  }

  lemma AfterOpening()
    ensures Run(1, Opening()) == Opened()
  {
    var e := Opening();
    AfterFirstVersion();
    assert e[..3] == e[..2] + [e[2]] && e[..4] == e[..3] + [e[3]] && e == e[..4] + [e[4]];
    RunSnoc(1, e[..2], e[2]);
    assert Run(1, e[..3]).clients == [Client(Some(FIRST), None, false)];
    RunSnoc(1, e[..3], e[3]);
    assert Run(1, e[..4]).clients == [Client(Some(FIRST), Some(7), true)];
    RunSnoc(1, e[..4], e[4]);
  }

  /** The version 2 is committed before the form sends its upsert: a bad request. */
  lemma ReplacedBeforeSending()
    ensures var st := Run(1, Opening() + [Commit(1, 11)] + [Choose(0, ApplyForward, 5)]);
      |st.requests| == 3 && st.requests[2].phase == Rejected
  {
    AfterOpening();
    RunSnoc(1, Opening(), Commit(1, 11));
    RunSnoc(1, Opening() + [Commit(1, 11)], Choose(0, ApplyForward, 5));
    CommitEffect(Opened(), 1, 11);
    BadRequestIffStale(1, Opening() + [Commit(1, 11)], 0, 5);
    OneLinearChain(1, Opening() + [Commit(1, 11)]);
  }

  /** It is committed after that: a conflict. */
  lemma ReplacedAfterSending()
    ensures var st := Run(1, Opening() + [Choose(0, ApplyForward, 5)] + [Commit(1, 11)] + [Commit(2, 12)]);
      |st.requests| == 3 && st.requests[2].phase == Conflict
  {
    var sent := Opening() + [Choose(0, ApplyForward, 5)];
    AfterOpening();
    RunSnoc(1, Opening(), Choose(0, ApplyForward, 5));
    var st := Run(1, sent);
    assert st.requests[2] == Request(0, Body(2, Some(10), 5), false, 7, Checked(Some(FIRST)), false);
    RunSnoc(1, sent, Commit(1, 11));
    CommitEffect(st, 1, 11);
    var st' := Run(1, sent + [Commit(1, 11)]);
    RunSnoc(1, sent + [Commit(1, 11)], Commit(2, 12));
    assert st'.rows[1].version == 2 && st'.rows[0].id == 10;
  }

  /** A form that fetches the current template again and is not overtaken gets its version in, and
      its inspection is created when the answer arrives. */
  lemma RefetchedForkIsAccepted(clients: nat, evs: seq<Event>, c: nat, structure: int, newId: nat)
    requires var st := Run(clients, evs);
      c < |st.clients| && st.clients[c].pending.Some? && st.rows != [] && !HasId(st.rows, newId)
    ensures var st := Run(clients, evs);
      var r := |st.requests|;
      var asked := Step(Step(st, Refetch(c)), Choose(c, ApplyForward, structure));
      var committed := Step(asked, Commit(r, newId));
      && |committed.requests| == r + 1 && committed.requests[r].phase == Accepted(newId)
      && |committed.rows| == |st.rows| + 1
      && committed.rows[|st.rows|] == Template(newId, |st.rows| + 1, None, structure)
      && Step(committed, Respond(r)).creates == st.creates + [Create(c, st.clients[c].pending.value, Applied(r))]
  {
    RunKeepsInv(clients, evs);
    var st := Run(clients, evs);
    var asked := Step(Step(st, Refetch(c)), Choose(c, ApplyForward, structure));
    RefetchThenChoose(st, c, structure);
    CurrentIsLast(st.rows);
    assert st.rows[|st.rows| - 1].version == |st.rows|;
    CommitAndAnswer(asked, |st.requests|, newId);
  }

  lemma CommitAndAnswer(st: State, r: nat, newId: nat)
    requires Chain(st.rows) && r < |st.requests| && !HasId(st.rows, newId)
    requires var req := st.requests[r];
      && req.phase.Checked? && RequestOk(st.rows, req) && BaseIsHead(st.rows, req.phase.base)
      && !req.answered && req.client < |st.clients|
    ensures var req := st.requests[r];
      var committed := Step(st, Commit(r, newId));
      && |committed.requests| == |st.requests| && committed.requests[r].phase == Accepted(newId)
      && |committed.rows| == |st.rows| + 1
      && committed.rows[|st.rows|] == Template(newId, req.body.version, None, req.body.structure)
      && Step(committed, Respond(r)).creates == st.creates + [Create(req.client, req.dto, Applied(r))]
  {
    CommitExtendsChain(st.rows, st.requests[r], newId);
    CommitEffect(st, r, newId);
    AcceptedAnswer(Step(st, Commit(r, newId)), r);
  }

  lemma CommitEffect(st: State, r: nat, newId: nat)
    requires r < |st.requests| && st.requests[r].phase.Checked? && !HasId(st.rows, newId)
    requires CommitRows(st.rows, st.requests[r].phase.base, st.requests[r].body, newId).Some?
    ensures var req := st.requests[r];
      var rows' := CommitRows(st.rows, req.phase.base, req.body, newId).value;
      && Step(st, Commit(r, newId)) == st.(rows := rows', requests := st.requests[r := req.(phase := Accepted(newId))])
      && |rows'| == |st.rows| + 1
      && rows'[|st.rows|] == Template(newId, req.body.version, None, req.body.structure)
  {
  }

  lemma AcceptedAnswer(st: State, r: nat)
    requires r < |st.requests| && st.requests[r].phase.Accepted?
    requires !st.requests[r].answered && st.requests[r].client < |st.clients|
    ensures Step(st, Respond(r)).creates
         == st.creates + [Create(st.requests[r].client, st.requests[r].dto, Applied(r))]
  {
  }

  lemma RefetchThenChoose(st: State, c: nat, structure: int)
    requires Chain(st.rows) && c < |st.clients| && st.clients[c].pending.Some? && st.rows != []
    ensures var asked := Step(Step(st, Refetch(c)), Choose(c, ApplyForward, structure));
      var head := st.rows[|st.rows| - 1];
      && asked.rows == st.rows && asked.creates == st.creates && |asked.clients| == |st.clients|
      && asked.requests == st.requests +
           [Request(c, Body(head.version + 1, Some(head.id), structure), false, st.clients[c].pending.value,
                    Checked(Some(head)), false)]
      && RequestOk(st.rows, asked.requests[|st.requests|])
  {
    CurrentIsLast(st.rows);
    var head := st.rows[|st.rows| - 1];
    var st1 := Step(st, Refetch(c));
    assert st1.clients[c].latest == Some(head) && st1.clients[c].pending == st.clients[c].pending;
    assert WasRead(st.rows, head) by { assert st.rows[|st.rows| - 1].id == head.id; }
    ChooseSends(st1, c, head, structure);
  }

  lemma ChooseSends(st: State, c: nat, t: Template, structure: int)
    requires c < |st.clients| && st.clients[c].pending.Some? && st.clients[c].latest == Some(t)
    ensures Step(st, Choose(c, ApplyForward, structure))
         == Arrive(st, c, Body(t.version + 1, Some(t.id), structure), st.clients[c].pending.value)
  {
  }

  /** Under apply-forward an inspection is created only after its own upsert was accepted and is in
      the chain, with the form contents of the moment of choice, and once for each upsert. */
  lemma InspectionFollowsItsUpsert(clients: nat, evs: seq<Event>, i: nat)
    requires i < |Run(clients, evs).creates| && Run(clients, evs).creates[i].reason.Applied?
    ensures var st := Run(clients, evs);
      var c := st.creates[i];
      && c.reason.request < |st.requests|
      && var req := st.requests[c.reason.request];
         && req.phase.Accepted? && Built(st.rows, req.phase.id, req.body)
         && req.client == c.client && req.dto == c.dto
         && forall j :: 0 <= j < |st.creates| && j != i ==> st.creates[j].reason != c.reason
  {
    RunKeepsInv(clients, evs);
    var st := Run(clients, evs);
    assert CreateOk(st, st.creates[i]);
    assert RequestOk(st.rows, st.requests[st.creates[i].reason.request]);
  }

  // ---------- what each event of a form and of the service does ----------

  // No other form is touched, and no template or request.
  ghost predicate OnlyForm(st: State, st': State, c: nat)
    requires c < |st.clients|
  {
    && st'.rows == st.rows && st'.requests == st.requests && |st'.clients| == |st.clients|
    && forall i :: 0 <= i < |st.clients| && i != c ==> st'.clients[i] == st.clients[i]
  }

  /** A submission creates its inspection straight away exactly when it is valid and there is nothing
      to ask: the feature is off, no template is known, or the form is as the template has it.
      Otherwise a valid one waits, contents and all, with the dialog open; an invalid one does
      nothing. */
  lemma SubmissionEffect(clients: nat, evs: seq<Event>, c: nat, dto: int, valid: bool, enabled: bool, changed: bool)
    requires c < |Run(clients, evs).clients|
    ensures var st := Run(clients, evs);
      var st' := Step(st, Submit(c, dto, valid, enabled, changed));
      var form, form' := st.clients[c], st'.clients[c];
      var direct := valid && (!enabled || form.latest.None? || !changed);
      && OnlyForm(st, st', c) && form'.latest == form.latest
      && (!valid ==> st' == st)
      && (st'.creates == st.creates + [Create(c, dto, Direct)] <==> direct)
      && (direct ==> form' == form)
      && (valid && enabled && form.latest.Some? && changed ==>
            st'.creates == st.creates && form'.pending == Some(dto) && form'.dialogOpen)
  {
  }

  /** "This one only" creates the waiting inspection and closes the dialog, "cancel" changes nothing,
      and neither sends an upsert. */
  lemma ChoiceWithoutUpsert(clients: nat, evs: seq<Event>, c: nat, structure: int)
    requires c < |Run(clients, evs).clients|
    ensures var st := Run(clients, evs);
      var only := Step(st, Choose(c, ThisOnlyChoice, structure));
      && Step(st, Choose(c, CancelChoice, structure)) == st
      && OnlyForm(st, only, c)
      && (st.clients[c].pending.None? ==> only == st)
      && (st.clients[c].pending.Some? ==>
            && only.creates == st.creates + [Create(c, st.clients[c].pending.value, ThisOnly)]
            && !only.clients[c].dialogOpen && only.clients[c].pending == st.clients[c].pending
            && only.clients[c].latest == st.clients[c].latest)
  {
  }

  lemma AskedThenThisOnly(clients: nat, evs: seq<Event>, c: nat, dto: int, structure: int)
    requires c < |Run(clients, evs).clients| && Run(clients, evs).clients[c].latest.Some?
    ensures var st := Run(clients, evs);
      var asked := Step(st, Submit(c, dto, true, true, true));
      && asked.creates == st.creates
      && Step(asked, Choose(c, ThisOnlyChoice, structure)).creates == st.creates + [Create(c, dto, ThisOnly)]
  {
    SubmissionEffect(clients, evs, c, dto, true, true, true);
    RunSnoc(clients, evs, Submit(c, dto, true, true, true));
    ChoiceWithoutUpsert(clients, evs + [Submit(c, dto, true, true, true)], c, structure);
  }

  /** "Apply forward" sends one upsert: the next version after the template the form knows, based on
      it, with the form's structure; no inspection yet, and the dialog stays as it is. */
  lemma ApplyForwardSends(clients: nat, evs: seq<Event>, c: nat, structure: int)
    requires c < |Run(clients, evs).clients|
    ensures var st := Run(clients, evs);
      var st' := Step(st, Choose(c, ApplyForward, structure));
      var form := st.clients[c];
      && st'.rows == st.rows && st'.clients == st.clients && st'.creates == st.creates
      && (form.pending.None? || form.latest.None? ==> st' == st)
      && (form.pending.Some? && form.latest.Some? ==>
            && |st'.requests| == |st.requests| + 1 && st'.requests[..|st.requests|] == st.requests
            && var req := st'.requests[|st.requests|];
               && req.client == c && req.dto == form.pending.value && !req.auto && !req.answered
               && req.body == Body(form.latest.value.version + 1, Some(form.latest.value.id), structure))
  {
  }

  /** Whoever sends it, an upsert passes the checks exactly when it names the next version and, if
      there is a template, the current one as its base. */
  lemma ChecksPassIff(clients: nat, evs: seq<Event>, body: Body)
    ensures var st := Run(clients, evs);
      var st' := Step(st, AdminUpsert(body));
      var n := |st.rows|;
      && st'.rows == st.rows && st'.clients == st.clients && st'.creates == st.creates
      && |st'.requests| == |st.requests| + 1 && st'.requests[..|st.requests|] == st.requests
      && st'.requests[|st.requests|].body == body
      && var passes := body.version == n + 1 && (n > 0 ==> body.supersededBy == Some(st.rows[n - 1].id));
         st'.requests[|st.requests|].phase ==
           if passes then Checked(if n > 0 then Some(st.rows[n - 1]) else None) else Rejected
  {
    RunKeepsInv(clients, evs);
    CurrentIsLast(Run(clients, evs).rows);
  }

  /** Automatic creation makes version 1 where there is no template, and steps back where there is
      one. */
  lemma AutoCreateMakesTheFirst(clients: nat, evs: seq<Event>, structure: int, newId: nat)
    requires !HasId(Run(clients, evs).rows, newId)
    ensures var st := Run(clients, evs);
      var r := |st.requests|;
      var st' := Step(Step(st, AutoCreate(structure)), Commit(r, newId));
      && |st'.requests| == r + 1 && st'.creates == st.creates && st'.clients == st.clients
      && (st.rows == [] ==>
            st'.rows == [Template(newId, 1, None, structure)] && st'.requests[r].phase == Accepted(newId))
      && (st.rows != [] ==> st'.rows == st.rows && st'.requests[r].phase == Skipped)
  {
    var st := Run(clients, evs);
    RunKeepsInv(clients, evs);
    CurrentIsLast(st.rows);
    if st.rows == [] {
      CommitEffect(Step(st, AutoCreate(structure)), |st.requests|, newId);
    }
  }

  /** The answer of an accepted upsert creates the inspection and closes the dialog of its form; any
      other answer creates nothing and leaves every form as it is. */
  lemma AnswerEffect(clients: nat, evs: seq<Event>, r: nat)
    requires var st := Run(clients, evs);
      && r < |st.requests| && !st.requests[r].phase.Checked? && !st.requests[r].answered
      && st.requests[r].client < |st.clients|
    ensures var st := Run(clients, evs);
      var st' := Step(st, Respond(r));
      var req := st.requests[r];
      && st'.rows == st.rows && |st'.requests| == |st.requests| && st'.requests[r].answered
      && (req.phase.Accepted? ==>
            && st'.creates == st.creates + [Create(req.client, req.dto, Applied(r))]
            && |st'.clients| == |st.clients| && !st'.clients[req.client].dialogOpen)
      && (!req.phase.Accepted? ==> st'.creates == st.creates && st'.clients == st.clients)
  {
  }

  /** An upsert that fails on the way changes no template. */
  lemma FailedUpsertChangesNothing(clients: nat, evs: seq<Event>, r: nat)
    requires var st := Run(clients, evs); r < |st.requests| && st.requests[r].phase.Checked?
    ensures var st := Run(clients, evs);
      var st' := Step(st, Fail(r));
      && st'.rows == st.rows && st'.creates == st.creates && st'.clients == st.clients
      && |st'.requests| == |st.requests| && st'.requests[r].phase == Failed
  {
  }

  // ---------- the classes ----------

  class TemplateService {
    var rows: seq<Template>

    method Current() returns (r: Option<Template>)
      ensures r == FindCurrent(rows)
    {
      var i := 0;
      while i < |rows|
        invariant 0 <= i <= |rows|
        invariant FindCurrent(rows[i..]) == FindCurrent(rows)
      {
        if rows[i].supersededBy.None? { return Some(rows[i]); }
        assert rows[i..][1..] == rows[i + 1..];
        i := i + 1;
      }
      return None;
    }

    method BeginUpsert(body: Body) returns (p: Phase)
      ensures p == Validate(FindCurrent(rows), body)
    {
      var current := Current();
      if current.Some? && body.supersededBy != Some(current.value.id) { return Rejected; }
      var expectedVersion := 1;
      if current.Some? { expectedVersion := current.value.version + 1; }
      if body.version != expectedVersion { return Rejected; }
      return Checked(current);
    }

    method CommitUpsert(base: Option<Template>, body: Body, newId: nat) returns (ok: bool)
      requires !HasId(rows, newId) && (base.Some? ==> HasId(rows, base.value.id))
      modifies this
      ensures ok == CommitRows(old(rows), base, body, newId).Some?
      ensures rows == if ok then CommitRows(old(rows), base, body, newId).value else old(rows)
    {
      if HasVersion(rows, body.version) { return false; }
      rows := rows + [Template(newId, body.version, None, body.structure)];
      if base.Some? {
        var i := 0;
        while i < |rows|
          invariant 0 <= i <= |rows| == |old(rows)| + 1
          invariant forall j :: 0 <= j < i && j < |old(rows)| ==> rows[j] == Supersede(old(rows), base, newId)[j]
          invariant forall j :: i <= j < |old(rows)| ==> rows[j] == old(rows)[j]
          invariant rows[|old(rows)|] == Template(newId, body.version, None, body.structure)
        {
          if rows[i].id == base.value.id { rows := rows[i := rows[i].(supersededBy := Some(newId))]; }
          i := i + 1;
        }
      }
      return true;
    }
  }

  class ForkForm {
    var latest: Option<Template>
    var pending: Option<int>
    var dialogOpen: bool

    function Current(): Client reads this { Client(latest, pending, dialogOpen) }

    // True: the inspection is created straight away.
    method HandleSubmit(c: nat, dto: int, valid: bool, enabled: bool, changed: bool, ghost st: State)
        returns (create: bool)
      requires c < |st.clients| && st.clients[c] == Current()
      modifies this
      ensures var st' := Step(st, Submit(c, dto, valid, enabled, changed));
        && st'.clients[c] == Current() && st'.requests == st.requests
        && st'.creates == st.creates + (if create then [Create(c, dto, Direct)] else [])
    {
      if !valid { return false; }
      if !enabled || latest.None? { return true; }
      if !changed { return true; }
      pending := Some(dto);
      dialogOpen := true;
      return false;
    }

    // What the choice sends: an inspection, an upsert, or neither.
    method HandleForkChoice(c: nat, choice: Choice, structure: int, ghost st: State)
      returns (create: Option<int>, upsert: Option<Body>)
      requires c < |st.clients| && st.clients[c] == Current()
      modifies this
      ensures var st' := Step(st, Choose(c, choice, structure));
        && st'.clients[c] == Current()
        && st'.creates == st.creates + (if create.Some? then [Create(c, create.value, ThisOnly)] else [])
        && (upsert.Some? ==> pending.Some? && st' == Arrive(st, c, upsert.value, pending.value))
        && (upsert.None? ==> st'.requests == st.requests)
    {
      create, upsert := None, None;
      if pending.None? || choice == CancelChoice { return; }
      if choice == ThisOnlyChoice {
        dialogOpen := false;
        create := pending;
        return;
      }
      if latest.None? { return; }
      upsert := Some(Body(latest.value.version + 1, Some(latest.value.id), structure));
    }
  }
}

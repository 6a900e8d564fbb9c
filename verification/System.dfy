/** The consent machinery and the outbox publishers put together: a commit appends one audit row and one
    outbox row, and the theorems of both parts meet. */
module System {
  import opened Std
  import C = Consents
  import CI = ConsentInvariants
  import E = Expiry
  import O = Outbox

  datatype System = System(core: C.State, out: O.Outbox)

  datatype Action = Core(action: C.Action) | Publish(event: O.Event)

  function Init(strictActor: bool): System { System(C.Init(strictActor), O.Empty()) }

  predicate Commits(s: C.State, a: C.Action) {
    a.OnCall? && a.statement.CommitTx? && a.call < |s.calls| && s.calls[a.call].phase.Committing?
  }

  /** The outbox row of the transaction; its payload was built by call i. */
  function OutboxRow(c: C.Call, i: nat): O.Row
    requires c.phase.Committing?
  {
    O.Row(c.phase.outboxId, C.KindOf(c.op), c.target, O.Payload(i, None), c.phase.at, false)
  }

  /** What a step of the consent machinery means for the outbox table. */
  function Emitted(s: C.State, a: C.Action): seq<O.Event> {
    if Commits(s, a) then [O.Insert(OutboxRow(s.calls[a.call], a.call))] else []
  }

  function Step(s: System, a: Action): System {
    match a
    case Core(x) => System(C.Step(s.core, x), O.Run(s.out, Emitted(s.core, x)))
    case Publish(e) => if e.Insert? then s else s.(out := O.Step(s.out, e))
  }

  function Run(s: System, trace: seq<Action>): System {
    if trace == [] then s else Step(Run(s, trace[..|trace| - 1]), trace[|trace| - 1])
  }

  // ---------- each part runs as in its own module ----------

  function CoreTrace(trace: seq<Action>): seq<C.Action> {
    if trace == [] then []
    else
      var before := CoreTrace(trace[..|trace| - 1]);
      if trace[|trace| - 1].Core? then before + [trace[|trace| - 1].action] else before
  }

  function OutTrace(strictActor: bool, trace: seq<Action>): seq<O.Event> {
    if trace == [] then []
    else
      var n := |trace| - 1;
      var before := OutTrace(strictActor, trace[..n]);
      match trace[n]
      case Core(x) => before + Emitted(Run(Init(strictActor), trace[..n]).core, x)
      case Publish(e) => if e.Insert? then before else before + [e]
  }

  lemma {:induction false} Parts(strictActor: bool, trace: seq<Action>)
    ensures Run(Init(strictActor), trace).core == C.Run(C.Init(strictActor), CoreTrace(trace))
    ensures Run(Init(strictActor), trace).out == O.Run(O.Empty(), OutTrace(strictActor, trace))
  {
    if trace != [] {
      var n := |trace| - 1;
      Parts(strictActor, trace[..n]);
      var before := Run(Init(strictActor), trace[..n]);
      match trace[n] {
        case Core(x) =>
          C.RunPush(C.Init(strictActor), CoreTrace(trace[..n]), x);
          if Commits(before.core, x) {
            O.RunPush(O.Empty(), OutTrace(strictActor, trace[..n]), Emitted(before.core, x)[0]);
            O.RunPush(before.out, [], Emitted(before.core, x)[0]);
            assert [] + Emitted(before.core, x) == Emitted(before.core, x);
          } else {
            assert Emitted(before.core, x) == [];
            assert OutTrace(strictActor, trace) == OutTrace(strictActor, trace[..n]);
          }
        case Publish(e) =>
          if !e.Insert? {
            O.RunPush(O.Empty(), OutTrace(strictActor, trace[..n]), e);
          }
      }
    }
  }

  // ---------- serial numbers ----------

  predicate HasAuditId(p: C.Phase) { p.InsertingOutbox? || p.Committing? }

  /** BIGSERIAL values are handed out once; one that a rolled-back transaction drew is never used again. */
  ghost predicate AuditSerials(s: C.State) { AuditDraws(s) && AuditIds(s) }

  ghost predicate AuditDraws(s: C.State) {
    && (forall i :: 0 <= i < |s.calls| && HasAuditId(s.calls[i].phase) ==> s.calls[i].phase.auditId < s.nextAudit)
    && (forall i, j :: 0 <= i < j < |s.calls| && HasAuditId(s.calls[i].phase) && HasAuditId(s.calls[j].phase) ==>
          s.calls[i].phase.auditId != s.calls[j].phase.auditId)
  }

  ghost predicate AuditIds(s: C.State) {
    && (forall k :: 0 <= k < |s.audit| ==> s.audit[k].id < s.nextAudit)
    && (forall k, i :: 0 <= k < |s.audit| && 0 <= i < |s.calls| && HasAuditId(s.calls[i].phase) ==>
          s.audit[k].id != s.calls[i].phase.auditId)
    && (forall k, l :: 0 <= k < l < |s.audit| ==> s.audit[k].id != s.audit[l].id)
  }

  ghost predicate OutboxSerials(s: C.State, rows: seq<O.Row>) {
    && (forall i :: 0 <= i < |s.calls| && s.calls[i].phase.Committing? ==> s.calls[i].phase.outboxId < s.nextOutbox)
    && (forall i, j :: 0 <= i < j < |s.calls| && s.calls[i].phase.Committing? && s.calls[j].phase.Committing? ==>
          s.calls[i].phase.outboxId != s.calls[j].phase.outboxId)
    && (forall k :: 0 <= k < |rows| ==> rows[k].id < s.nextOutbox)
    && (forall k, i :: 0 <= k < |rows| && 0 <= i < |s.calls| && s.calls[i].phase.Committing? ==>
          rows[k].id != s.calls[i].phase.outboxId)
  }

  lemma StatementKeepsAuditSerials(s: C.State, i: nat, x: C.Statement)
    requires AuditSerials(s) && i < |s.calls|
    ensures AuditSerials(C.StepCall(s, i, x))
  {
    StatementKeepsDraws(s, i, x);
    StatementKeepsIds(s, i, x);
  }

  lemma StatementKeepsDraws(s: C.State, i: nat, x: C.Statement)
    requires AuditDraws(s) && i < |s.calls|
    ensures AuditDraws(C.StepCall(s, i, x))
  {}

  lemma StatementKeepsIds(s: C.State, i: nat, x: C.Statement)
    requires AuditDraws(s) && AuditIds(s) && i < |s.calls|
    ensures AuditIds(C.StepCall(s, i, x))
  {
    if Commits(s, C.OnCall(i, x)) {
      assert C.StepCall(s, i, x).audit == s.audit + [C.RowOf(s.calls[i], i)];
    } else {
      assert C.StepCall(s, i, x).audit == s.audit;
    }
  }

  lemma StatementKeepsOutboxSerials(s: C.State, rows: seq<O.Row>, i: nat, x: C.Statement)
    requires OutboxSerials(s, rows) && i < |s.calls|
    ensures var added := if Commits(s, C.OnCall(i, x)) then [OutboxRow(s.calls[i], i)] else [];
            OutboxSerials(C.StepCall(s, i, x), rows + added)
  {}

  /** Row n of the outbox and row n of the audit log come from one transaction. */
  predicate Paired(a: C.AuditRow, r: O.Row) {
    r.kind == a.kind && r.key == a.consent && r.at == a.at && r.payload.body == a.call
  }

  ghost predicate Correspond(s: System) {
    |s.core.audit| == |s.out.rows| && forall n :: 0 <= n < |s.core.audit| ==> Paired(s.core.audit[n], s.out.rows[n])
  }

  lemma NewRowGoesIn(out: O.Outbox, row: O.Row)
    requires O.FreshId(out.rows, row.id) && !row.published && row.payload.error.None?
    ensures O.Run(out, [O.Insert(row)]) == out.(rows := out.rows + [row])
  {
    O.RunPush(out, [], O.Insert(row));
    assert [] + [O.Insert(row)] == [O.Insert(row)];
  }

  /** The commit's outbox row really goes in: its id is new. */
  lemma EmittedIsInserted(s: System, a: C.Action)
    requires OutboxSerials(s.core, s.out.rows)
    ensures Step(s, Core(a)).out ==
            if Commits(s.core, a) then s.out.(rows := s.out.rows + [OutboxRow(s.core.calls[a.call], a.call)]) else s.out
  {
    if Commits(s.core, a) {
      NewRowGoesIn(s.out, OutboxRow(s.core.calls[a.call], a.call));
    }
  }

  ghost predicate Linked(s: System) {
    AuditSerials(s.core) && OutboxSerials(s.core, s.out.rows) && Correspond(s)
  }

  /** Nothing drew or logged a number; at most a call without one was added. */
  predicate NoDraw(s: C.State, s': C.State) {
    && s'.audit == s.audit && s'.nextAudit == s.nextAudit && s'.nextOutbox == s.nextOutbox
    && s.calls <= s'.calls
    && (forall i :: |s.calls| <= i < |s'.calls| ==> !HasAuditId(s'.calls[i].phase))
  }

  lemma OtherDrawsNothing(s: C.State, a: C.Action)
    requires !a.OnCall?
    ensures NoDraw(s, C.Step(s, a))
  {}

  lemma NoDrawKeepsSerials(s: C.State, s': C.State, rows: seq<O.Row>)
    requires AuditSerials(s) && OutboxSerials(s, rows) && NoDraw(s, s')
    ensures AuditSerials(s') && OutboxSerials(s', rows)
  {}

  lemma {:induction false} CoreKeepsLinked(s: System, a: C.Action)
    requires Linked(s)
    ensures Linked(Step(s, Core(a)))
  {
    EmittedIsInserted(s, a);
    if a.OnCall? && a.call < |s.core.calls| {
      StatementKeepsAuditSerials(s.core, a.call, a.statement);
      StatementKeepsOutboxSerials(s.core, s.out.rows, a.call, a.statement);
      assert s.out.rows + [] == s.out.rows;
    } else if !a.OnCall? {
      OtherDrawsNothing(s.core, a);
      NoDrawKeepsSerials(s.core, C.Step(s.core, a), s.out.rows);
    }
  }

  lemma PublishKeepsLinked(s: System, e: O.Event)
    requires Linked(s)
    ensures Linked(Step(s, Publish(e)))
  {
    O.StepKeepsRows(s.out, e);
    var rows, rows' := s.out.rows, Step(s, Publish(e)).out.rows;
    assert |rows'| == |rows|;
    assert forall n :: 0 <= n < |rows| ==> O.SameEvent(rows[n], rows'[n]);
  }

  lemma {:induction false} LinkedReachable(strictActor: bool, trace: seq<Action>)
    ensures Linked(Run(Init(strictActor), trace))
  {
    if trace != [] {
      var n := |trace| - 1;
      LinkedReachable(strictActor, trace[..n]);
      match trace[n] {
        case Core(x) => CoreKeepsLinked(Run(Init(strictActor), trace[..n]), x);
        case Publish(e) => PublishKeepsLinked(Run(Init(strictActor), trace[..n]), e);
      }
    }
  }

  // ---------- theorems about the whole ----------

  /** Audit rows and outbox rows correspond one to one, by transaction, with equal event type, consent
      and stamp, whatever failed between BEGIN and COMMIT and however transactions interleaved. */
  lemma CorrespondenceTheorem(strictActor: bool, trace: seq<Action>)
    ensures
      var s := Run(Init(strictActor), trace);
      && Correspond(s)
      && O.DistinctIds(s.out.rows)
      && (forall k, l :: 0 <= k < l < |s.core.audit| ==>
            s.core.audit[k].id != s.core.audit[l].id && s.core.audit[k].call != s.core.audit[l].call)
  {
    LinkedReachable(strictActor, trace);
    Parts(strictActor, trace);
    O.DeliveringReachable(OutTrace(strictActor, trace));
    CI.Reachable(strictActor, CoreTrace(trace));
  }

  /** The position of the audit row behind a logged record. */
  lemma AuditBehind(strictActor: bool, trace: seq<Action>, k: nat) returns (n: nat)
    requires k < |Run(Init(strictActor), trace).out.log|
    ensures var s := Run(Init(strictActor), trace);
            && n < |s.core.audit| == |s.out.rows|
            && O.Tells(s.out.log[k], s.out.rows[n])
            && CI.RowIs(s.out.log[k].key, s.out.log[k].kind)(s.core.audit[n])
            && s.core.audit[n].call == s.out.log[k].payload.body
  {
    var s := Run(Init(strictActor), trace);
    LinkedReachable(strictActor, trace);
    Parts(strictActor, trace);
    O.DeliveringReachable(OutTrace(strictActor, trace));
    assert O.Told(s.out.rows, s.out.log[k]);
    n :| 0 <= n < |s.out.rows| && O.Tells(s.out.log[k], s.out.rows[n]);
    assert Paired(s.core.audit[n], s.out.rows[n]);
  }

  /** The broker never runs ahead of the audit log, nor the audit log of the consents table: behind each
      record is a committed audit row of its kind and consent, and behind that a status write. */
  lemma NothingAnnouncedThatDidNotHappen(strictActor: bool, trace: seq<Action>, k: nat)
    requires k < |Run(Init(strictActor), trace).out.log|
    ensures
      var s := Run(Init(strictActor), trace);
      var m := s.out.log[k];
      && Count(s.core.audit, CI.RowIs(m.key, m.kind)) >= 1
      && (m.kind != C.ConsentQueried ==>
            Count(s.core.history, CI.ChangeIs(m.key, m.kind)) >= Count(s.core.audit, CI.RowIs(m.key, m.kind)))
  {
    var s := Run(Init(strictActor), trace);
    var n := AuditBehind(strictActor, trace, k);
    CountHit(s.core.audit, CI.RowIs(s.out.log[k].key, s.out.log[k].kind), n);
    Parts(strictActor, trace);
    if s.out.log[k].kind != C.ConsentQueried {
      CI.ConservationTheorem(strictActor, CoreTrace(trace), s.out.log[k].key, s.out.log[k].kind);
    }
  }

  /** To a consumer that drops repeated idempotency keys, each consent expires at most once, across all
      pods and publishers. */
  lemma ExpiryAnnouncedOnce(strictActor: bool, trace: seq<Action>, k: nat, l: nat)
    requires E.SessionsStayOpen(C.Init(strictActor), CoreTrace(trace))
    requires k < |Run(Init(strictActor), trace).out.log| && l < |Run(Init(strictActor), trace).out.log|
    ensures
      var log := Run(Init(strictActor), trace).out.log;
      log[k].kind == log[l].kind == C.ConsentExpired && log[k].key == log[l].key ==> log[k].id == log[l].id
  {
    var s := Run(Init(strictActor), trace);
    var m := AuditBehind(strictActor, trace, k);
    var n := AuditBehind(strictActor, trace, l);
    var c := s.out.log[k].key;
    Parts(strictActor, trace);
    E.ExpiryTheorem(strictActor, CoreTrace(trace), c);
    if s.out.log[k].kind == s.out.log[l].kind == C.ConsentExpired && c == s.out.log[l].key && m != n {
      CountTwoHits(s.core.audit, CI.RowIs(c, C.ConsentExpired), if m < n then m else n, if m < n then n else m);
    }
  }
}

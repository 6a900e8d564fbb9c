/** The service, the repositories and the expiry job in their own, imperative form. At every await other
    calls, pods and the environment may take any steps; the ghost trace shows that each execution is a
    run of the step system, so its theorems hold at every await of these methods. */
module ConsentService {
  import opened Std
  import opened Consents
  import opened ConsentInvariants
  import opened Expiry

  datatype Result<+T> = Ok(value: T) | Threw

  /** What happens at the k-th await of a method: the steps of everybody else, and whether the awaited
      statement throws. */
  datatype World = World(env: nat -> seq<Action>, fails: nat -> bool)

  ghost predicate Quiet(w: World) { forall k :: w.env(k) == [] && !w.fails(k) }

  function Shift(w: World, by_: nat): World {
    World((k: nat) => w.env(by_ + k), (k: nat) => w.fails(by_ + k))
  }

  /** Whose control point the executing method is. */
  datatype Owner = Request(call: nat) | TickOf(pod: nat)

  predicate WorksOn(s: State, me: Owner, call: nat) {
    match me
    case Request(i) => i == call
    case TickOf(pod) => pod in s.pods && s.pods[pod].Looping? && s.pods[pod].current == Some(call)
  }

  predicate Mine(s: State, me: Owner, a: Action) {
    || (a.OnCall? && WorksOn(s, me, a.call))
    || (a.OnPod? && me == TickOf(a.pod))
  }

  /** The control point of the method is where it was; the rest of the state may have moved on. */
  predicate Undisturbed(s: State, s': State, me: Owner) {
    && Later(s, s')
    && s'.strictActor == s.strictActor
    && |s.calls| <= |s'.calls|
    && (forall i :: 0 <= i < |s.calls| && WorksOn(s, me, i) ==> s'.calls[i] == s.calls[i])
    && (me.TickOf? ==> (me.pod in s.pods <==> me.pod in s'.pods) &&
                       (me.pod in s.pods ==> s'.pods[me.pod] == s.pods[me.pod]))
  }

  lemma OthersDoNotDisturb(s: State, me: Owner, a: Action)
    requires !Mine(s, me, a)
    ensures Undisturbed(s, Step(s, a), me)
  {
    StepLater(s, a);
  }

  class Database {
    const strictActor: bool
    var s: State
    ghost var trace: seq<Action>

    ghost predicate Valid() reads this {
      s == Run(Init(strictActor), trace)
    }

    constructor (strictActor: bool)
      ensures Valid() && s == Init(strictActor) && trace == []
    {
      this.strictActor := strictActor;
      s := Init(strictActor);
      trace := [];
    }

    method Perform(a: Action)
      requires Valid()
      modifies this
      ensures Valid() && s == Step(old(s), a) && trace == old(trace) + [a]
    {
      s := Step(s, a);
      trace := trace + [a];
      RunPush(Init(strictActor), old(trace), a);
    }

    /** An await: everybody else runs. */
    method Others(env: seq<Action>, me: Owner)
      requires Valid()
      modifies this
      ensures Valid() && old(trace) <= trace && Undisturbed(old(s), s, me)
      ensures env == [] ==> s == old(s) && trace == old(trace)
    {
      for k := 0 to |env|
        invariant Valid() && old(trace) <= trace && Undisturbed(old(s), s, me)
        invariant k == 0 ==> s == old(s) && trace == old(trace)
      {
        if !Mine(s, me, env[k]) {
          OthersDoNotDisturb(s, me, env[k]);
          Perform(env[k]);
        }
      }
    }

    /** Up to the point where the awaited statement of a call takes effect, or where it throws without one. */
    method Turn(me: Owner, call: nat, w: World, k: nat) returns (threw: bool)
      requires Valid() && call < |s.calls| && WorksOn(s, me, call)
      modifies this
      ensures Valid() && old(trace) <= trace && Aside(old(s), s, me, call)
      ensures threw == w.fails(k)
      ensures s.calls[call] == if threw then old(s).calls[call].(phase := FailedPhase(old(s).calls[call])) else old(s).calls[call]
      ensures w.env(k) == [] ==> SameTables(old(s), s) && (!threw ==> s == old(s) && trace == old(trace))
    {
      Others(w.env(k), me);
      threw := w.fails(k);
      if threw {
        StepLater(s, OnCall(call, Fail));
        Perform(OnCall(call, Fail));
      }
    }

    /** The synchronous start of a request. */
    method Begin(op: Op, actor: Actor) returns (call: nat)
      requires Valid() && !op.Expire?
      modifies this
      ensures Valid() && call == |old(s).calls| && call < |s.calls|
      ensures s.calls[call] == Call(op, actor, TargetOf(op), FirstPhase(op))
      ensures trace == old(trace) + [Start(op, actor)] && s.strictActor == old(s).strictActor && SameTables(old(s), s)
    {
      call := |s.calls|;
      Perform(Start(op, actor));
    }

    /** ConsentsRepository.create */
    method Create(me: Owner, call: nat, fromNode: nat, toNode: nat, expiresAt: Option<Time>, w: World, k: nat)
      returns (threw: bool, id: nat)
      requires Valid() && call < |s.calls| && WorksOn(s, me, call)
      requires s.calls[call].phase.Writing? && s.calls[call].op == Grant(fromNode, toNode, expiresAt)
      modifies this
      ensures Valid() && old(trace) <= trace && Aside(old(s), s, me, call)
      ensures threw == w.fails(k)
      ensures threw ==> s.calls[call].phase.Stopped?
      ensures !threw ==>
                s.calls[call].phase.Opening? && s.calls[call].target == id && |s.consents| == id + 1 &&
                s.consents[id] == Consent(fromNode, toNode, Pending, None, expiresAt)
      ensures w.env(k) == [] && !threw ==>
                trace == old(trace) + [OnCall(call, Write(0))] && s.consents == old(s).consents + [s.consents[id]]
    {
      threw := Turn(me, call, w, k);
      id := |s.consents|;
      if !threw {
        var row := Consent(fromNode, toNode, Pending, None, expiresAt);
        RunPush(Init(strictActor), trace, OnCall(call, Write(0)));
        StepLater(s, OnCall(call, Write(0)));
        s := s.(consents := s.consents + [row],
                history := s.history + [Inserted(id, row)],
                calls := s.calls[call := s.calls[call].(target := id, phase := Opening)]);
        trace := trace + [OnCall(call, Write(0))];
      }
    }

    /** ConsentsRepository.updateStatus: revoke passes a date, the expiry job none. */
    method UpdateStatus(me: Owner, call: nat, id: nat, status: Status, revokedAt: Option<Time>, w: World, k: nat)
      returns (threw: bool)
      requires Valid() && call < |s.calls| && WorksOn(s, me, call) && id < |s.consents|
      requires s.calls[call].phase.Writing? && s.calls[call].target == id
      requires (s.calls[call].op.Revoke? && status == Revoked && revokedAt.Some?) ||
               (s.calls[call].op.Expire? && status == Expired && revokedAt == None)
      modifies this
      ensures Valid() && old(trace) <= trace && Aside(old(s), s, me, call)
      ensures threw == w.fails(k) && id < |s.consents|
      ensures threw ==> s.calls[call].phase.Stopped?
      ensures !threw ==> s.calls[call].phase.Opening? && s.calls[call].target == id &&
                         s.consents[id].status == status && s.consents[id].revokedAt == revokedAt
      ensures w.env(k) == [] && !threw ==>
                SameTables(old(s).(consents := s.consents), s) &&
                s.consents == old(s).consents[id := old(s).consents[id].(status := status, revokedAt := revokedAt)]
    {
      threw := Turn(me, call, w, k);
      if !threw {
        var clock := if revokedAt.Some? then revokedAt.value else 0;
        RunPush(Init(strictActor), trace, OnCall(call, Write(clock)));
        StepLater(s, OnCall(call, Write(clock)));
        s := s.(consents := s.consents[id := s.consents[id].(status := status, revokedAt := revokedAt)],
                history := s.history + [if status == Revoked then SetRevoked(id, clock) else SetExpired(id, call)],
                calls := s.calls[call := s.calls[call].(phase := Opening)]);
        trace := trace + [OnCall(call, Write(clock))];
      }
    }

    /** An awaited statement of a call: the others run up to the state `now`, then it throws without
        effect or takes effect. */
    method Statement(me: Owner, call: nat, x: Statement, w: World, k: nat) returns (threw: bool, ghost now: State)
      requires Valid() && call < |s.calls| && WorksOn(s, me, call)
      modifies this
      ensures Valid() && old(trace) <= trace && Aside(old(s), s, me, call) && Later(old(s), now)
      ensures threw == w.fails(k) && now.strictActor == old(s).strictActor
      ensures s.calls[call] == Moved(now, old(s).calls[call], if threw then Fail else x)
      ensures w.env(k) == [] && !threw ==> trace == old(trace) + [OnCall(call, x)]
      ensures w.env(k) == [] && !x.Write? ==> SameTables(old(s), s)
    {
      threw := Turn(me, call, w, k);
      now := s;
      if !threw {
        StepLater(s, OnCall(call, x));
        Perform(OnCall(call, x));
      }
    }

    /** ConsentsRepository.getById; the caller's check of the row follows without an await. */
    method GetById(me: Owner, call: nat, w: World, k: nat) returns (threw: bool, row: Option<Consent>)
      requires Valid() && call < |s.calls| && WorksOn(s, me, call) && s.calls[call].phase.Reading?
      modifies this
      ensures Valid() && old(trace) <= trace && Aside(old(s), s, me, call)
      ensures threw ==> w.fails(k) && s.calls[call] == old(s).calls[call].(phase := Stopped)
      ensures !threw ==> s.calls[call] == old(s).calls[call].(phase := AfterLoad(old(s).calls[call], s.consents))
      ensures row.Some? <==> !threw && s.calls[call].target < |s.consents|
      ensures row.Some? ==> row.value == s.consents[s.calls[call].target]
      ensures w.env(k) == [] && !threw ==> trace == old(trace) + [OnCall(call, Load)]
      ensures w.env(k) == [] && !w.fails(k) ==> !threw && SameTables(old(s), s)
    {
      threw := Turn(me, call, w, k);
      row := None;
      if !threw {
        var id := s.calls[call].target;
        if id < |s.consents| {
          row := Some(s.consents[id]);
        }
        Perform(OnCall(call, Load));
      }
    }

    /** BEGIN and the INSERT into audit_events; PostgreSQL refuses an actor that is not a UUID. */
    method OpenTransaction(me: Owner, call: nat, w: World) returns (ok: bool)
      requires Valid() && call < |s.calls| && WorksOn(s, me, call) && s.calls[call].phase.Opening?
      modifies this
      ensures Valid() && old(trace) <= trace && Aside(old(s), s, me, call)
      ensures s.calls[call].target == old(s).calls[call].target
      ensures if ok then s.calls[call].phase.InsertingOutbox?
              else Final(s.calls[call].phase) && !s.calls[call].phase.Done?
      ensures Quiet(w) ==> trace == old(trace) + [OnCall(call, BeginTx), OnCall(call, InsertAudit)] && SameTables(old(s), s)
      ensures Quiet(w) && ActorAccepted(s, s.calls[call].actor) ==> ok
    {
      ok := false;
      var threw, now := Statement(me, call, BeginTx, w, 0);
      if !threw {
        threw, now := Statement(me, call, InsertAudit, w, 1);
        ok := s.calls[call].phase.InsertingOutbox?;
      }
    }

    /** The INSERT into outbox and COMMIT. */
    method CloseTransaction(me: Owner, call: nat, w: World) returns (ok: bool)
      requires Valid() && call < |s.calls| && WorksOn(s, me, call) && s.calls[call].phase.InsertingOutbox?
      modifies this
      ensures Valid() && old(trace) <= trace && Aside(old(s), s, me, call)
      ensures s.calls[call].target == old(s).calls[call].target
      ensures Final(s.calls[call].phase) && (ok <==> s.calls[call].phase.Done?)
      ensures Quiet(w) ==> ok && trace == old(trace) + [OnCall(call, InsertOutbox), OnCall(call, CommitTx)] &&
                           SameTables(old(s), s)
    {
      ok := false;
      var threw, now := Statement(me, call, InsertOutbox, w, 2);
      if !threw {
        threw, now := Statement(me, call, CommitTx, w, 3);
        ok := !threw;
      }
    }

    /** AuditRepository.appendInTransaction: BEGIN, two INSERTs, COMMIT; any throw rolls back. */
    method AppendInTransaction(me: Owner, call: nat, w: World) returns (ok: bool)
      requires Valid() && call < |s.calls| && WorksOn(s, me, call) && s.calls[call].phase.Opening?
      modifies this
      ensures Valid() && old(trace) <= trace && Aside(old(s), s, me, call)
      ensures s.calls[call].target == old(s).calls[call].target
      ensures Final(s.calls[call].phase) && (ok <==> s.calls[call].phase.Done?)
      ensures Quiet(w) ==> trace == old(trace) + AppendTrace(call, ok) && SameTables(old(s), s)
      ensures Quiet(w) && ActorAccepted(s, s.calls[call].actor) ==> ok
    {
      ok := OpenTransaction(me, call, w);
      if ok {
        ok := CloseTransaction(me, call, w);
      }
    }
  }

  /** The statements of an undisturbed appendInTransaction; without success the second INSERT is not reached. */
  function AppendTrace(call: nat, ok: bool): seq<Action> {
    if ok then [OnCall(call, BeginTx), OnCall(call, InsertAudit)] + [OnCall(call, InsertOutbox), OnCall(call, CommitTx)]
    else [OnCall(call, BeginTx), OnCall(call, InsertAudit)]
  }

  /** Consents, clock, lock and ticks did not change. */
  predicate SameTables(s: State, s': State) {
    s'.consents == s.consents && s'.now == s.now && s'.lock == s.lock && s'.pods == s.pods
  }

  /** The executing call keeps its identity and, in a tick, its place in the loop. */
  predicate Aside(s: State, s': State, me: Owner, call: nat) {
    && Later(s, s')
    && s'.strictActor == s.strictActor
    && call < |s.calls| <= |s'.calls|
    && s'.calls[call].op == s.calls[call].op && s'.calls[call].actor == s.calls[call].actor
    && (me.TickOf? ==> (me.pod in s.pods <==> me.pod in s'.pods) &&
                       (me.pod in s.pods ==> s'.pods[me.pod] == s.pods[me.pod]))
  }

  lemma ShiftQuiet(w: World, n: nat)
    ensures Quiet(w) ==> Quiet(Shift(w, n))
  {}

  /** The statements of an undisturbed, allowed and accepted grant that becomes call i. */
  function GrantTrace(i: nat, op: Op, actor: Actor): seq<Action> {
    [Start(op, actor), OnCall(i, Decide(true))] + ([OnCall(i, Write(0))] + AppendTrace(i, true))
  }

  /** What a finished request leaves: its call is Done with exactly one audit row, or it never committed. */
  ghost predicate Outcome(s: State, call: nat, op: Op, ok: bool) {
    && call < |s.calls| && s.calls[call].op == op
    && Final(s.calls[call].phase)
    && (ok <==> s.calls[call].phase.Done?)
    && (ok <==> HasRow(s.audit, call))
  }

  /** The log holds exactly one row of the call, and it says this. */
  predicate AuditedAs(audit: seq<AuditRow>, call: nat, kind: Kind, consent: nat, actor: Actor) {
    exists j :: 0 <= j < |audit| && audit[j].call == call && audit[j].kind == kind && audit[j].consent == consent &&
                audit[j].actor == actor && forall k :: 0 <= k < |audit| && audit[k].call == call ==> k == j
  }

  /** The audit row of a call that succeeded. */
  lemma DoneIsAudited(db: Database, call: nat)
    requires db.Valid() && call < |db.s.calls| && db.s.calls[call].phase.Done?
    ensures var c := db.s.calls[call];
            AuditedAs(db.s.audit, call, KindOf(c.op), c.target, c.actor) && (!c.op.Grant? ==> c.target == c.op.consent) &&
            (c.op.Expire? ==> c.actor == SystemExpiryJob)
  {
    Reachable(db.strictActor, db.trace);
    assert CallOk(db.s, db.s.calls[call]);
    var j :| 0 <= j < |db.s.audit| && db.s.audit[j].call == call;
    assert RowMatches(db.s, db.s.audit[j]);
    forall k | 0 <= k < |db.s.audit| && db.s.audit[k].call == call ensures k == j {}
  }

  lemma FinalOutcome(db: Database, call: nat)
    requires db.Valid() && call < |db.s.calls| && Final(db.s.calls[call].phase)
    ensures Outcome(db.s, call, db.s.calls[call].op, db.s.calls[call].phase.Done?)
  {
    Reachable(db.strictActor, db.trace);
    if HasRow(db.s.audit, call) {
      var j :| 0 <= j < |db.s.audit| && db.s.audit[j].call == call;
      assert RowMatches(db.s, db.s.audit[j]);
    }
  }

  class ConsentService {
    const db: Database

    constructor (db: Database)
      ensures this.db == db
    {
      this.db := db;
    }

    /** The start of grant and revoke: policyEngine.evaluate, and a throw when it does not allow. */
    method Authorize(op: Op, actor: Actor, allowed: bool, w: World) returns (call: nat, ok: bool)
      requires db.Valid() && (op.Grant? || op.Revoke?)
      modifies db
      ensures db.Valid() && old(db.trace) <= db.trace
      ensures call == |old(db.s).calls| < |db.s.calls|
      ensures db.s.calls[call] == Call(op, actor, TargetOf(op), if !ok then Stopped else if op.Grant? then Writing else Reading)
      ensures ok <==> allowed && !w.fails(0)
      ensures Quiet(w) && allowed ==> db.trace == old(db.trace) + [Start(op, actor), OnCall(call, Decide(true))]
      ensures Quiet(w) ==> SameTables(old(db.s), db.s)
    {
      call := db.Begin(op, actor);
      var threw, now := db.Statement(Request(call), call, Decide(allowed), w, 0);
      ok := allowed && !threw;
    }

    method Grant(fromNode: nat, toNode: nat, expiresAt: Option<Time>, actor: Actor, allowed: bool, w: World)
      returns (r: Result<nat>)
      requires db.Valid()
      modifies db
      ensures db.Valid() && old(db.trace) <= db.trace
      ensures Outcome(db.s, |old(db.s).calls|, Op.Grant(fromNode, toNode, expiresAt), r.Ok?)
      ensures r.Ok? ==> allowed && r.value == db.s.calls[|old(db.s).calls|].target < |db.s.consents|
      ensures r.Ok? ==> AuditedAs(db.s.audit, |old(db.s).calls|, ConsentGranted, r.value, actor)
      ensures r.Ok? ==> var c := db.s.consents[r.value]; c.fromNode == fromNode && c.toNode == toNode && c.expiresAt == expiresAt
      ensures Quiet(w) ==>
                db.s.consents == old(db.s).consents + if allowed then [Consent(fromNode, toNode, Pending, None, expiresAt)] else []
      ensures Quiet(w) && allowed && actor.Node? ==>
                r.Ok? && db.trace == old(db.trace) + GrantTrace(|old(db.s).calls|, Op.Grant(fromNode, toNode, expiresAt), actor)
    {
      var call, ok := Authorize(Op.Grant(fromNode, toNode, expiresAt), actor, allowed, w);
      if ok {
        ShiftQuiet(w, 1);
        var id;
        ok, id := CreateAndAudit(call, fromNode, toNode, expiresAt, Shift(w, 1));
        r := Ok(id);
      }
      FinalOutcome(db, call);
      if ok { DoneIsAudited(db, call); }
      if !ok { r := Threw; }
    }

    /** The part of grant after the policy check. */
    method CreateAndAudit(call: nat, fromNode: nat, toNode: nat, expiresAt: Option<Time>, w: World)
      returns (ok: bool, id: nat)
      requires db.Valid() && call < |db.s.calls|
      requires db.s.calls[call].phase.Writing? && db.s.calls[call].op == Op.Grant(fromNode, toNode, expiresAt)
      modifies db
      ensures db.Valid() && old(db.trace) <= db.trace && Aside(old(db.s), db.s, Request(call), call)
      ensures Final(db.s.calls[call].phase) && (ok <==> db.s.calls[call].phase.Done?)
      ensures ok ==> id == db.s.calls[call].target < |db.s.consents|
      ensures ok ==> var c := db.s.consents[id]; c.fromNode == fromNode && c.toNode == toNode && c.expiresAt == expiresAt
      ensures Quiet(w) ==> db.trace == old(db.trace) + ([OnCall(call, Write(0))] + AppendTrace(call, ok))
      ensures Quiet(w) && db.s.calls[call].actor.Node? ==> ok
      ensures Quiet(w) ==> db.s.consents == old(db.s).consents + [Consent(fromNode, toNode, Pending, None, expiresAt)]
    {
      ok := false;
      var threw;
      threw, id := db.Create(Request(call), call, fromNode, toNode, expiresAt, w, 0);
      if !threw {
        ShiftQuiet(w, 1);
        ok := db.AppendInTransaction(Request(call), call, Shift(w, 1));
      }
    }

    method Revoke(consentId: nat, actor: Actor, allowed: bool, clock: Time, w: World) returns (r: Result<nat>)
      requires db.Valid()
      modifies db
      ensures db.Valid() && old(db.trace) <= db.trace
      ensures Outcome(db.s, |old(db.s).calls|, Op.Revoke(consentId), r.Ok?)
      ensures r.Ok? ==> allowed && r.value == consentId < |db.s.consents|
      ensures r.Ok? ==> AuditedAs(db.s.audit, |old(db.s).calls|, ConsentRevoked, consentId, actor)
      ensures Quiet(w) ==>
                var was := old(db.s).consents;
                if allowed && consentId < |was| then
                  db.s.consents == was[consentId := was[consentId].(status := Revoked, revokedAt := Some(clock))] &&
                  (actor.Node? ==> r.Ok?)
                else db.s.consents == was && r.Threw?
    {
      var call, permitted := Authorize(Op.Revoke(consentId), actor, allowed, w);
      var me := Request(call);
      var ok := false;
      if permitted {
        ShiftQuiet(w, 3);
        var missing, row := db.GetById(me, call, w, 1);
        if row.Some? {
          var failed := db.UpdateStatus(me, call, consentId, Revoked, Some(clock), w, 2);
          if !failed {
            ok := db.AppendInTransaction(me, call, Shift(w, 3));
          }
        }
      }
      FinalOutcome(db, call);
      if ok { DoneIsAudited(db, call); }
      r := if ok then Ok(consentId) else Threw;
    }

    method Query(consentId: nat, requestor: nat, w: World) returns (r: Result<Consent>)
      requires db.Valid()
      modifies db
      ensures db.Valid() && old(db.trace) <= db.trace
      ensures Outcome(db.s, |old(db.s).calls|, Op.Query(consentId, requestor), r.Ok?)
      ensures r.Ok? ==> requestor == r.value.fromNode || requestor == r.value.toNode
      ensures r.Ok? ==> AuditedAs(db.s.audit, |old(db.s).calls|, ConsentQueried, consentId, Node(requestor))
      ensures Quiet(w) ==>
                var was := old(db.s).consents;
                db.s.consents == was &&
                r == if consentId < |was| && (was[consentId].fromNode == requestor || was[consentId].toNode == requestor)
                     then Ok(was[consentId]) else Threw
    {
      var call := db.Begin(Op.Query(consentId, requestor), Node(requestor));
      var me := Request(call);
      ShiftQuiet(w, 1);
      var threw, row := db.GetById(me, call, w, 0);
      var ok := false;
      if row.Some? && (row.value.fromNode == requestor || row.value.toNode == requestor) {
        ok := db.AppendInTransaction(me, call, Shift(w, 1));
      }
      FinalOutcome(db, call);
      if ok { DoneIsAudited(db, call); }
      r := if ok then Ok(row.value) else Threw;
    }
  }
}

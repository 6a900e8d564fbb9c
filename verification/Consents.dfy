/** The consent machinery as one step system. One action is one SQL statement, one in-process
    decision between two awaits, or one event of the environment; a disabled action does nothing.
    The reachable states are the results of Run from Init over all lists of actions, so they cover
    every interleaving of any number of requests and pods, with a failure possible at every await. */
module Consents {
  import opened Std

  type Time = nat

  const SCAN_LIMIT: nat := 500

  // ---------- tables ----------

  datatype Status = Pending | Active | Revoked | Expired

  datatype Consent = Consent(fromNode: nat, toNode: nat, status: Status,
                             revokedAt: Option<Time>, expiresAt: Option<Time>)

  /** Who an audit row names: a node (a UUID), the job's literal 'system:expiry-job', or nobody. */
  datatype Actor = Node(id: nat) | SystemExpiryJob | Nobody

  datatype Kind = ConsentGranted | ConsentRevoked | ConsentQueried | ConsentExpired

  /** at is CURRENT_TIMESTAMP, the instant at which the inserting transaction began.
      call and op record where the row came from. */
  datatype AuditRow = AuditRow(id: nat, consent: nat, kind: Kind, actor: Actor, at: Time, call: nat, op: Op)

  // ---------- calls ----------

  datatype Op =
    | Grant(fromNode: nat, toNode: nat, expiresAt: Option<Time>)
    | Revoke(consent: nat)
    | Query(consent: nat, requestor: nat)
    | Expire(consent: nat, tick: nat)

  /** The next statement of a call. Stopped: ended before its status write. Lost: failed or crashed
      after the status write and before COMMIT. */
  datatype Phase =
    | Deciding
    | Reading
    | Writing
    | Opening
    | InsertingAudit(at: Time)
    | InsertingOutbox(at: Time, auditId: nat)
    | Committing(at: Time, auditId: nat, outboxId: nat)
    | Done
    | Stopped
    | Lost

  datatype Call = Call(op: Op, actor: Actor, target: nat, phase: Phase)

  predicate Final(p: Phase) { p.Done? || p.Stopped? || p.Lost? }

  /** The audit transaction of the call is open or about to be opened. */
  predicate Appending(p: Phase) {
    p.Opening? || p.InsertingAudit? || p.InsertingOutbox? || p.Committing?
  }

  function KindOf(op: Op): Kind {
    match op
    case Grant(_, _, _) => ConsentGranted
    case Revoke(_) => ConsentRevoked
    case Query(_, _) => ConsentQueried
    case Expire(_, _) => ConsentExpired
  }

  predicate WritesStatus(op: Op) { !op.Query? }

  // ---------- ticks of the expiry job ----------

  datatype Session = Session(pod: nat, number: nat)

  /** The session-level advisory lock 42001; a session may take it again and must release it as often. */
  datatype Lock = Free | Held(holder: Session, depth: nat)

  /** One running tick of a pod; a pod without one has running == false. */
  datatype Tick =
    | Locking(t: nat)
    | Scanning(t: nat)
    | Looping(t: nat, todo: seq<nat>, current: Option<nat>, expired: nat)
    | Unlocking(t: nat, result: Option<nat>)

  // ---------- state ----------

  /** Row changes of the consents table in commit order; kept to state properties of whole runs. */
  datatype Change =
    | Inserted(consent: nat, row: Consent)
    | Activated(consent: nat)
    | SetRevoked(consent: nat, at: Time)
    | SetExpired(consent: nat, call: nat)

  /** strictActor: audit_events.actor_node_id is UUID NOT NULL, as the migration declares it. */
  datatype State = State(
    strictActor: bool,
    now: Time,
    consents: seq<Consent>,
    history: seq<Change>,
    audit: seq<AuditRow>,
    nextAudit: nat,
    nextOutbox: nat,
    calls: seq<Call>,
    pods: map<nat, Tick>,
    nextTick: nat,
    returned: map<nat, nat>,
    lock: Lock)

  function Init(strictActor: bool): State {
    State(strictActor, 0, [], [], [], 0, 0, [], map[], 0, map[], Free)
  }

  /** The statements of a call. */
  datatype Statement =
    | Decide(allowed: bool)
    | Load
    | Write(clock: Time)
    | BeginTx
    | InsertAudit
    | InsertOutbox
    | CommitTx
    | Fail

  /** The steps of a pod's tick, its death, and the closing of one of its idle sessions. */
  datatype TickStep =
    | TickStart
    | TryLock(session: nat)
    | Scan(rows: seq<nat>)
    | NextRow
    | RowEnded
    | Unlock(session: nat)
    | TickFail
    | Crash
    | DropSession(session: nat)

  datatype Action =
    | Start(op: Op, actor: Actor)
    | OnCall(call: nat, statement: Statement)
    | OnPod(pod: nat, step: TickStep)
    | Activate(consent: nat)
    | Advance(delta: Time)

  // ---------- steps of a call ----------

  function FirstPhase(op: Op): Phase { if op.Grant? || op.Revoke? then Deciding else Reading }

  function TargetOf(op: Op): nat { if op.Grant? then 0 else op.consent }

  /** Where a throwing statement leaves the call; a crash of its pod leaves it there too. */
  function FailedPhase(c: Call): Phase {
    if Final(c.phase) then c.phase
    else if Appending(c.phase) && WritesStatus(c.op) then Lost
    else Stopped
  }

  /** getById and the check that follows it. */
  function AfterLoad(c: Call, consents: seq<Consent>): Phase {
    if c.target >= |consents| then Stopped
    else
      var row := consents[c.target];
      match c.op
      case Grant(_, _, _) => Stopped
      case Revoke(_) => Writing
      case Query(_, r) => if row.fromNode != r && row.toNode != r then Stopped else Opening
      case Expire(_, _) => if row.status != Active then Stopped else Writing
  }

  /** create, or updateStatus on a row that exists; there is no condition on the current status. */
  predicate CanWrite(s: State, c: Call) {
    c.phase.Writing? && (c.op.Grant? || (!c.op.Query? && c.target < |s.consents|))
  }

  predicate ActorAccepted(s: State, a: Actor) { s.strictActor ==> a.Node? }

  /** The call after its statement. */
  function Moved(s: State, c: Call, x: Statement): Call {
    match x
    case Decide(allowed) =>
      if !c.phase.Deciding? then c
      else c.(phase := if !allowed then Stopped else if c.op.Grant? then Writing else Reading)
    case Load => if c.phase.Reading? then c.(phase := AfterLoad(c, s.consents)) else c
    case Write(_) =>
      if !CanWrite(s, c) then c
      else c.(phase := Opening, target := if c.op.Grant? then |s.consents| else c.target)
    case BeginTx => if c.phase.Opening? then c.(phase := InsertingAudit(s.now)) else c
    case InsertAudit =>
      if !c.phase.InsertingAudit? then c
      else if ActorAccepted(s, c.actor) then c.(phase := InsertingOutbox(c.phase.at, s.nextAudit))
      else c.(phase := FailedPhase(c))
    case InsertOutbox =>
      if c.phase.InsertingOutbox? then c.(phase := Committing(c.phase.at, c.phase.auditId, s.nextOutbox)) else c
    case CommitTx => if c.phase.Committing? then c.(phase := Done) else c
    case Fail => c.(phase := FailedPhase(c))
  }

  function NewConsent(op: Op): Consent
    requires op.Grant?
  {
    Consent(op.fromNode, op.toNode, Pending, None, op.expiresAt)
  }

  function ConsentsAfterWrite(s: State, c: Call, clock: Time): seq<Consent>
    requires CanWrite(s, c)
  {
    match c.op
    case Grant(_, _, _) => s.consents + [NewConsent(c.op)]
    case Revoke(_) =>
      s.consents[c.target := s.consents[c.target].(status := Revoked, revokedAt := Some(clock))]
    case Expire(_, _) =>
      s.consents[c.target := s.consents[c.target].(status := Expired, revokedAt := None)]
  }

  function ChangeOfWrite(s: State, c: Call, i: nat, clock: Time): Change
    requires CanWrite(s, c)
  {
    match c.op
    case Grant(_, _, _) => Inserted(|s.consents|, NewConsent(c.op))
    case Revoke(_) => SetRevoked(c.target, clock)
    case Expire(_, _) => SetExpired(c.target, i)
  }

  function RowOf(c: Call, i: nat): AuditRow
    requires c.phase.Committing?
  {
    AuditRow(c.phase.auditId, c.target, KindOf(c.op), c.actor, c.phase.at, i, c.op)
  }

  function StepCall(s: State, i: nat, x: Statement): State
    requires i < |s.calls|
  {
    var c := s.calls[i];
    var writes := x.Write? && CanWrite(s, c);
    s.(calls := s.calls[i := Moved(s, c, x)],
       consents := if writes then ConsentsAfterWrite(s, c, x.clock) else s.consents,
       history := if writes then s.history + [ChangeOfWrite(s, c, i, x.clock)] else s.history,
       audit := if x.CommitTx? && c.phase.Committing? then s.audit + [RowOf(c, i)] else s.audit,
       nextAudit := if x.InsertAudit? && c.phase.InsertingAudit? then s.nextAudit + 1 else s.nextAudit,
       nextOutbox := if x.InsertOutbox? && c.phase.InsertingOutbox? then s.nextOutbox + 1 else s.nextOutbox)
  }

  // ---------- steps of a tick ----------

  function Overdue(consents: seq<Consent>, now: Time): set<nat> {
    set c | 0 <= c < |consents| && consents[c].status == Active &&
            consents[c].expiresAt.Some? && consents[c].expiresAt.value < now
  }

  function ExpiryKey(consents: seq<Consent>): nat -> int {
    (c: nat) => if c < |consents| && consents[c].expiresAt.Some? then consents[c].expiresAt.value else 0
  }

  /** SELECT id FROM consents WHERE expires_at < NOW() AND status = 'active' ORDER BY expires_at LIMIT 500 */
  predicate IsScan(s: State, rows: seq<nat>) {
    IsTop(Overdue(s.consents, s.now), ExpiryKey(s.consents), SCAN_LIMIT, rows)
  }

  /** pg_try_advisory_lock(42001) on the session; false means that another session holds it. */
  predicate LockGranted(l: Lock, session: Session) { l.Free? || l.holder == session }

  function Acquired(l: Lock, session: Session): Lock
    requires LockGranted(l, session)
  {
    Held(session, if l.Free? then 1 else l.depth + 1)
  }

  /** pg_advisory_unlock(42001): on another session than the holder it only warns. */
  function Released(l: Lock, session: Session): Lock {
    if l.Held? && l.holder == session then (if l.depth <= 1 then Free else Held(session, l.depth - 1)) else l
  }

  predicate RowCallEnded(s: State, k: Tick) {
    k.Looping? && k.current.Some? && k.current.value < |s.calls| && Final(s.calls[k.current.value].phase)
  }

  /** The expireOne of the current row has an outcome, so the pod may also be dead. */
  predicate MayCrash(s: State, k: Tick) { k.Looping? && k.current.Some? ==> RowCallEnded(s, k) }

  predicate Spawns(s: State, pod: nat, x: TickStep) {
    x.NextRow? && pod in s.pods && s.pods[pod].Looping? && s.pods[pod].current.None? && s.pods[pod].todo != []
  }

  /** The tick of the pod after its step; None when the pod runs no tick (running == false). */
  function TickAfter(s: State, pod: nat, x: TickStep): Option<Tick> {
    if pod !in s.pods then (if x.TickStart? then Some(Locking(s.nextTick)) else None)
    else
      var k := s.pods[pod];
      match x
      case TickStart => Some(k)
      case TryLock(n) =>
        if !k.Locking? then Some(k) else if LockGranted(s.lock, Session(pod, n)) then Some(Scanning(k.t)) else None
      case Scan(rows) => if k.Scanning? && IsScan(s, rows) then Some(Looping(k.t, rows, None, 0)) else Some(k)
      case NextRow =>
        if !k.Looping? || k.current.Some? then Some(k)
        else if k.todo == [] then Some(Unlocking(k.t, Some(k.expired)))
        else Some(k.(todo := k.todo[1..], current := Some(|s.calls|)))
      case RowEnded =>
        if !RowCallEnded(s, k) then Some(k)
        else Some(k.(current := None,
                     expired := k.expired + if s.calls[k.current.value].phase.Done? then 1 else 0))
      case Unlock(_) => if k.Unlocking? then None else Some(k)
      // a pool query throws: the tick ends, except that a failed scan still runs the inner finally
      case TickFail => if k.Looping? then Some(k) else if k.Scanning? then Some(Unlocking(k.t, None)) else None
      case Crash => if MayCrash(s, k) then None else Some(k)
      case DropSession(_) => Some(k)
  }

  function LockAfter(s: State, pod: nat, x: TickStep): Lock {
    match x
    case TryLock(n) =>
      if pod in s.pods && s.pods[pod].Locking? && LockGranted(s.lock, Session(pod, n))
      then Acquired(s.lock, Session(pod, n)) else s.lock
    case Unlock(n) => if pod in s.pods && s.pods[pod].Unlocking? then Released(s.lock, Session(pod, n)) else s.lock
    // a dead pod's sessions are closed by the server, and closing a session frees what it holds
    case Crash =>
      if (pod in s.pods ==> MayCrash(s, s.pods[pod])) && s.lock.Held? && s.lock.holder.pod == pod then Free else s.lock
    case DropSession(n) => if s.lock.Held? && s.lock.holder == Session(pod, n) then Free else s.lock
    case _ => s.lock
  }

  /** What tick() resolves to, when it does not throw. */
  function ReturnedBy(s: State, pod: nat, x: TickStep): Option<nat> {
    if pod !in s.pods then None
    else
      var k := s.pods[pod];
      if x.TryLock? && k.Locking? && !LockGranted(s.lock, Session(pod, x.session)) then Some(0)
      else if x.Unlock? && k.Unlocking? then k.result
      else None
  }

  function StepPod(s: State, pod: nat, x: TickStep): State {
    var k' := TickAfter(s, pod, x);
    var result := ReturnedBy(s, pod, x);
    s.(pods := if k'.Some? then s.pods[pod := k'.value] else s.pods - {pod},
       lock := LockAfter(s, pod, x),
       nextTick := if x.TickStart? && pod !in s.pods then s.nextTick + 1 else s.nextTick,
       returned := if result.Some? then s.returned[s.pods[pod].t := result.value] else s.returned,
       calls := if Spawns(s, pod, x)
                then s.calls + [Call(Expire(s.pods[pod].todo[0], s.pods[pod].t), SystemExpiryJob, s.pods[pod].todo[0], Reading)]
                else s.calls)
  }

  // ---------- one step, whole runs ----------

  predicate CanActivate(s: State, c: nat) { c < |s.consents| && s.consents[c].status == Pending }

  function Step(s: State, a: Action): State {
    match a
    case Start(op, actor) =>
      if op.Expire? then s else s.(calls := s.calls + [Call(op, actor, TargetOf(op), FirstPhase(op))])
    case OnCall(i, x) => if i < |s.calls| then StepCall(s, i, x) else s
    case OnPod(pod, x) => StepPod(s, pod, x)
    case Activate(c) =>
      if CanActivate(s, c)
      then s.(consents := s.consents[c := s.consents[c].(status := Active)], history := s.history + [Activated(c)])
      else s
    case Advance(delta) => s.(now := s.now + delta)
  }

  function Run(s: State, trace: seq<Action>): State {
    if trace == [] then s else Step(Run(s, trace[..|trace| - 1]), trace[|trace| - 1])
  }

  lemma RunPush(s: State, trace: seq<Action>, a: Action)
    ensures Run(s, trace + [a]) == Step(Run(s, trace), a)
  {
    assert (trace + [a])[..|trace|] == trace;
  }

  lemma {:induction false} RunConcat(s: State, first: seq<Action>, rest: seq<Action>)
    ensures Run(s, first + rest) == Run(Run(s, first), rest)
  {
    if rest == [] {
      assert first + rest == first;
    } else {
      var n := |rest| - 1;
      assert first + rest == (first + rest[..n]) + [rest[n]];
      RunPush(s, first + rest[..n], rest[n]);
      RunConcat(s, first, rest[..n]);
    }
  }
}

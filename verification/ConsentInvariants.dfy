/** What every interleaving of the consent machinery keeps: the status rules, the ledger between
    status writes and audit rows, and the correspondence of calls and rows. */
module ConsentInvariants {
  import opened Std
  import opened Consents

  predicate Terminal(st: Status) { st.Revoked? || st.Expired? }

  // ---------- local well-formedness ----------

  /** The row exists and its expires_at lies in the past. */
  predicate IsDue(s: State, c: nat) {
    c < |s.consents| && s.consents[c].expiresAt.Some? && s.consents[c].expiresAt.value < s.now
  }

  predicate CallOk(s: State, c: Call) {
    && (!c.op.Grant? ==> c.target == c.op.consent)
    && (c.op.Expire? ==> IsDue(s, c.target) && c.op.tick < s.nextTick && c.actor == SystemExpiryJob)
    && (Appending(c.phase) || c.phase.Done? || c.phase.Lost? ==> c.target < |s.consents|)
    && (c.phase.Writing? && !c.op.Grant? ==> c.target < |s.consents|)
    && (c.op.Query? ==> !c.phase.Writing? && !c.phase.Lost?)
    && (c.op.Grant? ==> !c.phase.Reading?)
  }

  predicate TickOk(s: State, k: Tick) {
    && k.t < s.nextTick
    && (k.Looping? ==> forall j :: 0 <= j < |k.todo| ==> IsDue(s, k.todo[j]))
  }

  ghost predicate WellFormed(s: State) {
    && (forall i :: 0 <= i < |s.calls| ==> CallOk(s, s.calls[i]))
    && (forall p :: p in s.pods ==> TickOk(s, s.pods[p]))
  }

  /** Rows never disappear, their expires_at never changes and the clock never runs back. */
  predicate Later(s: State, s': State) {
    && s.now <= s'.now
    && s.nextTick <= s'.nextTick
    && |s.consents| <= |s'.consents|
    && (forall c :: 0 <= c < |s.consents| ==>
          s'.consents[c].expiresAt == s.consents[c].expiresAt &&
          s'.consents[c].fromNode == s.consents[c].fromNode &&
          s'.consents[c].toNode == s.consents[c].toNode)
  }

  lemma StepLater(s: State, a: Action)
    ensures Later(s, Step(s, a))
  {}

  lemma {:induction false} RunLater(s: State, trace: seq<Action>)
    ensures Later(s, Run(s, trace))
  {
    if trace != [] {
      RunLater(s, trace[..|trace| - 1]);
      StepLater(Run(s, trace[..|trace| - 1]), trace[|trace| - 1]);
    }
  }

  lemma CallStaysOk(s: State, a: Action, i: nat)
    requires WellFormed(s) && i < |Step(s, a).calls|
    ensures CallOk(Step(s, a), Step(s, a).calls[i])
  {
    StepLater(s, a);
    if i < |s.calls| {
      assert CallOk(s, s.calls[i]);
    } else if a.OnPod? {
      assert TickOk(s, s.pods[a.pod]);
    }
  }

  lemma TickStaysOk(s: State, a: Action, p: nat)
    requires WellFormed(s) && p in Step(s, a).pods
    ensures TickOk(Step(s, a), Step(s, a).pods[p])
  {
    StepLater(s, a);
    if p in s.pods {
      assert TickOk(s, s.pods[p]);
    }
  }

  lemma StepKeepsWellFormed(s: State, a: Action)
    requires WellFormed(s)
    ensures WellFormed(Step(s, a))
  {
    var s' := Step(s, a);
    forall i | 0 <= i < |s'.calls| ensures CallOk(s', s'.calls[i]) {
      CallStaysOk(s, a, i);
    }
    forall p | p in s'.pods ensures TickOk(s', s'.pods[p]) {
      TickStaysOk(s, a, p);
    }
  }

  // ---------- consent status ----------

  predicate StatusOk(c: Consent, now: Time) {
    && (c.status.Revoked? <==> c.revokedAt.Some?)
    && (c.status.Expired? ==> c.expiresAt.Some? && c.expiresAt.value < now)
  }

  predicate StatusesOk(s: State) {
    forall c :: 0 <= c < |s.consents| ==> StatusOk(s.consents[c], s.now)
  }

  lemma StepKeepsStatuses(s: State, a: Action)
    requires WellFormed(s) && StatusesOk(s)
    ensures StatusesOk(Step(s, a))
  {
    var s' := Step(s, a);
    if a.OnCall? && a.call < |s.calls| {
      assert CallOk(s, s.calls[a.call]);
    }
    forall c | 0 <= c < |s'.consents| ensures StatusOk(s'.consents[c], s'.now) {
      if c < |s.consents| {
        assert StatusOk(s.consents[c], s.now);
      }
    }
  }

  /** A step never takes a consent out of REVOKED or EXPIRED back to PENDING or ACTIVE. */
  lemma StepKeepsTerminal(s: State, a: Action, c: nat)
    requires c < |s.consents| && Terminal(s.consents[c].status)
    ensures c < |Step(s, a).consents| && Terminal(Step(s, a).consents[c].status)
  {}

  lemma {:induction false} TerminalForever(s: State, trace: seq<Action>, c: nat)
    requires c < |s.consents| && Terminal(s.consents[c].status)
    ensures c < |Run(s, trace).consents| && Terminal(Run(s, trace).consents[c].status)
  {
    if trace != [] {
      TerminalForever(s, trace[..|trace| - 1], c);
      StepKeepsTerminal(Run(s, trace[..|trace| - 1]), trace[|trace| - 1], c);
    }
  }

  // ---------- the table is the replay of its history ----------

  function Replay(history: seq<Change>): seq<Consent> {
    if history == [] then []
    else
      var before := Replay(history[..|history| - 1]);
      match history[|history| - 1]
      case Inserted(_, row) => before + [row]
      case Activated(c) =>
        if c < |before| then before[c := before[c].(status := Active)] else before
      case SetRevoked(c, at) =>
        if c < |before| then before[c := before[c].(status := Revoked, revokedAt := Some(at))] else before
      case SetExpired(c, _) =>
        if c < |before| then before[c := before[c].(status := Expired, revokedAt := None)] else before
  }

  lemma StepKeepsReplay(s: State, a: Action)
    requires s.consents == Replay(s.history)
    ensures Step(s, a).consents == Replay(Step(s, a).history)
  {
    var s' := Step(s, a);
    if s'.history != s.history {
      assert s'.history[..|s.history|] == s.history;
    }
  }

  // ---------- status writes against audit rows ----------

  function KindOfChange(h: Change): Option<Kind> {
    match h
    case Inserted(_, _) => Some(ConsentGranted)
    case Activated(_) => None
    case SetRevoked(_, _) => Some(ConsentRevoked)
    case SetExpired(_, _) => Some(ConsentExpired)
  }

  function ChangeIs(c: nat, k: Kind): Change -> bool { (h: Change) => h.consent == c && KindOfChange(h) == Some(k) }

  function RowIs(c: nat, k: Kind): AuditRow -> bool { (r: AuditRow) => r.consent == c && r.kind == k }

  /** Between its status write and the COMMIT of its audit row. */
  function InFlight(c: nat, k: Kind): Call -> bool {
    (x: Call) => x.target == c && KindOf(x.op) == k && Appending(x.phase)
  }

  function LostAt(c: nat, k: Kind): Call -> bool {
    (x: Call) => x.target == c && KindOf(x.op) == k && x.phase.Lost?
  }

  predicate Conserved(s: State, c: nat, k: Kind) {
    Count(s.history, ChangeIs(c, k)) ==
    Count(s.audit, RowIs(c, k)) + Count(s.calls, InFlight(c, k)) + Count(s.calls, LostAt(c, k))
  }

  function One(b: bool): nat { if b then 1 else 0 }

  /** A statement of a call moves one unit between the accounts, or none. */
  lemma StatementKeepsBalance(s: State, i: nat, x: Statement, c: nat, k: Kind)
    requires i < |s.calls| && CallOk(s, s.calls[i]) && k != ConsentQueried
    ensures
      var before := s.calls[i];
      var after := Moved(s, before, x);
      var wrote := x.Write? && CanWrite(s, before) && ChangeIs(c, k)(ChangeOfWrite(s, before, i, x.clock));
      var logged := x.CommitTx? && before.phase.Committing? && RowIs(c, k)(RowOf(before, i));
      One(wrote) + One(InFlight(c, k)(before)) + One(LostAt(c, k)(before)) ==
      One(logged) + One(InFlight(c, k)(after)) + One(LostAt(c, k)(after))
  {}

  lemma CallKeepsConserved(s: State, i: nat, x: Statement, c: nat, k: Kind)
    requires i < |s.calls| && CallOk(s, s.calls[i]) && Conserved(s, c, k) && k != ConsentQueried
    ensures Conserved(StepCall(s, i, x), c, k)
  {
    var before := s.calls[i];
    StatementKeepsBalance(s, i, x, c, k);
    CountUpdate(s.calls, i, Moved(s, before, x), InFlight(c, k));
    CountUpdate(s.calls, i, Moved(s, before, x), LostAt(c, k));
    if x.Write? && CanWrite(s, before) {
      CountPush(s.history, ChangeOfWrite(s, before, i, x.clock), ChangeIs(c, k));
    }
    if x.CommitTx? && before.phase.Committing? {
      CountPush(s.audit, RowOf(before, i), RowIs(c, k));
    }
  }

  lemma NewCallKeepsConserved(s: State, s': State, x: Call, c: nat, k: Kind)
    requires Conserved(s, c, k) && !Appending(x.phase) && !x.phase.Lost?
    requires s'.calls == s.calls + [x] && s'.history == s.history && s'.audit == s.audit
    ensures Conserved(s', c, k)
  {
    CountPush(s.calls, x, InFlight(c, k));
    CountPush(s.calls, x, LostAt(c, k));
  }

  lemma StepKeepsConserved(s: State, a: Action, c: nat, k: Kind)
    requires WellFormed(s) && Conserved(s, c, k) && k != ConsentQueried
    ensures Conserved(Step(s, a), c, k)
  {
    var s' := Step(s, a);
    match a {
      case OnCall(i, x) =>
        if i < |s.calls| {
          CallKeepsConserved(s, i, x, c, k);
        }
      case Start(op, actor) =>
        if !op.Expire? {
          NewCallKeepsConserved(s, s', Call(op, actor, TargetOf(op), FirstPhase(op)), c, k);
        }
      case OnPod(pod, x) =>
        if Spawns(s, pod, x) {
          NewCallKeepsConserved(s, s', s'.calls[|s.calls|], c, k);
        }
      case Activate(n) => CountPush(s.history, Activated(n), ChangeIs(c, k));
      case Advance(_) =>
    }
  }

  // ---------- audit rows and finished calls ----------

  predicate RowMatches(s: State, r: AuditRow) {
    && r.call < |s.calls|
    && s.calls[r.call].phase.Done?
    && s.calls[r.call].op == r.op
    && s.calls[r.call].target == r.consent
    && s.calls[r.call].actor == r.actor
    && r.kind == KindOf(r.op)
  }

  predicate HasRow(audit: seq<AuditRow>, call: nat) {
    exists j :: 0 <= j < |audit| && audit[j].call == call
  }

  /** A call is Done exactly when the log holds its row, and it never holds two. */
  ghost predicate RowsAreDoneCalls(s: State) {
    && (forall j :: 0 <= j < |s.audit| ==> RowMatches(s, s.audit[j]))
    && (forall j, k :: 0 <= j < k < |s.audit| ==> s.audit[j].call != s.audit[k].call)
    && (forall i :: 0 <= i < |s.calls| && s.calls[i].phase.Done? ==> HasRow(s.audit, i))
  }

  lemma StepKeepsRow(s: State, a: Action, r: AuditRow)
    requires RowMatches(s, r)
    ensures RowMatches(Step(s, a), r)
  {}

  predicate Commits(s: State, a: Action) {
    a.OnCall? && a.call < |s.calls| && a.statement.CommitTx? && s.calls[a.call].phase.Committing?
  }

  /** The log grows by the row of the call that commits, and only then does a call become Done. */
  lemma RowsAfter(s: State, a: Action, i: nat)
    requires i < |Step(s, a).calls|
    ensures Step(s, a).audit == if Commits(s, a) then s.audit + [RowOf(s.calls[a.call], a.call)] else s.audit
    ensures Step(s, a).calls[i].phase.Done? ==> (i < |s.calls| && s.calls[i].phase.Done?) || (Commits(s, a) && i == a.call)
    ensures Commits(s, a) ==> RowMatches(Step(s, a), RowOf(s.calls[a.call], a.call))
  {}

  lemma RowStays(s: State, a: Action, i: nat)
    requires RowsAreDoneCalls(s) && i < |Step(s, a).calls| && Step(s, a).calls[i].phase.Done?
    ensures HasRow(Step(s, a).audit, i)
  {
    var log := Step(s, a).audit;
    RowsAfter(s, a, i);
    if i < |s.calls| && s.calls[i].phase.Done? {
      var j :| 0 <= j < |s.audit| && s.audit[j].call == i;
      assert log[j].call == i;
    } else {
      assert log[|s.audit|].call == i;
    }
  }

  lemma StepKeepsRows(s: State, a: Action)
    requires RowsAreDoneCalls(s)
    ensures RowsAreDoneCalls(Step(s, a))
  {
    var s' := Step(s, a);
    forall j | 0 <= j < |s.audit| ensures RowMatches(s', s.audit[j]) {
      StepKeepsRow(s, a, s.audit[j]);
    }
    if s'.calls != [] {
      RowsAfter(s, a, 0);
    }
    forall i | 0 <= i < |s'.calls| && s'.calls[i].phase.Done? ensures HasRow(s'.audit, i) {
      RowStays(s, a, i);
    }
  }

  // ---------- over every run ----------

  ghost predicate Invariant(s: State) {
    && WellFormed(s)
    && StatusesOk(s)
    && s.consents == Replay(s.history)
    && RowsAreDoneCalls(s)
  }

  lemma {:induction false} Reachable(strict: bool, trace: seq<Action>)
    ensures Invariant(Run(Init(strict), trace))
  {
    if trace != [] {
      var before := Run(Init(strict), trace[..|trace| - 1]);
      var a := trace[|trace| - 1];
      Reachable(strict, trace[..|trace| - 1]);
      StepKeepsWellFormed(before, a);
      StepKeepsStatuses(before, a);
      StepKeepsReplay(before, a);
      StepKeepsRows(before, a);
    }
  }

  /** The status of a consent is exactly what the last change of its row says, REVOKED goes with
      revoked_at, EXPIRED only with a past expires_at, and a final status stays final. */
  lemma ConsentStatusTheorem(strict: bool, trace: seq<Action>, more: seq<Action>, c: nat)
    requires c < |Run(Init(strict), trace).consents|
    ensures
      var s := Run(Init(strict), trace);
      var later := Run(Init(strict), trace + more);
      && s.consents == Replay(s.history)
      && StatusOk(s.consents[c], s.now)
      && c < |later.consents|
      && later.consents[c].expiresAt == s.consents[c].expiresAt
      && (Terminal(s.consents[c].status) ==> Terminal(later.consents[c].status))
  {
    Reachable(strict, trace);
    RunConcat(Init(strict), trace, more);
    RunLater(Run(Init(strict), trace), more);
    if Terminal(Run(Init(strict), trace).consents[c].status) {
      TerminalForever(Run(Init(strict), trace), more, c);
    }
  }

  /** Conservation over every run: status writes of one kind on one consent are its audit rows, the
      calls now between write and COMMIT, and the calls that failed or crashed there. */
  lemma {:induction false} ConservationTheorem(strict: bool, trace: seq<Action>, c: nat, k: Kind)
    requires k != ConsentQueried
    ensures Conserved(Run(Init(strict), trace), c, k)
    ensures var s := Run(Init(strict), trace);
            Count(s.audit, RowIs(c, k)) <= Count(s.history, ChangeIs(c, k))
  {
    if trace != [] {
      var n := |trace| - 1;
      ConservationTheorem(strict, trace[..n], c, k);
      Reachable(strict, trace[..n]);
      StepKeepsConserved(Run(Init(strict), trace[..n]), trace[n], c, k);
    }
  }
}

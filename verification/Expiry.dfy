/** The expiry job across pods: mutual exclusion by the advisory lock, expiry at most once, and what
    a tick's return value counts. */
module Expiry {
  import opened Std
  import opened Consents
  import opened ConsentInvariants

  // ---------- the lock ----------

  /** Between a granted pg_try_advisory_lock and the matching unlock. */
  predicate InSection(k: Tick) { k.Scanning? || k.Looping? || k.Unlocking? }

  ghost predicate LockHeldInSection(s: State) {
    forall p :: p in s.pods && InSection(s.pods[p]) ==> s.lock.Held? && s.lock.holder.pod == p
  }

  /** The session that holds the lock stays open while its pod is between lock and unlock. */
  predicate SessionsStay(s: State, a: Action) {
    a.OnPod? && a.step.DropSession? && a.pod in s.pods && InSection(s.pods[a.pod]) && s.lock.Held?
    ==> s.lock.holder != Session(a.pod, a.step.session)
  }

  predicate SessionsStayOpen(s: State, trace: seq<Action>) {
    trace == [] || (SessionsStayOpen(s, trace[..|trace| - 1]) &&
                    SessionsStay(Run(s, trace[..|trace| - 1]), trace[|trace| - 1]))
  }

  lemma StepKeepsLock(s: State, a: Action)
    requires LockHeldInSection(s) && SessionsStay(s, a)
    ensures LockHeldInSection(Step(s, a))
  {}

  // ---------- a live expireOne belongs to a looping tick ----------

  predicate IsCurrent(s: State, p: nat, i: nat) {
    && p in s.pods && s.pods[p].Looping? && s.pods[p].current == Some(i)
    && i < |s.calls| && s.calls[i].op.Expire? && s.pods[p].t == s.calls[i].op.tick
  }

  predicate LiveExpiry(c: Call) { c.op.Expire? && !Final(c.phase) }

  ghost predicate LiveIsCurrent(s: State) {
    && (forall i :: 0 <= i < |s.calls| && LiveExpiry(s.calls[i]) ==> exists p :: IsCurrent(s, p, i))
    && (forall p :: p in s.pods && s.pods[p].Looping? && s.pods[p].current.Some? ==>
          IsCurrent(s, p, s.pods[p].current.value))
  }

  lemma StepKeepsCurrent(s: State, a: Action, p: nat, i: nat)
    requires IsCurrent(s, p, i)
    ensures IsCurrent(Step(s, a), p, i) || (a.OnPod? && a.pod == p && Final(s.calls[i].phase))
  {}

  lemma StepKeepsLive(s: State, a: Action)
    requires LiveIsCurrent(s)
    ensures LiveIsCurrent(Step(s, a))
  {
    var s' := Step(s, a);
    forall i | 0 <= i < |s'.calls| && LiveExpiry(s'.calls[i]) ensures exists p :: IsCurrent(s', p, i) {
      if i < |s.calls| {
        assert LiveExpiry(s.calls[i]);
        var p :| IsCurrent(s, p, i);
        StepKeepsCurrent(s, a, p, i);
        assert IsCurrent(s', p, i);
      } else {
        assert IsCurrent(s', a.pod, i);
      }
    }
    forall p | p in s'.pods && s'.pods[p].Looping? && s'.pods[p].current.Some?
      ensures IsCurrent(s', p, s'.pods[p].current.value)
    {
      if p in s.pods && s.pods[p].Looping? && s.pods[p].current == s'.pods[p].current {
        StepKeepsCurrent(s, a, p, s.pods[p].current.value);
      }
    }
  }

  lemma LiveIsUnique(s: State, i: nat, j: nat)
    requires LockHeldInSection(s) && LiveIsCurrent(s)
    requires i < |s.calls| && j < |s.calls| && LiveExpiry(s.calls[i]) && LiveExpiry(s.calls[j])
    ensures i == j
  {
    var p :| IsCurrent(s, p, i);
    var q :| IsCurrent(s, q, j);
    assert InSection(s.pods[p]) && InSection(s.pods[q]);
  }

  // ---------- expiry at most once ----------

  predicate Wrote(p: Phase) { Appending(p) || p.Done? || p.Lost? }

  ghost predicate WroteIsTerminal(s: State) {
    forall i :: 0 <= i < |s.calls| && s.calls[i].op.Expire? && Wrote(s.calls[i].phase) ==>
      s.calls[i].target < |s.consents| && Terminal(s.consents[s.calls[i].target].status)
  }

  /** Once an expireOne has written a consent, no other one has written it or is about to. */
  ghost predicate OneWriter(s: State) {
    forall i, j :: 0 <= i < |s.calls| && 0 <= j < |s.calls| && i != j && SameExpiry(s.calls[i], s.calls[j]) &&
                   Wrote(s.calls[i].phase)
                   ==> !Wrote(s.calls[j].phase) && !s.calls[j].phase.Writing?
  }

  predicate SameExpiry(x: Call, y: Call) { x.op.Expire? && y.op.Expire? && x.target == y.target }

  lemma WrittenIsTerminal(s: State, a: Action, i: nat)
    requires WellFormed(s) && WroteIsTerminal(s) && i < |Step(s, a).calls|
    requires Step(s, a).calls[i].op.Expire? && Wrote(Step(s, a).calls[i].phase)
    ensures var s' := Step(s, a);
            s'.calls[i].target < |s'.consents| && Terminal(s'.consents[s'.calls[i].target].status)
  {
    assert i < |s.calls|;
    StepKeepsOp(s, a, i);
    ExpiryMoves(s, a, i);
    assert CallOk(s, s.calls[i]);
    if Wrote(s.calls[i].phase) {
      StepKeepsTerminal(s, a, s.calls[i].target);
    }
  }

  lemma StepKeepsWroteTerminal(s: State, a: Action)
    requires WellFormed(s) && WroteIsTerminal(s)
    ensures WroteIsTerminal(Step(s, a))
  {
    var s' := Step(s, a);
    forall i | 0 <= i < |s'.calls| && s'.calls[i].op.Expire? && Wrote(s'.calls[i].phase)
      ensures s'.calls[i].target < |s'.consents| && Terminal(s'.consents[s'.calls[i].target].status)
    {
      WrittenIsTerminal(s, a, i);
    }
  }

  lemma StepKeepsOneWriter(s: State, a: Action)
    requires WellFormed(s) && LockHeldInSection(s) && LiveIsCurrent(s) && WroteIsTerminal(s) && OneWriter(s)
    ensures OneWriter(Step(s, a))
  {
    var s' := Step(s, a);
    forall i, j | 0 <= i < |s'.calls| && 0 <= j < |s'.calls| && i != j &&
      SameExpiry(s'.calls[i], s'.calls[j]) && Wrote(s'.calls[i].phase)
      ensures !Wrote(s'.calls[j].phase) && !s'.calls[j].phase.Writing?
    {
      assert i < |s.calls|;
      if j < |s.calls| {
        StepKeepsOp(s, a, i);
        StepKeepsOp(s, a, j);
        WriterPair(s, a, i, j);
      }
    }
  }

  lemma StepKeepsOp(s: State, a: Action, i: nat)
    requires i < |s.calls|
    ensures i < |Step(s, a).calls| && Step(s, a).calls[i].op == s.calls[i].op
  {}

  lemma ExpiryMoves(s: State, a: Action, i: nat)
    requires i < |s.calls| && s.calls[i].op.Expire?
    ensures
      var c := s.calls[i];
      var c' := Step(s, a).calls[i];
      var mine := a.OnCall? && a.call == i;
      && c'.op == c.op && c'.target == c.target
      && (Wrote(c'.phase) ==> Wrote(c.phase) || (mine && c.phase.Writing?))
      && (c'.phase.Writing? ==>
            c.phase.Writing? ||
            (mine && c.phase.Reading? && c.target < |s.consents| && s.consents[c.target].status.Active?))
  {}

  lemma WriterPair(s: State, a: Action, i: nat, j: nat)
    requires LockHeldInSection(s) && LiveIsCurrent(s) && WroteIsTerminal(s) && OneWriter(s)
    requires i < |s.calls| && j < |s.calls| && i != j && SameExpiry(Step(s, a).calls[i], Step(s, a).calls[j])
    requires s.calls[i].op.Expire? && s.calls[j].op.Expire?
    requires Wrote(Step(s, a).calls[i].phase)
    ensures !Wrote(Step(s, a).calls[j].phase) && !Step(s, a).calls[j].phase.Writing?
  {
    ExpiryMoves(s, a, i);
    ExpiryMoves(s, a, j);
    assert SameExpiry(s.calls[i], s.calls[j]);
    if LiveExpiry(s.calls[i]) && LiveExpiry(s.calls[j]) {
      LiveIsUnique(s, i, j);
    }
  }

  /** Every SET status = 'expired' belongs to an expireOne that wrote, and each wrote once. */
  ghost predicate ExpiriesAreCalls(s: State) {
    && (forall h :: 0 <= h < |s.history| && s.history[h].SetExpired? ==>
          var i := s.history[h].call;
          i < |s.calls| && s.calls[i].op.Expire? && Wrote(s.calls[i].phase) && s.calls[i].target == s.history[h].consent)
    && (forall g, h :: 0 <= g < h < |s.history| && s.history[g].SetExpired? && s.history[h].SetExpired? ==>
          s.history[g].call != s.history[h].call)
  }

  lemma StepKeepsExpiries(s: State, a: Action)
    requires ExpiriesAreCalls(s)
    ensures ExpiriesAreCalls(Step(s, a))
  {}

  ghost predicate SafeInvariant(s: State) {
    Invariant(s) && LockHeldInSection(s) && LiveIsCurrent(s) && WroteIsTerminal(s) && OneWriter(s) && ExpiriesAreCalls(s)
  }

  lemma {:induction false} SafeReachable(strict: bool, trace: seq<Action>)
    requires SessionsStayOpen(Init(strict), trace)
    ensures SafeInvariant(Run(Init(strict), trace))
  {
    Reachable(strict, trace);
    if trace != [] {
      var before := Run(Init(strict), trace[..|trace| - 1]);
      var a := trace[|trace| - 1];
      SafeReachable(strict, trace[..|trace| - 1]);
      StepKeepsLock(before, a);
      StepKeepsLive(before, a);
      StepKeepsWroteTerminal(before, a);
      StepKeepsOneWriter(before, a);
      StepKeepsExpiries(before, a);
    }
  }

  /** Mutual exclusion and at-most-once expiry: with any number of pods, sessions picked by the pool
      for lock and unlock, racing revokes, failures and crashes, as long as the session that holds the
      lock is not closed between the lock and the unlock of its pod. */
  lemma ExpiryTheorem(strict: bool, trace: seq<Action>, c: nat)
    requires SessionsStayOpen(Init(strict), trace)
    ensures
      var s := Run(Init(strict), trace);
      && (forall p, q :: p in s.pods && q in s.pods && InSection(s.pods[p]) && InSection(s.pods[q]) ==> p == q)
      && Count(s.audit, RowIs(c, ConsentExpired)) <= 1
      && Count(s.history, ChangeIs(c, ConsentExpired)) <= 1
  {
    SafeReachable(strict, trace);
    var s := Run(Init(strict), trace);
    forall j, k | 0 <= j < k < |s.audit|
      ensures !(RowIs(c, ConsentExpired)(s.audit[j]) && RowIs(c, ConsentExpired)(s.audit[k]))
    {
      assert RowMatches(s, s.audit[j]) && RowMatches(s, s.audit[k]);
    }
    CountAtMostOne(s.audit, RowIs(c, ConsentExpired));
    CountAtMostOne(s.history, ChangeIs(c, ConsentExpired));
  }

  // ---------- what tick() returns ----------

  function FromTick(t: nat): AuditRow -> bool { (r: AuditRow) => r.op.Expire? && r.op.tick == t }

  function RowsOfTick(s: State, t: nat): nat { Count(s.audit, FromTick(t)) }

  predicate IsDone(s: State, i: nat) { i < |s.calls| && s.calls[i].phase.Done? }

  predicate Tallied(s: State, k: Tick) {
    match k
    case Locking(t) => RowsOfTick(s, t) == 0
    case Scanning(t) => RowsOfTick(s, t) == 0
    case Looping(t, todo, current, expired) =>
      && RowsOfTick(s, t) == expired + One(current.Some? && IsDone(s, current.value))
      && expired + |todo| + One(current.Some?) <= SCAN_LIMIT
    case Unlocking(t, result) => result.Some? ==> result.value == RowsOfTick(s, t) <= SCAN_LIMIT
  }

  ghost predicate TicksTallied(s: State) {
    && (forall p :: p in s.pods ==> Tallied(s, s.pods[p]) && s.pods[p].t !in s.returned && s.pods[p].t < s.nextTick)
    && (forall p, q :: p in s.pods && q in s.pods && p != q ==> s.pods[p].t != s.pods[q].t)
    && (forall t :: t in s.returned ==> t < s.nextTick && s.returned[t] == RowsOfTick(s, t) <= SCAN_LIMIT)
    && (forall j :: 0 <= j < |s.audit| && s.audit[j].op.Expire? ==> s.audit[j].op.tick < s.nextTick)
  }

  /** How one step changes the number of audit rows of tick t. */
  lemma RowsOfTickAfter(s: State, a: Action, t: nat)
    ensures
      var commits := a.OnCall? && a.call < |s.calls| && a.statement.CommitTx? && s.calls[a.call].phase.Committing? &&
                     s.calls[a.call].op.Expire? && s.calls[a.call].op.tick == t;
      RowsOfTick(Step(s, a), t) == RowsOfTick(s, t) + One(commits)
  {
    if a.OnCall? && a.call < |s.calls| && a.statement.CommitTx? && s.calls[a.call].phase.Committing? {
      CountPush(s.audit, RowOf(s.calls[a.call], a.call), FromTick(t));
    }
  }

  /** A statement of call i: only the commit of the row a tick is working on adds to its count. */
  lemma StatementKeepsTallied(s: State, i: nat, x: Statement, p: nat)
    requires TicksTallied(s) && LiveIsCurrent(s) && i < |s.calls| && p in s.pods
    ensures Tallied(StepCall(s, i, x), s.pods[p])
  {
    var k := s.pods[p];
    RowsOfTickAfter(s, OnCall(i, x), k.t);
    assert Tallied(s, k);
    if k.Looping? && k.current.Some? {
      assert IsCurrent(s, p, k.current.value);
    }
    if LiveExpiry(s.calls[i]) {
      var q :| IsCurrent(s, q, i);
    }
  }

  lemma PodStepKeepsTallied(s: State, pod: nat, x: TickStep, p: nat)
    requires TicksTallied(s) && LiveIsCurrent(s) && p in StepPod(s, pod, x).pods
    ensures Tallied(StepPod(s, pod, x), StepPod(s, pod, x).pods[p])
  {
    if p in s.pods {
      assert Tallied(s, s.pods[p]);
      if s.pods[p].Looping? && s.pods[p].current.Some? {
        assert IsCurrent(s, p, s.pods[p].current.value);
      }
    } else {
      CountNone(s.audit, FromTick(s.nextTick));
    }
  }

  lemma ReturnsKept(s: State, i: nat, x: Statement, t: nat)
    requires TicksTallied(s) && LiveIsCurrent(s) && i < |s.calls| && t in s.returned
    ensures RowsOfTick(StepCall(s, i, x), t) == RowsOfTick(s, t)
  {
    RowsOfTickAfter(s, OnCall(i, x), t);
    if LiveExpiry(s.calls[i]) {
      var q :| IsCurrent(s, q, i);
    }
  }

  lemma CallKeepsTicks(s: State, i: nat, x: Statement)
    requires TicksTallied(s) && LiveIsCurrent(s) && WellFormed(s) && i < |s.calls|
    ensures TicksTallied(StepCall(s, i, x))
  {
    var s' := StepCall(s, i, x);
    forall p | p in s'.pods ensures Tallied(s', s'.pods[p]) {
      StatementKeepsTallied(s, i, x, p);
    }
    forall t | t in s'.returned ensures s'.returned[t] == RowsOfTick(s', t) <= SCAN_LIMIT {
      ReturnsKept(s, i, x, t);
    }
    assert CallOk(s, s.calls[i]);
  }

  lemma PodKeepsTicks(s: State, pod: nat, x: TickStep)
    requires TicksTallied(s) && LiveIsCurrent(s)
    ensures TicksTallied(StepPod(s, pod, x))
  {
    var s' := StepPod(s, pod, x);
    forall p | p in s'.pods ensures Tallied(s', s'.pods[p]) {
      PodStepKeepsTallied(s, pod, x, p);
    }
    forall p, q | p in s'.pods && q in s'.pods && p != q ensures s'.pods[p].t != s'.pods[q].t {
      assert p in s.pods ==> s.pods[p].t == s'.pods[p].t;
      assert q in s.pods ==> s.pods[q].t == s'.pods[q].t;
    }
    forall t | t in s'.returned ensures t < s'.nextTick && s'.returned[t] == RowsOfTick(s', t) <= SCAN_LIMIT {
      if pod in s.pods {
        assert Tallied(s, s.pods[pod]);
      }
    }
  }

  lemma UntouchedKeepsTicks(s: State, s': State)
    requires TicksTallied(s) && LiveIsCurrent(s) && s.calls <= s'.calls
    requires s'.pods == s.pods && s'.returned == s.returned && s'.audit == s.audit && s'.nextTick == s.nextTick
    ensures TicksTallied(s')
  {
    forall p | p in s'.pods ensures Tallied(s', s'.pods[p]) {
      assert Tallied(s, s.pods[p]);
      if s.pods[p].Looping? && s.pods[p].current.Some? {
        assert IsCurrent(s, p, s.pods[p].current.value);
      }
    }
  }

  lemma StepKeepsTicks(s: State, a: Action)
    requires TicksTallied(s) && LiveIsCurrent(s) && WellFormed(s)
    ensures TicksTallied(Step(s, a))
  {
    match a {
      case OnCall(i, x) =>
        if i < |s.calls| {
          CallKeepsTicks(s, i, x);
        }
      case OnPod(pod, x) => PodKeepsTicks(s, pod, x);
      case _ => UntouchedKeepsTicks(s, Step(s, a));
    }
  }

  lemma {:induction false} TicksReachable(strict: bool, trace: seq<Action>)
    ensures TicksTallied(Run(Init(strict), trace)) && LiveIsCurrent(Run(Init(strict), trace))
  {
    if trace != [] {
      var before := Run(Init(strict), trace[..|trace| - 1]);
      TicksReachable(strict, trace[..|trace| - 1]);
      Reachable(strict, trace[..|trace| - 1]);
      StepKeepsLive(before, trace[|trace| - 1]);
      StepKeepsTicks(before, trace[|trace| - 1]);
    }
  }

  /** tick() returns the number of consent.expired rows that this tick committed, at most 500, whatever
      fails or interleaves, and the number never changes after the return. */
  lemma TickResultTheorem(strict: bool, trace: seq<Action>, t: nat)
    requires t in Run(Init(strict), trace).returned
    ensures var s := Run(Init(strict), trace); s.returned[t] == RowsOfTick(s, t) <= SCAN_LIMIT
  {
    TicksReachable(strict, trace);
  }

  // ---------- the migration's actor column ----------

  ghost predicate ActorsAccepted(s: State) {
    forall i :: 0 <= i < |s.calls| &&
                (s.calls[i].phase.InsertingOutbox? || s.calls[i].phase.Committing? || s.calls[i].phase.Done?)
                ==> ActorAccepted(s, s.calls[i].actor)
  }

  lemma {:induction false} ActorsReachable(strict: bool, trace: seq<Action>)
    ensures ActorsAccepted(Run(Init(strict), trace)) && Run(Init(strict), trace).strictActor == strict
  {
    if trace != [] {
      ActorsReachable(strict, trace[..|trace| - 1]);
    }
  }

  /** With actor_node_id UUID NOT NULL the job's literal actor is never accepted: no expiry is ever
      audited or announced, every tick returns 0, and each EXPIRED write is in flight or lost. */
  lemma UuidColumnLosesExpiries(trace: seq<Action>, c: nat, t: nat)
    ensures
      var s := Run(Init(true), trace);
      && Count(s.audit, RowIs(c, ConsentExpired)) == 0
      && (t in s.returned ==> s.returned[t] == 0)
      && Count(s.history, ChangeIs(c, ConsentExpired)) ==
         Count(s.calls, InFlight(c, ConsentExpired)) + Count(s.calls, LostAt(c, ConsentExpired))
  {
    var s := Run(Init(true), trace);
    ActorsReachable(true, trace);
    Reachable(true, trace);
    ConservationTheorem(true, trace, c, ConsentExpired);
    TicksReachable(true, trace);
    forall j | 0 <= j < |s.audit| ensures !s.audit[j].op.Expire? && s.audit[j].kind != ConsentExpired {
      assert RowMatches(s, s.audit[j]);
      assert CallOk(s, s.calls[s.audit[j].call]);
    }
    CountNone(s.audit, RowIs(c, ConsentExpired));
    CountNone(s.audit, FromTick(t));
  }
}

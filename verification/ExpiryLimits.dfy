/** Where the expiry job does not do what its comments say: exact conditions and runs that show it. */
module ExpiryLimits {
  import opened Std
  import opened Consents
  import opened ConsentInvariants
  import opened Expiry

  // ---------- REVOKED is not final ----------

  /** The step in which a revoked consent leaves REVOKED; it also clears revoked_at. */
  lemma RevokedLostExactlyByRacingExpiry(s: State, a: Action, c: nat)
    requires WellFormed(s) && c < |s.consents| && s.consents[c].status.Revoked?
    ensures
      var after := Step(s, a).consents[c];
      after.status != Revoked <==>
      a.OnCall? && a.statement.Write? && a.call < |s.calls| &&
      s.calls[a.call].phase.Writing? && s.calls[a.call].op.Expire? && s.calls[a.call].target == c
    ensures
      var after := Step(s, a).consents[c];
      after.status != Revoked ==> after.status == Expired && after.revokedAt == None
  {
    if a.OnCall? && a.call < |s.calls| {
      assert CallOk(s, s.calls[a.call]);
    }
  }

  /** Call i is an expireOne that read consent c as ACTIVE and is about to write it. */
  predicate WillExpire(s: State, i: nat, c: nat) {
    i < |s.calls| && s.calls[i].op.Expire? && s.calls[i].target == c && s.calls[i].phase.Writing?
  }

  ghost predicate FinallyRevoked(s: State, c: nat) {
    c < |s.consents| && s.consents[c].status.Revoked? && forall i :: 0 <= i < |s.calls| ==> !WillExpire(s, i, c)
  }

  lemma NoneStartsToExpire(s: State, a: Action, c: nat, i: nat)
    requires WellFormed(s) && FinallyRevoked(s, c) && i < |Step(s, a).calls|
    ensures !WillExpire(Step(s, a), i, c)
  {
    if i < |s.calls| {
      StepKeepsOp(s, a, i);
      if s.calls[i].op.Expire? {
        ExpiryMoves(s, a, i);
        assert !WillExpire(s, i, c);
      }
    }
  }

  lemma {:induction false} FinallyRevokedForever(s: State, more: seq<Action>, c: nat)
    requires WellFormed(s) && FinallyRevoked(s, c)
    ensures WellFormed(Run(s, more)) && FinallyRevoked(Run(s, more), c)
  {
    if more != [] {
      var before, a := Run(s, more[..|more| - 1]), more[|more| - 1];
      FinallyRevokedForever(s, more[..|more| - 1], c);
      StepKeepsWellFormed(before, a);
      StepLater(before, a);
      RevokedLostExactlyByRacingExpiry(before, a, c);
      assert a.OnCall? ==> !WillExpire(before, a.call, c);
      forall i | 0 <= i < |Step(before, a).calls| ensures !WillExpire(Step(before, a), i, c) {
        NoneStartsToExpire(before, a, c, i);
      }
    }
  }

  predicate IsRevoked(s: State, c: nat) { c < |s.consents| && s.consents[c].status.Revoked? }

  /** A revocation is final along every continuation exactly when no expireOne that read the consent as
      ACTIVE before is still about to write it. */
  lemma RevokedIsFinalExactlyWhen(s: State, c: nat)
    requires WellFormed(s) && IsRevoked(s, c)
    ensures (forall more :: IsRevoked(Run(s, more), c)) <==> forall i :: 0 <= i < |s.calls| ==> !WillExpire(s, i, c)
  {
    if FinallyRevoked(s, c) {
      forall more ensures IsRevoked(Run(s, more), c) {
        FinallyRevokedForever(s, more, c);
      }
    } else {
      var i :| 0 <= i < |s.calls| && WillExpire(s, i, c);
      RunPush(s, [], OnCall(i, Write(0)));
      assert !IsRevoked(Run(s, [] + [OnCall(i, Write(0))]), c);
    }
  }

  /** One active consent, overdue, and no call or tick in progress. */
  predicate OneOverdue(s: State) {
    && s.consents == [Consent(1, 2, Active, None, Some(0))]
    && s.now == 1 && s.pods == map[] && s.lock == Free && !s.strictActor
    && s.audit == [] && |s.calls| == 1 && s.calls[0].phase.Lost?
  }

  lemma ReachGranted() returns (trace: seq<Action>)
    ensures SessionsStayOpen(Init(false), trace)
    ensures
      var s := Run(Init(false), trace);
      s == Init(false).(consents := [Consent(1, 2, Pending, None, Some(0))], history := s.history,
                        calls := [Call(Grant(1, 2, Some(0)), Node(1), 0, Opening)])
  {
    trace := Play([], Start(Grant(1, 2, Some(0)), Node(1)));
    trace := Play(trace, OnCall(0, Decide(true)));
    trace := Play(trace, OnCall(0, Write(0)));
  }

  /** A grant whose audit never happened, activated, with the clock past its expires_at. */
  lemma ReachOverdue() returns (trace: seq<Action>)
    ensures OneOverdue(Run(Init(false), trace)) && SessionsStayOpen(Init(false), trace)
  {
    trace := ReachGranted();
    trace := Play(trace, OnCall(0, Fail));
    trace := Play(trace, Activate(0));
    trace := Play(trace, Advance(1));
  }

  lemma Play(trace: seq<Action>, a: Action) returns (longer: seq<Action>)
    ensures longer == trace + [a]
    ensures Run(Init(false), longer) == Step(Run(Init(false), trace), a)
    ensures SessionsStayOpen(Init(false), longer) ==
            (SessionsStayOpen(Init(false), trace) && SessionsStay(Run(Init(false), trace), a))
  {
    longer := trace + [a];
    assert longer[..|trace|] == trace;
  }

  /** pod's tick has taken the lock on its session 0, scanned consent 0 and read it as ACTIVE: the
      expireOne is call n, about to write. */
  predicate AboutToExpire(s: State, pod: nat, n: nat) {
    && pod in s.pods && s.pods[pod].Looping? && s.pods[pod].current == Some(n) && n < |s.calls|
    && s.calls[n] == Call(Expire(0, s.pods[pod].t), SystemExpiryJob, 0, Writing)
  }

  predicate Ready(s: State, pod: nat) {
    && |s.consents| == 1 && s.consents[0].status == Active && s.consents[0].expiresAt == Some(0)
    && s.now == 1 && s.lock == Free && pod !in s.pods
  }

  lemma ReachLocked(trace: seq<Action>, pod: nat) returns (longer: seq<Action>)
    requires Run(Init(false), trace).lock.Free? && pod !in Run(Init(false), trace).pods
    ensures
      var s := Run(Init(false), trace);
      Run(Init(false), longer) ==
      s.(pods := s.pods[pod := Scanning(s.nextTick)], lock := Held(Session(pod, 0), 1), nextTick := s.nextTick + 1)
    ensures SessionsStayOpen(Init(false), trace) ==> SessionsStayOpen(Init(false), longer)
  {
    longer := Play(trace, OnPod(pod, TickStart));
    longer := Play(longer, OnPod(pod, TryLock(0)));
  }

  lemma ScanFindsRow(s: State)
    requires |s.consents| == 1 && s.consents[0].status == Active && s.consents[0].expiresAt == Some(0) && s.now == 1
    ensures IsScan(s, [0])
  {
    assert Overdue(s.consents, s.now) == {0};
  }

  /** The scan finds consent 0, and its expireOne starts. */
  lemma ReachRow(trace: seq<Action>, pod: nat) returns (longer: seq<Action>)
    requires Ready(Run(Init(false), trace), pod)
    ensures
      var s := Run(Init(false), trace);
      Run(Init(false), longer) ==
      s.(calls := s.calls + [Call(Expire(0, s.nextTick), SystemExpiryJob, 0, Reading)],
         pods := s.pods[pod := Looping(s.nextTick, [], Some(|s.calls|), 0)],
         lock := Held(Session(pod, 0), 1), nextTick := s.nextTick + 1)
    ensures SessionsStayOpen(Init(false), trace) ==> SessionsStayOpen(Init(false), longer)
  {
    var s := Run(Init(false), trace);
    longer := ReachLocked(trace, pod);
    ScanFindsRow(Run(Init(false), longer));
    longer := Play(longer, OnPod(pod, Scan([0])));
    assert Run(Init(false), longer) ==
           s.(pods := s.pods[pod := Looping(s.nextTick, [0], None, 0)], lock := Held(Session(pod, 0), 1), nextTick := s.nextTick + 1);
    var todo: seq<nat> := [0];
    assert todo[1..] == [];
    longer := Play(longer, OnPod(pod, NextRow));
  }

  /** A pod gets from an idle state to the point before its UPDATE. */
  lemma ReachWriting(trace: seq<Action>, pod: nat) returns (longer: seq<Action>)
    requires Ready(Run(Init(false), trace), pod)
    ensures
      var s := Run(Init(false), trace);
      var s' := Run(Init(false), longer);
      && AboutToExpire(s', pod, |s.calls|)
      && s' == s.(calls := s.calls + [s'.calls[|s.calls|]], pods := s.pods[pod := s'.pods[pod]],
                  lock := Held(Session(pod, 0), 1), nextTick := s.nextTick + 1)
    ensures SessionsStayOpen(Init(false), trace) ==> SessionsStayOpen(Init(false), longer)
  {
    longer := ReachRow(trace, pod);
    longer := Play(longer, OnCall(|Run(Init(false), trace).calls|, Load));
  }

  /** The rest of an expireOne: UPDATE, then the audit transaction. */
  lemma ReachCommitted(trace: seq<Action>, n: nat) returns (longer: seq<Action>)
    requires
      var s := Run(Init(false), trace);
      n < |s.calls| && s.calls[n].phase.Writing? && s.calls[n].op.Expire? && s.calls[n].target < |s.consents| && !s.strictActor
    ensures
      var s := Run(Init(false), trace);
      var s' := Run(Init(false), longer);
      var c := s.calls[n].target;
      && |s'.audit| == |s.audit| + 1 && s'.audit[..|s.audit|] == s.audit
      && RowIs(c, ConsentExpired)(s'.audit[|s.audit|])
      && |s'.calls| == |s.calls| && (forall i :: 0 <= i < |s.calls| && i != n ==> s'.calls[i] == s.calls[i])
      && s'.pods == s.pods && s'.strictActor == s.strictActor
      && s'.consents == s.consents[c := s.consents[c].(status := Expired, revokedAt := None)]
    ensures SessionsStayOpen(Init(false), trace) ==> SessionsStayOpen(Init(false), longer)
  {
    longer := Play(trace, OnCall(n, Write(0)));
    longer := Play(longer, OnCall(n, BeginTx));
    longer := Play(longer, OnCall(n, InsertAudit));
    longer := Play(longer, OnCall(n, InsertOutbox));
    longer := Play(longer, OnCall(n, CommitTx));
  }

  /** A run, with every session open, in which a consent is REVOKED and later EXPIRED. */
  lemma RevokedIsNotFinal() returns (upToRevoke: seq<Action>, trace: seq<Action>)
    ensures upToRevoke <= trace && SessionsStayOpen(Init(false), trace)
    ensures |Run(Init(false), upToRevoke).consents| == 1 && Run(Init(false), upToRevoke).consents[0].status.Revoked?
    ensures |Run(Init(false), trace).consents| == 1 && Run(Init(false), trace).consents[0].status.Expired?
    ensures Run(Init(false), trace).consents[0].revokedAt == None
  {
    trace := ReachOverdue();
    trace := ReachWriting(trace, 0);
    trace := Play(trace, Start(Revoke(0), Node(1)));
    trace := Play(trace, OnCall(2, Decide(true)));
    trace := Play(trace, OnCall(2, Load));
    trace := Play(trace, OnCall(2, Write(7)));
    upToRevoke := trace;
    trace := Play(trace, OnCall(1, Write(0)));
  }

  /** Two pods about to expire consent 0, after the lock's session of the first was closed. */
  predicate BothAboutToExpire(s: State) {
    && |s.consents| == 1 && s.audit == [] && !s.strictActor && |s.calls| == 3
    && s.calls[1].phase.Writing? && s.calls[1].op.Expire? && s.calls[1].target == 0
    && s.calls[2].phase.Writing? && s.calls[2].op.Expire? && s.calls[2].target == 0
  }

  lemma ReachBothAboutToExpire() returns (trace: seq<Action>)
    ensures BothAboutToExpire(Run(Init(false), trace))
  {
    trace := ReachOverdue();
    trace := ReachWriting(trace, 0);
    trace := Play(trace, OnPod(0, DropSession(0)));
    trace := ReachWriting(trace, 1);
  }

  /** Why ExpiryTheorem asks for open sessions: if the session that holds the lock is closed in the
      middle of a tick, two pods expire one consent and audit it twice. */
  lemma ClosedSessionExpiresTwice() returns (trace: seq<Action>)
    ensures Count(Run(Init(false), trace).audit, RowIs(0, ConsentExpired)) == 2
    ensures !SessionsStayOpen(Init(false), trace)
  {
    trace := ReachBothAboutToExpire();
    trace := ReachCommitted(trace, 1);
    var one := Run(Init(false), trace).audit;
    trace := ReachCommitted(trace, 2);
    var two := Run(Init(false), trace).audit;
    assert one == [] + [one[0]];
    CountPush([], one[0], RowIs(0, ConsentExpired));
    CountPush(one, two[1], RowIs(0, ConsentExpired));
    assert two == one + [two[1]];
    if SessionsStayOpen(Init(false), trace) {
      ExpiryTheorem(false, trace, 0);
    }
  }

  // ---------- the lock is not always released ----------

  /** The unlock of a tick frees the lock exactly when the pool hands it the very session that holds
      it, and that session had taken it once. */
  lemma UnlockReleasesExactly(s: State, pod: nat, n: nat)
    requires pod in s.pods && s.pods[pod].Unlocking? && s.lock.Held?
    ensures Step(s, OnPod(pod, Unlock(n))).lock.Free? <==> s.lock.holder == Session(pod, n) && s.lock.depth <= 1
    ensures pod !in Step(s, OnPod(pod, Unlock(n))).pods
  {}

  predicate NotOf(trace: seq<Action>, pod: nat) {
    forall j :: 0 <= j < |trace| ==> !(trace[j].OnPod? && trace[j].pod == pod)
  }

  /** Once a session of an idle pod is left holding the lock, no other pod ever scans again until that
      pod ticks, crashes or closes the session: every tick that returns meanwhile returns 0. */
  lemma {:induction false} LeakedLockStarves(s: State, trace: seq<Action>, pod: nat)
    requires s.lock.Held? && s.lock.holder.pod == pod && NotOf(trace, pod)
    requires forall p :: p in s.pods && InSection(s.pods[p]) ==> p == pod
    ensures Run(s, trace).lock == s.lock
    ensures forall p :: p in Run(s, trace).pods && InSection(Run(s, trace).pods[p]) ==> p == pod
    ensures forall t :: t in Run(s, trace).returned ==>
              Run(s, trace).returned[t] == 0 || (t in s.returned && Run(s, trace).returned[t] == s.returned[t])
  {
    if trace != [] {
      LeakedLockStarves(s, trace[..|trace| - 1], pod);
      var before, a := Run(s, trace[..|trace| - 1]), trace[|trace| - 1];
      assert !(a.OnPod? && a.pod == pod);
      DeniedTickReturnsZero(before, a, pod);
    }
  }

  lemma DeniedTickReturnsZero(s: State, a: Action, pod: nat)
    requires s.lock.Held? && s.lock.holder.pod == pod && !(a.OnPod? && a.pod == pod)
    requires forall p :: p in s.pods && InSection(s.pods[p]) ==> p == pod
    ensures forall t :: t in Step(s, a).returned ==>
              Step(s, a).returned[t] == 0 || (t in s.returned && Step(s, a).returned[t] == s.returned[t])
  {
    if a.OnPod? && a.pod in s.pods {
      assert !InSection(s.pods[a.pod]);
    }
  }

  /** Such a leak needs no fault at all: an empty tick whose unlock runs on another pooled session. */
  lemma LockLeaks() returns (trace: seq<Action>)
    ensures var s := Run(Init(false), trace); s.lock == Held(Session(0, 0), 1) && s.pods == map[] && s.returned == map[0 := 0]
    ensures SessionsStayOpen(Init(false), trace)
  {
    trace := ReachLocked([], 0);
    assert Overdue([], 0) == {};
    trace := Play(trace, OnPod(0, Scan([])));
    trace := Play(trace, OnPod(0, NextRow));
    trace := Play(trace, OnPod(0, Unlock(1)));
  }
}

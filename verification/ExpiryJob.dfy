/** ConsentExpiryJob in its own form: tick with its running flag, advisory lock and row loop, and the
    timer that repeats it. */
module ExpiryJob {
  import opened Std
  import opened Consents
  import opened ConsentInvariants
  import opened Expiry
  import opened ConsentService

  /** The consent as an expiry leaves it. */
  function ExpiredRow(c: Consent): Consent { c.(status := Expired, revokedAt := None) }

  /** The table after the given rows were expired and nothing else happened. */
  function ExpireRows(consents: seq<Consent>, rows: set<nat>): seq<Consent> {
    seq(|consents|, i requires 0 <= i < |consents| => if i in rows then ExpiredRow(consents[i]) else consents[i])
  }

  /** What an answer of the scan is, in the columns of the table. */
  lemma ScanColumns(s: State, rows: seq<nat>)
    requires IsScan(s, rows)
    ensures |rows| <= 500 && forall i :: 0 <= i < |rows| ==> rows[i] < |s.consents|
    ensures forall i :: 0 <= i < |rows| ==>
              s.consents[rows[i]].status == Active && s.consents[rows[i]].expiresAt.Some? &&
              s.consents[rows[i]].expiresAt.value < s.now
    ensures forall i, j :: 0 <= i < j < |rows| ==>
              rows[i] != rows[j] && s.consents[rows[i]].expiresAt.value <= s.consents[rows[j]].expiresAt.value
    ensures forall c :: 0 <= c < |s.consents| && c !in rows && s.consents[c].status == Active && s.consents[c].expiresAt.Some? &&
                        s.consents[c].expiresAt.value < s.now ==>
              |rows| == 500 && forall i :: 0 <= i < |rows| ==> s.consents[rows[i]].expiresAt.value <= s.consents[c].expiresAt.value
  {
    var from, key := Overdue(s.consents, s.now), ExpiryKey(s.consents);
    forall i | 0 <= i < |rows| ensures rows[i] in from && key(rows[i]) == s.consents[rows[i]].expiresAt.value {}
    forall i, j | 0 <= i < j < |rows|
      ensures rows[i] != rows[j] && s.consents[rows[i]].expiresAt.value <= s.consents[rows[j]].expiresAt.value
    {
      assert key(rows[i]) <= key(rows[j]);
    }
    forall c | 0 <= c < |s.consents| && c !in rows && s.consents[c].status == Active && s.consents[c].expiresAt.Some? &&
               s.consents[c].expiresAt.value < s.now
      ensures |rows| == 500 && forall i :: 0 <= i < |rows| ==> s.consents[rows[i]].expiresAt.value <= s.consents[c].expiresAt.value
    {
      assert c in from && key(c) == s.consents[c].expiresAt.value;
      forall i | 0 <= i < |rows| ensures s.consents[rows[i]].expiresAt.value <= s.consents[c].expiresAt.value {
        assert key(rows[i]) <= key(c);
      }
      TopMisses(from, key, SCAN_LIMIT, rows, c);
    }
  }

  /** What expiring an answer of the scan does, in the columns of the table. */
  lemma {:induction false} ExpiryColumns(s: State, rows: seq<nat>, after: seq<Consent>)
    requires IsScan(s, rows) && after == ExpireRows(s.consents, Elements(rows))
    ensures |after| == |s.consents|
    ensures forall c :: 0 <= c < |after| ==>
              after[c] == s.consents[c] ||
              (s.consents[c].status == Active && s.consents[c].expiresAt.Some? && s.consents[c].expiresAt.value < s.now &&
               after[c] == s.consents[c].(status := Expired, revokedAt := None))
    ensures |set c | 0 <= c < |s.consents| && s.consents[c].status == Active && s.consents[c].expiresAt.Some? &&
                     s.consents[c].expiresAt.value < s.now| <= 500 ==>
              forall c :: 0 <= c < |after| ==>
                !(after[c].status == Active && after[c].expiresAt.Some? && after[c].expiresAt.value < s.now)
  {
    ScanColumns(s, rows);
    var due := set c | 0 <= c < |s.consents| && s.consents[c].status == Active && s.consents[c].expiresAt.Some? &&
                       s.consents[c].expiresAt.value < s.now;
    assert due == Overdue(s.consents, s.now);
    if |due| <= 500 {
      TopTakesAll(due, ExpiryKey(s.consents), SCAN_LIMIT, rows);
    }
  }

  lemma NothingDue(s: State)
    requires Backlog(s) == 0
    ensures forall c :: 0 <= c < |s.consents| ==>
              !(s.consents[c].status == Active && s.consents[c].expiresAt.Some? && s.consents[c].expiresAt.value < s.now)
  {
    forall c | 0 <= c < |s.consents|
      ensures !(s.consents[c].status == Active && s.consents[c].expiresAt.Some? && s.consents[c].expiresAt.value < s.now)
    {
      assert c !in Overdue(s.consents, s.now);
    }
  }

  class ConsentExpiryJob {
    const pod: nat
    const db: Database
    var running: bool

    ghost predicate Valid() reads this, db {
      db.Valid() && (running <==> pod in db.s.pods)
    }

    constructor (db: Database, pod: nat)
      requires db.Valid() && pod !in db.s.pods
      ensures Valid() && this.db == db && this.pod == pod && !running
    {
      this.db, this.pod, running := db, pod, false;
    }

    /** expireOne for the current row. */
    method ExpireOne(call: nat, id: nat, w: World) returns (done: bool)
      requires db.Valid() && call < |db.s.calls| && WorksOn(db.s, TickOf(pod), call)
      requires db.s.calls[call].phase.Reading? && db.s.calls[call].op.Expire? && db.s.calls[call].target == id < |db.s.consents|
      modifies db
      ensures db.Valid() && old(db.trace) <= db.trace && Aside(old(db.s), db.s, TickOf(pod), call)
      ensures Final(db.s.calls[call].phase) && (done <==> db.s.calls[call].phase.Done?)
      ensures Quiet(w) && id in Overdue(old(db.s).consents, old(db.s).now) ==>
                SameTables(old(db.s).(consents := db.s.consents), db.s) &&
                db.s.consents == old(db.s).consents[id := ExpiredRow(old(db.s).consents[id])]
    {
      ShiftQuiet(w, 2);
      done := false;
      var threw, row := db.GetById(TickOf(pod), call, w, 0);
      if row.Some? && row.value.status == Active {
        threw := db.UpdateStatus(TickOf(pod), call, id, Expired, None, w, 1);
        if !threw {
          done := db.AppendInTransaction(TickOf(pod), call, Shift(w, 2));
        }
      }
    }

    /** One round of the loop over the scanned rows: start expireOne, await it, count a success. */
    method ProcessRow(w: World) returns (done: bool)
      requires db.Valid() && pod in db.s.pods
      requires db.s.pods[pod].Looping? && db.s.pods[pod].current.None? && db.s.pods[pod].todo != []
      modifies db
      ensures db.Valid() && old(db.trace) <= db.trace && pod in db.s.pods
      ensures var k := old(db.s).pods[pod];
              db.s.pods[pod] == Looping(k.t, k.todo[1..], None, k.expired + One(done))
      ensures done ==>
                AuditedAs(db.s.audit, |old(db.s).calls|, ConsentExpired, old(db.s).pods[pod].todo[0], SystemExpiryJob)
      ensures var id := old(db.s).pods[pod].todo[0];
              Quiet(w) && id in Overdue(old(db.s).consents, old(db.s).now) ==>
                db.s.now == old(db.s).now && db.s.lock == old(db.s).lock &&
                db.s.consents == old(db.s).consents[id := ExpiredRow(old(db.s).consents[id])]
    {
      var call := |db.s.calls|;
      var id := db.s.pods[pod].todo[0];
      Reachable(db.strictActor, db.trace);
      assert TickOk(db.s, db.s.pods[pod]);
      db.Perform(OnPod(pod, NextRow));
      done := ExpireOne(call, id, w);
      if done { DoneIsAudited(db, call); }
      db.Perform(OnPod(pod, RowEnded));
    }

    /** SELECT pg_try_advisory_lock(42001) on a session of the pool. */
    method TryLock(session: nat, w: World) returns (threw: bool, locked: bool)
      requires db.Valid() && pod in db.s.pods && db.s.pods[pod].Locking?
      modifies db
      ensures db.Valid() && old(db.trace) <= db.trace
      ensures threw == w.fails(0) && (threw ==> !locked)
      ensures locked <==> pod in db.s.pods
      ensures locked ==> db.s.pods[pod] == Scanning(old(db.s).pods[pod].t)
      ensures var t := old(db.s).pods[pod].t; !locked && !threw ==> t in db.s.returned && db.s.returned[t] == 0
      ensures Quiet(w) ==>
                (locked <==> LockGranted(old(db.s).lock, Session(pod, session))) &&
                db.s.lock == (if locked then Acquired(old(db.s).lock, Session(pod, session)) else old(db.s).lock) &&
                db.s.now == old(db.s).now && db.s.consents == old(db.s).consents
    {
      db.Others(w.env(0), TickOf(pod));
      threw := w.fails(0);
      db.Perform(OnPod(pod, if threw then TickFail else Consents.TryLock(session)));
      locked := pod in db.s.pods;
    }

    /** The SELECT of the overdue active consents. */
    method SelectOverdue(w: World) returns (threw: bool, rows: seq<nat>)
      requires db.Valid() && pod in db.s.pods && db.s.pods[pod].Scanning?
      modifies db
      ensures db.Valid() && old(db.trace) <= db.trace && pod in db.s.pods
      ensures threw == w.fails(0)
      ensures db.s.pods[pod] == var t := old(db.s).pods[pod].t;
                                if threw then Unlocking(t, None) else Looping(t, rows, None, 0)
      ensures Quiet(w) ==> IsScan(old(db.s), rows) && db.s.now == old(db.s).now && db.s.lock == old(db.s).lock &&
                           db.s.consents == old(db.s).consents
      ensures Quiet(w) ==>
                && |rows| <= 500
                && (forall i :: 0 <= i < |rows| ==>
                      rows[i] < |db.s.consents| && db.s.consents[rows[i]].status == Active &&
                      db.s.consents[rows[i]].expiresAt.Some? && db.s.consents[rows[i]].expiresAt.value < db.s.now)
                && (forall i, j :: 0 <= i < j < |rows| ==>
                      rows[i] != rows[j] && db.s.consents[rows[i]].expiresAt.value <= db.s.consents[rows[j]].expiresAt.value)
                && (forall c :: 0 <= c < |db.s.consents| && c !in rows && db.s.consents[c].status == Active &&
                                db.s.consents[c].expiresAt.Some? && db.s.consents[c].expiresAt.value < db.s.now ==>
                      |rows| == 500 &&
                      forall i :: 0 <= i < |rows| ==> db.s.consents[rows[i]].expiresAt.value <= db.s.consents[c].expiresAt.value)
    {
      db.Others(w.env(0), TickOf(pod));
      threw := w.fails(0);
      rows := Select(Overdue(db.s.consents, db.s.now), ExpiryKey(db.s.consents), SCAN_LIMIT);
      ScanColumns(db.s, rows);
      db.Perform(OnPod(pod, if threw then TickFail else Scan(rows)));
    }

    /** SELECT pg_advisory_unlock(42001), on whatever session the pool hands out. */
    method Release(session: nat, w: World, k: nat) returns (threw: bool)
      requires db.Valid() && pod in db.s.pods && db.s.pods[pod].Unlocking?
      modifies db
      ensures db.Valid() && old(db.trace) <= db.trace && pod !in db.s.pods
      ensures threw == w.fails(k)
      ensures var k := old(db.s).pods[pod];
              !threw && k.result.Some? ==> k.t in db.s.returned && db.s.returned[k.t] == k.result.value
      ensures Quiet(w) ==> db.s.lock == Released(old(db.s).lock, Session(pod, session)) &&
                           db.s.now == old(db.s).now && db.s.consents == old(db.s).consents
    {
      db.Others(w.env(k), TickOf(pod));
      threw := w.fails(k);
      db.Perform(OnPod(pod, if threw then TickFail else Unlock(session)));
    }

    /** The inner try: the scan and the loop. Rows that throw are logged and skipped. */
    method ScanAndExpire(w: World) returns (r: Result<nat>, rows: seq<nat>)
      requires db.Valid() && pod in db.s.pods && db.s.pods[pod].Scanning?
      modifies db
      ensures db.Valid() && old(db.trace) <= db.trace && pod in db.s.pods
      ensures db.s.pods[pod] == Unlocking(old(db.s).pods[pod].t, if r.Ok? then Some(r.value) else None)
      ensures Quiet(w) ==> r.Ok? && IsScan(old(db.s), rows) && db.s.now == old(db.s).now && db.s.lock == old(db.s).lock &&
                           db.s.consents == ExpireRows(old(db.s).consents, Elements(rows))
    {
      ghost var t := db.s.pods[pod].t;
      ghost var before := db.s;
      var threw;
      threw, rows := SelectOverdue(w);
      if threw { return Threw, rows; }
      var expired := 0;
      for i := 0 to |rows|
        invariant db.Valid() && old(db.trace) <= db.trace && pod in db.s.pods
        invariant db.s.pods[pod] == Looping(t, rows[i..], None, expired)
        invariant Quiet(w) ==> IsScan(before, rows) && db.s.now == before.now && db.s.lock == before.lock &&
                               db.s.consents == ExpireRows(before.consents, Elements(rows[..i]))
      {
        ShiftQuiet(w, 1 + 6 * i);
        if Quiet(w) { ExpireNext(before.consents, before.now, rows, i); }
        var done := ProcessRow(Shift(w, 1 + 6 * i));
        if done { expired := expired + 1; }
      }
      db.Perform(OnPod(pod, NextRow));
      assert rows[..|rows|] == rows;
      r := Ok(expired);
    }

    /** tick() with the lock: scan and loop, and the finally that unlocks. */
    method Locked(unlockSession: nat, w: World) returns (r: Result<nat>, ghost rows: seq<nat>)
      requires db.Valid() && pod in db.s.pods && db.s.pods[pod].Scanning?
      modifies db
      ensures db.Valid() && old(db.trace) <= db.trace && pod !in db.s.pods
      ensures var t := old(db.s).pods[pod].t; r.Ok? ==> t in db.s.returned && db.s.returned[t] == r.value
      ensures Quiet(w) ==>
                r.Ok? && IsScan(old(db.s), rows) && db.s.now == old(db.s).now &&
                db.s.consents == ExpireRows(old(db.s).consents, Elements(rows)) &&
                db.s.lock == Released(old(db.s).lock, Session(pod, unlockSession))
    {
      ShiftQuiet(w, 2);
      var scanned;
      r, scanned := ScanAndExpire(Shift(w, 2));
      rows := scanned;
      var threw := Release(unlockSession, w, 1);
      if threw { r := Threw; }
    }

    /** tick(): skipped while the pod's previous tick runs or while another session holds the lock. */
    method Tick(w: World, lockSession: nat, unlockSession: nat) returns (r: Result<nat>, ghost rows: seq<nat>)
      requires Valid()
      modifies this, db
      ensures Valid() && old(db.trace) <= db.trace
      ensures old(running) ==> r == Ok(0) && db.s == old(db.s) && running
      ensures !old(running) ==> !running
      ensures !old(running) && r.Ok? ==> r.value == RowsOfTick(db.s, old(db.s).nextTick) <= SCAN_LIMIT
      ensures Quiet(w) && !old(running) ==>
                r.Ok? && db.s.now == old(db.s).now &&
                if LockGranted(old(db.s).lock, Session(pod, lockSession)) then
                  IsScan(old(db.s), rows) && db.s.consents == ExpireRows(old(db.s).consents, Elements(rows)) &&
                  db.s.lock == Released(Acquired(old(db.s).lock, Session(pod, lockSession)), Session(pod, unlockSession))
                else
                  r.value == 0 && db.s.consents == old(db.s).consents && db.s.lock == old(db.s).lock
      ensures Quiet(w) && !old(running) && old(db.s).lock.Free? ==> (db.s.lock.Free? <==> lockSession == unlockSession)
      ensures Quiet(w) && !old(running) && old(db.s).lock.Held? && old(db.s).lock.depth > 0 &&
              old(db.s).lock.holder == Session(pod, lockSession) ==>
                db.s.lock == if unlockSession == lockSession then old(db.s).lock
                             else Held(Session(pod, lockSession), old(db.s).lock.depth + 1)
      ensures Quiet(w) && !old(running) && (old(db.s).lock.Free? || old(db.s).lock.holder == Session(pod, lockSession)) ==>
                var was, now := old(db.s).consents, old(db.s).now;
                && |db.s.consents| == |was|
                && (forall c :: 0 <= c < |was| ==>
                      db.s.consents[c] == was[c] ||
                      (was[c].status == Active && was[c].expiresAt.Some? && was[c].expiresAt.value < now &&
                       db.s.consents[c] == was[c].(status := Expired, revokedAt := None)))
                && (|set c | 0 <= c < |was| && was[c].status == Active && was[c].expiresAt.Some? && was[c].expiresAt.value < now| <= 500 ==>
                      forall c :: 0 <= c < |was| ==>
                        !(db.s.consents[c].status == Active && db.s.consents[c].expiresAt.Some? && db.s.consents[c].expiresAt.value < now))
    {
      rows := [];
      if running { return Ok(0), []; }
      running := true;
      ghost var t := db.s.nextTick;
      db.Perform(OnPod(pod, TickStart));
      var threw, locked := TryLock(lockSession, w);
      if !locked {
        r := if threw then Threw else Ok(0);
      } else {
        r, rows := Locked(unlockSession, w);
      }
      running := false;
      if Quiet(w) && locked { ExpiryColumns(old(db.s), rows, db.s.consents); }
      if r.Ok? { TickResultTheorem(db.strictActor, db.trace, t); }
    }
  }

  /** Expiring the scanned rows makes exactly them no longer due, so the backlog shrinks by min(500, k). */
  lemma BacklogShrinks(s: State, rows: seq<nat>)
    requires IsScan(s, rows)
    ensures var after := Overdue(ExpireRows(s.consents, Elements(rows)), s.now);
            && after == Overdue(s.consents, s.now) - Elements(rows)
            && |after| == |Overdue(s.consents, s.now)| - Min(SCAN_LIMIT, |Overdue(s.consents, s.now)|)
  {
    var from := Overdue(s.consents, s.now);
    ElementsSize(rows);
    SubsetSize(Elements(rows), from);
  }

  function Backlog(s: State): nat { |Overdue(s.consents, s.now)| }

  function Less(a: nat, b: nat): nat { if a <= b then 0 else a - b }

  /** The pool hands out one session for all locks that the pod can get, or each tick unlocks the session
      that it locked. */
  predicate AlwaysGranted(lock: Lock, pod: nat, locks: nat -> nat, unlocks: nat -> nat, n: nat) {
    || (LockGranted(lock, Session(pod, locks(0))) && forall i :: 0 <= i < n ==> locks(i) == locks(0))
    || (lock.Free? && forall i :: 0 <= i < n ==> locks(i) == unlocks(i))
  }

  /** One undisturbed tick, as the change of the backlog and of the lock. */
  method TimerTick(job: ConsentExpiryJob, w: World, lockSession: nat, unlockSession: nat) returns (got: bool)
    requires job.Valid() && !job.running && Quiet(w)
    modifies job, job.db
    ensures job.Valid() && !job.running && old(job.db.trace) <= job.db.trace && job.db.s.now == old(job.db.s).now
    ensures got <==> LockGranted(old(job.db.s).lock, Session(job.pod, lockSession))
    ensures Backlog(job.db.s) == old(Backlog(job.db.s)) - if got then Min(SCAN_LIMIT, old(Backlog(job.db.s))) else 0
    ensures job.db.s.lock ==
            if got then Released(Acquired(old(job.db.s).lock, Session(job.pod, lockSession)), Session(job.pod, unlockSession))
            else old(job.db.s).lock
  {
    ghost var before := job.db.s;
    got := LockGranted(job.db.s.lock, Session(job.pod, lockSession));
    var r, rows := job.Tick(w, lockSession, unlockSession);
    if got { BacklogShrinks(before, rows); }
  }

  /** n ticks, one after the other. */
  method RunTicks(job: ConsentExpiryJob, w: World, locks: nat -> nat, unlocks: nat -> nat, n: nat) returns (granted: nat)
    requires job.Valid() && !job.running && Quiet(w)
    modifies job, job.db
    ensures job.Valid() && old(job.db.trace) <= job.db.trace && granted <= n
    ensures Backlog(job.db.s) == Less(old(Backlog(job.db.s)), SCAN_LIMIT * granted)
    ensures AlwaysGranted(old(job.db.s).lock, job.pod, locks, unlocks, n) ==> granted == n
    ensures job.db.s.now == old(job.db.s).now
  {
    granted := 0;
    ghost var first := job.db.s.lock;
    for i := 0 to n
      invariant job.Valid() && !job.running && old(job.db.trace) <= job.db.trace && granted <= i
      invariant job.db.s.now == old(job.db.s).now
      invariant Backlog(job.db.s) == Less(old(Backlog(job.db.s)), SCAN_LIMIT * granted)
      invariant AlwaysGranted(first, job.pod, locks, unlocks, n) ==>
                  granted == i && (i < n ==> LockGranted(job.db.s.lock, Session(job.pod, locks(i)))) &&
                  (!(forall j :: 0 <= j < n ==> locks(j) == locks(0)) ==> job.db.s.lock.Free?)
    {
      var got := TimerTick(job, w, locks(i), unlocks(i));
      granted := granted + if got then 1 else 0;
    }
  }

  /** The interval timer of start(), with any pooled sessions: n undisturbed ticks of which g get the lock
      expire 500 g overdue consents, or all of them. When all get it, ceil(k / 500) ticks leave none of k
      active. */
  method RunTimer(job: ConsentExpiryJob, w: World, locks: nat -> nat, unlocks: nat -> nat, n: nat) returns (granted: nat)
    requires job.Valid() && !job.running && Quiet(w)
    modifies job, job.db
    ensures job.Valid() && old(job.db.trace) <= job.db.trace && granted <= n
    ensures Backlog(job.db.s) == Less(old(Backlog(job.db.s)), SCAN_LIMIT * granted)
    ensures AlwaysGranted(old(job.db.s).lock, job.pod, locks, unlocks, n) ==> granted == n
    ensures job.db.s.now == old(job.db.s).now
    ensures var was, now := old(job.db.s).consents, old(job.db.s).now;
            |set c | 0 <= c < |was| && was[c].status == Active && was[c].expiresAt.Some? && was[c].expiresAt.value < now| <= 500 * granted ==>
              forall c :: 0 <= c < |job.db.s.consents| ==>
                !(job.db.s.consents[c].status == Active && job.db.s.consents[c].expiresAt.Some? && job.db.s.consents[c].expiresAt.value < now)
  {
    ghost var was, now := job.db.s.consents, job.db.s.now;
    granted := RunTicks(job, w, locks, unlocks, n);
    assert (set c | 0 <= c < |was| && was[c].status == Active && was[c].expiresAt.Some? && was[c].expiresAt.value < now)
           == Overdue(was, now);
    if Backlog(job.db.s) == 0 { NothingDue(job.db.s); }
  }

  lemma ExpireNext(consents: seq<Consent>, now: Time, rows: seq<nat>, i: nat)
    requires i < |rows| && Distinct(rows) && forall j :: 0 <= j < |rows| ==> rows[j] in Overdue(consents, now)
    ensures
      var mid := ExpireRows(consents, Elements(rows[..i]));
      && rows[i] in Overdue(mid, now)
      && mid[rows[i] := ExpiredRow(mid[rows[i]])] == ExpireRows(consents, Elements(rows[..i + 1]))
  {
    var mid := ExpireRows(consents, Elements(rows[..i]));
    assert rows[i] in Overdue(consents, now);
    assert rows[i] !in rows[..i];
    assert Elements(rows[..i + 1]) == Elements(rows[..i]) + {rows[i]};
  }
}

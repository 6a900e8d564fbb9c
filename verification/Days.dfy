/** Daily commitments: which audit rows a day's Merkle root covers, and when that set is final. */
module Days {
  import opened Std
  import opened Consents
  import Merkle
  import System

  /** Milliseconds in a UTC day. */
  const DAY: nat := 86_400_000

  /** created_at >= dayStart AND created_at < dayEnd */
  predicate InDay(at: Time, day: nat) { day * DAY <= at < day * DAY + DAY }

  function DayIds(audit: seq<AuditRow>, day: nat): set<nat> { set r | r in audit && InDay(r.at, day) :: r.id }

  /** Every row belongs to exactly one day. */
  lemma OneDay(at: Time, day: nat)
    ensures InDay(at, day) <==> day == at / DAY
  {}

  /** In every reachable state each audit event is among the leaves of exactly one day. */
  lemma EachEventHasOneDay(strictActor: bool, trace: seq<System.Action>, j: nat, day: nat)
    requires j < |System.Run(System.Init(strictActor), trace).core.audit|
    ensures var audit := System.Run(System.Init(strictActor), trace).core.audit;
            audit[j].id in DayIds(audit, day) <==> day == audit[j].at / 86_400_000
  {
    var audit := System.Run(System.Init(strictActor), trace).core.audit;
    System.LinkedReachable(strictActor, trace);
    OneDay(audit[j].at, day);
    if audit[j].id in DayIds(audit, day) {
      var k :| 0 <= k < |audit| && InDay(audit[k].at, day) && audit[k].id == audit[j].id;
      assert k == j;
    } else {
      assert audit[j] in audit;
    }
  }

  // ---------- the ordered query and the root ----------

  predicate Ascending(s: seq<nat>) { forall i, j :: 0 <= i < j < |s| ==> s[i] < s[j] }

  /** There is only one ascending list of a set. */
  lemma {:induction false} AscendingIsUnique(a: seq<nat>, b: seq<nat>)
    requires Ascending(a) && Ascending(b) && Elements(a) == Elements(b)
    ensures a == b
  {
    if a != [] || b != [] {
      assert a != [] ==> a[0] in Elements(b);
      assert b != [] ==> b[0] in Elements(a);
      assert a[0] == b[0] by {
        assert a[0] in b && b[0] in a;
      }
      forall x: nat ensures x in Elements(a[1..]) <==> x in Elements(b[1..]) {
        assert x in Elements(a) <==> x in Elements(b);
        assert x in a <==> x == a[0] || x in a[1..];
        assert x in b <==> x == b[0] || x in b[1..];
      }
      AscendingIsUnique(a[1..], b[1..]);
    }
  }

  ghost predicate IsRootOfDay(hash: Merkle.Hash, audit: seq<AuditRow>, day: nat, root: string) {
    exists ids: seq<nat> :: Ascending(ids) && Elements(ids) == DayIds(audit, day) && root == Merkle.HexRoot(hash, ids)
  }

  function ById(): nat -> int { (id: nat) => id }

  /** ORDER BY id ASC without a cutting limit: all ids, ascending. */
  lemma OrderedById(ids: set<nat>, rows: seq<nat>)
    requires IsTop(ids, ById(), |ids|, rows)
    ensures Ascending(rows) && Elements(rows) == ids
  {
    TopTakesAll(ids, ById(), |ids|, rows);
    forall i, j | 0 <= i < j < |rows| ensures rows[i] < rows[j] {
      assert ById()(rows[i]) <= ById()(rows[j]) && rows[i] != rows[j];
    }
  }

  ghost predicate StampedOn(audit: seq<AuditRow>, day: nat, id: nat) {
    exists r :: r in audit && day * 86_400_000 <= r.at < day * 86_400_000 + 86_400_000 && r.id == id
  }

  /** The ids of the rows stamped on the day, ascending, in the columns of the table. */
  ghost predicate ListsDay(audit: seq<AuditRow>, day: nat, ids: seq<nat>) {
    && (forall i, j :: 0 <= i < j < |ids| ==> ids[i] < ids[j])
    && (forall i :: 0 <= i < |ids| ==> StampedOn(audit, day, ids[i]))
    && (forall r :: r in audit && day * 86_400_000 <= r.at < day * 86_400_000 + 86_400_000 ==> r.id in ids)
  }

  lemma DayColumns(audit: seq<AuditRow>, day: nat, ids: seq<nat>)
    requires Ascending(ids) && Elements(ids) == DayIds(audit, day)
    ensures ListsDay(audit, day, ids)
  {
    forall i | 0 <= i < |ids| ensures StampedOn(audit, day, ids[i]) {
      assert ids[i] in Elements(ids);
      var r :| r in audit && InDay(r.at, day) && r.id == ids[i];
    }
    forall r | r in audit && day * 86_400_000 <= r.at < day * 86_400_000 + 86_400_000 ensures r.id in ids {
      assert r.id in DayIds(audit, day);
    }
  }

  /** computeDailyMerkleRoot: SELECT id ... ORDER BY id ASC, then the fold. */
  method ComputeDailyMerkleRoot(hash: Merkle.Hash, audit: seq<AuditRow>, day: nat) returns (root: string)
    ensures IsRootOfDay(hash, audit, day, root)
    ensures exists ids: seq<nat> :: ListsDay(audit, day, ids) && root == Merkle.HexRoot(hash, ids)
  {
    var ids := DayIds(audit, day);
    var rows := Select(ids, ById(), |ids|);
    OrderedById(ids, rows);
    root := Merkle.HexMerkleRoot(hash, rows);
    DayColumns(audit, day, rows);
  }

  // ---------- what the root of a day binds ----------

  lemma {:induction false} FullElements(s: seq<nat>, d: nat)
    requires 0 < |s| <= Merkle.Pow2(d)
    ensures Elements(Merkle.Full(s, d)) == Elements(s)
    decreases d
  {
    if d > 0 {
      var half := Merkle.Pow2(d - 1);
      if |s| <= half {
        FullElements(s, d - 1);
      } else {
        FullElements(s[..half], d - 1);
        FullElements(s[half..], d - 1);
        assert s == s[..half] + s[half..];
      }
      ElementsOfHalves(s, d);
    }
  }

  lemma ElementsOfHalves(s: seq<nat>, d: nat)
    requires d > 0 && 0 < |s| <= Merkle.Pow2(d)
    ensures var half := Merkle.Pow2(d - 1);
            Elements(Merkle.Full(s, d)) ==
            if |s| <= half then Elements(Merkle.Full(s, d - 1))
            else Elements(Merkle.Full(s[..half], d - 1)) + Elements(Merkle.Full(s[half..], d - 1))
  {}

  /** A day's list repeats no id, so it is never the same as another one up to copies only. */
  lemma {:induction false} AscendingHasNoCopies(a: seq<nat>, b: seq<nat>)
    requires Ascending(a) && Ascending(b) && Merkle.SameUpToCopies(a, b)
    ensures a == b
  {
    if a != [] && b != [] {
      var d := Merkle.CeilLog2(|a|);
      Merkle.CeilLog2IsLeast(|a|, d);
      Merkle.CeilLog2IsLeast(|b|, d);
      FullElements(a, d);
      FullElements(b, d);
      AscendingIsUnique(a, b);
    }
  }

  /** Although a Merkle root alone does not bind the number of leaves, the daily root does: two days, of one
      log or of two, with one root have the same audit ids or give a SHA-256 collision. */
  lemma {:induction false} DayRootBinds(hash: Merkle.Hash, audit: seq<AuditRow>, day: nat, audit': seq<AuditRow>, day': nat, root: string)
    returns (x: seq<Merkle.Byte>, y: seq<Merkle.Byte>)
    requires IsRootOfDay(hash, audit, day, root) && IsRootOfDay(hash, audit', day', root)
    requires forall r :: r in audit || r in audit' ==> r.id < Merkle.ID_LIMIT
    ensures DayIds(audit, day) != DayIds(audit', day') ==> x != y && hash(x) == hash(y)
  {
    var a: seq<nat> :| Ascending(a) && Elements(a) == DayIds(audit, day) && root == Merkle.HexRoot(hash, a);
    var b: seq<nat> :| Ascending(b) && Elements(b) == DayIds(audit', day') && root == Merkle.HexRoot(hash, b);
    assert forall i :: 0 <= i < |a| ==> a[i] in Elements(a);
    assert forall i :: 0 <= i < |b| ==> b[i] in Elements(b);
    x, y := Merkle.HexRootsAgreeExactly(hash, a, b);
    if Merkle.SameUpToCopies(a, b) {
      AscendingHasNoCopies(a, b);
    }
  }

  // ---------- when a day is closed ----------

  /** An open transaction that began on the day, still to be committed and not doomed by its actor. */
  predicate OpenOn(s: State, i: nat, day: nat) {
    i < |s.calls| &&
    match s.calls[i].phase
    case InsertingAudit(at) => InDay(at, day) && ActorAccepted(s, s.calls[i].actor)
    case InsertingOutbox(at, _) => InDay(at, day)
    case Committing(at, _, _) => InDay(at, day)
    case _ => false
  }

  ghost predicate Closed(s: State, day: nat) {
    day * DAY + DAY <= s.now && forall i :: 0 <= i < |s.calls| ==> !OpenOn(s, i, day)
  }

  /** No transaction begins on a day that is over. */
  lemma StaysShut(s: State, a: Action, day: nat, i: nat)
    requires day * DAY + DAY <= s.now && i < |Step(s, a).calls| && !OpenOn(s, i, day)
    ensures !OpenOn(Step(s, a), i, day)
  {}

  lemma StepKeepsClosed(s: State, a: Action, day: nat)
    requires Closed(s, day)
    ensures Closed(Step(s, a), day) && DayIds(Step(s, a).audit, day) == DayIds(s.audit, day)
  {
    var s' := Step(s, a);
    forall i | 0 <= i < |s'.calls| ensures !OpenOn(s', i, day) {
      StaysShut(s, a, day, i);
    }
    if a.OnCall? && a.call < |s.calls| && s'.audit != s.audit {
      assert !OpenOn(s, a.call, day);
      assert s'.audit == s.audit + [RowOf(s.calls[a.call], a.call)];
    } else {
      assert s'.audit == s.audit;
    }
  }

  /** A closed day has the same leaves, hence the same root, in every later state of every run. */
  lemma {:induction false} ClosedDayIsFinal(s: State, trace: seq<Action>, day: nat)
    requires Closed(s, day)
    ensures Closed(Run(s, trace), day) && DayIds(Run(s, trace).audit, day) == DayIds(s.audit, day)
    ensures forall hash, root, root' ::
              IsRootOfDay(hash, s.audit, day, root) && IsRootOfDay(hash, Run(s, trace).audit, day, root') ==> root == root'
  {
    if trace != [] {
      ClosedDayIsFinal(s, trace[..|trace| - 1], day);
      StepKeepsClosed(Run(s, trace[..|trace| - 1]), trace[|trace| - 1], day);
    }
    forall hash, root, root' | IsRootOfDay(hash, s.audit, day, root) && IsRootOfDay(hash, Run(s, trace).audit, day, root')
      ensures root == root'
    {
      var ids: seq<nat> :| Ascending(ids) && Elements(ids) == DayIds(s.audit, day) && root == Merkle.HexRoot(hash, ids);
      var ids': seq<nat> :| Ascending(ids') && Elements(ids') == DayIds(Run(s, trace).audit, day) && root' == Merkle.HexRoot(hash, ids');
      AscendingIsUnique(ids, ids');
    }
  }

  /** From its next statement on, the transaction of call i can commit. */
  lemma FinishesFromCommitting(s: State, i: nat) returns (more: seq<Action>, row: AuditRow)
    requires i < |s.calls| && s.calls[i].phase.Committing?
    ensures Run(s, more).audit == s.audit + [row]
    ensures row.at == s.calls[i].phase.at && row.id == s.calls[i].phase.auditId
  {
    more := [OnCall(i, CommitTx)];
    assert more[..0] == [];
    row := RowOf(s.calls[i], i);
  }

  lemma FinishesFromOutbox(s: State, i: nat) returns (more: seq<Action>, row: AuditRow)
    requires i < |s.calls| && s.calls[i].phase.InsertingOutbox?
    ensures Run(s, more).audit == s.audit + [row]
    ensures row.at == s.calls[i].phase.at && row.id == s.calls[i].phase.auditId
  {
    var s' := Step(s, OnCall(i, InsertOutbox));
    more, row := FinishesFromCommitting(s', i);
    RunFirst(s, OnCall(i, InsertOutbox), more);
    more := [OnCall(i, InsertOutbox)] + more;
  }

  lemma FinishesFromAudit(s: State, i: nat) returns (more: seq<Action>, row: AuditRow)
    requires i < |s.calls| && s.calls[i].phase.InsertingAudit? && ActorAccepted(s, s.calls[i].actor)
    ensures Run(s, more).audit == s.audit + [row]
    ensures row.at == s.calls[i].phase.at && row.id == s.nextAudit
  {
    var s' := Step(s, OnCall(i, InsertAudit));
    more, row := FinishesFromOutbox(s', i);
    RunFirst(s, OnCall(i, InsertAudit), more);
    more := [OnCall(i, InsertAudit)] + more;
  }

  lemma RunFirst(s: State, a: Action, more: seq<Action>)
    ensures Run(s, [a] + more) == Run(Step(s, a), more)
  {
    RunConcat(s, [a], more);
    assert [a][..0] == [];
  }

  lemma OpenTransactionChangesDay(s: State, i: nat, day: nat) returns (more: seq<Action>)
    requires System.AuditIds(s) && OpenOn(s, i, day)
    ensures DayIds(Run(s, more).audit, day) != DayIds(s.audit, day)
  {
    var row;
    match s.calls[i].phase {
      case InsertingAudit(_) => more, row := FinishesFromAudit(s, i);
      case InsertingOutbox(_, _) => more, row := FinishesFromOutbox(s, i);
      case Committing(_, _, _) => more, row := FinishesFromCommitting(s, i);
    }
    assert row in Run(s, more).audit;
    assert row.id in DayIds(Run(s, more).audit, day);
  }

  /** Midnight alone does not close a day, because created_at is the start of the transaction: once the
      day is over, its leaves can still change exactly when a transaction begun on it is open. */
  lemma DayIsFinalExactlyWhenClosed(strictActor: bool, trace: seq<System.Action>, day: nat)
    requires day * DAY + DAY <= System.Run(System.Init(strictActor), trace).core.now
    ensures var s := System.Run(System.Init(strictActor), trace).core;
            (forall more :: DayIds(Run(s, more).audit, day) == DayIds(s.audit, day)) <==> Closed(s, day)
  {
    var s := System.Run(System.Init(strictActor), trace).core;
    System.LinkedReachable(strictActor, trace);
    if Closed(s, day) {
      forall more ensures DayIds(Run(s, more).audit, day) == DayIds(s.audit, day) {
        ClosedDayIsFinal(s, more, day);
      }
    } else {
      var i :| 0 <= i < |s.calls| && OpenOn(s, i, day);
      var more := OpenTransactionChangesDay(s, i, day);
    }
  }
}

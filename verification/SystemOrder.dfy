/** Order of delivery in the whole system: with commits in stamp order, consumers replay the audit log. */
module SystemOrder {
  import opened Std
  import C = Consents
  import CI = ConsentInvariants
  import O = Outbox
  import OO = OutboxOrder
  import opened System

  /** Every commit carries a later stamp than all earlier ones; one publisher, whose sends land completely or
      not at all and report no errors. */
  predicate OrderlyStep(s: System, a: Action) {
    match a
    case Core(x) =>
      Commits(s.core, x) ==>
        forall j :: 0 <= j < |s.core.audit| ==> s.core.audit[j].at < s.core.calls[x.call].phase.at
    case Publish(e) => e.Insert? || OO.Orderly(s.out, e)
  }

  predicate OrderlySystem(strictActor: bool, trace: seq<Action>) {
    trace == [] ||
    (OrderlySystem(strictActor, trace[..|trace| - 1]) &&
     OrderlyStep(Run(Init(strictActor), trace[..|trace| - 1]), trace[|trace| - 1]))
  }

  lemma OrderlyPush(trace: seq<O.Event>, e: O.Event)
    requires OO.OrderlyRun(trace) && OO.Orderly(O.Run(O.Empty(), trace), e)
    ensures OO.OrderlyRun(trace + [e])
  {
    assert (trace + [e])[..|trace|] == trace;
  }

  lemma CommitIsOrderly(s: System, a: C.Action)
    requires Linked(s) && OrderlyStep(s, Core(a)) && Commits(s.core, a)
    ensures OO.Orderly(s.out, O.Insert(OutboxRow(s.core.calls[a.call], a.call)))
  {
    forall i | 0 <= i < |s.out.rows| ensures s.out.rows[i].at < s.core.calls[a.call].phase.at {
      assert Paired(s.core.audit[i], s.out.rows[i]);
    }
  }

  lemma {:induction false} OrderlyParts(strictActor: bool, trace: seq<Action>)
    requires OrderlySystem(strictActor, trace)
    ensures OO.OrderlyRun(OutTrace(strictActor, trace))
  {
    if trace != [] {
      var n := |trace| - 1;
      var before := Run(Init(strictActor), trace[..n]);
      var events := OutTrace(strictActor, trace[..n]);
      OrderlyParts(strictActor, trace[..n]);
      Parts(strictActor, trace[..n]);
      match trace[n] {
        case Core(x) =>
          if Commits(before.core, x) {
            LinkedReachable(strictActor, trace[..n]);
            CommitIsOrderly(before, x);
            OrderlyPush(events, Emitted(before.core, x)[0]);
            assert Emitted(before.core, x) == [Emitted(before.core, x)[0]];
          } else {
            assert events + Emitted(before.core, x) == events;
          }
        case Publish(e) =>
          if !e.Insert? {
            OrderlyPush(events, e);
          }
      }
    }
  }

  /** The records that a consumer keeps if it drops repeated idempotency keys. */
  function FirstSeen(log: seq<O.Message>): seq<O.Message> {
    if log == [] then []
    else
      var seen := FirstSeen(log[..|log| - 1]);
      var last := log[|log| - 1];
      if last.id in OO.Keys(seen) then seen else seen + [last]
  }

  lemma {:induction false} FirstSeenIsDedup(log: seq<O.Message>)
    ensures OO.Keys(FirstSeen(log)) == OO.Dedup(OO.Keys(log))
    ensures forall m :: m in FirstSeen(log) ==> m in log
  {
    if log != [] {
      var n := |log| - 1;
      FirstSeenIsDedup(log[..n]);
      assert OO.Keys(log)[..n] == OO.Keys(log[..n]);
      assert OO.Keys(log) == OO.Keys(log[..n]) + [log[n].id];
      OO.DedupPush(OO.Keys(log[..n]), log[n].id);
      OO.KeysAppend(FirstSeen(log[..n]), [log[n]]);
    }
  }

  /** The record announces the audit row. */
  predicate Announces(m: O.Message, a: C.AuditRow) {
    m.kind == a.kind && m.key == a.consent && m.payload.body == a.call
  }

  lemma SeenAnnounces(s: System, n: nat, sent: nat)
    requires O.Delivering(s.out) && Correspond(s) && n < sent <= |s.out.rows|
    requires OO.Dedup(OO.Keys(s.out.log)) == OO.Ids(s.out.rows[..sent])
    ensures n < |FirstSeen(s.out.log)| && Announces(FirstSeen(s.out.log)[n], s.core.audit[n])
  {
    FirstSeenIsDedup(s.out.log);
    var seen := FirstSeen(s.out.log);
    assert |seen| == |OO.Keys(seen)| == sent;
    var m := seen[n];
    assert m in seen && m.id == OO.Ids(s.out.rows[..sent])[n] == s.out.rows[n].id;
    var k :| 0 <= k < |s.out.log| && s.out.log[k] == m;
    assert O.Told(s.out.rows, s.out.log[k]);
    var i :| 0 <= i < |s.out.rows| && O.Tells(m, s.out.rows[i]);
    assert i == n && Paired(s.core.audit[n], s.out.rows[n]);
  }

  /** At every point of every such run, across crashes of requests, jobs and the publisher: what a consumer
      keeps announces exactly the first rows of the audit log, in order, and the published outbox rows are
      those of the first rows among these. */
  lemma AuditLogIsReplayed(strictActor: bool, trace: seq<Action>) returns (published: nat, sent: nat)
    requires OrderlySystem(strictActor, trace)
    ensures
      var s := Run(Init(strictActor), trace);
      && published <= sent <= |s.core.audit| == |s.out.rows|
      && |FirstSeen(s.out.log)| == sent
      && (forall n :: 0 <= n < sent ==> Announces(FirstSeen(s.out.log)[n], s.core.audit[n]))
      && (forall n :: 0 <= n < |s.out.rows| ==> (s.out.rows[n].published <==> n < published))
  {
    var s := Run(Init(strictActor), trace);
    OrderlyParts(strictActor, trace);
    Parts(strictActor, trace);
    LinkedReachable(strictActor, trace);
    O.DeliveringReachable(OutTrace(strictActor, trace));
    published, sent := OO.PrefixTheorem(OutTrace(strictActor, trace));
    FirstSeenIsDedup(s.out.log);
    assert |FirstSeen(s.out.log)| == |OO.Keys(FirstSeen(s.out.log))| == sent;
    forall n | 0 <= n < sent ensures Announces(FirstSeen(s.out.log)[n], s.core.audit[n]) {
      SeenAnnounces(s, n, sent);
    }
  }
}

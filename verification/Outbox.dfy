/** The transactional outbox as a step system: rows arrive by commits, any number of publishers fetch a
    batch, send it and mark its rows one by one, and each of these steps may be the last of its drain. */
module Outbox {
  import opened Std
  import opened Consents

  const BATCH_SIZE: nat := 100

  /** error is the _error field that markFailed adds to the stored payload. */
  datatype Payload = Payload(body: nat, error: Option<string>)

  datatype Row = Row(id: nat, kind: Kind, key: nat, payload: Payload, at: Time, published: bool)

  /** A broker record; id is also its idempotency-key header. */
  datatype Message = Message(id: nat, kind: Kind, key: nat, payload: Payload)

  /** The drain a publisher is in; a publisher between drains has none. */
  datatype Drain =
    | Fetched(batch: seq<Row>)
    | Marking(batch: seq<Row>, errors: seq<Option<string>>, next: nat)

  /** rows are in the order in which their transactions committed. */
  datatype Outbox = Outbox(rows: seq<Row>, log: seq<Message>, drains: map<nat, Drain>)

  datatype Event =
    | Insert(row: Row)
    | Fetch(publisher: nat, pick: seq<nat>)
    | Send(publisher: nat, landed: seq<bool>, errors: seq<Option<string>>, threw: bool)
    | Mark(publisher: nat)
    | Halt(publisher: nat)

  function Empty(): Outbox { Outbox([], [], map[]) }

  // ---------- queries and updates ----------

  function Pending(rows: seq<Row>): set<nat> { set i | 0 <= i < |rows| && !rows[i].published }

  function CreatedAt(rows: seq<Row>): nat -> int { (i: nat) => if i < |rows| then rows[i].at else 0 }

  /** SELECT * FROM outbox WHERE published_at IS NULL ORDER BY created_at ASC LIMIT 100, as positions */
  predicate IsOldest(rows: seq<Row>, pick: seq<nat>) { IsTop(Pending(rows), CreatedAt(rows), BATCH_SIZE, pick) }

  function RowsAt(rows: seq<Row>, pick: seq<nat>): (batch: seq<Row>)
    requires forall j :: 0 <= j < |pick| ==> pick[j] < |rows|
    ensures |batch| == |pick| && forall j :: 0 <= j < |pick| ==> batch[j] == rows[pick[j]]
  {
    seq(|pick|, j requires 0 <= j < |pick| => rows[pick[j]])
  }

  /** markPublished without an error, markFailed with one. */
  function MarkOne(r: Row, error: Option<string>): Row {
    if error.Some? then r.(payload := r.payload.(error := error)) else r.(published := true)
  }

  /** UPDATE outbox ... WHERE id = $1 */
  function MarkRows(rows: seq<Row>, id: nat, error: Option<string>): (marked: seq<Row>)
    ensures |marked| == |rows|
    ensures forall i :: 0 <= i < |rows| ==>
              marked[i] == if rows[i].id == id then MarkOne(rows[i], error) else rows[i]
  {
    seq(|rows|, i requires 0 <= i < |rows| => if rows[i].id == id then MarkOne(rows[i], error) else rows[i])
  }

  function MessageOf(r: Row): Message { Message(r.id, r.kind, r.key, r.payload) }

  /** The records of the batch that reached the broker, in batch order. */
  function Landed(batch: seq<Row>, landed: seq<bool>): seq<Message>
    requires |landed| == |batch|
  {
    if batch == [] then []
    else
      var n := |batch| - 1;
      Landed(batch[..n], landed[..n]) + if landed[n] then [MessageOf(batch[n])] else []
  }

  lemma {:induction false} AllLanded(batch: seq<Row>, landed: seq<bool>)
    requires |landed| == |batch| && forall j :: 0 <= j < |batch| ==> landed[j]
    ensures |Landed(batch, landed)| == |batch|
    ensures forall j :: 0 <= j < |batch| ==>
              Landed(batch, landed)[j] == Message(batch[j].id, batch[j].kind, batch[j].key, batch[j].payload)
  {
    if batch != [] {
      AllLanded(batch[..|batch| - 1], landed[..|batch| - 1]);
    }
  }

  /** What an answer of the query is, in the columns of the table. */
  lemma PendingColumns(rows: seq<Row>, pick: seq<nat>)
    requires IsOldest(rows, pick)
    ensures |pick| <= 100 && forall j :: 0 <= j < |pick| ==> pick[j] < |rows| && !rows[pick[j]].published
    ensures forall i, j :: 0 <= i < j < |pick| ==> pick[i] != pick[j] && rows[pick[i]].at <= rows[pick[j]].at
    ensures forall i :: 0 <= i < |rows| && i !in pick && !rows[i].published ==>
              |pick| == 100 && forall j :: 0 <= j < |pick| ==> rows[pick[j]].at <= rows[i].at
  {
    var from, key := Pending(rows), CreatedAt(rows);
    forall j | 0 <= j < |pick| ensures pick[j] in from && key(pick[j]) == rows[pick[j]].at {}
    forall i, j | 0 <= i < j < |pick| ensures pick[i] != pick[j] && rows[pick[i]].at <= rows[pick[j]].at {
      assert key(pick[i]) <= key(pick[j]);
    }
    forall i | 0 <= i < |rows| && i !in pick && !rows[i].published
      ensures |pick| == 100 && forall j :: 0 <= j < |pick| ==> rows[pick[j]].at <= rows[i].at
    {
      assert i in from && key(i) == rows[i].at;
      forall j | 0 <= j < |pick| ensures rows[pick[j]].at <= rows[i].at {
        assert key(pick[j]) <= key(i);
      }
      TopMisses(from, key, BATCH_SIZE, pick, i);
    }
  }

  predicate FreshId(rows: seq<Row>, id: nat) { forall i :: 0 <= i < |rows| ==> rows[i].id != id }

  /** A result without an error is acknowledged, so its record is in the log. */
  predicate CanSend(o: Outbox, e: Event)
    requires e.Send?
  {
    && e.publisher in o.drains && o.drains[e.publisher].Fetched?
    && var n := |o.drains[e.publisher].batch|;
       |e.landed| == n && |e.errors| == n &&
       (!e.threw ==> forall i :: 0 <= i < n && e.errors[i].None? ==> e.landed[i])
  }

  // ---------- steps ----------

  function Step(o: Outbox, e: Event): Outbox {
    match e
    case Insert(row) =>
      if FreshId(o.rows, row.id) && !row.published && row.payload.error.None? then o.(rows := o.rows + [row]) else o
    case Fetch(p, pick) =>
      if p !in o.drains && IsOldest(o.rows, pick) && pick != []
      then o.(drains := o.drains[p := Fetched(RowsAt(o.rows, pick))])
      else o
    case Send(p, landed, errors, threw) =>
      if !CanSend(o, e) then o
      else
        var batch := o.drains[p].batch;
        o.(log := o.log + Landed(batch, landed),
           drains := if threw then o.drains - {p} else o.drains[p := Marking(batch, errors, 0)])
    case Mark(p) =>
      if p in o.drains && o.drains[p].Marking? && o.drains[p].next < |o.drains[p].batch| == |o.drains[p].errors|
      then
        var d := o.drains[p];
        o.(rows := MarkRows(o.rows, d.batch[d.next].id, d.errors[d.next]),
           drains := if d.next + 1 < |d.batch| then o.drains[p := d.(next := d.next + 1)] else o.drains - {p})
      else o
    // a statement throws, the pod dies, or the publisher is stopped for good
    case Halt(p) => o.(drains := o.drains - {p})
  }

  function Run(o: Outbox, trace: seq<Event>): Outbox {
    if trace == [] then o else Step(Run(o, trace[..|trace| - 1]), trace[|trace| - 1])
  }

  lemma RunPush(o: Outbox, trace: seq<Event>, e: Event)
    ensures Run(o, trace + [e]) == Step(Run(o, trace), e)
  {
    assert (trace + [e])[..|trace|] == trace;
  }

  // ---------- delivery at least once, and truthfully ----------

  /** The same event, whatever happened to its published_at and _error since. */
  predicate SameEvent(r: Row, r': Row) {
    r'.id == r.id && r'.kind == r.kind && r'.key == r.key && r'.payload.body == r.payload.body && r'.at == r.at
  }

  predicate Tells(m: Message, r: Row) {
    m.id == r.id && m.kind == r.kind && m.key == r.key && m.payload.body == r.payload.body
  }

  predicate InLog(log: seq<Message>, id: nat) { exists k :: 0 <= k < |log| && log[k].id == id }

  predicate InRows(rows: seq<Row>, r: Row) { exists i :: 0 <= i < |rows| && SameEvent(r, rows[i]) }

  predicate Told(rows: seq<Row>, m: Message) { exists i :: 0 <= i < |rows| && Tells(m, rows[i]) }

  predicate DistinctIds(rows: seq<Row>) { forall i, j :: 0 <= i < j < |rows| ==> rows[i].id != rows[j].id }

  predicate DrainOk(o: Outbox, d: Drain) {
    && d.batch != []
    && (forall j :: 0 <= j < |d.batch| ==> InRows(o.rows, d.batch[j]))
    && (d.Marking? ==>
          d.next < |d.batch| == |d.errors| &&
          forall j :: 0 <= j < |d.batch| && d.errors[j].None? ==> InLog(o.log, d.batch[j].id))
  }

  ghost predicate Delivering(o: Outbox) {
    && DistinctIds(o.rows)
    && (forall i :: 0 <= i < |o.rows| && o.rows[i].published ==> InLog(o.log, o.rows[i].id))
    && (forall k :: 0 <= k < |o.log| ==> Told(o.rows, o.log[k]))
    && (forall p :: p in o.drains ==> DrainOk(o, o.drains[p]))
  }

  /** No row is lost or altered, and published_at is never unset. */
  predicate RowsKept(rows: seq<Row>, rows': seq<Row>) {
    |rows| <= |rows'| &&
    forall i :: 0 <= i < |rows| ==> SameEvent(rows[i], rows'[i]) && (rows[i].published ==> rows'[i].published)
  }

  lemma StepKeepsRows(o: Outbox, e: Event)
    ensures RowsKept(o.rows, Step(o, e).rows) && o.log <= Step(o, e).log
  {}

  predicate Carries(batch: seq<Row>, m: Message) { exists j :: 0 <= j < |batch| && m == MessageOf(batch[j]) }

  lemma {:induction false} LandedAre(batch: seq<Row>, landed: seq<bool>)
    requires |landed| == |batch|
    ensures forall k :: 0 <= k < |Landed(batch, landed)| ==> Carries(batch, Landed(batch, landed)[k])
    ensures forall j :: 0 <= j < |batch| && landed[j] ==> InLog(Landed(batch, landed), batch[j].id)
  {
    var all := Landed(batch, landed);
    if batch != [] {
      var n := |batch| - 1;
      var before := Landed(batch[..n], landed[..n]);
      LandedAre(batch[..n], landed[..n]);
      forall k | 0 <= k < |all| ensures Carries(batch, all[k]) {
        if k < |before| {
          assert Carries(batch[..n], before[k]);
          var j :| 0 <= j < n && before[k] == MessageOf(batch[..n][j]);
          assert all[k] == MessageOf(batch[j]);
        } else {
          assert all[k] == MessageOf(batch[n]);
        }
      }
      forall j | 0 <= j < |batch| && landed[j] ensures InLog(all, batch[j].id) {
        if j < n {
          assert landed[..n][j];
          var k :| 0 <= k < |before| && before[k].id == batch[..n][j].id;
          assert all[k].id == batch[j].id;
        } else {
          assert all[|before|].id == batch[n].id;
        }
      }
    }
  }

  lemma Monotone(o: Outbox, o': Outbox, r: Row, m: Message, id: nat)
    requires RowsKept(o.rows, o'.rows) && o.log <= o'.log
    ensures InRows(o.rows, r) ==> InRows(o'.rows, r)
    ensures Told(o.rows, m) ==> Told(o'.rows, m)
    ensures InLog(o.log, id) ==> InLog(o'.log, id)
  {
    if InRows(o.rows, r) {
      var i :| 0 <= i < |o.rows| && SameEvent(r, o.rows[i]);
      assert SameEvent(r, o'.rows[i]);
    }
    if Told(o.rows, m) {
      var i :| 0 <= i < |o.rows| && Tells(m, o.rows[i]);
      assert Tells(m, o'.rows[i]);
    }
    if InLog(o.log, id) {
      var k :| 0 <= k < |o.log| && o.log[k].id == id;
      assert o'.log[k].id == id;
    }
  }

  lemma DrainStaysOk(o: Outbox, o': Outbox, d: Drain)
    requires RowsKept(o.rows, o'.rows) && o.log <= o'.log && DrainOk(o, d)
    ensures DrainOk(o', d)
  {
    var m := Message(0, ConsentGranted, 0, Payload(0, None));
    forall j | 0 <= j < |d.batch| ensures InRows(o'.rows, d.batch[j]) {
      Monotone(o, o', d.batch[j], m, 0);
    }
    if d.Marking? {
      forall j | 0 <= j < |d.batch| && d.errors[j].None? ensures InLog(o'.log, d.batch[j].id) {
        Monotone(o, o', d.batch[j], m, d.batch[j].id);
      }
    }
  }

  lemma FetchedOk(o: Outbox, pick: seq<nat>)
    requires IsOldest(o.rows, pick) && pick != []
    ensures DrainOk(o, Fetched(RowsAt(o.rows, pick)))
  {
    var batch := RowsAt(o.rows, pick);
    forall j | 0 <= j < |batch| ensures InRows(o.rows, batch[j]) {
      assert SameEvent(batch[j], o.rows[pick[j]]);
    }
  }

  lemma SendKeepsDelivering(o: Outbox, e: Event)
    requires Delivering(o) && e.Send? && CanSend(o, e)
    ensures Delivering(Step(o, e))
  {
    var o' := Step(o, e);
    var d := o.drains[e.publisher];
    var more := Landed(d.batch, e.landed);
    LandedAre(d.batch, e.landed);
    assert DrainOk(o, d);
    forall k | 0 <= k < |o'.log| ensures Told(o'.rows, o'.log[k]) {
      if k >= |o.log| {
        assert Carries(d.batch, more[k - |o.log|]);
        var j :| 0 <= j < |d.batch| && o'.log[k] == MessageOf(d.batch[j]);
        assert InRows(o.rows, d.batch[j]);
        var i :| 0 <= i < |o.rows| && SameEvent(d.batch[j], o.rows[i]);
        assert Tells(o'.log[k], o'.rows[i]);
      } else {
        assert o'.log[k] == o.log[k];
      }
    }
    forall i | 0 <= i < |o'.rows| && o'.rows[i].published ensures InLog(o'.log, o'.rows[i].id) {
      Monotone(o, o', o.rows[i], MessageOf(o.rows[i]), o.rows[i].id);
    }
    forall p | p in o'.drains ensures DrainOk(o', o'.drains[p]) {
      DrainStaysOk(o, o', o.drains[p]);
      if p == e.publisher {
        forall j | 0 <= j < |d.batch| && e.errors[j].None? ensures InLog(o'.log, d.batch[j].id) {
          var k :| 0 <= k < |more| && more[k].id == d.batch[j].id;
          assert o'.log[|o.log| + k].id == d.batch[j].id;
        }
      }
    }
  }

  lemma StepKeepsDelivering(o: Outbox, e: Event)
    requires Delivering(o)
    ensures Delivering(Step(o, e))
  {
    var o' := Step(o, e);
    StepKeepsRows(o, e);
    if e.Send? {
      if CanSend(o, e) { SendKeepsDelivering(o, e); }
    } else {
      assert o'.log == o.log;
      if e.Mark? && e.publisher in o.drains {
        assert DrainOk(o, o.drains[e.publisher]);
      }
      forall k | 0 <= k < |o'.log| ensures Told(o'.rows, o'.log[k]) {
        var m := o.log[k];
        assert Told(o.rows, m);
        var i :| 0 <= i < |o.rows| && Tells(m, o.rows[i]);
        assert Tells(m, o'.rows[i]);
      }
      forall p | p in o'.drains ensures DrainOk(o', o'.drains[p]) {
        if p in o.drains {
          DrainStaysOk(o, o', o.drains[p]);
        } else {
          FetchedOk(o, e.pick);
        }
      }
    }
  }

  lemma {:induction false} DeliveringReachable(trace: seq<Event>)
    ensures Delivering(Run(Empty(), trace))
  {
    if trace != [] {
      DeliveringReachable(trace[..|trace| - 1]);
      StepKeepsDelivering(Run(Empty(), trace[..|trace| - 1]), trace[|trace| - 1]);
    }
  }

  /** Whatever happens later, no row is lost or altered and nothing leaves the log. */
  lemma {:induction false} KeptSince(trace: seq<Event>, later: seq<Event>)
    requires trace <= later
    ensures RowsKept(Run(Empty(), trace).rows, Run(Empty(), later).rows)
    ensures Run(Empty(), trace).log <= Run(Empty(), later).log
  {
    if |trace| < |later| {
      var n := |later| - 1;
      KeptSince(trace, later[..n]);
      StepKeepsRows(Run(Empty(), later[..n]), later[n]);
    } else {
      assert trace == later;
    }
  }

  /** With any number of interleaved publishers, crashes and per-record errors: a row marked published is
      in the log, and a logged record tells the event of the one row that has its id. */
  lemma DeliveryTheorem(trace: seq<Event>, i: nat, k: nat)
    requires var o := Run(Empty(), trace); i < |o.rows| && k < |o.log|
    ensures var o := Run(Empty(), trace);
            && (o.rows[i].published ==> InLog(o.log, o.rows[i].id))
            && (o.log[k].id == o.rows[i].id ==> Tells(o.log[k], o.rows[i]))
            && Told(o.rows, o.log[k])
  {
    DeliveringReachable(trace);
    var o := Run(Empty(), trace);
    assert Told(o.rows, o.log[k]);
  }
}

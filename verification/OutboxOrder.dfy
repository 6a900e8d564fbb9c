/** Order of delivery with one publisher: what the broker has seen is always a prefix of the outbox. */
module OutboxOrder {
  import opened Std
  import opened Outbox

  /** One publisher, numbered 0; sends land completely or not at all, with no per-record errors; each row
      becomes visible later, and with a later created_at, than all before it. Halts are unrestricted. */
  predicate Orderly(o: Outbox, e: Event) {
    match e
    case Insert(row) => forall i :: 0 <= i < |o.rows| ==> o.rows[i].at < row.at
    case Fetch(p, _) => p == 0
    case Send(p, landed, errors, _) =>
      && (forall j :: 0 <= j < |errors| ==> errors[j].None?)
      && (forall i, j :: 0 <= i < |landed| && 0 <= j < |landed| ==> landed[i] == landed[j])
    case Mark(_) => true
    case Halt(_) => true
  }

  predicate OrderlyRun(trace: seq<Event>) {
    trace == [] || (OrderlyRun(trace[..|trace| - 1]) && Orderly(Run(Empty(), trace[..|trace| - 1]), trace[|trace| - 1]))
  }

  function Ids(rows: seq<Row>): (ids: seq<nat>)
    ensures |ids| == |rows| && forall i :: 0 <= i < |rows| ==> ids[i] == rows[i].id
  {
    seq(|rows|, i requires 0 <= i < |rows| => rows[i].id)
  }

  function Keys(log: seq<Message>): (keys: seq<nat>)
    ensures |keys| == |log| && forall i :: 0 <= i < |log| ==> keys[i] == log[i].id
  {
    seq(|log|, i requires 0 <= i < |log| => log[i].id)
  }

  /** What a consumer that drops repeated idempotency keys sees. */
  function Dedup(keys: seq<nat>): seq<nat> {
    if keys == [] then []
    else
      var seen := Dedup(keys[..|keys| - 1]);
      if keys[|keys| - 1] in seen then seen else seen + [keys[|keys| - 1]]
  }

  /** The first `published` rows are published, and consumers have seen exactly the first `sent` rows. */
  predicate SeenInOrder(rows: seq<Row>, log: seq<Message>, published: nat, sent: nat) {
    && published <= sent <= |rows|
    && DistinctIds(rows)
    && (forall i, j :: 0 <= i < j < |rows| ==> rows[i].at < rows[j].at)
    && (forall i :: 0 <= i < |rows| ==> (rows[i].published <==> i < published))
    && Dedup(Keys(log)) == Ids(rows[..sent])
  }

  /** The batch is the stretch of rows that starts at `from`. */
  predicate Stretch(rows: seq<Row>, batch: seq<Row>, from: nat) {
    from + |batch| <= |rows| && forall j :: 0 <= j < |batch| ==> batch[j].id == rows[from + j].id
  }

  /** A drain works on the rows from its fetch on. */
  predicate DrainInOrder(rows: seq<Row>, d: Drain, published: nat, sent: nat) {
    match d
    case Fetched(batch) => batch != [] && Stretch(rows, batch, published)
    case Marking(batch, errors, next) =>
      && next < |batch| == |errors| && (forall j :: 0 <= j < |errors| ==> errors[j].None?)
      && next <= published && published - next + |batch| <= sent
      && Stretch(rows, batch, published - next)
  }

  ghost predicate InOrder(o: Outbox, published: nat, sent: nat) {
    && SeenInOrder(o.rows, o.log, published, sent)
    && o.drains.Keys <= {0}
    && (0 in o.drains ==> DrainInOrder(o.rows, o.drains[0], published, sent))
  }

  /** With strictly increasing created_at the query returns the first unpublished rows, in order. */
  lemma OldestIsNext(rows: seq<Row>, published: nat, pick: seq<nat>)
    requires published <= |rows| && IsOldest(rows, pick)
    requires forall i, j :: 0 <= i < j < |rows| ==> rows[i].at < rows[j].at
    requires forall i :: 0 <= i < |rows| ==> (rows[i].published <==> i < published)
    ensures published + |pick| <= |rows| && forall j :: 0 <= j < |pick| ==> pick[j] == published + j
  {
    OldestIsNextUpTo(rows, published, pick, |pick|);
    if |pick| > 0 {
      assert pick[|pick| - 1] in Pending(rows);
    }
  }

  lemma {:induction false} OldestIsNextUpTo(rows: seq<Row>, published: nat, pick: seq<nat>, n: nat)
    requires published <= |rows| && IsOldest(rows, pick) && n <= |pick|
    requires forall i, j :: 0 <= i < j < |rows| ==> rows[i].at < rows[j].at
    requires forall i :: 0 <= i < |rows| ==> (rows[i].published <==> i < published)
    ensures forall j :: 0 <= j < n ==> pick[j] == published + j
  {
    if n > 0 {
      var j := n - 1;
      var key := CreatedAt(rows);
      OldestIsNextUpTo(rows, published, pick, j);
      assert pick[j] in Pending(rows);
      assert j > 0 ==> key(pick[j - 1]) <= key(pick[j]) && pick[j - 1] != pick[j];
      var next := published + j;
      assert next in Pending(rows);
      TopIsLeast(Pending(rows), key, BATCH_SIZE, pick, j, next);
    }
  }

  lemma DedupPush(keys: seq<nat>, key: nat)
    ensures Dedup(keys + [key]) == if key in Dedup(keys) then Dedup(keys) else Dedup(keys) + [key]
  {
    assert (keys + [key])[..|keys|] == keys;
  }

  lemma SeenWithin(ids: seq<nat>, reached: nat, i: nat)
    requires Distinct(ids) && i <= reached <= |ids| && i < |ids|
    ensures ids[i] in ids[..reached] <==> i < reached
    ensures i == reached ==> ids[..reached] + [ids[i]] == ids[..i + 1]
  {
    if i < reached {
      assert ids[..reached][i] == ids[i];
    }
  }

  lemma DedupNext(keys: seq<nat>, ids: seq<nat>, reached: nat, i: nat)
    requires Distinct(ids) && i <= reached <= |ids| && i < |ids| && Dedup(keys) == ids[..reached]
    ensures Dedup(keys + [ids[i]]) == ids[..if i < reached then reached else i + 1]
  {
    DedupPush(keys, ids[i]);
    SeenWithin(ids, reached, i);
  }

  /** Resending a stretch of ids that starts within what was seen only adds what lies beyond. */
  lemma {:induction false} DedupStretch(keys: seq<nat>, ids: seq<nat>, more: seq<nat>, from: nat, sent: nat)
    requires Distinct(ids) && from <= sent <= |ids| && from + |more| <= |ids|
    requires forall j :: 0 <= j < |more| ==> more[j] == ids[from + j]
    requires Dedup(keys) == ids[..sent]
    ensures Dedup(keys + more) == ids[..if from + |more| <= sent then sent else from + |more|]
  {
    if more == [] {
      assert keys + more == keys;
    } else {
      var n := |more| - 1;
      var before := keys + more[..n];
      DedupStretch(keys, ids, more[..n], from, sent);
      DedupNext(before, ids, if from + n <= sent then sent else from + n, from + n);
      assert keys + more == before + [more[n]];
    }
  }

  lemma {:induction false} LandedAll(batch: seq<Row>, landed: seq<bool>)
    requires |landed| == |batch| && forall i, j :: 0 <= i < |landed| && 0 <= j < |landed| ==> landed[i] == landed[j]
    ensures Keys(Landed(batch, landed)) == if batch != [] && landed[0] then Ids(batch) else []
  {
    if batch != [] {
      var n := |batch| - 1;
      LandedAll(batch[..n], landed[..n]);
      assert n > 0 ==> landed[..n][0] == landed[n];
      assert Ids(batch) == Ids(batch[..n]) + [batch[n].id];
    }
  }

  lemma StretchIds(rows: seq<Row>, batch: seq<Row>, from: nat)
    requires Stretch(rows, batch, from)
    ensures Ids(batch) == Ids(rows)[from..from + |batch|]
  {}

  lemma PrefixIds(rows: seq<Row>, n: nat)
    requires n <= |rows|
    ensures Ids(rows[..n]) == Ids(rows)[..n]
  {}

  lemma KeysAppend(log: seq<Message>, more: seq<Message>)
    ensures Keys(log + more) == Keys(log) + Keys(more)
  {}

  /** What consumers have seen after the next rows were sent and landed. */
  lemma {:induction false} SeenAfterSend(rows: seq<Row>, log: seq<Message>, batch: seq<Row>, landed: seq<bool>, published: nat, sent: nat)
    returns (sent': nat)
    requires SeenInOrder(rows, log, published, sent) && batch != [] && Stretch(rows, batch, published)
    requires |landed| == |batch| && forall i, j :: 0 <= i < |landed| && 0 <= j < |landed| ==> landed[i] == landed[j]
    ensures sent <= sent' && (landed[0] ==> published + |batch| <= sent')
    ensures SeenInOrder(rows, log + Landed(batch, landed), published, sent')
  {
    LandedAll(batch, landed);
    KeysAppend(log, Landed(batch, landed));
    sent' := DedupBatch(rows, Keys(log), batch, if landed[0] then Ids(batch) else [], published, sent);
  }

  lemma DedupBatch(rows: seq<Row>, keys: seq<nat>, batch: seq<Row>, more: seq<nat>, published: nat, sent: nat)
    returns (sent': nat)
    requires published <= sent <= |rows| && DistinctIds(rows) && Stretch(rows, batch, published)
    requires Dedup(keys) == Ids(rows[..sent]) && (more == Ids(batch) || more == [])
    ensures sent <= sent' <= |rows| && (more == Ids(batch) ==> published + |batch| <= sent')
    ensures Dedup(keys + more) == Ids(rows[..sent'])
  {
    var to := published + |more|;
    StretchIds(rows, batch, published);
    PrefixIds(rows, sent);
    sent' := if sent < to then to else sent;
    PrefixIds(rows, sent');
    DedupStretch(keys, Ids(rows), more, published, sent);
  }

  lemma SendInOrder(o: Outbox, e: Event, published: nat, sent: nat) returns (sent': nat)
    requires InOrder(o, published, sent) && Orderly(o, e) && e.Send? && CanSend(o, e)
    ensures InOrder(Step(o, e), published, sent') && sent <= sent'
  {
    var batch := o.drains[0].batch;
    sent' := SeenAfterSend(o.rows, o.log, batch, e.landed, published, sent);
    if !e.threw {
      assert e.errors[0].None? && e.landed[0];
    }
  }

  /** Marking the next row of a stretch publishes exactly that row. */
  lemma SeenAfterMark(rows: seq<Row>, log: seq<Message>, published: nat, sent: nat)
    requires SeenInOrder(rows, log, published, sent) && published < sent
    ensures SeenInOrder(MarkRows(rows, rows[published].id, None), log, published + 1, sent)
  {
    var rows' := MarkRows(rows, rows[published].id, None);
    assert forall i :: 0 <= i < |rows| ==> rows'[i].id == rows[i].id && rows'[i].at == rows[i].at;
    assert Ids(rows'[..sent]) == Ids(rows[..sent]);
  }

  /** The drain moves on with what is published. */
  lemma DrainAfterMark(rows: seq<Row>, rows': seq<Row>, d: Drain, published: nat, sent: nat)
    requires d.Marking? && DrainInOrder(rows, d, published, sent)
    requires |rows'| == |rows| && forall i :: 0 <= i < |rows| ==> rows'[i].id == rows[i].id
    ensures published < sent
    ensures d.next + 1 < |d.batch| ==> DrainInOrder(rows', d.(next := d.next + 1), published + 1, sent)
    ensures published < |rows| ==> d.batch[d.next].id == rows[published].id
  {
    assert published < |rows| ==> rows[published - d.next + d.next] == rows[published];
  }

  lemma MarkInOrder(o: Outbox, e: Event, published: nat, sent: nat)
    requires InOrder(o, published, sent) && e.Mark? && e.publisher in o.drains && o.drains[e.publisher].Marking?
    ensures InOrder(Step(o, e), published + 1, sent)
  {
    var d := o.drains[0];
    var rows' := MarkRows(o.rows, d.batch[d.next].id, None);
    DrainAfterMark(o.rows, rows', d, published, sent);
    SeenAfterMark(o.rows, o.log, published, sent);
    assert Step(o, e).rows == rows' && Step(o, e).log == o.log;
  }

  lemma FetchInOrder(o: Outbox, e: Event, published: nat, sent: nat)
    requires InOrder(o, published, sent) && Orderly(o, e) && e.Fetch?
    ensures InOrder(Step(o, e), published, sent)
  {
    if 0 !in o.drains && IsOldest(o.rows, e.pick) {
      OldestIsNext(o.rows, published, e.pick);
      assert Stretch(o.rows, RowsAt(o.rows, e.pick), published);
    } else {
      assert Step(o, e) == o;
    }
  }

  lemma InsertInOrder(o: Outbox, e: Event, published: nat, sent: nat)
    requires InOrder(o, published, sent) && Orderly(o, e) && e.Insert?
    ensures InOrder(Step(o, e), published, sent)
  {
    assert (o.rows + [e.row])[..sent] == o.rows[..sent];
  }

  lemma HaltInOrder(o: Outbox, e: Event, published: nat, sent: nat)
    requires InOrder(o, published, sent) && e.Halt?
    ensures InOrder(Step(o, e), published, sent)
  {}

  lemma AnySendInOrder(o: Outbox, e: Event, published: nat, sent: nat) returns (sent': nat)
    requires InOrder(o, published, sent) && Orderly(o, e) && e.Send?
    ensures InOrder(Step(o, e), published, sent')
  {
    sent' := sent;
    if CanSend(o, e) {
      sent' := SendInOrder(o, e, published, sent);
    }
  }

  lemma IdleMark(o: Outbox, e: Event)
    requires e.Mark? && !(e.publisher in o.drains && o.drains[e.publisher].Marking?)
    ensures Step(o, e) == o
  {}

  lemma AnyMarkInOrder(o: Outbox, e: Event, published: nat, sent: nat) returns (published': nat)
    requires InOrder(o, published, sent) && e.Mark?
    ensures InOrder(Step(o, e), published', sent)
  {
    published' := published;
    if e.publisher in o.drains && o.drains[e.publisher].Marking? {
      MarkInOrder(o, e, published, sent);
      published' := published + 1;
    } else {
      IdleMark(o, e);
    }
  }

  lemma StepInOrder(o: Outbox, e: Event, published: nat, sent: nat) returns (published': nat, sent': nat)
    requires InOrder(o, published, sent) && Orderly(o, e)
    ensures InOrder(Step(o, e), published', sent')
  {
    published', sent' := published, sent;
    match e {
      case Insert(_) => InsertInOrder(o, e, published, sent);
      case Fetch(_, _) => FetchInOrder(o, e, published, sent);
      case Send(_, _, _, _) => sent' := AnySendInOrder(o, e, published, sent);
      case Mark(_) => published' := AnyMarkInOrder(o, e, published, sent);
      case Halt(_) => HaltInOrder(o, e, published, sent);
    }
  }

  /** At every await of every orderly run, across crashes and arrivals: the de-duplicated broker log is a
      prefix of the outbox, and the published rows are a prefix of that. */
  lemma {:induction false} PrefixTheorem(trace: seq<Event>) returns (published: nat, sent: nat)
    requires OrderlyRun(trace)
    ensures InOrder(Run(Empty(), trace), published, sent)
  {
    if trace == [] {
      published, sent := 0, 0;
    } else {
      var n := |trace| - 1;
      var p, s := PrefixTheorem(trace[..n]);
      published, sent := StepInOrder(Run(Empty(), trace[..n]), trace[n], p, s);
    }
  }
}

/** OutboxPublisher in its own form: the worker loop, and drainOnce with its batch, its send and its loop
    of updates; between any two awaits other publishers and committing requests may act. */
module OutboxPublisher {
  import opened Std
  import opened Consents
  import O = Outbox

  type Event = O.Event

  /** At the k-th await: the events of everybody else, and whether the statement throws; and for the j-th
      record of the send: whether it reached the broker, and the error reported for it. */
  datatype World = World(env: nat -> seq<Event>, fails: nat -> bool, landed: nat -> bool, error: nat -> Option<string>)

  predicate Mine(e: Event, me: nat) { !e.Insert? && e.publisher == me }

  /** My drain is where it was; rows and log only grew. */
  predicate Undisturbed(o: O.Outbox, o': O.Outbox, me: nat) {
    && O.RowsKept(o.rows, o'.rows) && o.log <= o'.log
    && (me in o.drains <==> me in o'.drains) && (me in o.drains ==> o'.drains[me] == o.drains[me])
  }

  /** The tables and the broker. */
  class Store {
    var o: O.Outbox
    ghost var trace: seq<Event>

    ghost predicate Valid() reads this { o == O.Run(O.Empty(), trace) }

    constructor ()
      ensures Valid() && o == O.Empty()
    {
      o := O.Empty();
      trace := [];
    }

    method Perform(e: Event)
      requires Valid()
      modifies this
      ensures Valid() && o == O.Step(old(o), e) && trace == old(trace) + [e]
    {
      o := O.Step(o, e);
      trace := trace + [e];
      O.RunPush(O.Empty(), old(trace), e);
    }

    method Others(env: seq<Event>, me: nat, ghost after: Time)
      requires Valid()
      modifies this
      ensures Valid() && old(trace) <= trace && Undisturbed(old(o), o, me)
      ensures Arriving(env, after) ==> Grown(old(o), o, after)
      ensures env == [] ==> o == old(o)
    {
      for k := 0 to |env|
        invariant Valid() && old(trace) <= trace && Undisturbed(old(o), o, me)
        invariant Arriving(env, after) ==> Grown(old(o), o, after)
        invariant k == 0 ==> o == old(o)
      {
        if !Mine(env[k], me) {
          O.StepKeepsRows(o, env[k]);
          Perform(env[k]);
        }
      }
    }
  }

  /** Nobody else publishes: the environment only commits rows stamped later than `after`. */
  predicate Arriving(env: seq<Event>, after: Time) {
    forall k :: 0 <= k < |env| ==> env[k].Insert? && after < env[k].row.at
  }

  predicate Grown(o: O.Outbox, o': O.Outbox, after: Time) {
    GrownRows(o.rows, o'.rows, after) && o'.log == o.log && o'.drains == o.drains
  }

  ghost predicate OneWorker(w: World, after: Time) { forall k :: Arriving(w.env(k), after) && !w.fails(k) }

  /** One worker, no failing statement and no reported error. */
  ghost predicate Clean(w: World, after: Time) { OneWorker(w, after) && forall j :: w.error(j).None? }

  predicate GrownRows(rows: seq<O.Row>, rows': seq<O.Row>, after: Time) {
    rows <= rows' && forall i :: |rows| <= i < |rows'| ==> !rows'[i].published && after < rows'[i].at
  }

  function Errors(w: World, n: nat): seq<Option<string>> { seq(n, j requires 0 <= j => w.error(j)) }

  /** The batch consists of the picked rows. */
  predicate Picked(fetched: seq<O.Row>, pick: seq<nat>, batch: seq<O.Row>) {
    && O.IsOldest(fetched, pick) && batch == O.RowsAt(fetched, pick)
  }

  /** Row i was picked as the k-th of the batch. */
  predicate Marked(pick: seq<nat>, w: World, n: nat, i: nat)
    requires n <= |pick|
  {
    exists k :: 0 <= k < n && pick[k] == i && w.error(k).None?
  }

  /** From `from` to `rows`: the first n rows of the batch were marked, later rows arrived, nothing else. */
  ghost predicate MarkedUpTo(from: seq<O.Row>, rows: seq<O.Row>, pick: seq<nat>, w: World, n: nat, after: Time)
    requires n <= |pick|
  {
    && |from| <= |rows|
    && (forall i :: 0 <= i < |from| ==> O.SameEvent(from[i], rows[i]))
    && (forall i :: 0 <= i < |from| ==> (rows[i].published <==> from[i].published || Marked(pick, w, n, i)))
    && (forall i :: |from| <= i < |rows| ==> !rows[i].published && after < rows[i].at)
  }

  lemma MarkNext(from: seq<O.Row>, rows: seq<O.Row>, pick: seq<nat>, w: World, n: nat, after: Time)
    requires n < |pick| && O.DistinctIds(rows) && Distinct(pick) && pick[n] < |from|
    requires MarkedUpTo(from, rows, pick, w, n, after)
    ensures MarkedUpTo(from, O.MarkRows(rows, from[pick[n]].id, w.error(n)), pick, w, n + 1, after)
  {
    var rows' := O.MarkRows(rows, from[pick[n]].id, w.error(n));
    assert O.SameEvent(from[pick[n]], rows[pick[n]]);
    forall i | 0 <= i < |from|
      ensures O.SameEvent(from[i], rows'[i])
      ensures rows'[i].published <==> from[i].published || Marked(pick, w, n + 1, i)
    {
      assert O.SameEvent(from[i], rows[i]);
      if i == pick[n] && w.error(n).None? {
        assert Marked(pick, w, n + 1, i);
      }
      if Marked(pick, w, n, i) {
        var k :| 0 <= k < n && pick[k] == i && w.error(k).None?;
        assert Marked(pick, w, n + 1, i);
      }
    }
    forall i | |from| <= i < |rows'| ensures !rows'[i].published && after < rows'[i].at {
      assert rows[i].id != rows[pick[n]].id;
    }
  }

  /** The pending rows that the query may prefer to `target`. */
  function Ahead(rows: seq<O.Row>, target: nat): set<nat>
    requires target < |rows|
  {
    set i | 0 <= i < |rows| && i != target && !rows[i].published && rows[i].at <= rows[target].at
  }

  /** A drain without errors publishes the target or a full batch of what was ahead of it. */
  lemma DrainAdvances(before: seq<O.Row>, fetched: seq<O.Row>, rows: seq<O.Row>, pick: seq<nat>, w: World, target: nat)
    requires target < |before| && GrownRows(before, fetched, before[target].at) && O.IsOldest(fetched, pick)
    requires MarkedUpTo(fetched, rows, pick, w, |pick|, before[target].at)
    requires forall j :: w.error(j).None?
    ensures rows[target].published || |Ahead(rows, target)| + O.BATCH_SIZE <= |Ahead(before, target)|
  {
    var key := O.CreatedAt(fetched);
    assert O.SameEvent(fetched[target], rows[target]);
    if !rows[target].published {
      assert target in O.Pending(fetched);
      forall k | 0 <= k < |pick| ensures pick[k] in Ahead(before, target) {
        assert pick[k] in O.Pending(fetched) && key(pick[k]) <= key(target);
        assert Marked(pick, w, |pick|, pick[k]);
      }
      forall i | i in Ahead(rows, target) ensures i in Ahead(before, target) - Elements(pick) {
        assert i < |fetched| && O.SameEvent(fetched[i], rows[i]);
        if i in pick {
          var k :| 0 <= k < |pick| && pick[k] == i;
          assert Marked(pick, w, |pick|, i);
        }
      }
      ElementsSize(pick);
      SubsetSize(Elements(pick) + {target}, O.Pending(fetched));
      SubsetSize(Elements(pick), Ahead(before, target));
      SubsetSize(Ahead(rows, target), Ahead(before, target) - Elements(pick));
    }
  }

  /** Among the first n results, how many carry no error. */
  function ErrorFree(w: World, n: nat): nat {
    if n == 0 then 0 else ErrorFree(w, n - 1) + if w.error(n - 1).None? then 1 else 0
  }

  function MarkedSet(pick: seq<nat>, w: World, n: nat): set<nat>
    requires n <= |pick|
  {
    if n == 0 then {}
    else if w.error(n - 1).Some? then MarkedSet(pick, w, n - 1)
    else MarkedSet(pick, w, n - 1) + {pick[n - 1]}
  }

  lemma {:induction false} MarkedSetIsMarked(pick: seq<nat>, w: World, n: nat, i: nat)
    requires n <= |pick|
    ensures i in MarkedSet(pick, w, n) <==> Marked(pick, w, n, i)
  {
    if n > 0 {
      MarkedSetIsMarked(pick, w, n - 1, i);
    }
  }

  lemma LastIsNew(pick: seq<nat>, w: World, n: nat)
    requires 0 < n <= |pick| && Distinct(pick)
    ensures !Marked(pick, w, n - 1, pick[n - 1])
  {}

  lemma {:induction false} MarkedSetSize(pick: seq<nat>, w: World, n: nat)
    requires n <= |pick| && Distinct(pick)
    ensures |MarkedSet(pick, w, n)| == ErrorFree(w, n)
  {
    if n > 0 {
      MarkedSetSize(pick, w, n - 1);
      LastIsNew(pick, w, n);
      MarkedSetIsMarked(pick, w, n - 1, pick[n - 1]);
    }
  }

  /** Each completed drain lowers the number of pending rows, arrivals aside, by exactly the number of
      results without an error among the oldest 100. */
  lemma DrainLowersPending(fetched: seq<O.Row>, rows: seq<O.Row>, pick: seq<nat>, w: World, after: Time)
    requires O.IsOldest(fetched, pick) && MarkedUpTo(fetched, rows, pick, w, |pick|, after)
    ensures |O.Pending(rows[..|fetched|])| == |O.Pending(fetched)| - ErrorFree(w, |pick|)
    ensures |pick| == Min(O.BATCH_SIZE, |O.Pending(fetched)|)
  {
    var from := O.Pending(fetched);
    var gone := MarkedSet(pick, w, |pick|);
    MarkedSetSize(pick, w, |pick|);
    forall i: nat ensures i in gone <==> Marked(pick, w, |pick|, i) {
      MarkedSetIsMarked(pick, w, |pick|, i);
    }
    assert O.Pending(rows[..|fetched|]) == from - gone;
    SubsetSize(gone, from);
  }

  class OutboxPublisher {
    const store: Store
    const me: nat
    var running: bool

    constructor (store: Store, me: nat)
      ensures this.store == store && this.me == me && !running
    {
      this.store, this.me, running := store, me, false;
    }

    /** OutboxRepository.getPending(100) */
    method GetPending(w: World, ghost after: Time) returns (threw: bool, pick: seq<nat>, ghost fetched: seq<O.Row>)
      requires store.Valid() && me !in store.o.drains
      modifies store
      ensures store.Valid() && old(store.trace) <= store.trace
      ensures threw == w.fails(0) && (threw ==> pick == []) && fetched == store.o.rows
      ensures !threw ==> O.IsOldest(fetched, pick)
      ensures !threw ==>
                && |pick| <= 100 && (forall j :: 0 <= j < |pick| ==> pick[j] < |fetched| && !fetched[pick[j]].published)
                && (forall i, j :: 0 <= i < j < |pick| ==> pick[i] != pick[j] && fetched[pick[i]].at <= fetched[pick[j]].at)
                && (forall i :: 0 <= i < |fetched| && i !in pick && !fetched[i].published ==>
                      |pick| == 100 && forall j :: 0 <= j < |pick| ==> fetched[pick[j]].at <= fetched[i].at)
      ensures if pick == [] then me !in store.o.drains
              else me in store.o.drains && store.o.drains[me] == O.Fetched(O.RowsAt(fetched, pick))
      ensures Arriving(w.env(0), after) ==> GrownRows(old(store.o.rows), store.o.rows, after)
    {
      store.Others(w.env(0), me, after);
      threw := w.fails(0);
      pick := [];
      if !threw {
        pick := Select(O.Pending(store.o.rows), O.CreatedAt(store.o.rows), O.BATCH_SIZE);
        O.PendingColumns(store.o.rows, pick);
        store.Perform(O.Fetch(me, pick));
      }
      fetched := store.o.rows;
    }

    /** producer.sendBatch: a batch that throws may have landed in part, an acknowledged record has landed. */
    method Publish(batch: seq<O.Row>, w: World, ghost after: Time) returns (threw: bool)
      requires store.Valid() && me in store.o.drains && store.o.drains[me] == O.Fetched(batch)
      modifies store
      ensures store.Valid() && old(store.trace) <= store.trace
      ensures threw == w.fails(1)
      ensures if threw then me !in store.o.drains
              else me in store.o.drains && store.o.drains[me] == O.Marking(batch, Errors(w, |batch|), 0)
      ensures Arriving(w.env(1), after) ==> GrownRows(old(store.o.rows), store.o.rows, after)
      ensures w.env(1) == [] && !threw && (forall j :: 0 <= j < |batch| ==> w.error(j).None?) ==>
                var log, was := store.o.log, old(store.o.log);
                && |log| == |was| + |batch| && log[..|was|] == was
                && forall j :: 0 <= j < |batch| ==>
                     log[|was| + j] == O.Message(batch[j].id, batch[j].kind, batch[j].key, batch[j].payload)
    {
      store.Others(w.env(1), me, after);
      threw := w.fails(1);
      var landed := seq(|batch|, j requires 0 <= j => w.landed(j) || (!w.fails(1) && w.error(j).None?));
      if forall j :: 0 <= j < |batch| ==> landed[j] { O.AllLanded(batch, landed); }
      store.Perform(O.Send(me, landed, Errors(w, |batch|), threw));
    }

    /** One round of the loop: markFailed or markPublished for the i-th row of the batch. */
    method MarkNextRow(batch: seq<O.Row>, i: nat, w: World, ghost fetched: seq<O.Row>, ghost pick: seq<nat>, ghost after: Time)
      returns (threw: bool)
      requires store.Valid() && i < |batch|
      requires me in store.o.drains && store.o.drains[me] == O.Marking(batch, Errors(w, |batch|), i)
      modifies store
      ensures store.Valid() && old(store.trace) <= store.trace && threw == w.fails(2 + i)
      ensures if threw || i + 1 == |batch| then me !in store.o.drains
              else me in store.o.drains && store.o.drains[me] == O.Marking(batch, Errors(w, |batch|), i + 1)
      ensures OneWorker(w, after) && Picked(fetched, pick, batch) && MarkedUpTo(fetched, old(store.o.rows), pick, w, i, after) ==>
                MarkedUpTo(fetched, store.o.rows, pick, w, i + 1, after)
      ensures w.env(2 + i) == [] && !threw ==>
                |store.o.rows| == |old(store.o.rows)| &&
                forall k :: 0 <= k < |store.o.rows| ==>
                  var row := old(store.o.rows)[k];
                  store.o.rows[k] == if row.id != batch[i].id then row
                                     else if w.error(i).Some? then row.(payload := O.Payload(row.payload.body, w.error(i)))
                                     else row.(published := true)
    {
      store.Others(w.env(2 + i), me, after);
      threw := w.fails(2 + i);
      if threw {
        store.Perform(O.Halt(me));
      } else {
        if OneWorker(w, after) && Picked(fetched, pick, batch) && MarkedUpTo(fetched, store.o.rows, pick, w, i, after) {
          O.DeliveringReachable(store.trace);
          MarkNext(fetched, store.o.rows, pick, w, i, after);
        }
        store.Perform(O.Mark(me));
      }
    }

    /** The loop that marks the rows of the batch one at a time. */
    method MarkBatch(batch: seq<O.Row>, w: World, ghost fetched: seq<O.Row>, ghost pick: seq<nat>, ghost after: Time)
      returns (threw: bool)
      requires store.Valid() && me in store.o.drains && store.o.drains[me] == O.Marking(batch, Errors(w, |batch|), 0)
      requires batch != []
      modifies store
      ensures store.Valid() && old(store.trace) <= store.trace && me !in store.o.drains
      ensures threw ==> exists k :: w.fails(k)
      ensures OneWorker(w, after) && GrownRows(fetched, old(store.o.rows), after) && Picked(fetched, pick, batch) ==>
                !threw && MarkedUpTo(fetched, store.o.rows, pick, w, |pick|, after)
    {
      ghost var quiet := OneWorker(w, after) && GrownRows(fetched, store.o.rows, after) && Picked(fetched, pick, batch);
      threw := false;
      for i := 0 to |batch|
        invariant store.Valid() && old(store.trace) <= store.trace
        invariant if i < |batch| then me in store.o.drains && store.o.drains[me] == O.Marking(batch, Errors(w, |batch|), i)
                  else me !in store.o.drains
        invariant quiet ==> MarkedUpTo(fetched, store.o.rows, pick, w, i, after)
      {
        threw := MarkNextRow(batch, i, w, fetched, pick, after);
        if threw { return; }
      }
    }

    /** drainOnce */
    method DrainOnce(w: World, ghost after: Time) returns (threw: bool, ghost fetched: seq<O.Row>, ghost pick: seq<nat>)
      requires store.Valid() && me !in store.o.drains
      modifies store
      ensures store.Valid() && old(store.trace) <= store.trace && me !in store.o.drains
      ensures OneWorker(w, after) ==>
                !threw && GrownRows(old(store.o.rows), fetched, after) && O.IsOldest(fetched, pick) &&
                MarkedUpTo(fetched, store.o.rows, pick, w, |pick|, after)
    {
      var picked;
      threw, picked, fetched := GetPending(w, after);
      pick := picked;
      if threw || picked == [] { return; }
      var batch := store.o.drains[me].batch;
      threw := Publish(batch, w, after);
      if threw { return; }
      threw := MarkBatch(batch, w, fetched, pick, after);
    }

    /** One round of the worker, as the progress of one row. */
    method Round(w: World, ghost target: nat, ghost after: Time)
      requires store.Valid() && me !in store.o.drains
      requires target < |store.o.rows| && after == store.o.rows[target].at
      modifies store
      ensures store.Valid() && old(store.trace) <= store.trace && me !in store.o.drains
      ensures target < |store.o.rows| && store.o.rows[target].at == after
      ensures old(store.o.rows[target].published) ==> store.o.rows[target].published
      ensures Clean(w, after) ==>
                store.o.rows[target].published ||
                |Ahead(store.o.rows, target)| + O.BATCH_SIZE <= |Ahead(old(store.o.rows), target)|
    {
      ghost var before, sofar := store.o.rows, store.trace;
      var threw, fetched, pick := DrainOnce(w, after);
      O.KeptSince(sofar, store.trace);
      if Clean(w, after) { DrainAdvances(before, fetched, store.o.rows, pick, w, target); }
    }

    /** start(): nothing while running; else the worker, which drains, swallows what a drain throws, and
        looks at the running flag after each round, until stop() has cleared it. stops(i): stop() is called
        during round i or the wait after it. At most n rounds of it are followed here. */
    method Start(ws: nat -> World, stops: nat -> bool, n: nat, ghost target: nat, ghost after: Time) returns (rounds: nat)
      requires store.Valid() && (!running ==> me !in store.o.drains)
      requires target < |store.o.rows| && after == store.o.rows[target].at
      modifies this, store
      ensures store.Valid() && old(store.trace) <= store.trace && target < |store.o.rows|
      ensures old(running) ==> rounds == 0 && store.o == old(store.o) && running
      ensures !old(running) ==>
                me !in store.o.drains && rounds <= n && (forall i :: 0 <= i < rounds - 1 ==> !stops(i)) &&
                (running <==> rounds == 0 || !stops(rounds - 1)) && (running ==> rounds == n)
      ensures !old(running) && (forall i :: Clean(ws(i), after)) &&
              rounds > |Ahead(old(store.o.rows), target)| / O.BATCH_SIZE ==>
                store.o.rows[target].published && O.InLog(store.o.log, store.o.rows[target].id)
    {
      rounds := 0;
      if running { return; }
      running := true;
      ghost var fair := forall i :: Clean(ws(i), after);
      ghost var r := |Ahead(store.o.rows, target)|;
      while running && rounds < n
        invariant store.Valid() && old(store.trace) <= store.trace && me !in store.o.drains && rounds <= n
        invariant forall i :: 0 <= i < rounds - 1 ==> !stops(i)
        invariant running <==> rounds == 0 || !stops(rounds - 1)
        invariant target < |store.o.rows| && store.o.rows[target].at == after
        invariant fair ==> store.o.rows[target].published || |Ahead(store.o.rows, target)| + O.BATCH_SIZE * rounds <= r
        decreases n - rounds
      {
        Round(ws(rounds), target, after);
        if stops(rounds) { Stop(); }
        rounds := rounds + 1;
      }
      O.DeliveringReachable(store.trace);
    }

    /** stop(): the drain in progress is not interrupted, only the next one does not begin. */
    method Stop()
      modifies `running
      ensures !running && store.o == old(store.o) && store.trace == old(store.trace)
    {
      running := false;
    }
  }
}

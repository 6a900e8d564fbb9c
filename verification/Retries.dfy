/** Retried grants: the idempotency hooks around ConsentService.grant, as POST /v1/consents runs them. */
module Retries {
  import opened Std
  import C = Consents
  import CS = ConsentService
  import System
  import opened Idempotency

  /** The reply of the route: 201 with the consent, or 400 with the error; the body is left abstract. */
  type Render = CS.Result<nat> -> Response

  /** Everything of one grant request but its arrival. */
  datatype GrantRequest = GrantRequest(http: Request, fromNode: nat, toNode: nat, expiresAt: Option<C.Time>, actor: C.Actor)

  function OpOf(g: GrantRequest): C.Op { C.Grant(g.fromNode, g.toNode, g.expiresAt) }

  /** The plugin and the route. broken is the reply that the framework sends when a hook throws. */
  class Gateway {
    const plugin: IdempotencyPlugin
    const service: CS.ConsentService
    const render: Render
    const broken: Response

    constructor (plugin: IdempotencyPlugin, service: CS.ConsentService, render: Render, broken: Response)
      ensures this.plugin == plugin && this.service == service && this.render == render && this.broken == broken
    {
      this.plugin, this.service, this.render, this.broken := plugin, service, render, broken;
    }

    /** One request: lookup, and on a miss the handler and the store; the Redis GET and SET may throw. */
    method Serve(g: GrantRequest, allowed: bool, w: CS.World, now: Time, storedAt: Time, getThrows: bool, setThrows: bool)
      returns (reply: Response, ran: bool)
      requires service.db.Valid()
      modifies plugin, service.db
      ensures service.db.Valid() && old(service.db.trace) <= service.db.trace
      ensures Guarded(g.http) && getThrows ==>
                !ran && reply == broken && plugin.redis == old(plugin.redis) && service.db.trace == old(service.db.trace)
      ensures Guarded(g.http) && !getThrows ==>
                match LookedUp(old(plugin.redis), plugin.prefix, g.http, now)
                case Hit(replay) =>
                  !ran && reply == replay && plugin.redis == old(plugin.redis) && service.db.trace == old(service.db.trace)
                case Miss(k) =>
                  ran && plugin.redis == (if setThrows then old(plugin.redis) else old(plugin.redis)[k := Entry(reply, storedAt + plugin.ttl)]) &&
                  (setThrows ==> reply == broken)
                case Bypass => true
      ensures !Guarded(g.http) ==> ran && plugin.redis == old(plugin.redis)
      ensures ran ==> exists r: CS.Result<nat> ::
                (reply == render(r) || (setThrows && reply == broken)) &&
                CS.Outcome(service.db.s, |old(service.db.s).calls|, OpOf(g), r.Ok?)
      ensures ran && CS.Quiet(w) && allowed && g.actor.Node? ==>
                service.db.trace == old(service.db.trace) + CS.GrantTrace(|old(service.db.s).calls|, OpOf(g), g.actor)
    {
      if Guarded(g.http) && getThrows {
        return broken, false;
      }
      var outcome := plugin.PreHandler(g.http, now);
      if outcome.Hit? {
        return outcome.replay, false;
      }
      var r := service.Grant(g.fromNode, g.toNode, g.expiresAt, g.actor, allowed, w);
      reply, ran := render(r), true;
      if outcome.Miss? && setThrows {
        reply := broken;
      } else {
        plugin.OnSend(if outcome.Miss? then Some(outcome.storageKey) else None, reply, storedAt);
      }
    }

    /** Other requests: anything under other storage keys, and any steps in the database. */
    method Meanwhile(t: Traffic, ghost key: string)
      requires service.db.Valid() && Apart(t, key)
      modifies plugin, service.db
      ensures service.db.Valid() && service.db.trace == old(service.db.trace) + t.env
      ensures SameAt(old(plugin.redis), plugin.redis, key)
      ensures t.env == [] ==> service.db.s == old(service.db.s) && service.db.trace == old(service.db.trace)
    {
      for i := 0 to |t.stores|
        invariant SameAt(old(plugin.redis), plugin.redis, key)
        modifies plugin
      {
        plugin.redis := plugin.redis[t.stores[i].0 := t.stores[i].1];
      }
      for i := 0 to |t.env|
        invariant service.db.Valid() && service.db.trace == old(service.db.trace) + t.env[..i]
        invariant SameAt(old(plugin.redis), plugin.redis, key)
        invariant i == 0 ==> service.db.s == old(service.db.s) && service.db.trace == old(service.db.trace)
      {
        service.db.Perform(t.env[i]);
        assert t.env[..i + 1] == t.env[..i] + [t.env[i]];
      }
      assert t.env[..|t.env|] == t.env;
    }
  }

  predicate SameAt(a: Cache, b: Cache, key: string) { (key in a <==> key in b) && (key in a ==> a[key] == b[key]) }

  // ---------- retries ----------

  /** What other requests do between two retries. */
  datatype Traffic = Traffic(stores: seq<(string, Entry)>, env: seq<C.Action>)

  predicate Apart(t: Traffic, key: string) { forall i :: 0 <= i < |t.stores| ==> t.stores[i].0 != key }

  /** The steps of the others before the retries 1 to n - 1. */
  function Envs(traffic: nat -> Traffic, n: nat): seq<C.Action> {
    if n <= 1 then [] else Envs(traffic, n - 1) + traffic(n - 1).env
  }

  /** Whether the Redis GET and SET of the i-th attempt throw. */
  datatype Faults = Faults(lookup: nat -> bool, store: nat -> bool)

  /** The first of n attempts that stores its reply; n if none does. */
  function Winner(f: Faults, n: nat): (i: nat)
    ensures i <= n && forall j :: 0 <= j < i ==> f.lookup(j) || f.store(j)
    ensures i < n ==> !f.lookup(i) && !f.store(i)
  {
    if n == 0 then 0
    else if Winner(f, n - 1) < n - 1 then Winner(f, n - 1)
    else if f.lookup(n - 1) || f.store(n - 1) then n else n - 1
  }

  /** Attempt i runs the handler: its lookup works and finds nothing stored. */
  predicate RunsHandler(f: Faults, i: nat) { !f.lookup(i) && Winner(f, i) == i }

  function Runs(f: Faults, n: nat): nat { if n == 0 then 0 else Runs(f, n - 1) + if RunsHandler(f, n - 1) then 1 else 0 }

  /** Attempt i is the first whose lookup works. */
  predicate FirstLookup(f: Faults, n: nat, i: nat) { i < n && !f.lookup(i) && forall j :: 0 <= j < i ==> f.lookup(j) }

  lemma {:induction false} NoLookupNoRun(f: Faults, n: nat)
    ensures Runs(f, n) == 0 <==> forall j :: 0 <= j < n ==> f.lookup(j)
  {
    if n > 0 {
      NoLookupNoRun(f, n - 1);
    }
  }

  lemma {:induction false} FirstLookupExists(f: Faults, n: nat, j: nat)
    requires j < n && !f.lookup(j)
    ensures exists i: nat :: FirstLookup(f, n, i)
  {
    if k: nat :| k < j && !f.lookup(k) {
      FirstLookupExists(f, n, k);
    } else {
      assert FirstLookup(f, n, j);
    }
  }

  lemma {:induction false} RunsAfterFirst(f: Faults, n: nat, i: nat)
    requires FirstLookup(f, n, i)
    ensures Runs(f, n) >= 1
    ensures Runs(f, n) == 1 <==> !f.store(i) || forall j :: i < j < n ==> f.lookup(j)
  {
    if i == n - 1 {
      NoLookupNoRun(f, i);
    } else {
      RunsAfterFirst(f, n - 1, i);
      assert !f.store(i) ==> Winner(f, i + 1) == i;
      if !f.store(i) && i + 1 < n - 1 {
        WinnerKept(f, i, n - 1);
      }
    }
  }

  lemma {:induction false} WinnerKept(f: Faults, i: nat, n: nat)
    requires i < n
    ensures Winner(f, i) < i ==> Winner(f, n) == Winner(f, i)
    ensures Winner(f, i) == i && !f.lookup(i) && !f.store(i) ==> Winner(f, n) == i
  {
    if i < n - 1 {
      WinnerKept(f, i, n - 1);
    }
  }

  /** The handler runs exactly once exactly when some lookup works and the first one that does either stores
      its reply or is also the last one that does. */
  lemma RunsOnceExactly(f: Faults, n: nat)
    ensures Runs(f, n) == 1 <==>
              exists i: nat :: FirstLookup(f, n, i) && (!f.store(i) || forall j :: i < j < n ==> f.lookup(j))
  {
    NoLookupNoRun(f, n);
    if j: nat :| j < n && !f.lookup(j) {
      FirstLookupExists(f, n, j);
      var i: nat :| FirstLookup(f, n, i);
      RunsAfterFirst(f, n, i);
    }
  }

  predicate SameReply(a: Response, b: Response) { a.status == b.status && a.payload == b.payload }

  /** One storage key, and what is fixed about the attempts under it. */
  datatype Setup = Setup(key: string, f: Faults, broken: Response, storedAt: nat -> Time, ttl: Time, start: Time)

  /** The replies so far. */
  predicate RepliesOk(p: Setup, replies: seq<Response>) {
    var i, win := |replies|, Winner(p.f, |replies|);
    && (forall j :: 0 <= j < i && (p.f.lookup(j) || j < win) ==> replies[j] == p.broken)
    && (forall j :: win < j < i && !p.f.lookup(j) ==> replies[j] == ReplayOf(replies[win]))
  }

  /** The cache entry so far. */
  predicate EntryOk(p: Setup, redis: Cache, replies: seq<Response>) {
    var i, win := |replies|, Winner(p.f, |replies|);
    && (win < i ==> p.key in redis && redis[p.key] == Entry(replies[win], p.storedAt(win) + p.ttl))
    && (win == i && p.key in redis ==> redis[p.key].expires <= p.start)
  }

  /** The time lies within the TTL of the store, if there was one. */
  predicate InTime(p: Setup, i: nat, now: Time) {
    p.start <= now && (Winner(p.f, i) < i ==> now < p.storedAt(Winner(p.f, i)) + p.ttl)
  }

  /** What attempt i did, as Serve states it. */
  predicate Attempted(p: Setup, redis: Cache, redis': Cache, i: nat, now: Time, reply: Response, ran: bool) {
    if p.f.lookup(i) then !ran && reply == p.broken && redis' == redis
    else if p.key in redis && now < redis[p.key].expires then
      !ran && reply == ReplayOf(redis[p.key].response) && redis' == redis
    else
      ran &&
      if p.f.store(i) then reply == p.broken && redis' == redis
      else redis' == redis[p.key := Entry(reply, p.storedAt(i) + p.ttl)]
  }

  lemma WinnerNext(f: Faults, i: nat)
    ensures Winner(f, i + 1) == if Winner(f, i) < i then Winner(f, i) else if f.lookup(i) || f.store(i) then i + 1 else i
  {}

  lemma RunsWhenNothingStored(p: Setup, redis: Cache, redis': Cache, replies: seq<Response>, now: Time, reply: Response, ran: bool)
    requires EntryOk(p, redis, replies) && Attempted(p, redis, redis', |replies|, now, reply, ran) && InTime(p, |replies|, now)
    ensures ran == RunsHandler(p.f, |replies|)
    ensures !ran && !p.f.lookup(|replies|) ==> Winner(p.f, |replies|) < |replies| && reply == ReplayOf(replies[Winner(p.f, |replies|)])
  {}

  lemma RepliesNext(p: Setup, redis: Cache, redis': Cache, replies: seq<Response>, now: Time, reply: Response, ran: bool)
    requires EntryOk(p, redis, replies) && Attempted(p, redis, redis', |replies|, now, reply, ran) && InTime(p, |replies|, now)
    requires RepliesOk(p, replies)
    ensures RepliesOk(p, replies + [reply])
  {
    var i := |replies|;
    WinnerNext(p.f, i);
    RunsWhenNothingStored(p, redis, redis', replies, now, reply, ran);
    var all, win := replies + [reply], Winner(p.f, i + 1);
    forall j | 0 <= j < i + 1 && (p.f.lookup(j) || j < win) ensures all[j] == p.broken {
      if j < i {
        assert all[j] == replies[j];
      }
    }
    forall j | win < j < i + 1 && !p.f.lookup(j) ensures all[j] == ReplayOf(all[win]) {
      assert all[win] == replies[win];
    }
  }

  lemma EntryNext(p: Setup, redis: Cache, redis': Cache, replies: seq<Response>, now: Time, reply: Response, ran: bool)
    requires EntryOk(p, redis, replies) && Attempted(p, redis, redis', |replies|, now, reply, ran) && InTime(p, |replies|, now)
    ensures EntryOk(p, redis', replies + [reply])
  {
    WinnerNext(p.f, |replies|);
    RunsWhenNothingStored(p, redis, redis', replies, now, reply, ran);
    var all := replies + [reply];
    assert forall j :: 0 <= j < |replies| ==> all[j] == replies[j];
  }

  /** The attempts of one caller: in order, and within the TTL of the first store. */
  predicate Timely(p: Setup, times: seq<Time>) {
    && times != [] && p.start == times[0]
    && (forall i, j :: 0 <= i <= j < |times| ==> times[i] <= times[j])
    && (forall j :: Winner(p.f, |times|) < j < |times| ==> times[j] < p.storedAt(Winner(p.f, |times|)) + p.ttl)
  }

  ghost predicate Elsewhere(traffic: nat -> Traffic, key: string) { forall i :: Apart(traffic(i), key) }

  lemma TimelyIsInTime(p: Setup, times: seq<Time>, i: nat)
    requires Timely(p, times) && i < |times|
    ensures InTime(p, i, times[i])
  {
    WinnerKept(p.f, i, |times|);
    assert times[0] <= times[i];
  }

  lemma OthersOnly(f: Faults, traffic: nat -> Traffic, granted: seq<C.Action>, i: nat)
    requires FirstClean(f) && i > 0
    ensures !RunsHandler(f, i) && granted + Envs(traffic, i + 1) == granted + Envs(traffic, i) + traffic(i).env
  {
    WinnerKept(f, 0, i);
  }

  predicate FirstClean(f: Faults) { !f.lookup(0) && !f.store(0) }

  /** Sequential retries of one grant with one method, url and key within the TTL of the store, with any
      traffic of other requests between them and with Redis failing at will: the handler runs in the attempts
      whose lookup works up to the first that stores; from there on every reply is its replay, the cache
      entry stays its entry, and the database sees only the others. */
  method RetryAll(gw: Gateway, g: GrantRequest, allowed: bool, w: nat -> CS.World, p: Setup, traffic: nat -> Traffic, times: seq<Time>)
    returns (replies: seq<Response>, runs: nat)
    requires gw.service.db.Valid() && Guarded(g.http) && Timely(p, times)
    requires p.key == StorageKey(gw.plugin.prefix, g.http) && p.broken == gw.broken && p.ttl == gw.plugin.ttl
    requires EntryOk(p, gw.plugin.redis, []) && Elsewhere(traffic, p.key)
    modifies gw.plugin, gw.service.db
    ensures gw.service.db.Valid() && |replies| == |times| && runs == Runs(p.f, |times|)
    ensures RepliesOk(p, replies) && EntryOk(p, gw.plugin.redis, replies)
    ensures FirstClean(p.f) && CS.Quiet(w(0)) && allowed && g.actor.Node? ==>
              gw.service.db.trace ==
              old(gw.service.db.trace) + CS.GrantTrace(|old(gw.service.db.s).calls|, OpOf(g), g.actor) + Envs(traffic, |times|)
  {
    forall i | 0 <= i < |times| ensures InTime(p, i, times[i]) {
      TimelyIsInTime(p, times, i);
    }
    var reply, ran := Retry(gw, g, allowed, w(0), Traffic([], []), times[0], 0, p, []);
    assert [] + [reply] == [reply];
    replies, runs := RetryOn(gw, g, allowed, w, p, traffic, times, reply, ran);
  }

  /** Attempt i, with the counts and the trace of all attempts so far. */
  method RetryAt(gw: Gateway, g: GrantRequest, allowed: bool, w: CS.World, traffic: nat -> Traffic, now: Time, i: nat, p: Setup,
                 before: seq<Response>, runsBefore: nat, ghost granted: seq<C.Action>)
    returns (replies: seq<Response>, runs: nat)
    requires gw.service.db.Valid() && Guarded(g.http) && |before| == i > 0 && runsBefore == Runs(p.f, i)
    requires p.key == StorageKey(gw.plugin.prefix, g.http) && p.broken == gw.broken && p.ttl == gw.plugin.ttl
    requires RepliesOk(p, before) && EntryOk(p, gw.plugin.redis, before) && InTime(p, i, now) && Apart(traffic(i), p.key)
    requires FirstClean(p.f) ==> gw.service.db.trace == granted + Envs(traffic, i)
    modifies gw.plugin, gw.service.db
    ensures gw.service.db.Valid() && |replies| == i + 1 && runs == Runs(p.f, i + 1)
    ensures RepliesOk(p, replies) && EntryOk(p, gw.plugin.redis, replies)
    ensures FirstClean(p.f) ==> gw.service.db.trace == granted + Envs(traffic, i + 1)
  {
    if FirstClean(p.f) { OthersOnly(p.f, traffic, granted, i); }
    var reply, ran := Retry(gw, g, allowed, w, traffic(i), now, i, p, before);
    replies, runs := before + [reply], runsBefore + if ran then 1 else 0;
  }

  /** The attempts after the first. */
  method RetryOn(gw: Gateway, g: GrantRequest, allowed: bool, w: nat -> CS.World, p: Setup, traffic: nat -> Traffic,
                 times: seq<Time>, first: Response, firstRan: bool)
    returns (replies: seq<Response>, runs: nat)
    requires gw.service.db.Valid() && Guarded(g.http) && times != [] && forall i :: 0 <= i < |times| ==> InTime(p, i, times[i])
    requires p.key == StorageKey(gw.plugin.prefix, g.http) && p.broken == gw.broken && p.ttl == gw.plugin.ttl
    requires RepliesOk(p, [first]) && EntryOk(p, gw.plugin.redis, [first]) && Elsewhere(traffic, p.key)
    requires firstRan == RunsHandler(p.f, 0)
    modifies gw.plugin, gw.service.db
    ensures gw.service.db.Valid() && |replies| == |times| && runs == Runs(p.f, |times|)
    ensures RepliesOk(p, replies) && EntryOk(p, gw.plugin.redis, replies)
    ensures FirstClean(p.f) ==> gw.service.db.trace == old(gw.service.db.trace) + Envs(traffic, |times|)
  {
    ghost var granted := gw.service.db.trace;
    replies, runs := [first], if firstRan then 1 else 0;
    for i := 1 to |times|
      invariant gw.service.db.Valid() && |replies| == i && runs == Runs(p.f, i)
      invariant RepliesOk(p, replies) && EntryOk(p, gw.plugin.redis, replies)
      invariant FirstClean(p.f) ==> gw.service.db.trace == granted + Envs(traffic, i)
    {
      replies, runs := RetryAt(gw, g, allowed, w(i), traffic, times[i], i, p, replies, runs, granted);
    }
  }

  /** The others, then one more attempt. */
  method Retry(gw: Gateway, g: GrantRequest, allowed: bool, w: CS.World, t: Traffic, now: Time, i: nat, p: Setup,
               ghost replies: seq<Response>)
    returns (reply: Response, ran: bool)
    requires gw.service.db.Valid() && Guarded(g.http) && |replies| == i
    requires p.key == StorageKey(gw.plugin.prefix, g.http) && p.broken == gw.broken && p.ttl == gw.plugin.ttl
    requires RepliesOk(p, replies) && EntryOk(p, gw.plugin.redis, replies) && InTime(p, i, now)
    requires Apart(t, p.key)
    modifies gw.plugin, gw.service.db
    ensures gw.service.db.Valid()
    ensures RepliesOk(p, replies + [reply]) && EntryOk(p, gw.plugin.redis, replies + [reply]) && ran == RunsHandler(p.f, i)
    ensures !ran ==> gw.service.db.trace == old(gw.service.db.trace) + t.env
    ensures ran && t.env == [] && CS.Quiet(w) && allowed && g.actor.Node? ==>
              gw.service.db.trace == old(gw.service.db.trace) + CS.GrantTrace(|old(gw.service.db.s).calls|, OpOf(g), g.actor)
  {
    gw.Meanwhile(t, p.key);
    ghost var redis := gw.plugin.redis;
    reply, ran := gw.Serve(g, allowed, w, now, p.storedAt(i), p.f.lookup(i), p.f.store(i));
    assert Attempted(p, redis, gw.plugin.redis, i, now, reply, ran);
    RunsWhenNothingStored(p, redis, gw.plugin.redis, replies, now, reply, ran);
    RepliesNext(p, redis, gw.plugin.redis, replies, now, reply, ran);
    EntryNext(p, redis, gw.plugin.redis, replies, now, reply, ran);
  }

  /** Retries whose first attempt meets no failure: the handler has run once, all replies but the errors of a
      throwing lookup have its status and payload, the entry is that of the first store, and the database has
      seen one grant, which adds one consent, one audit row and one outbox row, and the steps of the others. */
  method RetryGrant(gw: Gateway, g: GrantRequest, allowed: bool, w: nat -> CS.World, p: Setup, traffic: nat -> Traffic,
                    times: seq<Time>, ghost history: seq<System.Action>)
    returns (replies: seq<Response>, runs: nat)
    requires gw.service.db.Valid() && Guarded(g.http) && Timely(p, times) && FirstClean(p.f)
    requires p.key == StorageKey(gw.plugin.prefix, g.http) && p.broken == gw.broken && p.ttl == gw.plugin.ttl
    requires LookedUp(gw.plugin.redis, gw.plugin.prefix, g.http, times[0]).Miss? && Elsewhere(traffic, p.key)
    requires System.CoreTrace(history) == gw.service.db.trace
    modifies gw.plugin, gw.service.db
    ensures gw.service.db.Valid() && |replies| == |times| && runs == 1
    ensures forall i :: 0 < i < |times| ==>
              if p.f.lookup(i) then replies[i] == gw.broken
              else replies[i] == ReplayOf(replies[0]) && SameReply(replies[i], replies[0])
    ensures p.key in gw.plugin.redis && gw.plugin.redis[p.key] == Entry(replies[0], p.storedAt(0) + gw.plugin.ttl)
    ensures CS.Quiet(w(0)) && allowed && g.actor.Node? ==>
              var grant := CS.GrantTrace(|old(gw.service.db.s).calls|, OpOf(g), g.actor);
              && gw.service.db.trace == old(gw.service.db.trace) + grant + Envs(traffic, |times|)
              && AddsOneOfEach(gw.service.db.strictActor, history, grant)
              && (Envs(traffic, |times|) == [] ==>
                    |gw.service.db.s.consents| == |old(gw.service.db.s).consents| + 1 &&
                    |gw.service.db.s.audit| == |old(gw.service.db.s).audit| + 1)
  {
    ghost var began := gw.service.db.trace;
    replies, runs := RetryAll(gw, g, allowed, w, p, traffic, times);
    WinnerKept(p.f, 0, |times|);
    RunsOnceExactly(p.f, |times|);
    assert FirstLookup(p.f, |times|, 0);
    if CS.Quiet(w(0)) && allowed && g.actor.Node? {
      DatabaseAfter(gw.service.db, history, began, OpOf(g), g.actor, Envs(traffic, |times|));
    }
  }

  // ---------- what one grant adds ----------

  lemma Two(s: C.State, a: C.Action, b: C.Action)
    ensures C.Run(s, [a, b]) == C.Step(C.Step(s, a), b)
  {
    C.RunPush(s, [], a);
    C.RunPush(s, [a], b);
    assert [] + [a] == [a] && [a] + [b] == [a, b];
  }

  lemma OpenEffect(s: C.State, i: nat)
    requires i < |s.calls| && s.calls[i].phase.Opening? && s.calls[i].actor.Node?
    ensures
      var s' := C.Run(s, [C.OnCall(i, C.BeginTx), C.OnCall(i, C.InsertAudit)]);
      && s'.consents == s.consents && s'.audit == s.audit && i < |s'.calls|
      && s'.calls[i] == s.calls[i].(phase := C.InsertingOutbox(s.now, s.nextAudit))
  {
    Two(s, C.OnCall(i, C.BeginTx), C.OnCall(i, C.InsertAudit));
  }

  lemma CloseEffect(s: C.State, i: nat)
    requires i < |s.calls| && s.calls[i].phase.InsertingOutbox?
    ensures
      var c := s.calls[i];
      var s' := C.Run(s, [C.OnCall(i, C.InsertOutbox), C.OnCall(i, C.CommitTx)]);
      && s'.consents == s.consents
      && s'.audit == s.audit + [C.AuditRow(c.phase.auditId, c.target, C.KindOf(c.op), c.actor, c.phase.at, i, c.op)]
  {
    Two(s, C.OnCall(i, C.InsertOutbox), C.OnCall(i, C.CommitTx));
  }

  lemma CreateEffect(s: C.State, op: C.Op, actor: C.Actor)
    requires op.Grant?
    ensures
      var i := |s.calls|;
      var s' := C.Run(C.Run(s, [C.Start(op, actor), C.OnCall(i, C.Decide(true))]), [C.OnCall(i, C.Write(0))]);
      && s'.consents == s.consents + [C.NewConsent(op)] && s'.audit == s.audit && i < |s'.calls|
      && s'.calls[i] == C.Call(op, actor, |s.consents|, C.Opening)
  {
    var i := |s.calls|;
    Two(s, C.Start(op, actor), C.OnCall(i, C.Decide(true)));
    var decided := C.Step(C.Step(s, C.Start(op, actor)), C.OnCall(i, C.Decide(true)));
    assert decided.calls[i] == C.Call(op, actor, 0, C.Writing);
    C.RunPush(decided, [], C.OnCall(i, C.Write(0)));
    assert [] + [C.OnCall(i, C.Write(0))] == [C.OnCall(i, C.Write(0))];
  }

  /** The undisturbed grant: one consent, one audit row about it. */
  lemma {:induction false} GrantEffect(s: C.State, op: C.Op, actor: C.Actor)
    requires op.Grant? && actor.Node?
    ensures
      var s' := C.Run(s, CS.GrantTrace(|s.calls|, op, actor));
      && s'.consents == s.consents + [C.NewConsent(op)]
      && |s'.audit| == |s.audit| + 1 && s'.audit[..|s.audit|] == s.audit
      && s'.audit[|s.audit|].kind == C.ConsentGranted && s'.audit[|s.audit|].consent == |s.consents|
      && s'.audit[|s.audit|].actor == actor
  {
    var i := |s.calls|;
    var begin := [C.Start(op, actor), C.OnCall(i, C.Decide(true))];
    var write := [C.OnCall(i, C.Write(0))];
    var open, close := [C.OnCall(i, C.BeginTx), C.OnCall(i, C.InsertAudit)], [C.OnCall(i, C.InsertOutbox), C.OnCall(i, C.CommitTx)];
    var created := C.Run(C.Run(s, begin), write);
    C.RunConcat(s, begin, write + (open + close));
    C.RunConcat(C.Run(s, begin), write, open + close);
    C.RunConcat(created, open, close);
    CreateEffect(s, op, actor);
    OpenEffect(created, i);
    CloseEffect(C.Run(created, open), i);
  }

  function Lift(t: seq<C.Action>): seq<System.Action> { seq(|t|, i requires 0 <= i < |t| => System.Core(t[i])) }

  lemma {:induction false} CoreOfLifted(trace: seq<System.Action>, t: seq<C.Action>)
    ensures System.CoreTrace(trace + Lift(t)) == System.CoreTrace(trace) + t
  {
    if t == [] {
      assert trace + Lift(t) == trace;
    } else {
      var n := |t| - 1;
      CoreOfLifted(trace, t[..n]);
      var all := trace + Lift(t);
      assert all[..|all| - 1] == trace + Lift(t[..n]);
      assert all[|all| - 1] == System.Core(t[n]);
      assert t == t[..n] + [t[n]];
    }
  }

  /** In the whole system that grant adds one consent, one audit row and one outbox row. */
  lemma {:induction false} GrantAddsOneOfEach(strictActor: bool, trace: seq<System.Action>, op: C.Op, actor: C.Actor)
    requires op.Grant? && actor.Node?
    ensures AddsOneOfEach(strictActor, trace, CS.GrantTrace(|System.Run(System.Init(strictActor), trace).core.calls|, op, actor))
  {
    var s := System.Run(System.Init(strictActor), trace);
    var t := CS.GrantTrace(|s.core.calls|, op, actor);
    CoreOfLifted(trace, t);
    System.Parts(strictActor, trace);
    System.Parts(strictActor, trace + Lift(t));
    C.RunConcat(C.Init(strictActor), System.CoreTrace(trace), t);
    GrantEffect(s.core, op, actor);
    System.LinkedReachable(strictActor, trace);
    System.LinkedReachable(strictActor, trace + Lift(t));
  }

  predicate AddsOneOfEach(strictActor: bool, trace: seq<System.Action>, t: seq<C.Action>) {
    var s, s' := System.Run(System.Init(strictActor), trace), System.Run(System.Init(strictActor), trace + Lift(t));
    && |s'.core.consents| == |s.core.consents| + 1
    && |s'.core.audit| == |s.core.audit| + 1
    && |s'.out.rows| == |s.out.rows| + 1
  }

  lemma DatabaseAfter(db: CS.Database, history: seq<System.Action>, began: seq<C.Action>, op: C.Op, actor: C.Actor,
                      others: seq<C.Action>)
    requires op.Grant? && actor.Node? && db.Valid() && System.CoreTrace(history) == began
    requires db.trace == began + CS.GrantTrace(|C.Run(C.Init(db.strictActor), began).calls|, op, actor) + others
    ensures
      var s := C.Run(C.Init(db.strictActor), began);
      && AddsOneOfEach(db.strictActor, history, CS.GrantTrace(|s.calls|, op, actor))
      && (others == [] ==> |db.s.consents| == |s.consents| + 1 && |db.s.audit| == |s.audit| + 1)
  {
    var s := C.Run(C.Init(db.strictActor), began);
    var grant := CS.GrantTrace(|s.calls|, op, actor);
    System.Parts(db.strictActor, history);
    GrantAddsOneOfEach(db.strictActor, history, op, actor);
    if others == [] {
      assert db.trace == began + grant;
      C.RunConcat(C.Init(db.strictActor), began, grant);
      GrantEffect(s, op, actor);
    }
  }
}

/** The idempotency plugin: a lookup hook that replays a cached response, and a store hook that fills the
    cache; as two methods on a Redis map, and as a step system of interleaved requests. */
module Idempotency {
  import opened Std

  type Time = nat

  /** key is None without an idempotency-key header, and when the header is repeated. */
  datatype Request = Request(verb: string, url: string, key: Option<string>)

  datatype Response = Response(status: int, headers: map<string, string>, payload: string)

  datatype Entry = Entry(response: Response, expires: Time)

  type Cache = map<string, Entry>

  const WRITE_VERBS := {"POST", "PUT", "PATCH", "DELETE"}

  predicate Guarded(r: Request) { r.verb in WRITE_VERBS && r.key.Some? && r.key.value != "" }

  function StorageKey(prefix: string, r: Request): string
    requires Guarded(r)
  {
    prefix + (r.verb + ":" + (r.url + ":" + r.key.value))
  }

  // ---------- storage keys ----------

  predicate NoColon(s: string) { forall i :: 0 <= i < |s| ==> s[i] != ':' }

  lemma SplitAtFirstColon(a: string, x: string, b: string, y: string)
    requires NoColon(a) && NoColon(b) && a + ":" + x == b + ":" + y
    ensures a == b && x == y
  {
    var s := a + ":" + x;
    var t := b + ":" + y;
    assert s[|a|] == ':' && t[|b|] == ':';
    assert forall i :: 0 <= i < |a| ==> s[i] == a[i];
    assert forall i :: 0 <= i < |b| ==> t[i] == b[i];
    assert |a| == |b|;
    assert s[..|a|] == a && t[..|b|] == b && s[|a| + 1..] == x && t[|b| + 1..] == y;
  }

  lemma SplitAtLastColon(x: string, a: string, y: string, b: string)
    requires NoColon(a) && NoColon(b) && x + ":" + a == y + ":" + b
    ensures a == b && x == y
  {
    var s := x + ":" + a;
    var t := y + ":" + b;
    assert s[|x|] == ':' && t[|y|] == ':';
    assert forall i :: 0 <= i < |a| ==> s[|x| + 1 + i] == a[i];
    assert forall i :: 0 <= i < |b| ==> t[|y| + 1 + i] == b[i];
    assert |x| == |y|;
    assert s[..|x|] == x && t[..|y|] == y && s[|x| + 1..] == a && t[|y| + 1..] == b;
  }

  /** Requests whose keys contain no ':' share a storage key only if they agree in method, url and key. */
  lemma StorageKeyIsInjective(prefix: string, r: Request, q: Request)
    requires Guarded(r) && Guarded(q) && NoColon(r.key.value) && NoColon(q.key.value)
    requires StorageKey(prefix, r) == StorageKey(prefix, q)
    ensures r == q
  {
    var a, b := r.url + ":" + r.key.value, q.url + ":" + q.key.value;
    var s, t := StorageKey(prefix, r), StorageKey(prefix, q);
    assert s[|prefix|..] == r.verb + ":" + a && t[|prefix|..] == q.verb + ":" + b;
    SplitAtFirstColon(r.verb, a, q.verb, b);
    SplitAtLastColon(r.url, r.key.value, q.url, q.key.value);
  }

  /** With a ':' in the key, requests for different urls share an entry. */
  lemma ColonConfuses(prefix: string, verb: string, url: string, a: string, b: string)
    requires verb in WRITE_VERBS && b != ""
    ensures StorageKey(prefix, Request(verb, url + ":" + a, Some(b))) == StorageKey(prefix, Request(verb, url, Some(a + ":" + b)))
  {
    assert (url + ":" + a) + ":" + b == url + ":" + (a + ":" + b);
  }

  /** No ':' in the url, and none in the key but as its last character. */
  predicate Unambiguous(r: Request)
    requires Guarded(r)
  {
    NoColon(r.url) && NoColon(r.key.value[..|r.key.value| - 1])
  }

  lemma OnlyReading(r: Request, q: Request)
    requires Guarded(r) && Guarded(q) && Unambiguous(r)
    requires r.verb == q.verb && r.url + ":" + r.key.value == q.url + ":" + q.key.value
    ensures r == q
  {
    var key := r.key.value;
    var s := r.url + ":" + key;
    assert s == q.url + ":" + q.key.value;
    assert s[|q.url|] == ':' && |q.url| < |s| - 1;
    assert forall i :: 0 <= i < |r.url| ==> s[i] == r.url[i];
    assert forall i :: |r.url| < i < |s| - 1 ==> s[i] == key[..|key| - 1][i - |r.url| - 1];
    assert |q.url| == |r.url|;
    assert s[..|r.url|] == r.url && s[..|r.url|] == q.url && s[|r.url| + 1..] == key && s[|r.url| + 1..] == q.key.value;
  }

  lemma ColonPosition(s: string) returns (i: nat)
    requires !NoColon(s)
    ensures i < |s| && s[i] == ':'
  {
    i :| 0 <= i < |s| && s[i] == ':';
  }

  lemma SecondReading(r: Request) returns (q: Request)
    requires Guarded(r) && !Unambiguous(r)
    ensures Guarded(q) && q != r && forall prefix :: StorageKey(prefix, q) == StorageKey(prefix, r)
  {
    var key := r.key.value;
    if !NoColon(r.url) {
      var i := ColonPosition(r.url);
      q := Request(r.verb, r.url[..i], Some(r.url[i + 1..] + ":" + key));
      assert r.url == r.url[..i] + ":" + r.url[i + 1..];
      ColonConfuses("", r.verb, r.url[..i], r.url[i + 1..], key);
    } else {
      var i := ColonPosition(key[..|key| - 1]);
      q := Request(r.verb, r.url + ":" + key[..i], Some(key[i + 1..]));
      assert key == key[..i] + ":" + key[i + 1..];
      ColonConfuses("", r.verb, r.url, key[..i], key[i + 1..]);
    }
    forall prefix ensures StorageKey(prefix, q) == StorageKey(prefix, r) {
      assert StorageKey("", q) == StorageKey("", r);
      assert StorageKey(prefix, q) == prefix + StorageKey("", q);
      assert StorageKey(prefix, r) == prefix + StorageKey("", r);
    }
  }

  /** A request has its storage key for itself exactly when it is unambiguous. */
  lemma StorageKeyIsOwnExactlyWhen(prefix: string, r: Request)
    requires Guarded(r)
    ensures (forall q :: Guarded(q) && StorageKey(prefix, q) == StorageKey(prefix, r) ==> q == r) <==> Unambiguous(r)
  {
    if Unambiguous(r) {
      forall q | Guarded(q) && StorageKey(prefix, q) == StorageKey(prefix, r) ensures q == r {
        var s, t := StorageKey(prefix, r), StorageKey(prefix, q);
        var a, b := r.url + ":" + r.key.value, q.url + ":" + q.key.value;
        assert s[|prefix|..] == r.verb + ":" + a && t[|prefix|..] == q.verb + ":" + b;
        SplitAtFirstColon(r.verb, a, q.verb, b);
        OnlyReading(r, q);
      }
    } else {
      var q := SecondReading(r);
      assert StorageKey(prefix, q) == StorageKey(prefix, r);
    }
  }

  // ---------- what the hooks compute ----------

  function Lower(c: char): char { if 'A' <= c <= 'Z' then (c as int + 32) as char else c }

  function LowerAll(s: string): string { seq(|s|, i requires 0 <= i < |s| => Lower(s[i])) }

  predicate IsContentLength(name: string) { LowerAll(name) == "content-length" }

  const MARKER := "x-idempotency-replayed"

  function ReplayOf(stored: Response): Response {
    stored.(headers := (map k | k in stored.headers && !IsContentLength(k) :: stored.headers[k])[MARKER := "true"])
  }

  /** The name agrees with one of two spellings at every position. */
  predicate SameIgnoringCase(name: string, lower: string, upper: string) {
    |name| == |lower| == |upper| && forall i :: 0 <= i < |name| ==> name[i] == lower[i] || name[i] == upper[i]
  }

  lemma ContentLengthNames()
    ensures forall name :: IsContentLength(name) <==> SameIgnoringCase(name, "content-length", "CONTENT-LENGTH")
  {
    forall name ensures IsContentLength(name) <==> SameIgnoringCase(name, "content-length", "CONTENT-LENGTH") {
      var lower, upper := "content-length", "CONTENT-LENGTH";
      assert forall i :: 0 <= i < |lower| ==> Lower(upper[i]) == lower[i] && Lower(lower[i]) == lower[i];
      if IsContentLength(name) {
        forall i | 0 <= i < |name| ensures name[i] == lower[i] || name[i] == upper[i] {
          assert LowerAll(name)[i] == lower[i];
          LowerInverse(name[i], i);
        }
      }
      if SameIgnoringCase(name, lower, upper) {
        forall i | 0 <= i < |name| ensures LowerAll(name)[i] == lower[i] {}
      }
    }
  }

  lemma LowerInverse(c: char, i: nat)
    requires i < 14 && Lower(c) == "content-length"[i]
    ensures c == "content-length"[i] || c == "CONTENT-LENGTH"[i]
  {}

  lemma KeyIsConcat(prefix: string, r: Request)
    requires Guarded(r)
    ensures StorageKey(prefix, r) == prefix + r.verb + ":" + r.url + ":" + r.key.value
  {}

  datatype Lookup = Bypass | Miss(storageKey: string) | Hit(replay: Response)

  function LookedUp(cache: Cache, prefix: string, r: Request, now: Time): Lookup {
    if !Guarded(r) then Bypass
    else
      var k := StorageKey(prefix, r);
      if k in cache && now < cache[k].expires then Hit(ReplayOf(cache[k].response)) else Miss(k)
  }

  class IdempotencyPlugin {
    const prefix: string
    const ttl: Time
    var redis: Cache

    constructor (prefix: string, ttl: Time)
      ensures this.prefix == prefix && this.ttl == ttl && redis == map[]
    {
      this.prefix, this.ttl, redis := prefix, ttl, map[];
    }

    /** The preHandler hook; a hit sends the reply, a miss leaves the storage key on the request. */
    method PreHandler(r: Request, now: Time) returns (outcome: Lookup)
      ensures outcome == LookedUp(redis, prefix, r, now)
      ensures outcome.Bypass? <==>
                (r.verb != "POST" && r.verb != "PUT" && r.verb != "PATCH" && r.verb != "DELETE") || r.key.None? || r.key.value == ""
      ensures !outcome.Bypass? ==>
                var k := prefix + r.verb + ":" + r.url + ":" + r.key.value;
                if k !in redis || redis[k].expires <= now then outcome == Miss(k)
                else
                  var stored := redis[k].response;
                  && outcome.Hit? && outcome.replay.status == stored.status && outcome.replay.payload == stored.payload
                  && "x-idempotency-replayed" in outcome.replay.headers
                  && outcome.replay.headers["x-idempotency-replayed"] == "true"
                  && (forall name :: name != "x-idempotency-replayed" ==>
                        (name in outcome.replay.headers <==> name in stored.headers && !SameIgnoringCase(name, "content-length", "CONTENT-LENGTH")) &&
                        (name in outcome.replay.headers ==> outcome.replay.headers[name] == stored.headers[name]))
    {
      if Guarded(r) { KeyIsConcat(prefix, r); }
      ContentLengthNames();
      if r.verb !in WRITE_VERBS { return Bypass; }
      if r.key.None? || r.key.value == "" { return Bypass; }
      var storageKey := StorageKey(prefix, r);
      if storageKey !in redis || now >= redis[storageKey].expires { return Miss(storageKey); }
      var stored := redis[storageKey].response;
      var headers: map<string, string> := map[];
      var names := stored.headers.Keys;
      while names != {}
        invariant names <= stored.headers.Keys
        invariant headers == map k | k in stored.headers && k !in names && !IsContentLength(k) :: stored.headers[k]
        decreases names
      {
        var k :| k in names;
        names := names - {k};
        if !IsContentLength(k) {
          headers := headers[k := stored.headers[k]];
        }
      }
      headers := headers[MARKER := "true"];
      outcome := Hit(Response(stored.status, headers, stored.payload));
    }

    /** The onSend hook; only a request that missed carries a storage key. */
    method OnSend(storageKey: Option<string>, response: Response, now: Time)
      modifies this
      ensures redis == if storageKey.Some? then old(redis)[storageKey.value := Entry(response, now + ttl)] else old(redis)
    {
      if storageKey.None? { return; }
      redis := redis[storageKey.value := Entry(response, now + ttl)];
    }
  }

  // ---------- interleaved requests ----------

  datatype Phase =
    | Arrived
    | Handling(missed: Option<string>)
    | Sending(storageKey: string, response: Response)
    | Replied(response: Response)

  /** ran: the handler was called. */
  datatype Call = Call(request: Request, phase: Phase, ran: bool, replayed: bool)

  /** A completed SET, and the call that made it. */
  datatype Store = Store(storageKey: string, response: Response, at: Time, by_: nat)

  datatype State = State(prefix: string, ttl: Time, now: Time, cache: Cache, calls: seq<Call>, stores: seq<Store>)

  /** Fail: the Redis GET or SET of the call throws and the framework answers with an error. */
  datatype Action =
    | Arrive(request: Request)
    | Look(call: nat)
    | Handle(call: nat, response: Response)
    | Save(call: nat)
    | Fail(call: nat, response: Response)
    | Advance(delta: Time)

  function Init(prefix: string, ttl: Time): State { State(prefix, ttl, 0, map[], [], []) }

  function Looked(s: State, c: Call): Call {
    match LookedUp(s.cache, s.prefix, c.request, s.now)
    case Bypass => c.(phase := Handling(None))
    case Miss(k) => c.(phase := Handling(Some(k)))
    case Hit(replay) => c.(phase := Replied(replay), replayed := true)
  }

  function Handled(c: Call, response: Response): Call
    requires c.phase.Handling?
  {
    c.(ran := true,
       phase := if c.phase.missed.Some? then Sending(c.phase.missed.value, response) else Replied(response))
  }

  function Step(s: State, a: Action): State {
    match a
    case Arrive(r) => s.(calls := s.calls + [Call(r, Arrived, false, false)])
    case Advance(delta) => s.(now := s.now + delta)
    case Look(i) =>
      if i < |s.calls| && s.calls[i].phase.Arrived? then s.(calls := s.calls[i := Looked(s, s.calls[i])]) else s
    case Handle(i, response) =>
      if i < |s.calls| && s.calls[i].phase.Handling? then s.(calls := s.calls[i := Handled(s.calls[i], response)]) else s
    case Save(i) =>
      if i < |s.calls| && s.calls[i].phase.Sending? then
        var p := s.calls[i].phase;
        s.(calls := s.calls[i := s.calls[i].(phase := Replied(p.response))],
           cache := s.cache[p.storageKey := Entry(p.response, s.now + s.ttl)],
           stores := s.stores + [Store(p.storageKey, p.response, s.now, i)])
      else s
    case Fail(i, response) =>
      if i < |s.calls| && (s.calls[i].phase.Arrived? || s.calls[i].phase.Sending?)
      then s.(calls := s.calls[i := s.calls[i].(phase := Replied(response))]) else s
  }

  function Run(s: State, trace: seq<Action>): State {
    if trace == [] then s else Step(Run(s, trace[..|trace| - 1]), trace[|trace| - 1])
  }

  function LastStore(stores: seq<Store>, k: string): Option<Store> {
    if stores == [] then None
    else if stores[|stores| - 1].storageKey == k then Some(stores[|stores| - 1])
    else LastStore(stores[..|stores| - 1], k)
  }

  /** The storage key a call works under is its own. */
  predicate CallOk(s: State, c: Call) {
    && (c.phase.Arrived? || c.phase.Handling? ==> !c.ran)
    && (c.phase.Handling? && c.phase.missed.Some? ==>
          Guarded(c.request) && c.phase.missed.value == StorageKey(s.prefix, c.request))
    && (c.phase.Sending? ==> Guarded(c.request) && c.phase.storageKey == StorageKey(s.prefix, c.request))
    && (c.replayed ==> c.phase.Replied? && !c.ran && Guarded(c.request) && Replays(s, c.request, c.phase.response))
  }

  /** The response replays one that was stored under the key of the request. */
  predicate Replays(s: State, r: Request, response: Response)
    requires Guarded(r)
  {
    exists k :: 0 <= k < |s.stores| && s.stores[k].storageKey == StorageKey(s.prefix, r) &&
                response == ReplayOf(s.stores[k].response)
  }

  predicate StoreOk(s: State, t: Store) {
    t.by_ < |s.calls| && Guarded(s.calls[t.by_].request) && t.storageKey == StorageKey(s.prefix, s.calls[t.by_].request)
  }

  /** The cache entry of a key is its last store. */
  predicate CacheOk(s: State, k: string) {
    match LastStore(s.stores, k)
    case None => k !in s.cache
    case Some(t) => k in s.cache && s.cache[k] == Entry(t.response, t.at + s.ttl)
  }

  ghost predicate Consistent(s: State) {
    && (forall i :: 0 <= i < |s.calls| ==> CallOk(s, s.calls[i]))
    && (forall k :: 0 <= k < |s.stores| ==> StoreOk(s, s.stores[k]))
    && (forall k: string :: CacheOk(s, k))
  }

  lemma {:induction false} LastStoreIsThere(stores: seq<Store>, k: string) returns (n: nat)
    requires LastStore(stores, k).Some?
    ensures n < |stores| && stores[n] == LastStore(stores, k).value && stores[n].storageKey == k
  {
    n := |stores| - 1;
    if stores[n].storageKey != k {
      n := LastStoreIsThere(stores[..n], k);
    }
  }

  lemma LastStorePush(stores: seq<Store>, t: Store, k: string)
    ensures LastStore(stores + [t], k) == if t.storageKey == k then Some(t) else LastStore(stores, k)
  {
    assert (stores + [t])[..|stores|] == stores;
  }

  lemma CallStaysOk(s: State, a: Action, i: nat)
    requires i < |s.calls| && CallOk(s, s.calls[i])
    requires forall k: string :: CacheOk(s, k)
    ensures i < |Step(s, a).calls| && CallOk(Step(s, a), Step(s, a).calls[i])
  {
    var s' := Step(s, a);
    var c := s.calls[i];
    if c.replayed {
      var k :| 0 <= k < |s.stores| && s.stores[k].storageKey == StorageKey(s.prefix, c.request) &&
               c.phase.response == ReplayOf(s.stores[k].response);
      assert s'.stores[k] == s.stores[k];
    } else if s'.calls[i].replayed {
      assert CacheOk(s, StorageKey(s.prefix, c.request));
      var k := LastStoreIsThere(s.stores, StorageKey(s.prefix, c.request));
      assert s'.stores[k] == s.stores[k];
    }
  }

  lemma CacheStaysOk(s: State, a: Action, k: string)
    requires CacheOk(s, k)
    ensures CacheOk(Step(s, a), k)
  {
    if a.Save? && a.call < |s.calls| && s.calls[a.call].phase.Sending? {
      LastStorePush(s.stores, Step(s, a).stores[|s.stores|], k);
    }
  }

  lemma StoreStaysOk(s: State, a: Action, k: nat)
    requires k < |s.stores| && StoreOk(s, s.stores[k])
    ensures k < |Step(s, a).stores| && Step(s, a).stores[k] == s.stores[k] && StoreOk(Step(s, a), s.stores[k])
  {}

  lemma StepKeepsConsistent(s: State, a: Action)
    requires Consistent(s)
    ensures Consistent(Step(s, a))
  {
    var s' := Step(s, a);
    forall i | 0 <= i < |s'.calls| ensures CallOk(s', s'.calls[i]) {
      if i < |s.calls| {
        CallStaysOk(s, a, i);
      }
    }
    forall k: string ensures CacheOk(s', k) {
      CacheStaysOk(s, a, k);
    }
    forall k | 0 <= k < |s'.stores| ensures StoreOk(s', s'.stores[k]) {
      if k < |s.stores| {
        StoreStaysOk(s, a, k);
      } else {
        assert CallOk(s, s.calls[a.call]);
      }
    }
  }

  lemma {:induction false} ConsistentReachable(prefix: string, ttl: Time, trace: seq<Action>)
    ensures Consistent(Run(Init(prefix, ttl), trace))
    ensures Run(Init(prefix, ttl), trace).prefix == prefix && Run(Init(prefix, ttl), trace).ttl == ttl
  {
    if trace != [] {
      ConsistentReachable(prefix, ttl, trace[..|trace| - 1]);
      StepKeepsConsistent(Run(Init(prefix, ttl), trace[..|trace| - 1]), trace[|trace| - 1]);
    }
  }

  /** Under any interleaving of requests, if the request is unambiguous or no request has a ':' in its key: a
      lookup that hits was filled by a request with exactly this method, url and key, the reply is the most recently stored response less
      its content-length plus the marker, and the handler never runs for the request. */
  lemma HitTheorem(prefix: string, ttl: Time, trace: seq<Action>, i: nat, more: seq<Action>)
    requires
      var s := Run(Init(prefix, ttl), trace);
      && i < |s.calls| && s.calls[i].phase.Arrived?
      && (Guarded(s.calls[i].request) ==>
            Unambiguous(s.calls[i].request) ||
            forall j :: 0 <= j < |s.calls| && s.calls[j].request.key.Some? ==> NoColon(s.calls[j].request.key.value))
      && LookedUp(s.cache, prefix, s.calls[i].request, s.now).Hit?
    ensures
      var s := Run(Init(prefix, ttl), trace);
      var hit := Step(s, Look(i));
      var t := LastStore(s.stores, StorageKey(prefix, s.calls[i].request));
      && t.Some? && s.now < t.value.at + ttl
      && t.value.by_ < |s.calls| && s.calls[t.value.by_].request == s.calls[i].request
      && hit.calls[i].phase == Replied(ReplayOf(t.value.response))
      && hit.cache == s.cache
      && i < |Run(hit, more).calls| && Run(hit, more).calls[i] == hit.calls[i] && !hit.calls[i].ran
  {
    var s := Run(Init(prefix, ttl), trace);
    ConsistentReachable(prefix, ttl, trace);
    assert CacheOk(s, StorageKey(prefix, s.calls[i].request));
    var n := LastStoreIsThere(s.stores, StorageKey(prefix, s.calls[i].request));
    assert StoreOk(s, s.stores[n]);
    assert CallOk(s, s.calls[i]);
    if Unambiguous(s.calls[i].request) {
      StorageKeyIsOwnExactlyWhen(prefix, s.calls[i].request);
    } else {
      StorageKeyIsInjective(prefix, s.calls[s.stores[n].by_].request, s.calls[i].request);
    }
    RepliedForever(Step(s, Look(i)), more, i);
  }

  lemma {:induction false} RepliedForever(s: State, more: seq<Action>, i: nat)
    requires i < |s.calls| && s.calls[i].phase.Replied?
    ensures i < |Run(s, more).calls| && Run(s, more).calls[i] == s.calls[i]
  {
    if more != [] {
      RepliedForever(s, more[..|more| - 1], i);
    }
  }
}

/** The policy plugin: nested lookup, condition matching, and a signed bundle with an index by rule id
    that concurrent loads replace. */
module Policy {
  import opened Std
  import opened Text

  // ---------- values and lookup ----------

  /** A JavaScript value as the plugin sees it; numbers are abstract and never NaN. */
  datatype Value =
    | Undefined
    | Null
    | Bool(b: bool)
    | Number(n: int)
    | Str(s: string)
    | Array(items: seq<Value>)
    | Object(fields: map<string, Value>)

  predicate Primitive(v: Value) { !v.Array? && !v.Object? }

  /** items[key] for a string key: an index in canonical decimal, or length. */
  function Element(items: seq<Value>, key: string, from: nat): Value
    decreases |items| - from
  {
    if key == "length" then Number(|items|)
    else if from >= |items| then Undefined
    else if key == Decimal(from) then items[from]
    else Element(items, key, from + 1)
  }

  function GetKey(v: Value, key: string): Value {
    match v
    case Object(fields) => if key in fields then fields[key] else Undefined
    case Array(items) => Element(items, key, 0)
    case _ => Undefined
  }

  function Walk(v: Value, keys: seq<string>): Value
    decreases |keys|
  {
    if keys == [] then v else Walk(GetKey(v, keys[0]), keys[1..])
  }

  function GetPath(v: Value, path: string): Value { Walk(v, Split(path)) }

  // ---------- conditions and rules ----------

  datatype Operator = Eq | Neq | In | Contains

  datatype Condition = Condition(path: string, op: Operator, value: Value)

  /** The declared type of value: Primitive | Primitive[]. */
  predicate WellTyped(c: Condition) {
    c.value != Undefined && !c.value.Object? &&
    (c.value.Array? ==> forall i :: 0 <= i < |c.value.items| ==> Primitive(c.value.items[i]) && c.value.items[i] != Undefined)
  }

  /** l === r where r comes from the bundle: arrays and objects of the two sides are never identical. */
  predicate StrictlyEqual(l: Value, r: Value) { Primitive(l) && Primitive(r) && l == r }

  predicate Includes(items: seq<Value>, x: Value) { exists i :: 0 <= i < |items| && StrictlyEqual(items[i], x) }

  predicate MatchOne(c: Condition, ctx: Value) {
    var left := GetPath(ctx, c.path);
    match c.op
    case Eq => StrictlyEqual(left, c.value)
    case Neq => !StrictlyEqual(left, c.value)
    case In => c.value.Array? && Includes(c.value.items, left)
    case Contains => left.Array? && Includes(left.items, c.value)
  }

  datatype Effect = Allow | Deny

  datatype When = When(all: Option<seq<Condition>>, any: Option<seq<Condition>>)

  /** when is None in a malformed rule that lacks it. */
  datatype Rule = Rule(id: string, effect: Effect, when: Option<When>)

  function Conditions(o: Option<seq<Condition>>): seq<Condition> { if o.Some? then o.value else [] }

  function All(rule: Rule): seq<Condition> { if rule.when.Some? then Conditions(rule.when.value.all) else [] }

  function Any(rule: Rule): seq<Condition> { if rule.when.Some? then Conditions(rule.when.value.any) else [] }

  /** matches returns true; without `when` it throws. */
  predicate Matches(rule: Rule, ctx: Value) {
    var all, any := All(rule), Any(rule);
    && rule.when.Some?
    && (forall i :: 0 <= i < |all| ==> MatchOne(all[i], ctx))
    && (any == [] || exists i :: 0 <= i < |any| && MatchOne(any[i], ctx))
  }

  // ---------- what the operators decide ----------

  /** The condition fails on the value found at its path. Equality is that of primitives. */
  predicate Fails(c: Condition, left: Value) {
    match c.op
    case Eq => left != c.value || left.Array? || left.Object?
    case Neq => left == c.value && !left.Array? && !left.Object?
    case In => !c.value.Array? || left.Array? || left.Object? || left !in c.value.items
    case Contains => !left.Array? || c.value.Array? || c.value.Object? || c.value !in left.items
  }

  lemma FailsIsNoMatch(c: Condition, ctx: Value)
    ensures MatchOne(c, ctx) <==> !Fails(c, GetPath(ctx, c.path))
  {
    var left := GetPath(ctx, c.path);
    if c.op.In? && c.value.Array? && left in c.value.items {
      var i :| 0 <= i < |c.value.items| && c.value.items[i] == left;
      assert Primitive(left) ==> StrictlyEqual(c.value.items[i], left);
    }
    if c.op.Contains? && left.Array? && c.value in left.items {
      var i :| 0 <= i < |left.items| && left.items[i] == c.value;
      assert Primitive(c.value) ==> StrictlyEqual(left.items[i], c.value);
    }
  }

  lemma PathReachesNest(keys: seq<string>, x: Value)
    requires keys != [] && forall i :: 0 <= i < |keys| ==> NoDot(keys[i])
    ensures GetPath(Nest(keys, x), Join(keys)) == x
  {
    SplitJoin(keys);
    WalkNest(keys, x);
  }

  /** On a context with x at the dotted path: eq and neq compare primitives, in looks a primitive up in the
      list of the condition, contains looks the value of the condition up in a list of the context. */
  lemma {:induction false} OperatorsDecide(keys: seq<string>, x: Value, value: Value)
    requires keys != [] && forall i :: 0 <= i < |keys| ==> NoDot(keys[i])
    ensures
      var holds := (op: Operator) => MatchOne(Condition(Join(keys), op, value), Nest(keys, x));
      && (holds(Eq) <==> x == value && !x.Array? && !x.Object?)
      && (holds(Neq) <==> !holds(Eq))
      && (holds(In) <==> value.Array? && x in value.items && !x.Array? && !x.Object?)
      && (holds(Contains) <==> x.Array? && value in x.items && !value.Array? && !value.Object?)
  {
    PathReachesNest(keys, x);
    FailsIsNoMatch(Condition(Join(keys), Eq, value), Nest(keys, x));
    FailsIsNoMatch(Condition(Join(keys), Neq, value), Nest(keys, x));
    FailsIsNoMatch(Condition(Join(keys), In, value), Nest(keys, x));
    FailsIsNoMatch(Condition(Join(keys), Contains, value), Nest(keys, x));
  }

  lemma {:induction false} ElementFrom(items: seq<Value>, i: nat, from: nat)
    requires from <= i < |items|
    ensures Element(items, Decimal(i), from) == items[i]
    decreases i - from
  {
    NumeralIsNoName(i);
    if from < i {
      if Decimal(i) == Decimal(from) { DecimalIsInjective(i, from); }
      ElementFrom(items, i, from + 1);
    }
  }

  lemma NumeralIsNoName(i: nat)
    ensures Decimal(i) != "length"
  {
    DecimalReads(i);
    assert "length"[0] == 'l';
  }

  lemma {:induction false} NoElement(items: seq<Value>, key: string, from: nat)
    requires key != "length" && forall i :: from <= i < |items| ==> key != Decimal(i)
    ensures Element(items, key, from) == Undefined
    decreases |items| - from
  {
    if from < |items| {
      NoElement(items, key, from + 1);
    }
  }

  /** A key of an array is an index in decimal or length; any other is undefined. */
  lemma ArrayKeys(items: seq<Value>, key: string)
    ensures key == "length" ==> GetKey(Array(items), key) == Number(|items|)
    ensures forall i :: 0 <= i < |items| && key == Decimal(i) ==> GetKey(Array(items), key) == items[i]
    ensures key != "length" && (forall i :: 0 <= i < |items| ==> key != Decimal(i)) ==> GetKey(Array(items), key) == Undefined
  {
    forall i | 0 <= i < |items| && key == Decimal(i) ensures GetKey(Array(items), key) == items[i] {
      ElementFrom(items, i, 0);
    }
    if key != "length" && (forall i :: 0 <= i < |items| ==> key != Decimal(i)) {
      NoElement(items, key, 0);
    }
  }

  // ---------- matching survives a deeper context ----------

  /** w has everything v has: objects may gain keys at any depth, all else stays as it is. */
  predicate Extends(v: Value, w: Value) {
    match v
    case Undefined => true
    case Object(fields) => w.Object? && forall k :: k in fields ==> k in w.fields && Extends(fields[k], w.fields[k])
    case _ => w == v
  }

  lemma {:induction false} ExtendsItself(v: Value)
    ensures Extends(v, v)
  {
    if v.Object? {
      forall k | k in v.fields ensures Extends(v.fields[k], v.fields[k]) {
        ExtendsItself(v.fields[k]);
      }
    }
  }

  lemma {:induction false} WalkExtends(v: Value, w: Value, keys: seq<string>)
    requires Extends(v, w)
    ensures Extends(Walk(v, keys), Walk(w, keys))
    decreases |keys|
  {
    if keys != [] {
      ExtendsItself(GetKey(v, keys[0]));
      WalkExtends(GetKey(v, keys[0]), GetKey(w, keys[0]), keys[1..]);
    }
  }

  /** A test that something is different from a primitive; the only kind that a longer context can break. */
  predicate Negative(c: Condition) { c.op.Neq? && Primitive(c.value) }

  lemma ConditionSurvives(c: Condition, v: Value, w: Value)
    requires WellTyped(c) && !Negative(c) && Extends(v, w) && MatchOne(c, v)
    ensures MatchOne(c, w)
  {
    WalkExtends(v, w, Split(c.path));
  }

  /** The smallest context with the given value at the end of the keys. */
  function Nest(keys: seq<string>, x: Value): Value {
    if keys == [] then x else Object(map[keys[0] := Nest(keys[1..], x)])
  }

  lemma {:induction false} WalkNest(keys: seq<string>, x: Value)
    ensures Walk(Nest(keys, x), keys) == x
  {
    if keys != [] {
      WalkNest(keys[1..], x);
    }
  }

  lemma {:induction false} WalkUndefined(keys: seq<string>)
    ensures Walk(Undefined, keys) == Undefined
  {
    if keys != [] {
      WalkUndefined(keys[1..]);
    }
  }

  predicate Survives(c: Condition, v: Value, w: Value) { Extends(v, w) && MatchOne(c, v) ==> MatchOne(c, w) }

  /** A condition's match survives every deep extension of every context exactly when it is not a
      comparison for difference with a primitive. */
  lemma SurvivesExactly(c: Condition)
    requires WellTyped(c)
    ensures (forall v, w :: Survives(c, v, w)) <==> !Negative(c)
  {
    if Negative(c) {
      var keys := Split(c.path);
      var v, w := Object(map[]), Nest(keys, c.value);
      WalkNest(keys, c.value);
      WalkUndefined(keys[1..]);
      assert Extends(v, w) && !Survives(c, v, w);
    } else {
      forall v, w ensures Survives(c, v, w) {
        if Extends(v, w) && MatchOne(c, v) {
          ConditionSurvives(c, v, w);
        }
      }
    }
  }

  predicate Positive(conditions: seq<Condition>) {
    forall i :: 0 <= i < |conditions| ==> WellTyped(conditions[i]) && !Negative(conditions[i])
  }

  /** A rule without negative conditions that matches a context matches every deep extension of it. */
  lemma MatchSurvives(rule: Rule, v: Value, w: Value)
    requires Positive(All(rule)) && Positive(Any(rule)) && Extends(v, w) && Matches(rule, v)
    ensures Matches(rule, w)
  {
    var all, any := All(rule), Any(rule);
    forall i | 0 <= i < |all| ensures MatchOne(all[i], w) {
      ConditionSurvives(all[i], v, w);
    }
    if any != [] {
      var i :| 0 <= i < |any| && MatchOne(any[i], v);
      ConditionSurvives(any[i], v, w);
    }
  }

  // ---------- bundles ----------

  /** An element of a payload's rules. Only the signature of a payload is checked, so besides rules there may
      be values without an id, and null. */
  datatype Entry = RuleEntry(rule: Rule) | Unnamed | NullEntry

  datatype Rules = RuleList(entries: seq<Entry>) | NotAnArray

  datatype Bundle = Bundle(bundleId: string, version: string, rules: Rules)

  /** payload is None when it is null or otherwise falsy. */
  datatype SignedBundle = SignedBundle(payload: Option<Bundle>, signature: string, keyId: string)

  /** kms.verify over the serialised payload; a verification that throws counts as false. */
  type Verify = SignedBundle -> bool

  /** bundle.rules.map(r => [r.id, r]) does not throw. */
  predicate Indexable(b: Option<Bundle>) { b.Some? && b.value.rules.RuleList? && NullEntry !in b.value.rules.entries }

  /** The rule that wins when ids repeat: the last one. */
  function LastRule(entries: seq<Entry>, id: string): Option<Rule> {
    if entries == [] then None
    else
      var last := entries[|entries| - 1];
      if last.RuleEntry? && last.rule.id == id then Some(last.rule) else LastRule(entries[..|entries| - 1], id)
  }

  predicate Named(e: Entry, id: string) { e.RuleEntry? && e.rule.id == id }

  /** It is the rule of the last entry with the id, and none exactly when there is no such entry. */
  lemma {:induction false} LastRuleIsLast(entries: seq<Entry>, id: string)
    ensures LastRule(entries, id).None? <==> forall j :: 0 <= j < |entries| ==> !Named(entries[j], id)
    ensures LastRule(entries, id).Some? ==>
              exists j :: 0 <= j < |entries| && entries[j] == RuleEntry(LastRule(entries, id).value) &&
                          LastRule(entries, id).value.id == id && forall k :: j < k < |entries| ==> !Named(entries[k], id)
  {
    if entries != [] {
      var n := |entries| - 1;
      LastRuleIsLast(entries[..n], id);
      if Named(entries[n], id) {
        assert entries[n] == RuleEntry(LastRule(entries, id).value);
      } else if LastRule(entries, id).Some? {
        var j :| 0 <= j < n && entries[..n][j] == RuleEntry(LastRule(entries, id).value) &&
                 forall k :: j < k < n ==> !Named(entries[..n][k], id);
        assert entries[j] == RuleEntry(LastRule(entries, id).value);
        assert forall k :: j < k < n ==> entries[..n][k] == entries[k];
      } else {
        assert forall k :: 0 <= k < n ==> entries[..n][k] == entries[k];
      }
    }
  }

  ghost predicate IsIndex(index: map<string, Rule>, entries: seq<Entry>) {
    forall id: string :: LastRule(entries, id) == if id in index then Some(index[id]) else None
  }

  datatype Reason = BundleNotLoaded | RuleNotFound | ConditionsNotMet

  /** Thrown: evaluate throws on a rule without `when`. */
  datatype Decision = Decision(ruleId: string, effect: Effect, reason: Option<Reason>) | Thrown

  predicate Allows(d: Decision) { d.Decision? && d.effect.Allow? }

  /** The plugin's variables, and for each load in flight the time it started. */
  datatype Engine = Engine(bundle: Option<Bundle>, byRuleId: map<string, Rule>, loadedAt: int, loads: map<nat, int>)

  /** A load runs to its first await, and from its last one on; Finish carries what was fetched. */
  datatype Event = Begin(load: nat, now: int) | Finish(load: nat, fetched: Option<SignedBundle>)

  function Fresh(): Engine { Engine(None, map[], 0, map[]) }

  predicate Cached(e: Engine, now: int, ttl: int) { e.bundle.Some? && now - e.loadedAt < ttl }

  function Index(entries: seq<Entry>): map<string, Rule> {
    if entries == [] then map[]
    else
      var before := Index(entries[..|entries| - 1]);
      var last := entries[|entries| - 1];
      if last.RuleEntry? then before[last.rule.id := last.rule] else before
  }

  predicate Accepted(verify: Verify, fetched: Option<SignedBundle>) { fetched.Some? && verify(fetched.value) }

  /** The assignments of a load whose payload passed verification: bundle first, then index and time, which
      a payload that cannot be indexed never reaches. */
  function Install(e: Engine, payload: Option<Bundle>, at: int): Engine {
    if Indexable(payload) then e.(bundle := payload, byRuleId := Index(payload.value.rules.entries), loadedAt := at)
    else e.(bundle := payload)
  }

  function Step(verify: Verify, ttl: int, e: Engine, ev: Event): Engine {
    match ev
    case Begin(i, now) => if i in e.loads || Cached(e, now, ttl) then e else e.(loads := e.loads[i := now])
    case Finish(i, fetched) =>
      if i !in e.loads then e
      else if !Accepted(verify, fetched) then e.(loads := e.loads - {i})
      else Install(e, fetched.value.payload, e.loads[i]).(loads := e.loads - {i})
  }

  function Run(verify: Verify, ttl: int, trace: seq<Event>): Engine {
    if trace == [] then Fresh() else Step(verify, ttl, Run(verify, ttl, trace[..|trace| - 1]), trace[|trace| - 1])
  }

  lemma RunPush(verify: Verify, ttl: int, trace: seq<Event>, ev: Event)
    ensures Run(verify, ttl, trace + [ev]) == Step(verify, ttl, Run(verify, ttl, trace), ev)
  {
    assert (trace + [ev])[..|trace|] == trace;
  }

  function Evaluate(e: Engine, ruleId: string, ctx: Value): Decision {
    if e.bundle.None? then Decision(ruleId, Deny, Some(BundleNotLoaded))
    else if ruleId !in e.byRuleId then Decision(ruleId, Deny, Some(RuleNotFound))
    else if e.byRuleId[ruleId].when.None? then Thrown
    else if !Matches(e.byRuleId[ruleId], ctx) then Decision(ruleId, Deny, Some(ConditionsNotMet))
    else Decision(ruleId, e.byRuleId[ruleId].effect, None)
  }

  lemma {:induction false} IndexIsIndex(entries: seq<Entry>)
    ensures IsIndex(Index(entries), entries)
  {
    if entries != [] {
      IndexIsIndex(entries[..|entries| - 1]);
    }
  }

  ghost predicate Verified(verify: Verify, b: Bundle) { exists s: SignedBundle :: s.payload == Some(b) && verify(s) }

  /** The event finishes a load with a payload that passes verification. */
  predicate Lands(verify: Verify, e: Engine, ev: Event) {
    ev.Finish? && ev.load in e.loads && Accepted(verify, ev.fetched)
  }

  /** The payload that the index in force was built from: the last accepted one that could be indexed. */
  function Indexed(verify: Verify, ttl: int, trace: seq<Event>): (b: Option<Bundle>)
    ensures b.Some? ==> Indexable(b)
  {
    if trace == [] then None
    else
      var n := |trace| - 1;
      if Lands(verify, Run(verify, ttl, trace[..n]), trace[n]) && Indexable(trace[n].fetched.value.payload)
      then trace[n].fetched.value.payload
      else Indexed(verify, ttl, trace[..n])
  }

  ghost predicate Sound(verify: Verify, e: Engine, indexed: Option<Bundle>) {
    && (e.bundle.Some? ==> Verified(verify, e.bundle.value))
    && (Indexable(e.bundle) ==> indexed == e.bundle)
    && match indexed
       case None => e.byRuleId == map[]
       case Some(b) => Indexable(indexed) && Verified(verify, b) && IsIndex(e.byRuleId, b.rules.entries)
  }

  lemma StepKeepsSound(verify: Verify, ttl: int, e: Engine, ev: Event, indexed: Option<Bundle>)
    requires Sound(verify, e, indexed)
    ensures Sound(verify, Step(verify, ttl, e, ev),
                  if Lands(verify, e, ev) && Indexable(ev.fetched.value.payload) then ev.fetched.value.payload else indexed)
  {
    if Lands(verify, e, ev) {
      var payload := ev.fetched.value.payload;
      assert payload.Some? ==> Verified(verify, payload.value);
      if Indexable(payload) {
        IndexIsIndex(payload.value.rules.entries);
      }
    }
  }

  lemma {:induction false} SoundReachable(verify: Verify, ttl: int, trace: seq<Event>)
    ensures Sound(verify, Run(verify, ttl, trace), Indexed(verify, ttl, trace))
  {
    if trace != [] {
      var n := |trace| - 1;
      SoundReachable(verify, ttl, trace[..n]);
      StepKeepsSound(verify, ttl, Run(verify, ttl, trace[..n]), trace[n], Indexed(verify, ttl, trace[..n]));
    }
  }

  /** At every point of every interleaving of loads, malformed payloads included: evaluate allows exactly
      when a bundle is in force and the last rule with the id, found by scanning the payload behind the
      index, allows and matches; that payload passed verification, and it is the bundle in force whenever
      the bundle in force can be indexed. */
  lemma FailClosedTheorem(verify: Verify, ttl: int, trace: seq<Event>, ruleId: string, ctx: Value)
    ensures
      var e := Run(verify, ttl, trace);
      var source := Indexed(verify, ttl, trace);
      && (e.bundle.Some? ==> Verified(verify, e.bundle.value))
      && (source.Some? ==> Verified(verify, source.value))
      && (Indexable(e.bundle) ==> source == e.bundle)
      && (Allows(Evaluate(e, ruleId, ctx)) <==>
            e.bundle.Some? && source.Some? && var r := LastRule(source.value.rules.entries, ruleId);
            r.Some? && r.value.effect.Allow? && Matches(r.value, ctx))
      && (Evaluate(e, ruleId, ctx) == Decision(ruleId, Deny, Some(RuleNotFound)) <==>
            e.bundle.Some? && (source.Some? ==> LastRule(source.value.rules.entries, ruleId).None?))
      && (Evaluate(e, ruleId, ctx).Thrown? <==>
            e.bundle.Some? && source.Some? && var r := LastRule(source.value.rules.entries, ruleId);
            r.Some? && r.value.when.None?)
  {
    SoundReachable(verify, ttl, trace);
  }

  /** The index decides for the bundle in force exactly when the rules of that bundle can be indexed. */
  lemma {:induction false} IndexBelongsExactlyWhen(verify: Verify, ttl: int, trace: seq<Event>)
    requires Run(verify, ttl, trace).bundle.Some?
    ensures Indexed(verify, ttl, trace) == Run(verify, ttl, trace).bundle <==> Indexable(Run(verify, ttl, trace).bundle)
  {
    SoundReachable(verify, ttl, trace);
  }

  /** A load that cannot fetch or verify, or that is skipped by the cache, changes no decision. */
  lemma FailedLoadChangesNothing(verify: Verify, ttl: int, e: Engine, ev: Event, ruleId: string, ctx: Value)
    requires ev.Finish? ==> !Accepted(verify, ev.fetched)
    ensures Evaluate(Step(verify, ttl, e, ev), ruleId, ctx) == Evaluate(e, ruleId, ctx)
    ensures Step(verify, ttl, e, ev).loadedAt == e.loadedAt
  {}

  /** What a load that throws after its verification changes: the bundle in force, and no decision unless
      one of the two bundles is falsy. */
  lemma MalformedLoadKeepsRules(verify: Verify, ttl: int, e: Engine, ev: Event, ruleId: string, ctx: Value)
    requires Lands(verify, e, ev) && !Indexable(ev.fetched.value.payload)
    ensures Step(verify, ttl, e, ev) == e.(bundle := ev.fetched.value.payload, loads := e.loads - {ev.load})
    ensures e.bundle.Some? && ev.fetched.value.payload.Some? ==>
              Evaluate(Step(verify, ttl, e, ev), ruleId, ctx) == Evaluate(e, ruleId, ctx)
    ensures ev.fetched.value.payload.None? ==> Evaluate(Step(verify, ttl, e, ev), ruleId, ctx) == Decision(ruleId, Deny, Some(BundleNotLoaded))
  {}

  lemma IndexOfOne(rule: Rule)
    ensures Index([RuleEntry(rule)]) == map[rule.id := rule]
  {
    assert [RuleEntry(rule)][..0] == [];
    assert Index([]) == map[];
  }

  const ALLOW_ALL := Rule("consent.grant", Allow, Some(When(None, None)))

  /** A run that ends with a bundle in force that has no rules at all, while the rule of the bundle before
      it still allows. */
  lemma MalformedPayloadSplits(verify: Verify, ttl: int, good: SignedBundle, bad: SignedBundle, ctx: Value)
    returns (trace: seq<Event>)
    requires verify(good) && good.payload == Some(Bundle("a", "1", RuleList([RuleEntry(ALLOW_ALL)])))
    requires verify(bad) && bad.payload == Some(Bundle("b", "2", NotAnArray))
    ensures Run(verify, ttl, trace).bundle == bad.payload
    ensures Allows(Evaluate(Run(verify, ttl, trace), "consent.grant", ctx))
  {
    var now := if ttl > 0 then ttl else 0;
    RunPush(verify, ttl, [], Begin(0, 0));
    RunPush(verify, ttl, [Begin(0, 0)], Finish(0, Some(good)));
    trace := [] + [Begin(0, 0)] + [Finish(0, Some(good))];
    var loaded := Run(verify, ttl, trace);
    IndexOfOne(ALLOW_ALL);
    assert loaded.byRuleId == map["consent.grant" := ALLOW_ALL] && loaded.loadedAt == 0 && loaded.loads == map[];
    RunPush(verify, ttl, trace, Begin(1, now));
    RunPush(verify, ttl, trace + [Begin(1, now)], Finish(1, Some(bad)));
    trace := trace + [Begin(1, now)] + [Finish(1, Some(bad))];
  }

  /** Events j and k of the trace are the start and the end of an accepted load of the payload. */
  predicate LoadOf(verify: Verify, trace: seq<Event>, j: nat, k: nat, payload: Option<Bundle>) {
    && j < k < |trace| && trace[j].Begin? && trace[k].Finish? && trace[j].load == trace[k].load
    && Accepted(verify, trace[k].fetched) && trace[k].fetched.value.payload == payload
  }

  /** The cache age counts from the start of a load, and the load that finishes last wins: the index in
      force came from an accepted load that began at loadedAt. */
  lemma {:induction false} IndexedSince(verify: Verify, ttl: int, trace: seq<Event>)
    requires Indexed(verify, ttl, trace).Some?
    ensures exists j: nat, k: nat :: LoadOf(verify, trace, j, k, Indexed(verify, ttl, trace)) && trace[j].now == Run(verify, ttl, trace).loadedAt
  {
    var n := |trace| - 1;
    var before, payload := Run(verify, ttl, trace[..n]), Indexed(verify, ttl, trace);
    if Lands(verify, before, trace[n]) && Indexable(trace[n].fetched.value.payload) {
      var j := BeganAt(verify, ttl, trace[..n], trace[n].load);
      assert LoadOf(verify, trace, j, n, payload);
    } else {
      IndexedSince(verify, ttl, trace[..n]);
      var j: nat, k: nat :| LoadOf(verify, trace[..n], j, k, payload) && trace[..n][j].now == before.loadedAt;
      assert LoadOf(verify, trace, j, k, payload);
    }
  }

  /** So did the bundle in force, except that a payload which cannot be indexed leaves loadedAt alone. */
  lemma {:induction false} InForceSince(verify: Verify, ttl: int, trace: seq<Event>)
    requires Run(verify, ttl, trace).bundle.Some?
    ensures exists j: nat, k: nat :: LoadOf(verify, trace, j, k, Run(verify, ttl, trace).bundle) &&
              (Indexable(Run(verify, ttl, trace).bundle) ==> trace[j].now == Run(verify, ttl, trace).loadedAt)
  {
    var n := |trace| - 1;
    var before, after := Run(verify, ttl, trace[..n]), Run(verify, ttl, trace);
    if Lands(verify, before, trace[n]) {
      var j := BeganAt(verify, ttl, trace[..n], trace[n].load);
      assert LoadOf(verify, trace, j, n, after.bundle);
    } else {
      InForceSince(verify, ttl, trace[..n]);
      var j: nat, k: nat :| LoadOf(verify, trace[..n], j, k, before.bundle) &&
                  (Indexable(before.bundle) ==> trace[..n][j].now == before.loadedAt);
      assert LoadOf(verify, trace, j, k, after.bundle);
    }
  }

  lemma {:induction false} BeganAt(verify: Verify, ttl: int, trace: seq<Event>, load: nat) returns (j: nat)
    requires load in Run(verify, ttl, trace).loads
    ensures j < |trace| && trace[j] == Begin(load, Run(verify, ttl, trace).loads[load])
  {
    var n := |trace| - 1;
    var before := Run(verify, ttl, trace[..n]);
    if load in before.loads && Run(verify, ttl, trace).loads[load] == before.loads[load] {
      j := BeganAt(verify, ttl, trace[..n], load);
    } else {
      j := n;
    }
  }

  lemma SomeFails(conditions: seq<Condition>, ctx: Value)
    ensures (exists i :: 0 <= i < |conditions| && Fails(conditions[i], GetPath(ctx, conditions[i].path))) <==>
            !(forall i :: 0 <= i < |conditions| ==> MatchOne(conditions[i], ctx))
    ensures (forall i :: 0 <= i < |conditions| ==> Fails(conditions[i], GetPath(ctx, conditions[i].path))) <==>
            !(exists i :: 0 <= i < |conditions| && MatchOne(conditions[i], ctx))
  {
    forall i | 0 <= i < |conditions|
      ensures MatchOne(conditions[i], ctx) <==> !Fails(conditions[i], GetPath(ctx, conditions[i].path))
    {
      FailsIsNoMatch(conditions[i], ctx);
    }
  }

  lemma MatchesColumns(rule: Rule, ctx: Value)
    requires rule.when.Some?
    ensures
      var all, any := rule.when.value.all, rule.when.value.any;
      !Matches(rule, ctx) <==>
      (all.Some? && exists i :: 0 <= i < |all.value| && Fails(all.value[i], GetPath(ctx, all.value[i].path))) ||
      (any.Some? && any.value != [] && forall i :: 0 <= i < |any.value| ==> Fails(any.value[i], GetPath(ctx, any.value[i].path)))
  {
    SomeFails(All(rule), ctx);
    SomeFails(Any(rule), ctx);
  }

  // ---------- the plugin ----------

  class PolicyPlugin {
    const verify: Verify
    const ttl: int
    var bundle: Option<Bundle>
    var byRuleId: map<string, Rule>
    var loadedAt: int
    ghost var loads: map<nat, int>
    ghost var trace: seq<Event>

    ghost function Snapshot(): Engine reads this { Engine(bundle, byRuleId, loadedAt, loads) }

    ghost predicate Valid() reads this { Snapshot() == Run(verify, ttl, trace) }

    constructor (verify: Verify, ttl: int)
      ensures Valid() && bundle == None
    {
      this.verify, this.ttl := verify, ttl;
      bundle, byRuleId, loadedAt := None, map[], 0;
      loads, trace := map[], [];
    }

    ghost method Record(ev: Event, was: Engine)
      requires was == Run(verify, ttl, trace) && Snapshot() == Step(verify, ttl, was, ev)
      modifies `trace
      ensures Valid() && trace == old(trace) + [ev]
    {
      RunPush(verify, ttl, trace, ev);
      trace := trace + [ev];
    }

    /** load() up to its first await: skipped while the cache is fresh. */
    method BeginLoad(ghost load: nat, now: int) returns (skip: bool)
      requires Valid() && load !in loads
      modifies this
      ensures Valid() && trace == old(trace) + [Begin(load, now)]
      ensures skip <==> old(bundle).Some? && now - old(loadedAt) < ttl
      ensures bundle == old(bundle) && byRuleId == old(byRuleId) && loadedAt == old(loadedAt)
      ensures loads == if skip then old(loads) else old(loads)[load := now]
    {
      ghost var was := Snapshot();
      skip := bundle.Some? && now - loadedAt < ttl;
      loads := if skip then loads else loads[load := now];
      Record(Begin(load, now), was);
    }

    /** load() after its last await: bundle = payload, then new Map(rules.map(r => [r.id, r])), which throws
        on a payload without a rules array and on a null element, then the time. */
    method FinishLoad(ghost load: nat, now: int, fetched: Option<SignedBundle>) returns (ok: bool)
      requires Valid() && load in loads && loads[load] == now
      modifies this
      ensures Valid() && trace == old(trace) + [Finish(load, fetched)] && load !in loads
      ensures ok <==>
                fetched.Some? && verify(fetched.value) && fetched.value.payload.Some? &&
                fetched.value.payload.value.rules.RuleList? && NullEntry !in fetched.value.payload.value.rules.entries
      ensures bundle == if fetched.Some? && verify(fetched.value) then fetched.value.payload else old(bundle)
      ensures ok ==> IsIndex(byRuleId, bundle.value.rules.entries) && loadedAt == now
      ensures !ok ==> byRuleId == old(byRuleId) && loadedAt == old(loadedAt)
    {
      ghost var was := Snapshot();
      ok := fetched.Some? && verify(fetched.value);
      loads := loads - {load};
      if ok {
        bundle := fetched.value.payload;
        ok := bundle.Some? && bundle.value.rules.RuleList?;
        if ok {
          var index;
          ok, index := BuildIndex(bundle.value.rules.entries);
          if ok {
            IndexIsIndex(bundle.value.rules.entries);
            byRuleId, loadedAt := index, now;
          }
        }
      }
      Record(Finish(load, fetched), was);
    }

    /** The entries of the map, one after the other; false when r.id throws. */
    method BuildIndex(entries: seq<Entry>) returns (ok: bool, index: map<string, Rule>)
      ensures ok <==> NullEntry !in entries
      ensures ok ==> index == Index(entries)
    {
      index := map[];
      for i := 0 to |entries|
        invariant NullEntry !in entries[..i] && index == Index(entries[..i])
      {
        assert entries[..i + 1][..i] == entries[..i];
        match entries[i] {
          case NullEntry => return false, index;
          case RuleEntry(rule) => index := index[rule.id := rule];
          case Unnamed =>
        }
      }
      assert entries[..|entries|] == entries;
      ok := true;
    }

    method Decide(ruleId: string, ctx: Value) returns (d: Decision)
      requires Valid()
      ensures d == Evaluate(Snapshot(), ruleId, ctx)
      ensures bundle.None? ==> d == Decision(ruleId, Deny, Some(BundleNotLoaded))
      ensures bundle.Some? && ruleId !in byRuleId ==> d == Decision(ruleId, Deny, Some(RuleNotFound))
      ensures bundle.Some? && ruleId in byRuleId && byRuleId[ruleId].when.None? ==> d == Thrown
      ensures bundle.Some? && ruleId in byRuleId && byRuleId[ruleId].when.Some? ==>
                var all, any := byRuleId[ruleId].when.value.all, byRuleId[ruleId].when.value.any;
                d == if (all.Some? && exists i :: 0 <= i < |all.value| && Fails(all.value[i], GetPath(ctx, all.value[i].path))) ||
                        (any.Some? && any.value != [] && forall i :: 0 <= i < |any.value| ==> Fails(any.value[i], GetPath(ctx, any.value[i].path)))
                     then Decision(ruleId, Deny, Some(ConditionsNotMet))
                     else Decision(ruleId, byRuleId[ruleId].effect, None)
      ensures Allows(d) ==> bundle.Some? && Verified(verify, bundle.value)
    {
      if bundle.None? { return Decision(ruleId, Deny, Some(BundleNotLoaded)); }
      SoundReachable(verify, ttl, trace);
      if ruleId !in byRuleId { return Decision(ruleId, Deny, Some(RuleNotFound)); }
      var rule := byRuleId[ruleId];
      if rule.when.None? { return Thrown; }
      MatchesColumns(rule, ctx);
      if !Matches(rule, ctx) { return Decision(ruleId, Deny, Some(ConditionsNotMet)); }
      d := Decision(ruleId, rule.effect, None);
    }
  }
}

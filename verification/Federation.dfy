/** Federation sync of a trust node: any number of concurrent syncFromPeer calls, each of whose statements
    may throw without effect, and crashes. One action is one SQL statement, one check, or one event of the
    environment; a disabled action does nothing. */
module Federation {
  import opened Std

  // ---------- requests and tables ----------

  datatype SyncRequest = SyncRequest(peer: nat, cursor: int, root: Option<string>, signature: Option<string>,
                                     key: Option<string>)

  /** verifyMerkleRootSignature: signature, message, public key. */
  type Verify = (string, string, string) -> bool

  datatype Status = Pending | Verified | Failed

  datatype Point = AtSignature | AtChain | AtCursor | AtVerified | AtFailed

  /** error_msg: one of the two fixed texts, or the message of what was thrown where. */
  datatype Cause = BadSignature | BadChain | Thrown(at: Point)

  /** call records which call inserted the row. */
  datatype SyncRow = SyncRow(peer: nat, cursor: int, root: Option<string>, signature: Option<string>,
                             status: Status, error: Option<Cause>, call: nat)

  /** Rejecting marks the row failed inside the try block, Catching in the catch block before rethrowing. */
  datatype Phase =
    | Recording
    | VerifyingSignature
    | VerifyingChain
    | WritingCursor
    | MarkingVerified
    | Rejecting(cause: Cause)
    | Catching(cause: Cause)
    | Returned(status: Status)
    | Threw
    | Crashed

  /** row and chain: the recorded row and the answer of verifyAuditChain, once there is one. */
  datatype Call = Call(request: SyncRequest, phase: Phase, row: Option<nat>, chain: Option<bool>)

  /** Writes to the cursor table and to peer_syncs.status in commit order; kept to state properties of runs. */
  datatype Event = Wrote(row: nat, peer: nat, cursor: int) | Marked(row: nat, status: Status)

  datatype State = State(rows: seq<SyncRow>, cursors: map<nat, int>, calls: seq<Call>, log: seq<Event>)

  const INIT := State([], map[], [], [])

  datatype Statement = Record | VerifySignature | VerifyChain(ok: bool) | WriteCursor | MarkVerified | MarkFailed | Fail | Crash

  datatype Action = Start(request: SyncRequest) | OnCall(call: nat, statement: Statement) | Initialize(peer: nat)

  // ---------- the two checks ----------

  /** JavaScript truthiness: a missing field and an empty string are both false. */
  predicate Truthy(x: Option<string>) { x.Some? && x.value != "" }

  function Text(x: Option<string>): string { if x.Some? then x.value else "" }

  function OrNull(x: Option<string>): Option<string> { if Truthy(x) then x else None }

  predicate SignatureApplies(q: SyncRequest) { Truthy(q.signature) && Truthy(q.key) }

  predicate SignatureValid(v: Verify, q: SyncRequest) { v(Text(q.signature), Text(q.root), Text(q.key)) }

  predicate ChainApplies(q: SyncRequest) { Truthy(q.root) }

  function AfterSignature(q: SyncRequest): Phase { if ChainApplies(q) then VerifyingChain else WritingCursor }

  function AfterRecord(q: SyncRequest): Phase { if SignatureApplies(q) then VerifyingSignature else AfterSignature(q) }

  // ---------- steps ----------

  predicate Ended(p: Phase) { p.Returned? || p.Threw? || p.Crashed? }

  /** Where a throw takes the call: recordPeerSync stands before the try block, and nothing guards the catch block. */
  function AfterThrow(p: Phase): Phase {
    match p
    case Recording => Threw
    case VerifyingSignature => Catching(Thrown(AtSignature))
    case VerifyingChain => Catching(Thrown(AtChain))
    case WritingCursor => Catching(Thrown(AtCursor))
    case MarkingVerified => Catching(Thrown(AtVerified))
    case Rejecting(_) => Catching(Thrown(AtFailed))
    case Catching(_) => Threw
    case _ => p
  }

  predicate Marks(c: Call, x: Statement) {
    || (x.MarkVerified? && c.phase.MarkingVerified?)
    || (x.MarkFailed? && (c.phase.Rejecting? || c.phase.Catching?))
  }

  function Moved(v: Verify, s: State, c: Call, x: Statement): Call {
    match x
    case Record => if c.phase.Recording? then c.(phase := AfterRecord(c.request), row := Some(|s.rows|)) else c
    case VerifySignature =>
      if !c.phase.VerifyingSignature? then c
      else c.(phase := if SignatureValid(v, c.request) then AfterSignature(c.request) else Rejecting(BadSignature))
    case VerifyChain(ok) =>
      if c.phase.VerifyingChain? then c.(phase := if ok then WritingCursor else Rejecting(BadChain), chain := Some(ok)) else c
    case WriteCursor => if c.phase.WritingCursor? then c.(phase := MarkingVerified) else c
    case MarkVerified => if Marks(c, x) then c.(phase := Returned(Verified)) else c
    case MarkFailed => if Marks(c, x) then c.(phase := if c.phase.Rejecting? then Returned(Failed) else Threw) else c
    case Fail => c.(phase := AfterThrow(c.phase))
    case Crash => if Ended(c.phase) then c else c.(phase := Crashed)
  }

  function NewRow(q: SyncRequest, call: nat): SyncRow {
    SyncRow(q.peer, q.cursor, OrNull(q.root), OrNull(q.signature), Pending, None, call)
  }

  /** UPDATE peer_syncs ... WHERE id = $1 */
  function Mark(rows: seq<SyncRow>, c: Call): seq<SyncRow> {
    if c.row.None? || c.row.value >= |rows| then rows
    else
      var row := rows[c.row.value];
      rows[c.row.value := if c.phase.MarkingVerified? then row.(status := Verified)
                          else if c.phase.Rejecting? || c.phase.Catching? then row.(status := Failed, error := Some(c.phase.cause))
                          else row]
  }

  function EventsOf(c: Call, x: Statement): seq<Event> {
    if c.row.None? then []
    else if x.WriteCursor? && c.phase.WritingCursor? then [Wrote(c.row.value, c.request.peer, c.request.cursor)]
    else if Marks(c, x) then [Marked(c.row.value, if x.MarkVerified? then Verified else Failed)]
    else []
  }

  function StepCall(v: Verify, s: State, i: nat, x: Statement): State
    requires i < |s.calls|
  {
    var c := s.calls[i];
    State(
      if x.Record? && c.phase.Recording? then s.rows + [NewRow(c.request, i)]
      else if Marks(c, x) then Mark(s.rows, c)
      else s.rows,
      if x.WriteCursor? && c.phase.WritingCursor? then s.cursors[c.request.peer := c.request.cursor] else s.cursors,
      s.calls[i := Moved(v, s, c, x)],
      s.log + EventsOf(c, x))
  }

  function Step(v: Verify, s: State, a: Action): State {
    match a
    case Start(q) => s.(calls := s.calls + [Call(q, Recording, None, None)])
    case OnCall(i, x) => if i < |s.calls| then StepCall(v, s, i, x) else s
    // ON CONFLICT (node_id) DO UPDATE SET updated_at: an existing cursor stays
    case Initialize(p) => if p in s.cursors then s else s.(cursors := s.cursors[p := 0])
  }

  function Run(v: Verify, trace: seq<Action>): State {
    if trace == [] then INIT else Step(v, Run(v, trace[..|trace| - 1]), trace[|trace| - 1])
  }

  // ---------- invariants ----------

  /** Every check that applied to the request of the call was made and passed. */
  predicate Passed(v: Verify, c: Call) {
    && (SignatureApplies(c.request) ==> SignatureValid(v, c.request))
    && (ChainApplies(c.request) ==> c.chain == Some(true))
  }

  predicate HasWrite(log: seq<Event>, r: nat) { exists j :: 0 <= j < |log| && log[j].Wrote? && log[j].row == r }

  predicate HasMark(log: seq<Event>, r: nat) { exists j :: 0 <= j < |log| && log[j].Marked? && log[j].row == r }

  predicate CallOk(v: Verify, s: State, i: nat)
    requires i < |s.calls|
  {
    var c := s.calls[i];
    && (c.phase.Recording? ==> c.row.None?)
    && (!c.phase.Recording? && !c.phase.Threw? && !c.phase.Crashed? ==> c.row.Some?)
    && (c.row.Some? ==> c.row.value < |s.rows| && s.rows[c.row.value].call == i)
    && (c.phase.VerifyingSignature? ==> SignatureApplies(c.request))
    && (c.phase.Rejecting? ==> !c.phase.cause.Thrown?)
    && (c.phase.VerifyingChain? ==> (SignatureApplies(c.request) ==> SignatureValid(v, c.request)))
    && (c.phase.WritingCursor? || c.phase.MarkingVerified? ==> Passed(v, c))
  }

  /** What the row and the control point of its call say about the writes made for it. */
  predicate RowOk(s: State, r: nat)
    requires r < |s.rows|
  {
    var row := s.rows[r];
    && row.call < |s.calls| && s.calls[row.call].row == Some(r)
    && var c := s.calls[row.call];
    && row == NewRow(c.request, row.call).(status := row.status, error := row.error)
    && (!Ended(c.phase) || c.phase.Crashed? ==> row.status.Pending?)
    && (c.phase.Threw? ==> !row.status.Verified?)
    && (c.phase.Returned? ==> row.status == c.phase.status && !c.phase.status.Pending?)
    && (row.status.Failed? <==> row.error.Some?)
    && (HasMark(s.log, r) <==> !row.status.Pending?)
    && (c.phase.MarkingVerified? || row.status.Verified? ==> HasWrite(s.log, r))
    && (c.phase.VerifyingSignature? || c.phase.VerifyingChain? || c.phase.WritingCursor? || c.phase.Rejecting? ==> !HasWrite(s.log, r))
    && (c.phase.Catching? ==> (HasWrite(s.log, r) <==> c.phase.cause == Thrown(AtVerified)))
    && (row.status.Failed? ==> (HasWrite(s.log, r) <==> row.error == Some(Thrown(AtVerified))))
  }

  predicate EventOk(v: Verify, s: State, j: nat)
    requires j < |s.log|
  {
    var e := s.log[j];
    && e.row < |s.rows| && s.rows[e.row].call < |s.calls|
    && (e.Wrote? ==> Passed(v, s.calls[s.rows[e.row].call]) && s.rows[e.row].peer == e.peer && s.rows[e.row].cursor == e.cursor)
    && (e.Marked? ==> e.status == s.rows[e.row].status && !e.status.Pending?)
    && (e.Marked? && e.status.Verified? ==> HasWrite(s.log[..j], e.row))
  }

  ghost predicate Invariant(v: Verify, s: State) {
    && (forall i :: 0 <= i < |s.calls| ==> CallOk(v, s, i))
    && (forall r :: 0 <= r < |s.rows| ==> RowOk(s, r))
    && (forall j :: 0 <= j < |s.log| ==> EventOk(v, s, j))
    && (forall j, k :: 0 <= j < k < |s.log| && s.log[j].Marked? && s.log[k].Marked? ==> s.log[j].row != s.log[k].row)
  }

  lemma LogAfter(log: seq<Event>, c: Call, x: Statement, r: nat)
    ensures HasWrite(log + EventsOf(c, x), r) <==>
            HasWrite(log, r) || (c.row == Some(r) && x.WriteCursor? && c.phase.WritingCursor?)
    ensures HasMark(log + EventsOf(c, x), r) <==> HasMark(log, r) || (c.row == Some(r) && Marks(c, x))
  {
    var all := log + EventsOf(c, x);
    forall j | 0 <= j < |log| ensures all[j] == log[j] {}
    if EventsOf(c, x) != [] {
      assert all[|log|] == EventsOf(c, x)[0];
    }
    if HasWrite(log, r) {
      var j :| 0 <= j < |log| && log[j].Wrote? && log[j].row == r;
      assert all[j].Wrote?;
    }
    if HasMark(log, r) {
      var j :| 0 <= j < |log| && log[j].Marked? && log[j].row == r;
      assert all[j].Marked?;
    }
  }

  lemma StatementKeepsCalls(v: Verify, s: State, i: nat, x: Statement, j: nat)
    requires Invariant(v, s) && i < |s.calls| && j < |s.calls|
    ensures CallOk(v, StepCall(v, s, i, x), j)
  {
    assert CallOk(v, s, i) && CallOk(v, s, j);
  }

  lemma StatementKeepsRow(v: Verify, s: State, i: nat, x: Statement, r: nat)
    requires Invariant(v, s) && i < |s.calls| && r < |StepCall(v, s, i, x).rows|
    ensures RowOk(StepCall(v, s, i, x), r)
  {
    assert CallOk(v, s, i);
    LogAfter(s.log, s.calls[i], x, r);
    if r < |s.rows| {
      assert RowOk(s, r);
    } else {
      forall j | 0 <= j < |s.log| ensures s.log[j].row != r {
        assert EventOk(v, s, j);
      }
    }
  }

  lemma StatementKeepsEvent(v: Verify, s: State, i: nat, x: Statement, j: nat)
    requires Invariant(v, s) && i < |s.calls| && j < |StepCall(v, s, i, x).log|
    ensures EventOk(v, StepCall(v, s, i, x), j)
  {
    var s' := StepCall(v, s, i, x);
    assert CallOk(v, s, i);
    if j < |s.log| {
      assert EventOk(v, s, j) && s'.log[..j] == s.log[..j];
      assert RowOk(s, s.log[j].row);
      assert s.log[j].Marked? ==> HasMark(s.log, s.log[j].row);
    } else {
      assert RowOk(s, s.calls[i].row.value);
      assert s'.log[..j] == s.log;
    }
  }

  lemma StatementKeepsMarks(v: Verify, s: State, i: nat, x: Statement, j: nat, k: nat)
    requires Invariant(v, s) && i < |s.calls| && j < k < |StepCall(v, s, i, x).log|
    ensures var log := StepCall(v, s, i, x).log; log[j].Marked? && log[k].Marked? ==> log[j].row != log[k].row
  {
    assert CallOk(v, s, i);
    if k == |s.log| && s.log[j].Marked? {
      assert RowOk(s, s.calls[i].row.value);
      assert HasMark(s.log, s.log[j].row);
    }
  }

  lemma StepKeepsInvariant(v: Verify, s: State, a: Action)
    requires Invariant(v, s)
    ensures Invariant(v, Step(v, s, a))
  {
    var s' := Step(v, s, a);
    if a.OnCall? && a.call < |s.calls| {
      forall j | 0 <= j < |s'.calls| ensures CallOk(v, s', j) {
        StatementKeepsCalls(v, s, a.call, a.statement, j);
      }
      forall r | 0 <= r < |s'.rows| ensures RowOk(s', r) {
        StatementKeepsRow(v, s, a.call, a.statement, r);
      }
      forall j | 0 <= j < |s'.log| ensures EventOk(v, s', j) {
        StatementKeepsEvent(v, s, a.call, a.statement, j);
      }
      forall j, k | 0 <= j < k < |s'.log| && s'.log[j].Marked? && s'.log[k].Marked? ensures s'.log[j].row != s'.log[k].row {
        StatementKeepsMarks(v, s, a.call, a.statement, j, k);
      }
    } else {
      forall j | 0 <= j < |s'.calls| ensures CallOk(v, s', j) {
        assert j < |s.calls| ==> CallOk(v, s, j);
      }
      forall r | 0 <= r < |s'.rows| ensures RowOk(s', r) {
        assert RowOk(s, r);
      }
      forall j | 0 <= j < |s'.log| ensures EventOk(v, s', j) {
        assert EventOk(v, s, j);
      }
    }
  }

  lemma {:induction false} InvariantReachable(v: Verify, trace: seq<Action>)
    ensures Invariant(v, Run(v, trace))
  {
    if trace != [] {
      InvariantReachable(v, trace[..|trace| - 1]);
      StepKeepsInvariant(v, Run(v, trace[..|trace| - 1]), trace[|trace| - 1]);
    }
  }

  // ---------- the cursor ----------

  /** The row whose cursor was written last for the peer. */
  function LastWriter(log: seq<Event>, p: nat): (r: Option<nat>)
    ensures r.Some? ==> exists j :: 0 <= j < |log| && log[j].Wrote? && log[j].row == r.value && log[j].peer == p
  {
    if log == [] then None
    else
      var last := log[|log| - 1];
      if last.Wrote? && last.peer == p then Some(last.row) else LastWriter(log[..|log| - 1], p)
  }

  /** The cursor of a peer is that of its last writer, or 0 if initialising was all that happened. */
  predicate CursorOk(s: State, p: nat) {
    match LastWriter(s.log, p)
    case None => p in s.cursors ==> s.cursors[p] == 0
    case Some(r) => r < |s.rows| && s.rows[r].peer == p && p in s.cursors && s.cursors[p] == s.rows[r].cursor
  }

  lemma LastWriterPush(log: seq<Event>, e: Event, p: nat)
    ensures LastWriter(log + [e], p) == if e.Wrote? && e.peer == p then Some(e.row) else LastWriter(log, p)
  {
    assert (log + [e])[..|log|] == log;
  }

  lemma StepKeepsCursor(v: Verify, s: State, a: Action, p: nat)
    requires Invariant(v, s) && CursorOk(s, p)
    ensures CursorOk(Step(v, s, a), p)
  {
    if a.OnCall? && a.call < |s.calls| {
      var c := s.calls[a.call];
      assert CallOk(v, s, a.call);
      var e := EventsOf(c, a.statement);
      if e == [] {
        assert s.log + e == s.log;
      } else {
        LastWriterPush(s.log, e[0], p);
        assert e == [e[0]] && RowOk(s, c.row.value);
      }
    }
  }

  lemma {:induction false} CursorReachable(v: Verify, trace: seq<Action>, p: nat)
    ensures CursorOk(Run(v, trace), p)
  {
    if trace != [] {
      CursorReachable(v, trace[..|trace| - 1], p);
      InvariantReachable(v, trace[..|trace| - 1]);
      StepKeepsCursor(v, Run(v, trace[..|trace| - 1]), trace[|trace| - 1], p);
    }
  }

  /** Over any interleaving of any number of calls, with any statement failing and any crash: a peer's
      cursor is 0 or the cursor of a recorded request of that peer which passed every check that applied
      to it, namely the request that wrote last; initialising never resets it. */
  lemma CursorTheorem(v: Verify, trace: seq<Action>, p: nat)
    requires p in Run(v, trace).cursors
    ensures
      var s := Run(v, trace);
      && (LastWriter(s.log, p).None? ==> s.cursors[p] == 0)
      && (LastWriter(s.log, p).Some? ==>
            exists r :: 0 <= r < |s.rows| && LastWriter(s.log, p) == Some(r) && s.rows[r].peer == p &&
                        s.rows[r].cursor == s.cursors[p] && s.rows[r].call < |s.calls| && Passed(v, s.calls[s.rows[r].call]))
  {
    InvariantReachable(v, trace);
    CursorReachable(v, trace, p);
    var s := Run(v, trace);
    if LastWriter(s.log, p).Some? {
      var j :| 0 <= j < |s.log| && s.log[j].Wrote? && s.log[j].row == LastWriter(s.log, p).value && s.log[j].peer == p;
      assert EventOk(v, s, j);
    }
  }

  /** A row leaves pending at most once; a verified row wrote its cursor before it was marked; a row that
      failed a check never wrote one; and a failed row did write one exactly when the failure was that of
      the verified mark itself. */
  lemma RowTheorem(v: Verify, trace: seq<Action>, r: nat)
    requires r < |Run(v, trace).rows|
    ensures
      var s := Run(v, trace);
      var row := s.rows[r];
      && row.call < |s.calls|
      && (forall j, k :: 0 <= j < k < |s.log| && s.log[j].Marked? && s.log[k].Marked? ==> s.log[j].row != s.log[k].row)
      && (row.status.Pending? <==> !HasMark(s.log, r))
      && (row.status.Verified? ==> Passed(v, s.calls[row.call]))
      && (row.status.Verified? ==>
            exists j, k :: 0 <= j < k < |s.log| && s.log[j] == Wrote(r, row.peer, row.cursor) && s.log[k] == Marked(r, Verified))
      && (!Passed(v, s.calls[row.call]) ==> !HasWrite(s.log, r))
      && (row.status.Failed? ==> (HasWrite(s.log, r) <==> row.error == Some(Thrown(AtVerified))))
  {
    InvariantReachable(v, trace);
    var s := Run(v, trace);
    assert RowOk(s, r);
    if HasWrite(s.log, r) {
      var j :| 0 <= j < |s.log| && s.log[j].Wrote? && s.log[j].row == r;
      assert EventOk(v, s, j);
    }
    if s.rows[r].status.Verified? {
      var k :| 0 <= k < |s.log| && s.log[k].Marked? && s.log[k].row == r;
      assert EventOk(v, s, k);
      var j :| 0 <= j < k && s.log[..k][j].Wrote? && s.log[..k][j].row == r;
      assert EventOk(v, s, j) && s.log[j] == Wrote(r, s.rows[r].peer, s.rows[r].cursor);
      assert s.log[k] == Marked(r, Verified);
    }
  }

  /** What a call that returned has told its caller is what its row says. */
  lemma ReturnTheorem(v: Verify, trace: seq<Action>, i: nat)
    requires i < |Run(v, trace).calls| && Run(v, trace).calls[i].phase.Returned?
    ensures
      var s := Run(v, trace);
      var c := s.calls[i];
      && c.row.Some? && c.row.value < |s.rows|
      && s.rows[c.row.value] == NewRow(c.request, i).(status := c.phase.status, error := s.rows[c.row.value].error)
      && (c.phase.status.Verified? || c.phase.status.Failed?)
      && (c.phase.status.Verified? ==> Passed(v, c) && HasWrite(s.log, c.row.value))
  {
    InvariantReachable(v, trace);
    var s := Run(v, trace);
    assert CallOk(v, s, i);
    RowTheorem(v, trace, s.calls[i].row.value);
    assert RowOk(s, s.calls[i].row.value);
  }

  /** In the fields of the request: if signature and key are present and not empty and verify refuses the
      signature over the root, or over the empty text without one, then no run writes the cursor of the
      request or verifies its row. */
  lemma RefusedSignatureNeverWrites(v: Verify, trace: seq<Action>, i: nat, r: nat)
    requires i < |Run(v, trace).calls| && r < |Run(v, trace).rows| && Run(v, trace).rows[r].call == i
    requires var q := Run(v, trace).calls[i].request;
             q.signature.Some? && q.signature.value != "" && q.key.Some? && q.key.value != "" &&
             !v(q.signature.value, if q.root.Some? then q.root.value else "", q.key.value)
    ensures var s := Run(v, trace);
            (forall j :: 0 <= j < |s.log| && s.log[j].Wrote? ==> s.log[j].row != r) && s.rows[r].status != Verified &&
            s.calls[i].phase != Returned(Verified)
  {
    var s := Run(v, trace);
    RowTheorem(v, trace, r);
    assert !Passed(v, s.calls[i]);
    if s.calls[i].phase.Returned? { ReturnTheorem(v, trace, i); }
  }

  /** The same for verifyAuditChain, when there is a root that is not empty. */
  lemma RefusedChainNeverWrites(v: Verify, trace: seq<Action>, i: nat, r: nat)
    requires i < |Run(v, trace).calls| && r < |Run(v, trace).rows| && Run(v, trace).rows[r].call == i
    requires var c := Run(v, trace).calls[i];
             c.request.root.Some? && c.request.root.value != "" && c.chain != Some(true)
    ensures var s := Run(v, trace);
            (forall j :: 0 <= j < |s.log| && s.log[j].Wrote? ==> s.log[j].row != r) && s.rows[r].status != Verified &&
            s.calls[i].phase != Returned(Verified)
  {
    var s := Run(v, trace);
    RowTheorem(v, trace, r);
    assert !Passed(v, s.calls[i]);
    if s.calls[i].phase.Returned? { ReturnTheorem(v, trace, i); }
  }

  predicate Unsigned(q: SyncRequest) {
    q.signature.None? || q.signature.value == "" || q.key.None? || q.key.value == ""
  }

  lemma {:induction false} RequestsWereStarted(v: Verify, trace: seq<Action>)
    requires forall a :: a in trace && a.Start? ==> Unsigned(a.request)
    ensures forall i :: 0 <= i < |Run(v, trace).calls| ==> Unsigned(Run(v, trace).calls[i].request)
  {
    if trace != [] {
      var n := |trace| - 1;
      RequestsWereStarted(v, trace[..n]);
      assert trace[n] in trace;
    }
  }

  /** Without a signature, or without a key, the verifier has no influence on any run. */
  lemma {:induction false} UnsignedNeedsNoVerifier(v: Verify, v': Verify, trace: seq<Action>)
    requires forall a :: a in trace && a.Start? ==> Unsigned(a.request)
    ensures Run(v, trace) == Run(v', trace)
  {
    if trace != [] {
      var n := |trace| - 1;
      var s, a := Run(v, trace[..n]), trace[n];
      UnsignedNeedsNoVerifier(v, v', trace[..n]);
      RequestsWereStarted(v, trace[..n]);
      InvariantReachable(v, trace[..n]);
      if a.OnCall? && a.call < |s.calls| {
        assert CallOk(v, s, a.call) && Unsigned(s.calls[a.call].request);
      }
    }
  }

  /** Cursors are not monotone. A step lowers one exactly when it is the cursor write of a request that
      carries a smaller cursor than the stored one. */
  lemma CursorDropsExactly(v: Verify, s: State, a: Action, p: nat)
    requires p in s.cursors
    ensures p in Step(v, s, a).cursors
    ensures Step(v, s, a).cursors[p] < s.cursors[p] <==>
              a.OnCall? && a.call < |s.calls| && a.statement.WriteCursor? && s.calls[a.call].phase.WritingCursor? &&
              s.calls[a.call].request.peer == p && s.calls[a.call].request.cursor < s.cursors[p]
  {}

  lemma RunPush(v: Verify, trace: seq<Action>, a: Action)
    ensures Run(v, trace + [a]) == Step(v, Run(v, trace), a)
  {
    assert (trace + [a])[..|trace|] == trace;
  }

  /** From any state, three more steps lower the cursor of a peer: a request without signature and root. */
  lemma CursorCanAlwaysDrop(v: Verify, s: State, p: nat)
    requires p in s.cursors
    ensures
      var i := |s.calls|;
      var started := Step(v, s, Start(SyncRequest(p, s.cursors[p] - 1, None, None, None)));
      Step(v, Step(v, started, OnCall(i, Record)), OnCall(i, WriteCursor)).cursors == s.cursors[p := s.cursors[p] - 1]
  {
    var q := SyncRequest(p, s.cursors[p] - 1, None, None, None);
    var recorded := Step(v, Step(v, s, Start(q)), OnCall(|s.calls|, Record));
    assert recorded.calls[|s.calls|] == Call(q, WritingCursor, Some(|s.rows|), None);
  }

  // ---------- the repository and the service ----------

  datatype Result = Ok(status: Status) | Error

  /** What happens at the k-th await of a call: the steps of everybody else, whether the awaited operation
      throws, and what verifyAuditChain answers. */
  datatype World = World(env: nat -> seq<Action>, fails: nat -> bool, chain: bool)

  ghost predicate Quiet(w: World) { forall k :: w.env(k) == [] && !w.fails(k) }

  /** The checks that apply pass. */
  predicate Accepts(v: Verify, q: SyncRequest, chain: bool) {
    (SignatureApplies(q) ==> SignatureValid(v, q)) && (ChainApplies(q) ==> chain)
  }

  function RejectionOf(v: Verify, q: SyncRequest): Cause {
    if SignatureApplies(q) && !SignatureValid(v, q) then BadSignature else BadChain
  }

  class FederationRepository {
    const verify: Verify
    var rows: seq<SyncRow>
    var cursors: map<nat, int>
    var calls: seq<Call>
    var log: seq<Event>
    ghost var trace: seq<Action>

    ghost function Now(): State reads this { State(rows, cursors, calls, log) }

    ghost predicate Valid() reads this { Now() == Run(verify, trace) }

    constructor (verify: Verify)
      ensures Valid() && rows == [] && cursors == map[] && calls == []
    {
      this.verify := verify;
      rows, cursors, calls, log, trace := [], map[], [], [], [];
    }

    /** Everybody else, up to the next turn of call i. */
    method Others(env: seq<Action>, i: nat)
      requires Valid() && i < |calls|
      modifies this
      ensures Valid() && old(trace) <= trace && i < |calls| && calls[i] == old(calls)[i] && |old(rows)| <= |rows|
      ensures env == [] ==> Now() == old(Now())
    {
      for k := 0 to |env|
        invariant Valid() && old(trace) <= trace && i < |calls| && calls[i] == old(calls)[i] && |old(rows)| <= |rows|
        invariant k == 0 ==> Now() == old(Now())
      {
        var a := env[k];
        if !(a.OnCall? && a.call == i) {
          Perform(a);
        }
      }
    }

    method Perform(a: Action)
      requires Valid()
      modifies this
      ensures Valid() && trace == old(trace) + [a] && Now() == Step(verify, old(Now()), a)
    {
      RunPush(verify, trace, a);
      var s := Step(verify, State(rows, cursors, calls, log), a);
      rows, cursors, calls, log := s.rows, s.cursors, s.calls, s.log;
      trace := trace + [a];
    }

    /** Up to the point where the awaited operation takes effect, or where it throws without one. */
    method Turn(i: nat, w: World, k: nat) returns (threw: bool)
      requires Valid() && i < |calls|
      modifies this
      ensures Valid() && old(trace) <= trace && i < |calls| && threw == w.fails(k) && |old(rows)| <= |rows|
      ensures calls[i] == if threw then old(calls)[i].(phase := AfterThrow(old(calls)[i].phase)) else old(calls)[i]
      ensures w.env(k) == [] && !threw ==> Now() == old(Now())
    {
      Others(w.env(k), i);
      threw := w.fails(k);
      if threw {
        Perform(OnCall(i, Fail));
      }
    }

    /** An awaited check. */
    method Await(i: nat, x: Statement, w: World, k: nat) returns (threw: bool)
      requires Valid() && i < |calls| && (x.VerifySignature? || x.VerifyChain?)
      modifies this
      ensures Valid() && old(trace) <= trace && i < |calls| && threw == w.fails(k) && |old(rows)| <= |rows|
      ensures calls[i] == Moved(verify, INIT, old(calls)[i], if threw then Fail else x)
      ensures w.env(k) == [] && !threw ==> rows == old(rows) && cursors == old(cursors)
    {
      threw := Turn(i, w, k);
      if !threw {
        Perform(OnCall(i, x));
      }
    }

    method RecordPeerSync(i: nat, request: SyncRequest, w: World, k: nat) returns (threw: bool, syncId: nat)
      requires Valid() && i < |calls| && calls[i] == Call(request, Recording, None, None)
      modifies this
      ensures Valid() && old(trace) <= trace && i < |calls| && threw == w.fails(k) && |old(rows)| <= |rows|
      ensures calls[i] == if threw then Call(request, Threw, None, None) else Call(request, AfterRecord(request), Some(syncId), None)
      ensures !threw ==> syncId < |rows|
      ensures w.env(k) == [] && !threw ==>
                syncId < |rows| &&
                (rows[syncId].root == if request.root.Some? && request.root.value != "" then request.root else None) &&
                rows[syncId].signature == (if request.signature.Some? && request.signature.value != "" then request.signature else None)
      ensures w.env(k) == [] && !threw ==>
                syncId == |old(rows)| && cursors == old(cursors) &&
                rows == old(rows) + [SyncRow(request.peer, request.cursor, OrNull(request.root), OrNull(request.signature), Pending, None, i)]
    {
      threw := Turn(i, w, k);
      syncId := |rows|;
      if !threw {
        RunPush(verify, trace, OnCall(i, Record));
        rows := rows + [SyncRow(request.peer, request.cursor, OrNull(request.root), OrNull(request.signature), Pending, None, i)];
        calls := calls[i := calls[i].(phase := AfterRecord(request), row := Some(syncId))];
        trace := trace + [OnCall(i, Record)];
        assert log + EventsOf(Call(request, Recording, None, None), Record) == log;
      }
    }

    method UpdateSyncCursor(i: nat, nodeId: nat, cursor: int, w: World, k: nat) returns (threw: bool)
      requires Valid() && i < |calls| && calls[i].phase.WritingCursor? && calls[i].row.Some?
      requires calls[i].request.peer == nodeId && calls[i].request.cursor == cursor
      modifies this
      ensures Valid() && old(trace) <= trace && i < |calls| && threw == w.fails(k) && |old(rows)| <= |rows|
      ensures calls[i] == old(calls)[i].(phase := if threw then Catching(Thrown(AtCursor)) else MarkingVerified)
      ensures !threw ==> nodeId in cursors && cursors[nodeId] == cursor
      ensures w.env(k) == [] && !threw ==> rows == old(rows) && cursors == old(cursors)[nodeId := cursor]
    {
      threw := Turn(i, w, k);
      if !threw {
        RunPush(verify, trace, OnCall(i, WriteCursor));
        cursors := cursors[nodeId := cursor];
        log := log + [Wrote(calls[i].row.value, nodeId, cursor)];
        calls := calls[i := calls[i].(phase := MarkingVerified)];
        trace := trace + [OnCall(i, WriteCursor)];
      }
    }

    method MarkPeerSyncVerified(i: nat, syncId: nat, w: World, k: nat) returns (threw: bool)
      requires Valid() && i < |calls| && calls[i].phase.MarkingVerified? && calls[i].row == Some(syncId) && syncId < |rows|
      modifies this
      ensures Valid() && old(trace) <= trace && i < |calls| && threw == w.fails(k) && |old(rows)| <= |rows|
      ensures calls[i] == old(calls)[i].(phase := if threw then Catching(Thrown(AtVerified)) else Returned(Verified))
      ensures w.env(k) == [] && !threw ==>
                cursors == old(cursors) && rows == old(rows)[syncId := old(rows)[syncId].(status := Verified)]
    {
      threw := Turn(i, w, k);
      if !threw {
        RunPush(verify, trace, OnCall(i, MarkVerified));
        rows := rows[syncId := rows[syncId].(status := Verified)];
        log := log + [Marked(syncId, Verified)];
        calls := calls[i := calls[i].(phase := Returned(Verified))];
        trace := trace + [OnCall(i, MarkVerified)];
      }
    }

    method MarkPeerSyncFailed(i: nat, syncId: nat, error: Cause, w: World, k: nat) returns (threw: bool)
      requires Valid() && i < |calls| && calls[i].row == Some(syncId) && syncId < |rows|
      requires calls[i].phase == Rejecting(error) || calls[i].phase == Catching(error)
      modifies this
      ensures Valid() && old(trace) <= trace && i < |calls| && threw == w.fails(k) && |old(rows)| <= |rows|
      ensures calls[i] == old(calls)[i].(phase := if old(calls)[i].phase.Catching? then Threw
                                                  else if threw then Catching(Thrown(AtFailed)) else Returned(Failed))
      ensures w.env(k) == [] && !threw ==>
                cursors == old(cursors) && rows == old(rows)[syncId := old(rows)[syncId].(status := Failed, error := Some(error))]
    {
      threw := Turn(i, w, k);
      if !threw {
        RunPush(verify, trace, OnCall(i, MarkFailed));
        rows := rows[syncId := rows[syncId].(status := Failed, error := Some(error))];
        log := log + [Marked(syncId, Failed)];
        calls := calls[i := calls[i].(phase := if calls[i].phase.Rejecting? then Returned(Failed) else Threw)];
        trace := trace + [OnCall(i, MarkFailed)];
      }
    }

    /** INSERT ... ON CONFLICT DO UPDATE SET updated_at, RETURNING *: the cursor the table then holds. */
    method InitializeFederationState(nodeId: nat) returns (cursor: int)
      requires Valid()
      modifies this
      ensures Valid() && trace == old(trace) + [Initialize(nodeId)]
      ensures cursors == if nodeId in old(cursors) then old(cursors) else old(cursors)[nodeId := 0]
      ensures cursor == cursors[nodeId] && rows == old(rows)
    {
      RunPush(verify, trace, Initialize(nodeId));
      if nodeId !in cursors {
        cursors := cursors[nodeId := 0];
      }
      trace := trace + [Initialize(nodeId)];
      cursor := cursors[nodeId];
    }
  }

  class FederationService {
    const repo: FederationRepository

    constructor (repo: FederationRepository)
      ensures this.repo == repo
    {
      this.repo := repo;
    }

    /** Whatever interferes or throws, the outcome told to the caller is that of the row; undisturbed, the
        call adds one row, verified together with the cursor write exactly when the checks that apply pass. */
    method SyncFromPeer(request: SyncRequest, w: World) returns (r: Result)
      requires repo.Valid()
      modifies repo
      ensures repo.Valid() && old(repo.trace) <= repo.trace
      ensures
        var i := |old(repo.calls)|;
        && i < |repo.calls| && repo.calls[i].request == request
        && repo.calls[i].phase == (if r.Ok? then Returned(r.status) else Threw)
        && (r.Ok? ==> repo.calls[i].row.Some? && repo.calls[i].row.value < |repo.rows| &&
                      repo.rows[repo.calls[i].row.value].status == r.status && !r.status.Pending?)
        && (r == Ok(Verified) ==> Passed(repo.verify, repo.calls[i]))
      ensures Quiet(w) ==>
                var signed := request.signature.Some? && request.signature.value != "" && request.key.Some? && request.key.value != "";
                var root := if request.root.Some? then request.root.value else "";
                var n := |old(repo.rows)|;
                if signed && !repo.verify(request.signature.value, root, request.key.value) then
                  r == Ok(Failed) && repo.cursors == old(repo.cursors) &&
                  n < |repo.rows| && repo.rows[n].status == Failed && repo.rows[n].error == Some(BadSignature)
                else if root != "" && !w.chain then
                  r == Ok(Failed) && repo.cursors == old(repo.cursors) &&
                  n < |repo.rows| && repo.rows[n].status == Failed && repo.rows[n].error == Some(BadChain)
                else
                  r == Ok(Verified) && repo.cursors == old(repo.cursors)[request.peer := request.cursor] &&
                  n < |repo.rows| && repo.rows[n].status == Verified && repo.rows[n].error == None
      ensures Quiet(w) ==>
                if Accepts(repo.verify, request, w.chain) then
                  && r == Ok(Verified)
                  && repo.rows == old(repo.rows) + [NewRow(request, |old(repo.calls)|).(status := Verified)]
                  && repo.cursors == old(repo.cursors)[request.peer := request.cursor]
                else
                  && r == Ok(Failed)
                  && repo.rows == old(repo.rows) +
                                  [NewRow(request, |old(repo.calls)|).(status := Failed, error := Some(RejectionOf(repo.verify, request)))]
                  && repo.cursors == old(repo.cursors)
    {
      var i := |repo.calls|;
      repo.Perform(Start(request));
      var threw, syncId := repo.RecordPeerSync(i, request, w, 0);
      if threw {
        return Error;
      }
      threw := Process(i, request, syncId, w);
      if threw {
        var again := repo.MarkPeerSyncFailed(i, syncId, repo.calls[i].phase.cause, w, 5);
        r := Error;
      } else {
        r := Ok(repo.calls[i].phase.status);
        ReturnTheorem(repo.verify, repo.trace, i);
      }
    }

    /** The body of the try block; on a throw control is at the catch block. */
    method Process(i: nat, request: SyncRequest, syncId: nat, w: World) returns (threw: bool)
      requires repo.Valid() && i < |repo.calls| && syncId < |repo.rows|
      requires repo.calls[i] == Call(request, AfterRecord(request), Some(syncId), None)
      modifies repo
      ensures repo.Valid() && old(repo.trace) <= repo.trace && i < |repo.calls|
      ensures repo.calls[i].request == request && repo.calls[i].row == Some(syncId) && syncId < |repo.rows|
      ensures if threw then repo.calls[i].phase.Catching? else repo.calls[i].phase.Returned?
      ensures Quiet(w) ==> !threw
      ensures Quiet(w) && Accepts(repo.verify, request, w.chain) ==>
                repo.calls[i].phase == Returned(Verified) &&
                repo.rows == old(repo.rows)[syncId := old(repo.rows)[syncId].(status := Verified)] &&
                repo.cursors == old(repo.cursors)[request.peer := request.cursor]
      ensures Quiet(w) && !Accepts(repo.verify, request, w.chain) ==>
                repo.calls[i].phase == Returned(Failed) && repo.cursors == old(repo.cursors) &&
                repo.rows == old(repo.rows)[syncId := old(repo.rows)[syncId].(status := Failed, error := Some(RejectionOf(repo.verify, request)))]
    {
      if Truthy(request.signature) && Truthy(request.key) {
        threw := repo.Await(i, VerifySignature, w, 1);
        if threw { return; }
        if !repo.verify(Text(request.signature), Text(request.root), Text(request.key)) {
          threw := repo.MarkPeerSyncFailed(i, syncId, BadSignature, w, 2);
          return;
        }
      }
      if Truthy(request.root) {
        threw := repo.Await(i, VerifyChain(w.chain), w, 2);
        if threw { return; }
        if !w.chain {
          threw := repo.MarkPeerSyncFailed(i, syncId, BadChain, w, 3);
          return;
        }
      }
      threw := WriteCursorAndMark(i, request, syncId, w);
    }

    /** The end of the try block, once the checks have passed. */
    method WriteCursorAndMark(i: nat, request: SyncRequest, syncId: nat, w: World) returns (threw: bool)
      requires repo.Valid() && i < |repo.calls| && syncId < |repo.rows|
      requires repo.calls[i].request == request && repo.calls[i].phase.WritingCursor? && repo.calls[i].row == Some(syncId)
      modifies repo
      ensures repo.Valid() && old(repo.trace) <= repo.trace && i < |repo.calls|
      ensures repo.calls[i].request == request && repo.calls[i].row == Some(syncId) && syncId < |repo.rows|
      ensures if threw then repo.calls[i].phase.Catching? else repo.calls[i].phase == Returned(Verified)
      ensures Quiet(w) ==>
                !threw && repo.cursors == old(repo.cursors)[request.peer := request.cursor] &&
                repo.rows == old(repo.rows)[syncId := old(repo.rows)[syncId].(status := Verified)]
    {
      threw := repo.UpdateSyncCursor(i, request.peer, request.cursor, w, 3);
      if !threw {
        threw := repo.MarkPeerSyncVerified(i, syncId, w, 4);
      }
    }
  }
}

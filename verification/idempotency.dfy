/** `resolveIdempotency` and its middleware as three separate database steps per call, interleaved freely. */
module Idempotency {
  import opened Options
  import opened Responses
  import opened ResponseCapture

  type CallId = nat

  /** 24 hours, in milliseconds. */
  const TTL: int := 86400000

  /** The columns of the unique index. */
  datatype Slot = Slot(scopeKey: string, idempotencyKey: string)

  datatype Ask = Ask(slot: Slot, requestHash: string, verb: string, route: string)

  datatype Status = Processing | Completed(response: Response)

  /** A row of idempotency_keys. Its id is that of the call that inserted it. */
  datatype Record = Record(id: CallId, requestHash: string, verb: string, route: string, status: Status, expiresAt: int)

  type Table = map<Slot, Record>

  datatype Resolution =
    | New
    | Replay(response: Response)
    | Conflict
    | InProgress
    | UniqueViolation

  function BuildScopeKey(userId: Option<string>, ip: Option<string>): string {
    if userId.Some? && userId.value != "" then "user:" + userId.value
    else "ip:" + (if ip.Some? then ip.value else "unknown")
  }

  function FindActive(table: Table, slot: Slot, at: int): Option<Record> {
    if slot in table && table[slot].expiresAt > at then Some(table[slot]) else None
  }

  function Judge(codec: Codec, record: Record, requestHash: string, form: Form): Resolution {
    if record.requestHash != requestHash then Conflict
    else if record.status.Processing? then InProgress
    else
      var r := record.status.response;
      Replay(Response(r.status, ReplayBody(codec, ReadBack(codec, form, r.body))))
  }

  function FreshRecord(call: CallId, ask: Ask, at: int): Record {
    Record(call, ask.requestHash, ask.verb, ask.route, Processing, at + TTL)
  }

  /** `UPDATE ... WHERE id = recordId`. */
  function CompleteById(table: Table, id: CallId, response: Response): Table {
    map slot | slot in table ::
      if table[slot].id == id then table[slot].(status := Completed(response)) else table[slot]
  }

  /** One indivisible get-or-insert, reading the clock once. */
  function AtomicResolve(table: Table, call: CallId, ask: Ask, at: int): (Table, Resolution) {
    if ask.slot !in table then (table[ask.slot := FreshRecord(call, ask, at)], New)
    else
      var record := table[ask.slot];
      if record.expiresAt <= at then (table, UniqueViolation)
      else if record.requestHash != ask.requestHash then (table, Conflict)
      else if record.status.Processing? then (table, InProgress)
      else (table, Replay(record.status.response))
  }

  datatype Phase =
    | Finding
    | Inserting
    | FindingAgain
    | Handling
    | Captured(response: Response)
    | Stored(response: Response)
    | Answered(resolution: Resolution)

  /** The response object as wrapped by the middleware. `events` is a history variable. */
  datatype Wrapped = Wrapped(statusCode: nat, responseCaptured: bool, events: seq<ResponseEvent>)

  /** `since` is the last time the call read the clock, or its arrival. */
  datatype Call = Call(ask: Ask, arrivedAt: int, since: int, phase: Phase, res: Wrapped)

  /** What happened to the table, in order. */
  datatype Event =
    | Resolved(call: CallId, ask: Ask, at: int, resolution: Resolution)
    | Recorded(call: CallId, response: Response)

  /** `history` is a history variable. */
  datatype State = State(codec: Codec, table: Table, clock: int, calls: map<CallId, Call>, history: seq<Event>)

  datatype Action =
    | Arrive(call: CallId, ask: Ask)
    | Tick(now: int)
    | Find(call: CallId, at: int, form: Form)
    | Insert(call: CallId, at: int)
    | FindAgain(call: CallId, at: int, form: Form)
    | Emit(call: CallId, event: ResponseEvent)
    | Persist(call: CallId)

  function Initial(codec: Codec, clock: int): State {
    State(codec, map[], clock, map[], [])
  }

  /** A call may read the clock any time between its last step and the step that uses the reading. */
  predicate MayRead(s: State, call: CallId, at: int)
    requires call in s.calls
  {
    s.calls[call].since <= at <= s.clock
  }

  predicate Enabled(s: State, a: Action) {
    match a
    case Arrive(c, _) => c !in s.calls
    case Tick(now) => s.clock <= now
    case Find(c, at, _) => c in s.calls && s.calls[c].phase.Finding? && MayRead(s, c, at)
    case Insert(c, at) => c in s.calls && s.calls[c].phase.Inserting? && MayRead(s, c, at)
    case FindAgain(c, at, _) => c in s.calls && s.calls[c].phase.FindingAgain? && MayRead(s, c, at)
    case Emit(c, _) => c in s.calls && Admitted(s.calls[c])
    case Persist(c) => c in s.calls && s.calls[c].phase.Captured?
  }

  function WithPhase(s: State, c: CallId, since: int, phase: Phase): State
    requires c in s.calls
  {
    s.(calls := s.calls[c := s.calls[c].(since := since, phase := phase)])
  }

  function Answer(s: State, c: CallId, at: int, r: Resolution): State
    requires c in s.calls
  {
    WithPhase(s, c, at, Answered(r)).(history := s.history + [Resolved(c, s.calls[c].ask, at, r)])
  }

  /** The insert succeeded: the handler may run. */
  function Admit(s: State, c: CallId, at: int): State
    requires c in s.calls
  {
    var ask := s.calls[c].ask;
    WithPhase(s, c, at, Handling).(
      table := s.table[ask.slot := FreshRecord(c, ask, at)],
      history := s.history + [Resolved(c, ask, at, New)])
  }

  /** What an event of the handler or the framework records now. */
  function Captures(c: Call, e: ResponseEvent): Option<Response> {
    if c.res.responseCaptured then None else Attempt(c.res.statusCode, e)
  }

  /** The wrapped `res.status`, `res.json` and `finish`: `captureResponse` starts to complete the record unless the flag
      says that it did before. */
  function AfterEvent(c: Call, e: ResponseEvent): Call {
    var captured := Captures(c, e);
    c.(res := Wrapped(if e.SetStatus? then e.code else c.res.statusCode,
                      c.res.responseCaptured || captured.Some?,
                      c.res.events + [e]),
       phase := if captured.Some? then Captured(captured.value) else c.phase)
  }

  function Apply(s: State, a: Action): State
    requires Enabled(s, a)
  {
    match a
    case Arrive(c, ask) => s.(calls := s.calls[c := Call(ask, s.clock, s.clock, Finding, Wrapped(200, false, []))])
    case Tick(now) => s.(clock := now)
    case Find(c, at, form) =>
      var ask := s.calls[c].ask;
      var existing := FindActive(s.table, ask.slot, at);
      if existing.Some? then Answer(s, c, at, Judge(s.codec, existing.value, ask.requestHash, form))
      else WithPhase(s, c, at, Inserting)
    case Insert(c, at) =>
      var ask := s.calls[c].ask;
      if ask.slot in s.table then WithPhase(s, c, at, FindingAgain) else Admit(s, c, at)
    case FindAgain(c, at, form) =>
      var ask := s.calls[c].ask;
      var raced := FindActive(s.table, ask.slot, at);
      Answer(s, c, at, if raced.Some? then Judge(s.codec, raced.value, ask.requestHash, form) else UniqueViolation)
    case Emit(c, e) => s.(calls := s.calls[c := AfterEvent(s.calls[c], e)])
    case Persist(c) =>
      var response := s.calls[c].phase.response;
      WithPhase(s, c, s.calls[c].since, Stored(response)).(
        table := CompleteById(s.table, c, response),
        history := s.history + [Recorded(c, response)])
  }

  predicate Admissible(s: State, actions: seq<Action>)
    decreases |actions|, 0
  {
    actions != [] ==>
      var front := actions[..|actions| - 1];
      Admissible(s, front) && Enabled(Execute(s, front), actions[|actions| - 1])
  }

  function Execute(s: State, actions: seq<Action>): State
    requires Admissible(s, actions)
    decreases |actions|, 1
  {
    if actions == [] then s else Apply(Execute(s, actions[..|actions| - 1]), actions[|actions| - 1])
  }

  // ---- Invariant

  predicate HasResponse(phase: Phase) {
    phase.Captured? || phase.Stored?
  }

  /** The response being recorded is the first captured one, and the flag says whether there is one. */
  predicate WrapInv(c: Call) {
    && c.res.statusCode == StatusAfter(c.res.events)
    && c.res.responseCaptured == HasResponse(c.phase)
    && FirstCapture(c.res.events) == if HasResponse(c.phase) then Some(c.phase.response) else None
  }

  predicate Admitted(c: Call) {
    c.phase.Handling? || c.phase.Captured? || c.phase.Stored?
  }

  /** What the table says about a call. */
  predicate CallInv(table: Table, id: CallId, c: Call) {
    && (c.phase.FindingAgain? ==> c.ask.slot in table)
    && (Admitted(c) ==>
          && c.ask.slot in table
          && table[c.ask.slot].id == id
          && table[c.ask.slot].requestHash == c.ask.requestHash
          && table[c.ask.slot].status == if c.phase.Stored? then Completed(c.phase.response) else Processing)
    && (c.phase.Answered? ==> c.phase.resolution != New)
    && (c.phase.Answered? && c.phase.resolution.Replay? ==>
          && c.ask.slot in table
          && table[c.ask.slot].requestHash == c.ask.requestHash
          && table[c.ask.slot].status == Completed(c.phase.resolution.response))
  }

  ghost predicate Inv(s: State) {
    && Lawful(s.codec)
    && (forall id :: id in s.calls ==> CallInv(s.table, id, s.calls[id]))
    && (forall id :: id in s.calls ==> WrapInv(s.calls[id]))
    && (forall slot :: slot in s.table ==>
          var id := s.table[slot].id;
          id in s.calls && s.calls[id].ask.slot == slot && Admitted(s.calls[id]))
  }

  /** Rows are never removed; a completed row never changes, and only its status ever does. */
  ghost predicate Evolves(before: Table, after: Table) {
    forall slot :: slot in before ==>
      && slot in after
      && after[slot].(status := before[slot].status) == before[slot]
      && (before[slot].status.Completed? ==> after[slot] == before[slot])
  }

  lemma {:induction false} JudgeIsAtomic(s: State, c: CallId, at: int, form: Form)
    requires Lawful(s.codec) && c in s.calls && FindActive(s.table, s.calls[c].ask.slot, at).Some?
    ensures var ask := s.calls[c].ask;
      AtomicResolve(s.table, c, ask, at) == (s.table, Judge(s.codec, s.table[ask.slot], ask.requestHash, form))
  {
    var record := s.table[s.calls[c].ask.slot];
    if record.status.Completed? {
      assert s.codec.parse(s.codec.stringify(record.status.response.body)) == record.status.response.body;
    }
  }

  lemma {:induction false} AnswerKeepsInv(s: State, c: CallId, at: int, r: Resolution)
    requires Inv(s) && c in s.calls && !Admitted(s.calls[c])
    requires AtomicResolve(s.table, c, s.calls[c].ask, at) == (s.table, r) && r != New
    ensures Inv(Answer(s, c, at, r))
  {
  }

  lemma {:induction false} InsertKeepsInv(s: State, c: CallId, at: int)
    requires Inv(s) && Enabled(s, Insert(c, at))
    ensures Inv(Apply(s, Insert(c, at)))
  {
    var s', ask := Apply(s, Insert(c, at)), s.calls[c].ask;
    forall id | id in s'.calls
      ensures CallInv(s'.table, id, s'.calls[id])
    {
      if id != c {
        assert CallInv(s.table, id, s.calls[id]);
      }
    }
  }

  lemma {:induction false} PersistTouchesOneRow(s: State, c: CallId, response: Response, slot: Slot)
    requires Inv(s) && c in s.calls && Admitted(s.calls[c]) && slot in s.table
    ensures CompleteById(s.table, c, response)[slot] ==
      if slot == s.calls[c].ask.slot then s.table[slot].(status := Completed(response)) else s.table[slot]
  {
  }

  lemma {:induction false} PersistKeepsInv(s: State, c: CallId)
    requires Inv(s) && Enabled(s, Persist(c))
    ensures Inv(Apply(s, Persist(c)))
  {
    var s', response := Apply(s, Persist(c)), s.calls[c].phase.response;
    forall slot | slot in s.table
      ensures s'.table[slot] ==
        if slot == s.calls[c].ask.slot then s.table[slot].(status := Completed(response)) else s.table[slot]
    {
      PersistTouchesOneRow(s, c, response, slot);
    }
    assert CallInv(s.table, c, s.calls[c]);
    forall id | id in s'.calls
      ensures CallInv(s'.table, id, s'.calls[id])
    {
      assert CallInv(s.table, id, s.calls[id]);
    }
  }

  lemma {:induction false} EmitKeepsInv(s: State, c: CallId, e: ResponseEvent)
    requires Inv(s) && Enabled(s, Emit(c, e))
    ensures Inv(Apply(s, Emit(c, e)))
  {
    var call, s' := s.calls[c], Apply(s, Emit(c, e));
    CaptureOneMore(call.res.events, e);
    assert CallInv(s.table, c, call) && WrapInv(call);
    forall id | id in s'.calls
      ensures CallInv(s'.table, id, s'.calls[id]) && WrapInv(s'.calls[id])
    {
      assert CallInv(s.table, id, s.calls[id]) && WrapInv(s.calls[id]);
    }
  }

  lemma {:induction false} StepKeepsInv(s: State, a: Action)
    requires Inv(s) && Enabled(s, a)
    ensures Inv(Apply(s, a))
  {
    match a
    case Arrive(_, _) =>
    case Tick(_) =>
    case Find(c, at, form) =>
      if FindActive(s.table, s.calls[c].ask.slot, at).Some? {
        JudgeIsAtomic(s, c, at, form);
        AnswerKeepsInv(s, c, at, Judge(s.codec, s.table[s.calls[c].ask.slot], s.calls[c].ask.requestHash, form));
      }
    case Insert(c, at) => InsertKeepsInv(s, c, at);
    case FindAgain(c, at, form) =>
      if FindActive(s.table, s.calls[c].ask.slot, at).Some? {
        JudgeIsAtomic(s, c, at, form);
        AnswerKeepsInv(s, c, at, Judge(s.codec, s.table[s.calls[c].ask.slot], s.calls[c].ask.requestHash, form));
      } else {
        AnswerKeepsInv(s, c, at, UniqueViolation);
      }
    case Emit(c, e) => EmitKeepsInv(s, c, e);
    case Persist(c) => PersistKeepsInv(s, c);
  }

  // ---- Linearizability

  function ApplyEvent(table: Table, e: Event): Table {
    match e
    case Resolved(c, ask, at, _) => AtomicResolve(table, c, ask, at).0
    case Recorded(c, response) => CompleteById(table, c, response)
  }

  /** The table after the indivisible events of a history. */
  function Fold(history: seq<Event>): Table {
    if history == [] then map[] else ApplyEvent(Fold(history[..|history| - 1]), history[|history| - 1])
  }

  ghost predicate Explains(history: seq<Event>) {
    forall i :: 0 <= i < |history| && history[i].Resolved? ==>
      history[i].resolution == AtomicResolve(Fold(history[..i]), history[i].call, history[i].ask, history[i].at).1
  }

  /** The answer a call got, if it already took effect. */
  function ResultOf(c: Call): Option<Resolution> {
    if Admitted(c) then Some(New) else if c.phase.Answered? then Some(c.phase.resolution) else None
  }

  /** The history holds one event per call that took effect, with the answer it got and a clock reading from within the
      call. */
  ghost predicate HistoryComplete(s: State) {
    && (forall i :: 0 <= i < |s.history| ==> s.history[i].call in s.calls)
    && (forall i :: 0 <= i < |s.history| && s.history[i].Resolved? ==>
          var c := s.calls[s.history[i].call];
          && ResultOf(c) == Some(s.history[i].resolution)
          && c.ask == s.history[i].ask
          && c.arrivedAt <= s.history[i].at <= s.clock)
    && (forall i, j :: 0 <= i < j < |s.history| && s.history[i].Resolved? && s.history[j].Resolved? ==>
          s.history[i].call != s.history[j].call)
    && (forall c :: c in s.calls && ResultOf(s.calls[c]).Some? ==>
          exists i :: 0 <= i < |s.history| && s.history[i].Resolved? && s.history[i].call == c)
    && (forall c :: c in s.calls ==> s.calls[c].arrivedAt <= s.calls[c].since <= s.clock)
  }

  /** The history lists each recorded response once. */
  ghost predicate RecordedOnce(s: State) {
    && (forall i :: 0 <= i < |s.history| && s.history[i].Recorded? ==>
          s.history[i].call in s.calls && s.calls[s.history[i].call].phase == Stored(s.history[i].response))
    && (forall i, j :: 0 <= i < j < |s.history| && s.history[i].Recorded? && s.history[j].Recorded? ==>
          s.history[i].call != s.history[j].call)
  }

  ghost predicate Linearized(s: State) {
    s.table == Fold(s.history) && Explains(s.history) && HistoryComplete(s) && RecordedOnce(s)
  }

  /** A step that records nothing and leaves the recorded calls alone. */
  lemma {:induction false} RecordedStays(s: State, s': State, c: CallId)
    requires RecordedOnce(s)
    requires c in s.calls ==> !s.calls[c].phase.Stored? || (c in s'.calls && s'.calls[c].phase == s.calls[c].phase)
    requires forall d :: d in s.calls && d != c ==> d in s'.calls && s'.calls[d] == s.calls[d]
    requires s'.history == s.history
      || exists e: Event :: e.Resolved? && s'.history == s.history + [e]
    ensures RecordedOnce(s')
  {
  }

  lemma {:induction false} RecordedOneMore(s: State, c: CallId)
    requires RecordedOnce(s) && Enabled(s, Persist(c))
    ensures RecordedOnce(Apply(s, Persist(c)))
  {
  }

  lemma {:induction false} ExtendHistory(history: seq<Event>, e: Event)
    requires Explains(history)
    requires e.Resolved? ==> e.resolution == AtomicResolve(Fold(history), e.call, e.ask, e.at).1
    ensures Explains(history + [e]) && Fold(history + [e]) == ApplyEvent(Fold(history), e)
  {
    var h := history + [e];
    assert h[..|history|] == history;
    forall i | 0 <= i < |h| && h[i].Resolved?
      ensures h[i].resolution == AtomicResolve(Fold(h[..i]), h[i].call, h[i].ask, h[i].at).1
    {
      if i < |history| {
        assert h[..i] == history[..i];
      }
    }
  }

  lemma {:induction false} ResolveOneMore(s: State, s': State, c: CallId, at: int, r: Resolution)
    requires HistoryComplete(s) && c in s.calls && ResultOf(s.calls[c]).None? && MayRead(s, c, at)
    requires c in s'.calls && ResultOf(s'.calls[c]) == Some(r)
    requires s'.calls == s.calls[c := s.calls[c].(since := at, phase := s'.calls[c].phase)] && s'.clock == s.clock
    requires s'.history == s.history + [Resolved(c, s.calls[c].ask, at, r)]
    ensures HistoryComplete(s')
  {
    var n := |s.history|;
    assert s'.history[n].call == c;
    forall d | d in s'.calls && ResultOf(s'.calls[d]).Some?
      ensures exists i :: 0 <= i < |s'.history| && s'.history[i].Resolved? && s'.history[i].call == d
    {
      if d != c {
        assert ResultOf(s.calls[d]).Some?;
        var i :| 0 <= i < n && s.history[i].Resolved? && s.history[i].call == d;
        assert s'.history[i].call == d;
      }
    }
  }

  /** A step that leaves the answers alone. */
  lemma {:induction false} QuietPhase(s: State, c: CallId, since: int, phase: Phase)
    requires HistoryComplete(s) && c in s.calls && MayRead(s, c, since)
    requires ResultOf(s.calls[c].(phase := phase)) == ResultOf(s.calls[c])
    ensures HistoryComplete(WithPhase(s, c, since, phase))
  {
    var s' := WithPhase(s, c, since, phase);
    forall d | d in s'.calls && ResultOf(s'.calls[d]).Some?
      ensures exists i :: 0 <= i < |s'.history| && s'.history[i].Resolved? && s'.history[i].call == d
    {
      assert ResultOf(s.calls[d]).Some?;
    }
  }

  lemma {:induction false} AnswerCompletes(s: State, c: CallId, at: int, r: Resolution)
    requires HistoryComplete(s) && c in s.calls && ResultOf(s.calls[c]).None? && MayRead(s, c, at)
    ensures HistoryComplete(Answer(s, c, at, r))
  {
    ResolveOneMore(s, Answer(s, c, at, r), c, at, r);
  }

  lemma {:induction false} AnswerRecordsNothing(s: State, c: CallId, at: int, r: Resolution)
    requires RecordedOnce(s) && c in s.calls && ResultOf(s.calls[c]).None?
    ensures RecordedOnce(Answer(s, c, at, r))
  {
    RecordedStays(s, Answer(s, c, at, r), c);
  }

  lemma {:induction false} AnswerIsLinearized(s: State, c: CallId, at: int, r: Resolution)
    requires Linearized(s) && c in s.calls && ResultOf(s.calls[c]).None? && MayRead(s, c, at)
    requires AtomicResolve(s.table, c, s.calls[c].ask, at) == (s.table, r)
    ensures Linearized(Answer(s, c, at, r))
  {
    ExtendHistory(s.history, Resolved(c, s.calls[c].ask, at, r));
    AnswerCompletes(s, c, at, r);
    AnswerRecordsNothing(s, c, at, r);
  }

  lemma {:induction false} ArriveIsLinearized(s: State, c: CallId, ask: Ask)
    requires Linearized(s) && Enabled(s, Arrive(c, ask))
    ensures Linearized(Apply(s, Arrive(c, ask)))
  {
    var s' := Apply(s, Arrive(c, ask));
    forall d | d in s'.calls && ResultOf(s'.calls[d]).Some?
      ensures exists i :: 0 <= i < |s'.history| && s'.history[i].Resolved? && s'.history[i].call == d
    {
      assert d != c;
      assert ResultOf(s.calls[d]).Some?;
    }
  }

  lemma {:induction false} FindIsLinearized(s: State, c: CallId, at: int, form: Form)
    requires Lawful(s.codec) && Linearized(s) && Enabled(s, Find(c, at, form))
    ensures Linearized(Apply(s, Find(c, at, form)))
  {
    if FindActive(s.table, s.calls[c].ask.slot, at).Some? {
      JudgeIsAtomic(s, c, at, form);
      AnswerIsLinearized(s, c, at, Judge(s.codec, s.table[s.calls[c].ask.slot], s.calls[c].ask.requestHash, form));
    } else {
      QuietPhase(s, c, at, Inserting);
    }
  }

  lemma {:induction false} AdmitCompletes(s: State, c: CallId, at: int)
    requires HistoryComplete(s) && c in s.calls && ResultOf(s.calls[c]).None? && MayRead(s, c, at)
    ensures HistoryComplete(Admit(s, c, at))
  {
    ResolveOneMore(s, Admit(s, c, at), c, at, New);
  }

  lemma {:induction false} AdmitRecordsNothing(s: State, c: CallId, at: int)
    requires RecordedOnce(s) && c in s.calls && ResultOf(s.calls[c]).None?
    ensures RecordedOnce(Admit(s, c, at))
  {
    RecordedStays(s, Admit(s, c, at), c);
  }

  lemma {:induction false} AdmitIsLinearized(s: State, c: CallId, at: int)
    requires Linearized(s) && c in s.calls && ResultOf(s.calls[c]).None? && MayRead(s, c, at)
    requires AtomicResolve(s.table, c, s.calls[c].ask, at) == (Admit(s, c, at).table, New)
    ensures Linearized(Admit(s, c, at))
  {
    ExtendHistory(s.history, Resolved(c, s.calls[c].ask, at, New));
    AdmitCompletes(s, c, at);
    AdmitRecordsNothing(s, c, at);
  }

  lemma {:induction false} InsertIsLinearized(s: State, c: CallId, at: int)
    requires Linearized(s) && Enabled(s, Insert(c, at))
    ensures Linearized(Apply(s, Insert(c, at)))
  {
    if s.calls[c].ask.slot in s.table {
      QuietPhase(s, c, at, FindingAgain);
    } else {
      AdmitIsLinearized(s, c, at);
    }
  }

  lemma {:induction false} FindAgainIsLinearized(s: State, c: CallId, at: int, form: Form)
    requires Lawful(s.codec) && Linearized(s) && Enabled(s, FindAgain(c, at, form))
    requires s.calls[c].ask.slot in s.table
    ensures Linearized(Apply(s, FindAgain(c, at, form)))
  {
    if FindActive(s.table, s.calls[c].ask.slot, at).Some? {
      JudgeIsAtomic(s, c, at, form);
      AnswerIsLinearized(s, c, at, Judge(s.codec, s.table[s.calls[c].ask.slot], s.calls[c].ask.requestHash, form));
    } else {
      AnswerIsLinearized(s, c, at, UniqueViolation);
    }
  }

  lemma {:induction false} EmitCompletes(s: State, c: CallId, e: ResponseEvent)
    requires HistoryComplete(s) && Enabled(s, Emit(c, e))
    ensures HistoryComplete(Apply(s, Emit(c, e)))
  {
    var s' := Apply(s, Emit(c, e));
    forall d | d in s'.calls && ResultOf(s'.calls[d]).Some?
      ensures exists i :: 0 <= i < |s'.history| && s'.history[i].Resolved? && s'.history[i].call == d
    {
      assert ResultOf(s.calls[d]).Some?;
    }
  }

  lemma {:induction false} EmitIsLinearized(s: State, c: CallId, e: ResponseEvent)
    requires Linearized(s) && Enabled(s, Emit(c, e)) && WrapInv(s.calls[c])
    ensures Linearized(Apply(s, Emit(c, e)))
  {
    EmitCompletes(s, c, e);
    RecordedStays(s, Apply(s, Emit(c, e)), c);
  }

  lemma {:induction false} RecordOneMore(s: State, c: CallId, response: Response)
    requires HistoryComplete(s) && c in s.calls
    ensures HistoryComplete(s.(history := s.history + [Recorded(c, response)]))
  {
    var h := s.history + [Recorded(c, response)];
    forall d | d in s.calls && ResultOf(s.calls[d]).Some?
      ensures exists i :: 0 <= i < |h| && h[i].Resolved? && h[i].call == d
    {
      var i :| 0 <= i < |s.history| && s.history[i].Resolved? && s.history[i].call == d;
      assert h[i].call == d;
    }
  }

  lemma {:induction false} PersistCompletesHistory(s: State, c: CallId)
    requires HistoryComplete(s) && Enabled(s, Persist(c))
    ensures HistoryComplete(Apply(s, Persist(c)))
  {
    var response := s.calls[c].phase.response;
    var listed := s.(history := s.history + [Recorded(c, response)]);
    RecordOneMore(s, c, response);
    QuietPhase(listed, c, s.calls[c].since, Stored(response));
    assert Apply(s, Persist(c)) ==
      WithPhase(listed, c, s.calls[c].since, Stored(response)).(table := CompleteById(s.table, c, response));
  }

  lemma {:induction false} PersistIsLinearized(s: State, c: CallId)
    requires Linearized(s) && Enabled(s, Persist(c))
    ensures Linearized(Apply(s, Persist(c)))
  {
    ExtendHistory(s.history, Recorded(c, s.calls[c].phase.response));
    PersistCompletesHistory(s, c);
    RecordedOneMore(s, c);
  }

  /** Each step is either invisible or one indivisible event. */
  lemma {:induction false} StepIsLinearized(s: State, a: Action)
    requires Inv(s) && Linearized(s) && Enabled(s, a)
    ensures Linearized(Apply(s, a))
  {
    match a
    case Arrive(c, ask) => ArriveIsLinearized(s, c, ask);
    case Tick(_) =>
    case Find(c, at, form) => FindIsLinearized(s, c, at, form);
    case Insert(c, at) => InsertIsLinearized(s, c, at);
    case FindAgain(c, at, form) =>
      assert CallInv(s.table, c, s.calls[c]);
      FindAgainIsLinearized(s, c, at, form);
    case Emit(c, e) =>
      assert WrapInv(s.calls[c]);
      EmitIsLinearized(s, c, e);
    case Persist(c) => PersistIsLinearized(s, c);
  }

  /** Linearizability: after any run the table and every answer are those of one indivisible get-or-insert per call,
      in the order of the history, each with a clock reading taken during the call. */
  lemma {:induction false} EveryRunIsLinearizable(codec: Codec, clock: int, actions: seq<Action>)
    requires Lawful(codec) && Admissible(Initial(codec, clock), actions)
    ensures Inv(Execute(Initial(codec, clock), actions))
    ensures Linearized(Execute(Initial(codec, clock), actions))
    decreases |actions|
  {
    if actions == [] {
    } else {
      var front := actions[..|actions| - 1];
      EveryRunIsLinearizable(codec, clock, front);
      var s, a := Execute(Initial(codec, clock), front), actions[|actions| - 1];
      StepKeepsInv(s, a);
      StepIsLinearized(s, a);
    }
  }

  lemma {:induction false} HistoryOnlyGrows(s: State, actions: seq<Action>, n: nat)
    requires Admissible(s, actions) && n <= |actions| && Admissible(s, actions[..n])
    ensures Execute(s, actions[..n]).history <= Execute(s, actions).history
    decreases |actions|
  {
    if n == |actions| {
      assert actions[..n] == actions;
    } else {
      var front := actions[..|actions| - 1];
      assert front[..n] == actions[..n];
      HistoryOnlyGrows(s, front, n);
    }
  }

  lemma {:induction false} EarlierAnswersStayFirst(earlier: State, s: State, i: nat, j: nat)
    requires HistoryComplete(earlier) && HistoryComplete(s) && earlier.history <= s.history
    requires i < |s.history| && s.history[i].Resolved? && j < |s.history| && s.history[j].Resolved?
    requires s.history[i].call in earlier.calls && ResultOf(earlier.calls[s.history[i].call]).Some?
    requires s.history[j].call !in earlier.calls
    ensures i < j
  {
    assert j >= |earlier.history|;
    var c := s.history[i].call;
    var k :| 0 <= k < |earlier.history| && earlier.history[k].Resolved? && earlier.history[k].call == c;
    assert s.history[k] == earlier.history[k];
  }

  /** The history is the real order: a call answered before another arrived takes effect before it. */
  lemma {:induction false} HistoryRespectsRealTime(
      codec: Codec, clock: int, actions: seq<Action>, n: nat, i: nat, j: nat)
    requires Lawful(codec) && Admissible(Initial(codec, clock), actions)
    requires n <= |actions| && Admissible(Initial(codec, clock), actions[..n])
    requires var history := Execute(Initial(codec, clock), actions).history;
      var earlier := Execute(Initial(codec, clock), actions[..n]);
      && i < |history| && history[i].Resolved? && j < |history| && history[j].Resolved?
      && history[i].call in earlier.calls && ResultOf(earlier.calls[history[i].call]).Some?
      && history[j].call !in earlier.calls
    ensures i < j
  {
    EveryRunIsLinearizable(codec, clock, actions[..n]);
    EveryRunIsLinearizable(codec, clock, actions);
    HistoryOnlyGrows(Initial(codec, clock), actions, n);
    var earlier, s := Execute(Initial(codec, clock), actions[..n]), Execute(Initial(codec, clock), actions);
    EarlierAnswersStayFirst(earlier, s, i, j);
  }

  // ---- What the invariant says about keys

  lemma {:induction false} SameSlotSameCall(s: State, c: CallId, d: CallId)
    requires Inv(s) && c in s.calls && d in s.calls
    requires Admitted(s.calls[c]) && Admitted(s.calls[d]) && s.calls[c].ask.slot == s.calls[d].ask.slot
    ensures c == d
  {
    assert CallInv(s.table, c, s.calls[c]) && CallInv(s.table, d, s.calls[d]);
  }

  lemma {:induction false} ReplayOwner(s: State, c: CallId) returns (owner: CallId)
    requires Inv(s) && c in s.calls && s.calls[c].phase.Answered? && s.calls[c].phase.resolution.Replay?
    ensures owner in s.calls && s.calls[owner].ask.slot == s.calls[c].ask.slot
    ensures s.calls[owner].ask.requestHash == s.calls[c].ask.requestHash
    ensures s.calls[owner].phase == Stored(s.calls[c].phase.resolution.response)
    ensures FirstCapture(s.calls[owner].res.events) == Some(s.calls[c].phase.resolution.response)
  {
    assert CallInv(s.table, c, s.calls[c]);
    owner := s.table[s.calls[c].ask.slot].id;
    assert CallInv(s.table, owner, s.calls[owner]) && WrapInv(s.calls[owner]);
  }

  lemma {:induction false} StepEvolves(s: State, a: Action)
    requires Inv(s) && Enabled(s, a)
    ensures Evolves(s.table, Apply(s, a).table)
  {
    if a.Persist? {
      assert CallInv(s.table, a.call, s.calls[a.call]);
      forall slot | slot in s.table
        ensures Apply(s, a).table[slot] == s.table[slot]
          || (s.table[slot].status.Processing?
              && Apply(s, a).table[slot] == s.table[slot].(status := Completed(s.calls[a.call].phase.response)))
      {
        PersistTouchesOneRow(s, a.call, s.calls[a.call].phase.response, slot);
      }
    }
  }
}

/** The idempotency code statement by statement: `resolveIdempotency` between its awaits, and the response capture. */
module IdempotencyService {
  import opened Options
  import opened Responses
  import opened ResponseCapture
  import opened Idempotency

  lemma {:induction false} EvolvesTwice(a: Table, b: Table, c: Table)
    requires Evolves(a, b) && Evolves(b, c)
    ensures Evolves(a, c)
  {
    forall slot | slot in a
      ensures slot in c && c[slot].(status := a[slot].status) == a[slot]
      ensures a[slot].status.Completed? ==> c[slot] == a[slot]
    {
      assert slot in b;
    }
  }

  /** The idempotency_keys table and the clock of the application. */
  class KeyTable {
    var rows: Table
    var clock: int

    constructor (clock: int)
      ensures rows == map[] && this.clock == clock
    {
      this.rows, this.clock := map[], clock;
    }

    /** An `await`. Its callers know nothing but the contract: other calls insert and complete rows, and time passes. */
    method Await()
      modifies this
      ensures Evolves(old(rows), rows) && old(clock) <= clock
    {
    }

    /** Whatever the other calls do between the three database accesses, the answer is that of one indivisible
        get-or-insert on the table `before`, with a clock reading `at` taken during the call. */
    method ResolveIdempotency(codec: Codec, form: Form, call: CallId, ask: Ask)
      returns (r: Resolution, ghost before: Table, ghost at: int)
      requires Lawful(codec)
      modifies this
      ensures (rows, r) == AtomicResolve(before, call, ask, at)
      ensures Evolves(old(rows), before) && old(clock) <= at <= clock
    {
      var now := clock;
      Await();
      before, at := rows, now;
      var existing := FindActive(rows, ask.slot, now);
      if existing.Some? {
        JudgeMatches(codec, rows, call, ask, now, form);
        r := Judge(codec, existing.value, ask.requestHash, form);
        return;
      }

      now := clock;
      Await();
      EvolvesTwice(old(rows), before, rows);
      before, at := rows, now;
      if ask.slot !in rows {
        rows := rows[ask.slot := FreshRecord(call, ask, now)];
        r := New;
        return;
      }

      now := clock;
      Await();
      EvolvesTwice(old(rows), before, rows);
      assert ask.slot in before;
      before, at := rows, now;
      var raced := FindActive(rows, ask.slot, now);
      if raced.None? {
        r := UniqueViolation;
        return;
      }
      JudgeMatches(codec, rows, call, ask, now, form);
      r := Judge(codec, raced.value, ask.requestHash, form);
    }

    /** `completeIdempotency`: since ids are a primary key, at most one row changes, and only its status. Completing a
        row that is still processing is a change every other call expects. */
    method CompleteIdempotency(id: CallId, response: Response)
      modifies this
      ensures rows == CompleteById(old(rows), id, response) && clock == old(clock)
      ensures (forall slot :: slot in old(rows) ==> old(rows)[slot].id != id) ==> rows == old(rows)
      ensures PrimaryKey(old(rows)) ==> forall slot :: slot in old(rows) && old(rows)[slot].id == id ==>
        && rows == old(rows)[slot := old(rows)[slot].(status := Completed(response))]
        && (old(rows)[slot].status.Processing? ==> Evolves(old(rows), rows))
    {
      forall slot | PrimaryKey(rows) && slot in rows && rows[slot].id == id
        ensures CompleteById(rows, id, response) == rows[slot := rows[slot].(status := Completed(response))]
      {
        CompletesOneRow(rows, slot, response);
      }
      rows := CompleteById(rows, id, response);
    }
  }

  /** Ids are unique. */
  predicate PrimaryKey(rows: Table) {
    forall a, b :: a in rows && b in rows && rows[a].id == rows[b].id ==> a == b
  }

  lemma {:induction false} CompletesOneRow(rows: Table, slot: Slot, response: Response)
    requires PrimaryKey(rows) && slot in rows
    ensures CompleteById(rows, rows[slot].id, response) == rows[slot := rows[slot].(status := Completed(response))]
  {
    var after := CompleteById(rows, rows[slot].id, response);
    forall other | other in rows
      ensures after[other] == if other == slot then rows[slot].(status := Completed(response)) else rows[other]
    {
    }
  }

  lemma {:induction false} JudgeMatches(codec: Codec, rows: Table, call: CallId, ask: Ask, at: int, form: Form)
    requires Lawful(codec) && FindActive(rows, ask.slot, at).Some?
    ensures AtomicResolve(rows, call, ask, at) == (rows, Judge(codec, rows[ask.slot], ask.requestHash, form))
  {
    if rows[ask.slot].status.Completed? {
      var body := rows[ask.slot].status.response.body;
      assert codec.parse(codec.stringify(body)) == body;
    }
  }

  // ---- Response capture

  /** What the i-th event records is all that was recorded. */
  ghost predicate RecordedBy(completions: seq<Response>, events: seq<ResponseEvent>, i: nat)
    requires i < |events|
  {
    |completions| <= 1 && forall r :: completions == [r] <==> Records(events, i, r)
  }

  lemma {:induction false} LastRecords(events: seq<ResponseEvent>)
    requires events != []
    ensures var last := CaptureAt(events, |events| - 1);
      RecordedBy(if last.Some? then [last.value] else [], events, |events| - 1)
  {
    var last := CaptureAt(events, |events| - 1);
    var completions := if last.Some? then [last.value] else [];
    forall r
      ensures completions == [r] <==> Records(events, |events| - 1, r)
    {
      CaptureRecords(events, |events| - 1, r);
      assert [r][0] == r;
    }
  }

  /** The response object as wrapped by `requireIdempotencyKey`. */
  class CapturedResponse {
    var statusCode: nat
    var responseCaptured: bool
    /** The calls of `completeIdempotency` made so far. */
    var completions: seq<Response>
    ghost var events: seq<ResponseEvent>

    /** The record is completed at most once, with the first response captured. */
    ghost predicate Valid()
      reads this
    {
      && statusCode == StatusAfter(events)
      && responseCaptured == FirstCapture(events).Some?
      && completions == if responseCaptured then [FirstCapture(events).value] else []
    }

    constructor ()
      ensures Valid() && events == []
    {
      statusCode, responseCaptured, completions, events := 200, false, [], [];
    }

    method CaptureResponse(status: nat, body: Body)
      modifies this
      ensures completions == old(completions) + if old(responseCaptured) then [] else [Response(status, body)]
      ensures responseCaptured && statusCode == old(statusCode) && events == old(events)
    {
      if responseCaptured {
        return;
      }
      responseCaptured := true;
      completions := completions + [Response(status, body)];
    }

    method Status(code: nat)
      requires Valid()
      modifies this
      ensures Valid() && events == old(events) + [SetStatus(code)]
      ensures completions == old(completions)
    {
      statusCode := code;
      events := events + [SetStatus(code)];
      assert events[..|events| - 1] == old(events);
    }

    /** The first body is recorded with the status set so far, 200 if none was set; later bodies are not. */
    method Json(body: Body)
      requires Valid()
      modifies this
      ensures Valid() && events == old(events) + [SendJson(body)]
      ensures old(completions) != [] ==> completions == old(completions)
      ensures old(completions) == [] ==> completions != [] && RecordedBy(completions, events, |old(events)|)
    {
      CaptureResponse(if statusCode == 0 then 200 else statusCode, body);
      events := events + [SendJson(body)];
      assert events[..|events| - 1] == old(events);
      LastRecords(events);
    }

    /** A response that ends with an error status and without a body is recorded as a general error. */
    method OnFinish()
      requires Valid()
      modifies this
      ensures Valid() && events == old(events) + [Finish]
      ensures old(completions) != [] ==> completions == old(completions)
      ensures old(completions) == [] ==> RecordedBy(completions, events, |old(events)|)
    {
      if !responseCaptured && statusCode >= 400 {
        CaptureResponse(statusCode, UNCAPTURED);
      }
      events := events + [Finish];
      assert events[..|events| - 1] == old(events);
      LastRecords(events);
    }
  }
}

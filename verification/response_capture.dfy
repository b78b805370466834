/** Which response of a handler is recorded: the first one, and no other. */
module ResponseCapture {
  import opened Options
  import opened Responses

  /** What the handler and the framework do to the response object. */
  datatype ResponseEvent = SetStatus(code: nat) | SendJson(body: Body) | Finish

  const UNCAPTURED := ErrorBody("INTERNAL_ERROR")

  function StatusAfter(events: seq<ResponseEvent>): nat {
    if events == [] then 200
    else if events[|events| - 1].SetStatus? then events[|events| - 1].code
    else StatusAfter(events[..|events| - 1])
  }

  /** What an event would capture at a status code, were nothing captured before. */
  function Attempt(code: nat, e: ResponseEvent): Option<Response> {
    match e
    case SetStatus(_) => None
    case SendJson(body) => Some(Response(if code == 0 then 200 else code, body))
    case Finish => if code >= 400 then Some(Response(code, UNCAPTURED)) else None
  }

  /** What the i-th event would capture, were it the first to capture anything. */
  function CaptureAt(events: seq<ResponseEvent>, i: nat): Option<Response>
    requires i < |events|
  {
    Attempt(StatusAfter(events[..i]), events[i])
  }

  /** The first response captured. */
  function FirstCapture(events: seq<ResponseEvent>): Option<Response> {
    if events == [] then None
    else
      var earlier := FirstCapture(events[..|events| - 1]);
      if earlier.Some? then earlier else CaptureAt(events, |events| - 1)
  }

  lemma {:induction false} FirstCaptureIsFirst(events: seq<ResponseEvent>, i: nat)
    requires i < |events| && CaptureAt(events, i).Some?
    requires forall j :: 0 <= j < i ==> CaptureAt(events, j).None?
    ensures FirstCapture(events) == CaptureAt(events, i)
  {
    var n := |events| - 1;
    var front := events[..n];
    forall j | 0 <= j < n
      ensures CaptureAt(front, j) == CaptureAt(events, j)
    {
      assert front[..j] == events[..j];
    }
    if i < n {
      FirstCaptureIsFirst(front, i);
    } else {
      NothingCaptured(front);
    }
  }

  lemma {:induction false} NothingCaptured(events: seq<ResponseEvent>)
    requires forall j :: 0 <= j < |events| ==> CaptureAt(events, j).None?
    ensures FirstCapture(events).None?
  {
    if events == [] {
    } else {
      var front := events[..|events| - 1];
      forall j | 0 <= j < |front|
        ensures CaptureAt(front, j).None?
      {
        assert front[..j] == events[..j];
        assert CaptureAt(events, j).None?;
      }
      NothingCaptured(front);
    }
  }

  /** A captured response never changes: nothing that happens later records a second one. */
  lemma {:induction false} CaptureIsFinal(events: seq<ResponseEvent>, more: seq<ResponseEvent>)
    requires FirstCapture(events).Some?
    ensures FirstCapture(events + more) == FirstCapture(events)
  {
    if more == [] {
      assert events + more == events;
    } else {
      CaptureIsFinal(events, more[..|more| - 1]);
      assert (events + more)[..|events + more| - 1] == events + more[..|more| - 1];
    }
  }

  lemma {:induction false} CaptureOneMore(events: seq<ResponseEvent>, e: ResponseEvent)
    ensures StatusAfter(events + [e]) == if e.SetStatus? then e.code else StatusAfter(events)
    ensures FirstCapture(events + [e]) ==
      if FirstCapture(events).Some? then FirstCapture(events) else Attempt(StatusAfter(events), e)
  {
    assert (events + [e])[..|events|] == events;
  }

  // ---- What is captured, in terms of the events alone

  /** `code` is what the last `res.status` before event i set, or 200 if there was none. */
  ghost predicate StatusBefore(events: seq<ResponseEvent>, i: nat, code: nat)
    requires i <= |events|
  {
    || (code == 200 && forall j :: 0 <= j < i ==> !events[j].SetStatus?)
    || exists j :: 0 <= j < i && events[j] == SetStatus(code) && forall k :: j < k < i ==> !events[k].SetStatus?
  }

  /** Event i records `r`: a JSON body with the status set so far, 0 counting as 200; or, at the end of a response whose
      status is an error, a general error body. */
  ghost predicate Records(events: seq<ResponseEvent>, i: nat, r: Response)
    requires i < |events|
  {
    exists code :: StatusBefore(events, i, code)
      && match events[i]
         case SetStatus(_) => false
         case SendJson(body) => r == Response(if code == 0 then 200 else code, body)
         case Finish => code >= 400 && r == Response(code, ErrorBody("INTERNAL_ERROR"))
  }

  /** Event i is the first to record anything, and it records `r`. */
  ghost predicate FirstRecords(events: seq<ResponseEvent>, i: nat, r: Response)
    requires i < |events|
  {
    Records(events, i, r) && forall j, q :: 0 <= j < i ==> !Records(events, j, q)
  }

  lemma {:induction false} StatusAfterIsStatusBefore(events: seq<ResponseEvent>, i: nat)
    requires i <= |events|
    ensures forall code: nat :: StatusBefore(events, i, code) <==> code == StatusAfter(events[..i])
  {
    if i == 0 {
    } else {
      StatusAfterIsStatusBefore(events, i - 1);
      assert events[..i][..i - 1] == events[..i - 1];
      forall code: nat
        ensures StatusBefore(events, i, code) <==>
          if events[i - 1].SetStatus? then code == events[i - 1].code else StatusBefore(events, i - 1, code)
      {
        StatusOneMore(events, i, code);
      }
    }
  }

  lemma {:induction false} StatusOneMore(events: seq<ResponseEvent>, i: nat, code: nat)
    requires 0 < i <= |events|
    ensures StatusBefore(events, i, code) <==>
      if events[i - 1].SetStatus? then code == events[i - 1].code else StatusBefore(events, i - 1, code)
  {
    if events[i - 1].SetStatus? {
      assert events[i - 1] == SetStatus(events[i - 1].code);
    } else if StatusBefore(events, i - 1, code) && !(forall j :: 0 <= j < i - 1 ==> !events[j].SetStatus?) {
      var j :| 0 <= j < i - 1 && events[j] == SetStatus(code) && forall k :: j < k < i - 1 ==> !events[k].SetStatus?;
      assert forall k :: j < k < i ==> !events[k].SetStatus?;
    }
  }

  lemma {:induction false} CaptureRecords(events: seq<ResponseEvent>, i: nat, r: Response)
    requires i < |events|
    ensures CaptureAt(events, i) == Some(r) <==> Records(events, i, r)
  {
    StatusAfterIsStatusBefore(events, i);
    var code := StatusAfter(events[..i]);
    assert StatusBefore(events, i, code);
  }

  /** The first captured response is exactly what the first recording event records. */
  lemma {:induction false} FirstCaptureIff(events: seq<ResponseEvent>, r: Response)
    ensures FirstCapture(events) == Some(r) <==> exists i :: 0 <= i < |events| && FirstRecords(events, i, r)
  {
    if FirstCapture(events) == Some(r) {
      var i := FirstCapturing(events);
      FirstCaptureIsFirst(events, i);
      CaptureRecords(events, i, r);
      forall j, q | 0 <= j < i
        ensures !Records(events, j, q)
      {
        CaptureRecords(events, j, q);
      }
      assert FirstRecords(events, i, r);
    }
    if i :| 0 <= i < |events| && FirstRecords(events, i, r) {
      CaptureRecords(events, i, r);
      forall j | 0 <= j < i
        ensures CaptureAt(events, j).None?
      {
        if CaptureAt(events, j).Some? {
          CaptureRecords(events, j, CaptureAt(events, j).value);
        }
      }
      FirstCaptureIsFirst(events, i);
    }
  }

  lemma {:induction false} FirstCapturing(events: seq<ResponseEvent>) returns (i: nat)
    requires FirstCapture(events).Some?
    ensures i < |events| && CaptureAt(events, i).Some?
    ensures forall j :: 0 <= j < i ==> CaptureAt(events, j).None?
  {
    i := 0;
    while i < |events| && CaptureAt(events, i).None?
      invariant i <= |events| && forall j :: 0 <= j < i ==> CaptureAt(events, j).None?
    {
      i := i + 1;
    }
    if i == |events| {
      NothingCaptured(events);
      assert false;
    }
  }
}

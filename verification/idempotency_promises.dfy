/** What the idempotency machine promises its callers, over every run. */
module IdempotencyPromises {
  import opened Options
  import opened Responses
  import opened ResponseCapture
  import opened Idempotency

  // ---- Scopes

  /** Scopes separate users from each other, addresses from each other, and users from addresses; a call without user
      and address counts as one from the address `unknown`. */
  lemma {:induction false} ScopesAreSeparate(u: string, v: string, ip: Option<string>, ip': Option<string>)
    requires u != "" && v != ""
    ensures BuildScopeKey(Some(u), ip) == BuildScopeKey(Some(v), ip') <==> u == v
    ensures BuildScopeKey(Some(u), ip) != BuildScopeKey(None, ip')
    ensures BuildScopeKey(Some(""), ip) == BuildScopeKey(None, ip)
    ensures BuildScopeKey(None, ip) == BuildScopeKey(None, ip') <==>
      (if ip.Some? then ip.value else "unknown") == (if ip'.Some? then ip'.value else "unknown")
  {
    assert BuildScopeKey(Some(u), ip)[|"user:"|..] == u && BuildScopeKey(Some(v), ip')[|"user:"|..] == v;
    assert BuildScopeKey(Some(u), ip)[0] == 'u' && BuildScopeKey(None, ip')[0] == 'i';
    assert BuildScopeKey(None, ip)[|"ip:"|..] == if ip.Some? then ip.value else "unknown";
    assert BuildScopeKey(None, ip')[|"ip:"|..] == if ip'.Some? then ip'.value else "unknown";
  }

  // ---- Admission and replay

  /** A key is admitted as new at most once. */
  lemma {:induction false} AdmittedAtMostOnce(codec: Codec, clock: int, actions: seq<Action>, c: CallId, d: CallId)
    requires Lawful(codec) && Admissible(Initial(codec, clock), actions)
    requires var calls := Execute(Initial(codec, clock), actions).calls;
      && c in calls && d in calls && Admitted(calls[c]) && Admitted(calls[d])
      && calls[c].ask.slot == calls[d].ask.slot
    ensures c == d
  {
    EveryRunIsLinearizable(codec, clock, actions);
    SameSlotSameCall(Execute(Initial(codec, clock), actions), c, d);
  }

  /** Whatever the handler and the framework did to the response object, every replay serves what the first recording
      event of the call that was admitted for the key recorded, under the same request hash: the status its handler had
      set when it sent its first JSON body, and that body; or, if it ended with an error status and no body, that
      status. It does so whether the stored body came back as text or as an object. */
  lemma {:induction false} ReplayIsFaithful(codec: Codec, clock: int, actions: seq<Action>, c: CallId)
    returns (owner: CallId, i: nat)
    requires Lawful(codec) && Admissible(Initial(codec, clock), actions)
    requires var calls := Execute(Initial(codec, clock), actions).calls;
      c in calls && calls[c].phase.Answered? && calls[c].phase.resolution.Replay?
    ensures var calls := Execute(Initial(codec, clock), actions).calls;
      && owner in calls && Admitted(calls[owner])
      && calls[owner].ask.slot == calls[c].ask.slot && calls[owner].ask.requestHash == calls[c].ask.requestHash
      && i < |calls[owner].res.events| && FirstRecords(calls[owner].res.events, i, calls[c].phase.resolution.response)
  {
    EveryRunIsLinearizable(codec, clock, actions);
    var calls := Execute(Initial(codec, clock), actions).calls;
    owner := ReplayOwner(Execute(Initial(codec, clock), actions), c);
    var events, r := calls[owner].res.events, calls[c].phase.resolution.response;
    FirstCaptureIff(events, r);
    i :| 0 <= i < |events| && FirstRecords(events, i, r);
  }

  /** Over any run a row goes from processing to completed at most once and changes in no other way. */
  lemma {:induction false} RecordsOnlyComplete(codec: Codec, clock: int, actions: seq<Action>, n: nat)
    requires Lawful(codec) && Admissible(Initial(codec, clock), actions) && n <= |actions|
    requires Admissible(Initial(codec, clock), actions[..n])
    ensures Evolves(Execute(Initial(codec, clock), actions[..n]).table, Execute(Initial(codec, clock), actions).table)
    decreases |actions|
  {
    if n == |actions| {
      assert actions[..n] == actions;
    } else {
      var front := actions[..|actions| - 1];
      assert front[..n] == actions[..n];
      RecordsOnlyComplete(codec, clock, front, n);
      EveryRunIsLinearizable(codec, clock, front);
      StepEvolves(Execute(Initial(codec, clock), front), actions[|actions| - 1]);
    }
  }

  // ---- Every answer is determined by the earlier events

  predicate Uses(e: Event, slot: Slot) {
    e.Resolved? && e.ask.slot == slot
  }

  ghost predicate Unused(history: seq<Event>, slot: Slot) {
    forall i :: 0 <= i < |history| ==> !Uses(history[i], slot)
  }

  /** The k-th event is the first that uses the key. */
  ghost predicate FirstUse(history: seq<Event>, slot: Slot, k: int) {
    0 <= k < |history| && Uses(history[k], slot) && Unused(history[..k], slot)
  }

  /** A response of the call was stored after the k-th event. */
  ghost predicate StoredSince(history: seq<Event>, k: int, call: CallId, response: Response) {
    exists j :: 0 <= k < j < |history| && history[j] == Recorded(call, response)
  }

  ghost predicate NeverStored(history: seq<Event>, call: CallId) {
    forall i :: 0 <= i < |history| && history[i].Recorded? ==> history[i].call != call
  }

  /** No call has two responses stored. */
  ghost predicate StoredOnce(history: seq<Event>) {
    forall i :: 0 <= i < |history| && history[i].Recorded? ==> NeverStored(history[..i], history[i].call)
  }

  /** A row as the first use of its key left it, completed by the response stored since, if any. */
  ghost predicate RowOf(history: seq<Event>, k: int, record: Record)
    requires 0 <= k < |history| && history[k].Resolved?
  {
    var use := history[k];
    && use.resolution == New
    && record.id == use.call && record.requestHash == use.ask.requestHash && record.expiresAt == use.at + TTL
    && record.verb == use.ask.verb && record.route == use.ask.route
    && forall r :: record.status == Completed(r) <==> StoredSince(history, k, use.call, r)
  }

  ghost predicate RowFollows(history: seq<Event>, table: Table, slot: Slot) {
    && (slot in table <==> !Unused(history, slot))
    && (slot in table ==> exists k :: FirstUse(history, slot, k))
    && forall k :: FirstUse(history, slot, k) ==> slot in table && RowOf(history, k, table[slot])
  }

  lemma {:induction false} UsedOneMore(history: seq<Event>, e: Event, slot: Slot)
    ensures Unused(history + [e], slot) <==> Unused(history, slot) && !Uses(e, slot)
    ensures forall k :: FirstUse(history + [e], slot, k) <==>
      FirstUse(history, slot, k) || (k == |history| && Unused(history, slot) && Uses(e, slot))
  {
    var h := history + [e];
    forall i | 0 <= i < |history|
      ensures h[i] == history[i] && h[..i] == history[..i]
    {
    }
    assert h[..|history|] == history;
    if Unused(h, slot) {
      assert !Uses(h[|history|], slot);
      forall i | 0 <= i < |history|
        ensures !Uses(history[i], slot)
      {
        assert !Uses(h[i], slot);
      }
    }
  }

  lemma {:induction false} StoredOneMore(history: seq<Event>, e: Event, k: int, call: CallId, r: Response)
    requires 0 <= k < |history|
    ensures StoredSince(history + [e], k, call, r) <==> StoredSince(history, k, call, r) || e == Recorded(call, r)
  {
    var h := history + [e];
    if StoredSince(history, k, call, r) {
      var j :| k < j < |history| && history[j] == Recorded(call, r);
      assert h[j] == Recorded(call, r);
    }
    assert h[|history|] == e;
  }

  lemma {:induction false} RowWithoutRecord(history: seq<Event>, e: Event, k: int, record: Record)
    requires 0 <= k < |history| && history[k].Resolved? && RowOf(history, k, record)
    requires e.Recorded? ==> e.call != record.id
    ensures RowOf(history + [e], k, record)
  {
    forall r
      ensures record.status == Completed(r) <==> StoredSince(history + [e], k, history[k].call, r)
    {
      StoredOneMore(history, e, k, history[k].call, r);
    }
  }

  lemma {:induction false} RowWithRecord(history: seq<Event>, e: Event, k: int, record: Record)
    requires 0 <= k < |history| && history[k].Resolved? && RowOf(history, k, record)
    requires e.Recorded? && e.call == record.id && NeverStored(history, e.call)
    ensures RowOf(history + [e], k, record.(status := Completed(e.response)))
  {
    forall r
      ensures Completed(e.response) == Completed(r) <==> StoredSince(history + [e], k, history[k].call, r)
    {
      StoredOneMore(history, e, k, history[k].call, r);
    }
  }

  lemma {:induction false} FreshRow(history: seq<Event>, e: Event)
    requires e.Resolved? && e.resolution == New
    ensures RowOf(history + [e], |history|, FreshRecord(e.call, e.ask, e.at))
  {
  }

  lemma {:induction false} ResolvedStep(history: seq<Event>, table: Table, e: Event, slot: Slot)
    requires RowFollows(history, table, slot) && e.Resolved?
    requires e.resolution == AtomicResolve(table, e.call, e.ask, e.at).1
    ensures RowFollows(history + [e], ApplyEvent(table, e), slot)
  {
    var h, table' := history + [e], ApplyEvent(table, e);
    UsedOneMore(history, e, slot);
    if slot in table {
      var k :| FirstUse(history, slot, k);
      assert FirstUse(h, slot, k);
    } else {
      assert Uses(e, slot) ==> FirstUse(h, slot, |history|);
    }
    forall k | FirstUse(h, slot, k)
      ensures slot in table' && RowOf(h, k, table'[slot])
    {
      if k == |history| {
        FreshRow(history, e);
      } else {
        RowWithoutRecord(history, e, k, table[slot]);
      }
    }
  }

  lemma {:induction false} RecordedStep(history: seq<Event>, table: Table, e: Event, slot: Slot)
    requires RowFollows(history, table, slot) && e.Recorded? && NeverStored(history, e.call)
    ensures RowFollows(history + [e], ApplyEvent(table, e), slot)
  {
    var h, table' := history + [e], ApplyEvent(table, e);
    UsedOneMore(history, e, slot);
    if slot in table {
      var k :| FirstUse(history, slot, k);
      assert FirstUse(h, slot, k);
    }
    forall k | FirstUse(h, slot, k)
      ensures slot in table' && RowOf(h, k, table'[slot])
    {
      if table[slot].id == e.call {
        RowWithRecord(history, e, k, table[slot]);
      } else {
        RowWithoutRecord(history, e, k, table[slot]);
      }
    }
  }

  lemma {:induction false} RowFollowsHistory(history: seq<Event>, slot: Slot)
    requires Idempotency.Explains(history) && StoredOnce(history)
    ensures RowFollows(history, Fold(history), slot)
  {
    if history == [] {
    } else {
      var n := |history| - 1;
      var front, e := history[..n], history[n];
      PrefixKeeps(history, n);
      RowFollowsHistory(front, slot);
      if e.Resolved? {
        ResolvedStep(front, Fold(front), e, slot);
      } else {
        RecordedStep(front, Fold(front), e, slot);
      }
      assert history == front + [e];
    }
  }

  /** What the events before it determine about the answer of a call: admitted exactly when no earlier event used the
      key; otherwise, by the first use of the key, refused for ever once that use is 24 hours old, a conflict for
      another request hash, in progress until its response is stored, and from then on a replay of exactly that
      response. */
  ghost predicate Determined(earlier: seq<Event>, e: Event)
    requires e.Resolved?
  {
    && (e.resolution == New <==> Unused(earlier, e.ask.slot))
    && (e.resolution != New ==> exists k :: FirstUse(earlier, e.ask.slot, k))
    && forall k :: FirstUse(earlier, e.ask.slot, k) ==>
         var use := earlier[k];
         var active := e.at < use.at + 86400000;
         && use.resolution == New
         && (e.resolution == UniqueViolation <==> !active)
         && (e.resolution == Conflict <==> active && e.ask.requestHash != use.ask.requestHash)
         && (e.resolution == InProgress <==>
               active && e.ask.requestHash == use.ask.requestHash && forall r :: !StoredSince(earlier, k, use.call, r))
         && forall r :: e.resolution == Replay(r) <==>
              active && e.ask.requestHash == use.ask.requestHash && StoredSince(earlier, k, use.call, r)
  }

  lemma {:induction false} AnswerIsDetermined(earlier: seq<Event>, e: Event)
    requires e.Resolved? && RowFollows(earlier, Fold(earlier), e.ask.slot)
    requires e.resolution == AtomicResolve(Fold(earlier), e.call, e.ask, e.at).1
    ensures Determined(earlier, e)
  {
    forall k | FirstUse(earlier, e.ask.slot, k)
      ensures forall r ::
        Fold(earlier)[e.ask.slot].status == Completed(r) <==> StoredSince(earlier, k, earlier[k].call, r)
    {
      assert RowOf(earlier, k, Fold(earlier)[e.ask.slot]);
    }
  }

  lemma {:induction false} PrefixKeeps(history: seq<Event>, n: nat)
    requires n <= |history| && Idempotency.Explains(history) && StoredOnce(history)
    ensures Idempotency.Explains(history[..n]) && StoredOnce(history[..n])
  {
    forall i | 0 <= i < n && history[i].Resolved?
      ensures history[..n][i].resolution
           == AtomicResolve(Fold(history[..n][..i]), history[i].call, history[i].ask, history[i].at).1
    {
      assert history[..n][..i] == history[..i];
    }
    forall i | 0 <= i < n && history[i].Recorded?
      ensures NeverStored(history[..n][..i], history[i].call)
    {
      assert history[..n][..i] == history[..i];
    }
  }

  /** Over any run, the answer to every call is the one the earlier events determine. */
  lemma {:induction false} EveryAnswerIsDetermined(codec: Codec, clock: int, actions: seq<Action>, i: nat)
    requires Lawful(codec) && Admissible(Initial(codec, clock), actions)
    requires var history := Execute(Initial(codec, clock), actions).history; i < |history| && history[i].Resolved?
    ensures var history := Execute(Initial(codec, clock), actions).history; Determined(history[..i], history[i])
  {
    EveryRunIsLinearizable(codec, clock, actions);
    var s := Execute(Initial(codec, clock), actions);
    ResponsesAreStoredOnce(s);
    PrefixKeeps(s.history, i);
    RowFollowsHistory(s.history[..i], s.history[i].ask.slot);
    AnswerIsDetermined(s.history[..i], s.history[i]);
  }

  lemma {:induction false} ResponsesAreStoredOnce(s: State)
    requires RecordedOnce(s)
    ensures StoredOnce(s.history)
  {
  }

  // ---- The time to live

  /** The time to live does not make a key reusable: a concrete run in which the second use, after 24 hours, fails. */
  lemma {:induction false} ExpiredKeyIsNotReusable(codec: Codec, ask: Ask)
    requires Lawful(codec)
    ensures var actions := [Arrive(0, ask), Find(0, 0, AsText), Insert(0, 0), Tick(TTL), Arrive(1, ask),
                            Find(1, TTL, AsText), Insert(1, TTL), FindAgain(1, TTL, AsText)];
      Admissible(Initial(codec, 0), actions)
      && Execute(Initial(codec, 0), actions).calls[1].phase == Answered(UniqueViolation)
  {
    var s0 := Initial(codec, 0);
    var a1 := [Arrive(0, ask)];
    var a2 := a1 + [Find(0, 0, AsText)];
    var a3 := a2 + [Insert(0, 0)];
    var a4 := a3 + [Tick(TTL)];
    var a5 := a4 + [Arrive(1, ask)];
    var a6 := a5 + [Find(1, TTL, AsText)];
    var a7 := a6 + [Insert(1, TTL)];
    var a8 := a7 + [FindAgain(1, TTL, AsText)];
    RunOneMore(s0, [], Arrive(0, ask));
    RunOneMore(s0, a1, Find(0, 0, AsText));
    RunOneMore(s0, a2, Insert(0, 0));
    RunOneMore(s0, a3, Tick(TTL));
    RunOneMore(s0, a4, Arrive(1, ask));
    RunOneMore(s0, a5, Find(1, TTL, AsText));
    RunOneMore(s0, a6, Insert(1, TTL));
    RunOneMore(s0, a7, FindAgain(1, TTL, AsText));
    assert a8 == [Arrive(0, ask), Find(0, 0, AsText), Insert(0, 0), Tick(TTL), Arrive(1, ask),
                  Find(1, TTL, AsText), Insert(1, TTL), FindAgain(1, TTL, AsText)];
  }

  lemma {:induction false} RunOneMore(s: State, actions: seq<Action>, a: Action)
    requires Admissible(s, actions) && Enabled(Execute(s, actions), a)
    ensures Admissible(s, actions + [a]) && Execute(s, actions + [a]) == Apply(Execute(s, actions), a)
  {
    assert (actions + [a])[..|actions|] == actions;
  }
}

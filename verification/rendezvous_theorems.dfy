/** What holds in every run of the PIN rendezvous. */
module RendezvousTheorems {
  import opened Wrappers
  import opened Bytes
  import opened Texts
  import opened Rendezvous

  lemma InitInv(pid: nat, timeout: nat)
    ensures Inv(Init(pid, timeout))
  {
    var s := Init(pid, timeout);
    forall a, b | s.ids(a) == s.ids(b) ensures a == b {
      assert SequenceOf(s.ids(a)) == a && SequenceOf(s.ids(b)) == b;
    }
  }

  lemma {:induction false} RunKeepsInv(s: State, events: seq<Event>)
    requires Inv(s) && Runs(s, events)
    ensures Inv(Run(s, events))
    decreases |events|
  {
    if events != [] {
      StepKeepsInv(s, events[0]);
      RunKeepsInv(Next(s, events[0]), events[1..]);
    }
  }

  lemma BeginWith(s: State, e: Event, rest: seq<Event>)
    requires Enabled(s, e) && Runs(Next(s, e), rest)
    ensures Runs(s, [e] + rest) && Run(s, [e] + rest) == Run(Next(s, e), rest)
  {
    assert ([e] + rest)[1..] == rest;
  }

  /** The state after a run of the agent from its start. */
  function After(pid: nat, timeout: nat, events: seq<Event>): State
    requires Runs(Init(pid, timeout), events)
  {
    Run(Init(pid, timeout), events)
  }

  lemma ReachableInv(pid: nat, timeout: nat, events: seq<Event>)
    requires Runs(Init(pid, timeout), events)
    ensures Inv(After(pid, timeout, events))
  {
    InitInv(pid, timeout);
    RunKeepsInv(Init(pid, timeout), events);
  }

  // ------------------------------------------------------------------
  // Provenance
  // ------------------------------------------------------------------

  /** A PIN that a request obtained was sent by a control client that named this
      request's identifier and read exactly these octets; one control client
      serves at most one request; one identifier is claimed at most once. */
  lemma PinProvenance(pid: nat, timeout: nat, events: seq<Event>)
    requires Runs(Init(pid, timeout), events)
    ensures var s := After(pid, timeout, events);
            && (forall r | r in s.requests && Served(s.requests[r]) ::
                  var d := s.requests[r].pc.outcome.delivery;
                  && d.from in s.controls
                  && s.controls[d.from].id == s.Id(r)
                  && s.controls[d.from].pin == d.pin
                  && s.controls[d.from].pc.Delivered())
            && (forall q, r | q in s.requests && r in s.requests
                              && Served(s.requests[q]) && Served(s.requests[r])
                              && s.requests[q].pc.outcome.delivery.from == s.requests[r].pc.outcome.delivery.from ::
                  q == r)
            && (forall i, j | i in s.controls && j in s.controls
                              && s.controls[i].pc.Owner().Some? && s.controls[j].pc.Owner().Some?
                              && s.controls[i].id == s.controls[j].id ::
                  i == j)
  {
    ReachableInv(pid, timeout, events);
    var s := After(pid, timeout, events);
    forall r | r in s.requests && Served(s.requests[r])
      ensures var d := s.requests[r].pc.outcome.delivery;
              CameFrom(s, r, d) && s.controls[d.from].id == s.Id(r)
    {
      assert RequestInv(s, r);
      assert ControlInv(s, s.requests[r].pc.outcome.delivery.from);
    }
    forall i, j | i in s.controls && j in s.controls
                  && s.controls[i].pc.Owner().Some? && s.controls[j].pc.Owner().Some?
                  && s.controls[i].id == s.controls[j].id
      ensures i == j
    {
      assert ControlInv(s, i) && ControlInv(s, j);
    }
  }

  /** A waiting worker never sees its channel disconnected, and a claimed
      channel always has room, so `send` never blocks. */
  lemma ChannelNeverFails(pid: nat, timeout: nat, events: seq<Event>)
    requires Runs(Init(pid, timeout), events)
    ensures var s := After(pid, timeout, events);
            && (forall r | r in s.requests && s.requests[r].pc.Receiving? ::
                  s.requests[r].senderAlive || s.requests[r].buffer.Some?)
            && (forall r | r in s.requests
                           && (s.requests[r].pc.Leaving? || s.requests[r].pc.Removed? || s.requests[r].pc.Returned?) ::
                  s.requests[r].pc.outcome != Disconnected)
            && (forall j | j in s.controls && s.controls[j].pc.Claimed? :: !SendBlocks(s, j))
  {
    ReachableInv(pid, timeout, events);
    var s := After(pid, timeout, events);
    forall r | r in s.requests ensures RequestInv(s, r) {
    }
    forall j | j in s.controls ensures ControlInv(s, j) {
    }
  }

  // ------------------------------------------------------------------
  // Bounded queue
  // ------------------------------------------------------------------

  /** An injection bounds the size of its domain. */
  lemma {:induction false} InjectionBounds<A, B>(f: map<A, B>, target: set<B>)
    requires forall a | a in f :: f[a] in target
    requires forall a, b | a in f && b in f && f[a] == f[b] :: a == b
    ensures |f| <= |target|
    decreases |f|
  {
    if f != map[] {
      var a :| a in f;
      var rest := f - {a};
      assert |rest| == |f| - 1 by {
        assert rest.Keys == f.Keys - {a};
        assert |f.Keys| == |f| && |rest.Keys| == |rest|;
      }
      InjectionBounds(rest, target - {f[a]});
    }
  }

  /** There are never more pending entries than live permits, nor more than
      sixteen permits. */
  lemma PendingIsBounded(pid: nat, timeout: nat, events: seq<Event>)
    requires Runs(Init(pid, timeout), events)
    ensures var s := After(pid, timeout, events);
            |s.authorizations| <= |s.limiter.permits| == s.limiter.active <= 16
  {
    ReachableInv(pid, timeout, events);
    PendingFitsPermits(After(pid, timeout, events));
  }

  lemma PendingFitsPermits(s: State)
    requires Inv(s)
    ensures |s.authorizations| <= |s.limiter.permits|
  {
    var workers := map id | id in s.authorizations :: WorkerOf(s, id);
    forall id | id in s.authorizations ensures WorkerOf(s, id) in s.limiter.permits {
      EntryHasWorker(s, id);
    }
    forall a, b | a in s.authorizations && b in s.authorizations && WorkerOf(s, a) == WorkerOf(s, b) ensures a == b {
      EntryHasWorker(s, a);
      EntryHasWorker(s, b);
    }
    InjectionBounds(workers, s.limiter.permits);
    assert workers.Keys == s.authorizations.Keys;
    assert |workers| == |workers.Keys| && |s.authorizations| == |s.authorizations.Keys|;
  }

  function WorkerOf(s: State, id: seq<byte>): nat
    requires id in s.authorizations
  {
    var r := s.authorizations[id];
    if r in s.requests then s.requests[r].worker else 0
  }

  lemma EntryHasWorker(s: State, id: seq<byte>)
    requires Inv(s) && id in s.authorizations
    ensures var r := s.authorizations[id];
            && r in s.requests && !s.requests[r].pc.Returned? && id == s.Id(r)
            && WorkerOf(s, id) in s.limiter.permits
  {
    assert EntryInv(s, id);
    assert RequestInv(s, s.authorizations[id]);
  }

  // ------------------------------------------------------------------
  // Time
  // ------------------------------------------------------------------

  /** Each sleep lasts at least one poll interval, so the number of polls is
      tied to the time spent since the request was published. */
  ghost predicate TimeInv(s: State, r: u64)
    requires r in s.requests
  {
    var q := s.requests[r];
    && (q.polls >= 2 ==> 50 * (q.polls - 2) < s.timeout)
    && match q.pc
       case Minted => q.polls == 0
       case Inserted => q.polls == 0
       case Receiving => && s.clock >= q.start + 50 * q.polls
                         && (q.polls >= 1 ==> 50 * (q.polls - 1) < s.timeout)
       case CheckingDeadline => q.polls >= 1 && s.clock >= q.start + 50 * (q.polls - 1)
       case CheckingClient => && q.polls >= 1
                              && s.clock >= q.start + 50 * (q.polls - 1)
                              && 50 * (q.polls - 1) < s.timeout
       case Sleeping(until) => && q.polls >= 1
                               && until >= q.start + 50 * q.polls
                               && 50 * (q.polls - 1) < s.timeout
       case _ => && (q.pc.outcome.TimedOut? ==> s.clock >= q.start + s.timeout)
                 && (q.pc.outcome.Cancelled? ==> q.cancelled)
  }

  ghost predicate AllTimes(s: State) {
    && s.sequence !in s.requests
    && forall r | r in s.requests :: r < s.sequence && TimeInv(s, r)
  }

  lemma TimeKept(s: State, e: Event, r: u64)
    requires Enabled(s, e)
    requires s.sequence !in s.requests
    requires r in s.requests ==> TimeInv(s, r)
    requires r in Next(s, e).requests
    ensures TimeInv(Next(s, e), r)
  {
    if RequestOf(e) == Some(r) {
      OwnTimeKept(s, e, r);
    } else if r in s.requests {
      OtherStepKeepsPace(s, e, r);
    }
  }

  lemma OwnTimeKept(s: State, e: Event, r: u64)
    requires Enabled(s, e) && RequestOf(e) == Some(r)
    requires r in s.requests && TimeInv(s, r)
    ensures TimeInv(Next(s, e), r)
  {
    if e.TryReceive? {
      PollTimeKept(s, r);
    }
  }

  lemma PollTimeKept(s: State, r: u64)
    requires Enabled(s, TryReceive(r)) && TimeInv(s, r)
    ensures TimeInv(Next(s, TryReceive(r)), r)
  {
  }

  /** The request stands where it stood, and time has not gone back. */
  ghost predicate StandsStill(s: State, t: State, r: u64)
    requires r in s.requests
  {
    && t.clock >= s.clock && t.timeout == s.timeout && t.ids == s.ids
    && r in t.requests
    && var q, p := s.requests[r], t.requests[r];
       (p.pc, p.start, p.polls, p.cancelled, p.name) == (q.pc, q.start, q.polls, q.cancelled, q.name)
  }

  lemma OtherStepKeepsPace(s: State, e: Event, r: u64)
    requires Enabled(s, e) && RequestOf(e) != Some(r)
    requires s.sequence !in s.requests && r in s.requests
    ensures StandsStill(s, Next(s, e), r)
  {
    if RequestOf(e).Some? {
      OtherWorkerStep(s, e, r);
    } else if e.Claim? || e.Send? || e.Close? {
      ControlStep(s, e, r);
    } else {
      RemainingStep(s, e, r);
    }
  }

  lemma OtherWorkerStep(s: State, e: Event, r: u64)
    requires Enabled(s, e) && RequestOf(e).Some? && RequestOf(e) != Some(r) && r in s.requests
    ensures StandsStill(s, Next(s, e), r)
  {
  }

  lemma ControlStep(s: State, e: Event, r: u64)
    requires Enabled(s, e) && (e.Claim? || e.Send? || e.Close?) && r in s.requests
    ensures StandsStill(s, Next(s, e), r)
  {
  }

  lemma RemainingStep(s: State, e: Event, r: u64)
    requires Enabled(s, e) && RequestOf(e) == None && !e.Claim? && !e.Send? && !e.Close?
    requires s.sequence !in s.requests && r in s.requests
    ensures StandsStill(s, Next(s, e), r)
  {
  }

  lemma SequenceKept(s: State, e: Event)
    requires Enabled(s, e) && AllTimes(s)
    ensures forall r | r in Next(s, e).requests :: r < Next(s, e).sequence
  {
  }

  lemma {:induction false} TimesHold(s: State, events: seq<Event>)
    requires AllTimes(s) && Runs(s, events)
    ensures AllTimes(Run(s, events)) && Run(s, events).timeout == s.timeout
    decreases |events|
  {
    if events != [] {
      var t := Next(s, events[0]);
      SequenceKept(s, events[0]);
      forall r | r in t.requests ensures TimeInv(t, r) {
        TimeKept(s, events[0], r);
      }
      TimesHold(t, events[1..]);
    }
  }

  /** No request polls more than ceil(timeout / 50 ms) + 1 times, none reports a
      timeout before its deadline, and none reports a disconnect that did not
      happen. */
  lemma PollingIsBounded(pid: nat, timeout: nat, events: seq<Event>)
    requires Runs(Init(pid, timeout), events)
    ensures var s := After(pid, timeout, events);
            forall r | r in s.requests ::
              var q := s.requests[r];
              && q.polls <= (timeout + 49) / 50 + 1
              && (q.pc == Returned(TimedOut) ==> s.clock >= q.start + timeout)
              && (q.pc == Returned(Cancelled) ==> q.cancelled)
  {
    TimesHold(Init(pid, timeout), events);
    var s := After(pid, timeout, events);
    forall r | r in s.requests ensures TimeInv(s, r) {
    }
  }

  /** A request is marked as cancelled exactly if its client has disconnected. */
  lemma CancelledIffDisconnected(pid: nat, timeout: nat, events: seq<Event>, r: u64)
    requires Runs(Init(pid, timeout), events) && r in After(pid, timeout, events).requests
    ensures After(pid, timeout, events).requests[r].cancelled <==> Disconnect(r) in events
  {
    TimesHold(Init(pid, timeout), events);
    CancelledOnlyByDisconnect(Init(pid, timeout), events, r);
  }

  lemma {:induction false} CancelledOnlyByDisconnect(s: State, events: seq<Event>, r: u64)
    requires AllTimes(s) && Runs(s, events) && r in Run(s, events).requests
    ensures Run(s, events).requests[r].cancelled <==>
            (r in s.requests && s.requests[r].cancelled) || Disconnect(r) in events
    decreases |events|
  {
    if events != [] {
      var e, rest := events[0], events[1..];
      assert events == [e] + rest;
      TimesHold(s, [e]);
      assert Run(s, [e]) == Next(s, e);
      CancelledStep(s, e, r);
      CancelledOnlyByDisconnect(Next(s, e), rest, r);
    }
  }

  lemma CancelledStep(s: State, e: Event, r: u64)
    requires Enabled(s, e) && s.sequence !in s.requests
    ensures r in s.requests ==> r in Next(s, e).requests
    ensures e == Disconnect(r) ==> r in s.requests
    ensures r in Next(s, e).requests ==>
              (Next(s, e).requests[r].cancelled <==> (r in s.requests && s.requests[r].cancelled) || e == Disconnect(r))
  {
    if RequestOf(e) == Some(r) {
      OwnCancelledStep(s, e, r);
    } else if r in s.requests {
      OtherStepKeepsPace(s, e, r);
    } else {
      OnlyMintAdds(s, e, r);
    }
  }

  lemma OwnCancelledStep(s: State, e: Event, r: u64)
    requires Enabled(s, e) && RequestOf(e) == Some(r)
    ensures r in s.requests && r in Next(s, e).requests
    ensures Next(s, e).requests[r].cancelled <==> s.requests[r].cancelled || e == Disconnect(r)
  {
  }

  lemma OnlyMintAdds(s: State, e: Event, r: u64)
    requires Enabled(s, e) && RequestOf(e) != Some(r) && r !in s.requests
    ensures r in Next(s, e).requests ==> e.Mint? && !Next(s, e).requests[r].cancelled
  {
  }

  /** How often a request may still poll once its client has gone. */
  function PollsLeft(q: Request): nat {
    if q.pc.Minted? || q.pc.Inserted? || q.pc.Receiving? || q.pc.Sleeping? then 1 else 0
  }

  /** A request whose client has disconnected polls at most once more, and not at
      all if it has polled since it last slept. */
  lemma {:induction false} GoneClientEndsPolling(s: State, events: seq<Event>, r: u64)
    requires Inv(s) && Runs(s, events) && r in s.requests && s.requests[r].cancelled
    ensures var t := Run(s, events);
            && r in t.requests && t.requests[r].cancelled
            && t.requests[r].polls + PollsLeft(t.requests[r]) <= s.requests[r].polls + PollsLeft(s.requests[r])
    decreases |events|
  {
    if events != [] {
      SubjectKnown(s, events[0]);
      CancelledPolls(s, events[0], r);
      StepKeepsInv(s, events[0]);
      GoneClientEndsPolling(Next(s, events[0]), events[1..], r);
    }
  }

  lemma CancelledPolls(s: State, e: Event, r: u64)
    requires Enabled(s, e) && s.sequence !in s.requests
    requires r in s.requests && s.requests[r].cancelled
    ensures var t := Next(s, e);
            && r in t.requests && t.requests[r].cancelled
            && t.requests[r].polls + PollsLeft(t.requests[r]) <= s.requests[r].polls + PollsLeft(s.requests[r])
  {
    if RequestOf(e) == Some(r) {
      OwnCancelledPoll(s, e, r);
    } else {
      OtherStepKeepsPace(s, e, r);
    }
  }

  lemma OwnCancelledPoll(s: State, e: Event, r: u64)
    requires Enabled(s, e) && RequestOf(e) == Some(r) && r in s.requests && s.requests[r].cancelled
    ensures var t := Next(s, e);
            && r in t.requests && t.requests[r].cancelled
            && t.requests[r].polls + PollsLeft(t.requests[r]) <= s.requests[r].polls + PollsLeft(s.requests[r])
  {
  }

  // ------------------------------------------------------------------
  // After the request
  // ------------------------------------------------------------------

  /** Once a worker has withdrawn its entry, the identifier never becomes
      pending again, so every later claim of it is refused. */
  lemma {:induction false} GoneStaysGone(s: State, events: seq<Event>, r: u64)
    requires Inv(s) && Runs(s, events)
    requires r in s.requests && s.requests[r].pc.Gone()
    ensures var t := Run(s, events);
            && r in t.requests && t.requests[r].pc.Gone()
            && t.requests[r].pc.outcome == s.requests[r].pc.outcome
            && s.Id(r) !in t.authorizations
            && (forall j | Enabled(t, Claim(j)) && t.controls[j].id == s.Id(r) ::
                  Next(t, Claim(j)).controls[j].pc == Refused)
    decreases |events|
  {
    if events == [] {
      assert s.Id(r) in s.authorizations ==> EntryInv(s, s.Id(r));
    } else {
      StepKeepsInv(s, events[0]);
      GoneStep(s, events[0], r);
      GoneStaysGone(Next(s, events[0]), events[1..], r);
    }
  }

  lemma GoneStep(s: State, e: Event, r: u64)
    requires Inv(s) && Enabled(s, e)
    requires r in s.requests && s.requests[r].pc.Gone()
    ensures var t := Next(s, e);
            && t.ids == s.ids
            && r in t.requests && t.requests[r].pc.Gone()
            && t.requests[r].pc.outcome == s.requests[r].pc.outcome
  {
    SubjectKnown(s, e);
    if RequestOf(e) == Some(r) {
      OwnStepAfterLoop(s, e, r);
    } else {
      OtherStepKeepsPace(s, e, r);
    }
  }

  /** Outside its loop a worker only goes on to withdraw and to return. */
  lemma OwnStepAfterLoop(s: State, e: Event, r: u64)
    requires Enabled(s, e) && RequestOf(e) == Some(r)
    requires s.requests[r].pc.Leaving? || s.requests[r].pc.Gone()
    ensures var t := Next(s, e);
            && t.ids == s.ids
            && r in t.requests && (t.requests[r].pc.Leaving? || t.requests[r].pc.Gone())
            && (s.requests[r].pc.Gone() ==> t.requests[r].pc.Gone())
            && t.requests[r].pc.outcome == s.requests[r].pc.outcome
  {
  }

  // ------------------------------------------------------------------
  // Is a sent PIN used?
  // ------------------------------------------------------------------

  /** A PIN lying in a channel reaches its request exactly when the request
      polls the channel once more. */
  lemma {:induction false} DeliveredIffPolledAgain(s: State, events: seq<Event>, r: u64, d: Delivery)
    requires Inv(s) && Runs(s, events)
    requires r in s.requests && s.requests[r].buffer == Some(d)
    ensures var t := Run(s, events);
            && r in t.requests
            && (t.requests[r].pc.Got(d) <==> TryReceive(r) in events)
    decreases |events|
  {
    if events == [] {
      assert RequestInv(s, r);
    } else {
      var e, t := events[0], Next(s, events[0]);
      StepKeepsInv(s, e);
      BufferStep(s, e, r, d);
      assert events == [e] + events[1..];
      if e == TryReceive(r) {
        GotStaysGot(t, events[1..], r, d);
      } else {
        DeliveredIffPolledAgain(t, events[1..], r, d);
      }
    }
  }

  lemma BufferStep(s: State, e: Event, r: u64, d: Delivery)
    requires Inv(s) && Enabled(s, e)
    requires r in s.requests && s.requests[r].buffer == Some(d)
    ensures var t := Next(s, e);
            && r in t.requests
            && (if e == TryReceive(r) then t.requests[r].pc.Got(d) else t.requests[r].buffer == Some(d))
  {
    SubjectKnown(s, e);
    assert RequestInv(s, r);
    if RequestOf(e) == Some(r) {
      OwnBufferStep(s, e, r, d);
    } else if e.Send? || e.Close? || e.Claim? {
      ControlBufferStep(s, e, r, d);
    } else {
      OtherBufferStep(s, e, r, d);
    }
  }

  lemma OwnBufferStep(s: State, e: Event, r: u64, d: Delivery)
    requires Enabled(s, e) && RequestOf(e) == Some(r) && s.requests[r].buffer == Some(d)
    ensures var t := Next(s, e);
            && r in t.requests
            && (if e == TryReceive(r) then t.requests[r].pc.Got(d) else t.requests[r].buffer == Some(d))
  {
  }

  lemma ControlBufferStep(s: State, e: Event, r: u64, d: Delivery)
    requires Inv(s) && Enabled(s, e) && (e.Send? || e.Close? || e.Claim?)
    requires r in s.requests && s.requests[r].buffer == Some(d)
    ensures r in Next(s, e).requests && Next(s, e).requests[r].buffer == Some(d)
  {
    assert ControlInv(s, e.control);
  }

  lemma OtherBufferStep(s: State, e: Event, r: u64, d: Delivery)
    requires Enabled(s, e) && RequestOf(e) != Some(r) && !e.Send? && !e.Close? && !e.Claim?
    requires s.sequence !in s.requests && r in s.requests && s.requests[r].buffer == Some(d)
    ensures r in Next(s, e).requests && Next(s, e).requests[r].buffer == Some(d)
  {
  }

  lemma {:induction false} GotStaysGot(s: State, events: seq<Event>, r: u64, d: Delivery)
    requires Inv(s) && Runs(s, events)
    requires r in s.requests && s.requests[r].pc.Got(d)
    ensures var t := Run(s, events);
            r in t.requests && t.requests[r].pc.Got(d)
    decreases |events|
  {
    if events != [] {
      StepKeepsInv(s, events[0]);
      GotStep(s, events[0], r, d);
      GotStaysGot(Next(s, events[0]), events[1..], r, d);
    }
  }

  lemma GotStep(s: State, e: Event, r: u64, d: Delivery)
    requires Inv(s) && Enabled(s, e)
    requires r in s.requests && s.requests[r].pc.Got(d)
    ensures var t := Next(s, e);
            r in t.requests && t.requests[r].pc.Got(d)
  {
    SubjectKnown(s, e);
    if RequestOf(e) == Some(r) {
      OwnStepAfterLoop(s, e, r);
    } else {
      OtherStepKeepsPace(s, e, r);
    }
  }
}

/** Is a PIN that was sent also used? Where the worker stands when the PIN arrives
    decides, and "OK authorized" does not wait for the answer. */
module PinFate {
  import opened Wrappers
  import opened Bytes
  import opened Texts
  import opened Rendezvous
  import opened RendezvousTheorems

  /** The worker has at least one poll ahead of it, whatever happens. */
  predicate MustPoll(s: State, r: u64)
    requires r in s.requests
  {
    var pc := s.requests[r].pc;
    pc.Inserted? || pc.Receiving? || pc.Sleeping?
  }

  /** The worker has no poll ahead of it, whatever happens. */
  predicate CannotPoll(s: State, r: u64)
    requires r in s.requests
  {
    var q := s.requests[r];
    || q.pc.Leaving? || q.pc.Gone()
    || (q.pc.CheckingDeadline? && (s.clock >= q.start + s.timeout || q.cancelled))
    || (q.pc.CheckingClient? && q.cancelled)
  }

  /** The request has been decided and has withdrawn its entry. */
  ghost predicate Ends(s: State, events: seq<Event>, r: u64) {
    && Runs(s, events)
    && r in Run(s, events).requests && Run(s, events).requests[r].pc.Gone()
  }

  ghost predicate AlwaysUsed(s: State, r: u64, d: Delivery) {
    forall events | Ends(s, events, r) :: Run(s, events).requests[r].pc.Got(d)
  }

  ghost predicate NeverUsed(s: State, r: u64, d: Delivery) {
    forall events | Ends(s, events, r) :: !Run(s, events).requests[r].pc.Got(d)
  }

  lemma MustPollStep(s: State, e: Event, r: u64)
    requires Enabled(s, e) && s.sequence !in s.requests
    requires r in s.requests && MustPoll(s, r) && e != TryReceive(r)
    ensures r in Next(s, e).requests && MustPoll(Next(s, e), r)
  {
    if RequestOf(e) != Some(r) {
      OtherStepKeepsPace(s, e, r);
    }
  }

  lemma CannotPollStep(s: State, e: Event, r: u64)
    requires Enabled(s, e) && s.sequence !in s.requests
    requires r in s.requests && CannotPoll(s, r)
    ensures r in Next(s, e).requests && CannotPoll(Next(s, e), r) && e != TryReceive(r)
  {
    if RequestOf(e) != Some(r) {
      OtherStepKeepsPace(s, e, r);
    }
  }

  lemma {:induction false} MustPollBeforeEnd(s: State, events: seq<Event>, r: u64)
    requires Inv(s) && Runs(s, events) && r in s.requests && MustPoll(s, r)
    requires TryReceive(r) !in events
    ensures r in Run(s, events).requests && MustPoll(Run(s, events), r)
    decreases |events|
  {
    if events != [] {
      assert events[0] in events && forall e | e in events[1..] :: e in events;
      StepKeepsInv(s, events[0]);
      SubjectKnown(s, events[0]);
      MustPollStep(s, events[0], r);
      MustPollBeforeEnd(Next(s, events[0]), events[1..], r);
    }
  }

  lemma {:induction false} CannotPollEver(s: State, events: seq<Event>, r: u64)
    requires Inv(s) && Runs(s, events) && r in s.requests && CannotPoll(s, r)
    ensures TryReceive(r) !in events
    decreases |events|
  {
    if events != [] {
      StepKeepsInv(s, events[0]);
      SubjectKnown(s, events[0]);
      CannotPollStep(s, events[0], r);
      CannotPollEver(Next(s, events[0]), events[1..], r);
      assert events == [events[0]] + events[1..];
    }
  }

  // ------------------------------------------------------------------
  // Runs that end either way
  // ------------------------------------------------------------------

  lemma Prepend(s: State, e: Event, rest: seq<Event>)
    requires Enabled(s, e) && Runs(Next(s, e), rest)
    ensures Runs(s, [e] + rest) && Run(s, [e] + rest) == Run(Next(s, e), rest)
    ensures forall r :: Ends(Next(s, e), rest, r) ==> Ends(s, [e] + rest, r)
  {
    BeginWith(s, e, rest);
  }

  /** From outside the loop the worker only has to withdraw. */
  lemma WithdrawingRun(s: State, r: u64) returns (events: seq<Event>)
    requires r in s.requests && (s.requests[r].pc.Leaving? || s.requests[r].pc.Gone())
    ensures Ends(s, events, r) && TryReceive(r) !in events
  {
    events := [];
    if s.requests[r].pc.Leaving? {
      assert Ends(Next(s, RemoveEntry(r)), [], r);
      Prepend(s, RemoveEntry(r), []);
      events := [RemoveEntry(r)] + [];
    }
  }

  /** Unless a poll is certain, the worker may end without one: the deadline may
      pass, or the client may leave, before it looks again. */
  lemma MissingRun(s: State, r: u64) returns (events: seq<Event>)
    requires r in s.requests && !s.requests[r].pc.Minted? && !MustPoll(s, r)
    ensures Ends(s, events, r) && TryReceive(r) !in events
  {
    match s.requests[r].pc {
      case CheckingDeadline =>
        var late := Tick(s.requests[r].start + s.timeout);
        var s1 := Next(s, late);
        events := WithdrawingRun(Next(s1, CheckDeadline(r)), r);
        Prepend(s1, CheckDeadline(r), events);
        events := [CheckDeadline(r)] + events;
        Prepend(s, late, events);
        events := [late] + events;
      case CheckingClient =>
        var s1 := Next(s, Disconnect(r));
        events := WithdrawingRun(Next(s1, CheckClient(r)), r);
        Prepend(s1, CheckClient(r), events);
        events := [CheckClient(r)] + events;
        Prepend(s, Disconnect(r), events);
        events := [Disconnect(r)] + events;
      case _ =>
        events := WithdrawingRun(s, r);
    }
  }

  /** With a PIN waiting, the next poll ends the loop. */
  lemma PollingRun(s: State, r: u64) returns (events: seq<Event>)
    requires At(s, r, Receiving) && s.requests[r].buffer.Some?
    ensures Ends(s, events, r) && TryReceive(r) in events
  {
    var rest := WithdrawingRun(Next(s, TryReceive(r)), r);
    Prepend(s, TryReceive(r), rest);
    events := [TryReceive(r)] + rest;
  }

  lemma AwakeningRun(s: State, r: u64) returns (events: seq<Event>)
    requires r in s.requests && s.requests[r].pc.Sleeping? && s.requests[r].buffer.Some?
    ensures Ends(s, events, r) && TryReceive(r) in events
  {
    var wait := Tick(s.requests[r].pc.until);
    var s1 := Next(s, wait);
    events := PollingRun(Next(s1, Wake(r)), r);
    Prepend(s1, Wake(r), events);
    events := [Wake(r)] + events;
    Prepend(s, wait, events);
    events := [wait] + events;
  }

  lemma PresentRun(s: State, r: u64) returns (events: seq<Event>)
    requires At(s, r, CheckingClient) && !s.requests[r].cancelled && s.requests[r].buffer.Some?
    ensures Ends(s, events, r) && TryReceive(r) in events
  {
    events := AwakeningRun(Next(s, CheckClient(r)), r);
    Prepend(s, CheckClient(r), events);
    events := [CheckClient(r)] + events;
  }

  /** Unless a poll is impossible, the worker may poll once more. */
  lemma FindingRun(s: State, r: u64) returns (events: seq<Event>)
    requires r in s.requests && !s.requests[r].pc.Minted? && s.requests[r].buffer.Some? && !CannotPoll(s, r)
    ensures Ends(s, events, r) && TryReceive(r) in events
  {
    match s.requests[r].pc {
      case Inserted =>
        events := PollingRun(Next(s, SetDeadline(r)), r);
        Prepend(s, SetDeadline(r), events);
        events := [SetDeadline(r)] + events;
      case Receiving => events := PollingRun(s, r);
      case Sleeping(_) => events := AwakeningRun(s, r);
      case CheckingClient => events := PresentRun(s, r);
      case CheckingDeadline =>
        events := PresentRun(Next(s, CheckDeadline(r)), r);
        Prepend(s, CheckDeadline(r), events);
        events := [CheckDeadline(r)] + events;
    }
  }

  // ------------------------------------------------------------------
  // The exact condition
  // ------------------------------------------------------------------

  /** A PIN in the channel is used in every run that ends exactly when the worker
      is still to poll unconditionally: it has not started its loop, is about to
      poll, or sleeps. */
  lemma AlwaysUsedIff(s: State, r: u64, d: Delivery)
    requires Inv(s) && r in s.requests && s.requests[r].buffer == Some(d)
    ensures AlwaysUsed(s, r, d) <==> MustPoll(s, r)
  {
    assert RequestInv(s, r);
    if MustPoll(s, r) {
      forall events | Ends(s, events, r) ensures Run(s, events).requests[r].pc.Got(d) {
        DeliveredIffPolledAgain(s, events, r, d);
        if TryReceive(r) !in events {
          MustPollBeforeEnd(s, events, r);
        }
      }
    } else {
      var events := MissingRun(s, r);
      DeliveredIffPolledAgain(s, events, r, d);
    }
  }

  /** It is used in no run exactly when the worker has left its loop, or is about
      to find that the deadline has passed or that the client has left. */
  lemma NeverUsedIff(s: State, r: u64, d: Delivery)
    requires Inv(s) && r in s.requests && s.requests[r].buffer == Some(d)
    ensures NeverUsed(s, r, d) <==> CannotPoll(s, r)
  {
    assert RequestInv(s, r);
    if CannotPoll(s, r) {
      forall events | Ends(s, events, r) ensures !Run(s, events).requests[r].pc.Got(d) {
        DeliveredIffPolledAgain(s, events, r, d);
        CannotPollEver(s, events, r);
      }
    } else {
      var events := FindingRun(s, r);
      DeliveredIffPolledAgain(s, events, r, d);
    }
  }

  /** When a control client sends and will therefore answer "OK authorized", the
      PIN is sure to be used exactly if the worker stands where it must poll
      again, and sure to be lost exactly if it cannot. */
  lemma AuthorizedMeansUsedIff(s: State, j: nat)
    requires Inv(s) && Enabled(s, Send(j))
    requires var r := s.controls[j].pc.request; r in s.requests && !s.requests[r].pc.Returned?
    ensures var r, t, d := s.controls[j].pc.request, Next(s, Send(j)), Delivery(s.controls[j].pin, j);
            && t.controls[j].pc == Sent(r)
            && (AlwaysUsed(t, r, d) <==> MustPoll(s, r))
            && (NeverUsed(t, r, d) <==> CannotPoll(s, r))
  {
    var r, t, d := s.controls[j].pc.request, Next(s, Send(j)), Delivery(s.controls[j].pin, j);
    StepKeepsInv(s, Send(j));
    assert t.requests[r] == s.requests[r].(buffer := Some(d)) && t.clock == s.clock && t.timeout == s.timeout;
    AlwaysUsedIff(t, r, d);
    NeverUsedIff(t, r, d);
  }

  // ------------------------------------------------------------------
  // "OK authorized" does not mean that the PIN was used
  // ------------------------------------------------------------------

  lemma GiveUp(s: State, r: u64, j: nat) returns (events: seq<Event>)
    requires At(s, r, CheckingDeadline) && s.clock >= s.requests[r].start + s.timeout
    requires s.Id(r) !in s.authorizations
    requires j in s.controls && s.controls[j].pc == Sent(r)
    ensures Runs(s, events)
    ensures var t := Run(s, events);
            && At(t, r, Returned(TimedOut))
            && j in t.controls && t.controls[j] == s.controls[j].(pc := Closed(r, true))
  {
    var s1 := Next(s, CheckDeadline(r));
    var s2 := Next(s1, RemoveEntry(r));
    var s3 := Next(s2, Return(r));
    Prepend(s3, Close(j), []);
    events := [Close(j)] + [];
    Prepend(s2, Return(r), events);
    events := [Return(r)] + events;
    Prepend(s1, RemoveEntry(r), events);
    events := [RemoveEntry(r)] + events;
    Prepend(s, CheckDeadline(r), events);
    events := [CheckDeadline(r)] + events;
  }

  /** From any point between a failed poll and the deadline test, a claim, a
      send and the deadline itself may all come before the worker looks again. */
  lemma SendAfterLastPoll(s: State, r: u64, j: nat, pin: Pin) returns (events: seq<Event>)
    requires At(s, r, CheckingDeadline) && s.requests[r].buffer == None
    requires s.Id(r) in s.authorizations && s.authorizations[s.Id(r)] == r
    requires j !in s.controls && 6 <= |pin| <= 64
    requires s.clock >= s.requests[r].start
    ensures Runs(s, events)
    ensures var t := Run(s, events);
            && At(t, r, Returned(TimedOut))
            && j in t.controls && t.controls[j] == Control(s.Id(r), pin, Closed(r, true))
  {
    var s1 := Next(s, ReadPin(j, s.Id(r), pin));
    var s2 := Next(s1, Claim(j));
    var s3 := Next(s2, Send(j));
    var s4 := Next(s3, Tick(s.timeout));
    events := GiveUp(s4, r, j);
    Prepend(s3, Tick(s.timeout), events);
    events := [Tick(s.timeout)] + events;
    Prepend(s2, Send(j), events);
    events := [Send(j)] + events;
    Prepend(s1, Claim(j), events);
    events := [Claim(j)] + events;
    Prepend(s, ReadPin(j, s.Id(r), pin), events);
    events := [ReadPin(j, s.Id(r), pin)] + events;
  }

  /** A run of the agent in which a control client is told "OK authorized" while
      the request times out without the PIN. */
  lemma AuthorizedButUnused(pid: nat, timeout: nat, name: Text, pin: Pin) returns (events: seq<Event>)
    requires 0 < |name| <= 4096 && 6 <= |pin| <= 64
    ensures Runs(Init(pid, timeout), events)
    ensures var s := After(pid, timeout, events);
            && At(s, 1, Returned(TimedOut))
            && 0 in s.controls && s.controls[0] == Control(RequestId(pid, 1), pin, Closed(1, true))
  {
    var s0 := Init(pid, timeout);
    var s1 := Next(s0, Limit(Limiter.Arrive(0)));
    var s2 := Next(s1, Mint(0, name));
    var s3 := Next(s2, Insert(1));
    var s4 := Next(s3, SetDeadline(1));
    var s5 := Next(s4, TryReceive(1));
    events := SendAfterLastPoll(s5, 1, 0, pin);
    Prepend(s4, TryReceive(1), events);
    events := [TryReceive(1)] + events;
    Prepend(s3, SetDeadline(1), events);
    events := [SetDeadline(1)] + events;
    Prepend(s2, Insert(1), events);
    events := [Insert(1)] + events;
    Prepend(s1, Mint(0, name), events);
    events := [Mint(0, name)] + events;
    Prepend(s0, Limit(Limiter.Arrive(0)), events);
    events := [Limit(Limiter.Arrive(0))] + events;
  }
}

/** The bounds of the rendezvous are reached: a request may poll as often as the
    theorems allow, and sixteen requests, but not seventeen, may be pending. */
module Bounds {
  import opened Wrappers
  import opened Bytes
  import opened Texts
  import opened Rendezvous
  import opened RendezvousTheorems

  // ------------------------------------------------------------------
  // Polls
  // ------------------------------------------------------------------

  /** The worker has polled in vain every fifty milliseconds and no later. */
  ghost predicate OnTime(s: State, r: u64) {
    && At(s, r, Receiving)
    && var q := s.requests[r];
       && q.buffer == None && q.senderAlive && !q.cancelled
       && s.clock == q.start + 50 * q.polls
       && (q.polls >= 1 ==> 50 * (q.polls - 1) < s.timeout)
  }

  /** One turn of the loop that finds nothing and sleeps fifty milliseconds. */
  lemma Turn(s: State, r: u64) returns (t: State, events: seq<Event>)
    requires OnTime(s, r) && 50 * s.requests[r].polls < s.timeout
    ensures Runs(s, events) && t == Run(s, events)
    ensures OnTime(t, r) && t.requests[r].polls == s.requests[r].polls + 1
    ensures t.timeout == s.timeout && t.requests[r].start == s.requests[r].start
  {
    var s1 := Next(s, TryReceive(r));
    var s2 := Next(s1, CheckDeadline(r));
    var s3 := Next(s2, CheckClient(r));
    var s4 := Next(s3, Tick(50));
    t := Next(s4, Wake(r));
    BeginWith(s4, Wake(r), []);
    BeginWith(s3, Tick(50), [Wake(r)] + []);
    BeginWith(s2, CheckClient(r), [Tick(50)] + ([Wake(r)] + []));
    BeginWith(s1, CheckDeadline(r), [CheckClient(r)] + ([Tick(50)] + ([Wake(r)] + [])));
    events := [CheckDeadline(r)] + ([CheckClient(r)] + ([Tick(50)] + ([Wake(r)] + [])));
    BeginWith(s, TryReceive(r), events);
    events := [TryReceive(r)] + events;
  }

  lemma {:induction false} Continue(s: State, a: seq<Event>, b: seq<Event>)
    requires Runs(s, a) && Runs(Run(s, a), b)
    ensures Runs(s, a + b) && Run(s, a + b) == Run(Run(s, a), b)
    decreases |a|
  {
    if a == [] {
      assert a + b == b;
    } else {
      assert (a + b)[1..] == a[1..] + b;
      Continue(Next(s, a[0]), a[1..], b);
    }
  }

  lemma {:induction false} PollToTheEnd(s: State, r: u64) returns (events: seq<Event>)
    requires OnTime(s, r)
    ensures Runs(s, events)
    ensures var t := Run(s, events);
            && At(t, r, Leaving(TimedOut))
            && t.requests[r].start == s.requests[r].start
            && t.requests[r].polls == (s.timeout + 49) / 50 + 1
            && t.clock == t.requests[r].start + (s.timeout + 49) / 50 * 50
    decreases s.timeout - 50 * s.requests[r].polls
  {
    if 50 * s.requests[r].polls < s.timeout {
      var t, turn := Turn(s, r);
      var rest := PollToTheEnd(t, r);
      Continue(s, turn, rest);
      events := turn + rest;
    } else {
      var s1 := Next(s, TryReceive(r));
      BeginWith(s1, CheckDeadline(r), []);
      events := [CheckDeadline(r)] + [];
      BeginWith(s, TryReceive(r), events);
      events := [TryReceive(r)] + events;
    }
  }

  /** For every timeout there is a run in which a request, published at time zero,
      polls ceil(timeout / 50 ms) + 1 times and then times out, at the first
      multiple of 50 ms that is not before its deadline. */
  lemma PollBoundIsReached(pid: nat, timeout: nat, name: Text) returns (events: seq<Event>)
    requires 0 < |name| <= 4096
    ensures Runs(Init(pid, timeout), events)
    ensures var s := After(pid, timeout, events);
            && At(s, 1, Leaving(TimedOut)) && s.requests[1].start == 0
            && s.requests[1].polls == (timeout + 49) / 50 + 1
            && s.clock == (timeout + 49) / 50 * 50
  {
    var s0 := Init(pid, timeout);
    var s1 := Next(s0, Limit(Limiter.Arrive(0)));
    var s2 := Next(s1, Mint(0, name));
    var s3 := Next(s2, Insert(1));
    var s4 := Next(s3, SetDeadline(1));
    events := PollToTheEnd(s4, 1);
    BeginWith(s3, SetDeadline(1), events);
    events := [SetDeadline(1)] + events;
    BeginWith(s2, Insert(1), events);
    events := [Insert(1)] + events;
    BeginWith(s1, Mint(0, name), events);
    events := [Mint(0, name)] + events;
    BeginWith(s0, Limit(Limiter.Arrive(0)), events);
    events := [Limit(Limiter.Arrive(0))] + events;
  }

  // ------------------------------------------------------------------
  // Pending requests
  // ------------------------------------------------------------------

  /** Threads 0 to `count` - 1 hold a permit and have published a request each. */
  ghost predicate Crowd(s: State, count: nat) {
    && s.limiter.active == s.limiter.granted == count
    && s.limiter.blocked == {} && s.limiter.awakened == {}
    && |s.authorizations| == count && s.sequence == count + 1
    && (forall r | r in s.requests :: r <= count && s.requests[r].worker < count)
  }

  lemma OneMorePending(s: State, count: nat, name: Text) returns (t: State, events: seq<Event>)
    requires Inv(s) && Crowd(s, count) && count < 16 && 0 < |name| <= 4096
    ensures Runs(s, events) && t == Run(s, events) && Inv(t) && Crowd(t, count + 1)
  {
    var arrive, mint, insert := Limit(Limiter.Arrive(count)), Mint(count, name), Insert(count + 1);
    Admitted(s, count);
    var s1 := Next(s, arrive);
    StepKeepsInv(s, arrive);
    Minted(s1, count, name);
    var s2 := Next(s1, mint);
    StepKeepsInv(s1, mint);
    NotYetFiled(s2, count + 1);
    Published(s2, count);
    t := Next(s2, insert);
    StepKeepsInv(s2, insert);
    BeginWith(s2, insert, []);
    BeginWith(s1, mint, [insert] + []);
    events := [mint] + ([insert] + []);
    BeginWith(s, arrive, events);
    events := [arrive] + events;
  }

  /** Thread `count` has its permit; `minted` tells whether it has its request. */
  ghost predicate Joining(s: State, count: nat, minted: bool) {
    && s.limiter.active == s.limiter.granted == count + 1 && count in s.limiter.permits
    && s.limiter.blocked == {} && s.limiter.awakened == {}
    && |s.authorizations| == count && s.sequence == (if minted then count + 2 else count + 1)
    && (forall r | r in s.requests :: r < s.sequence && s.requests[r].worker < (if minted then count + 1 else count))
    && (minted ==> At(s, count + 1, RequestPc.Minted))
  }

  lemma Admitted(s: State, count: nat)
    requires Crowd(s, count) && count < 16 && s.limiter.maximum == 16
    ensures Enabled(s, Limit(Limiter.Arrive(count))) && Joining(Next(s, Limit(Limiter.Arrive(count))), count, false)
  {
  }

  lemma Minted(s: State, count: nat, name: Text)
    requires Joining(s, count, false) && count < 16 && 0 < |name| <= 4096
    ensures Enabled(s, Mint(count, name)) && Joining(Next(s, Mint(count, name)), count, true)
  {
  }

  lemma NotYetFiled(s: State, r: u64)
    requires Inv(s) && At(s, r, RequestPc.Minted)
    ensures s.Id(r) !in s.authorizations
  {
  }

  lemma Published(s: State, count: nat)
    requires Joining(s, count, true) && count < 16 && s.Id(count + 1) !in s.authorizations
    ensures Enabled(s, Insert(count + 1)) && Crowd(Next(s, Insert(count + 1)), count + 1)
  {
    var t := Next(s, Insert(count + 1));
    assert t.authorizations == s.authorizations[s.Id(count + 1) := count + 1];
  }

  lemma {:induction false} CrowdGathers(pid: nat, timeout: nat, name: Text, count: nat) returns (events: seq<Event>)
    requires 0 < |name| <= 4096 && count <= 16
    ensures Runs(Init(pid, timeout), events)
    ensures Inv(After(pid, timeout, events)) && Crowd(After(pid, timeout, events), count)
    decreases count
  {
    if count == 0 {
      InitInv(pid, timeout);
      return [];
    }
    var earlier := CrowdGathers(pid, timeout, name, count - 1);
    var t, more := OneMorePending(After(pid, timeout, earlier), count - 1, name);
    Continue(Init(pid, timeout), earlier, more);
    return earlier + more;
  }

  /** In some run sixteen requests are pending at once; whoever arrives then waits. */
  lemma PendingBoundIsReached(pid: nat, timeout: nat, name: Text) returns (events: seq<Event>)
    requires 0 < |name| <= 4096
    ensures Runs(Init(pid, timeout), events)
    ensures var s := After(pid, timeout, events);
            && |s.authorizations| == |s.limiter.permits| == 16
            && forall thread: nat ::
                 && Enabled(s, Limit(Limiter.Arrive(thread)))
                 && thread in Next(s, Limit(Limiter.Arrive(thread))).limiter.blocked
  {
    events := CrowdGathers(pid, timeout, name, 16);
  }
}

/** The connection limiter: a counter behind a mutex and a condition variable.
    Every critical section is one step, so steps of different threads may
    interleave in any order. */
module Limiter {
  import opened Wrappers

  /** `active` is the counter; `permits` are the permits handed out and not yet
      dropped; `blocked` threads sit in the condition variable's wait set;
      `awakened` threads have left it but have not re-acquired the mutex. */
  datatype State = State(maximum: nat, active: nat, permits: set<nat>, granted: nat,
                         blocked: set<nat>, awakened: set<nat>)

  datatype Event =
    | Arrive(thread: nat)
    | Resume(thread: nat)
    | Spurious(thread: nat)
    | Release(permit: nat, notified: Option<nat>)

  function Init(maximum: nat): State {
    State(maximum, 0, {}, 0, {}, {})
  }

  predicate Enabled(s: State, e: Event) {
    match e
    case Arrive(t) => t !in s.blocked && t !in s.awakened
    case Resume(t) => t in s.awakened
    case Spurious(t) => t in s.blocked
    case Release(p, notified) =>
      && p in s.permits
      && (if s.blocked == {} then notified == None else notified.Some? && notified.value in s.blocked)
  }

  /** The loop test of `acquire`, with the mutex held: wait, or take a permit. */
  function TestAndTake(s: State, thread: nat): State {
    if s.active >= s.maximum
    then s.(blocked := s.blocked + {thread})
    else s.(active := s.active + 1, permits := s.permits + {s.granted}, granted := s.granted + 1)
  }

  function SaturatingDecrement(n: nat): nat {
    if n == 0 then 0 else n - 1
  }

  function Next(s: State, e: Event): State {
    match e
    case Arrive(t) => TestAndTake(s, t)
    case Resume(t) => TestAndTake(s.(awakened := s.awakened - {t}), t)
    case Spurious(t) => s.(blocked := s.blocked - {t}, awakened := s.awakened + {t})
    case Release(p, notified) =>
      var released := s.(active := SaturatingDecrement(s.active), permits := s.permits - {p});
      if notified.Some?
      then released.(blocked := s.blocked - {notified.value}, awakened := s.awakened + {notified.value})
      else released
  }

  predicate Runs(s: State, events: seq<Event>)
    decreases |events|
  {
    events == [] || (Enabled(s, events[0]) && Runs(Next(s, events[0]), events[1..]))
  }

  function Run(s: State, events: seq<Event>): State
    decreases |events|
  {
    if events == [] then s else Run(Next(s, events[0]), events[1..])
  }

  /** The counter is exact and bounded, and no wakeup is lost: while anyone is
      blocked, every free slot has an awakened thread on its way to it. */
  ghost predicate Inv(s: State) {
    && s.active == |s.permits| <= s.maximum
    && (forall p | p in s.permits :: p < s.granted)
    && s.blocked !! s.awakened
    && (s.blocked != {} ==> s.maximum - s.active <= |s.awakened|)
  }

  lemma StepKeepsInv(s: State, e: Event)
    requires Inv(s) && Enabled(s, e)
    ensures Inv(Next(s, e))
  {
    var t := Next(s, e);
    match e
    case Arrive(thread) => TakeKeepsInv(s, thread);
    case Resume(thread) => ResumeKeepsInv(s, thread);
    case Spurious(thread) =>
      assert |t.awakened| == |s.awakened| + 1;
    case Release(p, notified) => ReleaseKeepsInv(s, p, notified);
  }

  lemma TakeKeepsInv(s: State, thread: nat)
    requires Inv(s) && thread !in s.awakened
    ensures Inv(TestAndTake(s, thread))
  {
    assert s.granted !in s.permits;
  }

  lemma ResumeKeepsInv(s: State, thread: nat)
    requires Inv(s) && thread in s.awakened
    ensures Inv(TestAndTake(s.(awakened := s.awakened - {thread}), thread))
  {
    assert s.granted !in s.permits;
    assert |s.awakened - {thread}| == |s.awakened| - 1;
  }

  lemma ReleaseKeepsInv(s: State, permit: nat, notified: Option<nat>)
    requires Inv(s) && Enabled(s, Release(permit, notified))
    ensures Inv(Next(s, Release(permit, notified)))
  {
    var t := Next(s, Release(permit, notified));
    assert |t.permits| == |s.permits| - 1;
    if notified.Some? {
      assert |t.awakened| == |s.awakened| + 1;
    }
  }

  lemma {:induction false} RunKeepsInv(s: State, events: seq<Event>)
    requires Inv(s) && Runs(s, events)
    ensures Inv(Run(s, events))
    decreases |events|
  {
    if events != [] {
      StepKeepsInv(s, events[0]);
      RunKeepsInv(Next(s, events[0]), events[1..]);
    }
  }

  /** Over every run of the limiter: the counter equals the number of live
      permits and respects the maximum; dropping a permit never saturates; and a
      thread can be left blocked with no one awakened only if all slots are taken. */
  lemma LimiterSafety(maximum: nat, events: seq<Event>)
    requires Runs(Init(maximum), events)
    ensures var s := Run(Init(maximum), events);
            && s.active == |s.permits| <= maximum
            && (s.permits != {} ==> SaturatingDecrement(s.active) + 1 == s.active)
            && (s.blocked != {} ==> maximum - s.active <= |s.awakened|)
            && (s.blocked != {} && s.awakened == {} ==> s.active == maximum)
  {
    RunKeepsInv(Init(maximum), events);
    RunKeepsMaximum(Init(maximum), events);
    var s := Run(Init(maximum), events);
    if s.permits != {} {
      var p :| p in s.permits;
      assert |s.permits - {p}| == |s.permits| - 1;
    }
  }

  lemma {:induction false} RunKeepsMaximum(s: State, events: seq<Event>)
    ensures Run(s, events).maximum == s.maximum
    decreases |events|
  {
    if events != [] {
      RunKeepsMaximum(Next(s, events[0]), events[1..]);
    }
  }

  /** The limiter as the agent holds it; each method is one critical section. */
  class ConnectionLimiter {
    const maximum: nat
    var active: nat
    var blocked: set<nat>
    var awakened: set<nat>
    ghost var permits: set<nat>
    ghost var granted: nat

    ghost function Model(): State
      reads this
    {
      State(maximum, active, permits, granted, blocked, awakened)
    }

    constructor (maximum: nat)
      ensures Model() == Init(maximum) && Inv(Model())
    {
      this.maximum := maximum;
      active := 0;
      blocked, awakened := {}, {};
      permits := {};
      granted := 0;
    }

    /** `acquire`, from locking the mutex to either waiting or returning. */
    method TryAcquire(thread: nat, resumed: bool) returns (admitted: bool)
      requires Inv(Model())
      requires Enabled(Model(), if resumed then Resume(thread) else Arrive(thread))
      modifies this
      ensures Model() == Next(old(Model()), if resumed then Resume(thread) else Arrive(thread))
      ensures Inv(Model())
      ensures admitted <==> old(active) < maximum
      ensures admitted <==> thread !in Model().blocked
    {
      StepKeepsInv(Model(), if resumed then Resume(thread) else Arrive(thread));
      if resumed {
        awakened := awakened - {thread};
      }
      admitted := WaitOrTake(thread);
    }

    /** The loop test of `acquire`. */
    method WaitOrTake(thread: nat) returns (admitted: bool)
      requires thread !in blocked
      modifies this
      ensures Model() == TestAndTake(old(Model()), thread)
      ensures admitted <==> old(active) < maximum
      ensures admitted <==> thread !in blocked
    {
      if active >= maximum {
        blocked := blocked + {thread};
        return false;
      }
      active := active + 1;
      permits := permits + {granted};
      granted := granted + 1;
      return true;
    }

    /** Dropping a permit: decrement, then notify one waiter while still holding
        the mutex. */
    method Drop(ghost permit: nat) returns (notified: Option<nat>)
      requires Inv(Model()) && permit in permits
      modifies this
      ensures Enabled(old(Model()), Release(permit, notified))
      ensures Model() == Next(old(Model()), Release(permit, notified))
      ensures Inv(Model()) && active == old(active) - 1
    {
      ghost var before := Model();
      active := SaturatingDecrement(active);
      permits := permits - {permit};
      if blocked != {} {
        var woken :| woken in blocked;
        blocked, awakened := blocked - {woken}, awakened + {woken};
        notified := Some(woken);
      } else {
        notified := None;
      }
      StepKeepsInv(before, Release(permit, notified));
      assert |permits| == |before.permits| - 1;
    }
  }
}

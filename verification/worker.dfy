/** A client worker from end to end: it asks for the PIN of the key it is to use
    and signs with the PIN it gets. */
module Worker {
  import opened Wrappers
  import opened Bytes
  import opened Texts
  import opened Keys
  import opened Rendezvous
  import opened RendezvousTheorems
  import opened PendingList
  import opened Agent
  import Control
  import Signing

  // ------------------------------------------------------------------
  // What a run says about names
  // ------------------------------------------------------------------

  lemma {:induction false} SplitRun(s: State, a: seq<Event>, b: seq<Event>)
    requires Runs(s, a + b)
    ensures Runs(s, a) && Runs(Run(s, a), b) && Run(s, a + b) == Run(Run(s, a), b)
    decreases |a|
  {
    if a == [] {
      assert a + b == b;
    } else {
      assert (a + b)[1..] == a[1..] + b;
      SplitRun(Next(s, a[0]), a[1..], b);
    }
  }

  lemma NameStep(s: State, e: Event, r: u64)
    requires Enabled(s, e) && r in s.requests && s.sequence !in s.requests
    ensures r in Next(s, e).requests && Next(s, e).requests[r].name == s.requests[r].name
  {
    if RequestOf(e) != Some(r) {
      OtherStepKeepsPace(s, e, r);
    }
  }

  lemma {:induction false} NameStays(s: State, events: seq<Event>, r: u64)
    requires Inv(s) && Runs(s, events) && r in s.requests
    ensures r in Run(s, events).requests && Run(s, events).requests[r].name == s.requests[r].name
    decreases |events|
  {
    if events != [] {
      SubjectKnown(s, events[0]);
      NameStep(s, events[0], r);
      StepKeepsInv(s, events[0]);
      NameStays(Next(s, events[0]), events[1..], r);
    }
  }

  lemma NameAtAnyTime(start: State, events: seq<Event>, earlier: seq<Event>, r: u64)
    requires Inv(start) && Runs(start, events) && earlier <= events && Runs(start, earlier)
    requires r in Run(start, earlier).requests
    ensures r in Run(start, events).requests
    ensures Run(start, events).requests[r].name == Run(start, earlier).requests[r].name
  {
    var rest := events[|earlier|..];
    assert events == earlier + rest;
    SplitRun(start, earlier, rest);
    RunKeepsInv(start, earlier);
    NameStays(Run(start, earlier), rest, r);
  }

  /** A request keeps the name it was minted with. */
  lemma MintedName(start: State, events: seq<Event>, before: seq<Event>, worker: nat, name: Text)
    requires Inv(start) && Runs(start, events) && before + [Mint(worker, name)] <= events && Runs(start, before)
    ensures var r := Run(start, before).sequence;
            r in Run(start, events).requests && Run(start, events).requests[r].name == name
  {
    var minted := before + [Mint(worker, name)];
    assert events == minted + events[|minted|..];
    SplitRun(start, minted, events[|minted|..]);
    SplitRun(start, before, [Mint(worker, name)]);
    assert [Mint(worker, name)][1..] == [];
    NameAtAnyTime(start, events, minted, Run(start, before).sequence);
  }

  /** Whenever a listing shows this request's identifier, before or after, it
      shows it under this name. */
  ghost predicate ShownAs(start: State, events: seq<Event>, id: seq<byte>, name: Text) {
    forall earlier: seq<Event>, rows: seq<Control.Row>, i: nat |
      earlier <= events && Runs(start, earlier) && Enumerates(rows, Run(start, earlier)) && i < |rows| && rows[i].id == id ::
      rows[i].name == name
  }

  lemma AlwaysShownAs(start: State, events: seq<Event>, r: u64)
    requires Inv(start) && Runs(start, events) && r in Run(start, events).requests
    ensures ShownAs(start, events, Run(start, events).Id(r), Run(start, events).requests[r].name)
  {
    var id := Run(start, events).Id(r);
    forall earlier: seq<Event>, rows: seq<Control.Row>, i: nat |
      earlier <= events && Runs(start, earlier) && Enumerates(rows, Run(start, earlier)) && i < |rows| && rows[i].id == id
      ensures rows[i].name == Run(start, events).requests[r].name
    {
      var s := Run(start, earlier);
      RunKeepsInv(start, earlier);
      IdsStay(start, earlier);
      IdsStay(start, events);
      assert IsRowOf(rows[i], s) && EntryInv(s, id);
      assert s.authorizations[id] == r;
      NameAtAnyTime(start, events, earlier, r);
    }
  }

  // ------------------------------------------------------------------
  // Signing
  // ------------------------------------------------------------------

  /** The PIN was sent by a control client that named this request, which every
      listing shows under this name. */
  ghost predicate IsClientsPin(shared: Shared, request: u64, d: Delivery, name: Text)
    reads shared
  {
    && request in shared.state.requests && shared.state.requests[request].name == name
    && shared.state.requests[request].pc == Returned(Received(d))
    && CameFrom(shared.state, request, d)
    && shared.state.controls[d.from].id == shared.state.Id(request)
    && ShownAs(shared.start, shared.events, shared.state.Id(request), name)
  }

  predicate HasReturned(s: State, request: u64) {
    request in s.requests && s.requests[request].pc.Returned?
  }

  /** The PIN a returned request obtained, if any. */
  function DeliveryOf(s: State, request: u64): Option<Delivery>
    requires HasReturned(s, request)
  {
    var outcome := s.requests[request].pc.outcome;
    if outcome.Received? then Some(outcome.delivery) else None
  }

  /** `sign_with_key` with the rendezvous it really has: for a key with a PIN, a
      sign response means that the TPM was given, octet for octet, the PIN of a
      control client that named this worker's request, and that request is shown
      under this key's name. */
  method SignForClient(shared: Shared, worker: nat, key: StoredKey, data: seq<byte>, env: Signing.Environment)
    returns (reply: Result<seq<byte>, ()>, ghost request: u64, ghost delivery: Option<Delivery>)
    requires shared.Valid() && Inv(shared.start) && ValidKey(key)
    requires Enabled(shared.state, Mint(worker, key.summary.name))
    modifies shared
    ensures shared.Valid() && old(shared.events) <= shared.events
    ensures key.summary.policy == NoPin ==> shared.events == old(shared.events)
    ensures key.summary.policy == TpmPin ==>
              && old(shared.events) + [Mint(worker, key.summary.name)] <= shared.events
              && request == old(shared.state).sequence && HasReturned(shared.state, request)
              && delivery == DeliveryOf(shared.state, request)
              && (delivery.Some? ==> IsClientsPin(shared, request, delivery.value, key.summary.name))
              && (reply.Success? ==> delivery.Some?)
    ensures var pin := if delivery.Some? then Some(delivery.value.pin) else None;
            && (reply.Success? <==> Signing.Signs(key, data, env.(pin := pin)))
            && (reply.Success? ==> Signing.IsSignReply(reply.value, key, data, env.(pin := pin)))
    ensures reply.Success? ==>
              var digest := if key.summary.algorithm == EcdsaNistP256 then env.sha256(data) else env.sha384(data);
              var authorization := if key.summary.policy == NoPin then None else Some(delivery.value.pin);
              Signing.Carries(reply.value, key.summary.algorithm,
                              env.tpm(key.tpm, key.summary.algorithm, digest, authorization))
  {
    request, delivery := 0, None;
    var pin: Option<seq<byte>> := None;
    if key.summary.policy == TpmPin {
      var r, outcome := RequestPin(shared, worker, key.summary.name);
      request := r;
      if outcome.Received? {
        pin := Some(outcome.delivery.pin);
        delivery := Some(outcome.delivery);
        ClientsPin(shared, old(shared.events), worker, key.summary.name, r, outcome.delivery);
      }
    }
    reply := Signing.SignWithKey(key, data, env.(pin := pin));
  }

  lemma ClientsPin(shared: Shared, before: seq<Event>, worker: nat, name: Text, r: u64, d: Delivery)
    requires shared.Valid() && Inv(shared.start)
    requires before + [Mint(worker, name)] <= shared.events && Runs(shared.start, before)
    requires r == Run(shared.start, before).sequence
    requires At(shared.state, r, Returned(Received(d))) && CameFrom(shared.state, r, d)
    ensures IsClientsPin(shared, r, d, name)
  {
    MintedName(shared.start, shared.events, before, worker, name);
    AlwaysShownAs(shared.start, shared.events, r);
    assert ControlInv(shared.state, d.from);
  }
}

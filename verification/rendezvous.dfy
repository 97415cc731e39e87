/** The PIN rendezvous as a state machine: client workers that ask for a PIN,
    control clients that supply one, and the limiter that admits workers. Each
    event is one atomic action of the program (a lock-protected section, one
    channel operation, one atomic load), and any enabled event may come next. */
module Rendezvous {
  import opened Wrappers
  import opened Bytes
  import opened Texts
  import Limiter

  type Pin = seq<byte>

  /** A PIN in a channel, tagged with the control client that sent it. */
  datatype Delivery = Delivery(pin: Pin, from: nat)

  datatype Outcome = Received(delivery: Delivery) | Disconnected | TimedOut | Cancelled

  /** Where a worker stands inside `request_pin`. */
  datatype RequestPc =
    | Minted
    | Inserted
    | Receiving
    | CheckingDeadline
    | CheckingClient
    | Sleeping(until: nat)
    | Leaving(outcome: Outcome)
    | Removed(outcome: Outcome)
    | Returned(outcome: Outcome)
  {
    /** The worker has not yet left its polling loop. */
    predicate Waiting() {
      Inserted? || Receiving? || CheckingDeadline? || CheckingClient? || Sleeping?
    }

    /** The worker has taken its entry out of the pending map. */
    predicate Gone() {
      Removed? || Returned?
    }

    predicate Got(d: Delivery) {
      (Leaving? || Removed? || Returned?) && outcome == Received(d)
    }
  }

  /** One request and its capacity-one channel; the receiver lives until the
      worker returns. */
  datatype Request = Request(worker: nat, name: Text, pc: RequestPc, start: nat, polls: nat,
                             cancelled: bool, buffer: Option<Delivery>, senderAlive: bool)

  /** Where a control client stands inside its AUTHORIZE branch. */
  datatype ControlPc =
    | PinRead
    | Refused
    | Claimed(request: u64)
    | Sent(request: u64)
    | Undelivered(request: u64)
    | Closed(request: u64, ok: bool)
  {
    function Owner(): Option<u64> {
      if PinRead? || Refused? then None else Some(request)
    }

    predicate Delivered() {
      Sent? || (Closed? && ok)
    }
  }

  datatype Control = Control(id: seq<byte>, pin: Pin, pc: ControlPc)

  /** `ids` formats a sequence number as an identifier; `authorizations` maps an
      identifier to the request whose sender the entry holds; `sequence` is the
      global atomic counter; times are milliseconds. */
  datatype State = State(ids: u64 -> seq<byte>, timeout: nat, clock: nat, sequence: u64,
                         authorizations: map<seq<byte>, u64>,
                         requests: map<u64, Request>,
                         controls: map<nat, Control>,
                         limiter: Limiter.State)
  {
    function Id(r: u64): seq<byte> {
      ids(r)
    }

    predicate Idle(worker: nat) {
      forall r | r in requests && requests[r].worker == worker :: requests[r].pc.Returned?
    }
  }

  datatype Event =
    | Mint(worker: nat, name: Text)
    | Insert(request: u64)
    | SetDeadline(request: u64)
    | TryReceive(request: u64)
    | CheckDeadline(request: u64)
    | CheckClient(request: u64)
    | Wake(request: u64)
    | RemoveEntry(request: u64)
    | Return(request: u64)
    | Tick(elapsed: nat)
    | Disconnect(request: u64)
    | ReadPin(control: nat, id: seq<byte>, pin: Pin)
    | Claim(control: nat)
    | Send(control: nat)
    | Close(control: nat)
    | Limit(event: Limiter.Event)

  const POLL_INTERVAL: nat := 50
  const MAX_CONNECTIONS: nat := 16

  function Init(pid: nat, timeout: nat): State {
    State((n: u64) => RequestId(pid, n), timeout, 0, 1, map[], map[], map[], Limiter.Init(MAX_CONNECTIONS))
  }

  predicate At(s: State, r: u64, pc: RequestPc) {
    r in s.requests && s.requests[r].pc == pc
  }

  predicate Enabled(s: State, e: Event) {
    match e
    case Mint(w, name) => w in s.limiter.permits && s.Idle(w) && s.sequence + 1 < U64_LIMIT
                          && 0 < |name| <= 4096
    case Insert(r) => At(s, r, Minted)
    case SetDeadline(r) => At(s, r, Inserted)
    case TryReceive(r) => At(s, r, Receiving)
    case CheckDeadline(r) => At(s, r, CheckingDeadline)
    case CheckClient(r) => At(s, r, CheckingClient)
    case Wake(r) => r in s.requests && s.requests[r].pc.Sleeping? && s.clock >= s.requests[r].pc.until
    case RemoveEntry(r) => r in s.requests && s.requests[r].pc.Leaving?
    case Return(r) => r in s.requests && s.requests[r].pc.Removed?
    case Tick(_) => true
    case Disconnect(r) => r in s.requests
    case ReadPin(j, _, pin) => j !in s.controls && 6 <= |pin| <= 64
    case Claim(j) => j in s.controls && s.controls[j].pc.PinRead?
    case Send(j) => j in s.controls && s.controls[j].pc.Claimed? && !SendBlocks(s, j)
    case Close(j) => j in s.controls && (s.controls[j].pc.Sent? || s.controls[j].pc.Undelivered?)
    case Limit(le) => Limiter.Enabled(s.limiter, le) && (le.Release? ==> s.Idle(le.permit))
  }

  /** `send` waits while the receiver lives and the channel's one slot is full. */
  predicate SendBlocks(s: State, j: nat)
    requires j in s.controls && s.controls[j].pc.Claimed?
  {
    var r := s.controls[j].pc.request;
    r in s.requests && !s.requests[r].pc.Returned? && s.requests[r].buffer.Some?
  }

  function Set(s: State, r: u64, q: Request): State {
    s.(requests := s.requests[r := q])
  }

  function SetPc(s: State, r: u64, pc: RequestPc): State
    requires r in s.requests
  {
    Set(s, r, s.requests[r].(pc := pc))
  }

  function SetControl(s: State, j: nat, pc: ControlPc): State
    requires j in s.controls
  {
    s.(controls := s.controls[j := s.controls[j].(pc := pc)])
  }

  /** Dropping a map entry or a claimed value drops the sender inside it. */
  function DropSender(s: State, r: u64): State {
    if r in s.requests then Set(s, r, s.requests[r].(senderAlive := false)) else s
  }

  /** `HashMap::remove`, dropping the removed value. */
  function DropEntry(s: State, id: seq<byte>): State {
    if id in s.authorizations
    then DropSender(s, s.authorizations[id]).(authorizations := s.authorizations - {id})
    else s
  }

  function Receive(s: State, r: u64): State
    requires At(s, r, Receiving)
  {
    var q := s.requests[r].(polls := s.requests[r].polls + 1);
    if q.buffer.Some? then Set(s, r, q.(pc := Leaving(Received(q.buffer.value)), buffer := None))
    else if !q.senderAlive then Set(s, r, q.(pc := Leaving(Disconnected)))
    else Set(s, r, q.(pc := CheckingDeadline))
  }

  function Next(s: State, e: Event): State
    requires Enabled(s, e)
  {
    match e
    case Mint(w, name) =>
      Set(s, s.sequence, Request(w, name, Minted, 0, 0, false, None, true)).(sequence := s.sequence + 1)
    case Insert(r) =>
      var replaced := DropEntry(s, s.Id(r));
      SetPc(replaced.(authorizations := replaced.authorizations[s.Id(r) := r]), r, Inserted)
    case SetDeadline(r) => Set(s, r, s.requests[r].(pc := Receiving, start := s.clock))
    case TryReceive(r) => Receive(s, r)
    case CheckDeadline(r) =>
      SetPc(s, r, if s.clock >= s.requests[r].start + s.timeout then Leaving(TimedOut) else CheckingClient)
    case CheckClient(r) =>
      SetPc(s, r, if s.requests[r].cancelled then Leaving(Cancelled) else Sleeping(s.clock + POLL_INTERVAL))
    case Wake(r) => SetPc(s, r, Receiving)
    case RemoveEntry(r) =>
      SetPc(DropEntry(s, s.Id(r)), r, Removed(s.requests[r].pc.outcome))
    case Return(r) => SetPc(s, r, Returned(s.requests[r].pc.outcome))
    case Tick(elapsed) => s.(clock := s.clock + elapsed)
    case Disconnect(r) => Set(s, r, s.requests[r].(cancelled := true))
    case ReadPin(j, id, pin) => s.(controls := s.controls[j := Control(id, pin, PinRead)])
    case Claim(j) =>
      var id := s.controls[j].id;
      if id in s.authorizations
      then SetControl(s, j, Claimed(s.authorizations[id])).(authorizations := s.authorizations - {id})
      else SetControl(s, j, Refused)
    case Send(j) =>
      var r := s.controls[j].pc.request;
      if r in s.requests && !s.requests[r].pc.Returned?
      then Set(SetControl(s, j, Sent(r)), r, s.requests[r].(buffer := Some(Delivery(s.controls[j].pin, j))))
      else SetControl(s, j, Undelivered(r))
    case Close(j) =>
      var pc := s.controls[j].pc;
      DropSender(SetControl(s, j, Closed(pc.request, pc.Sent?)), pc.request)
    case Limit(le) => s.(limiter := Limiter.Next(s.limiter, le))
  }

  predicate Runs(s: State, events: seq<Event>)
    decreases |events|
  {
    events == [] || (Enabled(s, events[0]) && Runs(Next(s, events[0]), events[1..]))
  }

  function Run(s: State, events: seq<Event>): State
    requires Runs(s, events)
    decreases |events|
  {
    if events == [] then s else Run(Next(s, events[0]), events[1..])
  }

  // ------------------------------------------------------------------
  // The invariant
  // ------------------------------------------------------------------

  /** A pending entry is filed under its own request's identifier, and that
      request still waits with an empty, connected channel or is about to
      withdraw the entry. */
  ghost predicate EntryInv(s: State, id: seq<byte>)
    requires id in s.authorizations
  {
    var r := s.authorizations[id];
    && r in s.requests
    && id == s.Id(r)
    && s.requests[r].senderAlive
    && s.requests[r].buffer == None
    && (s.requests[r].pc.Waiting() || s.requests[r].pc.Leaving?)
    && !Served(s.requests[r])
  }

  /** What a request knows about its channel. */
  ghost predicate RequestInv(s: State, r: u64)
    requires r in s.requests
  {
    var q := s.requests[r];
    && r < s.sequence
    && (!q.pc.Returned? ==> q.worker in s.limiter.permits)
    && (q.pc.Waiting() && !q.senderAlive ==> q.buffer.Some?)
    && (q.pc.Leaving? || q.pc.Removed? || q.pc.Returned? ==> q.pc.outcome != Disconnected)
    && (q.pc.Minted? ==> q.senderAlive && q.buffer == None)
    && (q.buffer.Some? ==> CameFrom(s, r, q.buffer.value) && !q.pc.Got(q.buffer.value))
    && ((q.pc.Leaving? || q.pc.Removed? || q.pc.Returned?) && q.pc.outcome.Received? ==>
          CameFrom(s, r, q.pc.outcome.delivery) && q.buffer == None)
  }

  /** A delivery was sent by a control client that claimed this very request. */
  ghost predicate CameFrom(s: State, r: u64, d: Delivery) {
    && d.from in s.controls
    && s.controls[d.from].pin == d.pin
    && s.controls[d.from].pc.Delivered()
    && s.controls[d.from].pc.Owner() == Some(r)
  }

  ghost predicate ControlInv(s: State, j: nat)
    requires j in s.controls
  {
    var c := s.controls[j];
    c.pc.Owner().Some? ==>
      var r := c.pc.Owner().value;
      && r in s.requests
      && c.id == s.Id(r)
      && c.id !in s.authorizations
      && !s.requests[r].pc.Minted?
      && (c.pc.Claimed? ==> s.requests[r].buffer == None
                            && s.requests[r].senderAlive
                            && !Served(s.requests[r]))
      && (c.pc.Sent? ==> s.requests[r].senderAlive)
      && (c.pc.Delivered() ==> s.requests[r].buffer == Some(Delivery(c.pin, j))
                               || s.requests[r].pc.Got(Delivery(c.pin, j)))
      && (c.pc.Undelivered? || (c.pc.Closed? && !c.pc.ok) ==>
            s.requests[r].pc.Returned? && !Served(s.requests[r]))
  }

  ghost predicate Served(q: Request) {
    (q.pc.Leaving? || q.pc.Removed? || q.pc.Returned?) && q.pc.outcome.Received?
  }

  /** Two control clients never hold the same request. */
  ghost predicate OwnersInv(s: State) {
    forall i, j | i in s.controls && j in s.controls
                  && s.controls[i].pc.Owner().Some?
                  && s.controls[i].pc.Owner() == s.controls[j].pc.Owner() :: i == j
  }

  /** A worker handles one request at a time. */
  ghost predicate WorkersInv(s: State) {
    forall q, r | q in s.requests && r in s.requests
                  && !s.requests[q].pc.Returned? && !s.requests[r].pc.Returned?
                  && s.requests[q].worker == s.requests[r].worker :: q == r
  }

  ghost predicate IdsInv(s: State) {
    forall a, b | s.ids(a) == s.ids(b) :: a == b
  }

  ghost predicate Inv(s: State) {
    && IdsInv(s)
    && (forall id | id in s.authorizations :: EntryInv(s, id))
    && (forall r | r in s.requests :: RequestInv(s, r))
    && (forall j | j in s.controls :: ControlInv(s, j))
    && OwnersInv(s)
    && WorkersInv(s)
    && Limiter.Inv(s.limiter)
    && s.limiter.maximum == MAX_CONNECTIONS
  }

  // ------------------------------------------------------------------
  // Every step keeps the invariant
  // ------------------------------------------------------------------

  function RequestOf(e: Event): Option<u64> {
    match e
    case Insert(r) => Some(r)
    case SetDeadline(r) => Some(r)
    case TryReceive(r) => Some(r)
    case CheckDeadline(r) => Some(r)
    case CheckClient(r) => Some(r)
    case Wake(r) => Some(r)
    case RemoveEntry(r) => Some(r)
    case Return(r) => Some(r)
    case Disconnect(r) => Some(r)
    case _ => None
  }

  /** The part of the invariant that speaks of the request or control client
      the event is about. */
  ghost predicate SubjectInv(s: State, e: Event)
    requires Enabled(s, e)
  {
    && s.sequence !in s.requests
    && (RequestOf(e).Some? ==>
          var r := RequestOf(e).value;
          && RequestInv(s, r)
          && (s.Id(r) in s.authorizations ==> s.authorizations[s.Id(r)] == r && EntryInv(s, s.Id(r))))
    && (e.Claim? ==>
          var id := s.controls[e.control].id;
          id in s.authorizations ==> EntryInv(s, id) && RequestInv(s, s.authorizations[id]))
    && (e.Send? || e.Close? ==>
          && ControlInv(s, e.control)
          && RequestInv(s, s.controls[e.control].pc.request))
  }

  lemma SubjectKnown(s: State, e: Event)
    requires Inv(s) && Enabled(s, e)
    ensures SubjectInv(s, e)
  {
    if RequestOf(e).Some? {
      var id := s.Id(RequestOf(e).value);
      assert id in s.authorizations ==> EntryInv(s, id);
    }
  }

  lemma EntryKept(s: State, e: Event, id: seq<byte>)
    requires IdsInv(s) && Enabled(s, e) && SubjectInv(s, e)
    requires id in s.authorizations ==> EntryInv(s, id)
    requires id in Next(s, e).authorizations
    ensures EntryInv(Next(s, e), id)
  {
    if RequestOf(e).Some? {
      WorkerStepIsLocal(s, e, RequestOf(e).value);
    }
  }

  lemma RequestKept(s: State, e: Event, r: u64)
    requires Enabled(s, e) && SubjectInv(s, e)
    requires r in s.requests ==> RequestInv(s, r)
    requires r in Next(s, e).requests
    ensures RequestInv(Next(s, e), r)
  {
    if RequestOf(e).Some? {
      RequestKeptByWorker(s, e, r);
    } else if e.Send? || e.Close? || e.Claim? {
      RequestKeptByControl(s, e, r);
    } else {
      RequestKeptByOthers(s, e, r);
    }
  }

  /** A worker's step touches its own request and its own entry only. */
  lemma WorkerStepIsLocal(s: State, e: Event, r: u64)
    requires Enabled(s, e) && SubjectInv(s, e) && RequestOf(e) == Some(r)
    ensures var t := Next(s, e);
            && r in t.requests
            && t.requests == s.requests[r := t.requests[r]]
            && t == s.(requests := t.requests, authorizations := t.authorizations)
            && t.authorizations == (if e.Insert? then s.authorizations[s.Id(r) := r]
                                    else if e.RemoveEntry? then s.authorizations - {s.Id(r)}
                                    else s.authorizations)
  {
    var t := Next(s, e);
    assert t.requests.Keys == s.requests.Keys;
    assert forall q | q in s.requests && q != r :: t.requests[q] == s.requests[q];
  }

  lemma RequestKeptByWorker(s: State, e: Event, r: u64)
    requires Enabled(s, e) && SubjectInv(s, e) && RequestOf(e).Some?
    requires r in s.requests && RequestInv(s, r)
    ensures RequestInv(Next(s, e), r)
  {
    if RequestOf(e) != Some(r) {
      WorkerStepIsLocal(s, e, RequestOf(e).value);
    }
  }

  lemma RequestKeptByControl(s: State, e: Event, r: u64)
    requires Enabled(s, e) && SubjectInv(s, e) && (e.Claim? || e.Send? || e.Close?)
    requires r in s.requests && RequestInv(s, r)
    ensures RequestInv(Next(s, e), r)
  {
    var t, j := Next(s, e), e.control;
    assert t == s.(controls := s.controls[j := t.controls[j]], requests := t.requests,
                   authorizations := t.authorizations);
    if e.Claim? || s.controls[j].pc.request != r {
      assert t.requests[r] == s.requests[r];
    }
  }

  lemma RequestKeptByOthers(s: State, e: Event, r: u64)
    requires Enabled(s, e) && SubjectInv(s, e) && (e.Mint? || e.Tick? || e.ReadPin? || e.Limit?)
    requires r in s.requests ==> RequestInv(s, r)
    requires r in Next(s, e).requests
    ensures RequestInv(Next(s, e), r)
  {
  }

  lemma ControlKept(s: State, e: Event, j: nat)
    requires IdsInv(s) && OwnersInv(s) && Enabled(s, e) && SubjectInv(s, e)
    requires j in s.controls ==> ControlInv(s, j)
    requires j in Next(s, e).controls
    ensures ControlInv(Next(s, e), j)
  {
    if RequestOf(e).Some? {
      ControlKeptByWorker(s, e, j);
    } else if e.Send? || e.Close? || e.Claim? {
      ControlKeptByControl(s, e, j);
    } else {
      ControlKeptByOthers(s, e, j);
    }
  }

  lemma ControlKeptByWorker(s: State, e: Event, j: nat)
    requires IdsInv(s) && Enabled(s, e) && SubjectInv(s, e) && RequestOf(e).Some?
    requires j in s.controls && ControlInv(s, j)
    ensures ControlInv(Next(s, e), j)
  {
    var r := RequestOf(e).value;
    WorkerStepIsLocal(s, e, r);
    assert Next(s, e).controls[j] == s.controls[j];
  }

  lemma ControlKeptByControl(s: State, e: Event, j: nat)
    requires IdsInv(s) && OwnersInv(s) && Enabled(s, e) && SubjectInv(s, e) && (e.Claim? || e.Send? || e.Close?)
    requires j in s.controls && ControlInv(s, j)
    ensures ControlInv(Next(s, e), j)
  {
  }

  lemma ControlKeptByOthers(s: State, e: Event, j: nat)
    requires Enabled(s, e) && SubjectInv(s, e) && (e.Mint? || e.Tick? || e.ReadPin? || e.Limit?)
    requires j in s.controls ==> ControlInv(s, j)
    requires j in Next(s, e).controls
    ensures ControlInv(Next(s, e), j)
  {
  }

  lemma OwnersKept(s: State, e: Event)
    requires Inv(s) && Enabled(s, e)
    ensures OwnersInv(Next(s, e))
  {
  }

  lemma WorkersKept(s: State, e: Event)
    requires WorkersInv(s) && Enabled(s, e) && SubjectInv(s, e)
    ensures WorkersInv(Next(s, e))
  {
  }

  lemma StepKeepsInv(s: State, e: Event)
    requires Inv(s) && Enabled(s, e)
    ensures Inv(Next(s, e))
  {
    var t := Next(s, e);
    SubjectKnown(s, e);
    forall id | id in t.authorizations ensures EntryInv(t, id) {
      EntryKept(s, e, id);
    }
    forall r | r in t.requests ensures RequestInv(t, r) {
      RequestKept(s, e, r);
    }
    forall j | j in t.controls ensures ControlInv(t, j) {
      ControlKept(s, e, j);
    }
    OwnersKept(s, e);
    WorkersKept(s, e);
    if e.Limit? {
      Limiter.StepKeepsInv(s.limiter, e.event);
    }
  }
}

/** The two kinds of threads of the agent written out as programs over the shared
    state. Between any two of their own actions other threads may do anything, so
    each program is proved to produce runs of the rendezvous. */
module Agent {
  import opened Wrappers
  import opened Bytes
  import opened Texts
  import opened Rendezvous
  import opened RendezvousTheorems
  import opened Control
  import opened ControlClient
  import opened PendingList

  lemma {:induction false} RunOneMore(s: State, events: seq<Event>, e: Event)
    requires Runs(s, events) && Enabled(Run(s, events), e)
    ensures Runs(s, events + [e]) && Run(s, events + [e]) == Next(Run(s, events), e)
    decreases |events|
  {
    if events == [] {
      assert [e][1..] == [];
    } else {
      assert (events + [e])[1..] == events[1..] + [e];
      RunOneMore(Next(s, events[0]), events[1..], e);
    }
  }

  /** A control client's step by someone else leaves it alone. */
  predicate ActsFor(e: Event, control: nat) {
    match e
    case ReadPin(j, _, _) => j == control
    case Claim(j) => j == control
    case Send(j) => j == control
    case Close(j) => j == control
    case _ => false
  }

  lemma ControlUntouched(s: State, e: Event, j: nat)
    requires Enabled(s, e) && j in s.controls && !ActsFor(e, j)
    ensures j in Next(s, e).controls && Next(s, e).controls[j] == s.controls[j]
  {
  }

  lemma WorkerUntouched(s: State, e: Event, r: u64)
    requires Inv(s) && Enabled(s, e) && r in s.requests && TimeInv(s, r)
    requires RequestOf(e) != Some(r) || e.Disconnect?
    ensures var t := Next(s, e);
            && r in t.requests && t.requests[r].pc == s.requests[r].pc && t.requests[r].start == s.requests[r].start
            && TimeInv(t, r)
            && t.clock >= s.clock && t.timeout == s.timeout && t.ids == s.ids
  {
    SubjectKnown(s, e);
    TimeKept(s, e, r);
    if RequestOf(e) != Some(r) {
      OtherStepKeepsPace(s, e, r);
    }
  }

  lemma OwnStep(s: State, e: Event, r: u64)
    requires Inv(s) && Enabled(s, e) && RequestOf(e) == Some(r) && TimeInv(s, r)
    ensures r in Next(s, e).requests && TimeInv(Next(s, e), r)
    ensures Next(s, e).clock == s.clock && Next(s, e).timeout == s.timeout && Next(s, e).ids == s.ids
    ensures !e.SetDeadline? ==> Next(s, e).requests[r].start == s.requests[r].start
  {
    SubjectKnown(s, e);
    TimeKept(s, e, r);
    WorkerStepIsLocal(s, e, r);
  }

  class Shared {
    var state: State
    ghost var events: seq<Event>
    ghost const start: State

    ghost predicate Valid()
      reads this
    {
      Inv(state) && Runs(start, events) && Run(start, events) == state
    }

    constructor (pid: nat, timeout: nat)
      ensures Valid() && state == Init(pid, timeout) && start == state && events == []
    {
      state := Init(pid, timeout);
      start := Init(pid, timeout);
      events := [];
      new;
      InitInv(pid, timeout);
    }

    /** One atomic action. */
    method Act(e: Event)
      requires Valid() && Enabled(state, e)
      modifies this
      ensures Valid()
      ensures state == Next(old(state), e) && events == old(events) + [e]
    {
      StepKeepsInv(state, e);
      RunOneMore(start, events, e);
      state := Next(state, e);
      events := events + [e];
    }

    /** Whatever other threads do while a worker is between two actions. */
    method OthersThanWorker(r: u64)
      requires Valid() && r in state.requests && TimeInv(state, r)
      modifies this
      ensures Valid() && old(events) <= events
      ensures r in state.requests && state.requests[r].pc == old(state).requests[r].pc && TimeInv(state, r)
      ensures state.requests[r].start == old(state).requests[r].start
      ensures state.clock >= old(state).clock && state.timeout == old(state).timeout && state.ids == old(state).ids
    {
      var count: int := *;
      for i := 0 to if count > 0 then count else 0
        invariant Valid() && old(events) <= events
        invariant r in state.requests && state.requests[r].pc == old(state).requests[r].pc && TimeInv(state, r)
        invariant state.requests[r].start == old(state).requests[r].start
        invariant state.clock >= old(state).clock && state.timeout == old(state).timeout && state.ids == old(state).ids
      {
        var e: Event := *;
        if Enabled(state, e) && (RequestOf(e) != Some(r) || e.Disconnect?) {
          WorkerUntouched(state, e, r);
          Act(e);
        }
      }
    }

    /** Whatever other threads do while a control worker is between two actions. */
    method OthersThanControl(j: nat)
      requires Valid() && j in state.controls
      modifies this
      ensures Valid() && old(events) <= events
      ensures j in state.controls && state.controls[j] == old(state).controls[j]
    {
      var count: int := *;
      for i := 0 to if count > 0 then count else 0
        invariant Valid() && old(events) <= events
        invariant j in state.controls && state.controls[j] == old(state).controls[j]
      {
        var e: Event := *;
        if Enabled(state, e) && !ActsFor(e, j) {
          ControlUntouched(state, e, j);
          Act(e);
        }
      }
    }

    /** One action of the worker itself, after others have had their turn. */
    method WorkerActs(r: u64, e: Event) returns (ghost s: State)
      requires Valid() && r in state.requests && TimeInv(state, r)
      requires RequestOf(e) == Some(r) && !e.Disconnect? && Ready(state.requests[r].pc, e)
      modifies this
      ensures Valid() && old(events) <= events
      ensures r in state.requests && TimeInv(state, r)
      ensures Between(old(state), s, r) && Enabled(s, e) && state == Next(s, e)
    {
      OthersThanWorker(r);
      s := state;
      OwnStep(state, e, r);
      Act(e);
    }
  }

  /** What others leave alone. */
  ghost predicate Between(s: State, t: State, r: u64) {
    && r in s.requests && r in t.requests && t.requests[r].pc == s.requests[r].pc
    && t.requests[r].start == s.requests[r].start
    && t.clock >= s.clock && t.timeout == s.timeout && t.ids == s.ids
  }

  /** The worker stands where this action of its own comes next, clock permitting. */
  predicate Ready(pc: RequestPc, e: Event) {
    match e
    case Insert(_) => pc.Minted?
    case SetDeadline(_) => pc.Inserted?
    case TryReceive(_) => pc.Receiving?
    case CheckDeadline(_) => pc.CheckingDeadline?
    case CheckClient(_) => pc.CheckingClient?
    case RemoveEntry(_) => pc.Leaving?
    case Return(_) => pc.Removed?
    case _ => false
  }

  /** `request_pin`, up to the text of its errors: publish a channel under a fresh
      identifier, poll it until a PIN, the deadline or the client's departure,
      and take the entry back. The loop ends because the clock passes the
      deadline, after at most ceil(timeout / 50 ms) + 1 polls. */
  method RequestPin(shared: Shared, worker: nat, name: Text) returns (r: u64, outcome: Outcome)
    requires shared.Valid() && Enabled(shared.state, Mint(worker, name))
    modifies shared
    ensures shared.Valid() && old(shared.events) <= shared.events
    ensures old(shared.events) + [Mint(worker, name)] <= shared.events
    ensures r == old(shared.state).sequence && At(shared.state, r, Returned(outcome))
    ensures outcome != Disconnected
    ensures shared.state.Id(r) !in shared.state.authorizations
    ensures shared.state.requests[r].polls <= (shared.state.timeout + 49) / 50 + 1
    ensures outcome.Received? ==> CameFrom(shared.state, r, outcome.delivery)
    ensures shared.state.requests[r].start >= old(shared.state).clock
    ensures outcome.TimedOut? ==> shared.state.clock >= shared.state.requests[r].start + shared.state.timeout
    ensures outcome.Cancelled? ==> shared.state.requests[r].cancelled
  {
    r := Publish(shared, worker, name);
    PollUntilDecided(shared, r);
    outcome := Withdraw(shared, r);
  }

  /** The loop. */
  method PollUntilDecided(shared: Shared, r: u64)
    requires shared.Valid() && At(shared.state, r, Receiving) && TimeInv(shared.state, r)
    modifies shared
    ensures shared.Valid() && old(shared.events) <= shared.events
    ensures r in shared.state.requests && shared.state.requests[r].pc.Leaving? && TimeInv(shared.state, r)
    ensures shared.state.requests[r].start == old(shared.state).requests[r].start
  {
    ghost var deadline := shared.state.requests[r].start + shared.state.timeout;
    var waiting := true;
    while waiting
      invariant shared.Valid() && old(shared.events) <= shared.events
      invariant r in shared.state.requests && TimeInv(shared.state, r)
      invariant if waiting then shared.state.requests[r].pc.Receiving? else shared.state.requests[r].pc.Leaving?
      invariant shared.state.requests[r].start == old(shared.state).requests[r].start
      invariant deadline == shared.state.requests[r].start + shared.state.timeout
      decreases waiting, deadline - shared.state.clock
    {
      waiting := PollOnce(shared, r);
    }
  }

  method Publish(shared: Shared, worker: nat, name: Text) returns (r: u64)
    requires shared.Valid() && Enabled(shared.state, Mint(worker, name))
    modifies shared
    ensures shared.Valid() && old(shared.events) <= shared.events
    ensures old(shared.events) + [Mint(worker, name)] <= shared.events
    ensures r == old(shared.state).sequence
    ensures At(shared.state, r, Receiving) && TimeInv(shared.state, r)
    ensures shared.state.requests[r].start >= old(shared.state).clock
  {
    r := shared.state.sequence;
    shared.Act(Mint(worker, name));
    ghost var s := shared.WorkerActs(r, Insert(r));
    s := shared.WorkerActs(r, SetDeadline(r));
  }

  /** One turn of the loop. */
  method PollOnce(shared: Shared, r: u64) returns (again: bool)
    requires shared.Valid() && At(shared.state, r, Receiving) && TimeInv(shared.state, r)
    modifies shared
    ensures shared.Valid() && old(shared.events) <= shared.events
    ensures r in shared.state.requests && TimeInv(shared.state, r)
    ensures shared.state.requests[r].start == old(shared.state).requests[r].start
    ensures shared.state.timeout == old(shared.state).timeout
    ensures !again ==> shared.state.requests[r].pc.Leaving?
    ensures again ==> shared.state.requests[r].pc.Receiving?
    ensures again ==> old(shared.state).clock < shared.state.clock
                      && old(shared.state).clock < shared.state.requests[r].start + shared.state.timeout
  {
    var waiting := StillWaiting(shared, r);
    if !waiting {
      return false;
    }
    var present := ClientPresent(shared, r);
    if !present {
      return false;
    }
    Sleep(shared, r);
    return true;
  }

  /** No PIN yet, and the deadline has not passed. */
  method StillWaiting(shared: Shared, r: u64) returns (waiting: bool)
    requires shared.Valid() && At(shared.state, r, Receiving) && TimeInv(shared.state, r)
    modifies shared
    ensures shared.Valid() && old(shared.events) <= shared.events
    ensures r in shared.state.requests && TimeInv(shared.state, r)
    ensures if waiting then shared.state.requests[r].pc.CheckingClient? else shared.state.requests[r].pc.Leaving?
    ensures shared.state.requests[r].start == old(shared.state).requests[r].start
    ensures shared.state.timeout == old(shared.state).timeout
    ensures old(shared.state).clock <= shared.state.clock
    ensures waiting ==> shared.state.clock < shared.state.requests[r].start + shared.state.timeout
  {
    waiting := ChannelEmpty(shared, r);
    if waiting {
      waiting := BeforeDeadline(shared, r);
    }
  }

  method ChannelEmpty(shared: Shared, r: u64) returns (empty: bool)
    requires shared.Valid() && At(shared.state, r, Receiving) && TimeInv(shared.state, r)
    modifies shared
    ensures shared.Valid() && old(shared.events) <= shared.events
    ensures r in shared.state.requests && TimeInv(shared.state, r)
    ensures if empty then shared.state.requests[r].pc.CheckingDeadline? else shared.state.requests[r].pc.Leaving?
    ensures shared.state.requests[r].start == old(shared.state).requests[r].start
    ensures shared.state.timeout == old(shared.state).timeout
    ensures old(shared.state).clock <= shared.state.clock
  {
    ghost var s := shared.WorkerActs(r, TryReceive(r));
    empty := !shared.state.requests[r].pc.Leaving?;
  }

  /** On success the sleep that follows ends one interval from now. */
  method ClientPresent(shared: Shared, r: u64) returns (present: bool)
    requires shared.Valid() && At(shared.state, r, CheckingClient) && TimeInv(shared.state, r)
    modifies shared
    ensures shared.Valid() && old(shared.events) <= shared.events
    ensures r in shared.state.requests && TimeInv(shared.state, r)
    ensures if present then shared.state.requests[r].pc == Sleeping(shared.state.clock + 50)
            else shared.state.requests[r].pc == Leaving(Cancelled)
    ensures present <==> !shared.state.requests[r].cancelled
    ensures shared.state.requests[r].start == old(shared.state).requests[r].start
    ensures shared.state.timeout == old(shared.state).timeout
    ensures old(shared.state).clock <= shared.state.clock
  {
    ghost var s := shared.WorkerActs(r, CheckClient(r));
    present := !shared.state.requests[r].pc.Leaving?;
  }

  method BeforeDeadline(shared: Shared, r: u64) returns (early: bool)
    requires shared.Valid() && At(shared.state, r, CheckingDeadline) && TimeInv(shared.state, r)
    modifies shared
    ensures shared.Valid() && old(shared.events) <= shared.events
    ensures r in shared.state.requests && TimeInv(shared.state, r)
    ensures shared.state.requests[r].pc == if early then CheckingClient else Leaving(TimedOut)
    ensures shared.state.requests[r].start == old(shared.state).requests[r].start
    ensures shared.state.timeout == old(shared.state).timeout
    ensures old(shared.state).clock <= shared.state.clock
    ensures early <==> shared.state.clock < shared.state.requests[r].start + shared.state.timeout
  {
    ghost var s := shared.WorkerActs(r, CheckDeadline(r));
    early := !shared.state.requests[r].pc.Leaving?;
  }

  /** Take the entry back and return the outcome. */
  method Withdraw(shared: Shared, r: u64) returns (outcome: Outcome)
    requires shared.Valid() && r in shared.state.requests && shared.state.requests[r].pc.Leaving? && TimeInv(shared.state, r)
    modifies shared
    ensures shared.Valid() && old(shared.events) <= shared.events
    ensures At(shared.state, r, Returned(outcome)) && TimeInv(shared.state, r)
    ensures shared.state.requests[r].start == old(shared.state).requests[r].start
    ensures outcome != Disconnected
    ensures outcome.Received? ==> CameFrom(shared.state, r, outcome.delivery)
    ensures shared.state.Id(r) !in shared.state.authorizations
  {
    outcome := shared.state.requests[r].pc.outcome;
    ghost var s := shared.WorkerActs(r, RemoveEntry(r));
    s := shared.WorkerActs(r, Return(r));
    ReturnedIsGone(shared.state, r);
  }

  lemma ReturnedIsGone(s: State, r: u64)
    requires Inv(s) && r in s.requests && s.requests[r].pc.Returned?
    ensures s.Id(r) !in s.authorizations
    ensures s.requests[r].pc.outcome != Disconnected
    ensures s.requests[r].pc.outcome.Received? ==> CameFrom(s, r, s.requests[r].pc.outcome.delivery)
  {
    assert s.Id(r) in s.authorizations ==> EntryInv(s, s.Id(r));
    assert RequestInv(s, r);
  }

  /** At least one poll interval passes. */
  method Sleep(shared: Shared, r: u64)
    requires shared.Valid() && r in shared.state.requests && TimeInv(shared.state, r)
    requires shared.state.requests[r].pc.Sleeping?
    modifies shared
    ensures shared.Valid() && old(shared.events) <= shared.events
    ensures At(shared.state, r, Receiving) && TimeInv(shared.state, r)
    ensures shared.state.requests[r].start == old(shared.state).requests[r].start
    ensures shared.state.timeout == old(shared.state).timeout
    ensures shared.state.clock >= old(shared.state).requests[r].pc.until
  {
    shared.OthersThanWorker(r);
    var until := shared.state.requests[r].pc.until;
    var elapsed := if until > shared.state.clock then until - shared.state.clock else 0;
    WorkerUntouched(shared.state, Tick(elapsed), r);
    shared.Act(Tick(elapsed));
    shared.OthersThanWorker(r);
    OwnStep(shared.state, Wake(r), r);
    shared.Act(Wake(r));
  }

  // ------------------------------------------------------------------
  // Control clients
  // ------------------------------------------------------------------

  datatype Reply = Running | Pending(rows: seq<Row>) | Authorized(request: u64) | Refusal(error: ControlError)

  /** The snapshot taken under the lock. */
  method PendingRows(s: State) returns (pending: seq<Row>)
    requires forall id | id in s.authorizations :: s.authorizations[id] in s.requests
    ensures Enumerates(pending, s)
  {
    pending := [];
    var ids := s.authorizations.Keys;
    ghost var done: set<seq<byte>> := {};
    while ids != {}
      invariant ids !! done && ids + done == s.authorizations.Keys
      invariant RowsOf(pending, done, s)
      decreases |ids|
    {
      var id :| id in ids;
      ids := ids - {id};
      var row := Row(id, s.requests[s.authorizations[id]].name);
      AddRow(pending, done, s, row);
      pending := pending + [row];
      done := done + {id};
    }
    assert done == s.authorizations.Keys;
  }

  ghost predicate RowsOf(pending: seq<Row>, done: set<seq<byte>>, s: State) {
    && (forall i | 0 <= i < |pending| :: pending[i].id in done && IsRowOf(pending[i], s))
    && (forall i, j | 0 <= i < j < |pending| :: pending[i].id != pending[j].id)
    && (forall id | id in done :: exists i :: 0 <= i < |pending| && pending[i].id == id)
  }

  lemma AddRow(pending: seq<Row>, done: set<seq<byte>>, s: State, row: Row)
    requires RowsOf(pending, done, s) && IsRowOf(row, s) && row.id !in done
    ensures RowsOf(pending + [row], done + {row.id}, s)
  {
    var more := pending + [row];
    forall id | id in done + {row.id} ensures exists i :: 0 <= i < |more| && more[i].id == id {
      if id == row.id {
        assert more[|pending|].id == id;
      } else {
        var i :| 0 <= i < |pending| && pending[i].id == id;
        assert more[i].id == id;
      }
    }
  }

  /** What the control client is told; `describe` is the text of an error. */
  ghost function ReplyBytes(reply: Reply, describe: ControlError -> seq<byte>): seq<byte> {
    match reply
    case Running => Ascii("OK running") + [NEWLINE]
    case Pending(rows) => ListBytes(rows)
    case Authorized(_) => Ascii("OK authorized") + [NEWLINE]
    case Refusal(error) => Ascii("ERR ") + describe(error) + [NEWLINE]
  }

  method WriteReply(reply: Reply, output: Buffer, describe: ControlError -> seq<byte>)
    modifies output
    ensures output.data == old(output.data) + ReplyBytes(reply, describe)
  {
    match reply {
      case Running => output.Extend(Ascii("OK running") + [NEWLINE]);
      case Pending(rows) => AnswerList(output, rows);
      case Authorized(_) => output.Extend(Ascii("OK authorized") + [NEWLINE]);
      case Refusal(error) => output.Extend(Ascii("ERR ") + describe(error) + [NEWLINE]);
    }
  }

  /** What the client concludes from the agent's answer, whatever errors are called
      and whatever follows: it takes its PIN for accepted exactly if the agent
      authorized a request, and the agent for running exactly if it was asked
      whether it is. */
  lemma ClientConcludes(reply: Reply, describe: ControlError -> seq<byte>, extra: seq<byte>)
    ensures Concluded(ReplyBytes(reply, describe) + extra, AuthorizedLine()).Success? <==> reply.Authorized?
    ensures Concluded(ReplyBytes(reply, describe) + extra, RunningLine()).Success? <==> reply.Running?
  {
    var running, authorized := RunningLine(), AuthorizedLine();
    Confirmations();
    match reply {
      case Running => FixedAnswer(running, extra, running, authorized);
      case Authorized(_) => FixedAnswer(authorized, extra, authorized, running);
      case Pending(rows) =>
        ListIsNoConfirmation(rows, extra, running);
        ListIsNoConfirmation(rows, extra, authorized);
      case Refusal(error) =>
        RefusalIsNoConfirmation(describe(error), extra, running);
        RefusalIsNoConfirmation(describe(error), extra, authorized);
    }
  }

  /** The two confirmations are told apart by their fourth octet, and from a list
      and a refusal by the same one. */
  lemma Confirmations()
    ensures IsConfirmation(RunningLine()) && RunningLine()[3] == 'r' as int
    ensures IsConfirmation(AuthorizedLine()) && AuthorizedLine()[3] == 'a' as int
    ensures ListPrefix()[3] == 'K' as int && |ListPrefix()| == 22
    ensures Ascii("ERR ")[3] == ' ' as int
  {
  }

  ghost predicate IsConfirmation(line: seq<byte>) {
    4 <= |line| <= 13 && NEWLINE !in line && IsAscii(line) && line[3] != 'K' as int && line[3] != ' ' as int
  }

  lemma FixedAnswer(line: seq<byte>, extra: seq<byte>, same: seq<byte>, other: seq<byte>)
    requires IsConfirmation(line) && line == same && line != other
    ensures Concluded((line + [NEWLINE]) + extra, same).Success?
    ensures Concluded((line + [NEWLINE]) + extra, other).Failure?
  {
    AsciiIsUtf8(line);
    assert (line + [NEWLINE]) + extra == line + ([NEWLINE] + extra);
    OneLineAnswer(line, extra, same);
    OneLineAnswer(line, extra, other);
  }

  lemma ListIsNoConfirmation(rows: seq<Row>, extra: seq<byte>, confirmation: seq<byte>)
    requires IsConfirmation(confirmation)
    ensures Concluded(ListBytes(rows) + extra, confirmation).Failure?
  {
    Confirmations();
    StartsWith(ListPrefix(), Decimal(|rows|), [NEWLINE] + Rows(rows), extra);
    ForeignAnswer(ListPrefix()[..4], (ListBytes(rows) + extra)[4..], confirmation);
  }

  lemma StartsWith(prefix: seq<byte>, number: seq<byte>, rest: seq<byte>, extra: seq<byte>)
    requires |prefix| >= 4
    ensures var input := ((prefix + number) + rest) + extra;
            |input| >= 4 && input == prefix[..4] + input[4..]
  {
  }

  lemma RefusalIsNoConfirmation(message: seq<byte>, extra: seq<byte>, confirmation: seq<byte>)
    requires IsConfirmation(confirmation)
    ensures Concluded((Ascii("ERR ") + message + [NEWLINE]) + extra, confirmation).Failure?
  {
    var front := Ascii("ERR ");
    Confirmations();
    assert confirmation[..4][3] == confirmation[3];
    assert (front + message + [NEWLINE]) + extra == front + (message + [NEWLINE] + extra);
    ForeignAnswer(front, message + [NEWLINE] + extra, confirmation);
  }

  /** What a reply says about the command that was read, or the reason why none
      was, and about the rendezvous. */
  ghost predicate Answers(reply: Reply, command: Result<Command, ControlError>, control: nat, s: State) {
    match reply
    case Running => command == Success(Status)
    case Pending(rows) => command == Success(List) && Enumerates(rows, s)
    case Authorized(request) =>
      && command.Success? && command.value.Authorize?
      && control in s.controls
      && s.controls[control] == Rendezvous.Control(command.value.id, command.value.pin, Closed(request, true))
      && command.value.id == s.Id(request)
    case Refusal(error) =>
      && (match command
          case Failure(reason) => error == reason
          case Success(c) => c.Authorize? && (error == NotPending || error == NotActive))
      && (control in s.controls ==> !s.controls[control].pc.Delivered())
  }

  /** A well-formed AUTHORIZE is refused only because its entry was not pending at
      the claim, or because the worker had returned at the send. */
  ghost predicate HasReason(start: State, events: seq<Event>, control: nat, id: seq<byte>, reply: Reply) {
    exists beforeClaim, beforeSend :: Decided(start, events, control, id, beforeClaim, beforeSend, reply)
  }

  /** `serve_control_connection` after the peer check. */
  method ServeControl(shared: Shared, control: nat, input: Cursor, output: Buffer, describe: ControlError -> seq<byte>)
    returns (reply: Reply)
    requires shared.Valid() && control !in shared.state.controls
    modifies shared, input, output
    ensures shared.Valid() && old(shared.events) <= shared.events
    ensures Answers(reply, CommandOf(old(input.rest)), control, shared.state)
    ensures var command := CommandOf(old(input.rest));
            command.Success? && command.value.Authorize? ==>
              HasReason(shared.start, shared.events, control, command.value.id, reply)
    ensures output.data == old(output.data) + ReplyBytes(reply, describe)
  {
    ghost var start := input.rest;
    var command := ReadCommand(input);
    if command.Failure? {
      reply := Refusal(command.error);
    } else {
      CommandIsRead(start, command.value, input.rest);
      reply := Perform(shared, control, command.value);
    }
    WriteReply(reply, output, describe);
  }

  ghost function CommandOf(input: seq<byte>): Result<Command, ControlError> {
    match Understood(input)
    case Failure(error) => Failure(error)
    case Success((command, _)) => Success(command)
  }

  lemma CommandIsRead(input: seq<byte>, command: Command, rest: seq<byte>)
    requires Understood(input) == Success((command, rest))
    ensures CommandOf(input) == Success(command)
    ensures command.Authorize? ==> 6 <= |command.pin| <= MAX_PIN_BYTES
  {
  }

  method Perform(shared: Shared, control: nat, command: Command) returns (reply: Reply)
    requires shared.Valid() && control !in shared.state.controls
    requires command.Authorize? ==> 6 <= |command.pin| <= MAX_PIN_BYTES
    modifies shared
    ensures shared.Valid() && old(shared.events) <= shared.events
    ensures Answers(reply, Success(command), control, shared.state)
    ensures command.Authorize? ==> HasReason(shared.start, shared.events, control, command.id, reply)
  {
    match command {
      case Status => return Running;
      case List =>
        EntriesHaveRequests(shared.state);
        var pending := PendingRows(shared.state);
        return Pending(pending);
      case Authorize(id, pin) =>
        ghost var beforeClaim, beforeSend;
        reply, beforeClaim, beforeSend := AuthorizeRequest(shared, control, id, pin);
        DecidedIsOneOfThree(shared.start, shared.events, control, id, beforeClaim, beforeSend, reply);
    }
  }

  lemma EntriesHaveRequests(s: State)
    requires Inv(s)
    ensures forall id | id in s.authorizations :: s.authorizations[id] in s.requests
  {
    forall id | id in s.authorizations ensures s.authorizations[id] in s.requests {
      assert EntryInv(s, id);
    }
  }

  /** Claim the entry, then send the PIN that was read before; `send` never
      blocks. */
  method AuthorizeRequest(shared: Shared, control: nat, id: seq<byte>, pin: Pin)
    returns (reply: Reply, ghost beforeClaim: seq<Event>, ghost beforeSend: seq<Event>)
    requires shared.Valid() && Enabled(shared.state, ReadPin(control, id, pin))
    modifies shared
    ensures shared.Valid() && old(shared.events) <= shared.events
    ensures reply.Authorized? || reply.Refusal?
    ensures control in shared.state.controls && shared.state.controls[control].id == id
    ensures Decided(shared.start, shared.events, control, id, beforeClaim, beforeSend, reply)
    ensures reply.Refusal? ==> !shared.state.controls[control].pc.Delivered()
    ensures reply.Authorized? ==>
              && shared.state.controls[control] == Rendezvous.Control(id, pin, Closed(reply.request, true))
              && id == shared.state.Id(reply.request)
  {
    shared.Act(ReadPin(control, id, pin));
    shared.OthersThanControl(control);
    beforeClaim := shared.events;
    var request := ClaimEntry(shared, control);
    if request == None {
      beforeSend := beforeClaim;
      return Refusal(NotPending), beforeClaim, beforeSend;
    }
    shared.OthersThanControl(control);
    beforeSend := shared.events;
    var sent := SendPin(shared, control, request.value);
    reply := if sent then Authorized(request.value) else Refusal(NotActive);
  }

  /** Why the client is answered as it is: `beforeClaim` and `beforeSend` are what
      had happened when the entry was looked up and when the PIN was sent. */
  ghost predicate Decided(start: State, events: seq<Event>, control: nat, id: seq<byte>,
                          beforeClaim: seq<Event>, beforeSend: seq<Event>, reply: Reply) {
    && beforeClaim + [Claim(control)] <= events && Runs(start, beforeClaim)
    && var s := Run(start, beforeClaim);
       && (reply == Refusal(NotPending) <==> id !in s.authorizations)
       && (id in s.authorizations ==>
             && beforeSend + [Send(control)] <= events && Runs(start, beforeSend)
             && var q, t := s.authorizations[id], Run(start, beforeSend);
                && q in t.requests
                && reply == if t.requests[q].pc.Returned? then Refusal(NotActive) else Authorized(q))
  }

  lemma DecidedIsOneOfThree(start: State, events: seq<Event>, control: nat, id: seq<byte>,
                            beforeClaim: seq<Event>, beforeSend: seq<Event>, reply: Reply)
    requires Decided(start, events, control, id, beforeClaim, beforeSend, reply)
    ensures reply.Authorized? || reply == Refusal(NotPending) || reply == Refusal(NotActive)
    ensures HasReason(start, events, control, id, reply)
  {
  }

  /** `remove(id)`. */
  method ClaimEntry(shared: Shared, control: nat) returns (request: Option<u64>)
    requires shared.Valid() && control in shared.state.controls && shared.state.controls[control].pc.PinRead?
    modifies shared
    ensures shared.Valid() && old(shared.events) <= shared.events
    ensures control in shared.state.controls
    ensures old(shared.events) + [Claim(control)] <= shared.events
    ensures var id := old(shared.state).controls[control].id;
            request == if id in old(shared.state).authorizations then Some(old(shared.state).authorizations[id]) else None
    ensures shared.state.controls[control]
            == old(shared.state).controls[control].(pc := if request.Some? then Claimed(request.value) else Refused)
  {
    shared.Act(Claim(control));
    var pc := shared.state.controls[control].pc;
    return if pc.Claimed? then Some(pc.request) else None;
  }

  /** `send`, and the sender's end. */
  method SendPin(shared: Shared, control: nat, request: u64) returns (sent: bool)
    requires shared.Valid() && control in shared.state.controls && shared.state.controls[control].pc == Claimed(request)
    modifies shared
    ensures shared.Valid() && old(shared.events) <= shared.events
    ensures control in shared.state.controls
    ensures shared.state.controls[control] == old(shared.state).controls[control].(pc := Closed(request, sent))
    ensures old(shared.events) + [Send(control)] <= shared.events
    ensures request in old(shared.state).requests
    ensures sent <==> !old(shared.state).requests[request].pc.Returned?
    ensures shared.state.controls[control].id == shared.state.Id(request)
  {
    sent := SendOnly(shared, control, request);
    shared.OthersThanControl(control);
    shared.Act(Close(control));
    assert ControlInv(shared.state, control);
  }

  method SendOnly(shared: Shared, control: nat, request: u64) returns (sent: bool)
    requires shared.Valid() && control in shared.state.controls && shared.state.controls[control].pc == Claimed(request)
    modifies shared
    ensures shared.Valid() && old(shared.events) <= shared.events
    ensures control in shared.state.controls
    ensures shared.state.controls[control]
            == old(shared.state).controls[control].(pc := if sent then Sent(request) else Undelivered(request))
    ensures shared.events == old(shared.events) + [Send(control)]
    ensures request in old(shared.state).requests
    ensures sent <==> !old(shared.state).requests[request].pc.Returned?
  {
    assert ControlInv(shared.state, control);
    shared.Act(Send(control));
    sent := shared.state.controls[control].pc.Sent?;
  }
}

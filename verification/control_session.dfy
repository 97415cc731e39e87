/** Whole sessions on the control socket: the client writes a command, the agent
    serves it while other threads act, and the client reads the answer. */
module ControlSession {
  import opened Wrappers
  import opened Bytes
  import opened Texts
  import opened Rendezvous
  import opened Control
  import opened ControlClient
  import opened PendingList
  import opened Agent

  /** The agent's side, on the octets one client sent. */
  method Serve(shared: Shared, control: nat, sent: seq<byte>, describe: ControlError -> seq<byte>)
    returns (answer: Cursor, ghost reply: Reply)
    requires shared.Valid() && control !in shared.state.controls
    modifies shared
    ensures fresh(answer) && shared.Valid() && old(shared.events) <= shared.events
    ensures answer.rest == ReplyBytes(reply, describe)
    ensures Answers(reply, CommandOf(sent), control, shared.state)
    ensures CommandOf(sent).Success? && CommandOf(sent).value.Authorize? ==>
              HasReason(shared.start, shared.events, control, CommandOf(sent).value.id, reply)
  {
    var input := new Cursor(sent);
    var output := new Buffer();
    var r := ServeControl(shared, control, input, output, describe);
    reply := r;
    assert [] + ReplyBytes(reply, describe) == ReplyBytes(reply, describe);
    answer := new Cursor(output.data);
  }

  // What the client's octets mean to the agent, and the agent's octets to the client

  lemma StatusIsHeard()
    ensures CommandOf(Ascii("STATUS") + [NEWLINE]) == Success(Status)
  {
    StatusAndListAreUnderstood([]);
    assert Ascii("STATUS") + ([NEWLINE] + []) == Ascii("STATUS") + [NEWLINE];
  }

  lemma ListIsHeard()
    ensures CommandOf(Ascii("LIST") + [NEWLINE]) == Success(List)
  {
    StatusAndListAreUnderstood([]);
    assert Ascii("LIST") + ([NEWLINE] + []) == Ascii("LIST") + [NEWLINE];
  }

  lemma AuthorizeIsHeard(id: Text, pin: seq<byte>)
    requires Sendable(id, pin)
    ensures CommandOf(AuthorizeBytes(id, pin)) == Success(Authorize(id, pin))
  {
    AuthorizeRoundTrip(id, pin, []);
    assert AuthorizeBytes(id, pin) + [] == AuthorizeBytes(id, pin);
  }

  lemma WholeAnswer(reply: Reply, describe: ControlError -> seq<byte>)
    ensures Concluded(ReplyBytes(reply, describe), AuthorizedLine()).Success? <==> reply.Authorized?
    ensures Concluded(ReplyBytes(reply, describe), RunningLine()).Success? <==> reply.Running?
  {
    ClientConcludes(reply, describe, []);
    assert ReplyBytes(reply, describe) + [] == ReplyBytes(reply, describe);
  }

  lemma StatusIsAnswered(reply: Reply, control: nat, s: State)
    requires Answers(reply, Success(Status), control, s)
    ensures reply.Running?
  {
  }

  lemma ListIsAnswered(reply: Reply, control: nat, s: State)
    requires Answers(reply, Success(List), control, s)
    ensures reply.Pending? && Enumerates(reply.rows, s)
  {
  }

  lemma ListIsRead(pid: nat, timeout: nat, events: seq<Event>, rows: seq<Row>)
    requires pid < U32_LIMIT && Runs(Init(pid, timeout), events) && Enumerates(rows, Run(Init(pid, timeout), events))
    ensures Listed(ListBytes(rows)) == Success((rows, []))
  {
    ClientSeesThePendingRequests(pid, timeout, events, rows, []);
    assert ListBytes(rows) + [] == ListBytes(rows);
  }

  lemma AuthorizedIsDelivered(reply: Reply, control: nat, s: State, id: seq<byte>, pin: seq<byte>)
    requires Answers(reply, Success(Authorize(id, pin)), control, s)
    ensures reply.Authorized? <==> PinDelivered(s, control, id, pin)
  {
  }

  /** Asked for its status, the agent says that it runs, and the client takes it so. */
  method StatusSession(shared: Shared, control: nat, describe: ControlError -> seq<byte>)
    returns (r: Result<(), ControlError>)
    requires shared.Valid() && control !in shared.state.controls
    modifies shared
    ensures shared.Valid() && old(shared.events) <= shared.events
    ensures r == Success(())
  {
    var request := new Buffer();
    SendStatus(request);
    StatusIsHeard();
    assert request.data == Ascii("STATUS") + [NEWLINE];
    var answer := ServeStatus(shared, control, request.data, describe);
    r := ReadStatus(answer);
  }

  method ServeStatus(shared: Shared, control: nat, sent: seq<byte>, describe: ControlError -> seq<byte>)
    returns (answer: Cursor)
    requires shared.Valid() && control !in shared.state.controls
    requires CommandOf(sent) == Success(Status)
    modifies shared
    ensures fresh(answer) && shared.Valid() && old(shared.events) <= shared.events
    ensures Concluded(answer.rest, RunningLine()) == Success(())
  {
    ghost var reply;
    answer, reply := Serve(shared, control, sent, describe);
    StatusIsAnswered(reply, control, shared.state);
    WholeAnswer(reply, describe);
  }

  /** Asked for its list, an agent that was started afresh shows the client exactly
      the requests that are pending then, with their key names. */
  method ListSession(shared: Shared, control: nat, ghost pid: nat, describe: ControlError -> seq<byte>)
    returns (r: Result<seq<Row>, ControlError>)
    requires shared.Valid() && control !in shared.state.controls
    requires pid < U32_LIMIT && shared.start == Init(pid, shared.start.timeout)
    modifies shared
    ensures shared.Valid() && old(shared.events) <= shared.events
    ensures r.Success? && Enumerates(r.value, shared.state)
  {
    var request := new Buffer();
    SendList(request);
    ListIsHeard();
    assert request.data == Ascii("LIST") + [NEWLINE];
    ghost var rows;
    var answer;
    answer, rows := ServeList(shared, control, request.data, pid, describe);
    r := ReadList(answer, rows);
  }

  method ServeList(shared: Shared, control: nat, sent: seq<byte>, ghost pid: nat, describe: ControlError -> seq<byte>)
    returns (answer: Cursor, ghost rows: seq<Row>)
    requires shared.Valid() && control !in shared.state.controls
    requires pid < U32_LIMIT && shared.start == Init(pid, shared.start.timeout)
    requires CommandOf(sent) == Success(List)
    modifies shared
    ensures fresh(answer) && shared.Valid() && old(shared.events) <= shared.events
    ensures Enumerates(rows, shared.state) && Listed(answer.rest) == Success((rows, []))
  {
    ghost var reply;
    answer, reply := Serve(shared, control, sent, describe);
    ListIsAnswered(reply, control, shared.state);
    rows := reply.rows;
    ListIsRead(pid, shared.start.timeout, shared.events, rows);
  }

  method ReadList(answer: Cursor, ghost rows: seq<Row>) returns (r: Result<seq<Row>, ControlError>)
    requires Listed(answer.rest) == Success((rows, []))
    modifies answer
    ensures r == Success(rows)
  {
    r := FetchRequests(answer);
  }

  /** The client's identifier and PIN can be sent on one command line. */
  ghost predicate Sendable(id: seq<byte>, pin: seq<byte>) {
    && id != [] && (forall b | b in id :: b != 9 && b != 10 && b != 12 && b != 13 && b != 32)
    && 6 <= |pin| <= 64 && |AuthorizeLine(id, |pin|)| <= 16383
  }

  /** This client's PIN went into the channel of a request with this identifier. */
  ghost predicate PinDelivered(s: State, control: nat, id: seq<byte>, pin: seq<byte>) {
    && control in s.controls && s.controls[control].id == id && s.controls[control].pin == pin
    && s.controls[control].pc.Delivered() && s.controls[control].pc.Owner().Some?
    && s.Id(s.controls[control].pc.Owner().value) == id
  }

  /** The client reports success if and only if the agent authorized a request. For
      an identifier and a PIN that can be sent, that is if and only if this PIN,
      octet for octet, went into the channel of the request so named; otherwise the
      entry was not pending at the claim or its worker had returned at the send. */
  method AuthorizeSession(shared: Shared, control: nat, id: Text, pin: seq<byte>, describe: ControlError -> seq<byte>)
    returns (r: Result<(), ControlError>, ghost reply: Reply)
    requires shared.Valid() && control !in shared.state.controls
    modifies shared
    ensures shared.Valid() && old(shared.events) <= shared.events
    ensures r.Success? <==> reply.Authorized?
    ensures Answers(reply, CommandOf(AuthorizeBytes(id, pin)), control, shared.state)
    ensures Sendable(id, pin) ==>
              && (r.Success? <==> PinDelivered(shared.state, control, id, pin))
              && HasReason(shared.start, shared.events, control, id, reply)
  {
    var request := new Buffer();
    SendAuthorize(request, id, pin);
    assert request.data == AuthorizeBytes(id, pin);
    var answer;
    answer, reply := Serve(shared, control, request.data, describe);
    WholeAnswer(reply, describe);
    if Sendable(id, pin) {
      AuthorizeIsHeard(id, pin);
      AuthorizedIsDelivered(reply, control, shared.state, id, pin);
    }
    r := ReadAuthorized(answer);
  }
}

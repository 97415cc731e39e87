/** The command-line client's half of the three commands: what it writes, and what
    it concludes from the agent's answer. */
module ControlClient {
  import opened Wrappers
  import opened Bytes
  import opened Texts
  import opened Control

  /** The two confirmations. */
  function RunningLine(): (line: seq<byte>)
    ensures line == Ascii("OK running")
  {
    Ascii("OK running")
  }

  function AuthorizedLine(): (line: seq<byte>)
    ensures line == Ascii("OK authorized")
  {
    Ascii("OK authorized")
  }

  /** The first line decides: exactly the confirmation means success. */
  ghost function Concluded(input: seq<byte>, confirmation: seq<byte>): Result<(), ControlError> {
    match ClientLine(input)
    case Failure(e) => Failure(e)
    case Success((line, _)) => if line == confirmation then Success(()) else Failure(Complaint(line))
  }

  /** The writing half of `keyvisor agent status`. */
  method SendStatus(stream: Buffer)
    modifies stream
    ensures stream.data == old(stream.data) + (Ascii("STATUS") + [NEWLINE])
  {
    stream.Extend(Ascii("STATUS"));
    stream.Push(NEWLINE);
  }

  /** The writing half of `fetch_authorization_requests`. */
  method SendList(stream: Buffer)
    modifies stream
    ensures stream.data == old(stream.data) + (Ascii("LIST") + [NEWLINE])
  {
    stream.Extend(Ascii("LIST"));
    stream.Push(NEWLINE);
  }

  /** The reading half of `keyvisor agent status`. */
  method ReadStatus(answer: Cursor) returns (r: Result<(), ControlError>)
    modifies answer
    ensures r == Concluded(old(answer.rest), RunningLine())
  {
    var line := ClientReadLine(answer);
    if line.Failure? {
      return Failure(line.error);
    }
    return if line.value == Ascii("OK running") then Success(()) else Failure(Complaint(line.value));
  }

  /** The reading half of `authorize_request`. */
  method ReadAuthorized(answer: Cursor) returns (r: Result<(), ControlError>)
    modifies answer
    ensures r == Concluded(old(answer.rest), AuthorizedLine())
  {
    var line := ClientReadLine(answer);
    if line.Failure? {
      return Failure(line.error);
    }
    return if line.value == Ascii("OK authorized") then Success(()) else Failure(Complaint(line.value));
  }

  lemma OneLineAnswer(line: seq<byte>, extra: seq<byte>, confirmation: seq<byte>)
    requires NEWLINE !in line && ValidUtf8(line) && |line| <= CLIENT_LINE
    ensures Concluded(line + ([NEWLINE] + extra), confirmation)
            == if line == confirmation then Success(()) else Failure(Complaint(line))
  {
    ClientLineOf(line, extra);
  }

  /** An answer that does not begin like the confirmation is no confirmation. */
  lemma ForeignAnswer(front: seq<byte>, rest: seq<byte>, confirmation: seq<byte>)
    requires |front| <= |confirmation| && front != confirmation[..|front|]
    ensures Concluded(front + rest, confirmation).Failure?
  {
    var input := front + rest;
    assert input[..|front|] == front;
    if ClientLine(input).Success? && |ClientLine(input).value.0| >= |front| {
      var (line, after) := ClientLine(input).value;
      assert (line + ([NEWLINE] + after))[..|front|] == line[..|front|];
    }
  }

  /** A refusal of one line reaches the client word for word. */
  lemma RefusalIsTold(message: Text, extra: seq<byte>, confirmation: seq<byte>)
    requires NEWLINE !in message && |message| + 4 <= 16384
    requires confirmation == RunningLine() || confirmation == AuthorizedLine()
    ensures Concluded((Ascii("ERR ") + message) + ([NEWLINE] + extra), confirmation) == Failure(Told(message))
  {
    var line := Ascii("ERR ") + message;
    AsciiIsUtf8(Ascii("ERR "));
    Utf8Concat(Ascii("ERR "), message);
    OneLineAnswer(line, extra, confirmation);
    assert line[0] == 'E' as int && confirmation[0] == 'O' as int;
    assert line[4..] == message;
  }
}

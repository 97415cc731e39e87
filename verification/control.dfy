/** The control protocol between the agent and its command-line client: two
    programs, each with its own line reader and its own limits. */
module Control {
  import opened Wrappers
  import opened Bytes
  import opened Texts
  import opened ListCodec

  const NEWLINE: byte := 10
  const TAB: byte := 9
  const SPACE: byte := 32

  const MAX_CONTROL_LINE_BYTES: nat := 16384
  const MAX_PIN_BYTES: nat := 64
  const MAX_PENDING_AUTHORIZATIONS: nat := 16

  datatype ControlError =
    | Io
    | InvalidLine
    | NotUtf8
    | UnknownCommand
    | InvalidCommand
    | MissingIdentifier
    | MissingLength
    | InvalidPinLength
    | PinNotRead
    | InvalidResponse
    | Told(message: seq<byte>)
    | InvalidCount
    | TooManyRequests
    | InvalidRequest
    | InvalidName
    | NotPending
    | NotActive

  // ------------------------------------------------------------------
  // Lines
  // ------------------------------------------------------------------

  /** The first position of `b`, or the length of `s`. */
  function IndexOf(s: seq<byte>, b: byte): (i: nat)
    ensures i <= |s| && forall j | 0 <= j < i :: s[j] != b
    ensures i < |s| ==> s[i] == b
  {
    if s == [] || s[0] == b then 0 else 1 + IndexOf(s[1..], b)
  }

  lemma IndexAfter(front: seq<byte>, b: byte, rest: seq<byte>)
    requires b !in front
    ensures IndexOf(front + ([b] + rest), b) == |front|
  {
    var s := front + ([b] + rest);
    assert s[|front|] == b;
    forall j | 0 <= j < |front| ensures s[j] != b {
      assert s[j] == front[j];
    }
  }

  /** A line of at most `limit` octets of UTF-8 and what follows its newline. */
  function Line(input: seq<byte>, limit: nat): (r: Option<(seq<byte>, seq<byte>)>)
    ensures r.Some? ==>
              var (line, rest) := r.value;
              NEWLINE !in line && |line| <= limit && ValidUtf8(line) && input == line + ([NEWLINE] + rest)
  {
    var n := IndexOf(input, NEWLINE);
    if n < |input| && n <= limit && ValidUtf8(input[..n]) then Some((input[..n], input[n + 1..])) else None
  }

  lemma LineOf(line: seq<byte>, rest: seq<byte>, limit: nat)
    requires NEWLINE !in line
    ensures Line(line + ([NEWLINE] + rest), limit) == if |line| <= limit && ValidUtf8(line) then Some((line, rest)) else None
  {
    IndexAfter(line, NEWLINE, rest);
    var s := line + ([NEWLINE] + rest);
    assert s[..|line|] == line && s[|line| + 1..] == rest;
  }

  /** The two readers differ by one octet: the agent's limit counts the newline,
      the client's does not. */
  const AGENT_LINE: nat := MAX_CONTROL_LINE_BYTES - 1
  const CLIENT_LINE: nat := MAX_CONTROL_LINE_BYTES

  /** The readers agree on every input except a valid line of exactly 16384 octets. */
  lemma ReadersDifferIff(input: seq<byte>)
    ensures Line(input, AGENT_LINE) == Line(input, CLIENT_LINE)
            <==> !(IndexOf(input, NEWLINE) == 16384 < |input| && ValidUtf8(input[..16384]))
  {
  }

  lemma ReadersDiffer() returns (input: seq<byte>)
    ensures Line(input, AGENT_LINE) == None && Line(input, CLIENT_LINE).Some?
  {
    var line := seq(CLIENT_LINE, i requires 0 <= i < CLIENT_LINE => 'a' as int);
    AsciiIsUtf8(line);
    LineOf(line, [], AGENT_LINE);
    LineOf(line, [], CLIENT_LINE);
    input := line + ([NEWLINE] + []);
  }

  /** `take(limit).read_until(b'\n')`. */
  method ReadUntilNewline(input: Cursor, limit: nat) returns (bytes: seq<byte>)
    modifies input
    ensures old(input.rest) == bytes + input.rest && |bytes| <= limit
    ensures |bytes| > 0 ==> NEWLINE !in bytes[..|bytes| - 1]
    ensures |bytes| == limit || input.rest == [] || (bytes != [] && bytes[|bytes| - 1] == NEWLINE)
  {
    bytes := [];
    while |bytes| < limit && input.rest != []
      invariant old(input.rest) == bytes + input.rest && |bytes| <= limit
      invariant NEWLINE !in bytes
      decreases |input.rest|
    {
      var b := input.Take(1);
      bytes := bytes + b.value;
      if b.value[0] == NEWLINE {
        return;
      }
    }
  }

  /** A line as the agent takes it, or why it cannot: no newline comes in time, or
      the line is not UTF-8. */
  ghost function AgentLine(input: seq<byte>): (r: Result<(seq<byte>, seq<byte>), ControlError>)
    ensures r.Success? ==> Line(input, AGENT_LINE) == Some(r.value)
    ensures r.Failure? ==> Line(input, AGENT_LINE) == None
  {
    match Line(input, AGENT_LINE)
    case Some(read) => Success(read)
    case None =>
      var n := IndexOf(input, NEWLINE);
      Failure(if n < |input| && n <= AGENT_LINE then NotUtf8 else InvalidLine)
  }

  /** The agent's `read_control_line`. */
  method AgentReadLine(input: Cursor) returns (r: Result<seq<byte>, ControlError>)
    modifies input
    ensures match AgentLine(old(input.rest))
            case Success((line, rest)) => r == Success(line) && input.rest == rest
            case Failure(e) => r == Failure(e)
  {
    ghost var start := input.rest;
    var bytes := ReadUntilNewline(input, MAX_CONTROL_LINE_BYTES + 1);
    if bytes == [] || bytes[|bytes| - 1] != NEWLINE || |bytes| > MAX_CONTROL_LINE_BYTES {
      NoShortLine(start, bytes, input.rest, MAX_CONTROL_LINE_BYTES);
      return Failure(InvalidLine);
    }
    var line := bytes[..|bytes| - 1];
    assert start == line + ([NEWLINE] + input.rest);
    LineOf(line, input.rest, AGENT_LINE);
    IndexAfter(line, NEWLINE, input.rest);
    if !ValidUtf8(line) {
      return Failure(NotUtf8);
    }
    return Success(line);
  }

  /** Without a newline early enough there is no line. */
  lemma NoShortLine(start: seq<byte>, bytes: seq<byte>, rest: seq<byte>, limit: nat)
    requires start == bytes + rest
    requires |bytes| > 0 ==> NEWLINE !in bytes[..|bytes| - 1]
    requires |bytes| == limit + 1 || rest == [] || (bytes != [] && bytes[|bytes| - 1] == NEWLINE)
    requires bytes == [] || bytes[|bytes| - 1] != NEWLINE || |bytes| > limit
    ensures IndexOf(start, NEWLINE) == |start| || IndexOf(start, NEWLINE) >= limit
  {
    forall j | 0 <= j < |bytes| - 1 ensures start[j] != NEWLINE {
      assert start[j] == bytes[..|bytes| - 1][j];
    }
    if bytes != [] {
      assert start[|bytes| - 1] == bytes[|bytes| - 1];
    }
  }

  /** A line as the client takes it, or why it cannot: the stream ends, the line
      is not UTF-8, or no newline comes in time. */
  function ClientLine(input: seq<byte>): (r: Result<(seq<byte>, seq<byte>), ControlError>)
    ensures r.Success? ==> Line(input, CLIENT_LINE) == Some(r.value)
    ensures r.Failure? ==> Line(input, CLIENT_LINE) == None
  {
    match Line(input, CLIENT_LINE)
    case Some(read) => Success(read)
    case None =>
      var n := IndexOf(input, NEWLINE);
      Failure(if n < |input| && n <= CLIENT_LINE then NotUtf8 else if |input| <= CLIENT_LINE then Io else InvalidResponse)
  }

  lemma ClientLineOf(line: seq<byte>, rest: seq<byte>)
    requires NEWLINE !in line && |line| <= CLIENT_LINE
    ensures ClientLine(line + ([NEWLINE] + rest)) == if ValidUtf8(line) then Success((line, rest)) else Failure(NotUtf8)
  {
    LineOf(line, rest, CLIENT_LINE);
    IndexAfter(line, NEWLINE, rest);
  }

  lemma NoClientLine(bytes: seq<byte>, rest: seq<byte>)
    requires NEWLINE !in bytes
    ensures rest == [] && |bytes| <= CLIENT_LINE ==> ClientLine(bytes + rest) == Failure(Io)
    ensures |bytes| > CLIENT_LINE ==> ClientLine(bytes + rest) == Failure(InvalidResponse)
  {
    var input := bytes + rest;
    forall j | 0 <= j < |bytes| ensures input[j] != NEWLINE {
      assert input[j] in bytes;
    }
  }

  /** The client's `read_control_line`. */
  method ClientReadLine(stream: Cursor) returns (r: Result<seq<byte>, ControlError>)
    modifies stream
    ensures match ClientLine(old(stream.rest))
            case Success((line, rest)) => r == Success(line) && stream.rest == rest
            case Failure(e) => r == Failure(e)
  {
    ghost var start := stream.rest;
    var bytes: seq<byte> := [];
    while |bytes| <= MAX_CONTROL_LINE_BYTES
      invariant start == bytes + stream.rest && NEWLINE !in bytes
      invariant |bytes| <= MAX_CONTROL_LINE_BYTES + 1
    {
      ghost var unread := stream.rest;
      var b := stream.Take(1);
      if b == None {
        NoClientLine(bytes, []);
        assert start == bytes + [];
        return Failure(Io);
      }
      assert unread == b.value + stream.rest;
      if b.value[0] == NEWLINE {
        assert start == bytes + ([NEWLINE] + stream.rest);
        ClientLineOf(bytes, stream.rest);
        return if ValidUtf8(bytes) then Success(bytes) else Failure(NotUtf8);
      }
      bytes := bytes + [b.value[0]];
    }
    NoClientLine(bytes, stream.rest);
    return Failure(InvalidResponse);
  }

  // ------------------------------------------------------------------
  // Words
  // ------------------------------------------------------------------

  /** What `split_ascii_whitespace` separates on. */
  predicate IsSpace(b: byte) {
    b == SPACE || b == TAB || b == NEWLINE || b == 12 || b == 13
  }

  predicate IsWord(s: seq<byte>) {
    s != [] && forall b | b in s :: !IsSpace(b)
  }

  function WordLength(s: seq<byte>): (n: nat)
    ensures n <= |s| && forall j | 0 <= j < n :: !IsSpace(s[j])
    ensures n < |s| ==> IsSpace(s[n])
    ensures s != [] && !IsSpace(s[0]) ==> n > 0
  {
    if s == [] || IsSpace(s[0]) then 0 else 1 + WordLength(s[1..])
  }

  function Fields(s: seq<byte>): seq<seq<byte>>
    decreases |s|
  {
    if s == [] then []
    else if IsSpace(s[0]) then Fields(s[1..])
    else [s[..WordLength(s)]] + Fields(s[WordLength(s)..])
  }

  lemma {:induction false} FieldsAreWords(s: seq<byte>)
    ensures forall f | f in Fields(s) :: IsWord(f)
    decreases |s|
  {
    if s != [] {
      if IsSpace(s[0]) {
        FieldsAreWords(s[1..]);
      } else {
        FieldsAreWords(s[WordLength(s)..]);
      }
    }
  }

  lemma FieldsOfWord(word: seq<byte>, rest: seq<byte>)
    requires IsWord(word)
    requires rest == [] || IsSpace(rest[0])
    ensures Fields(word + rest) == [word] + Fields(rest)
  {
    var s := word + rest;
    forall j | 0 <= j < |word| ensures !IsSpace(s[j]) {
      assert s[j] == word[j];
    }
    assert rest != [] ==> s[|word|] == rest[0];
    assert WordLength(s) == |word|;
    assert s[..|word|] == word && s[|word|..] == rest;
  }

  lemma FieldsSkipSpace(rest: seq<byte>)
    ensures Fields([SPACE] + rest) == Fields(rest)
  {
    assert ([SPACE] + rest)[1..] == rest;
  }

  // ------------------------------------------------------------------
  // Commands
  // ------------------------------------------------------------------

  datatype Command = Status | List | Authorize(id: seq<byte>, pin: seq<byte>)

  ghost function AuthorizePrefix(): (s: seq<byte>)
    ensures |s| == 10
  {
    Ascii("AUTHORIZE") + [SPACE]
  }

  /** What reading a command gives: the command and the octets behind it, or the
      reason for refusal. */
  type Hearing = Result<(Command, seq<byte>), ControlError>

  /** The fields of an AUTHORIZE line and the octets behind it: a PIN is read in
      full before anything else happens. */
  ghost function InterpretFields(fields: seq<seq<byte>>, rest: seq<byte>): Hearing {
    if |fields| < 2 then Failure(MissingIdentifier)
    else if |fields| == 2 then Failure(MissingLength)
    else
      match ParseUsize(fields[2])
      case None => Failure(InvalidPinLength)
      case Some(length) =>
        if |fields| != 3 || length < 6 || length > MAX_PIN_BYTES then Failure(InvalidCommand)
        else if length > |rest| then Failure(PinNotRead)
        else Success((Authorize(fields[1], rest[..length]), rest[length..]))
  }

  /** What the agent makes of a command line and the octets behind it. */
  ghost function Interpret(line: seq<byte>, rest: seq<byte>): Hearing {
    if line == Ascii("STATUS") then Success((Status, rest))
    else if line == Ascii("LIST") then Success((List, rest))
    else if AuthorizePrefix() <= line then InterpretFields(Fields(line), rest)
    else Failure(UnknownCommand)
  }

  ghost function Understood(input: seq<byte>): Hearing {
    match AgentLine(input)
    case Failure(e) => Failure(e)
    case Success((line, rest)) => Interpret(line, rest)
  }

  lemma AuthorizeComesFirst(line: seq<byte>)
    requires AuthorizePrefix() <= line
    ensures Fields(line) != [] && Fields(line)[0] == Ascii("AUTHORIZE")
  {
    var word := Ascii("AUTHORIZE");
    var rest := line[|word|..];
    AuthorizeIsWord();
    assert AuthorizePrefix() == line[..10];
    assert rest[0] == AuthorizePrefix()[9];
    assert line[..|word|] == AuthorizePrefix()[..|word|] == word;
    assert line == word + rest;
    FieldsOfWord(word, rest);
  }

  lemma AuthorizePrefixIs()
    ensures AuthorizePrefix() == Ascii("AUTHORIZE ")
  {
  }

  /** The reading half of `serve_control_connection`. */
  method ReadCommand(input: Cursor) returns (r: Result<Command, ControlError>)
    modifies input
    ensures match Understood(old(input.rest))
            case Success((command, rest)) => r == Success(command) && input.rest == rest
            case Failure(e) => r == Failure(e)
  {
    var line := AgentReadLine(input);
    if line.Failure? {
      return Failure(line.error);
    }
    r := ReadCommandAfter(line.value, input);
  }

  method ReadCommandAfter(command: seq<byte>, input: Cursor) returns (r: Result<Command, ControlError>)
    modifies input
    ensures match Interpret(command, old(input.rest))
            case Success((c, rest)) => r == Success(c) && input.rest == rest
            case Failure(e) => r == Failure(e)
  {
    if command == Ascii("STATUS") {
      return Success(Status);
    }
    if command == Ascii("LIST") {
      return Success(List);
    }
    AuthorizePrefixIs();
    if !(Ascii("AUTHORIZE ") <= command) {
      return Failure(UnknownCommand);
    }
    AuthorizeComesFirst(command);
    var fields := Fields(command);
    if |fields| == 0 || fields[0] != Ascii("AUTHORIZE") {
      return Failure(InvalidCommand);
    }
    r := ReadPin(fields, input);
  }

  method ReadPin(fields: seq<seq<byte>>, input: Cursor) returns (r: Result<Command, ControlError>)
    requires fields != []
    modifies input
    ensures match InterpretFields(fields, old(input.rest))
            case Success((c, rest)) => r == Success(c) && input.rest == rest
            case Failure(e) => r == Failure(e)
  {
    if |fields| == 1 {
      return Failure(MissingIdentifier);
    }
    if |fields| == 2 {
      return Failure(MissingLength);
    }
    var length := ParseUsize(fields[2]);
    if length == None {
      return Failure(InvalidPinLength);
    }
    if |fields| > 3 || !(6 <= length.value <= 64) {
      return Failure(InvalidCommand);
    }
    var pin := input.Take(length.value);
    if pin == None {
      return Failure(PinNotRead);
    }
    return Success(Authorize(fields[1], pin.value));
  }

  ghost function AuthorizeLine(id: seq<byte>, length: nat): seq<byte> {
    AuthorizePrefix() + (id + ([SPACE] + Decimal(length)))
  }

  ghost function AuthorizeBytes(id: seq<byte>, pin: seq<byte>): seq<byte> {
    AuthorizeLine(id, |pin|) + ([NEWLINE] + pin)
  }

  /** The writing half of `authorize_request`. */
  method SendAuthorize(stream: Buffer, id: seq<byte>, pin: seq<byte>)
    modifies stream
    ensures stream.data == old(stream.data) + AuthorizeBytes(id, pin)
  {
    stream.Extend(Ascii("AUTHORIZE"));
    stream.Push(SPACE);
    stream.Extend(id);
    stream.Push(SPACE);
    stream.Extend(Decimal(|pin|));
    stream.Push(NEWLINE);
    stream.Extend(pin);
    FlattenAuthorize(old(stream.data), Ascii("AUTHORIZE"), id, Decimal(|pin|), pin);
  }

  lemma FlattenAuthorize(start: seq<byte>, word: seq<byte>, id: seq<byte>, length: seq<byte>, pin: seq<byte>)
    ensures start + word + [SPACE] + id + [SPACE] + length + [NEWLINE] + pin
            == start + (((word + [SPACE]) + (id + ([SPACE] + length))) + ([NEWLINE] + pin))
  {
  }

  lemma DecimalIsWord(n: nat)
    ensures IsWord(Decimal(n)) && ValidUtf8(Decimal(n)) && NEWLINE !in Decimal(n)
  {
    DecimalValueOfDecimal(n);
    forall b | b in Decimal(n) ensures IsDigit(b) && !IsSpace(b) && b < 0x80 {
    }
    AsciiIsUtf8(Decimal(n));
  }

  lemma ThreeFields(a: seq<byte>, b: seq<byte>, c: seq<byte>)
    requires IsWord(a) && IsWord(b) && IsWord(c)
    ensures Fields(a + ([SPACE] + (b + ([SPACE] + c)))) == [a, b, c]
  {
    assert c + [] == c;
    FieldsOfWord(c, []);
    FieldsSkipSpace(c);
    FieldsOfWord(b, [SPACE] + c);
    FieldsSkipSpace(b + ([SPACE] + c));
    FieldsOfWord(a, [SPACE] + (b + ([SPACE] + c)));
  }

  lemma AuthorizeIsWord()
    ensures IsWord(Ascii("AUTHORIZE"))
  {
  }

  lemma AuthorizeFields(id: seq<byte>, length: nat)
    requires IsWord(id)
    ensures Fields(AuthorizeLine(id, length)) == [Ascii("AUTHORIZE"), id, Decimal(length)]
  {
    var word, number := Ascii("AUTHORIZE"), Decimal(length);
    DecimalIsWord(length);
    AuthorizeIsWord();
    ThreeFields(word, id, number);
    Associate(word, [SPACE], id + ([SPACE] + number));
  }

  lemma {:induction false} Utf8Concat(a: seq<byte>, b: seq<byte>)
    requires ValidUtf8(a) && ValidUtf8(b)
    ensures ValidUtf8(a + b)
  {
    if a == [] {
      assert a + b == b;
    } else {
      var n := ScalarLength(a);
      assert ScalarLength(a + b) == n;
      assert (a + b)[n..] == a[n..] + b;
      Utf8Concat(a[n..], b);
    }
  }

  lemma AuthorizeLineIsText(id: Text, length: nat)
    ensures ValidUtf8(AuthorizeLine(id, length))
  {
    DecimalIsWord(length);
    LiteralIsPlain("AUTHORIZE");
    SpacedText(AuthorizePrefix(), id, Decimal(length));
  }

  lemma SpacedText(prefix: seq<byte>, id: Text, length: seq<byte>)
    requires ValidUtf8(prefix) && ValidUtf8(length)
    ensures ValidUtf8(prefix + (id + ([SPACE] + length)))
  {
    AsciiIsUtf8([SPACE]);
    Utf8Concat([SPACE], length);
    Utf8Concat(id, [SPACE] + length);
    Utf8Concat(prefix, id + ([SPACE] + length));
  }

  /** The agent reads back exactly the identifier and PIN the client sent, PINs
      with newlines included, precisely when the identifier is one word, the PIN
      has 6 to 64 octets and the line is short enough. */
  lemma AuthorizeRoundTrip(id: Text, pin: seq<byte>, extra: seq<byte>)
    ensures Understood(AuthorizeBytes(id, pin) + extra) == Success((Authorize(id, pin), extra))
            <==>
            && id != [] && (forall b | b in id :: b != 9 && b != 10 && b != 12 && b != 13 && b != 32)
            && 6 <= |pin| <= 64 && |AuthorizeLine(id, |pin|)| <= 16383
  {
    var line, input := AuthorizeLine(id, |pin|), AuthorizeBytes(id, pin) + extra;
    if IsWord(id) {
      AuthorizeIsOneLine(id, pin, extra);
      InterpretAuthorize(id, pin, extra);
      assert forall b | b in id :: !IsSpace(b);
    } else if Understood(input).Success? {
      var (sent, rest) := Line(input, AGENT_LINE).value;
      FieldsAreWords(sent);
    }
  }

  /** Why an AUTHORIZE with a proper identifier is not understood: the line is too
      long, the PIN has an unacceptable length, or fewer octets come than it
      announces. */
  lemma AuthorizeRefusals(id: Text, pin: seq<byte>, extra: seq<byte>, cut: nat)
    requires IsWord(id) && |pin| < U64_LIMIT && cut < |pin|
    ensures var line := AuthorizeLine(id, |pin|);
            && (|line| > 16383 ==> Understood(AuthorizeBytes(id, pin) + extra) == Failure(InvalidLine))
            && (|line| <= 16383 && (|pin| < 6 || |pin| > 64) ==>
                  Understood(AuthorizeBytes(id, pin) + extra) == Failure(InvalidCommand))
            && (|line| <= 16383 && 6 <= |pin| <= 64 ==>
                  Understood(line + ([NEWLINE] + pin[..cut])) == Failure(PinNotRead))
  {
    var line := AuthorizeLine(id, |pin|);
    AuthorizeIsOneLine(id, pin, extra);
    AuthorizeFields(id, |pin|);
    ParseUsizeOfDecimal(|pin|);
    assert line[0] == 'A' as int;
    assert AuthorizePrefix() <= line;
    if |line| <= 16383 {
      AuthorizeLineIsText(id, |pin|);
      LineOf(line, pin[..cut], AGENT_LINE);
    }
  }

  /** The octets of the client's other two commands. */
  lemma StatusAndListAreUnderstood(extra: seq<byte>)
    ensures Understood(Ascii("STATUS") + ([NEWLINE] + extra)) == Success((Status, extra))
    ensures Understood(Ascii("LIST") + ([NEWLINE] + extra)) == Success((List, extra))
  {
    AsciiIsUtf8(Ascii("STATUS"));
    AsciiIsUtf8(Ascii("LIST"));
    LineOf(Ascii("STATUS"), extra, AGENT_LINE);
    LineOf(Ascii("LIST"), extra, AGENT_LINE);
    assert |Ascii("STATUS")| == 6 && |Ascii("LIST")| == 4;
  }

  lemma AuthorizeIsOneLine(id: Text, pin: seq<byte>, extra: seq<byte>)
    requires IsWord(id)
    ensures var line := AuthorizeLine(id, |pin|);
            && NEWLINE !in line
            && AgentLine(AuthorizeBytes(id, pin) + extra)
               == if |line| <= AGENT_LINE then Success((line, pin + extra)) else Failure(InvalidLine)
  {
    var line := AuthorizeLine(id, |pin|);
    DecimalIsWord(|pin|);
    assert NEWLINE !in line;
    AfterLine(line, pin, extra);
    LineOf(line, pin + extra, AGENT_LINE);
    IndexAfter(line, NEWLINE, pin + extra);
    AuthorizeLineIsText(id, |pin|);
  }

  lemma InterpretAuthorize(id: seq<byte>, pin: seq<byte>, extra: seq<byte>)
    requires IsWord(id)
    ensures Interpret(AuthorizeLine(id, |pin|), pin + extra) == Success((Authorize(id, pin), extra))
            <==> 6 <= |pin| <= MAX_PIN_BYTES
  {
    var line := AuthorizeLine(id, |pin|);
    AuthorizeFields(id, |pin|);
    ParseUsizeIfSmall(|pin|);
    assert line[0] == 'A' as int;
    assert AuthorizePrefix() <= line;
    assert (pin + extra)[..|pin|] == pin && (pin + extra)[|pin|..] == extra;
  }

  lemma ParseUsizeIfSmall(n: nat)
    ensures n < U64_LIMIT ==> ParseUsize(Decimal(n)) == Some(n)
    ensures n > MAX_PIN_BYTES ==> ParseUsize(Decimal(n)) == None || ParseUsize(Decimal(n)).value > MAX_PIN_BYTES
  {
    DecimalValueOfDecimal(n);
    assert Decimal(n)[0] in Decimal(n);
  }

  // ------------------------------------------------------------------
  // Listing
  // ------------------------------------------------------------------

  datatype Row = Row(id: seq<byte>, name: Text)

  ghost function ListPrefix(): seq<byte> {
    Ascii("OK KEYVISOR-PENDING-1") + [SPACE]
  }

  ghost function RowLine(row: Row): seq<byte> {
    row.id + ([TAB] + Hex(row.name))
  }

  ghost function Rows(pending: seq<Row>): seq<byte> {
    if pending == [] then [] else RowLine(pending[0]) + ([NEWLINE] + Rows(pending[1..]))
  }

  ghost function ListBytes(pending: seq<Row>): seq<byte> {
    (ListPrefix() + Decimal(|pending|)) + ([NEWLINE] + Rows(pending))
  }

  /** The agent's answer to LIST. */
  method AnswerList(output: Buffer, pending: seq<Row>)
    modifies output
    ensures output.data == old(output.data) + ListBytes(pending)
  {
    WriteListHeader(output, |pending|);
    ghost var total := old(output.data) + ListBytes(pending);
    assert pending[0..] == pending;
    LineThenRest(old(output.data), ListPrefix() + Decimal(|pending|), Rows(pending));
    for i := 0 to |pending|
      invariant output.data + Rows(pending[i..]) == total
    {
      ghost var before := output.data;
      WriteRow(output, pending[i]);
      assert pending[i..][1..] == pending[i + 1..];
      LineThenRest(before, RowLine(pending[i]), Rows(pending[i + 1..]));
    }
    assert pending[|pending|..] == [];
  }

  method WriteListHeader(output: Buffer, count: nat)
    modifies output
    ensures output.data == old(output.data) + (ListPrefix() + Decimal(count)) + [NEWLINE]
  {
    ListPrefixIs();
    output.Extend(Ascii("OK KEYVISOR-PENDING-1 "));
    output.Extend(Decimal(count));
    output.Push(NEWLINE);
    Associate(old(output.data), ListPrefix(), Decimal(count));
  }

  lemma ListPrefixIs()
    ensures ListPrefix() == Ascii("OK KEYVISOR-PENDING-1 ")
  {
  }

  lemma LineThenRest(start: seq<byte>, line: seq<byte>, rest: seq<byte>)
    ensures start + line + [NEWLINE] + rest == start + (line + ([NEWLINE] + rest))
  {
  }

  method WriteRow(output: Buffer, row: Row)
    modifies output
    ensures output.data == old(output.data) + RowLine(row) + [NEWLINE]
  {
    var name := EncodeHex(row.name);
    output.Extend(row.id);
    output.Push(TAB);
    output.Extend(name);
    output.Push(NEWLINE);
    AssociateFour(old(output.data), row.id, [TAB], name);
  }

  /** One row as the client takes it apart, at the first tab. */
  function ParseRow(line: seq<byte>): (r: Option<Row>)
    ensures r.Some? ==> r.value.id <= line && TAB !in r.value.id && |line| == |r.value.id| + 1 + 2 * |r.value.name|
  {
    var tab := IndexOf(line, TAB);
    if tab == |line| then None
    else
      match Unhex(line[tab + 1..])
      case None => None
      case Some(name) => if ValidUtf8(name) then Some(Row(line[..tab], name)) else None
  }

  /** What reading a list gives: the rows and the rest of the stream, or an error. */
  type Reading = Result<(seq<Row>, seq<byte>), ControlError>

  function ReadRow(input: seq<byte>): (r: Result<(Row, seq<byte>), ControlError>)
    ensures r.Success? ==> RowFits(r.value.0)
  {
    match ClientLine(input)
    case Failure(e) => Failure(e)
    case Success((line, rest)) =>
      match ParseRow(line)
      case None => Failure(RowError(line))
      case Some(row) =>
        ParsedRowFits(line);
        Success((row, rest))
  }

  /** The row reader as a value, for reading a list. */
  function RowReader(): seq<byte> -> Result<(Row, seq<byte>), ControlError> {
    (input: seq<byte>) => ReadRow(input)
  }

  ghost predicate IsReader(get: seq<byte> -> Result<(Row, seq<byte>), ControlError>) {
    forall input: seq<byte> {:trigger ReadRow(input)} :: get(input) == ReadRow(input)
  }

  function ReadRows(input: seq<byte>, count: nat): Reading {
    Repeat(RowReader(), input, count)
  }

  /** `control_error`: the agent's own words after "ERR ". */
  function Complaint(line: seq<byte>): ControlError {
    if Ascii("ERR ") <= line then Told(line[4..]) else InvalidResponse
  }

  function RowError(line: seq<byte>): ControlError {
    if TAB in line then InvalidName else InvalidRequest
  }

  /** The client's reading of the answer to LIST. */
  ghost function Listed(input: seq<byte>): Reading {
    match ClientLine(input)
    case Failure(e) => Failure(e)
    case Success((header, rest)) =>
      if !(ListPrefix() <= header) then Failure(Complaint(header))
      else
        match ParseUsize(header[|ListPrefix()|..])
        case None => Failure(InvalidCount)
        case Some(count) => if count > MAX_PENDING_AUTHORIZATIONS then Failure(TooManyRequests) else ReadRows(rest, count)
  }

  lemma {:induction false} UnhexPrefix(h: seq<byte>, n: nat)
    requires 2 * n <= |h| && Unhex(h).Some?
    ensures Unhex(h[..2 * n]).Some?
    decreases |h|
  {
    if 2 * n < |h| {
      assert |h| % 2 == 0;
      var front := h[..|h| - 2];
      UnhexPrefix(front, n);
      assert front[..2 * n] == h[..2 * n];
    } else {
      assert h[..2 * n] == h;
    }
  }

  /** `decode_hex_text`. */
  method DecodeHexText(value: seq<byte>) returns (r: Option<Text>)
    ensures r == if Unhex(value).Some? && ValidUtf8(Unhex(value).value) then Some(Unhex(value).value) else None
  {
    if |value| % 2 != 0 {
      return None;
    }
    var bytes: seq<byte> := [];
    for i := 0 to |value| / 2
      invariant Unhex(value[..2 * i]) == Some(bytes)
    {
      var high, low := HexDigitValue(value[2 * i]), HexDigitValue(value[2 * i + 1]);
      ghost var longer := value[..2 * (i + 1)];
      assert longer[..|longer| - 2] == value[..2 * i];
      assert longer[|longer| - 2] == value[2 * i] && longer[|longer| - 1] == value[2 * i + 1];
      if high == None || low == None {
        if Unhex(value).Some? {
          UnhexPrefix(value, i + 1);
        }
        return None;
      }
      bytes := bytes + [high.value * 16 + low.value];
    }
    assert value[..2 * (|value| / 2)] == value;
    return if ValidUtf8(bytes) then Some(bytes) else None;
  }

  /** `fetch_authorization_requests`, once LIST has been written. */
  method FetchRequests(stream: Cursor) returns (r: Result<seq<Row>, ControlError>)
    modifies stream
    ensures match Listed(old(stream.rest))
            case Success((rows, rest)) => r == Success(rows) && stream.rest == rest
            case Failure(e) => r == Failure(e)
  {
    var header := ClientReadLine(stream);
    if header.Failure? {
      return Failure(header.error);
    }
    var count := ReadCount(header.value);
    if count.Failure? {
      return Failure(count.error);
    }
    r := FetchRows(stream, count.value, RowReader());
  }

  /** How many rows the header announces. */
  method ReadCount(header: seq<byte>) returns (r: Result<nat, ControlError>)
    ensures if !(ListPrefix() <= header) then r == Failure(Complaint(header))
            else var count := ParseUsize(header[|ListPrefix()|..]);
                 r == if count == None then Failure(InvalidCount)
                      else if count.value > MAX_PENDING_AUTHORIZATIONS then Failure(TooManyRequests)
                      else Success(count.value)
  {
    ListPrefixIs();
    var prefix := Ascii("OK KEYVISOR-PENDING-1 ");
    if !(prefix <= header) {
      return Failure(Complaint(header));
    }
    var count := ParseUsize(header[|prefix|..]);
    if count == None {
      return Failure(InvalidCount);
    }
    if count.value > 16 {
      return Failure(TooManyRequests);
    }
    return Success(count.value);
  }

  method DecodeRow(line: seq<byte>) returns (r: Result<Row, ControlError>)
    ensures r == if ParseRow(line).Some? then Success(ParseRow(line).value) else Failure(RowError(line))
  {
    var tab := IndexOf(line, TAB);
    if tab == |line| {
      return Failure(InvalidRequest);
    }
    var name := DecodeHexText(line[tab + 1..]);
    if name == None {
      return Failure(InvalidName);
    }
    return Success(Row(line[..tab], name.value));
  }

  method FetchRow(stream: Cursor, ghost get: seq<byte> -> Result<(Row, seq<byte>), ControlError>)
    returns (r: Result<Row, ControlError>)
    requires IsReader(get)
    modifies stream
    ensures match get(old(stream.rest))
            case Success((row, rest)) => r == Success(row) && stream.rest == rest
            case Failure(e) => r == Failure(e)
  {
    assert get(stream.rest) == ReadRow(stream.rest);
    var line := ClientReadLine(stream);
    if line.Failure? {
      return Failure(line.error);
    }
    r := DecodeRow(line.value);
  }

  method FetchRows(stream: Cursor, count: nat, ghost get: seq<byte> -> Result<(Row, seq<byte>), ControlError>)
    returns (r: Result<seq<Row>, ControlError>)
    requires IsReader(get)
    modifies stream
    ensures match Repeat(get, old(stream.rest), count)
            case Success((rows, rest)) => r == Success(rows) && stream.rest == rest
            case Failure(e) => r == Failure(e)
  {
    ghost var start := stream.rest;
    var requests: seq<Row> := [];
    NothingAhead(Repeat(get, start, count));
    for i := 0 to count
      invariant Ahead(requests, Repeat(get, stream.rest, count - i)) == Repeat(get, start, count)
    {
      var row := FetchRow(stream, get);
      if row.Failure? {
        return Failure(row.error);
      }
      AheadTwice(requests, row.value, Repeat(get, stream.rest, count - i - 1));
      requests := requests + [row.value];
    }
    assert requests + [] == requests;
    return Success(requests);
  }

  /** The client can take this row in. */
  ghost predicate RowFits(row: Row) {
    TAB !in row.id && NEWLINE !in row.id && |RowLine(row)| <= CLIENT_LINE
  }

  lemma RowLineIsText(row: Row)
    requires ValidUtf8(row.id)
    ensures ValidUtf8(RowLine(row))
    ensures NEWLINE !in row.id ==> NEWLINE !in RowLine(row)
  {
    HexIsAsciiLine(row.name);
    TextThenTab(row.id, Hex(row.name));
  }

  lemma ParseRowOfLine(row: Row)
    requires TAB !in row.id
    ensures ParseRow(RowLine(row)) == Some(row)
  {
    UnhexOfHex(row.name);
    SplitAtTab(row.id, Hex(row.name));
  }

  lemma HexIsAsciiLine(value: seq<byte>)
    ensures NEWLINE !in Hex(value) && IsAscii(Hex(value))
  {
    HexIsPlain(value);
  }

  lemma TextThenTab(id: seq<byte>, tail: seq<byte>)
    requires ValidUtf8(id) && NEWLINE !in tail && IsAscii(tail)
    ensures ValidUtf8(id + ([TAB] + tail))
    ensures NEWLINE !in id ==> NEWLINE !in id + ([TAB] + tail)
  {
    AsciiIsUtf8([TAB] + tail);
    Utf8Concat(id, [TAB] + tail);
  }

  lemma SplitAtTab(id: seq<byte>, tail: seq<byte>)
    requires TAB !in id
    ensures var line := id + ([TAB] + tail);
            IndexOf(line, TAB) == |id| && |id| < |line| && line[..|id|] == id && line[|id| + 1..] == tail
  {
    IndexAfter(id, TAB, tail);
  }

  lemma ReadOneRow(row: Row, rest: seq<byte>)
    requires ValidUtf8(row.id) && RowFits(row)
    ensures ReadRow(RowLine(row) + ([NEWLINE] + rest)) == Success((row, rest))
  {
    RowLineIsText(row);
    ParseRowOfLine(row);
    ClientLineOf(RowLine(row), rest);
  }

  lemma FirstRow(pending: seq<Row>, extra: seq<byte>, get: seq<byte> -> Result<(Row, seq<byte>), ControlError>)
    requires pending != [] && ValidUtf8(pending[0].id) && RowFits(pending[0])
    requires IsReader(get)
    ensures get(Rows(pending) + extra) == Success((pending[0], Rows(pending[1..]) + extra))
  {
    var input, rest := Rows(pending) + extra, Rows(pending[1..]);
    AfterLine(RowLine(pending[0]), rest, extra);
    ReadOneRow(pending[0], rest + extra);
    assert get(input) == ReadRow(input);
  }

  lemma {:induction false} ReadRowsOfRows(pending: seq<Row>, extra: seq<byte>,
                                          get: seq<byte> -> Result<(Row, seq<byte>), ControlError>)
    requires forall i | 0 <= i < |pending| :: ValidUtf8(pending[i].id) && RowFits(pending[i])
    requires IsReader(get)
    ensures Repeat(get, Rows(pending) + extra, |pending|) == Success((pending, extra))
    decreases |pending|
  {
    if pending == [] {
      assert Rows(pending) + extra == extra;
    } else {
      var others := pending[1..];
      var input, rest := Rows(pending) + extra, Rows(others) + extra;
      FirstRow(pending, extra, get);
      ReadRowsOfRows(others, extra, get);
      RepeatOnce(get, input, pending[0], rest, others, extra);
      assert pending == [pending[0]] + others;
    }
  }

  lemma ReadRowsFit(input: seq<byte>, count: nat)
    requires ReadRows(input, count).Success?
    ensures |ReadRows(input, count).value.0| == count
    ensures forall row | row in ReadRows(input, count).value.0 :: RowFits(row)
  {
    RepeatReadsGoodItems(RowReader(), (row: Row) => RowFits(row), input, count);
  }

  lemma ParsedRowFits(line: seq<byte>)
    requires NEWLINE !in line && |line| <= CLIENT_LINE && ParseRow(line).Some?
    ensures RowFits(ParseRow(line).value)
  {
    var id := ParseRow(line).value.id;
    assert id == line[..|id|];
  }

  lemma HeaderLine(prefix: seq<byte>, number: seq<byte>, rest: seq<byte>, limit: nat)
    requires NEWLINE !in prefix && NEWLINE !in number && ValidUtf8(prefix) && ValidUtf8(number)
    requires |prefix| + |number| <= limit
    ensures Line((prefix + number) + ([NEWLINE] + rest), limit) == Some((prefix + number, rest))
    ensures prefix <= prefix + number && (prefix + number)[|prefix|..] == number
  {
    Utf8Concat(prefix, number);
    LineOf(prefix + number, rest, limit);
  }

  lemma ListPrefixIsPlain()
    ensures NEWLINE !in ListPrefix() && ValidUtf8(ListPrefix()) && |ListPrefix()| == 22
  {
    LiteralIsPlain("OK KEYVISOR-PENDING-1");
  }

  /** A printable literal followed by a space. */
  lemma LiteralIsPlain(literal: string)
    requires forall i | 0 <= i < |literal| :: 10 < literal[i] as int < 0x80
    ensures NEWLINE !in Ascii(literal) + [SPACE] && ValidUtf8(Ascii(literal) + [SPACE])
  {
    var s := Ascii(literal) + [SPACE];
    forall b | b in s ensures 10 < b < 0x80 {
      var i :| 0 <= i < |s| && s[i] == b;
    }
    AsciiIsUtf8(s);
  }

  /** The client reads back exactly the agent's pending list precisely when it has
      at most sixteen rows and every row fits a client line. */
  lemma ListRoundTrip(pending: seq<Row>, extra: seq<byte>)
    requires forall i | 0 <= i < |pending| :: ValidUtf8(pending[i].id)
    ensures Listed(ListBytes(pending) + extra) == Success((pending, extra))
            <==> |pending| <= 16 && forall i | 0 <= i < |pending| :: RowFits(pending[i])
  {
    var input := ListBytes(pending) + extra;
    if |pending| <= MAX_PENDING_AUTHORIZATIONS && forall i | 0 <= i < |pending| :: RowFits(pending[i]) {
      ListedOfRows(pending, ListPrefix(), Decimal(|pending|), extra);
    }
    if Listed(input) == Success((pending, extra)) {
      ListedFits(input);
      assert forall i | 0 <= i < |pending| :: pending[i] in pending;
    }
  }

  lemma ListedOfRows(pending: seq<Row>, prefix: seq<byte>, number: seq<byte>, extra: seq<byte>)
    requires |pending| <= MAX_PENDING_AUTHORIZATIONS
    requires forall i | 0 <= i < |pending| :: ValidUtf8(pending[i].id) && RowFits(pending[i])
    requires prefix == ListPrefix() && number == Decimal(|pending|)
    ensures Listed(ListBytes(pending) + extra) == Success((pending, extra))
  {
    ListPrefixIsPlain();
    DecimalIsWord(|pending|);
    DecimalOfSmall(|pending|);
    ParseUsizeOfDecimal(|pending|);
    AfterLine(prefix + number, Rows(pending), extra);
    HeaderLine(prefix, number, Rows(pending) + extra, CLIENT_LINE);
    ReadRowsOfRows(pending, extra, RowReader());
  }

  lemma AfterLine(a: seq<byte>, b: seq<byte>, c: seq<byte>)
    ensures (a + ([NEWLINE] + b)) + c == a + ([NEWLINE] + (b + c))
  {
  }

  lemma DecimalOfSmall(n: nat)
    requires n < 100
    ensures |Decimal(n)| <= 2
  {
    assert n >= 10 ==> |Digits(n / 10, 10)| == 1;
  }

  lemma ListedFits(input: seq<byte>)
    requires Listed(input).Success?
    ensures |Listed(input).value.0| <= MAX_PENDING_AUTHORIZATIONS
    ensures forall row | row in Listed(input).value.0 :: RowFits(row)
  {
    var (header, rest) := Line(input, CLIENT_LINE).value;
    ReadRowsFit(rest, ParseUsize(header[|ListPrefix()|..]).value);
  }
}

/** One client connection: a stream of frames in, a stream of frames out. */
module Connection {
  import opened Wrappers
  import opened Bytes
  import opened Protocol

  /** One octet to 256 KiB. */
  predicate InBound(length: nat) {
    1 <= length <= MAX_PACKET_LENGTH
  }

  /** The stream begins with one whole packet of acceptable length. */
  predicate HasPacket(s: seq<byte>) {
    |s| >= 4 && InBound(Value(s[..4])) && |s| >= 4 + Value(s[..4])
  }

  /** The stream begins with a length that is refused. */
  predicate BadLength(s: seq<byte>) {
    |s| >= 4 && !InBound(Value(s[..4]))
  }

  function FirstPacket(s: seq<byte>): seq<byte>
    requires HasPacket(s)
  {
    s[4..4 + Value(s[..4])]
  }

  function AfterFirst(s: seq<byte>): (rest: seq<byte>)
    requires HasPacket(s)
    ensures |rest| < |s|
  {
    s[4 + Value(s[..4])..]
  }

  /** The whole in-bound packets at the front of a stream. */
  function Packets(s: seq<byte>): seq<seq<byte>>
    decreases |s|
  {
    if HasPacket(s) then [FirstPacket(s)] + Packets(AfterFirst(s)) else []
  }

  function Remainder(s: seq<byte>): seq<byte>
    decreases |s|
  {
    if HasPacket(s) then Remainder(AfterFirst(s)) else s
  }

  predicate AllInBound(payloads: seq<seq<byte>>) {
    forall k | 0 <= k < |payloads| :: InBound(|payloads[k]|)
  }

  function Framed(payloads: seq<seq<byte>>): seq<byte>
    requires AllInBound(payloads)
  {
    if payloads == [] then [] else Frame(payloads[0]) + Framed(payloads[1..])
  }

  lemma FrontFrame(payload: seq<byte>, rest: seq<byte>)
    requires InBound(|payload|)
    ensures var s := Frame(payload) + rest;
            HasPacket(s) && FirstPacket(s) == payload && AfterFirst(s) == rest
  {
    ReadPrefixed(payload, rest);
    assert (Prefixed(payload) + rest)[..4] == U32(|payload|);
  }

  /** Deframing is the exact inverse of framing, whatever follows. */
  lemma {:induction false} DeframeFramed(payloads: seq<seq<byte>>, tail: seq<byte>)
    requires AllInBound(payloads)
    requires !HasPacket(tail)
    ensures Packets(Framed(payloads) + tail) == payloads
    ensures Remainder(Framed(payloads) + tail) == tail
    decreases |payloads|
  {
    if payloads == [] {
      assert Framed(payloads) + tail == tail;
    } else {
      var rest := Framed(payloads[1..]) + tail;
      assert Framed(payloads) + tail == Frame(payloads[0]) + rest;
      FrontFrame(payloads[0], rest);
      DeframeFramed(payloads[1..], tail);
    }
  }

  lemma SplitFirst(s: seq<byte>)
    requires HasPacket(s)
    ensures s == Frame(FirstPacket(s)) + AfterFirst(s)
  {
    U32OfValue(s[..4]);
  }

  /** Every stream is its packets, framed, and a remainder that holds no whole
      packet. */
  lemma {:induction false} StreamIsFramed(s: seq<byte>)
    ensures AllInBound(Packets(s))
    ensures Framed(Packets(s)) + Remainder(s) == s
    ensures !HasPacket(Remainder(s))
    decreases |s|
  {
    if HasPacket(s) {
      var rest := AfterFirst(s);
      StreamIsFramed(rest);
      SplitFirst(s);
      assert Packets(s)[1..] == Packets(rest);
      assert Framed(Packets(s)) == Frame(FirstPacket(s)) + Framed(Packets(rest));
      Associate(Frame(FirstPacket(s)), Framed(Packets(rest)), Remainder(rest));
    }
  }

  /** What handling the i-th packet of the connection produced. */
  type Handler = (nat, seq<byte>) -> Result<seq<byte>, ()>

  ghost predicate WellBehaved(handle: Handler) {
    forall i, p :: handle(i, p).Success? ==> IsResponse(handle(i, p).value)
  }

  /** A frame of one octet, 5. */
  function FailureResponse(): (packet: seq<byte>)
    ensures IsResponse(packet) && packet[4..] == [5] && packet == [0, 0, 0, 1, 5]
  {
    U32Octets(1);
    Frame(FAILURE_PAYLOAD)
  }

  ghost function Reply(handle: Handler, i: nat, packet: seq<byte>): seq<byte> {
    match handle(i, packet)
    case Success(response) => response
    case Failure(_) => FailureResponse()
  }

  /** The replies to a list of packets, the first of which has number `i`. */
  ghost function Replies(handle: Handler, i: nat, packets: seq<seq<byte>>): seq<byte>
    decreases |packets|
  {
    if packets == [] then [] else Reply(handle, i, packets[0]) + Replies(handle, i + 1, packets[1..])
  }

  ghost function ReplyPayload(handle: Handler, i: nat, packet: seq<byte>): (payload: seq<byte>)
    requires WellBehaved(handle)
    ensures InBound(|payload|)
    ensures Reply(handle, i, packet) == Frame(payload)
  {
    assert handle(i, packet).Success? ==> IsResponse(handle(i, packet).value);
    Reply(handle, i, packet)[4..]
  }

  ghost function ReplyPayloads(handle: Handler, i: nat, packets: seq<seq<byte>>): (payloads: seq<seq<byte>>)
    requires WellBehaved(handle)
    ensures |payloads| == |packets| && AllInBound(payloads)
    decreases |packets|
  {
    if packets == [] then []
    else [ReplyPayload(handle, i, packets[0])] + ReplyPayloads(handle, i + 1, packets[1..])
  }

  /** The payload for the k-th of these packets, which has number `n` on the connection. */
  lemma {:induction false} PayloadOfPacket(handle: Handler, i: nat, packets: seq<seq<byte>>, k: nat, n: nat)
    requires WellBehaved(handle) && k < |packets| && n == i + k
    ensures ReplyPayloads(handle, i, packets)[k] == ReplyPayload(handle, n, packets[k])
    decreases |packets|
  {
    var rest := ReplyPayloads(handle, i + 1, packets[1..]);
    assert ReplyPayloads(handle, i, packets) == [ReplyPayload(handle, i, packets[0])] + rest;
    if k > 0 {
      PayloadOfPacket(handle, i + 1, packets[1..], k - 1, n);
    }
  }

  lemma {:induction false} RepliesAreFramed(handle: Handler, i: nat, packets: seq<seq<byte>>)
    requires WellBehaved(handle)
    ensures Replies(handle, i, packets) == Framed(ReplyPayloads(handle, i, packets))
    decreases |packets|
  {
    if packets != [] {
      var first, rest := ReplyPayload(handle, i, packets[0]), ReplyPayloads(handle, i + 1, packets[1..]);
      RepliesAreFramed(handle, i + 1, packets[1..]);
      assert ([first] + rest)[1..] == rest;
    }
  }

  function FinalFailure(s: seq<byte>): seq<byte> {
    if BadLength(Remainder(s)) then FailureResponse() else []
  }

  lemma {:induction false} FramedAppend(a: seq<seq<byte>>, b: seq<seq<byte>>)
    requires AllInBound(a) && AllInBound(b)
    ensures AllInBound(a + b)
    ensures Framed(a + b) == Framed(a) + Framed(b)
    decreases |a|
  {
    if a == [] {
      assert a + b == b;
    } else {
      var rest := a[1..];
      assert (a + b)[1..] == rest + b;
      FramedAppend(rest, b);
      Associate(Frame(a[0]), Framed(rest), Framed(b));
    }
  }

  /** Deframing what the agent wrote gives exactly one payload per packet it was
      sent, in order: the response to that packet where handling it succeeded and
      the single octet 5 where it failed. A lone failure follows if a bad length
      ended the connection. */
  lemma OneReplyPerPacket(handle: Handler, input: seq<byte>)
    requires WellBehaved(handle)
    ensures var output := Replies(handle, 0, Packets(input)) + FinalFailure(input);
            var sent := Packets(output);
            && Remainder(output) == []
            && |sent| == |Packets(input)| + (if BadLength(Remainder(input)) then 1 else 0)
            && (forall k | 0 <= k < |Packets(input)| ::
                  sent[k] == if handle(k, Packets(input)[k]).Success? then handle(k, Packets(input)[k]).value[4..] else [5])
            && (BadLength(Remainder(input)) ==> sent[|sent| - 1] == [5])
            && AllInBound(sent)
  {
    OutputPackets(handle, input);
    PayloadsOfPackets(handle, Packets(input), ReplyPayloads(handle, 0, Packets(input)));
    forall k | 0 <= k < |Packets(input)|
      ensures ReplyPayload(handle, k, Packets(input)[k])
              == if handle(k, Packets(input)[k]).Success? then handle(k, Packets(input)[k]).value[4..] else [5]
    {
      PayloadIsTheResponse(handle, k, Packets(input)[k]);
    }
  }

  lemma PayloadIsTheResponse(handle: Handler, k: nat, packet: seq<byte>)
    requires WellBehaved(handle)
    ensures handle(k, packet).Success? ==> |handle(k, packet).value| >= 4
    ensures ReplyPayload(handle, k, packet) == if handle(k, packet).Success? then handle(k, packet).value[4..] else [5]
  {
    assert handle(k, packet).Success? ==> IsResponse(handle(k, packet).value);
  }

  lemma OutputPackets(handle: Handler, input: seq<byte>)
    requires WellBehaved(handle)
    ensures var output := Replies(handle, 0, Packets(input)) + FinalFailure(input);
            && Packets(output) == ReplyPayloads(handle, 0, Packets(input))
                                  + (if BadLength(Remainder(input)) then [FAILURE_PAYLOAD] else [])
            && Remainder(output) == [] && AllInBound(Packets(output))
  {
    RepliesAreFramed(handle, 0, Packets(input));
    OutputDeframes(ReplyPayloads(handle, 0, Packets(input)), if BadLength(Remainder(input)) then [FAILURE_PAYLOAD] else []);
  }

  lemma PayloadsOfPackets(handle: Handler, packets: seq<seq<byte>>, payloads: seq<seq<byte>>)
    requires WellBehaved(handle) && payloads == ReplyPayloads(handle, 0, packets)
    ensures forall k | 0 <= k < |packets| :: payloads[k] == ReplyPayload(handle, k, packets[k])
  {
    forall k | 0 <= k < |packets| ensures payloads[k] == ReplyPayload(handle, k, packets[k]) {
      PayloadOfPacket(handle, 0, packets, k, k);
    }
  }

  lemma OutputDeframes(payloads: seq<seq<byte>>, last: seq<seq<byte>>)
    requires AllInBound(payloads) && (last == [] || last == [FAILURE_PAYLOAD])
    ensures var output := Framed(payloads) + (if last == [] then [] else FailureResponse());
            Packets(output) == payloads + last && Remainder(output) == [] && AllInBound(payloads + last)
  {
    FramedAppend(payloads, last);
    DeframeFramed(payloads + last, []);
    var framed := Framed(payloads + last);
    assert framed + [] == framed;
    if last != [] {
      assert Framed(last) == Frame(last[0]) + Framed(last[1..]);
      assert Framed(last) == FailureResponse();
    }
  }

  datatype ConnectionError = ShortRead | InvalidLength

  /** The connected socket: octets still to be read, octets written. */
  class Stream {
    var input: seq<byte>
    var output: seq<byte>

    constructor (input: seq<byte>)
      ensures this.input == input && output == []
    {
      this.input := input;
      output := [];
    }

    method ReadExact(count: nat) returns (r: Option<seq<byte>>)
      modifies this`input
      ensures count <= |old(input)| ==> r == Some(old(input)[..count]) && input == old(input)[count..]
      ensures count > |old(input)| ==> r == None && input == []
    {
      if count > |input| {
        input := [];
        return None;
      }
      r := Some(input[..count]);
      input := input[count..];
    }

    method Write(packet: seq<byte>)
      modifies this`output
      ensures output == old(output) + packet
    {
      output := output + packet;
    }
  }

  /** One octet decides between a clean end and a length; the other three must follow. */
  method ReadPacketLength(stream: Stream) returns (r: Result<Option<nat>, ConnectionError>)
    modifies stream`input
    ensures old(stream.input) == [] ==> r == Success(None) && stream.input == []
    ensures 0 < |old(stream.input)| < 4 ==> r == Failure(ShortRead)
    ensures |old(stream.input)| >= 4 ==>
              r == Success(Some(Value(old(stream.input)[..4]))) && stream.input == old(stream.input)[4..]
  {
    ghost var before := stream.input;
    if stream.input == [] {
      return Success(None);
    }
    var first := stream.ReadExact(1);
    var others := stream.ReadExact(3);
    if others == None {
      return Failure(ShortRead);
    }
    assert first.value + others.value == before[..4];
    return Success(Some(Value(first.value + others.value)));
  }

  /** The next packet, the end of the stream, or why there is neither. */
  method ReadPacket(stream: Stream) returns (r: Result<Option<seq<byte>>, ConnectionError>)
    modifies stream`input
    ensures r == Success(None) <==> old(stream.input) == []
    ensures r.Success? && r.value.Some? <==> HasPacket(old(stream.input))
    ensures r.Success? && r.value.Some? ==>
              r.value.value == FirstPacket(old(stream.input)) && stream.input == AfterFirst(old(stream.input))
    ensures r == Failure(InvalidLength) <==> BadLength(old(stream.input))
  {
    ghost var front := stream.input;
    var length := ReadPacketLength(stream);
    if length.Failure? {
      return Failure(length.error);
    }
    if length.value == None {
      return Success(None);
    }
    var octets := length.value.value;
    if octets == 0 || octets > MAX_PACKET_LENGTH {
      return Failure(InvalidLength);
    }
    var packet := stream.ReadExact(octets);
    if packet == None {
      return Failure(ShortRead);
    }
    assert packet.value == FirstPacket(front) && stream.input == AfterFirst(front);
    return Success(packet);
  }

  lemma OneMore(handle: Handler, i: nat, rest: seq<byte>, written: seq<byte>)
    requires HasPacket(rest)
    ensures written + Replies(handle, i, Packets(rest))
            == written + Reply(handle, i, FirstPacket(rest)) + Replies(handle, i + 1, Packets(AfterFirst(rest)))
  {
    assert Packets(rest)[1..] == Packets(AfterFirst(rest));
  }

  lemma Finished(handle: Handler, i: nat, rest: seq<byte>)
    requires !HasPacket(rest)
    ensures Replies(handle, i, Packets(rest)) == [] && Remainder(rest) == rest
  {
  }

  /** The answer to one packet. */
  method WriteResponse(stream: Stream, handled: Result<seq<byte>, ()>)
    modifies stream`output
    ensures stream.output == old(stream.output) + if handled.Success? then handled.value else [0, 0, 0, 1, 5]
  {
    var response: seq<byte>;
    match handled {
      case Success(packet) => response := packet;
      case Failure(_) => response := FailureResponse();
    }
    stream.Write(response);
  }

  /** `serve_connection`, with the result of handling each packet given by `handle`. */
  method ServeConnection(stream: Stream, handle: Handler) returns (r: Result<(), ConnectionError>)
    modifies stream
    ensures stream.output == old(stream.output)
                             + (Replies(handle, 0, Packets(old(stream.input))) + FinalFailure(old(stream.input)))
    ensures r.Success? <==> Remainder(old(stream.input)) == []
    ensures r == Failure(InvalidLength) <==> BadLength(Remainder(old(stream.input)))
  {
    var handled := 0;
    ghost var input, output := stream.input, stream.output;
    while true
      invariant Remainder(stream.input) == Remainder(input)
      invariant stream.output + Replies(handle, handled, Packets(stream.input))
                == output + Replies(handle, 0, Packets(input))
      decreases |stream.input|
    {
      ghost var front, written := stream.input, stream.output;
      assert written + [] == written;
      var packet := ReadPacket(stream);
      if packet.Failure? {
        Finished(handle, handled, front);
        if packet.error == InvalidLength {
          stream.Write(FailureResponse());
        }
        return Failure(packet.error);
      }
      if packet.value == None {
        Finished(handle, handled, front);
        return Success(());
      }
      WriteResponse(stream, handle(handled, packet.value.value));
      OneMore(handle, handled, front, written);
      handled := handled + 1;
    }
  }
}

/** The bounded SSH agent protocol: strict request parsing and response
    encoding. The reference meaning of a packet is its wire encoding. */
module Protocol {
  import opened Wrappers
  import opened Bytes
  import opened Keys

  const MAX_PACKET_LENGTH: nat := 256 * 1024

  const SSH_AGENT_FAILURE: byte := 5
  const SSH2_AGENTC_REQUEST_IDENTITIES: byte := 11
  const SSH2_AGENT_IDENTITIES_ANSWER: byte := 12
  const SSH2_AGENTC_SIGN_REQUEST: byte := 13
  const SSH2_AGENT_SIGN_RESPONSE: byte := 14

  datatype Request =
    | RequestIdentities
    | Sign(publicKey: seq<byte>, data: seq<byte>, flags: nat)

  datatype ProtocolError =
    | EmptyPacket
    | PacketTooLarge
    | Truncated
    | TrailingData
    | UnsupportedRequest
    | InvalidSignature

  // ------------------------------------------------------------------
  // Requests
  // ------------------------------------------------------------------

  predicate Encodable(q: Request) {
    q.Sign? ==> |q.publicKey| < U32_LIMIT && |q.data| < U32_LIMIT && q.flags < U32_LIMIT
  }

  /** The request's encoding in the SSH agent protocol. */
  function Wire(q: Request): (packet: seq<byte>)
    requires Encodable(q)
  {
    match q
    case RequestIdentities => [SSH2_AGENTC_REQUEST_IDENTITIES]
    case Sign(publicKey, data, flags) =>
      [SSH2_AGENTC_SIGN_REQUEST] + (Prefixed(publicKey) + (Prefixed(data) + U32(flags)))
  }

  /** The encodings, written out. */
  lemma WireLayout(publicKey: seq<byte>, data: seq<byte>, flags: nat)
    requires |publicKey| < U32_LIMIT && |data| < U32_LIMIT && flags < U32_LIMIT
    ensures Wire(RequestIdentities) == [11]
    ensures Wire(Sign(publicKey, data, flags))
            == [13] + U32(|publicKey|) + publicKey + U32(|data|) + data + U32(flags)
  {
    var a, b, c, d := U32(|publicKey|), U32(|data|), U32(flags), data + U32(flags);
    assert (b + data) + c == b + (data + c);
    Associate([13] + a + publicKey, b, data);
    Associate([13] + a + publicKey, b + data, c);
    Associate([13] + a, publicKey, b + data + c);
    Associate([13], a, publicKey + (b + data + c));
    Associate(a, publicKey, b + data + c);
  }

  function SignBody(publicKey: seq<byte>, data: seq<byte>, flags: nat, rest: seq<byte>): seq<byte>
    requires |publicKey| < U32_LIMIT && |data| < U32_LIMIT && flags < U32_LIMIT
  {
    Prefixed(publicKey) + (Prefixed(data) + (U32(flags) + rest))
  }

  lemma SignBodyIsUnambiguous(key: seq<byte>, data: seq<byte>, flags: nat, x: seq<byte>,
                              key': seq<byte>, data': seq<byte>, flags': nat, y: seq<byte>)
    requires |key| < U32_LIMIT && |data| < U32_LIMIT && flags < U32_LIMIT
    requires |key'| < U32_LIMIT && |data'| < U32_LIMIT && flags' < U32_LIMIT
    requires SignBody(key, data, flags, x) == SignBody(key', data', flags', y)
    ensures key == key' && data == data' && flags == flags' && x == y
  {
    var word, word' := U32(flags) + x, U32(flags') + y;
    PrefixedIsUnambiguous(key, Prefixed(data) + word, key', Prefixed(data') + word');
    PrefixedIsUnambiguous(data, word, data', word');
    assert word[..4] == U32(flags) && word'[..4] == U32(flags');
    assert word[4..] == x && word'[4..] == y;
  }

  /** No encoding is the beginning of another one. */
  lemma WireIsPrefixFree(p: Request, x: seq<byte>, q: Request, y: seq<byte>)
    requires Encodable(p) && Encodable(q)
    requires Wire(p) + x == Wire(q) + y
    ensures p == q && x == y
  {
    assert (Wire(p) + x)[0] == Wire(p)[0] && (Wire(q) + y)[0] == Wire(q)[0];
    WireTail(p, x);
    WireTail(q, y);
    if p.Sign? {
      SignBodyIsUnambiguous(p.publicKey, p.data, p.flags, x, q.publicKey, q.data, q.flags, y);
    }
  }

  lemma WireTail(q: Request, x: seq<byte>)
    requires Encodable(q)
    ensures (Wire(q) + x)[1..] == if q.Sign? then SignBody(q.publicKey, q.data, q.flags, x) else x
  {
    if q.Sign? {
      var inner := Prefixed(q.data) + U32(q.flags);
      assert inner + x == Prefixed(q.data) + (U32(q.flags) + x);
      assert (Wire(q) + x)[1..] == Prefixed(q.publicKey) + (inner + x);
    }
  }

  /** `packet` is a whole request followed by `excess` further octets. */
  ghost predicate Holds(packet: seq<byte>, q: Request, excess: nat) {
    Encodable(q) && |packet| == |Wire(q)| + excess && Wire(q) <= packet
  }

  lemma HoldsOnce(packet: seq<byte>, p: Request, m: nat, q: Request, n: nat)
    requires Holds(packet, p, m) && Holds(packet, q, n)
    ensures p == q && m == n
  {
    var x, y := packet[|Wire(p)|..], packet[|Wire(q)|..];
    assert Wire(p) + x == packet && Wire(q) + y == packet;
    WireIsPrefixFree(p, x, q, y);
  }

  /** What parsing must answer, said without a parser: a packet is accepted as
      the request it encodes; otherwise the reason for refusal. */
  ghost function Parsed(packet: seq<byte>): Result<Request, ProtocolError> {
    if packet == [] then Failure(EmptyPacket)
    else if |packet| > MAX_PACKET_LENGTH then Failure(PacketTooLarge)
    else if packet[0] != SSH2_AGENTC_REQUEST_IDENTITIES && packet[0] != SSH2_AGENTC_SIGN_REQUEST
    then Failure(UnsupportedRequest)
    else if exists q :: Holds(packet, q, 0) then
      var q :| Holds(packet, q, 0);
      Success(q)
    else if exists q, excess :: Holds(packet, q, excess) then Failure(TrailingData)
    else Failure(Truncated)
  }

  /** A packet is accepted exactly when it is within the bound and is the wire
      encoding of the returned request. */
  lemma AcceptedIffEncoding(packet: seq<byte>, q: Request)
    ensures Parsed(packet) == Success(q)
            <==> |packet| <= 262144 && Encodable(q) && packet == Wire(q)
  {
    if |packet| <= MAX_PACKET_LENGTH && Encodable(q) && packet == Wire(q) {
      assert Holds(packet, q, 0);
      var p :| Holds(packet, p, 0) && Parsed(packet) == Success(p);
      HoldsOnce(packet, p, 0, q, 0);
    }
  }

  /** Cutting an accepted packet short or appending to it gets it refused, and
      two requests never share a packet. */
  lemma NoAmbiguity(packet: seq<byte>, q: Request, k: nat, extra: seq<byte>)
    requires Parsed(packet) == Success(q)
    requires k < |packet| && extra != []
    ensures Parsed(packet[..k]).Failure?
    ensures Parsed(packet + extra) == Failure(if |packet + extra| > MAX_PACKET_LENGTH then PacketTooLarge else TrailingData)
    ensures forall p | Encodable(p) && Wire(p) == packet :: p == q
  {
    AcceptedIffEncoding(packet, q);
    if Parsed(packet[..k]).Success? {
      var p := Parsed(packet[..k]).value;
      AcceptedIffEncoding(packet[..k], p);
      assert packet[..k] + packet[k..] == packet;
      WireIsPrefixFree(p, packet[k..], q, []);
      assert false;
    }
    assert Holds(packet + extra, q, |extra|);
    forall p | Holds(packet + extra, p, 0) ensures false {
      HoldsOnce(packet + extra, p, 0, q, |extra|);
    }
    forall p | Encodable(p) && Wire(p) == packet ensures p == q {
      WireIsPrefixFree(p, [], q, []);
    }
  }

  method TakeString(input: Cursor) returns (r: Result<seq<byte>, ProtocolError>)
    modifies input
    ensures r.Success? <==> StringFits(old(input.rest))
    ensures r.Success? ==> |r.value| < U32_LIMIT && old(input.rest) == Prefixed(r.value) + input.rest
    ensures r.Failure? ==> r.error == Truncated
  {
    ghost var before := input.rest;
    var length := input.TakeU32();
    if length == None {
      return Failure(Truncated);
    }
    assert before[..4] == U32(length.value);
    var value := input.Take(length.value);
    if value == None {
      return Failure(Truncated);
    }
    assert before == U32(length.value) + (value.value + input.rest);
    return Success(value.value);
  }

  method ParseRequest(packet: seq<byte>) returns (r: Result<Request, ProtocolError>)
    ensures r == Parsed(packet)
  {
    if packet == [] {
      return Failure(EmptyPacket);
    }
    if |packet| > MAX_PACKET_LENGTH {
      return Failure(PacketTooLarge);
    }
    var input := new Cursor(packet[1..]);
    if packet[0] == SSH2_AGENTC_REQUEST_IDENTITIES {
      assert Holds(packet, RequestIdentities, |packet| - 1);
      IsParsed(packet, RequestIdentities, |packet| - 1);
      if input.rest != [] {
        return Failure(TrailingData);
      }
      return Success(RequestIdentities);
    }
    if packet[0] != SSH2_AGENTC_SIGN_REQUEST {
      return Failure(UnsupportedRequest);
    }
    var publicKey := TakeString(input);
    if publicKey.Failure? {
      NotParsed(packet);
      return Failure(publicKey.error);
    }
    ghost var afterKey := input.rest;
    var data := TakeString(input);
    if data.Failure? {
      NoSecondString(packet, publicKey.value, afterKey);
      return Failure(data.error);
    }
    ghost var afterData := input.rest;
    assert packet[1..] == Prefixed(publicKey.value) + (Prefixed(data.value) + afterData);
    var flags := input.TakeU32();
    if flags == None {
      NoFlags(packet, publicKey.value, data.value, afterData);
      return Failure(Truncated);
    }
    var q := Sign(publicKey.value, data.value, flags.value);
    assert packet == Wire(q) + input.rest;
    IsParsed(packet, q, |input.rest|);
    if input.rest != [] {
      return Failure(TrailingData);
    }
    return Success(q);
  }

  lemma IsParsed(packet: seq<byte>, q: Request, excess: nat)
    requires Holds(packet, q, excess) && |packet| <= MAX_PACKET_LENGTH
    ensures Parsed(packet) == if excess == 0 then Success(q) else Failure(TrailingData)
  {
    forall p | Holds(packet, p, 0) ensures p == q && excess == 0 {
      HoldsOnce(packet, p, 0, q, excess);
    }
  }

  /** A packet that holds a sign request can be read field by field. */
  lemma SignLayout(packet: seq<byte>, q: Request, excess: nat)
    requires Holds(packet, q, excess) && q.Sign?
    ensures packet[1..] == Prefixed(q.publicKey) + (Prefixed(q.data) + (U32(q.flags) + packet[|packet| - excess..]))
  {
    var rest := packet[|packet| - excess..];
    assert packet == Wire(q) + rest;
    WireTail(q, rest);
  }

  lemma NotParsed(packet: seq<byte>)
    requires 0 < |packet| <= MAX_PACKET_LENGTH && packet[0] == SSH2_AGENTC_SIGN_REQUEST
    requires !StringFits(packet[1..])
    ensures Parsed(packet) == Failure(Truncated)
  {
    forall q, excess | Holds(packet, q, excess) ensures false {
      assert Wire(q)[0] == packet[0];
      SignLayout(packet, q, excess);
      ReadPrefixed(q.publicKey, Prefixed(q.data) + (U32(q.flags) + packet[|packet| - excess..]));
    }
  }

  lemma NoSecondString(packet: seq<byte>, key: seq<byte>, rest: seq<byte>)
    requires 0 < |packet| <= MAX_PACKET_LENGTH && packet[0] == SSH2_AGENTC_SIGN_REQUEST
    requires |key| < U32_LIMIT && packet[1..] == Prefixed(key) + rest && !StringFits(rest)
    ensures Parsed(packet) == Failure(Truncated)
  {
    forall q, excess | Holds(packet, q, excess) ensures false {
      assert Wire(q)[0] == packet[0];
      SignLayout(packet, q, excess);
      var tail := U32(q.flags) + packet[|packet| - excess..];
      PrefixedIsUnambiguous(q.publicKey, Prefixed(q.data) + tail, key, rest);
      ReadPrefixed(q.data, tail);
    }
  }

  lemma NoFlags(packet: seq<byte>, key: seq<byte>, data: seq<byte>, rest: seq<byte>)
    requires 0 < |packet| <= MAX_PACKET_LENGTH && packet[0] == SSH2_AGENTC_SIGN_REQUEST
    requires |key| < U32_LIMIT && |data| < U32_LIMIT
    requires packet[1..] == Prefixed(key) + (Prefixed(data) + rest) && |rest| < 4
    ensures Parsed(packet) == Failure(Truncated)
  {
    forall q, excess | Holds(packet, q, excess) ensures false {
      assert Wire(q)[0] == packet[0];
      SignLayout(packet, q, excess);
      var tail := U32(q.flags) + packet[|packet| - excess..];
      PrefixedIsUnambiguous(q.publicKey, Prefixed(q.data) + tail, key, Prefixed(data) + rest);
      PrefixedIsUnambiguous(q.data, tail, data, rest);
    }
  }

  // ------------------------------------------------------------------
  // Frames
  // ------------------------------------------------------------------

  /** A response as it goes to the socket: its length, then the payload. */
  function Frame(payload: seq<byte>): seq<byte>
    requires |payload| < U32_LIMIT
  {
    Prefixed(payload)
  }

  const FAILURE_PAYLOAD: seq<byte> := [SSH_AGENT_FAILURE]

  /** Every response the agent builds is one frame within the packet bound. */
  predicate IsResponse(packet: seq<byte>) {
    && 1 <= |packet| - 4 <= MAX_PACKET_LENGTH
    && packet == Frame(packet[4..])
  }

  method CheckedFrame(payload: seq<byte>) returns (r: Result<seq<byte>, ProtocolError>)
    ensures r == if |payload| > MAX_PACKET_LENGTH then Failure(PacketTooLarge) else Success(Frame(payload))
    ensures r.Success? && payload != [] ==> IsResponse(r.value) && r.value[4..] == payload
  {
    if |payload| > MAX_PACKET_LENGTH {
      return Failure(PacketTooLarge);
    }
    var packet := new Buffer();
    packet.Extend(U32(|payload|));
    packet.Extend(payload);
    assert packet.data == Frame(payload) && packet.data[4..] == payload;
    return Success(packet.data);
  }

  /** `push_string`: the string is appended, then the whole buffer is tested. */
  method PushString(output: Buffer, value: seq<byte>) returns (ok: bool)
    requires |output.data| <= MAX_PACKET_LENGTH
    modifies output
    ensures ok <==> |old(output.data)| + 4 + |value| <= MAX_PACKET_LENGTH
    ensures ok ==> |value| < U32_LIMIT && output.data == old(output.data) + Prefixed(value)
  {
    if |value| >= U32_LIMIT {
      return false;
    }
    output.Extend(U32(|value|));
    output.Extend(value);
    assert output.data == old(output.data) + Prefixed(value);
    return |output.data| <= MAX_PACKET_LENGTH;
  }

  // ------------------------------------------------------------------
  // Identity listing
  // ------------------------------------------------------------------

  /** The length of the identities payload, computed without building it. */
  function IdentitiesLength(keys: seq<Summary>): nat {
    if keys == [] then 5
    else IdentitiesLength(keys[..|keys| - 1]) + 8 + |keys[|keys| - 1].publicKey| + |keys[|keys| - 1].name|
  }

  lemma {:induction false} LengthGrows(keys: seq<Summary>, k: nat)
    requires k <= |keys|
    ensures 5 + 8 * |keys| <= IdentitiesLength(keys)
    ensures IdentitiesLength(keys[..k]) <= IdentitiesLength(keys)
    decreases |keys|
  {
    if k < |keys| {
      assert keys[..|keys| - 1][..k] == keys[..k];
      LengthGrows(keys[..|keys| - 1], k);
    } else {
      assert keys[..k] == keys;
      if keys != [] {
        LengthGrows(keys[..|keys| - 1], 0);
      }
    }
  }

  /** The blob and comment strings of the listed keys, one after the other. */
  function IdentityStrings(keys: seq<Summary>): (s: seq<byte>)
    requires IdentitiesLength(keys) <= MAX_PACKET_LENGTH
    ensures |s| + 5 == IdentitiesLength(keys)
  {
    if keys == [] then []
    else
      var last := keys[|keys| - 1];
      IdentityStrings(keys[..|keys| - 1]) + (Prefixed(last.publicKey) + Prefixed(last.name))
  }

  function IdentitiesPayload(keys: seq<Summary>): (s: seq<byte>)
    requires IdentitiesLength(keys) <= MAX_PACKET_LENGTH
    ensures |s| == IdentitiesLength(keys)
  {
    LengthGrows(keys, 0);
    [SSH2_AGENT_IDENTITIES_ANSWER] + U32(|keys|) + IdentityStrings(keys)
  }

  lemma NextIdentity(keys: seq<Summary>, i: nat)
    requires i < |keys|
    ensures IdentitiesLength(keys[..i + 1]) == IdentitiesLength(keys[..i]) + 8 + |keys[i].publicKey| + |keys[i].name|
    ensures IdentitiesLength(keys[..i + 1]) <= MAX_PACKET_LENGTH ==>
              IdentityStrings(keys[..i + 1])
              == IdentityStrings(keys[..i]) + (Prefixed(keys[i].publicKey) + Prefixed(keys[i].name))
  {
    assert keys[..i + 1][..i] == keys[..i];
  }

  /** The listing is refused exactly when the whole payload would not fit, even
      though the test is made string by string. */
  method IdentitiesResponse(keys: seq<Summary>) returns (r: Result<seq<byte>, ProtocolError>)
    ensures r.Success? <==> IdentitiesLength(keys) <= MAX_PACKET_LENGTH
    ensures r.Success? ==> IsResponse(r.value) && r.value == Frame(IdentitiesPayload(keys))
    ensures r.Failure? ==> r.error == PacketTooLarge
  {
    LengthGrows(keys, 0);
    var payload := new Buffer();
    payload.Push(SSH2_AGENT_IDENTITIES_ANSWER);
    if |keys| >= U32_LIMIT {
      return Failure(PacketTooLarge);
    }
    payload.Extend(U32(|keys|));
    ghost var header := payload.data;
    assert header == [SSH2_AGENT_IDENTITIES_ANSWER] + U32(|keys|);
    var ok := PushIdentities(payload, keys);
    if !ok {
      return Failure(PacketTooLarge);
    }
    PayloadLayout(keys, header, payload.data);
    r := CheckedFrame(payload.data);
  }

  lemma PayloadLayout(keys: seq<Summary>, header: seq<byte>, payload: seq<byte>)
    requires IdentitiesLength(keys) <= MAX_PACKET_LENGTH && |keys| < U32_LIMIT
    requires header == [SSH2_AGENT_IDENTITIES_ANSWER] + U32(|keys|) && payload == header + IdentityStrings(keys)
    ensures payload == IdentitiesPayload(keys)
  {
  }

  /** The loop over the keys, behind a header of five octets. */
  method PushIdentities(payload: Buffer, keys: seq<Summary>) returns (ok: bool)
    requires |payload.data| == 5
    modifies payload
    ensures ok <==> IdentitiesLength(keys) <= MAX_PACKET_LENGTH
    ensures ok ==> payload.data == old(payload.data) + IdentityStrings(keys)
  {
    ghost var header := payload.data;
    assert payload.data == header + IdentityStrings(keys[..0]);
    for i := 0 to |keys|
      invariant |payload.data| == IdentitiesLength(keys[..i]) <= MAX_PACKET_LENGTH
      invariant payload.data == header + IdentityStrings(keys[..i])
    {
      LengthGrows(keys, i + 1);
      NextIdentity(keys, i);
      ghost var soFar := IdentityStrings(keys[..i]);
      ok := PushString(payload, keys[i].publicKey);
      if !ok {
        return;
      }
      ok := PushString(payload, keys[i].name);
      if !ok {
        return;
      }
      AssociateFour(header, soFar, Prefixed(keys[i].publicKey), Prefixed(keys[i].name));
    }
    assert keys[..|keys|] == keys;
    return true;
  }

  /** Reads `count` blob and comment pairs the way a client does. */
  function ReadPairs(s: seq<byte>, count: nat): Option<seq<(seq<byte>, seq<byte>)>>
    decreases count
  {
    if count == 0 then (if s == [] then Some([]) else None)
    else
      match ReadString(s)
      case None => None
      case Some((blob, rest)) =>
        match ReadString(rest)
        case None => None
        case Some((comment, tail)) =>
          match ReadPairs(tail, count - 1)
          case None => None
          case Some(others) => Some([(blob, comment)] + others)
  }

  /** A client's reading of an identities answer. */
  function ReadIdentities(payload: seq<byte>): Option<seq<(seq<byte>, seq<byte>)>> {
    if |payload| < 5 || payload[0] != SSH2_AGENT_IDENTITIES_ANSWER then None
    else ReadPairs(payload[5..], Value(payload[1..5]))
  }

  function Pairs(keys: seq<Summary>): (p: seq<(seq<byte>, seq<byte>)>)
    ensures |p| == |keys|
  {
    if keys == [] then [] else [(keys[0].publicKey, keys[0].name)] + Pairs(keys[1..])
  }

  lemma {:induction false} LengthFromFront(keys: seq<Summary>)
    requires keys != []
    ensures IdentitiesLength(keys) == IdentitiesLength(keys[1..]) + 8 + |keys[0].publicKey| + |keys[0].name|
    decreases |keys|
  {
    var init, last := keys[..|keys| - 1], keys[|keys| - 1];
    if init == [] {
      assert keys[1..] == [];
    } else {
      LengthFromFront(init);
      assert init[1..] == keys[1..][..|keys| - 2];
      assert keys[1..][|keys| - 2] == last;
    }
  }

  lemma {:induction false} StringsFromFront(keys: seq<Summary>)
    requires keys != [] && IdentitiesLength(keys) <= MAX_PACKET_LENGTH
    ensures IdentitiesLength(keys[1..]) <= MAX_PACKET_LENGTH
    ensures |keys[0].publicKey| < U32_LIMIT && |keys[0].name| < U32_LIMIT
    ensures IdentityStrings(keys) == Prefixed(keys[0].publicKey) + (Prefixed(keys[0].name) + IdentityStrings(keys[1..]))
    decreases |keys|
  {
    LengthFromFront(keys);
    LengthGrows(keys[1..], 0);
    var init, last := keys[..|keys| - 1], keys[|keys| - 1];
    if init == [] {
      assert keys[1..] == [];
    } else {
      StringsFromFront(init);
      assert init[1..] == keys[1..][..|keys| - 2];
      assert keys[1..][|keys| - 2] == last;
      Associate(Prefixed(keys[0].publicKey), Prefixed(keys[0].name) + IdentityStrings(init[1..]),
                Prefixed(last.publicKey) + Prefixed(last.name));
      Associate(Prefixed(keys[0].name), IdentityStrings(init[1..]), Prefixed(last.publicKey) + Prefixed(last.name));
    }
  }

  lemma ReadOnePair(blob: seq<byte>, comment: seq<byte>, tail: seq<byte>, count: nat)
    requires |blob| < U32_LIMIT && |comment| < U32_LIMIT
    requires ReadPairs(tail, count).Some?
    ensures ReadPairs(Prefixed(blob) + (Prefixed(comment) + tail), count + 1)
            == Some([(blob, comment)] + ReadPairs(tail, count).value)
  {
    ReadPrefixed(blob, Prefixed(comment) + tail);
    ReadPrefixed(comment, tail);
  }

  lemma {:induction false} PairsRoundTrip(keys: seq<Summary>)
    requires IdentitiesLength(keys) <= MAX_PACKET_LENGTH
    ensures ReadPairs(IdentityStrings(keys), |keys|) == Some(Pairs(keys))
    decreases |keys|
  {
    if keys != [] {
      var rest := keys[1..];
      StringsFromFront(keys);
      PairsRoundTrip(rest);
      ReadOnePair(keys[0].publicKey, keys[0].name, IdentityStrings(rest), |rest|);
    }
  }

  /** A client reads back exactly the listed blobs and comments, in order, behind
      the message number 12. */
  lemma IdentitiesRoundTrip(keys: seq<Summary>)
    requires IdentitiesLength(keys) <= MAX_PACKET_LENGTH
    ensures IdentitiesPayload(keys)[0] == 12
    ensures ReadIdentities(IdentitiesPayload(keys)) == Some(Pairs(keys))
  {
    LengthGrows(keys, 0);
    var payload := IdentitiesPayload(keys);
    assert payload[1..5] == U32(|keys|);
    assert payload[5..] == IdentityStrings(keys);
    PairsRoundTrip(keys);
  }
}

/** The path of ECDSA material across the two crates: TPM coordinates and
    scalars are padded to a fixed width, then written in SSH form. */
module Ecdsa {
  import opened Wrappers
  import opened Bytes
  import opened Keys
  import opened Protocol
  import opened Mpint

  datatype TpmError = InvalidObject

  // ------------------------------------------------------------------
  // TPM side
  // ------------------------------------------------------------------

  function Zeros(n: nat): (s: seq<byte>)
    ensures |s| == n
  {
    if n == 0 then [] else Zeros(n - 1) + [0]
  }

  function Pad(value: seq<byte>, width: nat): (s: seq<byte>)
    requires |value| <= width
    ensures |s| == width
  {
    Zeros(width - |value|) + value
  }

  lemma {:induction false} ZerosAreZero(n: nat)
    ensures Value(Zeros(n)) == 0
  {
    if n > 0 {
      assert Zeros(n)[..n - 1] == Zeros(n - 1);
      ZerosAreZero(n - 1);
    }
  }

  lemma {:induction false} PadKeepsValue(value: seq<byte>, width: nat)
    requires |value| <= width
    ensures Value(Pad(value, width)) == Value(value)
    decreases |value|
  {
    var padded := Pad(value, width);
    if value == [] {
      assert padded == Zeros(width);
      ZerosAreZero(width);
    } else {
      var high := value[..|value| - 1];
      assert padded[..width - 1] == Pad(high, width - 1);
      assert padded[width - 1] == value[|value| - 1];
      PadKeepsValue(high, width - 1);
    }
  }

  /** Padding is the only fixed-width spelling of a number. */
  lemma PadIsDetermined(a: seq<byte>, b: seq<byte>, width: nat)
    requires |a| <= width && |b| <= width
    ensures Pad(a, width) == Pad(b, width) <==> Value(a) == Value(b)
  {
    PadKeepsValue(a, width);
    PadKeepsValue(b, width);
    BigEndianOfValue(Pad(a, width));
    BigEndianOfValue(Pad(b, width));
  }

  method AppendPadded(output: Buffer, value: seq<byte>, width: nat) returns (r: Result<(), TpmError>)
    modifies output
    ensures r.Success? <==> |value| <= width
    ensures r.Success? ==> output.data == old(output.data) + Pad(value, width)
    ensures r.Failure? ==> r.error == InvalidObject && output.data == old(output.data)
  {
    if |value| > width {
      return Failure(InvalidObject);
    }
    output.Extend(Zeros(width - |value|));
    output.Extend(value);
    assert output.data == old(output.data) + Pad(value, width);
    return Success(());
  }

  /** The raw signature handed to the agent: both scalars at full width. */
  method RawSignature(algorithm: Algorithm, r: seq<byte>, s: seq<byte>) returns (raw: Result<seq<byte>, TpmError>)
    ensures var width := algorithm.ComponentSize();
            raw == if |r| <= width && |s| <= width then Success(Pad(r, width) + Pad(s, width)) else Failure(InvalidObject)
  {
    var output := new Buffer();
    var appended := AppendPadded(output, r, algorithm.ComponentSize());
    if appended.Failure? {
      return Failure(appended.error);
    }
    appended := AppendPadded(output, s, algorithm.ComponentSize());
    if appended.Failure? {
      return Failure(appended.error);
    }
    assert output.data == Pad(r, algorithm.ComponentSize()) + Pad(s, algorithm.ComponentSize());
    return Success(output.data);
  }

  /** The uncompressed point of section 3.1 of RFC 5656. */
  function Point(algorithm: Algorithm, x: seq<byte>, y: seq<byte>): (s: seq<byte>)
    requires |x| <= algorithm.ComponentSize() && |y| <= algorithm.ComponentSize()
    ensures |s| == 1 + 2 * algorithm.ComponentSize()
  {
    [4] + Pad(x, algorithm.ComponentSize()) + Pad(y, algorithm.ComponentSize())
  }

  function KeyBlob(algorithm: Algorithm, x: seq<byte>, y: seq<byte>): seq<byte>
    requires |x| <= algorithm.ComponentSize() && |y| <= algorithm.ComponentSize()
  {
    Blob(algorithm.SshKeyType(), algorithm.SshCurveName(), Point(algorithm, x, y))
  }

  function Blob(kind: seq<byte>, curve: seq<byte>, point: seq<byte>): seq<byte>
    requires |kind| < U32_LIMIT && |curve| < U32_LIMIT && |point| < U32_LIMIT
  {
    Prefixed(kind) + Prefixed(curve) + Prefixed(point)
  }

  lemma PrefixedAlone(a: seq<byte>, b: seq<byte>)
    requires |a| < U32_LIMIT && |b| < U32_LIMIT && Prefixed(a) == Prefixed(b)
    ensures a == b
  {
    PrefixedIsUnambiguous(a, [], b, []);
  }

  lemma BlobIsInjective(kind: seq<byte>, curve: seq<byte>, point: seq<byte>,
                        kind': seq<byte>, curve': seq<byte>, point': seq<byte>)
    requires |kind| < U32_LIMIT && |curve| < U32_LIMIT && |point| < U32_LIMIT
    requires |kind'| < U32_LIMIT && |curve'| < U32_LIMIT && |point'| < U32_LIMIT
    requires Blob(kind, curve, point) == Blob(kind', curve', point')
    ensures kind == kind' && curve == curve' && point == point'
  {
    Associate(Prefixed(kind), Prefixed(curve), Prefixed(point));
    Associate(Prefixed(kind'), Prefixed(curve'), Prefixed(point'));
    PrefixedIsUnambiguous(kind, Prefixed(curve) + Prefixed(point), kind', Prefixed(curve') + Prefixed(point'));
    PrefixedIsUnambiguous(curve, Prefixed(point), curve', Prefixed(point'));
    PrefixedAlone(point, point');
  }

  method SshPublicKey(algorithm: Algorithm, x: seq<byte>, y: seq<byte>) returns (r: Result<seq<byte>, TpmError>)
    ensures r.Success? <==> |x| <= algorithm.ComponentSize() && |y| <= algorithm.ComponentSize()
    ensures r.Success? ==> r.value == KeyBlob(algorithm, x, y)
    ensures r.Failure? ==> r.error == InvalidObject
  {
    var point := UncompressedPoint(algorithm, x, y);
    if point.Failure? {
      return Failure(point.error);
    }
    var blob := AssembleBlob(algorithm.SshKeyType(), algorithm.SshCurveName(), point.value);
    return Success(blob);
  }

  method AssembleBlob(kind: seq<byte>, curve: seq<byte>, point: seq<byte>) returns (blob: seq<byte>)
    requires |kind| < U32_LIMIT && |curve| < U32_LIMIT && |point| < U32_LIMIT
    ensures blob == Blob(kind, curve, point)
  {
    var output := new Buffer();
    AppendSshString(output, kind);
    AppendSshString(output, curve);
    AppendSshString(output, point);
    return output.data;
  }

  method UncompressedPoint(algorithm: Algorithm, x: seq<byte>, y: seq<byte>) returns (r: Result<seq<byte>, TpmError>)
    ensures var width := algorithm.ComponentSize();
            r == if |x| <= width && |y| <= width then Success(Point(algorithm, x, y)) else Failure(InvalidObject)
  {
    var point := new Buffer();
    point.Push(4);
    var appended := AppendPadded(point, x, algorithm.ComponentSize());
    if appended.Failure? {
      return Failure(appended.error);
    }
    appended := AppendPadded(point, y, algorithm.ComponentSize());
    if appended.Failure? {
      return Failure(appended.error);
    }
    assert point.data == Point(algorithm, x, y);
    return Success(point.data);
  }

  method AppendSshString(output: Buffer, value: seq<byte>)
    requires |value| < U32_LIMIT
    modifies output
    ensures output.data == old(output.data) + Prefixed(value)
  {
    output.Extend(U32(|value|));
    output.Extend(value);
    assert output.data == old(output.data) + Prefixed(value);
  }

  /** Two keys share a blob exactly when they agree on the algorithm and on both
      coordinates as numbers. */
  lemma KeyBlobIdentifiesKey(a: Algorithm, x: seq<byte>, y: seq<byte>, b: Algorithm, u: seq<byte>, v: seq<byte>)
    requires |x| <= a.ComponentSize() && |y| <= a.ComponentSize()
    requires |u| <= b.ComponentSize() && |v| <= b.ComponentSize()
    ensures KeyBlob(a, x, y) == KeyBlob(b, u, v) <==> a == b && Value(x) == Value(u) && Value(y) == Value(v)
  {
    if a == b {
      PointIdentifiesCoordinates(a, x, y, u, v);
    }
    if KeyBlob(a, x, y) == KeyBlob(b, u, v) {
      BlobsAgree(a, x, y, b, u, v);
    }
  }

  lemma BlobsAgree(a: Algorithm, x: seq<byte>, y: seq<byte>, b: Algorithm, u: seq<byte>, v: seq<byte>)
    requires |x| <= a.ComponentSize() && |y| <= a.ComponentSize()
    requires |u| <= b.ComponentSize() && |v| <= b.ComponentSize()
    requires KeyBlob(a, x, y) == KeyBlob(b, u, v)
    ensures a == b && Point(a, x, y) == Point(b, u, v)
  {
    KeyBlobDetermines(a, a.SshKeyType(), a.SshCurveName(), Point(a, x, y),
                      b, b.SshKeyType(), b.SshCurveName(), Point(b, u, v));
  }

  lemma KeyBlobDetermines(a: Algorithm, kind: seq<byte>, curve: seq<byte>, point: seq<byte>,
                          b: Algorithm, kind': seq<byte>, curve': seq<byte>, point': seq<byte>)
    requires |kind| < U32_LIMIT && |curve| < U32_LIMIT && |point| < U32_LIMIT
    requires |kind'| < U32_LIMIT && |curve'| < U32_LIMIT && |point'| < U32_LIMIT
    requires curve == a.SshCurveName() && curve' == b.SshCurveName()
    requires Blob(kind, curve, point) == Blob(kind', curve', point')
    ensures a == b && point == point'
  {
    BlobIsInjective(kind, curve, point, kind', curve', point');
    CurveNamesDiffer(a, b);
  }

  lemma PointIdentifiesCoordinates(a: Algorithm, x: seq<byte>, y: seq<byte>, u: seq<byte>, v: seq<byte>)
    requires |x| <= a.ComponentSize() && |y| <= a.ComponentSize()
    requires |u| <= a.ComponentSize() && |v| <= a.ComponentSize()
    ensures Point(a, x, y) == Point(a, u, v) <==> Value(x) == Value(u) && Value(y) == Value(v)
  {
    var width := a.ComponentSize();
    assert Point(a, x, y)[1..1 + width] == Pad(x, width) && Point(a, u, v)[1..1 + width] == Pad(u, width);
    assert Point(a, x, y)[1 + width..] == Pad(y, width) && Point(a, u, v)[1 + width..] == Pad(v, width);
    PadIsDetermined(x, u, width);
    PadIsDetermined(y, v, width);
  }

  lemma CurveNamesDiffer(a: Algorithm, b: Algorithm)
    requires a.SshCurveName() == b.SshCurveName()
    ensures a == b
  {
    assert a.SshCurveName()[5] == b.SshCurveName()[5];
  }

  // ------------------------------------------------------------------
  // Agent side
  // ------------------------------------------------------------------

  /** `push_mpint`: skip leading zeros, prefix a zero if the high bit is set. */
  method PushMpint(output: Buffer, value: seq<byte>) returns (ok: bool)
    requires |output.data| <= MAX_PACKET_LENGTH
    modifies output
    ensures ok <==> |old(output.data)| + 4 + |MpintBody(value)| <= MAX_PACKET_LENGTH
    ensures ok ==> |MpintBody(value)| < U32_LIMIT && output.data == old(output.data) + Prefixed(MpintBody(value))
  {
    var first := 0;
    while first < |value| && value[first] == 0
      invariant first <= |value|
      invariant StripZeros(value[first..]) == StripZeros(value)
    {
      assert value[first..][1..] == value[first + 1..];
      first := first + 1;
    }
    var stripped := value[first..];
    if stripped != [] && stripped[0] >= 0x80 {
      ok := PushString(output, [0] + stripped);
    } else {
      ok := PushString(output, stripped);
    }
  }

  /** The signature strings of section 3.1.2 of RFC 5656, inside a response. */
  function ScalarsBlob(r: seq<byte>, s: seq<byte>): seq<byte>
    requires |r| <= 48 && |s| <= 48
  {
    Prefixed(MpintBody(r)) + Prefixed(MpintBody(s))
  }

  function SignPayload(kind: seq<byte>, r: seq<byte>, s: seq<byte>): (payload: seq<byte>)
    requires |kind| <= 19 && |r| <= 48 && |s| <= 48
    ensures 1 <= |payload| <= 200 && payload[0] == 14
  {
    [SSH2_AGENT_SIGN_RESPONSE] + Prefixed(Prefixed(kind) + Prefixed(ScalarsBlob(r, s)))
  }

  method EcdsaSignatureResponse(algorithm: Algorithm, signature: seq<byte>) returns (result: Result<seq<byte>, ProtocolError>)
    ensures result.Success? <==> |signature| == 2 * algorithm.ComponentSize()
    ensures result.Success? ==>
              && IsResponse(result.value)
              && result.value[4..] == SignPayload(algorithm.SshKeyType(), signature[..algorithm.ComponentSize()],
                                                  signature[algorithm.ComponentSize()..])
    ensures result.Failure? ==> result.error == InvalidSignature
  {
    var width := algorithm.ComponentSize();
    if |signature| < width || |signature| - width != width {
      return Failure(InvalidSignature);
    }
    result := SignatureResponse(algorithm.SshKeyType(), signature[..width], signature[width..]);
  }

  method SignatureResponse(kind: seq<byte>, r: seq<byte>, s: seq<byte>) returns (result: Result<seq<byte>, ProtocolError>)
    requires |kind| <= 19 && |r| <= 48 && |s| <= 48
    ensures result.Success? && IsResponse(result.value) && result.value[4..] == SignPayload(kind, r, s)
  {
    var blob := SignatureBlob(kind, r, s);
    var payload := new Buffer();
    payload.Push(SSH2_AGENT_SIGN_RESPONSE);
    var fits := PushString(payload, blob.data);
    assert payload.data == SignPayload(kind, r, s);
    result := CheckedFrame(payload.data);
  }

  method SignatureBlob(kind: seq<byte>, r: seq<byte>, s: seq<byte>) returns (blob: Buffer)
    requires |kind| <= 19 && |r| <= 48 && |s| <= 48
    ensures fresh(blob) && blob.data == Prefixed(kind) + Prefixed(ScalarsBlob(r, s))
  {
    var ecdsa := new Buffer();
    var fits := PushMpint(ecdsa, r);
    assert ecdsa.data == Prefixed(MpintBody(r));
    fits := PushMpint(ecdsa, s);
    var scalars := ecdsa.data;
    assert scalars == ScalarsBlob(r, s) && |scalars| <= 106;
    blob := new Buffer();
    fits := PushString(blob, kind);
    assert blob.data == Prefixed(kind);
    fits := PushString(blob, scalars);
  }

  /** From TPM output to the socket: whatever leading zeros the TPM kept or
      dropped, any in-range scalar pair yields a response. */
  method SignReply(algorithm: Algorithm, r: seq<byte>, s: seq<byte>) returns (reply: Option<seq<byte>>)
    ensures reply.Some? <==> |r| <= algorithm.ComponentSize() && |s| <= algorithm.ComponentSize()
    ensures reply.Some? ==> IsResponse(reply.value) && reply.value[4..] == SignPayload(algorithm.SshKeyType(), r, s)
  {
    var width := algorithm.ComponentSize();
    var raw := RawSignature(algorithm, r, s);
    if raw.Failure? {
      return None;
    }
    assert raw.value[..width] == Pad(r, width) && raw.value[width..] == Pad(s, width);
    var response := EcdsaSignatureResponse(algorithm, raw.value);
    PadKeepsValue(r, width);
    PadKeepsValue(s, width);
    MpintIsCanonical(Pad(r, width), r, []);
    MpintIsCanonical(Pad(s, width), s, []);
    return Some(response.value);
  }

  /** Responses for the same key type are equal exactly when they carry the same
      two numbers. */
  lemma ResponseIsTheTwoNumbers(kind: seq<byte>, r: seq<byte>, s: seq<byte>, r': seq<byte>, s': seq<byte>)
    requires |kind| <= 19 && |r| <= 48 && |s| <= 48 && |r'| <= 48 && |s'| <= 48
    ensures SignPayload(kind, r, s) == SignPayload(kind, r', s') <==> Value(r) == Value(r') && Value(s) == Value(s')
  {
    if Value(r) == Value(r') && Value(s) == Value(s') {
      MpintIsCanonical(r, r', []);
      MpintIsCanonical(s, s', []);
    }
    SignatureRoundTrip(kind, r, s);
    SignatureRoundTrip(kind, r', s');
  }

  // ------------------------------------------------------------------
  // What a client reads
  // ------------------------------------------------------------------

  /** A client's reading of the two mpints; nothing may be left over. */
  function ReadScalars(scalars: seq<byte>): Option<(int, int)> {
    match ReadString(scalars)
    case None => None
    case Some((r, afterR)) =>
      match ReadString(afterR)
      case None => None
      case Some((s, afterS)) => if afterS == [] then Some((Signed(r), Signed(s))) else None
  }

  /** A client's reading of a sign response: key type and the two signed
      numbers; anything left over makes it unreadable. */
  function ReadSignature(payload: seq<byte>): Option<(seq<byte>, (int, int))> {
    if payload == [] || payload[0] != SSH2_AGENT_SIGN_RESPONSE then None
    else
      match ReadString(payload[1..])
      case None => None
      case Some((blob, afterBlob)) =>
        match ReadString(blob)
        case None => None
        case Some((kind, afterKind)) =>
          match ReadString(afterKind)
          case None => None
          case Some((scalars, afterScalars)) =>
            var numbers := ReadScalars(scalars);
            if afterBlob == [] && afterScalars == [] && numbers.Some? then Some((kind, numbers.value)) else None
  }

  lemma ScalarsRoundTrip(r: seq<byte>, s: seq<byte>)
    requires |r| <= 48 && |s| <= 48
    ensures ReadScalars(ScalarsBlob(r, s)) == Some((Value(r), Value(s)))
  {
    var last := MpintBody(s);
    ReadPrefixed(MpintBody(r), Prefixed(last));
    assert Prefixed(last) + [] == Prefixed(last);
    ReadPrefixed(last, []);
    MpintDenotesScalar(r);
    MpintDenotesScalar(s);
  }

  lemma NestedRoundTrip(kind: seq<byte>, scalars: seq<byte>)
    requires |kind| <= 19 && |scalars| <= 106
    ensures var blob := Prefixed(kind) + Prefixed(scalars);
            && ReadString(Prefixed(blob)) == Some((blob, []))
            && ReadString(blob) == Some((kind, Prefixed(scalars)))
            && ReadString(Prefixed(scalars)) == Some((scalars, []))
  {
    var blob := Prefixed(kind) + Prefixed(scalars);
    assert Prefixed(blob) + [] == Prefixed(blob);
    ReadPrefixed(blob, []);
    ReadPrefixed(kind, Prefixed(scalars));
    assert Prefixed(scalars) + [] == Prefixed(scalars);
    ReadPrefixed(scalars, []);
  }

  /** Behind the message number 14 the client sees the key type and exactly the
      TPM's unsigned r and s. */
  lemma SignatureRoundTrip(kind: seq<byte>, r: seq<byte>, s: seq<byte>)
    requires |kind| <= 19 && |r| <= 48 && |s| <= 48
    ensures SignPayload(kind, r, s)[0] == 14
    ensures ReadSignature(SignPayload(kind, r, s)) == Some((kind, (Value(r), Value(s))))
  {
    var scalars := ScalarsBlob(r, s);
    var blob := Prefixed(kind) + Prefixed(scalars);
    assert SignPayload(kind, r, s)[1..] == Prefixed(blob);
    NestedRoundTrip(kind, scalars);
    ScalarsRoundTrip(r, s);
  }
}

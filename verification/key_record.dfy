/** The binary record of one stored key. */
module KeyRecord {
  import opened Wrappers
  import opened Bytes
  import opened Texts
  import opened Keys

  datatype StoreError = Io | InvalidRecord | RecordTooLarge

  /** "KEYVSR", a zero octet and the version. */
  const MAGIC: seq<byte> := ['K' as int, 'E' as int, 'Y' as int, 'V' as int, 'S' as int, 'R' as int, 0, 1]

  function AlgorithmTag(algorithm: Algorithm): byte {
    match algorithm
    case EcdsaNistP256 => 1
    case EcdsaNistP384 => 2
  }

  function PolicyTag(policy: UsePolicy): byte {
    match policy
    case NoPin => 1
    case TpmPin => 2
  }

  function ReadAlgorithm(tag: byte): Option<Algorithm> {
    if tag == 1 then Some(EcdsaNistP256) else if tag == 2 then Some(EcdsaNistP384) else None
  }

  function ReadPolicy(tag: byte): Option<UsePolicy> {
    if tag == 1 then Some(NoPin) else if tag == 2 then Some(TpmPin) else None
  }

  // ------------------------------------------------------------------
  // Encoding
  // ------------------------------------------------------------------

  /** `validate_record`. */
  method CheckKey(key: StoredKey) returns (ok: bool)
    ensures ok <==> ValidKey(key)
  {
    var id, name := key.summary.id, key.summary.name;
    if id == [] || name == [] || |id| > 4096 || |name| > 4096 {
      return false;
    }
    var publicKey, publicArea := key.summary.publicKey, key.tpm.publicArea;
    if publicKey == [] || |publicKey| > 1048576 || publicArea == [] || |publicArea| > 1048576 {
      return false;
    }
    var wrapped, parent := key.tpm.wrappedPrivate, key.tpm.parentName;
    if wrapped == [] || |wrapped| > 1048576 || parent == [] || |parent| > 1048576 {
      return false;
    }
    return key.summary.policy == key.tpm.policy;
  }

  /** The limits the encoder itself enforces; empty fields are not its concern. */
  predicate WithinLimits(key: StoredKey) {
    && |key.summary.id| <= MAX_TEXT_LEN
    && |key.summary.name| <= MAX_TEXT_LEN
    && |key.summary.publicKey| <= MAX_BLOB_LEN
    && |key.tpm.publicArea| <= MAX_BLOB_LEN
    && |key.tpm.wrappedPrivate| <= MAX_BLOB_LEN
    && |key.tpm.parentName| <= MAX_BLOB_LEN
  }

  function Blobs(a: seq<byte>, b: seq<byte>, c: seq<byte>, d: seq<byte>): seq<byte>
    requires |a| <= MAX_BLOB_LEN && |b| <= MAX_BLOB_LEN && |c| <= MAX_BLOB_LEN && |d| <= MAX_BLOB_LEN
  {
    Prefixed(a) + (Prefixed(b) + (Prefixed(c) + Prefixed(d)))
  }

  function KeyBlobs(key: StoredKey): seq<byte>
    requires WithinLimits(key)
  {
    Blobs(key.summary.publicKey, key.tpm.publicArea, key.tpm.wrappedPrivate, key.tpm.parentName)
  }

  function Tags(key: StoredKey): (s: seq<byte>)
    ensures |s| == 2
  {
    [AlgorithmTag(key.summary.algorithm), PolicyTag(key.summary.policy)]
  }

  function Encode(key: StoredKey): seq<byte>
    requires WithinLimits(key)
  {
    MAGIC + (Prefixed(key.summary.id) + (Prefixed(key.summary.name) + (Tags(key) + KeyBlobs(key))))
  }

  /** The octets of a record, written out: "KEYVSR", 0, 1, the identifier and the
      name, one octet for the curve and one for the policy, and four blobs. */
  lemma RecordOctets(key: StoredKey)
    requires WithinLimits(key)
    ensures var curve := if key.summary.algorithm == EcdsaNistP256 then 1 else 2;
            var policy := if key.summary.policy == NoPin then 1 else 2;
            Encode(key)
            == Ascii("KEYVSR") + [0, 1]
               + Prefixed(key.summary.id) + Prefixed(key.summary.name) + [curve] + [policy]
               + (Prefixed(key.summary.publicKey)
                  + (Prefixed(key.tpm.publicArea) + (Prefixed(key.tpm.wrappedPrivate) + Prefixed(key.tpm.parentName))))
  {
    assert MAGIC == Ascii("KEYVSR") + [0, 1];
    RecordLayout(MAGIC, Prefixed(key.summary.id), Prefixed(key.summary.name),
                 AlgorithmTag(key.summary.algorithm), PolicyTag(key.summary.policy), KeyBlobs(key));
  }

  lemma RecordLayout(a: seq<byte>, b: seq<byte>, c: seq<byte>, s: byte, t: byte, d: seq<byte>)
    ensures a + b + c + [s] + [t] + d == a + (b + (c + ([s, t] + d)))
  {
  }

  method PushBytes(output: Buffer, bytes: seq<byte>, limit: nat) returns (ok: bool)
    requires limit < U32_LIMIT
    modifies output
    ensures ok <==> |bytes| <= limit
    ensures output.data == if ok then old(output.data) + Prefixed(bytes) else old(output.data)
  {
    if |bytes| > limit {
      return false;
    }
    output.Extend(U32(|bytes|));
    output.Extend(bytes);
    assert output.data == old(output.data) + Prefixed(bytes);
    return true;
  }

  method PushBlobs(output: Buffer, a: seq<byte>, b: seq<byte>, c: seq<byte>, d: seq<byte>) returns (ok: bool)
    modifies output
    ensures ok <==> |a| <= MAX_BLOB_LEN && |b| <= MAX_BLOB_LEN && |c| <= MAX_BLOB_LEN && |d| <= MAX_BLOB_LEN
    ensures ok ==> output.data == old(output.data) + Blobs(a, b, c, d)
  {
    ok := PushBytes(output, a, MAX_BLOB_LEN);
    if !ok { return; }
    ok := PushBytes(output, b, MAX_BLOB_LEN);
    if !ok { return; }
    ok := PushBytes(output, c, MAX_BLOB_LEN);
    if !ok { return; }
    ok := PushBytes(output, d, MAX_BLOB_LEN);
    if !ok { return; }
    AssociateFive(old(output.data), Prefixed(a), Prefixed(b), Prefixed(c), Prefixed(d));
  }

  method EncodeRecord(key: StoredKey) returns (r: Result<seq<byte>, StoreError>)
    ensures r == if WithinLimits(key) then Success(Encode(key)) else Failure(RecordTooLarge)
  {
    var output := new Buffer();
    output.Extend(MAGIC);
    var ok := PushBytes(output, key.summary.id, MAX_TEXT_LEN);
    if !ok { return Failure(RecordTooLarge); }
    ok := PushBytes(output, key.summary.name, MAX_TEXT_LEN);
    if !ok { return Failure(RecordTooLarge); }
    output.Push(AlgorithmTag(key.summary.algorithm));
    output.Push(PolicyTag(key.summary.policy));
    ok := PushBlobs(output, key.summary.publicKey, key.tpm.publicArea, key.tpm.wrappedPrivate, key.tpm.parentName);
    if !ok { return Failure(RecordTooLarge); }
    RecordLayout(MAGIC, Prefixed(key.summary.id), Prefixed(key.summary.name),
                 AlgorithmTag(key.summary.algorithm), PolicyTag(key.summary.policy), KeyBlobs(key));
    assert [] + MAGIC == MAGIC;
    return Success(output.data);
  }

  // ------------------------------------------------------------------
  // Decoding
  // ------------------------------------------------------------------

  /** `read_bytes`: a missing length or a short body is an invalid record, a
      length over the limit is reported before the body is looked at. */
  function ReadBytes(input: seq<byte>, limit: nat): (r: Result<(seq<byte>, seq<byte>), StoreError>)
    requires limit < U32_LIMIT
    ensures r.Success? ==> |r.value.0| <= limit && input == Prefixed(r.value.0) + r.value.1
  {
    if |input| < 4 then Failure(InvalidRecord)
    else if Value(input[..4]) > limit then Failure(RecordTooLarge)
    else
      match ReadString(input)
      case None => Failure(InvalidRecord)
      case Some(read) => Success(read)
  }

  function ReadText(input: seq<byte>): Result<(Text, seq<byte>), StoreError> {
    match ReadBytes(input, MAX_TEXT_LEN)
    case Failure(e) => Failure(e)
    case Success((bytes, rest)) => if ValidUtf8(bytes) then Success((bytes, rest)) else Failure(InvalidRecord)
  }

  datatype BlobFields = BlobFields(a: seq<byte>, b: seq<byte>, c: seq<byte>, d: seq<byte>)
  {
    predicate AreWithinLimits() {
      |a| <= MAX_BLOB_LEN && |b| <= MAX_BLOB_LEN && |c| <= MAX_BLOB_LEN && |d| <= MAX_BLOB_LEN
    }

    function Written(): seq<byte>
      requires AreWithinLimits()
    {
      Blobs(a, b, c, d)
    }
  }

  /** The four blobs that end a record; nothing may follow them. */
  function ReadBlobs(input: seq<byte>): Result<BlobFields, StoreError> {
    match ReadBytes(input, MAX_BLOB_LEN)
    case Failure(e) => Failure(e)
    case Success((a, afterA)) =>
      match ReadBytes(afterA, MAX_BLOB_LEN)
      case Failure(e) => Failure(e)
      case Success((b, afterB)) =>
        match ReadBytes(afterB, MAX_BLOB_LEN)
        case Failure(e) => Failure(e)
        case Success((c, afterC)) =>
          match ReadBytes(afterC, MAX_BLOB_LEN)
          case Failure(e) => Failure(e)
          case Success((d, afterD)) =>
            if afterD == [] then Success(BlobFields(a, b, c, d)) else Failure(InvalidRecord)
  }

  function ReadTagsAndBlobs(id: Text, name: Text, input: seq<byte>): Result<StoredKey, StoreError> {
    if |input| < 2 then Failure(InvalidRecord)
    else Assemble(id, name, ReadAlgorithm(input[0]), ReadPolicy(input[1]), ReadBlobs(input[2..]))
  }

  function Assemble(id: Text, name: Text, algorithm: Option<Algorithm>, policy: Option<UsePolicy>,
                    blobs: Result<BlobFields, StoreError>): Result<StoredKey, StoreError> {
    if algorithm == None || policy == None then Failure(InvalidRecord)
    else
      match blobs
      case Failure(e) => Failure(e)
      case Success(f) =>
        var key := StoredKey(Summary(id, name, algorithm.value, policy.value, f.a),
                             TpmObject(f.b, f.c, f.d, policy.value));
        if ValidKey(key) then Success(key) else Failure(InvalidRecord)
  }

  function Decode(bytes: seq<byte>): Result<StoredKey, StoreError> {
    if |bytes| < 8 || bytes[..8] != MAGIC then Failure(InvalidRecord)
    else
      match ReadText(bytes[8..])
      case Failure(e) => Failure(e)
      case Success((id, afterId)) =>
        match ReadText(afterId)
        case Failure(e) => Failure(e)
        case Success((name, afterName)) => ReadTagsAndBlobs(id, name, afterName)
  }

  lemma ReadBytesOfPrefixed(value: seq<byte>, rest: seq<byte>, limit: nat)
    requires |value| <= limit < U32_LIMIT
    ensures ReadBytes(Prefixed(value) + rest, limit) == Success((value, rest))
  {
    ReadPrefixed(value, rest);
    assert (Prefixed(value) + rest)[..4] == U32(|value|);
  }

  lemma ReadBlobsOfBlobs(a: seq<byte>, b: seq<byte>, c: seq<byte>, d: seq<byte>, extra: seq<byte>)
    requires |a| <= MAX_BLOB_LEN && |b| <= MAX_BLOB_LEN && |c| <= MAX_BLOB_LEN && |d| <= MAX_BLOB_LEN
    ensures ReadBlobs(Blobs(a, b, c, d) + extra)
            == if extra == [] then Success(BlobFields(a, b, c, d)) else Failure(InvalidRecord)
  {
    var afterC := Prefixed(d) + extra;
    var afterB := Prefixed(c) + afterC;
    var afterA := Prefixed(b) + afterB;
    assert Blobs(a, b, c, d) + extra == Prefixed(a) + afterA;
    ReadBytesOfPrefixed(a, afterA, MAX_BLOB_LEN);
    ReadBytesOfPrefixed(b, afterB, MAX_BLOB_LEN);
    ReadBytesOfPrefixed(c, afterC, MAX_BLOB_LEN);
    ReadBytesOfPrefixed(d, extra, MAX_BLOB_LEN);
  }

  lemma EncodeThenMore(key: StoredKey, extra: seq<byte>)
    requires ValidKey(key)
    ensures var afterName := Tags(key) + (KeyBlobs(key) + extra);
            && |Encode(key) + extra| >= 8 && (Encode(key) + extra)[..8] == MAGIC
            && ReadText((Encode(key) + extra)[8..]) == Success((key.summary.id, Prefixed(key.summary.name) + afterName))
            && ReadText(Prefixed(key.summary.name) + afterName) == Success((key.summary.name, afterName))
  {
    var afterName := Tags(key) + (KeyBlobs(key) + extra);
    var afterId := Prefixed(key.summary.name) + afterName;
    assert Encode(key) + extra == MAGIC + (Prefixed(key.summary.id) + afterId);
    ReadBytesOfPrefixed(key.summary.id, afterId, MAX_TEXT_LEN);
    ReadBytesOfPrefixed(key.summary.name, afterName, MAX_TEXT_LEN);
  }

  lemma ReadTagsOfTags(key: StoredKey, extra: seq<byte>)
    requires ValidKey(key)
    ensures ReadTagsAndBlobs(key.summary.id, key.summary.name, Tags(key) + (KeyBlobs(key) + extra))
            == if extra == [] then Success(key) else Failure(InvalidRecord)
  {
    TagsAreRead(key, KeyBlobs(key) + extra);
    ReadBlobsOfBlobs(key.summary.publicKey, key.tpm.publicArea, key.tpm.wrappedPrivate, key.tpm.parentName, extra);
    PartsMakeTheKey(key);
  }

  lemma TagsAreRead(key: StoredKey, rest: seq<byte>)
    ensures var s := Tags(key) + rest;
            && |s| >= 2 && s[2..] == rest
            && ReadAlgorithm(s[0]) == Some(key.summary.algorithm) && ReadPolicy(s[1]) == Some(key.summary.policy)
  {
  }

  lemma PartsMakeTheKey(key: StoredKey)
    requires ValidKey(key)
    ensures Assemble(key.summary.id, key.summary.name, Some(key.summary.algorithm), Some(key.summary.policy),
                     Success(BlobFields(key.summary.publicKey, key.tpm.publicArea, key.tpm.wrappedPrivate, key.tpm.parentName)))
            == Success(key)
  {
  }

  /** Every valid key's record is read back as that key; appending anything to a
      record makes it invalid, so records are prefix-free. */
  lemma DecodeOfEncode(key: StoredKey, extra: seq<byte>)
    requires ValidKey(key)
    ensures Decode(Encode(key) + extra) == if extra == [] then Success(key) else Failure(InvalidRecord)
  {
    EncodeThenMore(key, extra);
    ReadTagsOfTags(key, extra);
  }

  lemma BlobsOfReadBlobs(input: seq<byte>)
    requires ReadBlobs(input).Success?
    ensures ReadBlobs(input).value.AreWithinLimits() && input == ReadBlobs(input).value.Written()
  {
    var (a, afterA) := ReadBytes(input, MAX_BLOB_LEN).value;
    var (b, afterB) := ReadBytes(afterA, MAX_BLOB_LEN).value;
    var (c, afterC) := ReadBytes(afterB, MAX_BLOB_LEN).value;
    var (d, afterD) := ReadBytes(afterC, MAX_BLOB_LEN).value;
    assert afterC == Prefixed(d) + [] == Prefixed(d);
  }

  lemma TagsOfRead(id: Text, name: Text, input: seq<byte>)
    requires ReadTagsAndBlobs(id, name, input).Success?
    ensures var key := ReadTagsAndBlobs(id, name, input).value;
            && ValidKey(key) && key.summary.id == id && key.summary.name == name
            && input == Tags(key) + KeyBlobs(key)
  {
    var blobs := ReadBlobs(input[2..]);
    BlobsOfReadBlobs(input[2..]);
    TagsOfParts(id, name, input, blobs);
  }

  lemma TagsOfParts(id: Text, name: Text, input: seq<byte>, blobs: Result<BlobFields, StoreError>)
    requires |input| >= 2 && Assemble(id, name, ReadAlgorithm(input[0]), ReadPolicy(input[1]), blobs).Success?
    requires blobs.value.AreWithinLimits() && input[2..] == blobs.value.Written()
    ensures var key := Assemble(id, name, ReadAlgorithm(input[0]), ReadPolicy(input[1]), blobs).value;
            && ValidKey(key) && key.summary.id == id && key.summary.name == name
            && input == Tags(key) + KeyBlobs(key)
  {
    AssembledKey(id, name, ReadAlgorithm(input[0]), ReadPolicy(input[1]), blobs);
    assert input == [input[0], input[1]] + input[2..];
  }

  lemma AssembledKey(id: Text, name: Text, algorithm: Option<Algorithm>, policy: Option<UsePolicy>,
                     blobs: Result<BlobFields, StoreError>)
    requires Assemble(id, name, algorithm, policy, blobs).Success?
    ensures algorithm.Some? && policy.Some? && blobs.Success?
    ensures var key := Assemble(id, name, algorithm, policy, blobs).value;
            && ValidKey(key) && key.summary.id == id && key.summary.name == name
            && (key.summary.algorithm, key.summary.policy) == (algorithm.value, policy.value)
            && blobs.value.AreWithinLimits() && KeyBlobs(key) == blobs.value.Written()
  {
  }

  /** Whatever decodes is a valid key, and its record is exactly those octets. */
  lemma EncodeOfDecode(bytes: seq<byte>)
    requires Decode(bytes).Success?
    ensures ValidKey(Decode(bytes).value) && Encode(Decode(bytes).value) == bytes
  {
    var (id, afterId) := ReadText(bytes[8..]).value;
    var (name, afterName) := ReadText(afterId).value;
    TagsOfRead(id, name, afterName);
    assert bytes == bytes[..8] + bytes[8..];
  }

  /** The codec is canonical: decoding answers a key exactly for that valid key's
      own record. */
  lemma DecodeIffEncode(bytes: seq<byte>, key: StoredKey)
    ensures Decode(bytes) == Success(key) <==> ValidKey(key) && Encode(key) == bytes
  {
    if ValidKey(key) && Encode(key) == bytes {
      DecodeOfEncode(key, []);
      assert bytes + [] == bytes;
    }
    if Decode(bytes).Success? {
      EncodeOfDecode(bytes);
    }
  }

  method ReadBytesFrom(input: Cursor, limit: nat) returns (r: Result<seq<byte>, StoreError>)
    requires limit < U32_LIMIT
    modifies input
    ensures match ReadBytes(old(input.rest), limit)
            case Success((value, rest)) => r == Success(value) && input.rest == rest
            case Failure(e) => r == Failure(e)
  {
    ghost var before := input.rest;
    var length := input.TakeU32();
    if length == None {
      return Failure(InvalidRecord);
    }
    assert before[..4] == U32(length.value) && input.rest == before[4..];
    if length.value > limit {
      return Failure(RecordTooLarge);
    }
    var value := input.Take(length.value);
    if value == None {
      return Failure(InvalidRecord);
    }
    assert before == Prefixed(value.value) + input.rest;
    ReadBytesOfPrefixed(value.value, input.rest, limit);
    return Success(value.value);
  }

  method ReadTextFrom(input: Cursor) returns (r: Result<Text, StoreError>)
    modifies input
    ensures match ReadText(old(input.rest))
            case Success((value, rest)) => r == Success(value) && input.rest == rest
            case Failure(e) => r == Failure(e)
  {
    var bytes := ReadBytesFrom(input, MAX_TEXT_LEN);
    if bytes.Failure? {
      return Failure(bytes.error);
    }
    if !ValidUtf8(bytes.value) {
      return Failure(InvalidRecord);
    }
    return Success(bytes.value);
  }

  method ReadBlobsFrom(input: Cursor) returns (r: Result<BlobFields, StoreError>)
    modifies input
    ensures r == ReadBlobs(old(input.rest))
  {
    var a := ReadBytesFrom(input, MAX_BLOB_LEN);
    if a.Failure? { return Failure(a.error); }
    var b := ReadBytesFrom(input, MAX_BLOB_LEN);
    if b.Failure? { return Failure(b.error); }
    var c := ReadBytesFrom(input, MAX_BLOB_LEN);
    if c.Failure? { return Failure(c.error); }
    var d := ReadBytesFrom(input, MAX_BLOB_LEN);
    if d.Failure? { return Failure(d.error); }
    if input.rest != [] {
      return Failure(InvalidRecord);
    }
    return Success(BlobFields(a.value, b.value, c.value, d.value));
  }

  method DecodeRecord(bytes: seq<byte>) returns (r: Result<StoredKey, StoreError>)
    ensures r == Decode(bytes)
    ensures r.Success? ==> ValidKey(r.value) && Encode(r.value) == bytes
  {
    if Decode(bytes).Success? {
      EncodeOfDecode(bytes);
    }
    var input := new Cursor(bytes);
    var magic := input.Take(8);
    if magic != Some(MAGIC) {
      return Failure(InvalidRecord);
    }
    var id := ReadTextFrom(input);
    if id.Failure? { return Failure(id.error); }
    var name := ReadTextFrom(input);
    if name.Failure? { return Failure(name.error); }
    var tag := input.Take(1);
    if tag == None || ReadAlgorithm(tag.value[0]) == None {
      return Failure(InvalidRecord);
    }
    var algorithm := ReadAlgorithm(tag.value[0]).value;
    tag := input.Take(1);
    if tag == None || ReadPolicy(tag.value[0]) == None {
      return Failure(InvalidRecord);
    }
    var policy := ReadPolicy(tag.value[0]).value;
    var blobs := ReadBlobsFrom(input);
    if blobs.Failure? { return Failure(blobs.error); }
    var key := StoredKey(Summary(id.value, name.value, algorithm, policy, blobs.value.a),
                         TpmObject(blobs.value.b, blobs.value.c, blobs.value.d, policy));
    var ok := CheckKey(key);
    if !ok {
      return Failure(InvalidRecord);
    }
    return Success(key);
  }
}

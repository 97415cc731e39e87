/** Domain types shared by the agent, the CLI and the TPM layer. */
module Keys {
  import opened Wrappers
  import opened Bytes
  import opened Texts

  const MAX_TEXT_LEN: nat := 4 * 1024
  const MAX_BLOB_LEN: nat := 1024 * 1024

  datatype Algorithm = EcdsaNistP256 | EcdsaNistP384 {
    /** Octets in one ECDSA scalar or public coordinate. */
    function ComponentSize(): nat {
      match this
      case EcdsaNistP256 => 32
      case EcdsaNistP384 => 48
    }

    /** "ecdsa-sha2-nistp256" or "ecdsa-sha2-nistp384". */
    function SshKeyType(): seq<byte> {
      Ascii("ecdsa-sha2-") + SshCurveName()
    }

    /** "nistp256" or "nistp384". */
    function SshCurveName(): seq<byte> {
      match this
      case EcdsaNistP256 => Ascii("nistp256")
      case EcdsaNistP384 => Ascii("nistp384")
    }
  }

  /** A component has as many bits as the curve's name says. */
  lemma ComponentFitsTheCurve(algorithm: Algorithm)
    ensures ParseUsize(algorithm.SshCurveName()[5..]) == Some(8 * algorithm.ComponentSize())
    ensures algorithm.SshKeyType() == Ascii("ecdsa-sha2-nist") + algorithm.SshCurveName()[4..]
  {
    var name, bits := algorithm.SshCurveName(), 8 * algorithm.ComponentSize();
    assert Decimal(bits) == Digits(bits / 10, 10) + [HexDigit(bits % 10)];
    assert Digits(bits / 10, 10) == Digits(bits / 100, 10) + [HexDigit(bits / 10 % 10)];
    assert name[5..] == Decimal(bits);
    ParseUsizeOfDecimal(bits);
    assert "ecdsa-sha2-nist" == "ecdsa-sha2-" + "nist";
    assert name[..4] == Ascii("nist");
  }

  datatype UsePolicy = NoPin | TpmPin

  datatype Summary = Summary(id: Text, name: Text, algorithm: Algorithm, policy: UsePolicy, publicKey: seq<byte>)

  datatype TpmObject = TpmObject(publicArea: seq<byte>, wrappedPrivate: seq<byte>, parentName: seq<byte>, policy: UsePolicy)

  datatype StoredKey = StoredKey(summary: Summary, tpm: TpmObject)

  predicate TextInRange(s: seq<byte>) {
    0 < |s| <= MAX_TEXT_LEN
  }

  predicate BlobInRange(s: seq<byte>) {
    0 < |s| <= MAX_BLOB_LEN
  }

  /** The record check made before every write and after every read. */
  predicate ValidKey(key: StoredKey) {
    && TextInRange(key.summary.id)
    && TextInRange(key.summary.name)
    && BlobInRange(key.summary.publicKey)
    && BlobInRange(key.tpm.publicArea)
    && BlobInRange(key.tpm.wrappedPrivate)
    && BlobInRange(key.tpm.parentName)
    && key.summary.policy == key.tpm.policy
  }
}

/** Signed multiple-precision integers (RFC 4251, section 5): how an unsigned
    ECDSA scalar is re-encoded, and why that encoding is the only short one. */
module Mpint {
  import opened Bytes

  /** The two's-complement number an octet string denotes. */
  function Signed(s: seq<byte>): int {
    if s != [] && s[0] >= 0x80 then Value(s) - Pow256(|s|) else Value(s)
  }

  /** No leading octet can be dropped without changing the number. */
  predicate Shortest(s: seq<byte>) {
    && (s != [] && s[0] == 0 ==> |s| >= 2 && s[1] >= 0x80)
    && (|s| >= 2 && s[0] == 0xFF ==> s[1] < 0x80)
  }

  function StripZeros(s: seq<byte>): (t: seq<byte>)
    ensures |t| <= |s|
    ensures t != [] ==> t[0] != 0
  {
    if s != [] && s[0] == 0 then StripZeros(s[1..]) else s
  }

  /** The octets of the mpint for an unsigned big-endian scalar. */
  function MpintBody(scalar: seq<byte>): (s: seq<byte>)
    ensures |s| <= |scalar| + 1
  {
    var stripped := StripZeros(scalar);
    if stripped != [] && stripped[0] >= 0x80 then [0] + stripped else stripped
  }

  lemma LeadingOctet(s: seq<byte>)
    requires s != []
    ensures Value(s) == s[0] * Pow256(|s| - 1) + Value(s[1..])
    ensures 0 <= Value(s[1..]) < Pow256(|s| - 1)
    ensures Pow256(|s|) == 256 * Pow256(|s| - 1)
  {
    assert s == [s[0]] + s[1..];
    ValueOfConcat([s[0]], s[1..]);
    assert Value([s[0]]) == s[0] by {
      assert [s[0]][..0] == [];
      assert Value([s[0]]) == Value([s[0]][..0]) * 256 + s[0];
    }
    BigEndianOfValue(s[1..]);
  }

  lemma {:induction false} StripKeepsValue(s: seq<byte>)
    ensures Value(StripZeros(s)) == Value(s)
  {
    if s != [] && s[0] == 0 {
      assert s == [0] + s[1..];
      LeadingZero(s[1..]);
      StripKeepsValue(s[1..]);
    }
  }

  lemma {:induction false} LeadingZero(s: seq<byte>)
    ensures Value([0] + s) == Value(s)
  {
    var longer := [0] + s;
    if s == [] {
      assert longer[..0] == [];
    } else {
      assert longer[..|s|] == [0] + s[..|s| - 1];
      LeadingZero(s[..|s| - 1]);
    }
  }

  /** The encoding denotes exactly the unsigned scalar, and is shortest. */
  lemma MpintDenotesScalar(scalar: seq<byte>)
    ensures Signed(MpintBody(scalar)) == Value(scalar)
    ensures Shortest(MpintBody(scalar))
  {
    var stripped := StripZeros(scalar);
    StripKeepsValue(scalar);
    LeadingZero(stripped);
  }

  /** The leading octet read as a signed one. */
  function Lead(s: seq<byte>): int
    requires s != []
  {
    var first: int := s[0];
    if first >= 0x80 then first - 256 else first
  }

  /** Two's-complement range of an octet string, by its leading octet. */
  lemma SignedByLeadingOctet(s: seq<byte>)
    requires s != []
    ensures var p := Pow256(|s| - 1);
            && Signed(s) == Lead(s) * p + Value(s[1..])
            && Lead(s) * p <= Signed(s) < (Lead(s) + 1) * p
            && -128 * p <= Signed(s) < 128 * p
  {
    LeadingOctet(s);
    TwosComplement(s[0], Lead(s), Pow256(|s| - 1), Value(s[1..]), Value(s), Signed(s));
  }

  lemma TwosComplement(first: int, lead: int, p: nat, tail: nat, value: int, signed: int)
    requires 0 <= first < 256 && lead == (if first >= 0x80 then first - 256 else first)
    requires value == first * p + tail && tail < p
    requires signed == if first >= 0x80 then value - 256 * p else value
    ensures signed == lead * p + tail
    ensures lead * p <= signed < (lead + 1) * p
    ensures -128 * p <= signed < 128 * p
  {
    Distribute(first, -256, p);
    Distribute(lead, 1, p);
    Scale(-128, lead, p);
    Scale(lead + 1, 128, p);
  }

  lemma Scale(a: int, b: int, p: nat)
    requires a <= b
    ensures a * p <= b * p
  {
  }

  lemma Distribute(a: int, b: int, p: nat)
    ensures (a + b) * p == a * p + b * p
  {
  }

  lemma {:induction false} Pow256Grows(m: nat, n: nat)
    requires m <= n
    ensures Pow256(m) <= Pow256(n)
    decreases n
  {
    if m < n {
      Pow256Grows(m, n - 1);
    }
  }

  /** A shortest string of two or more octets lies outside the range of every
      string with fewer octets. */
  lemma ShortestIsLarge(s: seq<byte>)
    requires Shortest(s) && |s| >= 2
    ensures var p := Pow256(|s| - 2);
            Signed(s) >= 128 * p || Signed(s) < -128 * p
  {
    SignedByLeadingOctet(s);
    LeadingOctet(s[1..]);
    OutsideShortRange(Lead(s), s[1], Pow256(|s| - 2), Value(s[1..]), Signed(s));
  }

  lemma OutsideShortRange(lead: int, second: byte, p: nat, tail: nat, signed: int)
    requires signed == lead * (256 * p) + tail && tail < 256 * p
    requires second * p <= tail < second * p + p
    requires lead == 0 ==> second >= 0x80
    requires lead == -1 ==> second < 0x80
    ensures signed >= 128 * p || signed < -128 * p
  {
    SecondOctet(second, p, tail);
    if lead > 0 {
      Scale(1, lead, 256 * p);
    } else if lead < -1 {
      Scale(lead, -2, 256 * p);
    }
  }

  lemma SecondOctet(octet: byte, p: nat, value: nat)
    requires octet * p <= value < octet * p + p
    ensures octet >= 0x80 ==> value >= 128 * p
    ensures octet < 0x80 ==> value < 128 * p
  {
    if octet >= 0x80 {
      Scale(128, octet, p);
    } else {
      Scale(octet as int + 1, 128, p);
      Distribute(octet, 1, p);
    }
  }

  lemma LongerShortestDiffers(s: seq<byte>, t: seq<byte>)
    requires Shortest(s) && |t| < |s|
    ensures Signed(s) != Signed(t)
  {
    if |s| == 1 {
      SignedByLeadingOctet(s);
    } else {
      ShortestIsLarge(s);
      if t != [] {
        SignedByLeadingOctet(t);
        Pow256Grows(|t| - 1, |s| - 2);
        Scale(Pow256(|t| - 1), Pow256(|s| - 2), 128);
      }
    }
  }

  /** A shortest encoding is no longer than any other encoding of its number. */
  lemma ShortestIsMinimal(s: seq<byte>, t: seq<byte>)
    requires Shortest(s) && Signed(s) == Signed(t)
    ensures |s| <= |t|
  {
    if |t| < |s| {
      LongerShortestDiffers(s, t);
    }
  }

  /** Equal numbers have the same shortest encoding. */
  lemma ShortestIsUnique(s: seq<byte>, t: seq<byte>)
    requires Shortest(s) && Shortest(t) && Signed(s) == Signed(t)
    ensures s == t
  {
    ShortestIsMinimal(s, t);
    ShortestIsMinimal(t, s);
    SameLengthSameOctets(s, t);
  }

  /** Leading zeros in the TPM output are immaterial: the encoding depends on
      the number only, and any other encoding of it is longer. */
  lemma MpintIsCanonical(scalar: seq<byte>, other: seq<byte>, encoding: seq<byte>)
    ensures Value(scalar) == Value(other) <==> MpintBody(scalar) == MpintBody(other)
    ensures Signed(encoding) == Value(scalar) ==>
              encoding == MpintBody(scalar) || |encoding| > |MpintBody(scalar)|
  {
    MpintDenotesScalar(scalar);
    MpintDenotesScalar(other);
    if Value(scalar) == Value(other) {
      ShortestIsUnique(MpintBody(scalar), MpintBody(other));
    }
    if Signed(encoding) == Value(scalar) {
      ShortestIsMinimal(MpintBody(scalar), encoding);
      SameLengthSameOctets(MpintBody(scalar), encoding);
    }
  }

  lemma SameLengthSameOctets(s: seq<byte>, t: seq<byte>)
    requires Signed(s) == Signed(t)
    ensures |s| == |t| ==> s == t
  {
    BigEndianOfValue(s);
    BigEndianOfValue(t);
  }
}

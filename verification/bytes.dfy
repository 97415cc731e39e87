/** Octets, big-endian integers, and the two mutable byte containers of the
    source: a growing `Vec<u8>` and a `&mut &[u8]` read cursor. */
module Bytes {
  import opened Wrappers

  type byte = b: int | 0 <= b < 256

  const U32_LIMIT: nat := 0x1_0000_0000
  const U64_LIMIT: nat := 0x1_0000_0000_0000_0000

  type u64 = n: nat | n < U64_LIMIT

  /** The octets of an ASCII literal. */
  function Ascii(literal: string): (s: seq<byte>)
    requires forall i | 0 <= i < |literal| :: literal[i] as int < 0x80
    ensures |s| == |literal|
    ensures forall i | 0 <= i < |s| :: s[i] == literal[i] as int
  {
    seq(|literal|, i requires 0 <= i < |literal| => literal[i] as int)
  }

  function Pow256(n: nat): (p: nat)
    ensures p >= 1
  {
    if n == 0 then 1 else 256 * Pow256(n - 1)
  }

  /** The `width` low-order octets of `n`, most significant first. */
  function BigEndian(n: nat, width: nat): (s: seq<byte>)
    ensures |s| == width
  {
    if width == 0 then [] else BigEndian(n / 256, width - 1) + [n % 256]
  }

  /** The unsigned number an octet string denotes, most significant first. */
  function Value(s: seq<byte>): nat {
    if s == [] then 0 else Value(s[..|s| - 1]) * 256 + s[|s| - 1]
  }

  lemma {:induction false} ValueOfBigEndian(n: nat, width: nat)
    requires n < Pow256(width)
    ensures Value(BigEndian(n, width)) == n
  {
    if width > 0 {
      var high := BigEndian(n / 256, width - 1);
      assert BigEndian(n, width)[..width - 1] == high;
      ValueOfBigEndian(n / 256, width - 1);
    }
  }

  lemma {:induction false} BigEndianOfValue(s: seq<byte>)
    ensures Value(s) < Pow256(|s|)
    ensures BigEndian(Value(s), |s|) == s
  {
    if s != [] {
      var high := s[..|s| - 1];
      BigEndianOfValue(high);
      assert Value(s) / 256 == Value(high);
      assert high + [s[|s| - 1]] == s;
    }
  }

  /** Leading zero octets do not change the number. */
  lemma {:induction false} ValueOfConcat(a: seq<byte>, b: seq<byte>)
    ensures Value(a + b) == Value(a) * Pow256(|b|) + Value(b)
  {
    if b == [] {
      assert a + b == a;
    } else {
      var high := b[..|b| - 1];
      assert (a + b)[..|a + b| - 1] == a + high;
      ValueOfConcat(a, high);
      var va, p := Value(a), Pow256(|high|);
      assert va * (256 * p) == va * p * 256;
    }
  }

  /** A four-octet length or word, as `u32::to_be_bytes` writes it. */
  function U32(n: nat): (s: seq<byte>)
    requires n < U32_LIMIT
    ensures |s| == 4 && Value(s) == n
  {
    assert Pow256(4) == U32_LIMIT by {
      assert Pow256(1) == 256 && Pow256(2) == 0x1_0000;
    }
    ValueOfBigEndian(n, 4);
    BigEndian(n, 4)
  }

  /** The four octets, written out. */
  lemma U32Octets(n: nat)
    requires n < U32_LIMIT
    ensures U32(n) == [n / 0x100_0000, n / 0x1_0000 % 0x100, n / 0x100 % 0x100, n % 0x100]
  {
    var a, b, c := n / 0x100, n / 0x1_0000, n / 0x100_0000;
    assert a / 0x100 == b && b / 0x100 == c && c % 0x100 == c;
    assert BigEndian(c, 1) == BigEndian(c / 0x100, 0) + [c % 0x100];
    assert BigEndian(b, 2) == BigEndian(c, 1) + [b % 0x100];
    assert BigEndian(a, 3) == BigEndian(b, 2) + [a % 0x100];
  }

  lemma U32OfValue(s: seq<byte>)
    requires |s| == 4
    ensures Value(s) < U32_LIMIT && U32(Value(s)) == s
  {
    BigEndianOfValue(s);
    assert Pow256(4) == U32_LIMIT by {
      assert Pow256(1) == 256 && Pow256(2) == 0x1_0000;
    }
  }

  /** Eight octets, as `u64::to_be_bytes` writes them. */
  function U64(n: u64): (s: seq<byte>)
    ensures |s| == 8 && Value(s) == n
  {
    Pow256Of8();
    ValueOfBigEndian(n, 8);
    BigEndian(n, 8)
  }

  lemma U64OfValue(s: seq<byte>)
    requires |s| == 8
    ensures Value(s) < U64_LIMIT && U64(Value(s)) == s
  {
    BigEndianOfValue(s);
    Pow256Of8();
  }

  lemma Pow256Of8()
    ensures Pow256(8) == U64_LIMIT
  {
    assert Pow256(1) == 256 && Pow256(2) == 0x1_0000;
    assert Pow256(4) == 0x1_0000_0000;
    assert Pow256(6) == 0x1_0000_0000_0000;
  }

  // ------------------------------------------------------------------
  // Concatenation
  // ------------------------------------------------------------------

  lemma Associate(a: seq<byte>, b: seq<byte>, c: seq<byte>)
    ensures a + b + c == a + (b + c)
  {
  }

  lemma AssociateFour(a: seq<byte>, b: seq<byte>, c: seq<byte>, d: seq<byte>)
    ensures a + b + c + d == a + (b + (c + d))
  {
  }

  lemma AssociateFive(a: seq<byte>, b: seq<byte>, c: seq<byte>, d: seq<byte>, e: seq<byte>)
    ensures a + b + c + d + e == a + (b + (c + (d + e)))
  {
  }

  // ------------------------------------------------------------------
  // Length-prefixed octet strings (the `string` of RFC 4251, section 5)
  // ------------------------------------------------------------------

  function Prefixed(value: seq<byte>): (s: seq<byte>)
    requires |value| < U32_LIMIT
    ensures |s| == 4 + |value|
  {
    U32(|value|) + value
  }

  /** A length-prefixed string can be read back from the front of any input
      in exactly one way. */
  lemma PrefixedIsUnambiguous(a: seq<byte>, x: seq<byte>, b: seq<byte>, y: seq<byte>)
    requires |a| < U32_LIMIT && |b| < U32_LIMIT
    requires Prefixed(a) + x == Prefixed(b) + y
    ensures a == b && x == y
  {
    var s := Prefixed(a) + x;
    assert s[..4] == U32(|a|) && s[..4] == U32(|b|);
    assert |a| == |b|;
    assert s[4..4 + |a|] == a && s[4..4 + |b|] == b;
    assert s[4 + |a|..] == x && s[4 + |b|..] == y;
  }

  /** A length-prefixed string can be taken from the front of `s`. */
  predicate StringFits(s: seq<byte>) {
    |s| >= 4 && 4 + Value(s[..4]) <= |s|
  }

  /** The string at the front of `s`, and what follows it. */
  function ReadString(s: seq<byte>): (r: Option<(seq<byte>, seq<byte>)>)
    ensures r.Some? <==> StringFits(s)
    ensures r.Some? ==> |r.value.0| < U32_LIMIT && s == Prefixed(r.value.0) + r.value.1
  {
    if StringFits(s) then
      var end := 4 + Value(s[..4]);
      U32OfValue(s[..4]);
      assert s == s[..4] + s[4..end] + s[end..];
      Some((s[4..end], s[end..]))
    else None
  }

  lemma ReadPrefixed(value: seq<byte>, rest: seq<byte>)
    requires |value| < U32_LIMIT
    ensures ReadString(Prefixed(value) + rest) == Some((value, rest))
  {
    var s := Prefixed(value) + rest;
    assert s[..4] == U32(|value|);
    assert s[4..4 + |value|] == value && s[4 + |value|..] == rest;
  }

  // ------------------------------------------------------------------
  // Mutable containers
  // ------------------------------------------------------------------

  /** The `Vec<u8>` that encoders append to. */
  class Buffer {
    var data: seq<byte>

    constructor ()
      ensures data == []
    {
      data := [];
    }

    method Push(b: byte)
      modifies this
      ensures data == old(data) + [b]
    {
      data := data + [b];
    }

    method Extend(s: seq<byte>)
      modifies this
      ensures data == old(data) + s
    {
      data := data + s;
    }
  }

  /** The `&mut &[u8]` cursor that parsers advance. */
  class Cursor {
    var rest: seq<byte>

    constructor (bytes: seq<byte>)
      ensures rest == bytes
    {
      rest := bytes;
    }

    /** Splits off `length` octets, or leaves the cursor alone. */
    method Take(length: nat) returns (r: Option<seq<byte>>)
      modifies this
      ensures length <= |old(rest)| ==> r == Some(old(rest)[..length]) && rest == old(rest)[length..]
      ensures |old(rest)| < length ==> r == None && rest == old(rest)
    {
      if |rest| < length {
        return None;
      }
      r := Some(rest[..length]);
      rest := rest[length..];
    }

    /** Reads a big-endian word. */
    method TakeU32() returns (r: Option<nat>)
      modifies this
      ensures 4 <= |old(rest)| ==> r.Some? && r.value < U32_LIMIT && old(rest) == U32(r.value) + rest
      ensures |old(rest)| < 4 ==> r == None && rest == old(rest)
    {
      var taken := Take(4);
      match taken
      case None => return None;
      case Some(word) =>
        U32OfValue(word);
        return Some(Value(word));
    }
  }
}

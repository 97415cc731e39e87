/** What the octets of a Rust `String` are: the UTF-8 forms of Unicode scalar
    values (RFC 3629, section 3), one after the other. */
module Unicode {
  import opened Bytes
  import opened Texts

  /** Every code point except the surrogates. */
  type Scalar = c: nat | c < 0xD800 || 0xE000 <= c < 0x11_0000

  function EncodeScalar(c: Scalar): (s: seq<byte>)
    ensures s != []
  {
    if c < 0x80 then [c]
    else if c < 0x800 then [0xC0 + c / 0x40, 0x80 + c % 0x40]
    else if c < 0x1_0000 then [0xE0 + c / 0x1000, 0x80 + c / 0x40 % 0x40, 0x80 + c % 0x40]
    else
      assert c / 0x4_0000 <= 4;
      [0xF0 + c / 0x4_0000, 0x80 + c / 0x1000 % 0x40, 0x80 + c / 0x40 % 0x40, 0x80 + c % 0x40]
  }

  function Encoded(scalars: seq<Scalar>): seq<byte> {
    if scalars == [] then [] else EncodeScalar(scalars[0]) + Encoded(scalars[1..])
  }

  lemma ScalarIsRead(c: Scalar, rest: seq<byte>)
    ensures ScalarLength(EncodeScalar(c) + rest) == |EncodeScalar(c)|
    ensures (EncodeScalar(c) + rest)[|EncodeScalar(c)|..] == rest
  {
    var s := EncodeScalar(c) + rest;
    forall i | 0 <= i < |EncodeScalar(c)| ensures s[i] == EncodeScalar(c)[i] {
    }
    if c >= 0x1_0000 {
      assert c / 0x1000 == c / 0x4_0000 * 0x40 + c / 0x1000 % 0x40;
      assert 0x10 <= c / 0x1000 <= 0x10F;
    } else if c >= 0x800 {
      assert c / 0x40 == c / 0x1000 * 0x40 + c / 0x40 % 0x40;
      assert 0x20 <= c / 0x40 < 0x400 && !(0x360 <= c / 0x40 < 0x380);
    } else if c >= 0x80 {
      assert 2 <= c / 0x40 < 0x20;
    }
  }

  /** The well-formed sequence at the front of `s` is some scalar value's form. */
  lemma FrontIsScalar(s: seq<byte>) returns (c: Scalar)
    requires s != [] && ScalarLength(s) > 0
    ensures EncodeScalar(c) == s[..ScalarLength(s)]
  {
    var n, a: int := ScalarLength(s), s[0];
    if n == 1 {
      return a;
    } else if n == 2 {
      var b: int := s[1];
      return (a - 0xC0) * 0x40 + (b - 0x80);
    } else if n == 3 {
      c := ThreeOctets(s[0], s[1], s[2]);
    } else {
      c := FourOctets(s[0], s[1], s[2], s[3]);
    }
  }

  lemma ThreeOctets(a: int, b: int, d: int) returns (c: Scalar)
    requires 0xE0 <= a < 0xF0 && 0x80 <= b < 0xC0 && 0x80 <= d < 0xC0
    requires (a == 0xE0 ==> b >= 0xA0) && (a == 0xED ==> b < 0xA0)
    ensures EncodeScalar(c) == [a, b, d]
  {
    var high := (a - 0xE0) * 0x40 + (b - 0x80);
    c := high * 0x40 + (d - 0x80);
    assert c / 0x40 == high && c / 0x1000 == high / 0x40;
  }

  lemma FourOctets(a: int, b: int, d: int, e: int) returns (c: Scalar)
    requires 0xF0 <= a < 0xF5 && 0x80 <= b < 0xC0 && 0x80 <= d < 0xC0 && 0x80 <= e < 0xC0
    requires (a == 0xF0 ==> b >= 0x90) && (a == 0xF4 ==> b < 0x90)
    ensures EncodeScalar(c) == [a, b, d, e]
  {
    var top := (a - 0xF0) * 0x40 + (b - 0x80);
    var high := top * 0x40 + (d - 0x80);
    c := high * 0x40 + (e - 0x80);
    assert c / 0x40 == high && c / 0x1000 == high / 0x40 == top && c / 0x4_0000 == top / 0x40;
  }

  lemma {:induction false} EncodedIsText(scalars: seq<Scalar>)
    ensures ValidUtf8(Encoded(scalars))
  {
    if scalars != [] {
      ScalarIsRead(scalars[0], Encoded(scalars[1..]));
      EncodedIsText(scalars[1..]);
    }
  }

  lemma {:induction false} TextIsEncoded(s: Text) returns (scalars: seq<Scalar>)
    ensures Encoded(scalars) == s
    decreases |s|
  {
    if s == [] {
      return [];
    }
    var n := ScalarLength(s);
    var c := FrontIsScalar(s);
    var rest := TextIsEncoded(s[n..]);
    assert ([c] + rest)[1..] == rest;
    assert s == s[..n] + s[n..];
    return [c] + rest;
  }

  /** Octets are accepted as text exactly if they encode a sequence of scalar values. */
  lemma TextIsUnicode(s: seq<byte>)
    ensures ValidUtf8(s) <==> exists scalars: seq<Scalar> :: Encoded(scalars) == s
  {
    if ValidUtf8(s) {
      var scalars := TextIsEncoded(s);
    }
    forall scalars: seq<Scalar> | Encoded(scalars) == s ensures ValidUtf8(s) {
      EncodedIsText(scalars);
    }
  }
}

/** Text as octets: UTF-8 validity, hexadecimal and decimal spellings, and the
    identifiers the agent mints for its authorization requests. */
module Texts {
  import opened Wrappers
  import opened Bytes

  // ------------------------------------------------------------------
  // UTF-8
  // ------------------------------------------------------------------

  predicate Continuation(b: byte) {
    0x80 <= b < 0xC0
  }

  /** Length of the well-formed UTF-8 sequence at the front of `s`, or 0. */
  function ScalarLength(s: seq<byte>): (n: nat)
    requires s != []
    ensures n <= |s|
    ensures s[0] < 0x80 ==> n == 1
  {
    if s[0] < 0x80 then 1
    else if |s| >= 2 && 0xC2 <= s[0] < 0xE0 && Continuation(s[1]) then 2
    else if |s| >= 3 && 0xE0 <= s[0] < 0xF0 && Continuation(s[1]) && Continuation(s[2])
            && (s[0] == 0xE0 ==> s[1] >= 0xA0) && (s[0] == 0xED ==> s[1] < 0xA0) then 3
    else if |s| >= 4 && 0xF0 <= s[0] < 0xF5 && Continuation(s[1]) && Continuation(s[2]) && Continuation(s[3])
            && (s[0] == 0xF0 ==> s[1] >= 0x90) && (s[0] == 0xF4 ==> s[1] < 0x90) then 4
    else 0
  }

  /** What `String::from_utf8` accepts. */
  predicate ValidUtf8(s: seq<byte>) {
    s == [] || (ScalarLength(s) > 0 && ValidUtf8(s[ScalarLength(s)..]))
  }

  /** A Rust `String`. */
  type Text = s: seq<byte> | ValidUtf8(s)

  predicate IsAscii(s: seq<byte>) {
    forall b | b in s :: b < 0x80
  }

  lemma {:induction false} AsciiIsUtf8(s: seq<byte>)
    requires IsAscii(s)
    ensures ValidUtf8(s)
  {
    if s != [] {
      assert s[0] in s && forall b | b in s[1..] :: b in s;
      AsciiIsUtf8(s[1..]);
    }
  }

  // ------------------------------------------------------------------
  // Hexadecimal
  // ------------------------------------------------------------------

  function HexDigit(n: nat): (b: byte)
    requires n < 16
    ensures b < 0x80
  {
    if n < 10 then '0' as int + n else 'a' as int + (n - 10)
  }

  function HexDigitValue(b: byte): (r: Option<nat>)
    ensures r.Some? ==> r.value < 16
  {
    if '0' as int <= b <= '9' as int then Some(b - '0' as int)
    else if 'a' as int <= b <= 'f' as int then Some(b - 'a' as int + 10)
    else if 'A' as int <= b <= 'F' as int then Some(b - 'A' as int + 10)
    else None
  }

  /** Exactly the sixteen digits are read, letters in either case. */
  lemma HexDigitsAreRead(b: byte, n: nat)
    requires n < 16
    ensures HexDigitValue(b) == Some(n) <==> b == Ascii("0123456789abcdef")[n] || b == Ascii("0123456789ABCDEF")[n]
    ensures HexDigit(n) == Ascii("0123456789abcdef")[n]
  {
    assert n < 10 ==> "0123456789"[n] as int == '0' as int + n;
    assert n >= 10 ==> "abcdef"[n - 10] as int == 'a' as int + (n - 10);
    assert n >= 10 ==> "ABCDEF"[n - 10] as int == 'A' as int + (n - 10);
    assert "0123456789abcdef" == "0123456789" + "abcdef";
    assert "0123456789ABCDEF" == "0123456789" + "ABCDEF";
  }

  /** Two digits that stand for this octet. */
  predicate Spells(pair: seq<byte>, b: byte) {
    && |pair| == 2
    && HexDigitValue(pair[0]).Some? && HexDigitValue(pair[1]).Some?
    && HexDigitValue(pair[0]).value * 16 + HexDigitValue(pair[1]).value == b
  }

  function HexPair(b: byte): (pair: seq<byte>)
    ensures Spells(pair, b)
  {
    var high, low := b / 16, b % 16;
    assert HexDigitValue(HexDigit(high)) == Some(high) && HexDigitValue(HexDigit(low)) == Some(low);
    [HexDigit(high), HexDigit(low)]
  }

  /** Two lower-case digits per octet. */
  function Hex(s: seq<byte>): (h: seq<byte>)
    ensures |h| == 2 * |s|
  {
    if s == [] then [] else Hex(s[..|s| - 1]) + HexPair(s[|s| - 1])
  }

  /** The octets a hexadecimal spelling denotes; either letter case is read. */
  function Unhex(h: seq<byte>): (r: Option<seq<byte>>)
    ensures r.Some? ==> |h| == 2 * |r.value|
  {
    if h == [] then Some([])
    else if |h| == 1 then None
    else
      var high, low := HexDigitValue(h[|h| - 2]), HexDigitValue(h[|h| - 1]);
      var front := Unhex(h[..|h| - 2]);
      if front.Some? && high.Some? && low.Some?
      then Some(front.value + [high.value * 16 + low.value])
      else None
  }

  lemma UnhexOneMore(h: seq<byte>, pair: seq<byte>, s: seq<byte>, b: byte)
    requires Unhex(h) == Some(s) && Spells(pair, b)
    ensures Unhex(h + pair) == Some(s + [b])
  {
    var high, low := HexDigitValue(pair[0]), HexDigitValue(pair[1]);
    var longer := h + pair;
    assert longer[..|longer| - 2] == h;
    assert HexDigitValue(longer[|longer| - 2]) == high && HexDigitValue(longer[|longer| - 1]) == low;
    assert Unhex(longer) == Some(s + [high.value * 16 + low.value]);
  }

  lemma HexOneMore(s: seq<byte>, b: byte)
    ensures Hex(s + [b]) == Hex(s) + HexPair(b)
  {
    assert (s + [b])[..|s|] == s;
  }

  lemma {:induction false} UnhexOfHex(s: seq<byte>)
    ensures Unhex(Hex(s)) == Some(s)
  {
    if s != [] {
      var front, last := s[..|s| - 1], s[|s| - 1];
      var pair := HexPair(last);
      assert s == front + [last];
      HexOneMore(front, last);
      UnhexOfHex(front);
      UnhexOneMore(Hex(front), pair, front, last);
    }
  }

  /** The spelling uses only `0-9a-f`. */
  lemma {:induction false} HexIsPlain(s: seq<byte>)
    ensures AllHexDigits(Hex(s))
  {
    if s != [] {
      HexIsPlain(s[..|s| - 1]);
    }
  }

  lemma HexInjective(s: seq<byte>, t: seq<byte>)
    requires Hex(s) == Hex(t)
    ensures s == t
  {
    UnhexOfHex(s);
    UnhexOfHex(t);
  }

  /** The loop shared by `hex` and `file_stem`. */
  method EncodeHex(value: seq<byte>) returns (output: seq<byte>)
    ensures output == Hex(value)
  {
    output := [];
    for i := 0 to |value|
      invariant output == Hex(value[..i])
    {
      assert value[..i + 1][..i] == value[..i];
      output := output + [HexDigit(value[i] / 16)];
      output := output + [HexDigit(value[i] % 16)];
    }
    assert value[..|value|] == value;
  }

  // ------------------------------------------------------------------
  // Numbers in text
  // ------------------------------------------------------------------

  /** Minimal spelling of `n` in the given base, as `{:x}` and `{}` print it. */
  function Digits(n: nat, base: nat): (s: seq<byte>)
    requires 2 <= base <= 16
    ensures |s| >= 1
    decreases n
  {
    if n < base then [HexDigit(n)] else Digits(n / base, base) + [HexDigit(n % base)]
  }

  predicate AllHexDigits(s: seq<byte>) {
    forall b | b in s :: '0' as int <= b <= '9' as int || 'a' as int <= b <= 'f' as int
  }

  lemma OneDigitMore(front: seq<byte>, digit: nat)
    requires AllHexDigits(front) && digit < 16
    ensures AllHexDigits(front + [HexDigit(digit)])
    ensures digit < 10 && (forall b | b in front :: b <= '9' as int) ==>
              forall b | b in front + [HexDigit(digit)] :: b <= '9' as int
  {
  }

  lemma {:induction false} DigitsArePlain(n: nat, base: nat)
    requires 2 <= base <= 16
    ensures AllHexDigits(Digits(n, base))
    ensures base <= 10 ==> forall b | b in Digits(n, base) :: b <= '9' as int
    decreases n
  {
    if n >= base {
      DigitsArePlain(n / base, base);
      OneDigitMore(Digits(n / base, base), n % base);
    }
  }

  function Decimal(n: nat): (s: seq<byte>)
    ensures |s| >= 1
  {
    Digits(n, 10)
  }

  predicate IsDigit(b: byte) {
    '0' as int <= b <= '9' as int
  }

  function DecimalValue(s: seq<byte>): nat
    requires forall b | b in s :: IsDigit(b)
  {
    if s == [] then 0
    else
      assert IsDigit(s[|s| - 1]);
      DecimalValue(s[..|s| - 1]) * 10 + (s[|s| - 1] - '0' as int)
  }

  /** `str::parse::<usize>` on a 64-bit platform: an optional plus sign, at
      least one digit, no overflow. */
  function ParseUsize(s: seq<byte>): (r: Option<nat>)
    ensures r.Some? ==> r.value < U64_LIMIT
  {
    var digits := if |s| > 1 && s[0] == '+' as int then s[1..] else s;
    if digits != [] && (forall b | b in digits :: IsDigit(b)) && DecimalValue(digits) < U64_LIMIT
    then Some(DecimalValue(digits))
    else None
  }

  lemma {:induction false} DecimalValueOfDecimal(n: nat)
    ensures forall b | b in Decimal(n) :: IsDigit(b)
    ensures DecimalValue(Decimal(n)) == n
    decreases n
  {
    DigitsArePlain(n, 10);
    if n >= 10 {
      DecimalValueOfDecimal(n / 10);
      assert Decimal(n)[..|Decimal(n)| - 1] == Decimal(n / 10);
    } else {
      assert Decimal(n) == [HexDigit(n)];
      assert Decimal(n)[..0] == [];
      assert DecimalValue(Decimal(n)) == DecimalValue(Decimal(n)[..0]) * 10 + n;
    }
  }

  lemma DecimalInjective(m: nat, n: nat)
    requires Decimal(m) == Decimal(n)
    ensures m == n
  {
    DecimalValueOfDecimal(m);
    DecimalValueOfDecimal(n);
  }

  /** Two texts that agree agree up to their first separator, and behind it. */
  lemma SameUpTo(separator: byte, a: seq<byte>, x: seq<byte>, b: seq<byte>, y: seq<byte>)
    requires separator !in a && separator !in b
    requires a + ([separator] + x) == b + ([separator] + y)
    ensures a == b && x == y
  {
    var s, t := a + ([separator] + x), b + ([separator] + y);
    assert s[|a|] == separator && t[|b|] == separator;
    assert forall i | 0 <= i < |a| :: s[i] == a[i] && a[i] in a;
    assert forall i | 0 <= i < |b| :: t[i] == b[i] && b[i] in b;
    assert |a| == |b|;
    assert s[..|a|] == a && t[..|b|] == b && s[|a| + 1..] == x && t[|b| + 1..] == y;
  }

  // What `ParseUsize` reads: any number of zeros, then the decimal spelling

  predicate AllZeros(s: seq<byte>) {
    forall b | b in s :: b == '0' as int
  }

  lemma {:induction false} LeadingZeros(digits: seq<byte>) returns (zeros: seq<byte>)
    requires digits != [] && forall b | b in digits :: IsDigit(b)
    ensures AllZeros(zeros) && digits == zeros + Decimal(DecimalValue(digits))
    decreases |digits|
  {
    var front, last := digits[..|digits| - 1], digits[|digits| - 1];
    assert IsDigit(last) && forall b | b in front :: IsDigit(b);
    var n := DecimalValue(front);
    assert HexDigit(last - '0' as int) == last;
    assert digits == front + [last];
    if front == [] {
      assert Decimal(DecimalValue(digits)) == [last];
      return [];
    }
    zeros := LeadingZeros(front);
    if n == 0 {
      assert Decimal(0) == ['0' as int];
      assert digits == zeros + ['0' as int] + [last];
      zeros := zeros + ['0' as int];
    } else {
      assert DecimalValue(digits) == n * 10 + (last - '0' as int);
      assert Decimal(DecimalValue(digits)) == Decimal(n) + [last];
    }
  }

  lemma {:induction false} ZerosDoNotCount(zeros: seq<byte>, digits: seq<byte>)
    requires AllZeros(zeros) && forall b | b in digits :: IsDigit(b)
    ensures forall b | b in zeros + digits :: IsDigit(b)
    ensures DecimalValue(zeros + digits) == DecimalValue(digits)
    decreases |zeros| + |digits|
  {
    var s := zeros + digits;
    if digits != [] {
      assert s[..|s| - 1] == zeros + digits[..|digits| - 1];
      ZerosDoNotCount(zeros, digits[..|digits| - 1]);
    } else if zeros != [] {
      var fewer := zeros[..|zeros| - 1];
      assert zeros[|zeros| - 1] in zeros && forall b | b in fewer :: b in zeros;
      assert s == zeros && s[..|s| - 1] == fewer == fewer + [];
      ZerosDoNotCount(fewer, []);
    }
  }

  /** A plus sign or nothing, any number of zeros, then the number's own spelling:
      exactly these texts are read, as numbers below 2^64. */
  lemma ParseUsizeReads(s: seq<byte>, n: nat)
    ensures ParseUsize(s) == Some(n) <==>
            && n < 0x1_0000_0000_0000_0000
            && exists zeros | AllZeros(zeros) :: s == zeros + Decimal(n) || s == ['+' as int] + (zeros + Decimal(n))
  {
    if ParseUsize(s) == Some(n) {
      var zeros := SpelledWithZeros(s, n);
    }
    if n < U64_LIMIT {
      forall zeros | AllZeros(zeros) && (s == zeros + Decimal(n) || s == ['+' as int] + (zeros + Decimal(n)))
        ensures ParseUsize(s) == Some(n)
      {
        SpellingIsRead(s, zeros, zeros + Decimal(n), n);
      }
    }
  }

  lemma SpelledWithZeros(s: seq<byte>, n: nat) returns (zeros: seq<byte>)
    requires ParseUsize(s) == Some(n)
    ensures AllZeros(zeros) && (s == zeros + Decimal(n) || s == ['+' as int] + (zeros + Decimal(n)))
  {
    var digits := if |s| > 1 && s[0] == '+' as int then s[1..] else s;
    zeros := LeadingZeros(digits);
    assert s == digits || s == ['+' as int] + digits;
  }

  lemma SpellingIsRead(s: seq<byte>, zeros: seq<byte>, spelling: seq<byte>, n: nat)
    requires AllZeros(zeros) && n < U64_LIMIT && spelling == zeros + Decimal(n)
    requires s == spelling || s == ['+' as int] + spelling
    ensures ParseUsize(s) == Some(n)
  {
    ZerosThenDecimal(zeros, n);
    assert IsDigit(spelling[0]);
    if s != spelling {
      assert s[1..] == spelling;
    }
  }

  lemma ZerosThenDecimal(zeros: seq<byte>, n: nat)
    requires AllZeros(zeros)
    ensures forall b | b in zeros + Decimal(n) :: IsDigit(b)
    ensures DecimalValue(zeros + Decimal(n)) == n
  {
    DecimalValueOfDecimal(n);
    ZerosDoNotCount(zeros, Decimal(n));
  }

  lemma ParseUsizeOfDecimal(n: nat)
    requires n < U64_LIMIT
    ensures ParseUsize(Decimal(n)) == Some(n)
  {
    DecimalValueOfDecimal(n);
    assert Decimal(n)[0] in Decimal(n);
  }

  // ------------------------------------------------------------------
  // Request identifiers
  // ------------------------------------------------------------------

  /** `format!("{:x}-{sequence:016x}")`: the process identifier, a hyphen and
      the sequence number in exactly sixteen digits. Reading the last sixteen
      digits gives the sequence number back, so identifiers never collide. */
  function RequestId(pid: nat, sequence: u64): (id: seq<byte>)
    ensures SequenceOf(id) == sequence
  {
    var tail := Hex(U64(sequence));
    var id := Digits(pid, 16) + ['-' as int] + tail;
    assert id[|id| - 16..] == tail;
    UnhexOfHex(U64(sequence));
    id
  }

  function SequenceOf(id: seq<byte>): nat {
    if |id| < 16 then 0
    else
      var tail := Unhex(id[|id| - 16..]);
      if tail.Some? then Value(tail.value) else 0
  }

  /** The number a hexadecimal spelling denotes. */
  ghost function Number(s: seq<byte>): Option<nat> {
    if s == [] then Some(0)
    else
      var high, low := Number(s[..|s| - 1]), HexDigitValue(s[|s| - 1]);
      if high.Some? && low.Some? then Some(high.value * 16 + low.value) else None
  }

  lemma NumberOneMore(front: seq<byte>, digit: nat)
    requires Number(front).Some? && digit < 16
    ensures Number(front + [HexDigit(digit)]) == Some(Number(front).value * 16 + digit)
    ensures HexDigit(digit) == '0' as int ==> digit == 0
  {
    assert (front + [HexDigit(digit)])[..|front|] == front;
    assert HexDigitValue(HexDigit(digit)) == Some(digit);
  }

  lemma {:induction false} DigitsDenote(n: nat)
    ensures Number(Digits(n, 16)) == Some(n)
    ensures n > 0 ==> Digits(n, 16)[0] != '0' as int
    decreases n
  {
    if n >= 16 {
      DigitsDenote(n / 16);
      NumberOneMore(Digits(n / 16, 16), n % 16);
    } else {
      NumberOneMore([], n);
      assert [] + [HexDigit(n)] == Digits(n, 16);
    }
  }

  /** An identifier is a process number in hexadecimal without leading zeros, a
      hyphen, and sixteen hexadecimal digits of the sequence number. */
  lemma RequestIdSpelling(pid: nat, sequence: u64)
    ensures var id := RequestId(pid, sequence);
            && |id| >= 18 && id[|id| - 17] == '-' as int
            && Number(id[..|id| - 17]) == Some(pid) && (pid > 0 ==> id[0] != '0' as int)
            && Unhex(id[|id| - 16..]) == Some(U64(sequence))
  {
    var id, front, tail := RequestId(pid, sequence), Digits(pid, 16), Hex(U64(sequence));
    DigitsDenote(pid);
    UnhexOfHex(U64(sequence));
    assert id == (front + ['-' as int]) + tail;
    assert id[..|front|] == front && id[|front| + 1..] == tail;
  }

  /** Two identifiers are equal exactly for the same process and sequence number. */
  lemma RequestIdsDiffer(pid: nat, sequence: u64, otherPid: nat, other: u64)
    ensures RequestId(pid, sequence) == RequestId(otherPid, other) <==> pid == otherPid && sequence == other
  {
    RequestIdSpelling(pid, sequence);
    RequestIdSpelling(otherPid, other);
  }

  /** Minted identifiers are short, printable and free of separators. */
  lemma RequestIdIsPlain(pid: nat, sequence: u64)
    ensures forall b | b in RequestId(pid, sequence) ::
              IsDigit(b) || 'a' as int <= b <= 'f' as int || b == '-' as int
    ensures ValidUtf8(RequestId(pid, sequence))
    ensures pid < U32_LIMIT ==> |RequestId(pid, sequence)| <= 25
  {
    DigitsArePlain(pid, 16);
    HexIsPlain(U64(sequence));
    AsciiIsUtf8(RequestId(pid, sequence));
    if pid < U32_LIMIT {
      DigitCount(pid, 8, U32_LIMIT);
    }
  }

  lemma {:induction false} DigitCount(n: nat, count: nat, limit: nat)
    requires n < limit
    requires count >= 1
    requires limit == SixteenTo(count)
    ensures |Digits(n, 16)| <= count
    decreases count
  {
    if n >= 16 {
      DigitCount(n / 16, count - 1, SixteenTo(count - 1));
    }
  }

  function SixteenTo(n: nat): nat {
    if n == 0 then 1 else 16 * SixteenTo(n - 1)
  }
}

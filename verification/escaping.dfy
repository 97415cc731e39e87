/** The client's escaping codecs: tab-separated output, and the percent escapes
    of the Assuan protocol spoken with the PIN dialog. */
module Escaping {
  import opened Wrappers
  import opened Bytes
  import opened Texts
  import opened ListCodec
  import opened Control

  const BACKSLASH: byte := '\\' as int
  const RETURN: byte := 13
  const PERCENT: byte := '%' as int

  // ------------------------------------------------------------------
  // Tab-separated values
  // ------------------------------------------------------------------

  /** `str::replace` of one character. */
  function Replace(s: seq<byte>, b: byte, with: seq<byte>): seq<byte> {
    if s == [] then [] else (if s[0] == b then with else [s[0]]) + Replace(s[1..], b, with)
  }

  /** `escape_tsv`: four replacements, one after the other. */
  function EscapeTsv(value: seq<byte>): seq<byte> {
    Replace(
      Replace(
        Replace(
          Replace(value, BACKSLASH, [BACKSLASH, BACKSLASH]),
          TAB, [BACKSLASH, 't' as int]),
        RETURN, [BACKSLASH, 'r' as int]),
      NEWLINE, [BACKSLASH, 'n' as int])
  }

  /** The letter after the backslash, for characters that are escaped. */
  function TsvLetter(b: byte): Option<byte> {
    if b == BACKSLASH then Some(BACKSLASH)
    else if b == TAB then Some('t' as int)
    else if b == RETURN then Some('r' as int)
    else if b == NEWLINE then Some('n' as int)
    else None
  }

  function TsvUnit(b: byte): (s: seq<byte>)
    ensures s != []
  {
    if TsvLetter(b).Some? then [BACKSLASH, TsvLetter(b).value] else [b]
  }

  /** Each character substituted once, independently of its neighbours. */
  function SubstituteTsv(value: seq<byte>): seq<byte> {
    if value == [] then [] else TsvUnit(value[0]) + SubstituteTsv(value[1..])
  }

  function TsvValue(letter: byte): (r: Option<byte>)
    ensures r.Some? ==> TsvLetter(r.value) == Some(letter)
    ensures forall b: byte :: TsvLetter(b) == Some(letter) ==> r == Some(b)
  {
    if letter == BACKSLASH then Some(BACKSLASH)
    else if letter == 't' as int then Some(TAB)
    else if letter == 'r' as int then Some(RETURN)
    else if letter == 'n' as int then Some(NEWLINE)
    else None
  }

  /** Reads an escaped field; raw tabs and line ends are not fields. */
  function UnescapeTsv(s: seq<byte>): Option<seq<byte>> {
    if s == [] then Some([])
    else if s[0] == BACKSLASH then
      if |s| < 2 || TsvValue(s[1]) == None then None else Prepend([TsvValue(s[1]).value], UnescapeTsv(s[2..]))
    else if TsvLetter(s[0]).Some? then None
    else Prepend([s[0]], UnescapeTsv(s[1..]))
  }

  lemma {:induction false} ReplaceOfConcat(s: seq<byte>, t: seq<byte>, b: byte, with: seq<byte>)
    ensures Replace(s + t, b, with) == Replace(s, b, with) + Replace(t, b, with)
  {
    if s == [] {
      assert s + t == t;
    } else {
      assert (s + t)[1..] == s[1..] + t;
      ReplaceOfConcat(s[1..], t, b, with);
    }
  }

  lemma {:induction false} ReplaceAbsent(s: seq<byte>, b: byte, with: seq<byte>)
    requires b !in s
    ensures Replace(s, b, with) == s
  {
    if s != [] {
      var tail := s[1..];
      assert s == [s[0]] + tail;
      ReplaceAbsent(tail, b, with);
    }
  }

  lemma ReplaceSingle(b: byte, with: seq<byte>)
    ensures Replace([b], b, with) == with
  {
    assert Replace([], b, with) == [];
  }

  lemma EscapeOfConcat(s: seq<byte>, t: seq<byte>)
    ensures EscapeTsv(s + t) == EscapeTsv(s) + EscapeTsv(t)
  {
    var b1, b2, b3 := [BACKSLASH, BACKSLASH], [BACKSLASH, 't' as int], [BACKSLASH, 'r' as int];
    var s1, t1 := Replace(s, BACKSLASH, b1), Replace(t, BACKSLASH, b1);
    ReplaceOfConcat(s, t, BACKSLASH, b1);
    var s2, t2 := Replace(s1, TAB, b2), Replace(t1, TAB, b2);
    ReplaceOfConcat(s1, t1, TAB, b2);
    var s3, t3 := Replace(s2, RETURN, b3), Replace(t2, RETURN, b3);
    ReplaceOfConcat(s2, t2, RETURN, b3);
    ReplaceOfConcat(s3, t3, NEWLINE, [BACKSLASH, 'n' as int]);
  }

  /** What the earlier replacements produce is never touched by the later ones. */
  lemma EscapeOfOne(b: byte)
    ensures EscapeTsv([b]) == TsvUnit(b)
  {
    var u := TsvUnit(b);
    var replaced := if b == BACKSLASH then u else [b];
    if b == BACKSLASH { ReplaceSingle(b, u); } else { ReplaceAbsent([b], BACKSLASH, [BACKSLASH, BACKSLASH]); }
    if b == TAB { ReplaceSingle(b, u); } else { ReplaceAbsent(replaced, TAB, [BACKSLASH, 't' as int]); }
    replaced := if b == BACKSLASH || b == TAB then u else [b];
    if b == RETURN { ReplaceSingle(b, u); } else { ReplaceAbsent(replaced, RETURN, [BACKSLASH, 'r' as int]); }
    replaced := if b == NEWLINE then [b] else u;
    if b == NEWLINE { ReplaceSingle(b, u); } else { ReplaceAbsent(replaced, NEWLINE, [BACKSLASH, 'n' as int]); }
  }

  /** The four passes are one substitution: no pass disturbs another's output. */
  lemma {:induction false} EscapeIsSubstitution(value: seq<byte>)
    ensures EscapeTsv(value) == SubstituteTsv(value)
  {
    if value != [] {
      assert value == [value[0]] + value[1..];
      EscapeOfConcat([value[0]], value[1..]);
      EscapeOfOne(value[0]);
      EscapeIsSubstitution(value[1..]);
    }
  }

  lemma UnescapeUnit(b: byte, rest: seq<byte>)
    ensures UnescapeTsv(TsvUnit(b) + rest) == Prepend([b], UnescapeTsv(rest))
  {
    var s := TsvUnit(b) + rest;
    assert s[|TsvUnit(b)|..] == rest;
    if TsvLetter(b).Some? {
      assert TsvValue(s[1]) == Some(b);
    }
  }

  lemma {:induction false} UnescapeOfSubstitute(value: seq<byte>)
    ensures UnescapeTsv(SubstituteTsv(value)) == Some(value)
  {
    if value != [] {
      UnescapeUnit(value[0], SubstituteTsv(value[1..]));
      UnescapeOfSubstitute(value[1..]);
      assert [value[0]] + value[1..] == value;
    }
  }

  lemma {:induction false} SubstituteOfUnescape(s: seq<byte>)
    requires UnescapeTsv(s).Some?
    ensures SubstituteTsv(UnescapeTsv(s).value) == s
    decreases |s|
  {
    if s != [] {
      var n := if s[0] == BACKSLASH then 2 else 1;
      SubstituteOfUnescape(s[n..]);
      var b := if n == 2 then TsvValue(s[1]).value else s[0];
      assert UnescapeTsv(s) == Prepend([b], UnescapeTsv(s[n..]));
      assert TsvUnit(b) == s[..n];
      assert ([b] + UnescapeTsv(s[n..]).value)[1..] == UnescapeTsv(s[n..]).value;
    }
  }

  /** Escaping is undone by unescaping, and only an escaped form is accepted. */
  lemma TsvRoundTrip(value: seq<byte>, s: seq<byte>)
    ensures UnescapeTsv(s) == Some(value) <==> s == EscapeTsv(value)
  {
    EscapeIsSubstitution(value);
    UnescapeOfSubstitute(value);
    if UnescapeTsv(s).Some? {
      SubstituteOfUnescape(s);
    }
  }

  lemma {:induction false} EscapedFieldIsOneCell(value: seq<byte>)
    ensures forall b | b in EscapeTsv(value) :: b != TAB && b != RETURN && b != NEWLINE
  {
    EscapeIsSubstitution(value);
    if value != [] {
      EscapedFieldIsOneCell(value[1..]);
      EscapeIsSubstitution(value[1..]);
    }
  }

  // ------------------------------------------------------------------
  // Assuan data
  // ------------------------------------------------------------------

  datatype AssuanError = InvalidEscape | Oversized | TooLong | Cancelled | Unexpected

  /** One octet, plain or escaped, and how much input spells it. */
  function Octet(input: seq<byte>): (r: Option<(byte, nat)>)
    requires input != []
    ensures r.Some? ==> 1 <= r.value.1 <= 3 && r.value.1 <= |input|
  {
    if input[0] != PERCENT then Some((input[0], 1))
    else if |input| < 3 then None
    else
      match (HexDigitValue(input[1]), HexDigitValue(input[2]))
      case (Some(high), Some(low)) => Some((high * 16 + low, 3))
      case _ => None
  }

  /** The octets an escaped form denotes. */
  function Decoded(input: seq<byte>): (r: Option<seq<byte>>)
    ensures r.Some? ==> |r.value| <= |input| <= 3 * |r.value|
  {
    if input == [] then Some([])
    else
      match Octet(input)
      case None => None
      case Some((b, n)) => Prepend([b], Decoded(input[n..]))
  }

  /** The octets before the first unsound escape. */
  function SoundPart(input: seq<byte>): seq<byte> {
    if input == [] then []
    else
      match Octet(input)
      case None => []
      case Some((b, n)) => [b] + SoundPart(input[n..])
  }

  lemma {:induction false} SoundInputIsDecoded(input: seq<byte>)
    ensures Decoded(input).Some? ==> Decoded(input).value == SoundPart(input)
    decreases |input|
  {
    if input != [] && Octet(input).Some? {
      SoundInputIsDecoded(input[Octet(input).value.1..]);
    }
  }

  /** The PIN bound is exceeded before any unsound escape is met. */
  predicate Overflows(input: seq<byte>, before: seq<byte>) {
    SoundPart(input) != [] && |before| + |SoundPart(input)| > MAX_PIN_BYTES
  }

  /** Appending the decoded octets within the PIN bound, or the first error. */
  function Appended(input: seq<byte>, before: seq<byte>): Result<seq<byte>, AssuanError> {
    if Overflows(input, before) then Failure(Oversized)
    else if Decoded(input) == None then Failure(InvalidEscape)
    else Success(before + Decoded(input).value)
  }

  /** The loop's step: one octet and where the next one starts. */
  method NextOctet(input: seq<byte>, index: nat) returns (r: Option<(byte, nat)>)
    requires index < |input|
    ensures match Octet(input[index..])
            case None => r == None
            case Some((b, n)) => r == Some((b, index + n)) && input[index..][n..] == input[index + n..]
  {
    ghost var from := input[index..];
    if input[index] == PERCENT {
      if index + 2 >= |input| {
        return None;
      }
      var high, low := HexDigitValue(input[index + 1]), HexDigitValue(input[index + 2]);
      if high == None || low == None {
        return None;
      }
      assert from[3..] == input[index + 3..];
      return Some((high.value * 16 + low.value, index + 3));
    }
    assert from[1..] == input[index + 1..];
    return Some((input[index], index + 1));
  }

  /** One octet within the PIN bound, or an emptied buffer. */
  method PushBounded(output: Buffer, b: byte) returns (ok: bool)
    modifies output
    ensures ok <==> |old(output.data)| < MAX_PIN_BYTES
    ensures output.data == if ok then old(output.data) + [b] else []
  {
    ok := |output.data| < MAX_PIN_BYTES;
    if ok {
      output.Push(b);
    } else {
      output.data := [];
    }
  }

  /** `append_assuan_data`: on an oversized value the output is wiped; at an
      unsound escape what came before it has been appended. */
  method AppendAssuanData(input: seq<byte>, output: Buffer) returns (r: Result<(), AssuanError>)
    modifies output
    ensures match Appended(input, old(output.data))
            case Success(value) => r == Success(()) && output.data == value
            case Failure(e) => r == Failure(e)
    ensures output.data == if r == Failure(Oversized) then [] else old(output.data) + SoundPart(input)
  {
    ghost var start := output.data;
    var index := 0;
    ghost var done: seq<byte> := [];
    NothingDecoded(input);
    assert input[0..] == input && start + [] == start;
    while index < |input|
      invariant 0 <= index <= |input|
      invariant output.data == start + done
      invariant Halfway(input, start, done, input[index..])
    {
      var next := NextOctet(input, index);
      if next == None {
        StoppedAtEscape(input, start, done, input[index..]);
        return Failure(InvalidEscape);
      }
      var b := next.value.0;
      OneOctetMore(input, start, done, input[index..]);
      index := next.value.1;
      var fits := PushBounded(output, b);
      if !fits {
        return Failure(Oversized);
      }
      Associate(start, done, [b]);
      done := done + [b];
    }
    AllDecoded(input, start, done);
    return Success(());
  }

  /** `done` has been decoded and appended to `start`; `rest` is still to come. */
  ghost predicate Halfway(input: seq<byte>, start: seq<byte>, done: seq<byte>, rest: seq<byte>) {
    && (done == [] || |start| + |done| <= MAX_PIN_BYTES)
    && Prepend(done, Decoded(rest)) == Decoded(input) && done + SoundPart(rest) == SoundPart(input)
  }

  lemma NothingDecoded(input: seq<byte>)
    ensures Prepend([], Decoded(input)) == Decoded(input) && [] + SoundPart(input) == SoundPart(input)
  {
    PrependNothing(Decoded(input));
  }

  lemma OneOctetMore(input: seq<byte>, start: seq<byte>, done: seq<byte>, rest: seq<byte>)
    requires Halfway(input, start, done, rest) && rest != [] && Octet(rest).Some?
    ensures var (b, n) := Octet(rest).value;
            if |start| + |done| < MAX_PIN_BYTES then Halfway(input, start, done + [b], rest[n..])
            else Appended(input, start) == Failure(Oversized)
  {
    var (b, n) := Octet(rest).value;
    PrependTwice(done, b, Decoded(rest[n..]));
    Associate(done, [b], SoundPart(rest[n..]));
  }

  lemma StoppedAtEscape(input: seq<byte>, start: seq<byte>, done: seq<byte>, rest: seq<byte>)
    requires Halfway(input, start, done, rest) && rest != [] && Octet(rest) == None
    ensures Appended(input, start) == Failure(InvalidEscape) && SoundPart(input) == done
  {
    assert done + [] == done;
  }

  lemma AllDecoded(input: seq<byte>, start: seq<byte>, done: seq<byte>)
    requires Halfway(input, start, done, [])
    ensures Appended(input, start) == Success(start + done) && SoundPart(input) == done
  {
    assert done + [] == done;
  }

  predicate IsPlain(b: byte) {
    || '0' as int <= b <= '9' as int || 'A' as int <= b <= 'Z' as int || 'a' as int <= b <= 'z' as int
    || b == ' ' as int || b == '.' as int || b == ',' as int || b == ':' as int || b == '-' as int || b == '_' as int
  }

  function UpperHexDigit(n: nat): (b: byte)
    requires n < 16
    ensures HexDigitValue(b) == Some(n) && IsPlain(b)
  {
    if n < 10 then '0' as int + n else 'A' as int + (n - 10)
  }

  lemma UpperCaseDigit(n: nat)
    requires n < 16
    ensures UpperHexDigit(n) == Ascii("0123456789ABCDEF")[n]
  {
    HexDigitsAreRead(UpperHexDigit(n), n);
    HexDigitsAreRead(HexDigit(n), n);
  }

  lemma PunctuationIsPlain(b: byte)
    ensures b in Ascii(" .,:-_") <==>
            b == ' ' as int || b == '.' as int || b == ',' as int || b == ':' as int || b == '-' as int || b == '_' as int
  {
    var marks := Ascii(" .,:-_");
    assert marks == [' ' as int, '.' as int, ',' as int, ':' as int, '-' as int, '_' as int];
  }

  function AssuanUnit(b: byte): (s: seq<byte>)
    ensures 1 <= |s| <= 3
  {
    if IsPlain(b) then [b] else [PERCENT, UpperHexDigit(b / 16), UpperHexDigit(b % 16)]
  }

  method EscapeOctet(b: byte) returns (unit: seq<byte>)
    ensures unit == AssuanUnit(b)
  {
    var alphanumeric := '0' as int <= b <= '9' as int || 'A' as int <= b <= 'Z' as int || 'a' as int <= b <= 'z' as int;
    PunctuationIsPlain(b);
    if alphanumeric || b in Ascii(" .,:-_") {
      return [b];
    }
    UpperCaseDigit(b / 16);
    UpperCaseDigit(b % 16);
    var digits := Ascii("0123456789ABCDEF");
    return ['%' as int, digits[b / 16], digits[b % 16]];
  }

  ghost function Escaped(value: seq<byte>): seq<byte> {
    if value == [] then [] else AssuanUnit(value[0]) + Escaped(value[1..])
  }

  /** `assuan_escape`. */
  method AssuanEscape(value: Text) returns (escaped: seq<byte>)
    ensures escaped == Escaped(value)
  {
    escaped := [];
    assert value[0..] == value;
    for i := 0 to |value|
      invariant escaped + Escaped(value[i..]) == Escaped(value)
    {
      ghost var before, rest := escaped, Escaped(value[i + 1..]);
      assert value[i..][1..] == value[i + 1..];
      var unit := EscapeOctet(value[i]);
      escaped := escaped + unit;
      Associate(before, AssuanUnit(value[i]), rest);
    }
    assert value[|value|..] == [];
  }

  lemma DecodedUnit(b: byte, rest: seq<byte>)
    ensures Decoded(AssuanUnit(b) + rest) == Prepend([b], Decoded(rest))
    ensures SoundPart(AssuanUnit(b) + rest) == [b] + SoundPart(rest)
  {
    var s := AssuanUnit(b) + rest;
    assert s[|AssuanUnit(b)|..] == rest;
  }

  lemma {:induction false} DecodedOfEscaped(value: seq<byte>)
    ensures Decoded(Escaped(value)) == Some(value)
  {
    if value != [] {
      DecodedUnit(value[0], Escaped(value[1..]));
      DecodedOfEscaped(value[1..]);
      assert [value[0]] + value[1..] == value;
    }
  }

  /** Reading an escaped value back into an empty buffer gives the value exactly
      when it has at most 64 octets; otherwise it is refused. */
  lemma AssuanRoundTrip(value: seq<byte>)
    ensures Appended(Escaped(value), []) == if |value| <= MAX_PIN_BYTES then Success(value) else Failure(Oversized)
  {
    DecodedOfEscaped(value);
    SoundInputIsDecoded(Escaped(value));
    assert [] + value == value;
  }

  /** An escaped value fits on one protocol line. */
  lemma {:induction false} EscapedIsOneLine(value: seq<byte>)
    ensures forall b | b in Escaped(value) :: IsPlain(b) || b == PERCENT
    ensures NEWLINE !in Escaped(value) && RETURN !in Escaped(value)
  {
    if value != [] {
      EscapedIsOneLine(value[1..]);
    }
  }

  // ------------------------------------------------------------------
  // The dialog's answer
  // ------------------------------------------------------------------

  const MAX_PINENTRY_LINE_BYTES: nat := 16384

  function WithoutReturn(line: seq<byte>): seq<byte> {
    if line != [] && line[|line| - 1] == RETURN then line[..|line| - 1] else line
  }

  /** A line of bounded length, its newline and an optional carriage return removed. */
  function DialogLine(input: seq<byte>): (r: Option<(seq<byte>, seq<byte>)>)
    ensures r.Some? ==> |r.value.1| < |input|
  {
    var n := IndexOf(input, NEWLINE);
    if n < |input| && n + 1 <= MAX_PINENTRY_LINE_BYTES then Some((WithoutReturn(input[..n]), input[n + 1..])) else None
  }

  datatype Kind = Data(payload: seq<byte>) | Skipped | Finished | Refused | Other

  predicate Says(line: seq<byte>, word: seq<byte>) {
    line == word || word + [SPACE] <= line
  }

  ghost function KindOf(line: seq<byte>): Kind {
    if ['D' as int, SPACE] <= line then Data(line[2..])
    else if line == ['D' as int] || ['S' as int, SPACE] <= line then Skipped
    else if Says(line, ['O' as int, 'K' as int]) then Finished
    else if Says(line, ['E' as int, 'R' as int, 'R' as int]) then Refused
    else Other
  }

  /** The data collected up to the line that ends the answer, and the rest of the
      stream, or the first error. */
  ghost function Answer(input: seq<byte>, data: seq<byte>): Result<(seq<byte>, seq<byte>), AssuanError>
    decreases |input|
  {
    match DialogLine(input)
    case None => Failure(TooLong)
    case Some((line, rest)) =>
      match KindOf(line)
      case Data(payload) =>
        (match Appended(payload, data)
         case Failure(e) => Failure(e)
         case Success(more) => Answer(rest, more))
      case Skipped => Answer(rest, data)
      case Finished => Success((data, rest))
      case Refused => Failure(Cancelled)
      case Other => Failure(Unexpected)
  }

  /** `read_bounded_line`. */
  method ReadBoundedLine(input: Cursor) returns (r: Result<seq<byte>, AssuanError>)
    modifies input
    ensures r.Success? <==> DialogLine(old(input.rest)).Some?
    ensures r.Success? ==> (r.value, input.rest) == DialogLine(old(input.rest)).value
    ensures r.Failure? ==> r.error == TooLong
  {
    ghost var start := input.rest;
    var line := ReadUntilNewline(input, MAX_PINENTRY_LINE_BYTES + 1);
    if line == [] || line[|line| - 1] != NEWLINE || |line| > MAX_PINENTRY_LINE_BYTES {
      NoShortLine(start, line, input.rest, MAX_PINENTRY_LINE_BYTES);
      return Failure(TooLong);
    }
    line := line[..|line| - 1];
    assert start == line + ([NEWLINE] + input.rest);
    IndexAfter(line, NEWLINE, input.rest);
    if line != [] && line[|line| - 1] == RETURN {
      line := line[..|line| - 1];
    }
    return Success(line);
  }

  /** What a line is, by its first word. */
  method Classify(line: seq<byte>) returns (kind: Kind)
    ensures kind == KindOf(line)
  {
    DialogWords();
    var startsData, startsStatus := Ascii("D ") <= line, Ascii("S ") <= line;
    if startsData {
      return Data(line[2..]);
    }
    if line == Ascii("D") || startsStatus {
      return Skipped;
    }
    var finished := line == Ascii("OK") || Ascii("OK ") <= line;
    if finished {
      return Finished;
    }
    var refused := line == Ascii("ERR") || Ascii("ERR ") <= line;
    return if refused then Refused else Other;
  }

  lemma DialogWords()
    ensures Ascii("D") == ['D' as int] && Ascii("D ") == ['D' as int, SPACE] && Ascii("S ") == ['S' as int, SPACE]
    ensures Ascii("OK") == ['O' as int, 'K' as int] && Ascii("OK ") == ['O' as int, 'K' as int] + [SPACE]
    ensures Ascii("ERR") == ['E' as int, 'R' as int, 'R' as int]
    ensures Ascii("ERR ") == ['E' as int, 'R' as int, 'R' as int] + [SPACE]
  {
  }

  /** `read_pinentry_response`. */
  method ReadPinentryResponse(output: Cursor) returns (r: Result<seq<byte>, AssuanError>)
    modifies output
    ensures match Answer(old(output.rest), [])
            case Success((data, rest)) => r == Success(data) && output.rest == rest
            case Failure(e) => r == Failure(e)
  {
    ghost var start := output.rest;
    var data := new Buffer();
    while true
      invariant fresh(data)
      invariant Answer(output.rest, data.data) == Answer(start, [])
      decreases |output.rest|
    {
      var line := ReadBoundedLine(output);
      if line.Failure? {
        return Failure(line.error);
      }
      var kind := Classify(line.value);
      match kind {
        case Data(payload) =>
          var appended := AppendAssuanData(payload, data);
          if appended.Failure? {
            return Failure(appended.error);
          }
        case Skipped =>
        case Finished => return Success(data.data);
        case Refused => return Failure(Cancelled);
        case Other => return Failure(Unexpected);
      }
    }
  }

  /** Everything the data lines denote, in order. */
  ghost function Payloads(lines: seq<seq<byte>>): Option<seq<byte>> {
    if lines == [] then Some([])
    else
      match KindOf(lines[0])
      case Data(payload) =>
        (match Decoded(payload)
         case None => None
         case Some(value) => Prepend(value, Payloads(lines[1..])))
      case Skipped => Payloads(lines[1..])
      case _ => None
  }

  function Transcript(lines: seq<seq<byte>>): seq<byte> {
    if lines == [] then [] else lines[0] + ([NEWLINE] + Transcript(lines[1..]))
  }

  /** A line that is read as it was written. */
  predicate IsDialogLine(line: seq<byte>) {
    NEWLINE !in line && WithoutReturn(line) == line && |line| < MAX_PINENTRY_LINE_BYTES
  }

  lemma DialogLineOf(line: seq<byte>, rest: seq<byte>)
    requires IsDialogLine(line)
    ensures DialogLine(line + ([NEWLINE] + rest)) == Some((line, rest))
  {
    IndexAfter(line, NEWLINE, rest);
    var s := line + ([NEWLINE] + rest);
    assert s[..|line|] == line && s[|line| + 1..] == rest;
  }

  /** A value on one data line, then "OK": the answer is the value, or it is
      refused as too large if it has more than 64 octets. */
  lemma DialogGivesTheValue(value: seq<byte>, extra: seq<byte>)
    requires |Escaped(value)| + 3 <= 16384
    ensures Answer((Ascii("D ") + Escaped(value)) + ([NEWLINE] + (Ascii("OK") + ([NEWLINE] + extra))), [])
            == if |value| <= 64 then Success((value, extra)) else Failure(Oversized)
  {
    var rest := Ascii("OK") + ([NEWLINE] + extra);
    DataLine(value, rest);
    AssuanRoundTrip(value);
    OkEndsTheAnswer(extra, value);
  }

  lemma DataLine(value: seq<byte>, rest: seq<byte>)
    requires |Escaped(value)| + 3 <= 16384
    ensures var line := Ascii("D ") + Escaped(value);
            && DialogLine(line + ([NEWLINE] + rest)) == Some((line, rest))
            && KindOf(line) == Data(Escaped(value))
  {
    var line := Ascii("D ") + Escaped(value);
    DialogWords();
    EscapedIsOneLine(value);
    if |line| > 2 {
      assert line[|line| - 1] in Escaped(value);
    }
    DialogLineOf(line, rest);
    assert line[2..] == Escaped(value);
  }

  lemma OkEndsTheAnswer(extra: seq<byte>, data: seq<byte>)
    ensures Answer(Ascii("OK") + ([NEWLINE] + extra), data) == Success((data, extra))
  {
    DialogWords();
    DialogLineOf(Ascii("OK"), extra);
  }

  /** "ERR", alone or with a message, cancels the entry whatever was read before. */
  lemma DialogCancels(message: seq<byte>, extra: seq<byte>, data: seq<byte>)
    requires NEWLINE !in message && |message| + 4 <= 16384
    requires message == [] || message[0] == SPACE
    ensures Answer((Ascii("ERR") + message) + ([NEWLINE] + extra), data) == Failure(Cancelled)
  {
    var word := Ascii("ERR");
    var line := word + message;
    var input := line + ([NEWLINE] + extra);
    DialogWords();
    IndexAfter(line, NEWLINE, extra);
    assert input[..|line|] == line && input[|line| + 1..] == extra;
    var said := WithoutReturn(line);
    assert DialogLine(input) == Some((said, extra));
    if message == [] {
      assert said == word;
    } else {
      assert said[..4] == word + [SPACE];
    }
  }

  /** However the dialog splits a value over data lines, and whatever status lines
      it mixes in, the answer is the whole value in order if every escape is
      sound and the total has at most 64 octets, and is refused otherwise. */
  lemma {:induction false} AnswerIsTheWholeValue(lines: seq<seq<byte>>, last: seq<byte>, extra: seq<byte>, data: seq<byte>)
    requires forall i | 0 <= i < |lines| :: IsDialogLine(lines[i]) && (KindOf(lines[i]).Data? || KindOf(lines[i]).Skipped?)
    requires IsDialogLine(last) && KindOf(last).Finished?
    requires |data| <= MAX_PIN_BYTES
    ensures var answer := Answer(Transcript(lines) + (last + ([NEWLINE] + extra)), data);
            if Payloads(lines).Some? && |data| + |Payloads(lines).value| <= MAX_PIN_BYTES
            then answer == Success((data + Payloads(lines).value, extra))
            else answer == Failure(InvalidEscape) || answer == Failure(Oversized)
    decreases |lines|
  {
    var ending := last + ([NEWLINE] + extra);
    if lines == [] {
      assert Transcript(lines) + ending == ending;
      DialogLineOf(last, extra);
      assert data + [] == data;
    } else {
      var rest := Transcript(lines[1..]) + ending;
      assert Transcript(lines) + ending == lines[0] + ([NEWLINE] + rest);
      DialogLineOf(lines[0], rest);
      if KindOf(lines[0]).Skipped? {
        AnswerIsTheWholeValue(lines[1..], last, extra, data);
      } else {
        var payload := KindOf(lines[0]).payload;
        SoundInputIsDecoded(payload);
        if Appended(payload, data).Success? {
          var more := Appended(payload, data).value;
          AnswerIsTheWholeValue(lines[1..], last, extra, more);
          if Payloads(lines[1..]).Some? {
            Associate(data, Decoded(payload).value, Payloads(lines[1..]).value);
          }
        }
      }
    }
  }
}

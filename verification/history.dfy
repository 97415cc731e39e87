/** The signing history: a file holding the newest 200 entries, rewritten as a
    whole on every append. */
module Histories {
  import opened Wrappers
  import opened Bytes
  import opened Texts
  import opened Keys
  import KeyRecord
  import opened ListCodec
  import opened Disk
  import opened AtomicFile
  import opened Durability
  import opened Chains

  const MAX_ENTRIES: nat := 200

  /** "KEYHST", a zero octet and the version. */
  const MAGIC: seq<byte> := ['K' as int, 'E' as int, 'Y' as int, 'H' as int, 'S' as int, 'T' as int, 0, 1]

  datatype Outcome = Succeeded | Failed

  datatype Entry = Entry(timestamp: u64, keyId: Text, keyName: Text, policy: UsePolicy, outcome: Outcome)

  datatype HistoryError = Io | InvalidData

  type Log = seq<Entry>

  predicate ValidEntry(e: Entry) {
    TextInRange(e.keyId) && TextInRange(e.keyName)
  }

  /** `validate_entry`. */
  method CheckEntry(e: Entry) returns (ok: bool)
    ensures ok <==> ValidEntry(e)
  {
    return !(e.keyId == [] || |e.keyId| > 4096 || e.keyName == [] || |e.keyName| > 4096);
  }

  predicate ValidLog(log: Log) {
    |log| <= MAX_ENTRIES && forall i | 0 <= i < |log| :: ValidEntry(log[i])
  }

  // ------------------------------------------------------------------
  // Codec
  // ------------------------------------------------------------------

  function OutcomeTag(outcome: Outcome): byte {
    match outcome
    case Succeeded => 1
    case Failed => 2
  }

  function ReadOutcome(tag: byte): Option<Outcome> {
    if tag == 1 then Some(Succeeded) else if tag == 2 then Some(Failed) else None
  }

  function EncodeEntry(e: Entry): seq<byte>
    requires ValidEntry(e)
  {
    U64(e.timestamp) + (Prefixed(e.keyId) + (Prefixed(e.keyName) + Tags(e)))
  }

  function Tags(e: Entry): (s: seq<byte>)
    ensures |s| == 2
  {
    [KeyRecord.PolicyTag(e.policy), OutcomeTag(e.outcome)]
  }

  /** The entry codec as values, for the list codec. */
  function Put(): Entry -> seq<byte> {
    (e: Entry) => if ValidEntry(e) then EncodeEntry(e) else []
  }

  function Get(): seq<byte> -> Option<(Entry, seq<byte>)> {
    (input: seq<byte>) => ReadEntry(input)
  }

  function Accepts(): Entry -> bool {
    (e: Entry) => ValidEntry(e)
  }

  ghost predicate IsPut(put: Entry -> seq<byte>) {
    forall e: Entry {:trigger EncodeEntry(e)} :: ValidEntry(e) ==> put(e) == EncodeEntry(e)
  }

  ghost predicate IsGet(get: seq<byte> -> Option<(Entry, seq<byte>)>) {
    forall input: seq<byte> {:trigger ReadEntry(input)} :: get(input) == ReadEntry(input)
  }

  function Encode(log: Log): seq<byte>
    requires ValidLog(log)
  {
    MAGIC + (U32(|log|) + Join(Put(), log))
  }

  /** The octets of a log, written out: "KEYHST", 0, 1, the number of entries, at
      most 200, and for each entry its time, its two texts, one octet for the policy
      and one for the outcome. */
  lemma LogOctets(log: Log, e: Entry)
    requires ValidLog(log) && ValidEntry(e)
    ensures |log| <= 200 && Encode(log) == Ascii("KEYHST") + [0, 1] + U32(|log|) + Join(Put(), log)
    ensures var policy, outcome := if e.policy == NoPin then 1 else 2, if e.outcome == Succeeded then 1 else 2;
            Put()(e) == U64(e.timestamp) + Prefixed(e.keyId) + Prefixed(e.keyName) + [policy] + [outcome]
  {
    assert MAGIC == Ascii("KEYHST") + [0, 1];
    Associate(MAGIC, U32(|log|), Join(Put(), log));
    EntryLayout([], U64(e.timestamp), Prefixed(e.keyId), Prefixed(e.keyName),
                KeyRecord.PolicyTag(e.policy), OutcomeTag(e.outcome));
    assert [] + U64(e.timestamp) == U64(e.timestamp);
    assert [] + EncodeEntry(e) == EncodeEntry(e);
  }

  /** A bounded, valid UTF-8 string at the front of the input. */
  function ReadText(input: seq<byte>): (r: Option<(Text, seq<byte>)>)
    ensures r.Some? ==> |r.value.0| <= MAX_TEXT_LEN && input == Prefixed(r.value.0) + r.value.1
  {
    match ReadString(input)
    case None => None
    case Some((bytes, rest)) => if |bytes| <= MAX_TEXT_LEN && ValidUtf8(bytes) then Some((bytes, rest)) else None
  }

  function Assemble(timestamp: u64, keyId: Text, keyName: Text, policy: Option<UsePolicy>, outcome: Option<Outcome>): Option<Entry> {
    if policy == None || outcome == None then None
    else
      var e := Entry(timestamp, keyId, keyName, policy.value, outcome.value);
      if ValidEntry(e) then Some(e) else None
  }

  function ReadTags(timestamp: u64, keyId: Text, keyName: Text, input: seq<byte>): Option<(Entry, seq<byte>)> {
    if |input| < 2 then None
    else
      match Assemble(timestamp, keyId, keyName, KeyRecord.ReadPolicy(input[0]), ReadOutcome(input[1]))
      case None => None
      case Some(e) => Some((e, input[2..]))
  }

  function ReadNames(timestamp: u64, input: seq<byte>): Option<(Entry, seq<byte>)> {
    match ReadText(input)
    case None => None
    case Some((keyId, afterId)) =>
      match ReadText(afterId)
      case None => None
      case Some((keyName, afterName)) => ReadTags(timestamp, keyId, keyName, afterName)
  }

  function ReadEntry(input: seq<byte>): Option<(Entry, seq<byte>)> {
    if |input| < 8 then None
    else
      U64OfValue(input[..8]);
      ReadNames(Value(input[..8]), input[8..])
  }

  function Decode(bytes: seq<byte>): Option<Log> {
    if |bytes| < 12 || bytes[..8] != MAGIC || Value(bytes[8..12]) > MAX_ENTRIES then None
    else Split(Get(), bytes[12..], Value(bytes[8..12]))
  }

  lemma ReadTextOfPrefixed(text: Text, rest: seq<byte>)
    requires |text| <= MAX_TEXT_LEN
    ensures ReadText(Prefixed(text) + rest) == Some((text, rest))
  {
    ReadPrefixed(text, rest);
  }

  lemma ReadTagsOfTags(e: Entry, rest: seq<byte>)
    requires ValidEntry(e)
    ensures ReadTags(e.timestamp, e.keyId, e.keyName, Tags(e) + rest) == Some((e, rest))
  {
    assert (Tags(e) + rest)[2..] == rest;
  }

  lemma ReadEntryOfEncode(e: Entry, rest: seq<byte>)
    requires ValidEntry(e)
    ensures ReadEntry(EncodeEntry(e) + rest) == Some((e, rest))
  {
    var afterName := Tags(e) + rest;
    var afterId := Prefixed(e.keyName) + afterName;
    var input := EncodeEntry(e) + rest;
    assert input == U64(e.timestamp) + (Prefixed(e.keyId) + afterId);
    assert input[..8] == U64(e.timestamp) && input[8..] == Prefixed(e.keyId) + afterId;
    ReadTextOfPrefixed(e.keyId, afterId);
    ReadTextOfPrefixed(e.keyName, afterName);
    ReadTagsOfTags(e, rest);
  }

  lemma EncodeOfReadEntry(input: seq<byte>)
    requires ReadEntry(input).Some?
    ensures var (e, rest) := ReadEntry(input).value;
            ValidEntry(e) && input == EncodeEntry(e) + rest
  {
    U64OfValue(input[..8]);
    NamesOfRead(Value(input[..8]), input[8..]);
    assert input == input[..8] + input[8..];
  }

  lemma NamesOfRead(timestamp: u64, input: seq<byte>)
    requires ReadNames(timestamp, input).Some?
    ensures var (e, rest) := ReadNames(timestamp, input).value;
            && ValidEntry(e) && e.timestamp == timestamp
            && input == Prefixed(e.keyId) + (Prefixed(e.keyName) + (Tags(e) + rest))
  {
    var (keyId, afterId) := ReadText(input).value;
    var (keyName, afterName) := ReadText(afterId).value;
    TagsOfRead(timestamp, keyId, keyName, afterName);
  }

  lemma TagsOfRead(timestamp: u64, keyId: Text, keyName: Text, input: seq<byte>)
    requires ReadTags(timestamp, keyId, keyName, input).Some?
    ensures var (e, rest) := ReadTags(timestamp, keyId, keyName, input).value;
            && ValidEntry(e) && (e.timestamp, e.keyId, e.keyName) == (timestamp, keyId, keyName)
            && input == Tags(e) + rest
  {
  }

  lemma EntriesAreReadBack()
    ensures Inverse(Put(), Get(), Accepts())
  {
    var put, get, accepts := Put(), Get(), Accepts();
    forall e: Entry, rest: seq<byte> | accepts(e) ensures get(put(e) + rest) == Some((e, rest)) {
      ReadEntryOfEncode(e, rest);
    }
    forall input: seq<byte> | get(input).Some?
      ensures accepts(get(input).value.0) && input == put(get(input).value.0) + get(input).value.1
    {
      EncodeOfReadEntry(input);
    }
  }

  lemma SplitIffJoin(put: Entry -> seq<byte>, get: seq<byte> -> Option<(Entry, seq<byte>)>, accepts: Entry -> bool,
                     input: seq<byte>, count: nat, log: Log)
    requires Inverse(put, get, accepts)
    ensures Split(get, input, count) == Some(log) <==> |log| == count && AllAccepted(accepts, log) && Join(put, log) == input
  {
    if Split(get, input, count).Some? {
      JoinOfSplit(put, get, accepts, input, count);
    }
    if |log| == count && AllAccepted(accepts, log) && Join(put, log) == input {
      SplitOfJoin(put, get, accepts, log);
    }
  }

  lemma EncodeLayout(bytes: seq<byte>, count: nat, entries: seq<byte>)
    requires count <= MAX_ENTRIES
    ensures bytes == MAGIC + (U32(count) + entries)
            <==> |bytes| >= 12 && bytes[..8] == MAGIC && Value(bytes[8..12]) == count && bytes[12..] == entries
  {
    var layout := MAGIC + (U32(count) + entries);
    assert layout[8..12] == U32(count) && layout[12..] == entries;
    if |bytes| >= 12 {
      U32OfValue(bytes[8..12]);
      assert bytes == bytes[..8] + (bytes[8..12] + bytes[12..]);
    }
  }

  /** Decoding answers a log exactly for that valid log's own encoding. */
  lemma DecodeIffEncode(bytes: seq<byte>, log: Log)
    ensures Decode(bytes) == Some(log) <==> ValidLog(log) && Encode(log) == bytes
  {
    EntriesAreReadBack();
    AcceptsIsValid(log);
    if |bytes| >= 12 {
      SplitIffJoin(Put(), Get(), Accepts(), bytes[12..], Value(bytes[8..12]), log);
    }
    if |log| <= MAX_ENTRIES {
      EncodeLayout(bytes, |log|, Join(Put(), log));
    }
  }

  lemma AcceptsIsValid(log: Log)
    ensures AllAccepted(Accepts(), log) <==> forall i | 0 <= i < |log| :: ValidEntry(log[i])
  {
    forall i | 0 <= i < |log| ensures Accepts()(log[i]) == ValidEntry(log[i]) {
    }
  }

  method PushText(output: Buffer, value: Text) returns (ok: bool)
    modifies output
    ensures ok <==> |value| <= MAX_TEXT_LEN
    ensures ok ==> output.data == old(output.data) + Prefixed(value)
  {
    if |value| > MAX_TEXT_LEN {
      return false;
    }
    output.Extend(U32(|value|));
    output.Extend(value);
    assert output.data == old(output.data) + Prefixed(value);
    return true;
  }

  method PushEntry(output: Buffer, e: Entry, ghost put: Entry -> seq<byte>) returns (ok: bool)
    requires IsPut(put)
    modifies output
    ensures ok <==> ValidEntry(e)
    ensures ok ==> output.data == old(output.data) + put(e)
  {
    ok := CheckEntry(e);
    if !ok {
      return;
    }
    output.Extend(U64(e.timestamp));
    ok := PushText(output, e.keyId);
    ok := PushText(output, e.keyName);
    output.Push(KeyRecord.PolicyTag(e.policy));
    output.Push(OutcomeTag(e.outcome));
    EntryLayout(old(output.data), U64(e.timestamp), Prefixed(e.keyId), Prefixed(e.keyName),
                KeyRecord.PolicyTag(e.policy), OutcomeTag(e.outcome));
    assert put(e) == EncodeEntry(e);
  }

  lemma EntryLayout(a: seq<byte>, b: seq<byte>, c: seq<byte>, d: seq<byte>, s: byte, t: byte)
    ensures a + b + c + d + [s] + [t] == a + (b + (c + (d + [s, t])))
  {
  }

  method EncodeLog(log: Log) returns (r: Result<seq<byte>, HistoryError>)
    ensures r == if ValidLog(log) then Success(Encode(log)) else Failure(InvalidData)
  {
    if |log| > MAX_ENTRIES {
      return Failure(InvalidData);
    }
    var output := new Buffer();
    output.Extend(MAGIC);
    output.Extend(U32(|log|));
    ghost var put := Put();
    var ok := PushEntries(output, log, put);
    if !ok {
      return Failure(InvalidData);
    }
    HeaderFirst(U32(|log|), Join(put, log));
    return Success(output.data);
  }

  lemma HeaderFirst(count: seq<byte>, entries: seq<byte>)
    ensures [] + MAGIC + count + entries == MAGIC + (count + entries)
  {
  }

  method PushEntries(output: Buffer, log: Log, ghost put: Entry -> seq<byte>) returns (ok: bool)
    requires IsPut(put)
    modifies output
    ensures ok <==> forall i | 0 <= i < |log| :: ValidEntry(log[i])
    ensures ok ==> output.data == old(output.data) + Join(put, log)
  {
    assert output.data + Join(put, log[..0]) == output.data;
    for i := 0 to |log|
      invariant forall j | 0 <= j < i :: ValidEntry(log[j])
      invariant output.data == old(output.data) + Join(put, log[..i])
    {
      ok := PushEntry(output, log[i], put);
      if !ok {
        return;
      }
      JoinOneMore(put, log, i);
    }
    assert log[..|log|] == log;
    return true;
  }

  lemma JoinOneMore(put: Entry -> seq<byte>, log: Log, i: nat)
    requires i < |log|
    ensures Join(put, log[..i + 1]) == Join(put, log[..i]) + put(log[i])
  {
    assert log[..i + 1][..i] == log[..i];
  }

  method ReadTextFrom(input: Cursor) returns (r: Option<Text>)
    modifies input
    ensures match ReadText(old(input.rest))
            case Some((text, rest)) => r == Some(text) && input.rest == rest
            case None => r == None
  {
    ghost var before := input.rest;
    var length := input.TakeU32();
    if length == None {
      return None;
    }
    assert before[..4] == U32(length.value) && input.rest == before[4..];
    if length.value > MAX_TEXT_LEN {
      return None;
    }
    var text := input.Take(length.value);
    if text == None {
      return None;
    }
    assert before == Prefixed(text.value) + input.rest;
    ReadPrefixed(text.value, input.rest);
    if !ValidUtf8(text.value) {
      return None;
    }
    return Some(text.value);
  }

  method ReadEntryFrom(input: Cursor, ghost get: seq<byte> -> Option<(Entry, seq<byte>)>) returns (r: Option<Entry>)
    requires IsGet(get)
    modifies input
    ensures match get(old(input.rest))
            case Some((e, rest)) => r == Some(e) && input.rest == rest
            case None => r == None
  {
    assert get(input.rest) == ReadEntry(input.rest);
    var timestamp := input.Take(8);
    if timestamp == None {
      return None;
    }
    U64OfValue(timestamp.value);
    var keyId := ReadTextFrom(input);
    if keyId == None {
      return None;
    }
    var keyName := ReadTextFrom(input);
    if keyName == None {
      return None;
    }
    ghost var afterName := input.rest;
    var policy := input.Take(1);
    if policy == None || KeyRecord.ReadPolicy(policy.value[0]) == None {
      return None;
    }
    var outcome := input.Take(1);
    if outcome == None || ReadOutcome(outcome.value[0]) == None {
      return None;
    }
    assert input.rest == afterName[2..];
    var e := Entry(Value(timestamp.value), keyId.value, keyName.value,
                   KeyRecord.ReadPolicy(policy.value[0]).value, ReadOutcome(outcome.value[0]).value);
    var ok := CheckEntry(e);
    return if ok then Some(e) else None;
  }

  method DecodeLog(bytes: seq<byte>) returns (r: Result<Log, HistoryError>)
    ensures r == if Decode(bytes).Some? then Success(Decode(bytes).value) else Failure(InvalidData)
    ensures r.Success? ==> ValidLog(r.value) && Encode(r.value) == bytes
  {
    r := ParseLog(bytes);
    if r.Success? {
      DecodeIffEncode(bytes, r.value);
    }
  }

  method ParseLog(bytes: seq<byte>) returns (r: Result<Log, HistoryError>)
    ensures r == if Decode(bytes).Some? then Success(Decode(bytes).value) else Failure(InvalidData)
  {
    var input := new Cursor(bytes);
    var count := ReadHeader(input);
    if count == None {
      return Failure(InvalidData);
    }
    var entries := ReadEntriesFrom(input, Get(), count.value);
    return if entries.Some? then Success(entries.value) else Failure(InvalidData);
  }

  /** The magic octets and the bounded entry count. */
  method ReadHeader(input: Cursor) returns (count: Option<nat>)
    modifies input
    ensures var bytes := old(input.rest);
            && (count.Some? <==> |bytes| >= 12 && bytes[..8] == MAGIC && Value(bytes[8..12]) <= MAX_ENTRIES)
            && (count.Some? ==> count.value == Value(bytes[8..12]) && input.rest == bytes[12..])
  {
    ghost var bytes := input.rest;
    var magic := input.Take(8);
    if magic != Some(MAGIC) {
      return None;
    }
    assert input.rest == bytes[8..];
    count := input.TakeU32();
    if count == None {
      return None;
    }
    assert bytes[8..12] == U32(count.value) && input.rest == bytes[12..];
    if count.value > MAX_ENTRIES {
      return None;
    }
  }

  /** The decoding loop, and the test that nothing is left. */
  method ReadEntriesFrom(input: Cursor, ghost get: seq<byte> -> Option<(Entry, seq<byte>)>, count: nat) returns (r: Option<Log>)
    requires IsGet(get)
    modifies input
    ensures r == Split(get, old(input.rest), count)
  {
    var entries: Log := [];
    ghost var start := input.rest;
    PrependNothing(Split(get, start, count));
    for i := 0 to count
      invariant Prepend(entries, Split(get, input.rest, count - i)) == Split(get, start, count)
    {
      var e := ReadEntryFrom(input, get);
      if e == None {
        return None;
      }
      PrependTwice(entries, e.value, Split(get, input.rest, count - i - 1));
      entries := entries + [e.value];
    }
    if input.rest != [] {
      return None;
    }
    assert entries + [] == entries;
    return Some(entries);
  }

  // ------------------------------------------------------------------
  // The bounded log
  // ------------------------------------------------------------------

  /** The newest entries that are kept. */
  function Newest(log: Log): (r: Log)
    ensures |r| == if |log| <= 200 then |log| else 200
  {
    if |log| > MAX_ENTRIES then log[|log| - MAX_ENTRIES..] else log
  }

  lemma NewestOfNewest(log: Log, e: Entry)
    ensures Newest(Newest(log) + [e]) == Newest(log + [e])
  {
  }

  datatype HistoryEvent = Appended(entry: Entry, ok: bool) | PowerLost

  ghost predicate Step(a: Abstract<Log>, e: HistoryEvent, b: Abstract<Log>) {
    match e
    case Appended(entry, ok) => Commit(a, Newest(a.current + [entry]), ok, b)
    case PowerLost => Lose(a, b)
  }

  ghost function Steps(): (Abstract<Log>, HistoryEvent, Abstract<Log>) -> bool {
    (a: Abstract<Log>, e: HistoryEvent, b: Abstract<Log>) => Step(a, e, b)
  }

  ghost predicate Behaviour(states: seq<Abstract<Log>>, events: seq<HistoryEvent>) {
    Chain(Steps(), states, events)
  }

  /** Every entry offered so far, oldest first. */
  function Offered(events: seq<HistoryEvent>): Log {
    if events == [] then []
    else
      var earlier := Offered(events[..|events| - 1]);
      match events[|events| - 1]
      case Appended(entry, _) => earlier + [entry]
      case PowerLost => earlier
  }

  /** After any run of successful appends, with power losses in between, the
      history is the newest 200 of all entries, in order. */
  lemma {:induction false} HistoryIsNewest(states: seq<Abstract<Log>>, events: seq<HistoryEvent>)
    requires Behaviour(states, events)
    requires states[0] == Abstract({[]}, [])
    requires forall i | 0 <= i < |events| :: events[i].PowerLost? || events[i].ok
    ensures var log := Newest(Offered(events));
            states[|events|] == Abstract({log}, log)
    decreases |events|
  {
    if events != [] {
      var n := |events| - 1;
      HistoryIsNewest(states[..n + 1], events[..n]);
      assert Steps()(states[n], events[n], states[n + 1]);
      if events[n].Appended? {
        NewestOfNewest(Offered(events[..n]), events[n].entry);
      }
    }
  }

  // ------------------------------------------------------------------
  // The file
  // ------------------------------------------------------------------

  /** Naming and reading of the history file. */
  datatype Layout = Layout(file: Name, temporary: nat -> Name, decode: seq<byte> -> Option<Log>)
  {
    ghost function Keep(): Name -> bool {
      name => name == file
    }
  }

  ghost predicate Lawful(l: Layout) {
    forall attempt :: l.temporary(attempt) != l.file
  }

  /** A missing file is an empty history. */
  ghost predicate Represents(l: Layout, v: View, log: Log) {
    && ValidLog(log)
    && (forall name | name in v :: name == l.file)
    && (if l.file in v then v[l.file].Stable? && l.decode(v[l.file].bytes) == Some(log) else log == [])
  }

  ghost predicate Meaningful(l: Layout, v: View, possible: set<Log>) {
    exists log :: log in possible && Represents(l, v, log)
  }

  ghost predicate FileInv(l: Layout, s: State, a: Abstract<Log>) {
    && WellFormed(s)
    && (forall v | v in Views(s, l.Keep()) :: Meaningful(l, v, a.possible))
    && Represents(l, Current(s, l.Keep()), a.current)
    && a.current in a.possible
  }

  ghost predicate Between(l: Layout, s: State, before: Abstract<Log>, updated: Log) {
    || FileInv(l, s, Abstract(before.possible + {updated}, before.current))
    || FileInv(l, s, Abstract(before.possible + {updated}, updated))
  }

  lemma MixedViews(l: Layout, s: State, t: State, before: Abstract<Log>, updated: Log, v: View)
    requires FileInv(l, s, before) && Represents(l, v, updated)
    requires OldOrNew(t, l.Keep(), Views(s, l.Keep()), Current(s, l.Keep()), v)
    ensures Between(l, t, before, updated)
    ensures FileInv(l, t, Abstract(before.possible + {updated},
                                   if Current(t, l.Keep()) == Current(s, l.Keep()) then before.current else updated))
  {
    var possible := before.possible + {updated};
    forall w | w in Views(t, l.Keep()) ensures Meaningful(l, w, possible) {
      if w in Views(s, l.Keep()) {
        assert Meaningful(l, w, before.possible);
        var log :| log in before.possible && Represents(l, w, log);
        assert log in possible;
      } else {
        assert updated in possible;
      }
    }
  }

  lemma OnlyView(l: Layout, s: State, log: Log)
    requires WellFormed(s) && Represents(l, Current(s, l.Keep()), log)
    requires Views(s, l.Keep()) == [Current(s, l.Keep())]
    ensures FileInv(l, s, Abstract({log}, log))
  {
    forall v | v in Views(s, l.Keep()) ensures Meaningful(l, v, {log}) {
      assert log in {log};
    }
  }

  /** A power loss leaves one of the possible logs, whole. */
  lemma PowerLossLeavesALog(l: Layout, s: State, a: Abstract<Log>, kept: nat, garbage: nat -> seq<byte>) returns (log: Log)
    requires FileInv(l, s, a) && kept <= |s.pending|
    ensures Lose(a, Abstract({log}, log))
    ensures FileInv(l, PowerLoss(s, kept, garbage), Abstract({log}, log))
  {
    var v, t := Views(s, l.Keep())[kept], PowerLoss(s, kept, garbage);
    assert Meaningful(l, v, a.possible);
    log :| log in a.possible && Represents(l, v, log);
    PowerLossView(s, kept, garbage, l.Keep());
    assert Current(t, l.Keep()) == v;
    assert Views(t, l.Keep()) == [v];
    OnlyView(l, t, log);
  }

  /** "history.bin" and ".history.<pid>.<attempt>.tmp" */
  function FileName(): Name {
    Ascii("history.bin")
  }

  function TemporaryName(pid: nat, attempt: nat): Name {
    Ascii(".history.") + Decimal(pid) + ['.' as int] + Decimal(attempt) + Ascii(".tmp")
  }

  /** Different processes or attempts have different temporaries. */
  lemma TemporariesDiffer(pid: nat, attempt: nat, pid': nat, attempt': nat)
    ensures TemporaryName(pid, attempt) == TemporaryName(pid', attempt') <==> pid == pid' && attempt == attempt'
  {
    if TemporaryName(pid, attempt) == TemporaryName(pid', attempt') {
      var dot, tmp := '.' as int, Ascii("tmp");
      NameParts(Decimal(pid), Decimal(attempt));
      NameParts(Decimal(pid'), Decimal(attempt'));
      DecimalValueOfDecimal(pid);
      DecimalValueOfDecimal(pid');
      DecimalValueOfDecimal(attempt);
      DecimalValueOfDecimal(attempt');
      SameUpTo(dot, Decimal(pid), Decimal(attempt) + ([dot] + tmp), Decimal(pid'), Decimal(attempt') + ([dot] + tmp));
      SameUpTo(dot, Decimal(attempt), tmp, Decimal(attempt'), tmp);
      DecimalInjective(pid, pid');
      DecimalInjective(attempt, attempt');
    }
  }

  lemma NameParts(pid: seq<byte>, attempt: seq<byte>)
    ensures (Ascii(".history.") + pid + ['.' as int] + attempt + Ascii(".tmp"))[9..]
            == pid + (['.' as int] + (attempt + (['.' as int] + Ascii("tmp"))))
  {
    assert Ascii(".tmp") == ['.' as int] + Ascii("tmp");
  }

  ghost predicate Real(l: Layout, pid: nat) {
    && (forall attempt: nat {:trigger TemporaryName(pid, attempt)} :: l.temporary(attempt) == TemporaryName(pid, attempt))
    && (forall bytes: seq<byte> {:trigger Decode(bytes)} :: l.decode(bytes) == Decode(bytes))
    && l.file == FileName()
  }

  function AgentLayout(pid: nat): (l: Layout)
    ensures Real(l, pid)
  {
    Layout(FileName(), (attempt: nat) => TemporaryName(pid, attempt), (bytes: seq<byte>) => Decode(bytes))
  }

  ghost predicate HasFreeName(l: Layout, s: State) {
    exists attempt: nat :: attempt < 100 && l.temporary(attempt) !in Visible(s)
  }

  /** No temporary has been left behind. */
  ghost predicate OnlyTheFile(l: Layout, s: State) {
    Visible(s).Keys <= {l.file}
  }

  lemma RoomForTemporaries(l: Layout, pid: nat, s: State)
    requires Real(l, pid) && OnlyTheFile(l, s)
    ensures HasFreeName(l, s)
  {
    assert l.temporary(0) == TemporaryName(pid, 0) && TemporaryName(pid, 0)[0] == '.' as int;
    assert l.temporary(0) !in Visible(s);
  }

  method TemporaryNames(ghost l: Layout, pid: nat) returns (names: seq<Name>)
    requires Real(l, pid)
    ensures forall attempt: nat | attempt < 100 :: l.temporary(attempt) in names
    ensures forall name | name in names :: !l.Keep()(name)
  {
    names := seq(100, attempt requires 0 <= attempt < 100 => TemporaryName(pid, attempt));
    forall attempt: nat | attempt < 100 ensures l.temporary(attempt) in names {
      assert names[attempt] == TemporaryName(pid, attempt);
    }
    forall name | name in names ensures name != l.file {
      var attempt :| 0 <= attempt < 100 && name == TemporaryName(pid, attempt);
      assert name[0] == '.' as int;
    }
  }

  method ReadLog(ghost l: Layout, ghost pid: nat, bytes: seq<byte>) returns (r: Result<Log, HistoryError>)
    requires Real(l, pid)
    ensures r == if l.decode(bytes).Some? then Success(l.decode(bytes).value) else Failure(InvalidData)
  {
    r := DecodeLog(bytes);
  }

  method WriteLog(ghost l: Layout, ghost pid: nat, log: Log) returns (r: Result<seq<byte>, HistoryError>)
    requires Real(l, pid)
    ensures r.Success? <==> ValidLog(log)
    ensures r.Success? ==> l.decode(r.value) == Some(log)
    ensures r.Failure? ==> r.error == InvalidData
  {
    r := EncodeLog(log);
    if r.Success? {
      DecodeIffEncode(r.value, log);
    }
  }

  /** How temporaries are named has no bearing on what the file holds. */
  lemma SameFile(l: Layout, m: Layout, s: State, a: Abstract<Log>)
    requires FileInv(l, s, a) && m == l.(temporary := m.temporary)
    ensures FileInv(m, s, a)
  {
    SameViews(s, l.Keep(), m.Keep());
    forall v | v in Views(s, m.Keep()) ensures Meaningful(m, v, a.possible) {
      assert Meaningful(l, v, a.possible);
      var log :| log in a.possible && Represents(l, v, log);
      assert Represents(m, v, log);
    }
  }

  /** What the history file says: nothing, a log, or something invalid. */
  ghost function Reading(l: Layout, s: State): Result<Log, HistoryError> {
    if l.file !in Visible(s) then Success([])
    else
      match l.decode(Contents(s, l.file))
      case Some(log) => Success(log)
      case None => Failure(InvalidData)
  }

  lemma OwnLogIsRead(l: Layout, s: State, a: Abstract<Log>)
    requires FileInv(l, s, a)
    ensures Reading(l, s) == Success(a.current)
  {
    assert l.file in Visible(s) <==> l.file in Current(s, l.Keep());
  }

  class HistoryStore {
    const disk: Device
    const pid: nat
    const file: Name
    ghost const layout: Layout
    ghost var model: Abstract<Log>

    ghost predicate Valid()
      reads this, disk
    {
      Real(layout, pid) && layout.file == file && FileInv(layout, disk.state, model)
    }

    constructor (disk: Device, pid: nat)
      requires disk.state == State(map[], 0, map[], [])
      ensures this.disk == disk && this.pid == pid
      ensures Valid() && model == Abstract({[]}, [])
    {
      this.disk := disk;
      this.pid := pid;
      file := FileName();
      layout := AgentLayout(pid);
      model := Abstract({[]}, []);
      new;
      OnlyView(layout, disk.state, []);
    }

    /** A history over any file that holds a log, as a later process finds it. */
    constructor Open(disk: Device, pid: nat, ghost l: Layout, ghost earlier: nat, ghost found: Abstract<Log>)
      requires Real(l, earlier) && FileInv(l, disk.state, found)
      ensures this.disk == disk && this.pid == pid
      ensures Valid() && model == found
      ensures layout == l.(temporary := layout.temporary)
    {
      this.disk := disk;
      this.pid := pid;
      file := FileName();
      layout := l.(temporary := (attempt: nat) => TemporaryName(pid, attempt));
      model := found;
      new;
      SameFile(l, layout, disk.state, found);
    }

    /** The history in oldest-to-newest order. Whatever file is there, it is read
        as a log or refused as invalid; this store's own file is never refused. */
    method List() returns (r: Result<Log, HistoryError>)
      requires Real(layout, pid) && layout.file == file
      ensures r == Reading(layout, disk.state) || (r == Failure(Io) && !disk.healthy)
      ensures Valid() ==> Reading(layout, disk.state) == Success(model.current) && ValidLog(model.current)
    {
      if Valid() {
        OwnLogIsRead(layout, disk.state, model);
      }
      var readable: bool := *;
      if !readable && !disk.healthy {
        return Failure(Io);
      }
      if file !in Visible(disk.state) {
        return Success([]);
      }
      r := ReadLog(layout, pid, Contents(disk.state, file));
    }

    /** This store's own file is never refused. */
    method ListOwn() returns (r: Option<Log>)
      requires Valid()
      ensures r.Some? ==> r.value == model.current && ValidLog(r.value)
      ensures disk.healthy ==> r.Some?
    {
      var listed := List();
      return if listed.Success? then Some(listed.value) else None;
    }

    method Write(log: Log, prepared: bool) returns (ok: bool)
      requires Valid() && ValidLog(log)
      modifies this, disk
      ensures Valid() && Commit(old(model), log, ok, model)
      ensures prepared && disk.healthy && HasFreeName(layout, old(disk.state)) ==> ok
      ensures !prepared ==> disk.state == old(disk.state)
      ensures ok ==> disk.state.pending == [] && Visible(disk.state).Keys == Visible(old(disk.state)).Keys + {file}
      ensures disk.removes ==> Visible(disk.state).Keys <= Visible(old(disk.state)).Keys + {file}
      ensures old(disk.trace) <= disk.trace
      ensures forall i | |old(disk.trace)| <= i < |disk.trace| :: Between(layout, disk.trace[i], old(model), log)
    {
      if !prepared {
        return false;
      }
      var bytes := WriteLog(layout, pid, log);
      var candidates := TemporaryNames(layout, pid);
      ghost var start, before := disk.state, model;
      ghost var view := Current(start, layout.Keep())[file := Stable(bytes.value)];
      ghost var renamed;
      ok, renamed := ReplaceFile(disk, candidates, file, bytes.value, layout.Keep());
      forall i | |old(disk.trace)| <= i < |disk.trace| ensures Between(layout, disk.trace[i], before, log) {
        MixedViews(layout, start, disk.trace[i], before, log, view);
      }
      MixedViews(layout, start, disk.state, before, log, view);
      if ok {
        CurrentIsLastView(disk.state, layout.Keep());
        OnlyView(layout, disk.state, log);
        model := Abstract({log}, log);
      } else {
        model := Abstract(before.possible + {log},
                          if Current(disk.state, layout.Keep()) == Current(start, layout.Keep())
                          then before.current else log);
      }
    }

    /** Appends an entry and keeps the newest 200: a valid entry is never refused,
        and at every moment the file holds the old log or the new one. */
    method Append(entry: Entry, prepared: bool) returns (r: Result<(), HistoryError>)
      requires Valid()
      modifies this, disk
      ensures Valid()
      ensures r == Failure(InvalidData) <==> !ValidEntry(entry)
      ensures !ValidEntry(entry) ==> model == old(model) && disk.state == old(disk.state)
      ensures ValidEntry(entry) ==> Step(old(model), Appended(entry, r.Success?), model)
      ensures ValidEntry(entry) && prepared && disk.healthy && HasFreeName(layout, old(disk.state)) ==> r.Success?
      ensures r.Success? ==> disk.state.pending == [] && Visible(disk.state).Keys == Visible(old(disk.state)).Keys + {file}
      ensures disk.removes ==> Visible(disk.state).Keys <= Visible(old(disk.state)).Keys + {file}
      ensures disk.healthy && OnlyTheFile(layout, old(disk.state)) ==> OnlyTheFile(layout, disk.state)
      ensures old(disk.trace) <= disk.trace
      ensures forall i | |old(disk.trace)| <= i < |disk.trace| ::
                Between(layout, disk.trace[i], old(model), Newest(old(model).current + [entry]))
    {
      var valid := CheckEntry(entry);
      if !valid {
        return Failure(InvalidData);
      }
      var listed := ListOwn();
      if listed == None {
        return Failure(Io);
      }
      var entries := listed.value + [entry];
      if |entries| > MAX_ENTRIES {
        entries := entries[|entries| - MAX_ENTRIES..];
      }
      if OnlyTheFile(layout, disk.state) {
        RoomForTemporaries(layout, pid, disk.state);
      }
      var ok := Write(entries, prepared);
      return if ok then Success(()) else Failure(Io);
    }
  }
}

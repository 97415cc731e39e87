/** Handling one agent request: listing identities, or choosing a key, obtaining
    its PIN, signing, and recording the attempt. */
module Signing {
  import opened Wrappers
  import opened Bytes
  import opened Keys
  import opened Ordering
  import opened Protocol
  import opened RecordDirectory
  import opened KeyStores
  import opened Durability
  import Ecdsa
  import Histories

  /** What the surroundings answer during one request: the cancellation flag at
      the points 0 to 2 where it is checked and at point 3, where the response is
      written; the PIN rendezvous, the hash functions, the TPM and the clock. */
  datatype Environment = Environment(
    cancelled: nat -> bool,
    pin: Option<seq<byte>>,
    sha256: seq<byte> -> seq<byte>,
    sha384: seq<byte> -> seq<byte>,
    tpmOpens: bool,
    historyPrepared: bool,
    tpm: (TpmObject, Algorithm, seq<byte>, Option<seq<byte>>) -> Option<(seq<byte>, seq<byte>)>,
    now: u64)

  const LAST_CHECK: nat := 2
  const RESPONSE_WRITTEN: nat := 3

  /** The monitor sets the cancellation flag and never clears it. */
  ghost predicate Monotone(cancelled: nat -> bool) {
    forall i: nat, j: nat :: i <= j && cancelled(i) ==> cancelled(j)
  }

  // ------------------------------------------------------------------
  // Choosing the key
  // ------------------------------------------------------------------

  function Find(keys: seq<StoredKey>, blob: seq<byte>): Option<StoredKey> {
    if keys == [] then None
    else if keys[0].summary.publicKey == blob then Some(keys[0])
    else Find(keys[1..], blob)
  }

  /** The key has the smallest identifier among the stored keys with this blob. */
  ghost predicate Chosen(m: KeyMap, blob: seq<byte>, key: StoredKey) {
    && key.summary.id in m && m[key.summary.id] == key && key.summary.publicKey == blob
    && forall id | id in m && m[id].summary.publicKey == blob :: id == key.summary.id || Before(key.summary.id, id)
  }

  lemma {:induction false} FindIsFirst(keys: seq<StoredKey>, blob: seq<byte>)
    ensures Find(keys, blob) == None <==> forall key | key in keys :: key.summary.publicKey != blob
    ensures Find(keys, blob).Some? ==>
              exists i :: 0 <= i < |keys| && keys[i] == Find(keys, blob).value && keys[i].summary.publicKey == blob
                          && forall j | 0 <= j < i :: keys[j].summary.publicKey != blob
  {
    if keys != [] {
      FindIsFirst(keys[1..], blob);
      assert keys == [keys[0]] + keys[1..];
      if keys[0].summary.publicKey != blob && Find(keys[1..], blob).Some? {
        var i :| 0 <= i < |keys[1..]| && keys[1..][i] == Find(keys[1..], blob).value
                 && keys[1..][i].summary.publicKey == blob
                 && forall j | 0 <= j < i :: keys[1..][j].summary.publicKey != blob;
        assert keys[i + 1] == Find(keys, blob).value;
        forall j | 0 <= j < i + 1 ensures keys[j].summary.publicKey != blob {
          assert j > 0 ==> keys[1..][j - 1] == keys[j];
        }
      }
    }
  }

  /** The first match in a listing is the chosen key of the map. */
  lemma FindChooses(keys: seq<StoredKey>, m: KeyMap, blob: seq<byte>)
    requires IsListing(keys, m)
    ensures Find(keys, blob).Some? ==> Chosen(m, blob, Find(keys, blob).value)
    ensures Find(keys, blob) == None ==> forall id | id in m :: m[id].summary.publicKey != blob
  {
    FindIsFirst(keys, blob);
    if Find(keys, blob).Some? {
      var key := Find(keys, blob).value;
      var i :| 0 <= i < |keys| && keys[i] == key && forall j | 0 <= j < i :: keys[j].summary.publicKey != blob;
      assert keys[i] in keys;
      forall id | id in m && m[id].summary.publicKey == blob
        ensures id == key.summary.id || Before(key.summary.id, id)
      {
        var j :| 0 <= j < |keys| && keys[j] == m[id];
        assert keys[j] in keys;
        if j > i {
          assert Before(keys[i].summary.id, keys[j].summary.id);
        }
      }
    }
  }

  ghost function Summaries(keys: seq<StoredKey>): (s: seq<Summary>)
    ensures |s| == |keys|
  {
    seq(|keys|, i requires 0 <= i < |keys| => keys[i].summary)
  }

  method CollectSummaries(keys: seq<StoredKey>) returns (summaries: seq<Summary>)
    ensures summaries == Summaries(keys)
  {
    summaries := [];
    for i := 0 to |keys|
      invariant |summaries| == i && forall j | 0 <= j < i :: summaries[j] == keys[j].summary
    {
      summaries := summaries + [keys[i].summary];
    }
  }

  lemma {:induction false} PairAt(summaries: seq<Summary>, i: nat)
    requires i < |summaries|
    ensures Pairs(summaries)[i] == (summaries[i].publicKey, summaries[i].name)
  {
    if i > 0 {
      PairAt(summaries[1..], i - 1);
    }
  }

  /** An answered listing shows the client the public key and the name of every
      stored key, once each, in increasing order of identifiers. */
  lemma ClientReadsTheKeys(reply: seq<byte>, m: KeyMap) returns (keys: seq<StoredKey>)
    requires IsIdentitiesReply(reply, m)
    ensures IsListing(keys, m)
    ensures |reply| >= 4 && ReadIdentities(reply[4..]).Some?
    ensures var read := ReadIdentities(reply[4..]).value;
            && |read| == |keys|
            && forall i | 0 <= i < |keys| :: read[i] == (keys[i].summary.publicKey, keys[i].summary.name)
  {
    keys :| && IsListing(keys, m)
            && IdentitiesLength(Summaries(keys)) <= MAX_PACKET_LENGTH
            && reply == Frame(IdentitiesPayload(Summaries(keys)));
    IdentitiesRoundTrip(Summaries(keys));
    assert reply[4..] == IdentitiesPayload(Summaries(keys));
    forall i | 0 <= i < |keys| ensures Pairs(Summaries(keys))[i] == (keys[i].summary.publicKey, keys[i].summary.name) {
      PairAt(Summaries(keys), i);
    }
  }

  // ------------------------------------------------------------------
  // Signing
  // ------------------------------------------------------------------

  ghost function Digest(algorithm: Algorithm, data: seq<byte>, env: Environment): seq<byte> {
    if algorithm == EcdsaNistP256 then env.sha256(data) else env.sha384(data)
  }

  /** The TPM's answer for this key, this payload and this PIN. */
  ghost function TpmAnswer(key: StoredKey, data: seq<byte>, env: Environment): Option<(seq<byte>, seq<byte>)> {
    env.tpm(key.tpm, key.summary.algorithm, Digest(key.summary.algorithm, data, env),
            if key.summary.policy == NoPin then None else env.pin)
  }

  ghost predicate InWidth(algorithm: Algorithm, scalars: (seq<byte>, seq<byte>)) {
    |scalars.0| <= algorithm.ComponentSize() && |scalars.1| <= algorithm.ComponentSize()
  }

  /** Exactly when signing succeeds. */
  ghost predicate Signs(key: StoredKey, data: seq<byte>, env: Environment) {
    && (key.summary.policy == TpmPin ==> env.pin.Some?)
    && !env.cancelled(1)
    && env.tpmOpens
    && TpmAnswer(key, data, env).Some?
    && InWidth(key.summary.algorithm, TpmAnswer(key, data, env).value)
    && !env.cancelled(2)
  }

  /** A TPM that signs one digest, with one key, under one authorization. */
  ghost predicate AnswersOnly(env: Environment, key: StoredKey, digest: seq<byte>, authorization: Option<seq<byte>>) {
    forall tpmKey, algorithm, d, pin ::
      env.tpm(tpmKey, algorithm, d, pin)
      == if tpmKey == key.tpm && algorithm == key.summary.algorithm && d == digest && pin == authorization
         then Some(([1], [1])) else None
  }

  /** What the TPM is asked: with the TPM open and the client there, such a TPM
      gives a signature if and only if its digest is the SHA-256 or SHA-384 digest
      of the data, as the curve demands, and its authorization is none for a key
      without a PIN and the PIN obtained for a key with one. */
  lemma TpmIsAsked(key: StoredKey, data: seq<byte>, env: Environment, digest: seq<byte>, authorization: Option<seq<byte>>)
    requires env.tpmOpens && !env.cancelled(1) && !env.cancelled(2)
    requires AnswersOnly(env, key, digest, authorization)
    ensures Signs(key, data, env) <==>
            && (match key.summary.algorithm
                case EcdsaNistP256 => digest == env.sha256(data)
                case EcdsaNistP384 => digest == env.sha384(data))
            && (match key.summary.policy
                case NoPin => authorization == None
                case TpmPin => authorization.Some? && env.pin == authorization)
  {
    assert TpmAnswer(key, data, env).Some? ==> TpmAnswer(key, data, env) == Some(([1], [1]));
  }

  /** The client reads the key type and the two numbers of this TPM answer. */
  ghost predicate Carries(reply: seq<byte>, algorithm: Algorithm, answer: Option<(seq<byte>, seq<byte>)>) {
    && answer.Some? && |reply| >= 4
    && Ecdsa.ReadSignature(reply[4..])
       == Some((algorithm.SshKeyType(), (Value(answer.value.0), Value(answer.value.1))))
  }

  lemma SignReplyCarriesTheAnswer(reply: seq<byte>, key: StoredKey, data: seq<byte>, env: Environment)
    requires IsSignReply(reply, key, data, env)
    ensures Carries(reply, key.summary.algorithm, TpmAnswer(key, data, env))
  {
    var (r, s) := TpmAnswer(key, data, env).value;
    Ecdsa.SignatureRoundTrip(key.summary.algorithm.SshKeyType(), r, s);
  }

  method SignWithKey(key: StoredKey, data: seq<byte>, env: Environment) returns (r: Result<seq<byte>, ()>)
    ensures r.Success? <==> Signs(key, data, env)
    ensures r.Success? ==> IsSignReply(r.value, key, data, env) && IsSignResponse(r)
    ensures r.Success? ==>
              var digest := if key.summary.algorithm == EcdsaNistP256 then env.sha256(data) else env.sha384(data);
              var authorization := if key.summary.policy == NoPin then None else env.pin;
              Carries(r.value, key.summary.algorithm, env.tpm(key.tpm, key.summary.algorithm, digest, authorization))
  {
    var digest := match key.summary.algorithm
      case EcdsaNistP256 => env.sha256(data)
      case EcdsaNistP384 => env.sha384(data);
    var pin: seq<byte> := [];
    if key.summary.policy == TpmPin {
      if env.pin == None {
        return Failure(());
      }
      pin := env.pin.value;
    }
    if env.cancelled(1) {
      return Failure(());
    }
    var authorization := match key.summary.policy
      case NoPin => None
      case TpmPin => Some(pin);
    if !env.tpmOpens {
      return Failure(());
    }
    var scalars := env.tpm(key.tpm, key.summary.algorithm, digest, authorization);
    if scalars == None {
      return Failure(());
    }
    var reply := Ecdsa.SignReply(key.summary.algorithm, scalars.value.0, scalars.value.1);
    if reply == None || env.cancelled(2) {
      return Failure(());
    }
    SignReplyCarriesTheAnswer(reply.value, key, data, env);
    return Success(reply.value);
  }

  predicate IsSignResponse(r: Result<seq<byte>, ()>) {
    r.Success? && |r.value| > 4 && r.value[4] == SSH2_AGENT_SIGN_RESPONSE
  }

  // ------------------------------------------------------------------
  // Requests
  // ------------------------------------------------------------------

  /** One handled request: the answer, the key it reached, whether the store
      could be listed and whether the attempt was recorded. */
  datatype Handled = Handled(reply: Result<seq<byte>, ()>, used: Option<StoredKey>, listed: bool, recorded: bool)

  ghost predicate IsSign(packet: seq<byte>, env: Environment) {
    && !env.cancelled(0)
    && Parsed(packet).Success? && Parsed(packet).value.Sign? && Parsed(packet).value.flags == 0
  }

  /** The request asks for a signature with this stored key. */
  ghost predicate Reaches(packet: seq<byte>, env: Environment, m: KeyMap, listed: bool, key: StoredKey) {
    IsSign(packet, env) && listed && Chosen(m, Parsed(packet).value.publicKey, key)
  }

  ghost predicate IsIdentitiesReply(reply: seq<byte>, m: KeyMap) {
    exists keys :: && IsListing(keys, m)
                   && IdentitiesLength(Summaries(keys)) <= MAX_PACKET_LENGTH
                   && reply == Frame(IdentitiesPayload(Summaries(keys)))
  }

  ghost predicate ListingTooLong(m: KeyMap) {
    exists keys :: IsListing(keys, m) && IdentitiesLength(Summaries(keys)) > MAX_PACKET_LENGTH
  }

  ghost predicate IsSignReply(reply: seq<byte>, key: StoredKey, data: seq<byte>, env: Environment) {
    && TpmAnswer(key, data, env).Some?
    && InWidth(key.summary.algorithm, TpmAnswer(key, data, env).value)
    && IsResponse(reply)
    && reply[4..] == Ecdsa.SignPayload(key.summary.algorithm.SshKeyType(), TpmAnswer(key, data, env).value.0,
                                       TpmAnswer(key, data, env).value.1)
  }

  /** What a request may be answered, given the keys in the store. */
  ghost predicate Explained(packet: seq<byte>, env: Environment, m: KeyMap, h: Handled) {
    && (h.reply.Success? ==> IsResponse(h.reply.value))
    && (match h.used
        case Some(key) =>
          && Reaches(packet, env, m, h.listed, key)
          && (h.reply.Success? <==> Signs(key, Parsed(packet).value.data, env))
          && (h.reply.Success? ==> IsSignReply(h.reply.value, key, Parsed(packet).value.data, env))
        case None =>
          && (forall key :: !Reaches(packet, env, m, h.listed, key))
          && (h.reply.Success? ==>
                !env.cancelled(0) && Parsed(packet) == Success(RequestIdentities) && h.listed
                && IsIdentitiesReply(h.reply.value, m))
          && (!env.cancelled(0) && Parsed(packet) == Success(RequestIdentities) && h.listed && h.reply.Failure? ==>
                ListingTooLong(m)))
    && (IsSignResponse(h.reply) <==> h.used.Some? && h.reply.Success?)
  }

  ghost function EntryFor(key: StoredKey, now: u64, ok: bool): Histories.Entry {
    Histories.Entry(now, key.summary.id, key.summary.name, key.summary.policy,
                    if ok then Histories.Succeeded else Histories.Failed)
  }

  /** What handling one request does to the history. */
  ghost predicate Recorded(before: Abstract<Histories.Log>, enabled: bool, h: Handled, now: u64, after: Abstract<Histories.Log>) {
    if enabled && h.used.Some? then
      Histories.Step(before, Histories.Appended(EntryFor(h.used.value, now, IsSignResponse(h.reply)), h.recorded), after)
    else after == before && !h.recorded
  }

  class AgentRuntime {
    const store: KeyStore
    const history: Histories.HistoryStore
    const historyEnabled: bool

    ghost predicate Valid()
      reads store, store.disk, history, history.disk
    {
      store.Valid() && history.Valid() && store.disk != history.disk
    }

    constructor (store: KeyStore, history: Histories.HistoryStore, historyEnabled: bool)
      requires store.Valid() && history.Valid() && store.disk != history.disk
      ensures Valid()
      ensures this.store == store && this.history == history && this.historyEnabled == historyEnabled
    {
      this.store := store;
      this.history := history;
      this.historyEnabled := historyEnabled;
    }

    /** `record_history`: failures to record are swallowed. */
    method RecordHistory(key: StoredKey, now: u64, ok: bool, prepared: bool) returns (recorded: bool)
      requires Valid() && ValidKey(key)
      modifies history, history.disk
      ensures Valid()
      ensures !historyEnabled ==> history.model == old(history.model) && !recorded
      ensures historyEnabled ==>
                Histories.Step(old(history.model), Histories.Appended(EntryFor(key, now, ok), recorded), history.model)
      ensures recorded ==>
                var log := history.model.current;
                && log != []
                && log[|log| - 1].timestamp == now && log[|log| - 1].keyId == key.summary.id
                && log[|log| - 1].keyName == key.summary.name && log[|log| - 1].policy == key.summary.policy
                && (log[|log| - 1].outcome == Histories.Succeeded <==> ok)
      ensures historyEnabled && prepared && history.disk.healthy
              && Histories.HasFreeName(history.layout, old(history.disk.state))
              ==> recorded
      ensures history.disk.healthy && Histories.OnlyTheFile(history.layout, old(history.disk.state)) ==>
                Histories.OnlyTheFile(history.layout, history.disk.state)
    {
      if !historyEnabled {
        return false;
      }
      var outcome := if ok then Histories.Succeeded else Histories.Failed;
      var appended := history.Append(Histories.Entry(now, key.summary.id, key.summary.name, key.summary.policy, outcome), prepared);
      return appended.Success?;
    }

    /** The first stored key with this blob, in listing order. */
    method FindKey(blob: seq<byte>) returns (listed: bool, key: Option<StoredKey>)
      requires store.Valid()
      ensures key.Some? ==> listed && Chosen(store.model.current, blob, key.value) && ValidKey(key.value)
      ensures key == None ==> !listed || forall other :: !Chosen(store.model.current, blob, other)
      ensures store.disk.healthy ==> listed
    {
      var keys := store.List();
      if keys.Failure? {
        return false, None;
      }
      FindChooses(keys.value, store.model.current, blob);
      key := Find(keys.value, blob);
      if key.Some? {
        StoredKeysAreValid(store, key.value);
      }
      return true, key;
    }

    method HandleIdentities() returns (listed: bool, reply: Result<seq<byte>, ()>)
      requires store.Valid()
      ensures reply.Success? ==> listed && IsResponse(reply.value) && IsIdentitiesReply(reply.value, store.model.current)
      ensures listed && reply.Failure? ==> ListingTooLong(store.model.current)
      ensures !IsSignResponse(reply)
      ensures store.disk.healthy ==> listed
    {
      var keys := store.List();
      if keys.Failure? {
        return false, Failure(());
      }
      listed := true;
      var summaries := CollectSummaries(keys.value);
      var response := IdentitiesResponse(summaries);
      if response.Failure? {
        return listed, Failure(());
      }
      reply := Success(response.value);
    }

    method HandleSign(ghost packet: seq<byte>, publicKey: seq<byte>, data: seq<byte>, env: Environment) returns (h: Handled)
      requires Valid()
      requires IsSign(packet, env) && Parsed(packet).value == Sign(publicKey, data, 0)
      modifies history, history.disk
      ensures Valid()
      ensures Explained(packet, env, store.model.current, h)
      ensures Recorded(old(history.model), historyEnabled, h, env.now, history.model)
      ensures h.used.Some? && historyEnabled && env.historyPrepared && history.disk.healthy
              && Histories.HasFreeName(history.layout, old(history.disk.state))
              ==> h.recorded
      ensures history.disk.healthy && Histories.OnlyTheFile(history.layout, old(history.disk.state)) ==>
                Histories.OnlyTheFile(history.layout, history.disk.state)
      ensures store.disk.healthy ==> h.listed
    {
      var listed, key := FindKey(publicKey);
      if key == None {
        return Handled(Failure(()), None, listed, false);
      }
      var reply := SignWithKey(key.value, data, env);
      var recorded := RecordHistory(key.value, env.now, reply.Success?, env.historyPrepared);
      return Handled(reply, key, listed, recorded);
    }

    /** `handle`. */
    method Handle(packet: seq<byte>, env: Environment) returns (h: Handled)
      requires Valid()
      modifies history, history.disk
      ensures Valid()
      ensures Explained(packet, env, store.model.current, h)
      ensures Recorded(old(history.model), historyEnabled, h, env.now, history.model)
      ensures h.used.Some? && historyEnabled && env.historyPrepared && history.disk.healthy
              && Histories.HasFreeName(history.layout, old(history.disk.state))
              ==> h.recorded
      ensures history.disk.healthy && Histories.OnlyTheFile(history.layout, old(history.disk.state)) ==>
                Histories.OnlyTheFile(history.layout, history.disk.state)
      ensures store.disk.healthy && (IsSign(packet, env) || (!env.cancelled(0) && Parsed(packet) == Success(RequestIdentities))) ==>
                h.listed
    {
      if env.cancelled(0) {
        return Handled(Failure(()), None, false, false);
      }
      var request := ParseRequest(packet);
      if request.Failure? {
        return Handled(Failure(()), None, false, false);
      }
      match request.value {
        case RequestIdentities =>
          var listed, reply := HandleIdentities();
          return Handled(reply, None, listed, false);
        case Sign(publicKey, data, flags) =>
          if flags != 0 {
            return Handled(Failure(()), None, false, false);
          }
          h := HandleSign(packet, publicKey, data, env);
      }
    }
  }

  lemma StoredKeysAreValid(store: KeyStore, key: StoredKey)
    requires store.Valid() && key.summary.id in store.model.current && store.model.current[key.summary.id] == key
    ensures ValidKey(key)
  {
    KeysAreValid(store.layout, store.pid, store.disk.state, store.model, key.summary.id);
  }

  // ------------------------------------------------------------------
  // Is the client still there?
  // ------------------------------------------------------------------

  /** A sign response shows that the client had not left at any of the checks. */
  lemma SignResponseMeansPresentAtChecks(packet: seq<byte>, env: Environment, m: KeyMap, h: Handled, point: nat)
    requires Explained(packet, env, m, h) && IsSignResponse(h.reply)
    requires Monotone(env.cancelled) && point <= LAST_CHECK
    ensures !env.cancelled(point)
  {
    assert !env.cancelled(LAST_CHECK);
  }

  /** The same surroundings, except that the client leaves right after the last check. */
  function Departed(env: Environment): Environment {
    env.(cancelled := point => point > LAST_CHECK)
  }

  lemma DepartedSigns(key: StoredKey, data: seq<byte>, env: Environment)
    requires Signs(key, data, env)
    ensures Signs(key, data, Departed(env)) && TpmAnswer(key, data, Departed(env)) == TpmAnswer(key, data, env)
  {
  }

  /** The client may leave after the last check: whatever made a request succeed
      makes it succeed all the same, with the same response, when the checks find
      what they found and the client is gone by the time the response is written. */
  lemma ClientMayLeaveUnnoticed(packet: seq<byte>, env: Environment, m: KeyMap, h: Handled)
    requires Explained(packet, env, m, h) && IsSignResponse(h.reply) && Monotone(env.cancelled)
    ensures Explained(packet, Departed(env), m, h)
    ensures Monotone(Departed(env).cancelled) && Departed(env).cancelled(RESPONSE_WRITTEN)
    ensures forall point: nat | point <= LAST_CHECK :: Departed(env).cancelled(point) == env.cancelled(point)
  {
    forall point: nat | point <= LAST_CHECK ensures !env.cancelled(point) {
      SignResponseMeansPresentAtChecks(packet, env, m, h, point);
    }
    DepartedSigns(h.used.value, Parsed(packet).value.data, env);
    StillExplained(packet, env, Departed(env), m, h);
  }

  lemma StillExplained(packet: seq<byte>, env: Environment, later: Environment, m: KeyMap, h: Handled)
    requires Explained(packet, env, m, h) && h.used.Some? && h.reply.Success?
    requires Parsed(packet).Success? && Parsed(packet).value.Sign?
    requires !later.cancelled(0) && Signs(h.used.value, Parsed(packet).value.data, later)
    requires TpmAnswer(h.used.value, Parsed(packet).value.data, later) == TpmAnswer(h.used.value, Parsed(packet).value.data, env)
    ensures Explained(packet, later, m, h)
  {
  }

  /** Surroundings in which signing with this key succeeds, whatever happens to
      the client afterwards. */
  lemma SomeEnvironmentSigns(key: StoredKey, data: seq<byte>, cancelled: nat -> bool) returns (env: Environment)
    requires !cancelled(1) && !cancelled(LAST_CHECK)
    ensures Signs(key, data, env) && env.cancelled == cancelled
  {
    env := Environment(cancelled, Some([]), _ => [], _ => [], true, true, (_, _, _, _) => Some(([1], [1])), 0);
    assert TpmAnswer(key, data, env) == Some(([1], [1]));
  }

  /** For every key and payload there are surroundings in which signing succeeds
      although the client is gone when the response is written. */
  lemma SignedForADepartedClient(key: StoredKey, data: seq<byte>) returns (env: Environment)
    ensures Signs(key, data, env) && Monotone(env.cancelled) && env.cancelled(RESPONSE_WRITTEN)
  {
    env := SomeEnvironmentSigns(key, data, point => point > LAST_CHECK);
  }

  /** With this key and these data, success shows presence at exactly the points
      up to the last check, and never when the response is written. */
  lemma PresenceIsKnownUpToLastCheck(key: StoredKey, data: seq<byte>, point: nat)
    ensures (forall env: Environment | Monotone(env.cancelled) && Signs(key, data, env) :: !env.cancelled(point))
            <==> point <= LAST_CHECK
  {
    if point > LAST_CHECK {
      var env := SomeEnvironmentSigns(key, data, p => p > LAST_CHECK);
      assert Monotone(env.cancelled) && env.cancelled(point);
    }
  }

  // ------------------------------------------------------------------
  // Runs
  // ------------------------------------------------------------------

  /** One request of a run, with the keys stored at the time. */
  datatype Call = Call(packet: seq<byte>, env: Environment, keys: KeyMap, handled: Handled)

  ghost predicate Answered(c: Call, enabled: bool, before: Abstract<Histories.Log>, after: Abstract<Histories.Log>) {
    && Explained(c.packet, c.env, c.keys, c.handled)
    && Recorded(before, enabled, c.handled, c.env.now, after)
  }

  ghost predicate Run(calls: seq<Call>, enabled: bool, histories: seq<Abstract<Histories.Log>>) {
    && |histories| == |calls| + 1
    && forall i | 0 <= i < |calls| :: Answered(calls[i], enabled, histories[i], histories[i + 1])
  }

  /** The request reached a stored key. */
  ghost predicate Attempted(c: Call) {
    exists key :: Reaches(c.packet, c.env, c.keys, c.handled.listed, key)
  }

  /** At most one key can be reached, so this is the entry the attempt calls for. */
  ghost function Attempt(c: Call): Histories.Entry
    requires Attempted(c)
  {
    var key :| Reaches(c.packet, c.env, c.keys, c.handled.listed, key);
    EntryFor(key, c.env.now, IsSignResponse(c.handled.reply))
  }

  ghost function Attempts(calls: seq<Call>): Histories.Log {
    if calls == [] then []
    else
      var earlier, c := Attempts(calls[..|calls| - 1]), calls[|calls| - 1];
      if Attempted(c) then earlier + [Attempt(c)] else earlier
  }

  lemma ReachedKeyIsUnique(packet: seq<byte>, env: Environment, m: KeyMap, listed: bool, a: StoredKey, b: StoredKey)
    requires Reaches(packet, env, m, listed, a) && Reaches(packet, env, m, listed, b)
    ensures a == b
  {
    if a.summary.id != b.summary.id {
      BeforeIsTotal(a.summary.id, b.summary.id);
    }
  }

  lemma UsedIsAttempted(c: Call)
    requires Explained(c.packet, c.env, c.keys, c.handled)
    ensures c.handled.used.Some? <==> Attempted(c)
    ensures Attempted(c) ==> Attempt(c) == EntryFor(c.handled.used.value, c.env.now, IsSignResponse(c.handled.reply))
  {
    if Attempted(c) {
      var key :| Reaches(c.packet, c.env, c.keys, c.handled.listed, key)
                 && Attempt(c) == EntryFor(key, c.env.now, IsSignResponse(c.handled.reply));
      ReachedKeyIsUnique(c.packet, c.env, c.keys, c.handled.listed, key, c.handled.used.value);
    }
  }

  /** What a history entry tells about the request it was made for. */
  ghost predicate TellsOf(e: Histories.Entry, c: Call) {
    && c.handled.used.Some?
    && e.timestamp == c.env.now
    && e.keyId == c.handled.used.value.summary.id
    && e.keyName == c.handled.used.value.summary.name
    && e.policy == c.handled.used.value.summary.policy
    && (e.outcome == Histories.Succeeded <==> IsSignResponse(c.handled.reply))
  }

  /** The requests of a run that reached a stored key, in order. */
  ghost function KeyUses(calls: seq<Call>): seq<Call> {
    if calls == [] then []
    else
      var earlier, c := KeyUses(calls[..|calls| - 1]), calls[|calls| - 1];
      if c.handled.used.Some? then earlier + [c] else earlier
  }

  lemma {:induction false} AttemptsTellOfKeyUses(calls: seq<Call>)
    requires forall i | 0 <= i < |calls| :: Explained(calls[i].packet, calls[i].env, calls[i].keys, calls[i].handled)
    ensures |Attempts(calls)| == |KeyUses(calls)|
    ensures forall i | 0 <= i < |KeyUses(calls)| :: TellsOf(Attempts(calls)[i], KeyUses(calls)[i])
    decreases |calls|
  {
    if calls != [] {
      AttemptsTellOfKeyUses(calls[..|calls| - 1]);
      UsedIsAttempted(calls[|calls| - 1]);
    }
  }

  /** The log tells of the newest 200 of the requests that reached a stored key,
      one entry each, in order, and of nothing else. */
  ghost predicate Chronicle(log: Histories.Log, calls: seq<Call>) {
    var uses := KeyUses(calls);
    && |log| == (if |uses| <= 200 then |uses| else 200)
    && forall i | 0 <= i < |log| :: TellsOf(log[i], uses[|uses| - |log| + i])
  }

  lemma NewestAttemptsAreTheChronicle(calls: seq<Call>)
    requires forall i | 0 <= i < |calls| :: Explained(calls[i].packet, calls[i].env, calls[i].keys, calls[i].handled)
    ensures Chronicle(Histories.Newest(Attempts(calls)), calls)
  {
    AttemptsTellOfKeyUses(calls);
  }

  /** With history enabled and every append succeeding, the history holds exactly
      one entry per request that reached a stored key, in order, none for any
      other request, and each says whether that request got a sign response
      (the newest 200 of them). */
  lemma {:induction false} HistoryTellsTheAttempts(calls: seq<Call>, histories: seq<Abstract<Histories.Log>>)
    requires Run(calls, true, histories)
    requires histories[0] == Abstract({[]}, [])
    requires forall i | 0 <= i < |calls| && Attempted(calls[i]) :: calls[i].handled.recorded
    ensures var log := Histories.Newest(Attempts(calls));
            histories[|calls|] == Abstract({log}, log) && Chronicle(log, calls)
    decreases |calls|
  {
    RunIsExplained(calls, true, histories);
    NewestAttemptsAreTheChronicle(calls);
    if calls != [] {
      var n := |calls| - 1;
      var c := calls[n];
      HistoryTellsTheAttempts(calls[..n], histories[..n + 1]);
      assert Answered(c, true, histories[n], histories[n + 1]);
      UsedIsAttempted(c);
      if Attempted(c) {
        Histories.NewestOfNewest(Attempts(calls[..n]), Attempt(c));
      }
    }
  }

  /** With history disabled nothing is ever recorded. */
  lemma {:induction false} DisabledHistoryIsConstant(calls: seq<Call>, histories: seq<Abstract<Histories.Log>>)
    requires Run(calls, false, histories)
    ensures histories[|calls|] == histories[0]
    decreases |calls|
  {
    if calls != [] {
      var n := |calls| - 1;
      DisabledHistoryIsConstant(calls[..n], histories[..n + 1]);
      assert Answered(calls[n], false, histories[n], histories[n + 1]);
    }
  }

  /** The agent handles these requests one after the other. With history enabled,
      a fresh history on a healthy device ends up with exactly one entry per
      request that reached a stored key, in order, each saying whether that
      request got a sign response (the newest 200 of them); with history disabled
      nothing is recorded. */
  method HandleAll(runtime: AgentRuntime, packets: seq<seq<byte>>, environments: seq<Environment>)
    returns (replies: seq<Result<seq<byte>, ()>>, ghost calls: seq<Call>)
    requires runtime.Valid() && |packets| == |environments|
    modifies runtime.history, runtime.history.disk
    ensures runtime.Valid()
    ensures |replies| == |calls| == |packets|
    ensures forall i | 0 <= i < |calls| ::
              && Matches(calls[i], packets[i], environments[i], runtime.store.model.current)
              && calls[i].handled.reply == replies[i]
              && Explained(packets[i], environments[i], runtime.store.model.current, calls[i].handled)
    ensures runtime.store.disk.healthy ==>
              forall i | 0 <= i < |calls| && IsSign(packets[i], environments[i]) :: calls[i].handled.listed
    ensures runtime.historyEnabled && old(runtime.history.model) == Abstract({[]}, [])
            && runtime.history.disk.healthy && Histories.OnlyTheFile(runtime.history.layout, old(runtime.history.disk.state))
            && (forall i | 0 <= i < |environments| :: environments[i].historyPrepared)
            ==>
              && runtime.history.model.possible == {runtime.history.model.current}
              && Chronicle(runtime.history.model.current, calls)
    ensures !runtime.historyEnabled ==> runtime.history.model == old(runtime.history.model)
  {
    replies, calls := [], [];
    ghost var histories := [runtime.history.model];
    ghost var keys, listable := runtime.store.model.current, runtime.store.disk.healthy;
    ghost var sound := runtime.history.disk.healthy
                       && Histories.OnlyTheFile(runtime.history.layout, runtime.history.disk.state)
                       && forall i | 0 <= i < |environments| :: environments[i].historyPrepared;
    for i := 0 to |packets|
      invariant runtime.Valid() && |replies| == i
      invariant Tells(packets, environments, keys, listable, sound, runtime.historyEnabled, replies, calls, histories)
      invariant histories[0] == old(runtime.history.model) && histories[i] == runtime.history.model
      invariant sound ==> Histories.OnlyTheFile(runtime.history.layout, runtime.history.disk.state)
    {
      var handled := HandleNext(runtime, packets[i], environments[i], sound);
      ghost var call := Call(packets[i], environments[i], keys, handled);
      TellsOneMore(packets, environments, keys, listable, sound, runtime.historyEnabled, replies, calls, histories,
                   call, runtime.history.model);
      replies, calls, histories := replies + [handled.reply], calls + [call], histories + [runtime.history.model];
    }
    WhatIsTold(packets, environments, keys, listable, sound, runtime.historyEnabled, replies, calls, histories);
  }

  /** The next request of a run, with the history in good order if `sound`. */
  method HandleNext(runtime: AgentRuntime, packet: seq<byte>, env: Environment, ghost sound: bool) returns (h: Handled)
    requires runtime.Valid()
    requires sound ==> runtime.history.disk.healthy && env.historyPrepared
                       && Histories.OnlyTheFile(runtime.history.layout, runtime.history.disk.state)
    modifies runtime.history, runtime.history.disk
    ensures runtime.Valid()
    ensures Answered(Call(packet, env, runtime.store.model.current, h), runtime.historyEnabled,
                     old(runtime.history.model), runtime.history.model)
    ensures runtime.store.disk.healthy && IsSign(packet, env) ==> h.listed
    ensures sound && runtime.historyEnabled && h.used.Some? ==> h.recorded
    ensures sound ==> Histories.OnlyTheFile(runtime.history.layout, runtime.history.disk.state)
  {
    if sound {
      Histories.RoomForTemporaries(runtime.history.layout, runtime.history.pid, runtime.history.disk.state);
    }
    h := runtime.Handle(packet, env);
  }

  /** The calls of a run so far, as they were answered and recorded. */
  ghost predicate Tells(packets: seq<seq<byte>>, environments: seq<Environment>, m: KeyMap, listable: bool, sound: bool,
                        enabled: bool, replies: seq<Result<seq<byte>, ()>>, calls: seq<Call>,
                        histories: seq<Abstract<Histories.Log>>) {
    && |replies| == |calls| <= |packets| == |environments|
    && (forall j | 0 <= j < |calls| ::
          Matches(calls[j], packets[j], environments[j], m) && calls[j].handled.reply == replies[j])
    && (listable ==> forall j | 0 <= j < |calls| :: IsSign(calls[j].packet, calls[j].env) ==> calls[j].handled.listed)
    && Run(calls, enabled, histories)
    && (sound && enabled ==> AllRecorded(calls))
  }

  lemma TellsOneMore(packets: seq<seq<byte>>, environments: seq<Environment>, m: KeyMap, listable: bool, sound: bool,
                     enabled: bool, replies: seq<Result<seq<byte>, ()>>, calls: seq<Call>,
                     histories: seq<Abstract<Histories.Log>>, c: Call, after: Abstract<Histories.Log>)
    requires Tells(packets, environments, m, listable, sound, enabled, replies, calls, histories)
    requires |calls| < |packets| && Matches(c, packets[|calls|], environments[|calls|], m)
    requires Answered(c, enabled, histories[|calls|], after)
    requires listable && IsSign(c.packet, c.env) ==> c.handled.listed
    requires sound && enabled && c.handled.used.Some? ==> c.handled.recorded
    ensures Tells(packets, environments, m, listable, sound, enabled, replies + [c.handled.reply], calls + [c],
                  histories + [after])
  {
    RunOneMore(calls, enabled, histories, c, after);
  }

  lemma WhatIsTold(packets: seq<seq<byte>>, environments: seq<Environment>, m: KeyMap, listable: bool, sound: bool,
                   enabled: bool, replies: seq<Result<seq<byte>, ()>>, calls: seq<Call>,
                   histories: seq<Abstract<Histories.Log>>)
    requires Tells(packets, environments, m, listable, sound, enabled, replies, calls, histories)
    ensures forall i | 0 <= i < |calls| :: Explained(packets[i], environments[i], m, calls[i].handled)
    ensures enabled && sound && histories[0] == Abstract({[]}, []) ==>
              && histories[|calls|].possible == {histories[|calls|].current}
              && Chronicle(histories[|calls|].current, calls)
    ensures !enabled ==> histories[|calls|] == histories[0]
  {
    RunIsExplained(calls, enabled, histories);
    if enabled && sound && histories[0] == Abstract({[]}, []) {
      AllRecordedAreAttempts(calls, histories);
      HistoryTellsTheAttempts(calls, histories);
    }
    if !enabled {
      DisabledHistoryIsConstant(calls, histories);
    }
  }

  ghost predicate Matches(c: Call, packet: seq<byte>, env: Environment, m: KeyMap) {
    c.packet == packet && c.env == env && c.keys == m
  }

  ghost predicate AllRecorded(calls: seq<Call>) {
    forall i | 0 <= i < |calls| && calls[i].handled.used.Some? :: calls[i].handled.recorded
  }

  lemma RunOneMore(calls: seq<Call>, enabled: bool, histories: seq<Abstract<Histories.Log>>, c: Call,
                   after: Abstract<Histories.Log>)
    requires Run(calls, enabled, histories) && Answered(c, enabled, histories[|calls|], after)
    ensures Run(calls + [c], enabled, histories + [after])
  {
    var all, states := calls + [c], histories + [after];
    forall i | 0 <= i < |all| ensures Answered(all[i], enabled, states[i], states[i + 1]) {
      if i < |calls| {
        assert Answered(calls[i], enabled, histories[i], histories[i + 1]);
      }
    }
  }

  lemma RunIsExplained(calls: seq<Call>, enabled: bool, histories: seq<Abstract<Histories.Log>>)
    requires Run(calls, enabled, histories)
    ensures forall i | 0 <= i < |calls| :: Explained(calls[i].packet, calls[i].env, calls[i].keys, calls[i].handled)
  {
    forall i | 0 <= i < |calls| ensures Explained(calls[i].packet, calls[i].env, calls[i].keys, calls[i].handled) {
      assert Answered(calls[i], enabled, histories[i], histories[i + 1]);
    }
  }

  lemma AllRecordedAreAttempts(calls: seq<Call>, histories: seq<Abstract<Histories.Log>>)
    requires Run(calls, true, histories) && AllRecorded(calls)
    ensures forall i | 0 <= i < |calls| && Attempted(calls[i]) :: calls[i].handled.recorded
  {
    forall i | 0 <= i < |calls| && Attempted(calls[i]) ensures calls[i].handled.recorded {
      assert Answered(calls[i], true, histories[i], histories[i + 1]);
      UsedIsAttempted(calls[i]);
    }
  }
}

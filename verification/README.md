# Keyvisor verification

Keyvisor is an SSH agent whose private keys live in a TPM. This project models
what Keyvisor computes itself, as Dafny programs and state machines, and proves
what that code promises. Check it with `dafny verify dfyconfig.toml`.

The modules follow the repository:

- **PIN rendezvous and limiter.** `limiter.dfy`, `rendezvous.dfy` and
  `rendezvous_theorems.dfy` are a step machine in which client workers,
  control clients, timeouts, disconnects and the limiter interleave freely; the
  theorems hold in every reachable state. `pin_fate.dfy` settles which sent PINs
  are used, and `bounds.dfy` shows that the bounds are reached. `agent.dfy` writes the two kinds of threads out as the programs they
  are, over a shared state that other threads change between any two actions,
  and proves that they produce runs of the machine.
- **SSH wire path.** `protocol.dfy`, `mpint.dfy`, `ecdsa.dfy` and
  `connection.dfy`: parsing, framing, identity listing, key blobs and the
  re-encoding of ECDSA scalars (RFC 4251 section 5, RFC 5656 sections 3.1 and
  3.1.2, and the SSH agent protocol).
- **Persistent stores.** `disk.dfy` is a directory on a journalling file system
  with unsynced contents and pending directory changes; `atomic_file.dfy` is
  the shared write protocol; `key_record.dfy`, `ordering.dfy`,
  `record_directory.dfy` and `key_store.dfy` are the key store; `history.dfy`
  (with `list_codec.dfy`) is the signing history. `store_runs.dfy` and
  `history_runs.dfy` run their methods through crashes, power losses and
  reopening by later processes.
- **Request handling.** `signing.dfy` ties listing, key choice, signing and
  history together, and follows whole runs of requests; `worker.dfy` joins
  signing to the rendezvous it gets its PIN from.
- **Control protocol and escaping.** `control.dfy` and `control_client.dfy` hold
  the two ends of the control protocol, `pending_list.dfy` joins it to the
  rendezvous, `control_session.dfy` runs whole sessions of client and agent, and
  `escaping.dfy` holds the client's TSV and Assuan codecs.

`bytes.dfy`, `text.dfy`, `unicode.dfy`, `keys.dfy`, `chains.dfy` and `wrappers.dfy` are the common
ground.

## Assumptions

- No thread panics, so no mutex is poisoned; there are fewer than 2^64 requests;
  a `usize` has 64 bits; a process identifier has at most 32 bits.
- A power loss keeps some prefix, in order, of the directory changes made since
  the last directory sync; contents that were not synced may become anything.
  I/O failures are a free choice, except on a device declared healthy, and except
  for removals on a device declared to remove every name it is asked to.
- SHA-2, the TPM and the clock are parameters. The hang-up monitor is an
  environment step that sets the cancellation flag. One lock-protected section,
  channel operation or atomic access is one step.
- File names have no length limit. An identifier of 126 octets or more gives a
  record name of more than 255 octets, and somewhat shorter ones a temporary name
  of more; common file systems refuse those, so there the success promised on a
  healthy device does not follow.
- Names of pending requests come from validated keys (1 to 4096 octets).

## Where the code promises less than it seems to

- *"OK authorized" means the PIN was used.* It does not:
  `PinFate.AuthorizedButUnused` is a run in which the client is told so while the
  request times out. `PinFate.AuthorizedMeansUsedIff` gives the exact condition
  at the moment of sending: the PIN is sure to be used if and only if the worker
  has not begun its loop, is about to poll, or sleeps; it is sure to be lost if
  and only if the worker has left its loop or is about to find the deadline
  passed or the client gone.
- *A failed `save` leaves the store unchanged.* It does so if and only if the
  rename was not reached or exactly this key was stored already
  (`KeyStores.KeyStore.Save`); after the rename the new record is visible
  (`KeyStores.RenameAloneReplaces`).
- *A sign response means that the client is still there.* The last check comes
  before the response is built (crates/keyvisor-agent/src/main.rs:381). Success
  shows that the client was there at a point if and only if that point is no
  later than this check (`Signing.PresenceIsKnownUpToLastCheck`), and every sign
  response would have been given all the same to a client that leaves right
  after it (`Signing.ClientMayLeaveUnnoticed`).
- A control line may have 16384 octets with its newline for the agent but
  without it for the client; `Control.ReadersDifferIff` says on which inputs the
  two readers differ, and `Control.ReadersDiffer` gives one.

## Model

| member | source | states |
|---|---|---|
| Limiter.StepKeepsInv | crates/keyvisor-agent/src/main.rs:637-669 | every critical section, under barging and spurious wakeups, keeps the counter equal to the live permits and never loses a wakeup |
| Limiter.LimiterSafety | crates/keyvisor-agent/src/main.rs:622-669 | in every run: active equals live permits and respects the maximum, the saturating decrement never clips, and free slots never exceed awakened threads while someone is blocked |
| Limiter.ConnectionLimiter.TryAcquire | crates/keyvisor-agent/src/main.rs:637-653 | one pass through `acquire` admits exactly when a slot is free, otherwise waits, and is a step of the limiter |
| Limiter.ConnectionLimiter.Drop | crates/keyvisor-agent/src/main.rs:659-669 | dropping a permit frees exactly one slot and wakes one waiter if there is one |
| Rendezvous.StepKeepsInv | crates/keyvisor-agent/src/main.rs:416-469 | every atomic action of any thread keeps the invariant tying entries, channels, claims and permits together |
| RendezvousTheorems.PinProvenance | crates/keyvisor-agent/src/main.rs:244-275 | a received PIN was sent, octet for octet, by an AUTHORIZE naming that request; no PIN reaches two requests; an identifier is claimed at most once |
| RendezvousTheorems.ChannelNeverFails | crates/keyvisor-agent/src/main.rs:442-448 | the disconnected branch is unreachable and `send` on the capacity-one channel never blocks |
| RendezvousTheorems.PendingIsBounded | crates/keyvisor-agent/src/main.rs:92-104 | pending entries never outnumber live permits, and permits are at most sixteen |
| RendezvousTheorems.PollingIsBounded | crates/keyvisor-agent/src/main.rs:440-463 | at most ceil(timeout / 50 ms) + 1 polls; timeouts and cancellations are never reported without cause |
| RendezvousTheorems.CancelledIffDisconnected | crates/keyvisor-agent/src/main.rs:557-590 | in every run a request is marked cancelled if and only if its client has disconnected |
| RendezvousTheorems.GoneClientEndsPolling | crates/keyvisor-agent/src/main.rs:456-463 | a request whose client has gone polls at most once more, and not at all once it has polled since it last slept |
| Bounds.PollBoundIsReached | crates/keyvisor-agent/src/main.rs:440-463 | for every timeout some run polls exactly ceil(timeout / 50 ms) + 1 times and times out at the first multiple of 50 ms not before the deadline |
| Bounds.PendingBoundIsReached | crates/keyvisor-agent/src/main.rs:92-104 | in some run sixteen requests are pending at once, and whoever arrives then waits |
| RendezvousTheorems.GoneStaysGone | crates/keyvisor-agent/src/main.rs:464-468 | once a request has withdrawn its entry its identifier never reappears and every later claim of it is refused |
| RendezvousTheorems.DeliveredIffPolledAgain | crates/keyvisor-agent/src/main.rs:442-463 | a PIN in the channel reaches its request if and only if the request polls once more |
| PinFate.AlwaysUsedIff | crates/keyvisor-agent/src/main.rs:440-468 | a PIN in the channel is used in every run that ends if and only if the worker has not begun its loop, is about to poll, or sleeps |
| PinFate.NeverUsedIff | crates/keyvisor-agent/src/main.rs:440-468 | it is used in no run if and only if the worker has left its loop or stands before a test that must fail |
| PinFate.AuthorizedMeansUsedIff | crates/keyvisor-agent/src/main.rs:266-275 | at the moment of the send that makes the answer "OK authorized", the worker's position decides exactly whether the PIN is sure to be used or sure to be lost |
| PinFate.SendAfterLastPoll | crates/keyvisor-agent/src/main.rs:442-455 | from any failed poll the send can still succeed while the request times out |
| PinFate.AuthorizedButUnused | crates/keyvisor-agent/src/main.rs:260-275 | a complete run in which "OK authorized" is answered and the PIN is never used |
| Agent.RequestPin | crates/keyvisor-agent/src/main.rs:416-469 | the polling loop terminates whatever other threads do, withdraws its entry, and its outcome is a claimed PIN, a timeout no earlier than the timeout after the call, or a real cancellation |
| Agent.PollOnce | crates/keyvisor-agent/src/main.rs:441-463 | one turn of the loop either decides the outcome or has passed time before the deadline |
| Agent.Shared.WorkerActs | crates/keyvisor-agent/src/main.rs:421-431 | a worker's own action stays possible however others interleave, and is a step of the machine |
| Agent.AuthorizeRequest | crates/keyvisor-agent/src/main.rs:260-275 | claim then send: refused as not pending exactly if the entry was absent at the claim, as not active exactly if the worker had returned at the send, otherwise authorized for that entry's request |
| Agent.ServeControl | crates/keyvisor-agent/src/main.rs:215-278 | the octets answered and the effect on the rendezvous agree with the command that was read; a command that cannot be read is refused with its own error, and a well-formed AUTHORIZE is refused only for one of the two causes of `Agent.AuthorizeRequest` |
| Agent.ClientConcludes | crates/keyvisor-cli/src/main.rs:325-332 | reading the agent's answer, whatever its error texts and whatever follows, the client takes its PIN for accepted if and only if the agent authorized a request, and the agent for running if and only if it was asked that |
| ControlClient.ReadAuthorized | crates/keyvisor-cli/src/main.rs:412-420 | the client's line reader and comparison decide as the reference says, for every stream |
| ControlClient.ReadStatus | crates/keyvisor-cli/src/main.rs:328-334 | the same for the status command |
| ControlClient.RefusalIsTold | crates/keyvisor-cli/src/main.rs:636-640 | an error text of one line reaches the client word for word |
| ControlSession.AuthorizeSession | crates/keyvisor-cli/src/main.rs:408-420 | client and agent together, under any interleaving: the client reports success if and only if its PIN, octet for octet, went into the channel of the request it named |
| ControlSession.ListSession | crates/keyvisor-cli/src/main.rs:574-597 | client and agent together: the client gets exactly the requests pending at the snapshot, with their key names |
| ControlSession.StatusSession | crates/keyvisor-cli/src/main.rs:327-334 | client and agent together: the client learns that the agent runs |
| Agent.PendingRows | crates/keyvisor-agent/src/main.rs:229-236 | the snapshot lists every pending entry once, with its key name |
| Protocol.WireIsPrefixFree | crates/keyvisor-agent/src/protocol.rs:58-89 | no request encoding is a proper prefix of another, and equal encodings are equal requests |
| Protocol.WireLayout | crates/keyvisor-agent/src/protocol.rs:58-89 | the two encodings octet by octet: 11, and 13 with two strings and a word |
| Protocol.ParseRequest | crates/keyvisor-agent/src/protocol.rs:58-89 | the cursor parser answers what the declarative reference says, each refusal with its own error |
| Protocol.AcceptedIffEncoding | crates/keyvisor-agent/src/protocol.rs:58-89 | a packet is accepted if and only if it has at most 262144 octets and is exactly the encoding of the returned request |
| Protocol.NoAmbiguity | crates/keyvisor-agent/src/protocol.rs:143-172 | truncated and extended packets are refused and no two requests share a packet |
| Protocol.TakeString | crates/keyvisor-agent/src/protocol.rs:143-162 | a string is taken exactly when its length fits, leaving what follows |
| Protocol.CheckedFrame | crates/keyvisor-agent/src/protocol.rs:201-214 | exactly payloads within the bound are framed |
| Protocol.PushString | crates/keyvisor-agent/src/protocol.rs:174-182 | a string is appended exactly when the output stays within the bound |
| Protocol.IdentitiesResponse | crates/keyvisor-agent/src/protocol.rs:102-112 | succeeds if and only if 5 plus the sum of 8 + key + name lengths is within the bound |
| Protocol.IdentitiesRoundTrip | crates/keyvisor-agent/src/protocol.rs:102-112 | behind message number 12 a client reads back the same blobs and comments in the same order |
| Mpint.MpintDenotesScalar | crates/keyvisor-agent/src/protocol.rs:184-199 | the encoding's two's-complement value is the unsigned scalar, and it is shortest |
| Mpint.ShortestIsMinimal | crates/keyvisor-agent/src/protocol.rs:184-199 | a shortest encoding is no longer than any encoding of its number |
| Mpint.ShortestIsUnique | crates/keyvisor-agent/src/protocol.rs:184-199 | equal numbers have one shortest encoding |
| Mpint.MpintIsCanonical | crates/keyvisor-agent/src/protocol.rs:184-199 | encodings are equal exactly for equal numbers, so leading zeros of the TPM output do not show |
| Ecdsa.PadKeepsValue | crates/keyvisor-tpm/src/esapi.rs:449-456 | padding keeps the number |
| Ecdsa.PadIsDetermined | crates/keyvisor-tpm/src/esapi.rs:449-456 | padded forms are equal exactly for equal numbers |
| Keys.ComponentFitsTheCurve | crates/keyvisor-core/src/lib.rs:34-69 | the component has as many bits as the number in the curve's SSH name, and the key type ends in that name |
| Ecdsa.AppendPadded | crates/keyvisor-tpm/src/esapi.rs:449-456 | a value wider than the component is refused and leaves the output alone |
| Ecdsa.RawSignature | crates/keyvisor-tpm/src/esapi.rs:316-332 | the raw signature is both scalars at full width, in order |
| Ecdsa.SshPublicKey | crates/keyvisor-tpm/src/esapi.rs:419-441 | the key blob of RFC 5656 section 3.1, for in-range coordinates only |
| Ecdsa.KeyBlobIdentifiesKey | crates/keyvisor-tpm/src/esapi.rs:419-441 | two keys share a blob exactly when algorithm and both coordinates agree |
| Ecdsa.PushMpint | crates/keyvisor-agent/src/protocol.rs:184-199 | the loop appends the canonical mpint exactly when it fits |
| Ecdsa.EcdsaSignatureResponse | crates/keyvisor-agent/src/protocol.rs:120-141 | exactly full-width signatures are answered, never hitting the packet bound |
| Ecdsa.SignReply | crates/keyvisor-tpm/src/esapi.rs:316-332 | across both crates: exactly an in-range pair yields a response, whatever leading zeros it has |
| Ecdsa.ResponseIsTheTwoNumbers | crates/keyvisor-agent/src/protocol.rs:120-141 | responses for one key type are equal if and only if they carry the same two numbers |
| Ecdsa.SignatureRoundTrip | crates/keyvisor-agent/src/protocol.rs:120-141 | behind message number 14 a client reads the key type and exactly the unsigned r and s of the TPM |
| Connection.DeframeFramed | crates/keyvisor-agent/src/protocol.rs:208-214 | deframing a concatenation of frames gives back the payloads and whatever follows |
| Connection.StreamIsFramed | crates/keyvisor-agent/src/main.rs:510-521 | every stream is the frames of its packets followed by its remainder |
| Connection.ReadPacketLength | crates/keyvisor-agent/src/main.rs:671-685 | a clean end of stream, a short length and a length are told apart |
| Connection.ReadPacket | crates/keyvisor-agent/src/main.rs:510-521 | a packet of 1 to 262144 octets, a clean end, a bad length and a short read are told apart |
| Connection.ServeConnection | crates/keyvisor-agent/src/main.rs:500-531 | for any stream, writes one reply per complete in-bound packet in order, plus one failure for a bad length, and reports how the stream ended |
| Connection.OneReplyPerPacket | crates/keyvisor-agent/src/main.rs:500-531 | deframing the output gives exactly one payload per packet, in order: what handling that packet returned where it succeeded, the octet 5 where it failed; then a lone 5 exactly for a bad length |
| Disk.PowerLossView | crates/keyvisor-agent/src/lib.rs:117-127 | what was stable in the surviving view is found after a power loss |
| AtomicFile.CreateTemporary | crates/keyvisor-agent/src/lib.rs:89-115 | at most one attempt per candidate name; only a fresh name is taken |
| AtomicFile.FillTemporary | crates/keyvisor-agent/src/lib.rs:121-122 | partial writes and failed syncs of the temporary file are never observed |
| AtomicFile.UnsyncedRenameCanTear | crates/keyvisor-agent/src/lib.rs:118-122 | without the sync a power loss may leave anything at all under the new name |
| AtomicFile.Publish | crates/keyvisor-agent/src/lib.rs:124-125 | the rename switches old to new in one step; the directory sync makes it permanent |
| AtomicFile.ReplaceFile | crates/keyvisor-agent/src/lib.rs:89-132 | at every point of stopping or failing the observed files are the old or the new ones, after any power loss too; new after a failure exactly if the rename was reached; a failure leaves no temporary file unless its removal fails too |
| KeyRecord.EncodeRecord | crates/keyvisor-agent/src/lib.rs:229-245 | encoding succeeds exactly within the encoder's limits |
| KeyRecord.RecordOctets | crates/keyvisor-agent/src/lib.rs:229-245 | the octets of every record, written out |
| KeyRecord.CheckKey | crates/keyvisor-agent/src/lib.rs:209-227 | the record check accepts exactly texts of 1 to 4096 octets, blobs of 1 to 1048576 and agreeing policies |
| KeyRecord.DecodeRecord | crates/keyvisor-agent/src/lib.rs:247-286 | the cursor decoder answers the reference decoder; a success is a valid key whose record is exactly the input |
| KeyRecord.DecodeIffEncode | crates/keyvisor-agent/src/lib.rs:209-326 | decoding yields a key if and only if the key is valid and these are its record's octets |
| KeyRecord.DecodeOfEncode | crates/keyvisor-agent/src/lib.rs:229-286 | encoding is total on valid keys and accepted records are prefix-free |
| KeyRecord.EncodeOfDecode | crates/keyvisor-agent/src/lib.rs:247-286 | whatever decodes re-encodes to itself |
| KeyStores.NamesAreSeparate | crates/keyvisor-agent/src/lib.rs:350-358 | record names are injective and recognised; temporaries are never recognised |
| KeyStores.KeyNameIff | crates/keyvisor-agent/src/lib.rs:164 | a name has the record extension if and only if it ends in ".key" behind at least one character |
| KeyStores.TemporariesDiffer | crates/keyvisor-agent/src/lib.rs:94-99 | temporary names are equal exactly for the same identifier, process and attempt |
| Texts.EncodeHex | crates/keyvisor-agent/src/lib.rs:350-358 | the loop writes two lower-case digits per octet |
| Texts.UnhexOfHex | crates/keyvisor-agent/src/main.rs:830-838 | the hexadecimal spelling reads back as the octets |
| RecordDirectory.MeaningIsUnique | crates/keyvisor-agent/src/lib.rs:155-177 | a directory means at most one key map |
| RecordDirectory.PowerLossLeavesAMap | crates/keyvisor-agent/src/lib.rs:117-127 | a power loss leaves one of the possible maps, whole, whatever unsynced files become |
| RecordDirectory.AcknowledgedSurvives | crates/keyvisor-agent/src/lib.rs:74-132 | an acknowledged save or delete survives any later operations on other keys, failed or not, and any power losses |
| RecordDirectory.SuccessfulRunIsTheMap | crates/keyvisor-agent/src/lib.rs:84-200 | over any run of successful saves and deletes the store is exactly the finite map |
| KeyStoreRuns.PerformAll | crates/keyvisor-agent/src/lib.rs:84-200 | any sequence of the store's own saves and deletes, each stopped at any state by a crash or power loss and followed by another process, is a behaviour of the abstract store recorded exactly as the callers were answered; on a healthy device, with stops only between sound operations, every caller is answered with success |
| KeyStoreRuns.PerformFromEmpty | crates/keyvisor-agent/src/lib.rs:84-200 | from an empty directory, if every caller was answered with success the store is exactly the finite map of the operations; on a healthy device, with stops only between operations, prepared saves of valid keys and deletes of stored identifiers are always so answered |
| KeyStoreRuns.AcknowledgedThenOthers | crates/keyvisor-agent/src/lib.rs:74-132 | what a save or delete acknowledged is there after any further operations on other identifiers, failures, crashes and power losses; a sound one on a healthy device is acknowledged |
| KeyStores.KeyStore.Save | crates/keyvisor-agent/src/lib.rs:84-133 | refines map update; old or new at every point; a failure leaves the store unchanged if and only if the rename was not reached or this key was stored already, and leaves no temporary file unless its removal fails; succeeds on a healthy device |
| KeyStores.KeyStore.Open | crates/keyvisor-agent/src/lib.rs:70-76 | a later process may open any directory that holds a map's records |
| KeyStores.KeyStore.Delete | crates/keyvisor-agent/src/lib.rs:189-200 | refines map removal with the error cases, and succeeds for a stored key on a healthy device |
| KeyStores.KeyStore.Load | crates/keyvisor-agent/src/lib.rs:141-144 | is map lookup, up to I/O errors |
| KeyStores.KeyStore.VisitEntry | crates/keyvisor-agent/src/lib.rs:162-174 | an entry without the record extension changes nothing, a record is appended as it decodes, and a corrupted record fails with its own error |
| KeyStores.KeyStore.List | crates/keyvisor-agent/src/lib.rs:155-177 | whatever the directory order, the listing is the map's values in strictly increasing identifier order; for any directory it fails exactly for an undecodable record, up to I/O errors |
| Ordering.BeforeIsLexicographic | crates/keyvisor-agent/src/lib.rs:175 | one identifier comes before another if and only if it is a proper prefix or has the smaller octet at the first difference |
| KeyStores.RenameAloneReplaces | crates/keyvisor-agent/src/lib.rs:124-125 | between rename and directory sync the new record is visible and a power loss can still restore the old one |
| KeyStores.KeysAreValid | crates/keyvisor-agent/src/lib.rs:209-227 | every key of the store passed validation |
| Ordering.ListingIsUnique | crates/keyvisor-agent/src/lib.rs:175 | two strictly sorted listings with the same members are equal |
| Ordering.SortById | crates/keyvisor-agent/src/lib.rs:175 | sorted by identifier and a permutation |
| Ordering.SortIsStable | crates/keyvisor-agent/src/lib.rs:175 | keys with equal identifiers keep their order |
| Histories.DecodeIffEncode | crates/keyvisor-agent/src/history.rs:161-229 | decoding yields a log if and only if it is valid, has at most 200 entries and encodes to these octets |
| Histories.EncodeLog | crates/keyvisor-agent/src/history.rs:161-187 | exactly valid, bounded logs are encoded |
| Histories.LogOctets | crates/keyvisor-agent/src/history.rs:161-187 | the octets of every log and every entry, written out |
| Histories.CheckEntry | crates/keyvisor-agent/src/history.rs:150-159 | an entry is accepted exactly if both texts have 1 to 4096 octets |
| Histories.TemporariesDiffer | crates/keyvisor-agent/src/history.rs:135-148 | temporary names are equal exactly for the same process and attempt |
| Histories.DecodeLog | crates/keyvisor-agent/src/history.rs:189-229 | the loop answers the reference decoder |
| Histories.NewestOfNewest | crates/keyvisor-agent/src/history.rs:84-90 | dropping the oldest early or late gives the same newest 200 |
| Histories.HistoryIsNewest | crates/keyvisor-agent/src/history.rs:77-114 | after any run of successful appends the log is the newest 200 entries in order |
| Histories.PowerLossLeavesALog | crates/keyvisor-agent/src/history.rs:116-132 | a power loss leaves one of the possible logs, whole |
| HistoryRuns.PerformAll | crates/keyvisor-agent/src/history.rs:77-132 | any sequence of the history's own appends, each stopped at any state by a crash or power loss and followed by another process, is a behaviour of the bounded log recorded exactly as the callers were answered; on a healthy device, with stops only between appends, every caller is answered with success |
| HistoryRuns.PerformFromAbsent | crates/keyvisor-agent/src/history.rs:77-114 | from an absent file, if every caller was answered with success the history is the newest 200 of all entries in order; on a healthy device, with stops only between appends, prepared appends of valid entries are always so answered |
| Histories.HistoryStore.List | crates/keyvisor-agent/src/history.rs:94-114 | any file is read as its log or refused as invalid, a missing one is empty, and this store's own file is never refused |
| Histories.HistoryStore.Open | crates/keyvisor-agent/src/history.rs:65-71 | a later process may open any file that holds a log |
| Histories.HistoryStore.Append | crates/keyvisor-agent/src/history.rs:77-92 | refines the bounded append: old or new log at every point, invalid entries refused, valid ones never |
| Signing.FindChooses | crates/keyvisor-agent/src/main.rs:319-325 | the first match in a listing has the smallest identifier among keys with that blob |
| Signing.SignWithKey | crates/keyvisor-agent/src/main.rs:341-384 | succeeds exactly if PIN, checks and TPM allow it; the client reads from the response the two numbers the TPM gave for this key, the SHA-256 or SHA-384 digest of the data as the curve demands, and no PIN or the PIN obtained |
| Signing.TpmIsAsked | crates/keyvisor-agent/src/main.rs:346-374 | with a TPM that answers one question only, signing succeeds if and only if that question has this key, the digest the curve demands, and no authorization for a key without a PIN or the obtained PIN for a key with one |
| Signing.ClientReadsTheKeys | crates/keyvisor-agent/src/main.rs:302-311 | an answered listing shows the client the public key and name of every stored key, once each, in increasing order of identifiers |
| Signing.AgentRuntime.RecordHistory | crates/keyvisor-agent/src/main.rs:386-414 | one entry for the attempt when history is enabled, with this key's identifier, name and policy, the time, and success exactly if signing succeeded; recorded whenever the device and the directory allow it; nothing when it is disabled |
| Signing.AgentRuntime.Handle | crates/keyvisor-agent/src/main.rs:299-339 | every answer explained by the request and the stored keys; a sign response exactly for a reached key that signs; one history entry per reached key, recorded whenever the device and the directory allow it, and none otherwise |
| Signing.HandleAll | crates/keyvisor-agent/src/main.rs:299-414 | for any list of requests handled by the agent with a fresh history on a healthy device: the history holds one entry for each of the newest 200 requests that reached a stored key, in order, with that key's identifier, name and policy, the time, and success exactly for a sign response; with history disabled, none |
| Signing.SignResponseMeansPresentAtChecks | crates/keyvisor-agent/src/main.rs:300-384 | a sign response shows that the client had not left at any of the three checks |
| Signing.ClientMayLeaveUnnoticed | crates/keyvisor-agent/src/main.rs:376-384 | every sign response is equally given to a client that leaves after the last check |
| Signing.SignedForADepartedClient | crates/keyvisor-agent/src/main.rs:376-384 | for every key and payload there are surroundings in which signing succeeds although the client is gone when the response is written |
| Signing.PresenceIsKnownUpToLastCheck | crates/keyvisor-agent/src/main.rs:376-384 | success shows presence at a point if and only if it is no later than the last check |
| Worker.SignForClient | crates/keyvisor-agent/src/main.rs:341-384 | end to end: for a key with a PIN the worker asks, waits until its request is decided and uses the PIN it obtained; a sign response carries the two numbers that the TPM gave for exactly this key, this digest and, octet for octet, the PIN of an AUTHORIZE naming this worker's request, which every listing shows under this key's name |
| Signing.UsedIsAttempted | crates/keyvisor-agent/src/main.rs:319-336 | the key used is the only one the request can reach |
| Signing.AttemptsTellOfKeyUses | crates/keyvisor-agent/src/main.rs:386-401 | the entries called for stand one to one, in order, with the requests that reached a key, and say what happened to them |
| Signing.HistoryTellsTheAttempts | crates/keyvisor-agent/src/main.rs:299-414 | over any run in which the attempts are recorded the history has exactly one entry per request that reached a key (newest 200), each with its key, its time and success exactly for a sign response |
| Signing.DisabledHistoryIsConstant | crates/keyvisor-agent/src/main.rs:386-389 | with history disabled nothing is recorded |
| Texts.RequestId | crates/keyvisor-agent/src/main.rs:421-422 | the sequence number can be read back, so identifiers never collide |
| Texts.RequestIdSpelling | crates/keyvisor-agent/src/main.rs:421-422 | an identifier is the process number in hexadecimal without leading zeros, a hyphen and the sequence number in sixteen digits |
| Texts.RequestIdsDiffer | crates/keyvisor-agent/src/main.rs:421-422 | two identifiers are equal if and only if process and sequence number are |
| Texts.RequestIdIsPlain | crates/keyvisor-agent/src/main.rs:421-422 | identifiers are short and free of separators |
| Control.AgentReadLine | crates/keyvisor-agent/src/main.rs:280-291 | accepts exactly newline-ended UTF-8 lines of at most 16384 octets, newline included, and tells a missing line from one that is not UTF-8 |
| Control.ClientReadLine | crates/keyvisor-cli/src/main.rs:622-634 | accepts exactly newline-ended UTF-8 lines of at most 16384 octets, newline excluded |
| Control.ReadersDifferIff | crates/keyvisor-cli/src/main.rs:622-634 | the two readers agree on every input except a valid line of exactly 16384 octets |
| Control.ReadersDiffer | crates/keyvisor-agent/src/main.rs:280-291 | there is a line that the client takes and the agent refuses |
| Control.ReadCommand | crates/keyvisor-agent/src/main.rs:226-264 | understands exactly the three commands, reads the whole PIN before it succeeds, and refuses anything else with the error the source gives it |
| Control.StatusAndListAreUnderstood | crates/keyvisor-cli/src/main.rs:327 | the octets of the client's STATUS and LIST (line 576) are understood as those commands |
| Control.AuthorizeRefusals | crates/keyvisor-agent/src/main.rs:244-264 | an AUTHORIZE with a proper identifier is refused as too long, for its PIN length, or for a PIN cut short, each with its own error |
| Texts.ParseUsizeReads | crates/keyvisor-agent/src/main.rs:252-256 | numbers are read exactly from an optional plus sign, zeros and the decimal spelling, below 2^64 |
| Unicode.TextIsUnicode | crates/keyvisor-agent/src/main.rs:290 | octets are accepted as text if and only if they are the UTF-8 forms of Unicode scalar values |
| Control.SendAuthorize | crates/keyvisor-cli/src/main.rs:408-411 | the octets the client writes |
| Control.AuthorizeRoundTrip | crates/keyvisor-cli/src/main.rs:398-421 | the agent reads back exactly identifier and PIN if and only if the identifier is one word, the PIN has 6 to 64 octets and the line fits |
| Control.AnswerList | crates/keyvisor-agent/src/main.rs:237-242 | the octets the agent writes for LIST |
| Control.DecodeHexText | crates/keyvisor-cli/src/main.rs:992-1003 | the loop decodes exactly hexadecimal UTF-8 text |
| Control.FetchRequests | crates/keyvisor-cli/src/main.rs:574-597 | the client's parser answers the reference reading of the stream: the rows and what follows them, or the reason for refusal |
| Control.ListRoundTrip | crates/keyvisor-cli/src/main.rs:574-597 | the client reads back exactly the agent's rows if and only if there are at most sixteen and each fits |
| PendingList.ClientSeesThePendingRequests | crates/keyvisor-cli/src/main.rs:583-597 | in every reachable state of the agent the client reads exactly the pending identifiers and names, never refusing the count |
| PendingList.ShownIdentifierIsUnderstood | crates/keyvisor-agent/src/main.rs:244-264 | an identifier shown by LIST, sent back with any acceptable PIN, is understood exactly |
| PendingList.IdentifierMeansOneRequest | crates/keyvisor-agent/src/main.rs:421-431 | in all runs of one agent an identifier stands for one request |
| Escaping.EscapeIsSubstitution | crates/keyvisor-cli/src/main.rs:984-990 | the four sequential replacements equal one substitution |
| Escaping.TsvRoundTrip | crates/keyvisor-cli/src/main.rs:984-990 | unescaping answers a value exactly for that value's escaped form |
| Escaping.EscapedFieldIsOneCell | crates/keyvisor-cli/src/main.rs:984-990 | no tab, carriage return or newline in the output |
| Escaping.AppendAssuanData | crates/keyvisor-cli/src/main.rs:838-863 | appends the decoded octets exactly if every escape is sound and the total is within 64; an oversized value wipes the output, an unsound escape leaves what came before it, and whichever comes first is reported |
| Escaping.AssuanEscape | crates/keyvisor-cli/src/main.rs:865-877 | the loop writes the escaped form |
| Escaping.AssuanRoundTrip | crates/keyvisor-cli/src/main.rs:838-877 | an escaped value reads back into an empty buffer if and only if it has at most 64 octets, and is reported oversized otherwise |
| Escaping.EscapedIsOneLine | crates/keyvisor-cli/src/main.rs:865-877 | only plain characters and percent signs, so never CR or LF |
| Escaping.ReadPinentryResponse | crates/keyvisor-cli/src/main.rs:800-817 | the loop over dialog lines answers the reference reading: the data and the rest of the stream, or the first error |
| Escaping.DialogGivesTheValue | crates/keyvisor-cli/src/main.rs:800-817 | "D " and an escaped value, then "OK", answers the value if and only if it has at most 64 octets |
| Escaping.DialogCancels | crates/keyvisor-cli/src/main.rs:811-812 | an "ERR" line cancels whatever was read before |
| Escaping.AnswerIsTheWholeValue | crates/keyvisor-cli/src/main.rs:800-863 | however the dialog splits a value over data and status lines, the answer is the whole value, or is refused exactly for an unsound escape or a total over 64 octets |

## Left out

- TPM2-TSS calls, sessions, object templates and their error mapping: foreign calls; signing is a parameter that answers two scalars or nothing.
- SHA-2, base64 and fingerprints: library code; the two digest functions are parameters.
- Socket binding, systemd activation, file modes, ownership checks, peer credentials and path lookup: operating-system plumbing. Directory and permission checks appear as the `prepared` parameters.
- Directory entries and history files that are not regular files or have open permissions, and a missing store directory as distinct from an empty one.
- Terminal handling, process spawning, signal forwarding and child supervision of the client, and the graphical authorizer process of the agent.
- Zeroization, except that an oversized dialog value empties its buffer.
- `config.rs`: only the timeout it supplies appears, as an arbitrary number.
- Read and write timeouts of sockets, and write errors: streams are read to their end and writes succeed.
- Error texts: errors are constructors, and the text of an `ERR` line is a parameter.
- The retry of the TPM connection across requests: whether the TPM opens is a parameter of each request.
- Connection.ServeConnection: handling is a parameter that answers each packet; `Signing.AgentRuntime.Handle` shows that real answers are responses within the bound.
- Signing.AgentRuntime.Handle: the PIN is a parameter here; `Worker.SignForClient` takes it from the rendezvous.
- Signing.HistoryTellsTheAttempts: power losses between requests are treated by `HistoryRuns.PerformAll`, not here.
- KeyStores.KeyStore.Load: says nothing of the empty identifier, whose file name is never one of the store's records.
- Agent.ServeControl: a refused command may have consumed any part of its input.

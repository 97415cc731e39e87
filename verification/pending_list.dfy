/** The rendezvous seen through the control protocol: what a client of a running
    agent reads. */
module PendingList {
  import opened Wrappers
  import opened Bytes
  import opened Texts
  import opened Rendezvous
  import opened RendezvousTheorems
  import opened Control

  predicate IsRowOf(row: Row, s: State) {
    && row.id in s.authorizations
    && s.authorizations[row.id] in s.requests
    && row.name == s.requests[s.authorizations[row.id]].name
  }

  /** One row per pending entry, in whatever order the map is iterated. */
  ghost predicate Enumerates(pending: seq<Row>, s: State) {
    && (forall i | 0 <= i < |pending| :: IsRowOf(pending[i], s))
    && (forall i, j | 0 <= i < j < |pending| :: pending[i].id != pending[j].id)
    && (forall id | id in s.authorizations :: exists i :: 0 <= i < |pending| && pending[i].id == id)
  }

  /** Names come from validated keys. */
  ghost predicate NameFits(s: State, r: u64) {
    r in s.requests ==> 0 < |s.requests[r].name| <= 4096
  }

  lemma NameStaysShort(s: State, e: Event, r: u64)
    requires Enabled(s, e) && NameFits(s, r)
    ensures NameFits(Next(s, e), r)
  {
  }

  lemma {:induction false} NamesStayShort(s: State, events: seq<Event>, r: u64)
    requires NameFits(s, r) && Runs(s, events)
    ensures NameFits(Run(s, events), r)
    decreases |events|
  {
    if events != [] {
      NameStaysShort(s, events[0], r);
      NamesStayShort(Next(s, events[0]), events[1..], r);
    }
  }

  lemma {:induction false} IdsStay(s: State, events: seq<Event>)
    requires Runs(s, events)
    ensures Run(s, events).ids == s.ids
    decreases |events|
  {
    if events != [] {
      IdsStay(Next(s, events[0]), events[1..]);
    }
  }

  /** An enumeration has one row per entry. */
  lemma {:induction false} RowsCountEntries(rows: seq<Row>, entries: set<seq<byte>>)
    requires forall i | 0 <= i < |rows| :: rows[i].id in entries
    requires forall i, j | 0 <= i < j < |rows| :: rows[i].id != rows[j].id
    ensures |rows| <= |entries|
    decreases |rows|
  {
    if rows != [] {
      var n := |rows| - 1;
      var last := rows[n].id;
      RowsCountEntries(rows[..n], entries - {last});
    }
  }

  /** A pending entry is filed under the identifier minted for its request. */
  lemma EntryIsMinted(pid: nat, timeout: nat, events: seq<Event>, id: seq<byte>)
    requires Runs(Init(pid, timeout), events) && id in After(pid, timeout, events).authorizations
    ensures id == RequestId(pid, After(pid, timeout, events).authorizations[id])
  {
    var s := After(pid, timeout, events);
    ReachableInv(pid, timeout, events);
    IdsStay(Init(pid, timeout), events);
    assert EntryInv(s, id);
  }

  lemma MintedIsPlain(pid: nat, r: u64)
    requires pid < U32_LIMIT
    ensures var id := RequestId(pid, r);
            IsWord(id) && ValidUtf8(id) && |id| <= 25
  {
    RequestIdIsPlain(pid, r);
  }

  lemma PlainRowFits(row: Row)
    requires IsWord(row.id) && |row.id| <= 25 && |row.name| <= 4096
    ensures RowFits(row)
  {
  }

  /** In every state an agent can reach, the client reads from LIST exactly the
      pending requests and their key names: never too many, no line too long. */
  lemma ClientSeesThePendingRequests(pid: nat, timeout: nat, events: seq<Event>, pending: seq<Row>, extra: seq<byte>)
    requires pid < U32_LIMIT && Runs(Init(pid, timeout), events)
    requires Enumerates(pending, After(pid, timeout, events))
    ensures Listed(ListBytes(pending) + extra) == Success((pending, extra))
  {
    var s := After(pid, timeout, events);
    PendingIsBounded(pid, timeout, events);
    RowsCountEntries(pending, s.authorizations.Keys);
    forall i | 0 <= i < |pending| ensures ValidUtf8(pending[i].id) && RowFits(pending[i]) {
      var r := s.authorizations[pending[i].id];
      EntryIsMinted(pid, timeout, events, pending[i].id);
      MintedIsPlain(pid, r);
      NamesStayShort(Init(pid, timeout), events, r);
      PlainRowFits(pending[i]);
    }
    ListRoundTrip(pending, extra);
  }

  /** An identifier the client was shown, sent back with any PIN of acceptable
      length, reaches the agent as exactly that identifier and that PIN. */
  lemma ShownIdentifierIsUnderstood(pid: nat, timeout: nat, events: seq<Event>, id: seq<byte>, pin: Pin, extra: seq<byte>)
    requires pid < U32_LIMIT && Runs(Init(pid, timeout), events)
    requires id in After(pid, timeout, events).authorizations
    requires 6 <= |pin| <= MAX_PIN_BYTES
    ensures Understood(AuthorizeBytes(id, pin) + extra) == Success((Authorize(id, pin), extra))
  {
    EntryIsMinted(pid, timeout, events, id);
    MintedIsPlain(pid, After(pid, timeout, events).authorizations[id]);
    ShortLine(id, |pin|);
    AuthorizeRoundTrip(id, pin, extra);
  }

  lemma ShortLine(id: seq<byte>, length: nat)
    requires |id| <= 25 && length <= MAX_PIN_BYTES
    ensures |AuthorizeLine(id, length)| <= AGENT_LINE
  {
    DecimalOfSmall(length);
  }

  /** Whenever an identifier is pending, in whatever run of one agent, it stands
      for the same request: a client can never be shown one request and
      authorize another. */
  lemma IdentifierMeansOneRequest(pid: nat, timeout: nat, events: seq<Event>, later: seq<Event>, id: seq<byte>)
    requires Runs(Init(pid, timeout), events) && Runs(Init(pid, timeout), later)
    requires id in After(pid, timeout, events).authorizations && id in After(pid, timeout, later).authorizations
    ensures After(pid, timeout, events).authorizations[id] == After(pid, timeout, later).authorizations[id]
  {
    EntryIsMinted(pid, timeout, events, id);
    EntryIsMinted(pid, timeout, later, id);
    assert SequenceOf(id) == After(pid, timeout, events).authorizations[id];
  }
}

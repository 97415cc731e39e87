/** Runs of the signing history's own methods: appends by a succession of
    processes, each of which may be stopped at any state the device passes through. */
module HistoryRuns {
  import opened Wrappers
  import opened Disk
  import opened Durability
  import opened Histories
  import opened Chains

  /** An append, and whether its process is stopped, counted from the device's
      state at the start; `pid` is the process that follows. */
  datatype Action = Action(entry: Entry, prepared: bool, stop: Option<Stop>, pid: nat)
  {
    /** The process may be stopped before the append is complete. */
    predicate Interrupted() {
      stop.Some? && stop.value.at.Some?
    }

    /** Nothing but the device can make the append fail. */
    predicate Sound() {
      ValidEntry(entry) && prepared
    }

    /** What is recorded of this action: the append as it was acknowledged, and
        the power loss that stopped its process. */
    ghost predicate Explains(ack: bool, events: seq<HistoryEvent>) {
      events == [Appended(entry, ack)] + (if stop.Some? && stop.value.loss.Some? then [PowerLost] else [])
    }
  }

  ghost function Explained(): (Action, bool, seq<HistoryEvent>) -> bool {
    (action: Action, ack: bool, events: seq<HistoryEvent>) => action.Explains(ack, events)
  }

  /** Processes are stopped only between appends of acceptable entries. */
  ghost predicate Undisturbed(actions: seq<Action>) {
    forall i | 0 <= i < |actions| :: !actions[i].Interrupted() && actions[i].Sound()
  }

  /** Stopped before it was acknowledged, an append has happened or not. */
  lemma Unacknowledged(l: Layout, s: State, a: Abstract<Log>, entry: Entry) returns (b: Abstract<Log>)
    requires a.current in a.possible
    requires Between(l, s, a, Newest(a.current + [entry]))
    ensures FileInv(l, s, b) && Step(a, Appended(entry, false), b)
  {
    var updated := Newest(a.current + [entry]);
    b := Abstract(a.possible + {updated}, a.current);
    if !FileInv(l, s, b) {
      b := Abstract(a.possible + {updated}, updated);
    }
  }

  /** What the next process finds is again a history. */
  lemma FoundLog(l: Layout, s: State, b: Abstract<Log>, loss: Option<Loss>) returns (c: Abstract<Log>)
    requires FileInv(l, s, b)
    ensures FileInv(l, Found(s, loss), c)
    ensures if loss == None then c == b else Step(b, PowerLost, c)
  {
    c := b;
    if loss.Some? {
      var kept := if loss.value.kept <= |s.pending| then loss.value.kept else |s.pending|;
      var log := PowerLossLeavesALog(l, s, b, kept, loss.value.garbage);
      c := Abstract({log}, log);
    }
  }

  /** One append; `ok` is the answer the caller gets. */
  method AppendOne(store: HistoryStore, entry: Entry, prepared: bool) returns (ok: bool)
    requires store.Valid()
    modifies store, store.disk
    ensures store.Valid() && Step(old(store.model), Appended(entry, ok), store.model)
    ensures ValidEntry(entry) && prepared && store.disk.healthy && HasFreeName(store.layout, old(store.disk.state)) ==> ok
    ensures ok ==> store.disk.state.pending == []
    ensures ok && OnlyTheFile(store.layout, old(store.disk.state)) ==> OnlyTheFile(store.layout, store.disk.state)
    ensures old(store.disk.trace) <= store.disk.trace
    ensures forall i | |old(store.disk.trace)| <= i < |store.disk.trace| ::
              Between(store.layout, store.disk.trace[i], old(store.model), Newest(old(store.model).current + [entry]))
  {
    var r := store.Append(entry, prepared);
    ok := r.Success?;
  }

  /** One action and, if its process is stopped, the opening by the next. `ack` is
      what the caller was told; a caller whose process was stopped before the
      append was complete was told nothing. */
  method Perform(store: HistoryStore, action: Action)
    returns (next: HistoryStore, ack: bool, ghost events: seq<HistoryEvent>, ghost models: seq<Abstract<Log>>)
    requires store.Valid()
    modifies store, store.disk
    ensures next.Valid() && next.disk == store.disk && next.layout.file == store.layout.file
    ensures next == store || fresh(next)
    ensures Behaviour(models, events) && action.Explains(ack, events)
    ensures models[0] == old(store.model) && models[|events|] == next.model
    ensures store.disk.healthy && !action.Interrupted() && action.Sound()
            && HasFreeName(store.layout, old(store.disk.state))
            ==> ack
    ensures ack && !action.Interrupted() && OnlyTheFile(store.layout, old(store.disk.state)) ==>
              OnlyTheFile(next.layout, next.disk.state)
  {
    ghost var before := store.model;
    var start := |store.disk.trace|;
    ack := AppendOne(store, action.entry, action.prepared);
    events, models := [Appended(action.entry, ack)], [before, store.model];
    next := store;
    if action.stop.Some? {
      next, ack, events, models := Stopped(store, action, start, ack, before);
    }
  }

  /** The process is stopped at some state since `start`, or else now. */
  method Stopped(store: HistoryStore, action: Action, start: nat, ok: bool, ghost before: Abstract<Log>)
    returns (next: HistoryStore, ack: bool, ghost events: seq<HistoryEvent>, ghost models: seq<Abstract<Log>>)
    requires store.Valid() && action.stop.Some? && Step(before, Appended(action.entry, ok), store.model)
    requires before.current in before.possible && (ok ==> store.disk.state.pending == [])
    requires forall i | start <= i < |store.disk.trace| ::
               Between(store.layout, store.disk.trace[i], before, Newest(before.current + [action.entry]))
    modifies store.disk
    ensures fresh(next) && next.Valid() && next.disk == store.disk && next.layout.file == store.layout.file
    ensures Behaviour(models, events) && action.Explains(ack, events)
    ensures models[0] == before && models[|events|] == next.model
    ensures ack <==> ok && (action.Interrupted() ==> start + action.stop.value.at.value >= |old(store.disk.trace)|)
    ensures ack && OnlyTheFile(store.layout, old(store.disk.state)) ==> OnlyTheFile(next.layout, next.disk.state)
  {
    ghost var layout, reached := store.layout, store.model;
    var stop := if action.Interrupted() then Stop(Some(start + action.stop.value.at.value), action.stop.value.loss)
                else action.stop.value;
    ack := ok && (stop.at == None || stop.at.value >= |store.disk.trace|);
    ghost var s := stop.Reached(store.disk.trace, store.disk.state);
    if stop.at.Some? && stop.at.value < |store.disk.trace| {
      reached := Unacknowledged(layout, s, before, action.entry);
    } else if ack {
      SettledSurvives(s, stop.loss);
    }
    events, models := [Appended(action.entry, ack)], [before, reached];
    ghost var found := FoundLog(layout, s, reached, stop.loss);
    store.disk.Restart(stop);
    if stop.loss.Some? {
      events, models := events + [PowerLost], models + [found];
    }
    next := new HistoryStore.Open(store.disk, action.pid, layout, store.pid, found);
  }

  /** Any sequence of appends, crashes and power losses, performed by the history's
      methods, is a behaviour of the bounded log, recorded as the callers were
      answered; undisturbed on a healthy device, every caller is answered with
      success. */
  method PerformAll(store: HistoryStore, actions: seq<Action>)
    returns (last: HistoryStore, acks: seq<bool>, ghost logs: seq<seq<HistoryEvent>>, ghost models: seq<Abstract<Log>>)
    requires store.Valid()
    modifies store, store.disk
    ensures last.Valid() && last.disk == store.disk
    ensures |acks| == |actions| && Accounts(Steps(), Explained(), actions, acks, logs, models, old(store.model), last.model)
    ensures store.disk.healthy && OnlyTheFile(store.layout, old(store.disk.state)) && Undisturbed(actions) ==>
              forall i | 0 <= i < |acks| :: acks[i]
  {
    last := store;
    acks, logs, models := [], [], [store.model];
    ghost var calm := store.disk.healthy && OnlyTheFile(store.layout, store.disk.state) && Undisturbed(actions);
    for i := 0 to |actions|
      invariant last.Valid() && last.disk == store.disk
      invariant last == store || fresh(last)
      invariant |acks| == i && Accounts(Steps(), Explained(), actions, acks, logs, models, old(store.model), last.model)
      invariant calm ==> OnlyTheFile(last.layout, last.disk.state)
      invariant calm ==> forall j | 0 <= j < i :: acks[j]
    {
      ghost var events, more;
      var ack;
      last, ack, events, more := PerformNext(last, actions[i], calm);
      AccountsForOneMore(Steps(), Explained(), actions, acks, logs, models, old(store.model), ack, events, more);
      acks, logs, models := acks + [ack], logs + [events], models + more[1..];
    }
  }

  /** The next action of a run, undisturbed so far if `calm`. */
  method PerformNext(store: HistoryStore, action: Action, ghost calm: bool)
    returns (next: HistoryStore, ack: bool, ghost events: seq<HistoryEvent>, ghost models: seq<Abstract<Log>>)
    requires store.Valid()
    requires calm ==> store.disk.healthy && !action.Interrupted() && action.Sound() && OnlyTheFile(store.layout, store.disk.state)
    modifies store, store.disk
    ensures next.Valid() && next.disk == store.disk
    ensures next == store || fresh(next)
    ensures Behaviour(models, events) && action.Explains(ack, events)
    ensures models[0] == old(store.model) && models[|events|] == next.model
    ensures calm ==> ack && OnlyTheFile(next.layout, next.disk.state)
  {
    if calm {
      RoomForTemporaries(store.layout, store.pid, store.disk.state);
    }
    next, ack, events, models := Perform(store, action);
  }

  /** The entries of the actions, oldest first. */
  function Entries(actions: seq<Action>): Log {
    if actions == [] then [] else Entries(actions[..|actions| - 1]) + [actions[|actions| - 1].entry]
  }

  lemma OfferedOneMore(events: seq<HistoryEvent>, e: HistoryEvent)
    ensures Offered(events + [e]) == Offered(events) + (if e.Appended? then [e.entry] else [])
  {
    assert (events + [e])[..|events|] == events;
  }

  lemma OfferedByAction(action: Action, ack: bool, earlier: seq<HistoryEvent>, events: seq<HistoryEvent>)
    requires action.Explains(ack, events)
    ensures Offered(earlier + events) == Offered(earlier) + [action.entry]
  {
    OfferedOneMore(earlier, events[0]);
    if |events| == 2 {
      OfferedOneMore(earlier + [events[0]], events[1]);
      assert earlier + events == (earlier + [events[0]]) + [events[1]];
    } else {
      assert events == [events[0]];
    }
  }

  /** What the logs offer are the entries of the actions. */
  lemma {:induction false} OfferedEntries(actions: seq<Action>, acks: seq<bool>, logs: seq<seq<HistoryEvent>>)
    requires |logs| == |acks| == |actions| && forall i | 0 <= i < |logs| :: Explained()(actions[i], acks[i], logs[i])
    ensures Offered(Flatten(logs)) == Entries(actions)
    ensures (forall i | 0 <= i < |acks| :: acks[i]) ==> forall e | e in Flatten(logs) :: e.PowerLost? || e.ok
    decreases |logs|
  {
    if logs != [] {
      var n := |logs| - 1;
      OfferedEntries(actions[..n], acks[..n], logs[..n]);
      assert Explained()(actions[n], acks[n], logs[n]);
      OfferedByAction(actions[n], acks[n], Flatten(logs[..n]), logs[n]);
    }
  }

  /** From an absent file, when every caller was answered with success, the history
      is the newest 200 of all entries in order, whichever processes wrote them
      and however often the power failed; undisturbed on a healthy device, that is
      always so. */
  method PerformFromAbsent(disk: Device, pid: nat, actions: seq<Action>) returns (last: HistoryStore, acks: seq<bool>)
    requires disk.state == State(map[], 0, map[], [])
    modifies disk
    ensures last.Valid() && |acks| == |actions|
    ensures disk.healthy && Undisturbed(actions) ==> forall i | 0 <= i < |acks| :: acks[i]
    ensures (forall i | 0 <= i < |acks| :: acks[i]) ==>
              last.model == Abstract({Newest(Entries(actions))}, Newest(Entries(actions)))
  {
    var store := new HistoryStore(disk, pid);
    ghost var logs, models;
    last, acks, logs, models := PerformAll(store, actions);
    OfferedEntries(actions, acks, logs);
    if forall i | 0 <= i < |acks| :: acks[i] {
      HistoryIsNewest(models, Flatten(logs));
    }
  }
}

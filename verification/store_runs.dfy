/** Runs of the key store's own methods: operations by a succession of processes,
    each of which may be stopped at any state the device passes through, by a
    crash or a power loss, after which the next process opens what it finds. */
module KeyStoreRuns {
  import opened Wrappers
  import opened Texts
  import opened Keys
  import opened Disk
  import opened Durability
  import opened RecordDirectory
  import opened KeyStores
  import opened Chains

  datatype Operation = SaveKey(key: StoredKey, prepared: bool) | DeleteKey(id: Text)
  {
    function Event(ok: bool): StoreEvent {
      match this
      case SaveKey(key, _) => Saved(key, ok)
      case DeleteKey(id) => Deleted(id, ok)
    }

    /** Nothing but the device can make the operation fail on these keys. */
    predicate Sound(m: KeyMap) {
      match this
      case SaveKey(key, prepared) => ValidKey(key) && prepared
      case DeleteKey(id) => TextInRange(id) && id in m
    }
  }

  /** An operation, and whether its process is stopped, counted from the device's
      state at the start; `pid` is the process that follows. */
  datatype Action = Action(operation: Operation, stop: Option<Stop>, pid: nat)
  {
    /** The process may be stopped before the operation is complete. */
    predicate Interrupted() {
      stop.Some? && stop.value.at.Some?
    }

    /** What is recorded of this action: the operation as it was acknowledged, and
        the power loss that stopped its process. */
    ghost predicate Explains(ack: bool, events: seq<StoreEvent>) {
      events == [operation.Event(ack)] + (if stop.Some? && stop.value.loss.Some? then [PowerLost] else [])
    }
  }

  ghost function Explained(): (Action, bool, seq<StoreEvent>) -> bool {
    (action: Action, ack: bool, events: seq<StoreEvent>) => action.Explains(ack, events)
  }

  /** The map that results if every action's operation is carried out. */
  function Outcome(m: KeyMap, actions: seq<Action>): KeyMap {
    if actions == [] then m
    else Effect(Outcome(m, actions[..|actions| - 1]), actions[|actions| - 1].operation.Event(true))
  }

  /** Processes are stopped only between operations, and every operation is sound
      when its turn comes. */
  ghost predicate Undisturbed(m: KeyMap, actions: seq<Action>) {
    forall i | 0 <= i < |actions| :: !actions[i].Interrupted() && actions[i].operation.Sound(Outcome(m, actions[..i]))
  }

  ghost predicate SameNaming(l: Layout, m: Layout) {
    m == l.(temporary := m.temporary)
  }

  // ------------------------------------------------------------------
  // Stopping
  // ------------------------------------------------------------------

  /** Stopped before it was acknowledged, an operation has happened or not. */
  lemma Unacknowledged(l: Layout, s: State, a: Abstract<KeyMap>, e: StoreEvent) returns (b: Abstract<KeyMap>)
    requires !e.PowerLost? && !e.ok && a.current in a.possible
    requires Between(l, s, a, Effect(a.current, e))
    ensures StoreInv(l, s, b) && Step(a, e, b)
  {
    var updated := Effect(a.current, e);
    b := Abstract(a.possible + {updated}, a.current);
    if !StoreInv(l, s, b) {
      b := Abstract(a.possible + {updated}, updated);
    }
  }

  /** What the next process finds is again a store. */
  lemma FoundStore(l: Layout, s: State, b: Abstract<KeyMap>, loss: Option<Loss>) returns (c: Abstract<KeyMap>)
    requires StoreInv(l, s, b)
    ensures StoreInv(l, Found(s, loss), c)
    ensures if loss == None then c == b else Step(b, PowerLost, c)
  {
    c := b;
    if loss.Some? {
      var kept := if loss.value.kept <= |s.pending| then loss.value.kept else |s.pending|;
      var m := PowerLossLeavesAMap(l, s, b, kept, loss.value.garbage);
      c := Abstract({m}, m);
    }
  }

  // ------------------------------------------------------------------
  // Room for temporaries
  // ------------------------------------------------------------------

  /** No temporary has been left behind. */
  ghost predicate OnlyRecords(l: Layout, s: State) {
    forall name | name in Visible(s) :: l.isRecord(name)
  }

  /** Nothing but the device can make the operation fail here. */
  ghost predicate CanSucceed(l: Layout, s: State, m: KeyMap, operation: Operation) {
    operation.Sound(m) && (operation.SaveKey? ==> HasFreeName(l, s, operation.key.summary.id))
  }

  lemma RoomForTemporaries(l: Layout, s: State, m: KeyMap, operation: Operation)
    requires Lawful(l) && OnlyRecords(l, s) && operation.Sound(m)
    ensures CanSucceed(l, s, m, operation)
  {
    if operation.SaveKey? {
      assert !l.isRecord(l.temporary(operation.key.summary.id, 0));
    }
  }

  // ------------------------------------------------------------------
  // Runs
  // ------------------------------------------------------------------

  /** One operation; `ok` is the answer the caller gets. */
  method Operate(store: KeyStore, operation: Operation) returns (ok: bool)
    requires store.Valid()
    modifies store, store.disk
    ensures store.Valid() && Step(old(store.model), operation.Event(ok), store.model)
    ensures store.disk.healthy && CanSucceed(store.layout, old(store.disk.state), old(store.model).current, operation) ==> ok
    ensures ok ==> store.disk.state.pending == []
    ensures ok && OnlyRecords(store.layout, old(store.disk.state)) ==> OnlyRecords(store.layout, store.disk.state)
    ensures old(store.disk.trace) <= store.disk.trace
    ensures forall i | |old(store.disk.trace)| <= i < |store.disk.trace| ::
              Between(store.layout, store.disk.trace[i], old(store.model), Effect(old(store.model).current, operation.Event(ok)))
  {
    RealIsLawful(store.layout, store.pid);
    match operation {
      case SaveKey(key, prepared) =>
        var r, renamed := store.Save(key, prepared);
        ok := r.Success?;
        assert ok ==> store.layout.isRecord(store.layout.path(key.summary.id));
      case DeleteKey(id) =>
        var r := store.Delete(id);
        ok := r.Success?;
    }
  }

  /** One action and, if its process is stopped, the opening by the next. `ack` is
      what the caller was told; a caller whose process was stopped before the
      operation was complete was told nothing. */
  method Perform(store: KeyStore, action: Action)
    returns (next: KeyStore, ack: bool, ghost events: seq<StoreEvent>, ghost models: seq<Abstract<KeyMap>>)
    requires store.Valid()
    modifies store, store.disk
    ensures next.Valid() && next.disk == store.disk && SameNaming(store.layout, next.layout)
    ensures next == store || fresh(next)
    ensures Behaviour(models, events) && action.Explains(ack, events)
    ensures models[0] == old(store.model) && models[|events|] == next.model
    ensures action.stop == None ==> next == store
    ensures store.disk.healthy && !action.Interrupted()
            && CanSucceed(store.layout, old(store.disk.state), old(store.model).current, action.operation)
            ==> ack
    ensures ack && !action.Interrupted() && OnlyRecords(store.layout, old(store.disk.state)) ==>
              OnlyRecords(next.layout, next.disk.state)
  {
    ghost var before := store.model;
    var start := |store.disk.trace|;
    ack := Operate(store, action.operation);
    events, models := [action.operation.Event(ack)], [before, store.model];
    next := store;
    if action.stop.Some? {
      next, ack, events, models := Stopped(store, action, start, ack, before);
    }
  }

  /** The process is stopped at some state since `start`, or at the latest now. */
  method Stopped(store: KeyStore, action: Action, start: nat, ok: bool, ghost before: Abstract<KeyMap>)
    returns (next: KeyStore, ack: bool, ghost events: seq<StoreEvent>, ghost models: seq<Abstract<KeyMap>>)
    requires store.Valid() && action.stop.Some? && Step(before, action.operation.Event(ok), store.model)
    requires before.current in before.possible && (ok ==> store.disk.state.pending == [])
    requires forall i | start <= i < |store.disk.trace| ::
               Between(store.layout, store.disk.trace[i], before, Effect(before.current, action.operation.Event(ok)))
    modifies store.disk
    ensures fresh(next) && next.Valid() && next.disk == store.disk && SameNaming(store.layout, next.layout)
    ensures Behaviour(models, events) && action.Explains(ack, events)
    ensures models[0] == before && models[|events|] == next.model
    ensures ack <==> ok && (action.Interrupted() ==> start + action.stop.value.at.value >= |old(store.disk.trace)|)
    ensures ack && OnlyRecords(store.layout, old(store.disk.state)) ==> OnlyRecords(next.layout, next.disk.state)
  {
    ghost var layout, reached := store.layout, store.model;
    var stop := if action.Interrupted() then Stop(Some(start + action.stop.value.at.value), action.stop.value.loss)
                else action.stop.value;
    ack := ok && (stop.at == None || stop.at.value >= |store.disk.trace|);
    ghost var s := stop.Reached(store.disk.trace, store.disk.state);
    if stop.at.Some? && stop.at.value < |store.disk.trace| {
      assert Between(layout, s, before, Effect(before.current, action.operation.Event(false)));
      reached := Unacknowledged(layout, s, before, action.operation.Event(false));
    } else if ack {
      SettledSurvives(s, stop.loss);
    }
    events, models := [action.operation.Event(ack)], [before, reached];
    ghost var found := FoundStore(layout, s, reached, stop.loss);
    store.disk.Restart(stop);
    if stop.loss.Some? {
      events, models := events + [PowerLost], models + [found];
    }
    next := new KeyStore.Open(store.disk, action.pid, layout, store.pid, found);
  }

  /** Any sequence of saves, deletes, crashes and power losses, performed by the
      store's methods, is a behaviour of the abstract store, recorded as the
      callers were answered; undisturbed on a healthy device, every caller is
      answered with success. */
  method PerformAll(store: KeyStore, actions: seq<Action>)
    returns (last: KeyStore, acks: seq<bool>, ghost logs: seq<seq<StoreEvent>>, ghost models: seq<Abstract<KeyMap>>)
    requires store.Valid()
    modifies store, store.disk
    ensures last.Valid() && last.disk == store.disk && SameNaming(store.layout, last.layout)
    ensures |acks| == |actions| && Accounts(Steps(), Explained(), actions, acks, logs, models, old(store.model), last.model)
    ensures store.disk.healthy && OnlyRecords(store.layout, old(store.disk.state)) && Undisturbed(old(store.model).current, actions) ==>
              forall i | 0 <= i < |acks| :: acks[i]
  {
    last := store;
    acks, logs, models := [], [], [store.model];
    ghost var first := store.model.current;
    ghost var calm := store.disk.healthy && OnlyRecords(store.layout, store.disk.state) && Undisturbed(first, actions);
    for i := 0 to |actions|
      invariant last.Valid() && last.disk == store.disk && SameNaming(store.layout, last.layout)
      invariant last == store || fresh(last)
      invariant |acks| == i && Accounts(Steps(), Explained(), actions, acks, logs, models, old(store.model), last.model)
      invariant calm ==> Calm(last.layout, last.disk.state, last.model.current, first, actions, acks)
    {
      ghost var events, more;
      var ack;
      last, ack, events, more := PerformNext(last, actions, acks, first, calm);
      AccountsForOneMore(Steps(), Explained(), actions, acks, logs, models, old(store.model), ack, events, more);
      acks, logs, models := acks + [ack], logs + [events], models + more[1..];
    }
  }

  /** The next action of a run, undisturbed so far if `calm`. */
  method PerformNext(store: KeyStore, actions: seq<Action>, acks: seq<bool>, ghost first: KeyMap, ghost calm: bool)
    returns (next: KeyStore, ack: bool, ghost events: seq<StoreEvent>, ghost models: seq<Abstract<KeyMap>>)
    requires store.Valid() && |acks| < |actions|
    requires calm ==> store.disk.healthy && Undisturbed(first, actions)
                      && Calm(store.layout, store.disk.state, store.model.current, first, actions, acks)
    modifies store, store.disk
    ensures next.Valid() && next.disk == store.disk && SameNaming(store.layout, next.layout)
    ensures next == store || fresh(next)
    ensures Behaviour(models, events) && actions[|acks|].Explains(ack, events)
    ensures models[0] == old(store.model) && models[|events|] == next.model
    ensures calm ==> Calm(next.layout, next.disk.state, next.model.current, first, actions, acks + [ack])
  {
    ghost var current := store.model.current;
    var action := actions[|acks|];
    if calm {
      NextCanSucceed(store.layout, store.pid, store.disk.state, current, first, actions, acks);
    }
    next, ack, events, models := Perform(store, action);
    if calm {
      CarriedOut(models, events, action);
      StillCalm(store.layout, old(store.disk.state), current, next.layout, next.disk.state, first, actions, acks);
    }
  }

  /** So far everything was acknowledged and carried out, and left nothing behind. */
  ghost predicate Calm(l: Layout, s: State, current: KeyMap, first: KeyMap, actions: seq<Action>, acks: seq<bool>) {
    && |acks| <= |actions| && (forall j | 0 <= j < |acks| :: acks[j])
    && OnlyRecords(l, s)
    && current == Outcome(first, actions[..|acks|])
  }

  lemma NextCanSucceed(l: Layout, pid: nat, s: State, current: KeyMap, first: KeyMap, actions: seq<Action>, acks: seq<bool>)
    requires Real(l, pid) && Undisturbed(first, actions)
    requires Calm(l, s, current, first, actions, acks) && |acks| < |actions|
    ensures CanSucceed(l, s, current, actions[|acks|].operation) && !actions[|acks|].Interrupted()
  {
    RealIsLawful(l, pid);
    RoomForTemporaries(l, s, current, actions[|acks|].operation);
  }

  lemma StillCalm(l: Layout, s: State, current: KeyMap, l': Layout, t: State, first: KeyMap, actions: seq<Action>, acks: seq<bool>)
    requires Calm(l, s, current, first, actions, acks) && |acks| < |actions| && OnlyRecords(l', t)
    ensures Calm(l', t, Effect(current, actions[|acks|].operation.Event(true)), first, actions, acks + [true])
  {
    OutcomeOfOneMore(first, actions, |acks|);
  }

  lemma CarriedOut(models: seq<Abstract<KeyMap>>, events: seq<StoreEvent>, action: Action)
    requires Behaviour(models, events) && action.Explains(true, events)
    ensures models[|events|].current == Effect(models[0].current, action.operation.Event(true))
  {
    assert Steps()(models[0], events[0], models[1]);
    if |events| == 2 {
      assert Steps()(models[1], events[1], models[2]);
    }
  }

  lemma OutcomeOfOneMore(m: KeyMap, actions: seq<Action>, i: nat)
    requires i < |actions|
    ensures Outcome(m, actions[..i + 1]) == Effect(Outcome(m, actions[..i]), actions[i].operation.Event(true))
  {
    assert actions[..i + 1][..i] == actions[..i];
  }

  lemma FoldOneMore(m: KeyMap, events: seq<StoreEvent>, e: StoreEvent)
    ensures Fold(m, events + [e]) == Effect(Fold(m, events), e)
  {
    assert (events + [e])[..|events|] == events;
  }

  lemma FoldOfAction(m: KeyMap, events: seq<StoreEvent>, action: Action, ack: bool, log: seq<StoreEvent>)
    requires action.Explains(ack, log)
    ensures Fold(m, events + log) == Effect(Fold(m, events), action.operation.Event(true))
  {
    FoldOneMore(m, events, action.operation.Event(ack));
    if |log| == 2 {
      FoldOneMore(m, events + [log[0]], PowerLost);
      assert events + log == (events + [log[0]]) + [PowerLost];
    } else {
      assert log == [action.operation.Event(ack)];
    }
  }

  /** What the logs fold to is the outcome of the actions' operations. */
  lemma {:induction false} FoldIsOutcome(m: KeyMap, actions: seq<Action>, acks: seq<bool>, logs: seq<seq<StoreEvent>>)
    requires |logs| == |acks| == |actions| && forall j | 0 <= j < |logs| :: Explained()(actions[j], acks[j], logs[j])
    ensures Fold(m, Flatten(logs)) == Outcome(m, actions)
    ensures (forall j | 0 <= j < |acks| :: acks[j]) ==> forall e | e in Flatten(logs) :: e.PowerLost? || e.ok
    decreases |logs|
  {
    if logs != [] {
      var n := |logs| - 1;
      FoldIsOutcome(m, actions[..n], acks[..n], logs[..n]);
      assert Explained()(actions[n], acks[n], logs[n]);
      FoldOfAction(m, Flatten(logs[..n]), actions[n], acks[n], logs[n]);
    }
  }

  /** A store started in an empty directory whose callers were all answered with
      success is the finite map of their operations, whichever processes performed
      them and however often the power failed; undisturbed on a healthy device,
      that is always so. */
  method PerformFromEmpty(disk: Device, pid: nat, actions: seq<Action>) returns (last: KeyStore, acks: seq<bool>)
    requires disk.state == State(map[], 0, map[], [])
    modifies disk
    ensures last.Valid() && |acks| == |actions|
    ensures disk.healthy && Undisturbed(map[], actions) ==> forall i | 0 <= i < |acks| :: acks[i]
    ensures (forall i | 0 <= i < |acks| :: acks[i]) ==> last.model == Abstract({Outcome(map[], actions)}, Outcome(map[], actions))
  {
    var store := new KeyStore(disk, pid);
    ghost var logs, models;
    last, acks, logs, models := PerformAll(store, actions);
    FoldIsOutcome(map[], actions, acks, logs);
    if forall i | 0 <= i < |acks| :: acks[i] {
      SuccessfulRunIsTheMap(models, Flatten(logs));
    }
  }

  /** Once the store's methods have acknowledged an operation on an identifier, its
      outcome is there after any further actions on other identifiers, whatever
      fails and wherever processes are stopped. */
  method AcknowledgedThenOthers(store: KeyStore, operation: Operation, others: seq<Action>)
    returns (ok: bool, last: KeyStore)
    requires store.Valid()
    requires forall i | 0 <= i < |others| :: Subject(others[i].operation.Event(true)) != Subject(operation.Event(true))
    modifies store, store.disk
    ensures last.Valid()
    ensures store.disk.healthy && CanSucceed(store.layout, old(store.disk.state), old(store.model).current, operation) ==> ok
    ensures ok ==> Keeps(last.model, Subject(operation.Event(true)).value,
                         if operation.SaveKey? then Some(operation.key) else None)
  {
    ghost var before := store.model;
    ok := Operate(store, operation);
    ghost var e := operation.Event(ok);
    ghost var first := [before, store.model];
    ghost var logs, models;
    var acks;
    last, acks, logs, models := PerformAll(store, others);
    if ok {
      OthersOnly(others, acks, logs, operation);
      OutcomeStays(first, e, models, Flatten(logs));
    }
  }

  lemma OutcomeStays(first: seq<Abstract<KeyMap>>, e: StoreEvent, models: seq<Abstract<KeyMap>>, events: seq<StoreEvent>)
    requires Behaviour(first, [e]) && Behaviour(models, events) && first[1] == models[0]
    requires !e.PowerLost? && e.ok
    requires forall other | other in events :: Subject(other) != Subject(e)
    ensures Keeps(models[|events|], Subject(e).value, if e.Saved? then Some(e.key) else None)
  {
    ChainContinues(Steps(), first, [e], models, events);
    var all := [e] + events;
    forall i | 1 <= i < |all| ensures Subject(all[i]) != Subject(e) {
      assert all[i] == events[i - 1];
    }
    AcknowledgedSurvives(first + models[1..], all, |events| + 1);
  }

  lemma {:induction false} OthersOnly(others: seq<Action>, acks: seq<bool>, logs: seq<seq<StoreEvent>>, operation: Operation)
    requires |logs| == |acks| == |others| && forall i | 0 <= i < |logs| :: Explained()(others[i], acks[i], logs[i])
    requires forall i | 0 <= i < |others| :: Subject(others[i].operation.Event(true)) != Subject(operation.Event(true))
    ensures forall e | e in Flatten(logs) :: Subject(e) != Subject(operation.Event(true))
    decreases |logs|
  {
    if logs != [] {
      var n := |logs| - 1;
      OthersOnly(others[..n], acks[..n], logs[..n], operation);
      assert Explained()(others[n], acks[n], logs[n]);
    }
  }
}

/** What a directory of key records means as a finite map, for any naming scheme
    that keeps records apart and any record codec. */
module RecordDirectory {
  import opened Wrappers
  import opened Bytes
  import opened Texts
  import opened Keys
  import opened KeyRecord
  import opened Disk
  import opened AtomicFile
  import opened Durability
  import opened Chains

  type KeyMap = map<Text, StoredKey>

  /** How records and temporaries are named and how records are read. */
  datatype Layout = Layout(path: Text -> Name, temporary: (Text, nat) -> Name, isRecord: Name -> bool,
                           decode: seq<byte> -> Result<StoredKey, StoreError>)

  /** Records are recognised by name, temporaries never are, and no two
      identifiers share a record. */
  ghost predicate Lawful(l: Layout) {
    && (forall id, other :: l.path(id) == l.path(other) ==> id == other)
    && (forall id :: id != [] ==> l.isRecord(l.path(id)))
    && (forall id, attempt :: !l.isRecord(l.temporary(id, attempt)))
  }

  ghost predicate Holds(l: Layout, v: View, id: Text, key: StoredKey) {
    && id != [] && key.summary.id == id
    && l.path(id) in v && v[l.path(id)].Stable? && l.decode(v[l.path(id)].bytes) == Success(key)
  }

  /** The record files of a view are exactly the stable records of a key map. */
  ghost predicate Represents(l: Layout, v: View, m: KeyMap) {
    && (forall id | id in m :: Holds(l, v, id, m[id]))
    && (forall name | name in v :: exists id :: id in m && name == l.path(id))
  }

  /** A view means at most one map. */
  lemma MeaningIsUnique(l: Layout, v: View, m: KeyMap, n: KeyMap)
    requires Lawful(l) && Represents(l, v, m) && Represents(l, v, n)
    ensures m == n
  {
    forall id | id in m ensures id in n && n[id] == m[id] {
      SameMeaning(l, v, m, n, id);
    }
    forall id | id in n ensures id in m {
      SameMeaning(l, v, n, m, id);
    }
  }

  lemma SameMeaning(l: Layout, v: View, m: KeyMap, n: KeyMap, id: Text)
    requires Lawful(l) && Represents(l, v, m) && Represents(l, v, n) && id in m
    ensures id in n && n[id] == m[id]
  {
    assert Holds(l, v, id, m[id]);
    var other :| other in n && l.path(id) == l.path(other);
    assert Holds(l, v, id, n[id]);
  }

  lemma SavedView(l: Layout, v: View, m: KeyMap, key: StoredKey, bytes: seq<byte>)
    requires Lawful(l) && Represents(l, v, m)
    requires key.summary.id != [] && l.decode(bytes) == Success(key)
    ensures Represents(l, v[l.path(key.summary.id) := Stable(bytes)], m[key.summary.id := key])
  {
    var id := key.summary.id;
    var n, w := m[id := key], v[l.path(id) := Stable(bytes)];
    forall other | other in n ensures Holds(l, w, other, n[other]) {
      if other != id {
        assert Holds(l, v, other, m[other]);
      }
    }
    forall name | name in w ensures exists other :: other in n && name == l.path(other) {
      if name == l.path(id) {
        assert id in n;
      } else {
        var other :| other in m && name == l.path(other);
        assert other in n;
      }
    }
  }

  lemma DeletedView(l: Layout, v: View, m: KeyMap, id: Text)
    requires Lawful(l) && Represents(l, v, m)
    ensures Represents(l, v - {l.path(id)}, m - {id})
  {
    var n, w := m - {id}, v - {l.path(id)};
    forall other | other in n ensures Holds(l, w, other, n[other]) {
      assert Holds(l, v, other, m[other]);
    }
    forall name | name in w ensures exists other :: other in n && name == l.path(other) {
      var other :| other in m && name == l.path(other);
      assert other in n;
    }
  }

  // ------------------------------------------------------------------
  // The abstract store
  // ------------------------------------------------------------------

  ghost predicate Meaningful(l: Layout, v: View, possible: set<KeyMap>) {
    exists m :: m in possible && Represents(l, v, m)
  }

  ghost predicate StoreInv(l: Layout, s: State, a: Abstract<KeyMap>) {
    && WellFormed(s)
    && (forall v | v in Views(s, l.isRecord) :: Meaningful(l, v, a.possible))
    && Represents(l, Current(s, l.isRecord), a.current)
    && a.current in a.possible
  }

  /** Every state between the old map and the new one is one or the other, and a
      power loss there reveals nothing else. */
  ghost predicate Between(l: Layout, s: State, before: Abstract<KeyMap>, updated: KeyMap) {
    || StoreInv(l, s, Abstract(before.possible + {updated}, before.current))
    || StoreInv(l, s, Abstract(before.possible + {updated}, updated))
  }

  lemma MeaningfulGrows(l: Layout, v: View, possible: set<KeyMap>, more: set<KeyMap>)
    requires Meaningful(l, v, possible) && possible <= more
    ensures Meaningful(l, v, more)
  {
    var m :| m in possible && Represents(l, v, m);
    assert m in more;
  }

  lemma MixedViews(l: Layout, s: State, t: State, before: Abstract<KeyMap>, updated: KeyMap, v: View)
    requires StoreInv(l, s, before) && Represents(l, v, updated)
    requires OldOrNew(t, l.isRecord, Views(s, l.isRecord), Current(s, l.isRecord), v)
    ensures Between(l, t, before, updated)
    ensures StoreInv(l, t, Abstract(before.possible + {updated},
                                    if Current(t, l.isRecord) == Current(s, l.isRecord) then before.current else updated))
  {
    var possible := before.possible + {updated};
    forall w | w in Views(t, l.isRecord) ensures Meaningful(l, w, possible) {
      if w in Views(s, l.isRecord) {
        MeaningfulGrows(l, w, before.possible, possible);
      } else {
        assert updated in possible;
      }
    }
  }

  lemma ReplacedStore(l: Layout, s: State, t: State, before: Abstract<KeyMap>, updated: KeyMap, v: View)
    requires StoreInv(l, s, before) && Represents(l, v, updated)
    requires OldOrNew(t, l.isRecord, Views(s, l.isRecord), Current(s, l.isRecord), v)
    requires Current(t, l.isRecord) == v
    ensures StoreInv(l, t, Abstract(before.possible + {updated}, updated))
  {
    MixedViews(l, s, t, before, updated, v);
    forall w | w in Views(t, l.isRecord) ensures Meaningful(l, w, before.possible + {updated}) {
    }
  }

  lemma UntouchedStore(l: Layout, s: State, t: State, a: Abstract<KeyMap>)
    requires StoreInv(l, s, a)
    requires Untouched(t, l.isRecord, Views(s, l.isRecord), Current(s, l.isRecord))
    ensures StoreInv(l, t, a)
  {
  }

  lemma OnlyView(l: Layout, s: State, m: KeyMap)
    requires WellFormed(s) && Represents(l, Current(s, l.isRecord), m)
    requires Views(s, l.isRecord) == [Current(s, l.isRecord)]
    ensures StoreInv(l, s, Abstract({m}, m))
  {
    forall v | v in Views(s, l.isRecord) ensures Meaningful(l, v, {m}) {
      assert m in {m};
    }
  }

  lemma RecordsAreStable(l: Layout, v: View, m: KeyMap)
    requires Represents(l, v, m)
    ensures forall name | name in v :: v[name].Stable?
  {
    forall name | name in v ensures v[name].Stable? {
      var id :| id in m && name == l.path(id);
      assert Holds(l, v, id, m[id]);
    }
  }

  /** A power loss leaves one of the possible maps, whole, whatever the unsynced
      files turn into. */
  lemma PowerLossLeavesAMap(l: Layout, s: State, a: Abstract<KeyMap>, kept: nat, garbage: nat -> seq<byte>) returns (m: KeyMap)
    requires StoreInv(l, s, a) && kept <= |s.pending|
    ensures m in a.possible
    ensures StoreInv(l, PowerLoss(s, kept, garbage), Abstract({m}, m))
  {
    var v := Views(s, l.isRecord)[kept];
    assert Meaningful(l, v, a.possible);
    m :| m in a.possible && Represents(l, v, m);
    RecordsAreStable(l, v, m);
    StableViewSurvives(s, kept, garbage, l.isRecord);
    OnlyView(l, PowerLoss(s, kept, garbage), m);
  }

  // ------------------------------------------------------------------
  // Runs
  // ------------------------------------------------------------------

  datatype StoreEvent =
    | Saved(key: StoredKey, ok: bool)
    | Deleted(id: Text, ok: bool)
    | PowerLost

  function Effect(m: KeyMap, e: StoreEvent): KeyMap {
    match e
    case Saved(key, _) => m[key.summary.id := key]
    case Deleted(id, _) => m - {id}
    case PowerLost => m
  }

  /** What one operation or one power loss may do to the abstract store. */
  ghost predicate Step(a: Abstract<KeyMap>, e: StoreEvent, b: Abstract<KeyMap>) {
    match e
    case PowerLost => Lose(a, b)
    case _ => Commit(a, Effect(a.current, e), e.ok, b)
  }

  ghost function Steps(): (Abstract<KeyMap>, StoreEvent, Abstract<KeyMap>) -> bool {
    (a: Abstract<KeyMap>, e: StoreEvent, b: Abstract<KeyMap>) => Step(a, e, b)
  }

  ghost predicate Behaviour(states: seq<Abstract<KeyMap>>, events: seq<StoreEvent>) {
    Chain(Steps(), states, events)
  }

  function Subject(e: StoreEvent): Option<Text> {
    match e
    case Saved(key, _) => Some(key.summary.id)
    case Deleted(id, _) => Some(id)
    case PowerLost => None
  }

  /** In every map that may be found, the identifier has this entry, or none. */
  ghost predicate Keeps(a: Abstract<KeyMap>, id: Text, entry: Option<StoredKey>) {
    && (forall m | m in a.possible :: if entry == None then id !in m else id in m && m[id] == entry.value)
    && a.current in a.possible
  }

  /** Once a save is acknowledged, the key is there after any later operations on
      other keys, failed or not, and any power losses; an acknowledged delete
      stays deleted in the same way. */
  lemma {:induction false} AcknowledgedSurvives(states: seq<Abstract<KeyMap>>, events: seq<StoreEvent>, n: nat)
    requires Behaviour(states, events) && 1 <= n < |states|
    requires !events[0].PowerLost? && events[0].ok
    requires forall i | 1 <= i < |events| :: Subject(events[i]) != Subject(events[0])
    ensures Keeps(states[n], Subject(events[0]).value, if events[0].Saved? then Some(events[0].key) else None)
  {
    assert Steps()(states[n - 1], events[n - 1], states[n]);
    if n >= 2 {
      AcknowledgedSurvives(states, events, n - 1);
    }
  }

  /** The map obtained by performing the operations in order. */
  function Fold(m: KeyMap, events: seq<StoreEvent>): KeyMap {
    if events == [] then m else Effect(Fold(m, events[..|events| - 1]), events[|events| - 1])
  }

  /** If every operation succeeds, the store is exactly the map, and power losses
      between operations change nothing. */
  lemma {:induction false} SuccessfulRunIsTheMap(states: seq<Abstract<KeyMap>>, events: seq<StoreEvent>)
    requires Behaviour(states, events)
    requires states[0] == Abstract({map[]}, map[])
    requires forall i | 0 <= i < |events| :: events[i].PowerLost? || events[i].ok
    ensures var m := Fold(map[], events);
            states[|events|] == Abstract({m}, m)
    decreases |events|
  {
    if events != [] {
      var n := |events| - 1;
      SuccessfulRunIsTheMap(states[..n + 1], events[..n]);
      assert Steps()(states[n], events[n], states[n + 1]);
    }
  }
}

/** The directory-backed key store refines a finite map from identifier to key,
    across failures, stops at any point and power losses. */
module KeyStores {
  import opened Wrappers
  import opened Bytes
  import opened Texts
  import opened Keys
  import opened KeyRecord
  import opened Ordering
  import opened Disk
  import opened AtomicFile
  import opened Durability
  import opened RecordDirectory

  // ------------------------------------------------------------------
  // File names
  // ------------------------------------------------------------------

  const DOT: byte := '.' as int
  const KEY: seq<byte> := ['k' as int, 'e' as int, 'y' as int]
  const TMP: seq<byte> := ['t' as int, 'm' as int, 'p' as int]

  /** `file_stem(id)` with the record extension. */
  function PathFor(id: seq<byte>): Name {
    Hex(id) + ([DOT] + KEY)
  }

  function TemporaryName(id: seq<byte>, pid: nat, attempt: nat): Name {
    ([DOT] + Hex(id) + [DOT] + Decimal(pid) + [DOT] + Decimal(attempt)) + ([DOT] + TMP)
  }

  function LastDot(name: Name): (i: Option<nat>)
    ensures i.Some? ==> i.value < |name|
  {
    if name == [] then None
    else if name[|name| - 1] == DOT then Some(|name| - 1)
    else LastDot(name[..|name| - 1])
  }

  /** `Path::extension`: what follows the last dot, unless that dot is absent or
      is the first character. */
  function Extension(name: Name): Option<seq<byte>> {
    match LastDot(name)
    case None => None
    case Some(i) => if i == 0 then None else Some(name[i + 1..])
  }

  predicate IsKeyName(name: Name) {
    Extension(name) == Some(KEY)
  }

  lemma {:induction false} ExtensionOf(stem: seq<byte>, extension: seq<byte>)
    requires DOT !in extension
    ensures LastDot(stem + ([DOT] + extension)) == Some(|stem|)
    ensures (stem + ([DOT] + extension))[|stem| + 1..] == extension
    decreases |extension|
  {
    var name := stem + ([DOT] + extension);
    if extension != [] {
      var shorter := extension[..|extension| - 1];
      assert name[..|name| - 1] == stem + ([DOT] + shorter);
      ExtensionOf(stem, shorter);
    }
  }

  lemma NamesAreSeparate(id: seq<byte>, other: seq<byte>, pid: nat, attempt: nat)
    ensures id != [] ==> IsKeyName(PathFor(id))
    ensures !IsKeyName(TemporaryName(id, pid, attempt))
    ensures PathFor(id) == PathFor(other) ==> id == other
  {
    RecordNameIsKeyName(Hex(id));
    TemporaryIsNotKeyName([DOT] + Hex(id) + [DOT] + Decimal(pid) + [DOT] + Decimal(attempt));
    if PathFor(id) == PathFor(other) {
      SameStem(Hex(id), Hex(other), [DOT] + KEY);
      HexInjective(id, other);
    }
  }

  lemma RecordNameIsKeyName(stem: seq<byte>)
    ensures stem != [] ==> IsKeyName(stem + ([DOT] + KEY))
  {
    ExtensionOf(stem, KEY);
  }

  lemma TemporaryIsNotKeyName(stem: seq<byte>)
    ensures !IsKeyName(stem + ([DOT] + TMP))
  {
    ExtensionOf(stem, TMP);
  }

  lemma SameStem(a: seq<byte>, b: seq<byte>, tail: seq<byte>)
    requires a + tail == b + tail
    ensures a == b
  {
    var name := a + tail;
    assert a == name[..|name| - |tail|] && b == (b + tail)[..|b + tail| - |tail|];
  }

  lemma KeyNameIff(name: Name)
    ensures IsKeyName(name) <==> |name| > 4 && name[|name| - 4..] == Ascii(".key")
  {
    var stem := if |name| >= 4 then name[..|name| - 4] else [];
    assert Ascii(".key") == [DOT] + KEY;
    LastDotIsADot(name);
    if LastDot(name).Some? {
      var i := LastDot(name).value;
      assert name[i..] == [DOT] + name[i + 1..];
    }
    if |name| >= 4 && name[|name| - 4..] == [DOT] + KEY {
      assert name == stem + ([DOT] + KEY);
      ExtensionOf(stem, KEY);
    }
  }

  lemma {:induction false} LastDotIsADot(name: Name)
    ensures LastDot(name).Some? ==> name[LastDot(name).value] == DOT
  {
    if name != [] && name[|name| - 1] != DOT {
      LastDotIsADot(name[..|name| - 1]);
    }
  }

  /** Different identifiers, processes or attempts have different temporaries. */
  lemma TemporariesDiffer(id: seq<byte>, pid: nat, attempt: nat, id': seq<byte>, pid': nat, attempt': nat)
    ensures TemporaryName(id, pid, attempt) == TemporaryName(id', pid', attempt')
            <==> id == id' && pid == pid' && attempt == attempt'
  {
    if TemporaryName(id, pid, attempt) == TemporaryName(id', pid', attempt') {
      NameParts(Hex(id), Decimal(pid), Decimal(attempt));
      NameParts(Hex(id'), Decimal(pid'), Decimal(attempt'));
      PartsHaveNoDots(id, pid, attempt);
      PartsHaveNoDots(id', pid', attempt');
      SameUpTo(DOT, Hex(id), Decimal(pid) + ([DOT] + (Decimal(attempt) + ([DOT] + TMP))),
               Hex(id'), Decimal(pid') + ([DOT] + (Decimal(attempt') + ([DOT] + TMP))));
      SameUpTo(DOT, Decimal(pid), Decimal(attempt) + ([DOT] + TMP), Decimal(pid'), Decimal(attempt') + ([DOT] + TMP));
      SameUpTo(DOT, Decimal(attempt), TMP, Decimal(attempt'), TMP);
      HexInjective(id, id');
      DecimalInjective(pid, pid');
      DecimalInjective(attempt, attempt');
    }
  }

  lemma NameParts(stem: seq<byte>, pid: seq<byte>, attempt: seq<byte>)
    ensures (([DOT] + stem + [DOT] + pid + [DOT] + attempt) + ([DOT] + TMP))[1..]
            == stem + ([DOT] + (pid + ([DOT] + (attempt + ([DOT] + TMP)))))
  {
  }

  lemma PartsHaveNoDots(id: seq<byte>, pid: nat, attempt: nat)
    ensures DOT !in Hex(id) && DOT !in Decimal(pid) && DOT !in Decimal(attempt)
  {
    HexIsPlain(id);
    DecimalValueOfDecimal(pid);
    DecimalValueOfDecimal(attempt);
  }

  /** The layout is the one the agent uses. */
  ghost predicate Real(l: Layout, pid: nat) {
    && (forall id: Text {:trigger PathFor(id)} :: l.path(id) == PathFor(id))
    && (forall id: Text, attempt: nat {:trigger TemporaryName(id, pid, attempt)} ::
          l.temporary(id, attempt) == TemporaryName(id, pid, attempt))
    && (forall name: Name {:trigger IsKeyName(name)} :: l.isRecord(name) == IsKeyName(name))
    && (forall bytes: seq<byte> {:trigger Decode(bytes)} :: l.decode(bytes) == Decode(bytes))
  }

  function AgentLayout(pid: nat): (l: Layout)
    ensures Real(l, pid)
  {
    Layout((id: Text) => PathFor(id), (id: Text, attempt: nat) => TemporaryName(id, pid, attempt),
           (name: Name) => IsKeyName(name), (bytes: seq<byte>) => Decode(bytes))
  }

  lemma RealIsLawful(l: Layout, pid: nat)
    requires Real(l, pid)
    ensures Lawful(l)
  {
    forall id: Text, other: Text | l.path(id) == l.path(other) ensures id == other {
      assert l.path(id) == PathFor(id) && l.path(other) == PathFor(other);
      NamesAreSeparate(id, other, pid, 0);
    }
    forall id: Text | id != [] ensures l.isRecord(l.path(id)) {
      assert l.path(id) == PathFor(id);
      NamesAreSeparate(id, id, pid, 0);
      assert l.isRecord(PathFor(id)) == IsKeyName(PathFor(id));
    }
    forall id: Text, attempt: nat ensures !l.isRecord(l.temporary(id, attempt)) {
      assert l.temporary(id, attempt) == TemporaryName(id, pid, attempt);
      NamesAreSeparate(id, id, pid, attempt);
      assert l.isRecord(TemporaryName(id, pid, attempt)) == IsKeyName(TemporaryName(id, pid, attempt));
    }
  }

  method RecordPath(ghost l: Layout, ghost pid: nat, id: Text) returns (path: Name)
    requires Real(l, pid)
    ensures path == l.path(id)
  {
    var stem := EncodeHex(id);
    path := stem + ([DOT] + KEY);
    assert path == PathFor(id);
  }

  method HasKeyExtension(ghost l: Layout, ghost pid: nat, name: Name) returns (isRecord: bool)
    requires Real(l, pid)
    ensures isRecord == l.isRecord(name)
  {
    KeyNameIff(name);
    assert l.isRecord(name) == IsKeyName(name);
    isRecord := |name| > 4 && name[|name| - 4..] == Ascii(".key");
  }

  method TemporaryNames(ghost l: Layout, pid: nat, id: Text) returns (names: seq<Name>)
    requires Real(l, pid)
    ensures |names| == 100
    ensures forall attempt | 0 <= attempt < 100 :: names[attempt] == l.temporary(id, attempt)
  {
    names := seq(100, attempt requires 0 <= attempt < 100 => TemporaryName(id, pid, attempt));
    assert forall attempt: nat | attempt < 100 :: names[attempt] == TemporaryName(id, pid, attempt);
  }

  method ReadRecord(ghost l: Layout, ghost pid: nat, bytes: seq<byte>) returns (r: Result<StoredKey, StoreError>)
    requires Real(l, pid)
    ensures r == l.decode(bytes)
    ensures r.Success? ==> ValidKey(r.value)
  {
    r := DecodeRecord(bytes);
  }

  method WriteRecord(ghost l: Layout, ghost pid: nat, key: StoredKey) returns (bytes: seq<byte>)
    requires Real(l, pid) && ValidKey(key)
    ensures l.decode(bytes) == Success(key)
  {
    var r := EncodeRecord(key);
    bytes := r.value;
    DecodeIffEncode(bytes, key);
  }

  // ------------------------------------------------------------------
  // Reading
  // ------------------------------------------------------------------

  /** A listing of a map: its keys, in strictly increasing identifier order. */
  ghost predicate IsListing(keys: seq<StoredKey>, m: KeyMap) {
    && StrictlySorted(keys)
    && (forall key | key in keys :: key.summary.id in m && m[key.summary.id] == key)
    && (forall id | id in m :: m[id].summary.id == id && m[id] in keys)
  }

  /** `name` is visible and holds this key's record. */
  ghost predicate RecordAt(l: Layout, s: State, name: Name, key: StoredKey) {
    name in Visible(s) && l.isRecord(name) && l.decode(Contents(s, name)) == Success(key)
  }

  lemma RecordOfKey(l: Layout, s: State, a: Abstract<KeyMap>, id: Text)
    requires Lawful(l) && StoreInv(l, s, a) && id in a.current
    ensures RecordAt(l, s, l.path(id), a.current[id])
    ensures a.current[id].summary.id == id
  {
    assert Holds(l, Current(s, l.isRecord), id, a.current[id]);
  }

  /** Every key of the store's map passed validation. */
  lemma KeysAreValid(l: Layout, pid: nat, s: State, a: Abstract<KeyMap>, id: Text)
    requires Real(l, pid) && StoreInv(l, s, a) && id in a.current
    ensures ValidKey(a.current[id])
  {
    RealIsLawful(l, pid);
    RecordOfKey(l, s, a, id);
    var bytes := Contents(s, l.path(id));
    assert l.decode(bytes) == Decode(bytes);
    EncodeOfDecode(bytes);
  }

  lemma KeyOfRecord(l: Layout, s: State, a: Abstract<KeyMap>, name: Name) returns (id: Text)
    requires Lawful(l) && StoreInv(l, s, a) && name in Visible(s) && l.isRecord(name)
    ensures id in a.current && name == l.path(id) && RecordAt(l, s, name, a.current[id])
    ensures a.current[id].summary.id == id
  {
    assert name in Current(s, l.isRecord);
    id :| id in a.current && name == l.path(id);
    RecordOfKey(l, s, a, id);
  }

  lemma RemovedRecord(l: Layout, s: State, path: Name)
    requires WellFormed(s)
    ensures var t := AppendOp(s, Unlink(path));
            && WellFormed(t)
            && Views(t, l.isRecord) == Views(s, l.isRecord) + [Current(s, l.isRecord) - {path}]
            && Current(t, l.isRecord) == Current(s, l.isRecord) - {path}
  {
    var op := Unlink(path);
    AppendOpViews(s, op, l.isRecord);
    AppendOpWellFormed(s, op);
    PrefixesOfAppend(s, op);
    assert Look(s.inodes, ApplyOp(Visible(s), op), l.isRecord) == Current(s, l.isRecord) - {path};
  }

  /** What has been read so far: one key per record already visited. */
  ghost predicate ReadSoFar(l: Layout, s: State, done: set<Name>, keys: seq<StoredKey>) {
    && (forall name | name in done && l.isRecord(name) :: exists key :: key in keys && RecordAt(l, s, name, key))
    && (forall key | key in keys :: exists name :: name in done && RecordAt(l, s, name, key))
  }

  lemma ReadOne(l: Layout, s: State, done: set<Name>, keys: seq<StoredKey>, name: Name, key: StoredKey)
    requires ReadSoFar(l, s, done, keys) && RecordAt(l, s, name, key)
    ensures ReadSoFar(l, s, done + {name}, keys + [key])
  {
    var done', keys' := done + {name}, keys + [key];
    forall other | other in done' && l.isRecord(other) ensures exists k :: k in keys' && RecordAt(l, s, other, k) {
      if other == name {
        assert key in keys';
      } else {
        var k :| k in keys && RecordAt(l, s, other, k);
        assert k in keys';
      }
    }
    forall k | k in keys' ensures exists other :: other in done' && RecordAt(l, s, other, k) {
      if k == key {
        assert name in done';
      } else {
        var other :| other in done && RecordAt(l, s, other, k);
        assert other in done';
      }
    }
  }

  lemma SkipOne(l: Layout, s: State, done: set<Name>, keys: seq<StoredKey>, name: Name)
    requires ReadSoFar(l, s, done, keys) && !l.isRecord(name)
    ensures ReadSoFar(l, s, done + {name}, keys)
  {
    forall k | k in keys ensures exists other :: other in done + {name} && RecordAt(l, s, other, k) {
      var other :| other in done && RecordAt(l, s, other, k);
      assert other in done + {name};
    }
  }

  ghost predicate EveryRecordDecodes(l: Layout, s: State) {
    forall name | name in Visible(s) && l.isRecord(name) :: l.decode(Contents(s, name)).Success?
  }

  lemma ReadMeansDecoded(l: Layout, s: State, keys: seq<StoredKey>)
    requires ReadSoFar(l, s, Visible(s).Keys, keys)
    ensures EveryRecordDecodes(l, s)
  {
    forall name | name in Visible(s) && l.isRecord(name) ensures l.decode(Contents(s, name)).Success? {
      assert name in Visible(s).Keys;
      var key :| key in keys && RecordAt(l, s, name, key);
    }
  }

  /** One of the hundred temporary names is not taken. */
  ghost predicate HasFreeName(l: Layout, s: State, id: Text) {
    exists attempt: nat :: attempt < 100 && l.temporary(id, attempt) !in Visible(s)
  }

  predicate Distinct(keys: seq<StoredKey>) {
    forall i, j | 0 <= i < j < |keys| :: keys[i] != keys[j]
  }

  /** In a store's own directory a new record holds a new key. */
  lemma FreshRecord(l: Layout, s: State, a: Abstract<KeyMap>, done: set<Name>, keys: seq<StoredKey>, name: Name, key: StoredKey)
    requires Lawful(l) && StoreInv(l, s, a) && ReadSoFar(l, s, done, keys)
    requires RecordAt(l, s, name, key) && name !in done
    ensures key !in keys
  {
    if key in keys {
      var other :| other in done && RecordAt(l, s, other, key);
      var id := KeyOfRecord(l, s, a, name);
      var id' := KeyOfRecord(l, s, a, other);
    }
  }

  lemma {:induction false} NoneTwice(s: seq<StoredKey>, x: StoredKey)
    requires Distinct(s)
    ensures multiset(s)[x] <= 1
    decreases |s|
  {
    if s != [] {
      var front, last := s[..|s| - 1], s[|s| - 1];
      assert s == front + [last];
      NoneTwice(front, x);
      if x == last {
        assert x !in front;
        assert x !in multiset(front);
      }
    }
  }

  lemma SortingKeepsMembers(keys: seq<StoredKey>, sorted: seq<StoredKey>)
    requires multiset(sorted) == multiset(keys)
    ensures forall key :: key in sorted <==> key in keys
    ensures Distinct(keys) ==> Distinct(sorted)
  {
    forall key ensures key in sorted <==> key in keys {
      assert key in sorted <==> key in multiset(sorted);
      assert key in keys <==> key in multiset(keys);
    }
    if Distinct(keys) {
      forall i, j | 0 <= i < j < |sorted| ensures sorted[i] != sorted[j] {
        NoneTwice(keys, sorted[i]);
        if sorted[i] == sorted[j] {
          TwiceInMultiset(sorted, i, j);
        }
      }
    }
  }

  lemma ReadKeysAreStored(l: Layout, s: State, a: Abstract<KeyMap>, keys: seq<StoredKey>, key: StoredKey)
    requires Lawful(l) && StoreInv(l, s, a) && ReadSoFar(l, s, Visible(s).Keys, keys) && key in keys
    ensures key.summary.id in a.current && a.current[key.summary.id] == key
  {
    var name :| name in Visible(s).Keys && RecordAt(l, s, name, key);
    var id := KeyOfRecord(l, s, a, name);
  }

  lemma StoredKeysAreRead(l: Layout, s: State, a: Abstract<KeyMap>, keys: seq<StoredKey>, id: Text)
    requires Lawful(l) && StoreInv(l, s, a) && ReadSoFar(l, s, Visible(s).Keys, keys) && id in a.current
    ensures a.current[id].summary.id == id && a.current[id] in keys
  {
    RecordOfKey(l, s, a, id);
    var key :| key in keys && RecordAt(l, s, l.path(id), key);
  }

  lemma CompleteListing(l: Layout, s: State, a: Abstract<KeyMap>, keys: seq<StoredKey>)
    requires Lawful(l) && StoreInv(l, s, a)
    requires Sorted(keys) && Distinct(keys) && ReadSoFar(l, s, Visible(s).Keys, keys)
    ensures IsListing(keys, a.current)
  {
    forall key | key in keys ensures key.summary.id in a.current && a.current[key.summary.id] == key {
      ReadKeysAreStored(l, s, a, keys, key);
    }
    forall id | id in a.current ensures a.current[id].summary.id == id && a.current[id] in keys {
      StoredKeysAreRead(l, s, a, keys, id);
    }
    StrictWhenDistinct(keys, a.current);
  }

  lemma StrictWhenDistinct(keys: seq<StoredKey>, m: KeyMap)
    requires Sorted(keys) && Distinct(keys)
    requires forall key | key in keys :: key.summary.id in m && m[key.summary.id] == key
    ensures StrictlySorted(keys)
  {
    forall i, j | 0 <= i < j < |keys| ensures Before(keys[i].summary.id, keys[j].summary.id) {
      assert AtMost(keys[i], keys[j]) && keys[i] in keys && keys[j] in keys;
    }
  }

  /** Saving a key changes the map unless exactly this key is stored. */
  lemma SavedAgain(a: Abstract<KeyMap>, key: StoredKey)
    requires a.current in a.possible
    ensures var updated := a.current[key.summary.id := key];
            Abstract(a.possible + {updated}, updated) == a <==> IsStored(a, key)
  {
    var updated := a.current[key.summary.id := key];
    assert key.summary.id in updated && updated[key.summary.id] == key;
    if IsStored(a, key) {
      assert updated == a.current;
      assert a.possible + {updated} == a.possible;
    }
  }

  lemma OnlyMapIsPossible(l: Layout, s: State, before: Abstract<KeyMap>, m: KeyMap)
    requires StoreInv(l, s, Abstract({m}, m))
    ensures Between(l, s, before, m)
  {
    var possible := before.possible + {m};
    forall v | v in Views(s, l.isRecord) ensures Meaningful(l, v, possible) {
      MeaningfulGrows(l, v, {m}, possible);
    }
  }

  /** Unlinking a record, then syncing the directory. */
  lemma DeletedRecord(l: Layout, s: State, a: Abstract<KeyMap>, id: Text)
    requires Lawful(l) && StoreInv(l, s, a)
    ensures var m := a.current - {id};
            var possible := a.possible + {m};
            var t := AppendOp(s, Unlink(l.path(id)));
            && StoreInv(l, s, Abstract(possible, a.current))
            && StoreInv(l, t, Abstract(possible, m))
            && StoreInv(l, t.(durable := Visible(t), pending := []), Abstract({m}, m))
            && Between(l, s, a, m) && Between(l, t, a, m) && Between(l, t.(durable := Visible(t), pending := []), a, m)
  {
    var m := a.current - {id};
    var possible := a.possible + {m};
    var t := AppendOp(s, Unlink(l.path(id)));
    DeletedView(l, Current(s, l.isRecord), a.current, id);
    RemovedRecord(l, s, l.path(id));
    forall v | v in Views(s, l.isRecord) ensures Meaningful(l, v, possible) {
      MeaningfulGrows(l, v, a.possible, possible);
    }
    assert Represents(l, Current(t, l.isRecord), m) && m in possible;
    SyncDirViews(t, l.isRecord);
    SyncDirWellFormed(t);
    OnlyView(l, t.(durable := Visible(t), pending := []), m);
    OnlyMapIsPossible(l, t.(durable := Visible(t), pending := []), a, m);
  }

  /** Between the rename and the directory sync, where a save can still fail,
      processes already see the new record while a power loss can still bring
      the old map back: such a failed save does not leave the store unchanged. */
  lemma RenameAloneReplaces(l: Layout, s: State, a: Abstract<KeyMap>, key: StoredKey, bytes: seq<byte>, temporary: Name)
    requires Lawful(l) && StoreInv(l, s, a)
    requires key.summary.id != [] && l.decode(bytes) == Success(key)
    requires !l.isRecord(temporary) && temporary in Visible(s)
    requires ContentOf(s.inodes, Visible(s)[temporary]) == Stable(bytes)
    ensures var t := AppendOp(s, Rename(temporary, l.path(key.summary.id)));
            && Represents(l, Current(t, l.isRecord), a.current[key.summary.id := key])
            && Represents(l, Views(t, l.isRecord)[|s.pending|], a.current)
  {
    RenamedTemporary(s, temporary, l.path(key.summary.id), bytes, l.isRecord);
    SavedView(l, Current(s, l.isRecord), a.current, key, bytes);
    CurrentIsLastView(s, l.isRecord);
  }

  // ------------------------------------------------------------------
  // The store
  // ------------------------------------------------------------------

  predicate IsStored(a: Abstract<KeyMap>, key: StoredKey) {
    key.summary.id in a.current && a.current[key.summary.id] == key
  }

  datatype Unlinking = Kept | Removed | Synced

  /** `remove_file`, then the directory sync. */
  method Unlinked(disk: Device, ghost l: Layout, ghost a: Abstract<KeyMap>, ghost id: Text, path: Name) returns (r: Unlinking)
    requires Lawful(l) && StoreInv(l, disk.state, a) && path == l.path(id)
    modifies disk
    ensures var m := a.current - {id};
            StoreInv(l, disk.state, match r
                                    case Kept => Abstract(a.possible + {m}, a.current)
                                    case Removed => Abstract(a.possible + {m}, m)
                                    case Synced => Abstract({m}, m))
    ensures disk.healthy && path in Visible(old(disk.state)) ==> r == Synced
    ensures r == Synced ==> disk.state.pending == []
    ensures r == Synced ==> Visible(disk.state).Keys == Visible(old(disk.state)).Keys - {path}
    ensures old(disk.trace) <= disk.trace
    ensures forall i | |old(disk.trace)| <= i < |disk.trace| :: Between(l, disk.trace[i], a, a.current - {id})
  {
    DeletedRecord(l, disk.state, a, id);
    PrefixesOfAppend(disk.state, Unlink(path));
    var ok := disk.RemoveFile(path);
    if !ok {
      return Kept;
    }
    ok := disk.SyncDirectory();
    return if ok then Synced else Removed;
  }

  class KeyStore {
    const disk: Device
    const pid: nat
    ghost const layout: Layout
    ghost var model: Abstract<KeyMap>

    ghost predicate Valid()
      reads this, disk
    {
      Real(layout, pid) && StoreInv(layout, disk.state, model)
    }

    /** A store over a missing (empty) directory is the empty map. */
    constructor (disk: Device, pid: nat)
      requires disk.state == State(map[], 0, map[], [])
      ensures this.disk == disk && this.pid == pid
      ensures Valid() && model == Abstract({map[]}, map[])
    {
      this.disk := disk;
      this.pid := pid;
      layout := AgentLayout(pid);
      model := Abstract({map[]}, map[]);
      new;
      OnlyView(layout, disk.state, map[]);
    }

    /** A store over any directory that holds a map's records, as a process with
        identifier `pid` finds it; `l` is the layout of an earlier process. */
    constructor Open(disk: Device, pid: nat, ghost l: Layout, ghost earlier: nat, ghost found: Abstract<KeyMap>)
      requires Real(l, earlier) && StoreInv(l, disk.state, found)
      ensures this.disk == disk && this.pid == pid
      ensures Valid() && model == found
      ensures layout == l.(temporary := layout.temporary)
    {
      this.disk := disk;
      this.pid := pid;
      layout := l.(temporary := (id: Text, attempt: nat) => TemporaryName(id, pid, attempt));
      model := found;
    }

    /** Atomically writes one record. A failed save leaves the store as it was
        exactly when the rename was not reached or the key was stored already;
        after the rename only the directory sync can fail, and the new record is
        there. `prepared` tells whether the directory passed its checks. */
    method Save(key: StoredKey, prepared: bool) returns (r: Result<(), StoreError>, ghost renamed: bool)
      requires Valid()
      modifies this, disk
      ensures Valid()
      ensures r == Failure(InvalidRecord) <==> !ValidKey(key)
      ensures !ValidKey(key) ==> model == old(model) && disk.state == old(disk.state) && disk.trace == old(disk.trace)
      ensures ValidKey(key) ==> Step(old(model), Saved(key, r.Success?), model)
      ensures r.Success? ==> renamed
      ensures r.Success? ==> disk.state.pending == []
      ensures r.Success? || disk.removes ==>
                Visible(disk.state).Keys
                == Visible(old(disk.state)).Keys + (if renamed then {layout.path(key.summary.id)} else {})
      ensures ValidKey(key) && prepared && disk.healthy && HasFreeName(layout, old(disk.state), key.summary.id) ==> r.Success?
      ensures if renamed then model.current == old(model).current[key.summary.id := key] else model == old(model)
      ensures r.Failure? ==> (model == old(model) <==> !renamed || IsStored(old(model), key))
      ensures old(disk.trace) <= disk.trace
      ensures forall i | |old(disk.trace)| <= i < |disk.trace| ::
                Between(layout, disk.trace[i], old(model), old(model).current[key.summary.id := key])
    {
      renamed := false;
      var valid := CheckKey(key);
      if !valid {
        return Failure(InvalidRecord), false;
      }
      RealIsLawful(layout, pid);
      var id := key.summary.id;
      var bytes := WriteRecord(layout, pid, key);
      if !prepared {
        return Failure(Io), false;
      }
      var path := RecordPath(layout, pid, id);
      var candidates := TemporaryNames(layout, pid, id);
      ghost var start, before, updated := disk.state, model, model.current[id := key];
      ghost var view := Current(start, layout.isRecord)[path := Stable(bytes)];
      SavedView(layout, Current(start, layout.isRecord), model.current, key, bytes);
      var ok: bool;
      ok, renamed := ReplaceFile(disk, candidates, path, bytes, layout.isRecord);
      forall i | |old(disk.trace)| <= i < |disk.trace| ensures Between(layout, disk.trace[i], before, updated) {
        MixedViews(layout, start, disk.trace[i], before, updated, view);
      }
      if ok {
        CurrentIsLastView(disk.state, layout.isRecord);
        OnlyView(layout, disk.state, updated);
        model := Abstract({updated}, updated);
        return Success(()), renamed;
      }
      if renamed {
        ReplacedStore(layout, start, disk.state, before, updated, view);
        model := Abstract(before.possible + {updated}, updated);
        SavedAgain(before, key);
      } else {
        UntouchedStore(layout, start, disk.state, before);
      }
      return Failure(Io), renamed;
    }

    /** Removes one record. */
    method Delete(id: Text) returns (r: Result<(), StoreError>)
      requires Valid()
      modifies this, disk
      ensures Valid()
      ensures r == Failure(InvalidRecord) <==> id == [] || |id| > 4096
      ensures r.Success? ==> id in old(model).current
      ensures r.Success? ==> disk.state.pending == []
      ensures r.Success? ==> Visible(disk.state).Keys == Visible(old(disk.state)).Keys - {layout.path(id)}
      ensures disk.healthy && TextInRange(id) && id in old(model).current ==> r.Success?
      ensures !TextInRange(id) || id !in old(model).current ==> model == old(model) && disk.state == old(disk.state)
      ensures Step(old(model), Deleted(id, r.Success?), model)
      ensures old(disk.trace) <= disk.trace
      ensures forall i | |old(disk.trace)| <= i < |disk.trace| ::
                Between(layout, disk.trace[i], old(model), old(model).current - {id})
    {
      if id == [] || |id| > 4096 {
        return Failure(InvalidRecord);
      }
      RealIsLawful(layout, pid);
      var path := RecordPath(layout, pid, id);
      ghost var start, before, updated := disk.state, model, model.current - {id};
      if path !in Visible(disk.state) {
        if id in before.current {
          RecordOfKey(layout, start, before, id);
        }
        return Failure(Io);
      }
      ghost var known := KeyOfRecord(layout, start, before, path);
      var result := Unlinked(disk, layout, before, id, path);
      match result {
        case Kept =>
          model := Abstract(before.possible + {updated}, before.current);
          return Failure(Io);
        case Removed =>
          model := Abstract(before.possible + {updated}, updated);
          return Failure(Io);
        case Synced =>
          model := Abstract({updated}, updated);
          return Success(());
      }
    }

    /** Reads one record; apart from I/O errors this is map lookup. */
    method Load(id: Text) returns (r: Result<StoredKey, StoreError>)
      requires Valid()
      ensures r.Success? && id != [] ==> id in model.current && r.value == model.current[id]
      ensures disk.healthy && id in model.current ==> r == Success(model.current[id])
      ensures r.Failure? && id != [] ==> r.error == Io
    {
      RealIsLawful(layout, pid);
      var path := RecordPath(layout, pid, id);
      var readable: bool := *;
      if (!readable && !disk.healthy) || path !in Visible(disk.state) {
        return Failure(Io);
      }
      if id != [] {
        ghost var known := KeyOfRecord(layout, disk.state, model, path);
      }
      r := ReadRecord(layout, pid, Contents(disk.state, path));
    }

    /** One directory entry of a listing: skipped, or read and appended. */
    method VisitEntry(name: Name, ghost done: set<Name>, keys: seq<StoredKey>) returns (r: Result<seq<StoredKey>, StoreError>)
      requires Real(layout, pid) && Lawful(layout)
      requires name in Visible(disk.state) && name !in done
      requires ReadSoFar(layout, disk.state, done, keys)
      ensures r.Success? ==> ReadSoFar(layout, disk.state, done + {name}, r.value)
      ensures !layout.isRecord(name) ==> r == Success(keys)
      ensures layout.isRecord(name) && r.Success? ==>
                exists key :: layout.decode(Contents(disk.state, name)) == Success(key) && r.value == keys + [key]
      ensures r.Failure? ==> layout.isRecord(name) && layout.decode(Contents(disk.state, name)) == Failure(r.error)
      ensures Valid() ==> r.Success? && (Distinct(keys) ==> Distinct(r.value))
    {
      var isRecord := HasKeyExtension(layout, pid, name);
      if !isRecord {
        SkipOne(layout, disk.state, done, keys, name);
        return Success(keys);
      }
      if Valid() {
        ghost var known := KeyOfRecord(layout, disk.state, model, name);
      }
      var key := ReadRecord(layout, pid, Contents(disk.state, name));
      if key.Failure? {
        return Failure(key.error);
      }
      ReadOne(layout, disk.state, done, keys, name, key.value);
      if Valid() {
        FreshRecord(layout, disk.state, model, done, keys, name, key.value);
      }
      return Success(keys + [key.value]);
    }

    /** Reads every record, in whatever order the directory yields them. For any
        directory at all, one undecodable record fails the listing; for this
        store's own directory the listing is the map's. */
    method List() returns (r: Result<seq<StoredKey>, StoreError>)
      requires Real(layout, pid)
      ensures r.Success? ==> Sorted(r.value) && ReadSoFar(layout, disk.state, Visible(disk.state).Keys, r.value)
      ensures r.Failure? && r.error != Io ==>
                exists name :: name in Visible(disk.state) && layout.isRecord(name)
                               && layout.decode(Contents(disk.state, name)) == Failure(r.error)
      ensures Valid() && r.Success? ==> IsListing(r.value, model.current)
      ensures Valid() && r.Failure? ==> r.error == Io
      ensures r.Success? ==> EveryRecordDecodes(layout, disk.state)
      ensures disk.healthy && EveryRecordDecodes(layout, disk.state) ==> r.Success?
      ensures disk.healthy && Valid() ==> r.Success?
    {
      RealIsLawful(layout, pid);
      ghost var valid := Valid();
      var names := Visible(disk.state).Keys;
      var keys: seq<StoredKey> := [];
      ghost var done: set<Name> := {};
      while names != {}
        invariant names !! done && names + done == Visible(disk.state).Keys
        invariant ReadSoFar(layout, disk.state, done, keys)
        invariant valid ==> Distinct(keys)
        decreases |names|
      {
        var readable: bool := *;
        if !readable && !disk.healthy {
          return Failure(Io);
        }
        var name :| name in names;
        names := names - {name};
        var visited := VisitEntry(name, done, keys);
        if visited.Failure? {
          assert !EveryRecordDecodes(layout, disk.state);
          return Failure(visited.error);
        }
        keys := visited.value;
        done := done + {name};
      }
      assert done == Visible(disk.state).Keys;
      ReadMeansDecoded(layout, disk.state, keys);
      r := Success(SortById(keys));
      SortingKeepsMembers(keys, r.value);
      if valid {
        CompleteListing(layout, disk.state, model, r.value);
      }
    }
  }
}

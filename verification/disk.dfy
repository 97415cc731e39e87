/** One directory of a journalling file system, with the difference between what
    a process sees and what survives a power loss, and the write protocol that
    both stores use: temporary file, sync, rename, directory sync. */
module Disk {
  import opened Wrappers
  import opened Bytes

  type Name = seq<byte>

  /** A regular file; unsynced contents may be lost or torn by a power loss. */
  datatype File = File(bytes: seq<byte>, synced: bool)

  type Dir = map<Name, nat>

  datatype DirOp = Link(name: Name, inode: nat) | Rename(from: Name, to: Name) | Unlink(name: Name)

  /** `durable` is the directory on the medium; `pending` are the directory
      changes made since, in order, of which a power loss keeps some prefix. */
  datatype State = State(inodes: map<nat, File>, next: nat, durable: Dir, pending: seq<DirOp>)

  function ApplyOp(d: Dir, op: DirOp): Dir {
    match op
    case Link(name, inode) => d[name := inode]
    case Rename(from, to) => if from in d then (d - {from})[to := d[from]] else d
    case Unlink(name) => d - {name}
  }

  function Apply(d: Dir, ops: seq<DirOp>): Dir {
    if ops == [] then d else ApplyOp(Apply(d, ops[..|ops| - 1]), ops[|ops| - 1])
  }

  /** The directory as processes see it. */
  function Visible(s: State): Dir {
    Apply(s.durable, s.pending)
  }

  // ------------------------------------------------------------------
  // What may be found after a power loss
  // ------------------------------------------------------------------

  datatype Content = Stable(bytes: seq<byte>) | Torn

  function ContentOf(inodes: map<nat, File>, inode: nat): Content {
    if inode in inodes && inodes[inode].synced then Stable(inodes[inode].bytes) else Torn
  }

  type View = map<Name, Content>

  /** The entries of a directory whose names matter to the observer. */
  ghost function Look(inodes: map<nat, File>, d: Dir, keep: Name -> bool): View {
    map name | name in d && keep(name) :: ContentOf(inodes, d[name])
  }

  /** Everything a power loss might reveal, one view per surviving prefix of the
      pending changes; the last view is what processes see now. */
  ghost function Views(s: State, keep: Name -> bool): (v: seq<View>)
    ensures |v| == |s.pending| + 1
  {
    seq(|s.pending| + 1, k requires 0 <= k <= |s.pending| => Look(s.inodes, Apply(s.durable, s.pending[..k]), keep))
  }

  ghost function Current(s: State, keep: Name -> bool): View {
    Look(s.inodes, Visible(s), keep)
  }

  lemma SameViews(s: State, keep: Name -> bool, same: Name -> bool)
    requires forall name :: keep(name) == same(name)
    ensures Views(s, keep) == Views(s, same) && Current(s, keep) == Current(s, same)
  {
    assert forall d: Dir :: Look(s.inodes, d, keep) == Look(s.inodes, d, same);
  }

  lemma CurrentIsLastView(s: State, keep: Name -> bool)
    ensures Views(s, keep)[|s.pending|] == Current(s, keep)
  {
    assert s.pending[..|s.pending|] == s.pending;
  }

  /** After a power loss the first `kept` pending changes have happened; synced
      files are intact and unsynced ones hold anything at all. */
  function PowerLoss(s: State, kept: nat, garbage: nat -> seq<byte>): State
    requires kept <= |s.pending|
  {
    State(map i | i in s.inodes :: if s.inodes[i].synced then s.inodes[i] else File(garbage(i), true),
          s.next, Apply(s.durable, s.pending[..kept]), [])
  }

  /** No directory entry, past or present, refers to an inode yet to be made. */
  ghost predicate WellFormed(s: State) {
    && (forall i | i in s.inodes :: i < s.next)
    && (forall k, name | 0 <= k <= |s.pending| && name in Apply(s.durable, s.pending[..k]) ::
          Apply(s.durable, s.pending[..k])[name] in s.inodes)
  }

  /** No observed entry refers to the inode. */
  ghost predicate Unobserved(s: State, inode: nat, keep: Name -> bool) {
    forall k, name | 0 <= k <= |s.pending| && name in Apply(s.durable, s.pending[..k]) && keep(name) ::
      Apply(s.durable, s.pending[..k])[name] != inode
  }

  // ------------------------------------------------------------------
  // How single operations change the views
  // ------------------------------------------------------------------

  function AppendOp(s: State, op: DirOp): State {
    s.(pending := s.pending + [op])
  }

  function SetFile(s: State, inode: nat, file: File): State {
    s.(inodes := s.inodes[inode := file])
  }

  lemma PrefixesOfAppend(s: State, op: DirOp)
    ensures forall k | 0 <= k <= |s.pending| :: (s.pending + [op])[..k] == s.pending[..k]
    ensures Apply(s.durable, (s.pending + [op])[..|s.pending| + 1]) == ApplyOp(Visible(s), op)
    ensures Visible(AppendOp(s, op)) == ApplyOp(Visible(s), op)
  {
    assert (s.pending + [op])[..|s.pending| + 1] == s.pending + [op];
    assert (s.pending + [op])[..|s.pending|] == s.pending;
  }

  /** What reading a file gives; a name that is not there reads as nothing. */
  function Contents(s: State, name: Name): seq<byte> {
    if name in Visible(s) && Visible(s)[name] in s.inodes then s.inodes[Visible(s)[name]].bytes else []
  }

  lemma AppendOpViews(s: State, op: DirOp, keep: Name -> bool)
    ensures Views(AppendOp(s, op), keep) == Views(s, keep) + [Look(s.inodes, ApplyOp(Visible(s), op), keep)]
  {
    PrefixesOfAppend(s, op);
  }

  lemma AppendOpWellFormed(s: State, op: DirOp)
    requires WellFormed(s) && (op.Link? ==> op.inode in s.inodes)
    ensures WellFormed(AppendOp(s, op))
  {
    PrefixesOfAppend(s, op);
    assert s.pending[..|s.pending|] == s.pending;
    var t := AppendOp(s, op);
    forall k, name | 0 <= k <= |t.pending| && name in Apply(t.durable, t.pending[..k])
      ensures Apply(t.durable, t.pending[..k])[name] in t.inodes
    {
      if k <= |s.pending| {
        assert t.pending[..k] == s.pending[..k];
      }
    }
  }

  lemma SetFileViews(s: State, inode: nat, file: File, keep: Name -> bool)
    requires Unobserved(s, inode, keep)
    ensures Views(SetFile(s, inode, file), keep) == Views(s, keep)
    ensures Unobserved(SetFile(s, inode, file), inode, keep)
  {
    var t := SetFile(s, inode, file);
    forall k | 0 <= k <= |s.pending| ensures Views(t, keep)[k] == Views(s, keep)[k] {
      var d := Apply(s.durable, s.pending[..k]);
      assert forall name | name in d && keep(name) :: ContentOf(t.inodes, d[name]) == ContentOf(s.inodes, d[name]);
    }
  }

  /** Syncing the directory leaves the current view as the only one. */
  lemma SyncDirViews(s: State, keep: Name -> bool)
    ensures Views(s.(durable := Visible(s), pending := []), keep) == [Current(s, keep)]
  {
  }

  lemma SyncDirWellFormed(s: State)
    requires WellFormed(s)
    ensures WellFormed(s.(durable := Visible(s), pending := []))
  {
    assert s.pending[..|s.pending|] == s.pending;
  }

  /** After a power loss, whatever was stable in the surviving view is there. */
  lemma PowerLossView(s: State, kept: nat, garbage: nat -> seq<byte>, keep: Name -> bool)
    requires WellFormed(s) && kept <= |s.pending|
    ensures var t := PowerLoss(s, kept, garbage);
            && WellFormed(t) && |Views(t, keep)| == 1 && Views(t, keep)[0] == Current(t, keep)
            && Current(t, keep).Keys == Views(s, keep)[kept].Keys
            && (forall name | name in Current(t, keep) && Views(s, keep)[kept][name].Stable? ::
                  Current(t, keep)[name] == Views(s, keep)[kept][name])
  {
    var t := PowerLoss(s, kept, garbage);
    assert Visible(t) == Apply(s.durable, s.pending[..kept]);
    assert t.pending[..0] == [];
  }

  /** A view whose files are all stable survives unchanged. */
  lemma StableViewSurvives(s: State, kept: nat, garbage: nat -> seq<byte>, keep: Name -> bool)
    requires WellFormed(s) && kept <= |s.pending|
    requires forall name | name in Views(s, keep)[kept] :: Views(s, keep)[kept][name].Stable?
    ensures var t := PowerLoss(s, kept, garbage);
            && WellFormed(t) && Current(t, keep) == Views(s, keep)[kept] && Views(t, keep) == [Current(t, keep)]
  {
    PowerLossView(s, kept, garbage, keep);
  }

  // ------------------------------------------------------------------
  // The device
  // ------------------------------------------------------------------

  /** How far the directory changes had reached the medium, and what became of
      unsynced contents. */
  datatype Loss = Loss(kept: nat, garbage: nat -> seq<byte>)

  /** A process is stopped when the device has reached its `at`-th recorded
      state, or else now, possibly because the power fails. */
  datatype Stop = Stop(at: Option<nat>, loss: Option<Loss>)
  {
    /** The device's state at the stop. */
    function Reached(trace: seq<State>, now: State): State {
      if at.Some? && at.value < |trace| then trace[at.value] else now
    }
  }

  function Found(s: State, loss: Option<Loss>): State {
    match loss
    case None => s
    case Some(l) => PowerLoss(s, if l.kept <= |s.pending| then l.kept else |s.pending|, l.garbage)
  }

  /** Nothing is lost of a directory whose changes have all reached the medium. */
  lemma SettledSurvives(s: State, loss: Option<Loss>)
    requires s.pending == []
    ensures Visible(Found(s, loss)) == Visible(s)
  {
    assert s.pending[..0] == [];
  }

  datatype CreateResult = Created(inode: nat) | AlreadyExists | CreateFailed

  /** The mounted directory. Any operation may fail unless the device is healthy,
      except that a device may be known to remove every name it is asked to; `trace` records every state passed through, so a statement about all of
      them is a statement about stopping at any point. */
  class Device {
    const healthy: bool
    const removes: bool
    var state: State
    var trace: seq<State>

    constructor (healthy: bool, removes: bool)
      ensures this.healthy == healthy && this.removes == removes
      ensures state == State(map[], 0, map[], []) && trace == [state]
    {
      this.healthy := healthy;
      this.removes := removes;
      state := State(map[], 0, map[], []);
      trace := [State(map[], 0, map[], [])];
    }

    /** What the next process finds after a stop. */
    method Restart(stop: Stop)
      modifies this
      ensures state == Found(stop.Reached(old(trace), old(state)), stop.loss)
      ensures trace == old(trace) + [state]
    {
      state := Found(stop.Reached(trace, state), stop.loss);
      trace := trace + [state];
    }

    method CreateNew(name: Name) returns (r: CreateResult)
      modifies this
      ensures r.Created? ==>
                && r.inode == old(state).next
                && state == AppendOp(SetFile(old(state), r.inode, File([], false)).(next := r.inode + 1), Link(name, r.inode))
                && name !in Visible(old(state))
      ensures r.AlreadyExists? ==> name in Visible(old(state))
      ensures !r.Created? ==> state == old(state)
      ensures healthy ==> !r.CreateFailed?
      ensures trace == old(trace) + [state]
    {
      var fails: bool := *;
      if fails && !healthy {
        r := CreateFailed;
      } else if name in Visible(state) {
        r := AlreadyExists;
      } else {
        r := Created(state.next);
        state := AppendOp(SetFile(state, state.next, File([], false)).(next := state.next + 1), Link(name, state.next));
      }
      trace := trace + [state];
    }

    /** `write_all`: any number of partial writes, any of which may fail. */
    method WriteAll(inode: nat, bytes: seq<byte>) returns (ok: bool)
      requires inode in state.inodes && state.inodes[inode] == File([], false)
      modifies this
      ensures ok ==> state == SetFile(old(state), inode, File(bytes, false))
      ensures healthy ==> ok
      ensures exists part :: state == SetFile(old(state), inode, File(part, false))
      ensures old(trace) <= trace
      ensures forall i | |old(trace)| <= i < |trace| ::
                exists part :: trace[i] == SetFile(old(state), inode, File(part, false))
    {
      var written := 0;
      assert state == SetFile(state, inode, File([], false));
      assert bytes[..0] == [];
      while written < |bytes|
        invariant written <= |bytes|
        invariant state == SetFile(old(state), inode, File(bytes[..written], false))
        invariant old(trace) <= trace
        invariant forall i | |old(trace)| <= i < |trace| ::
                    exists part :: trace[i] == SetFile(old(state), inode, File(part, false))
      {
        var fails: bool := *;
        if fails && !healthy {
          return false;
        }
        var count: nat :| 1 <= count <= |bytes| - written;
        written := written + count;
        state := SetFile(state, inode, File(bytes[..written], false));
        assert state == SetFile(old(state), inode, File(bytes[..written], false));
        trace := trace + [state];
      }
      assert bytes[..|bytes|] == bytes;
      return true;
    }

    method SyncFile(inode: nat) returns (ok: bool)
      requires inode in state.inodes
      modifies this
      ensures state == if ok then SetFile(old(state), inode, old(state).inodes[inode].(synced := true)) else old(state)
      ensures healthy ==> ok
      ensures trace == old(trace) + [state]
    {
      ok := *;
      ok := ok || healthy;
      if ok {
        state := SetFile(state, inode, state.inodes[inode].(synced := true));
      }
      trace := trace + [state];
    }

    method RenameFile(from: Name, to: Name) returns (ok: bool)
      modifies this
      ensures state == if ok then AppendOp(old(state), Rename(from, to)) else old(state)
      ensures ok ==> from in Visible(old(state))
      ensures healthy && from in Visible(old(state)) ==> ok
      ensures trace == old(trace) + [state]
    {
      ok := *;
      ok := (ok || healthy) && from in Visible(state);
      if ok {
        state := AppendOp(state, Rename(from, to));
      }
      trace := trace + [state];
    }

    method RemoveFile(name: Name) returns (ok: bool)
      modifies this
      ensures state == if ok then AppendOp(old(state), Unlink(name)) else old(state)
      ensures ok ==> name in Visible(old(state))
      ensures (healthy || removes) && name in Visible(old(state)) ==> ok
      ensures trace == old(trace) + [state]
    {
      ok := *;
      ok := (ok || healthy || removes) && name in Visible(state);
      if ok {
        state := AppendOp(state, Unlink(name));
      }
      trace := trace + [state];
    }

    method SyncDirectory() returns (ok: bool)
      modifies this
      ensures state == if ok then old(state).(durable := Visible(old(state)), pending := []) else old(state)
      ensures healthy ==> ok
      ensures trace == old(trace) + [state]
    {
      ok := *;
      ok := ok || healthy;
      if ok {
        state := state.(durable := Visible(state), pending := []);
      }
      trace := trace + [state];
    }
  }
}

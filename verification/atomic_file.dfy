/** The write protocol shared by the key store and the signing history: a fresh
    temporary file is written and synced, renamed over the destination, and the
    directory is synced; on failure the temporary file is removed. */
module AtomicFile {
  import opened Wrappers
  import opened Bytes
  import opened Disk

  /** Every view of `s` is one of the old ones or the new one, and what processes
      see is the old current view or the new one. */
  ghost predicate OldOrNew(s: State, keep: Name -> bool, before: seq<View>, current: View, updated: View) {
    && WellFormed(s)
    && (forall v | v in Views(s, keep) :: v in before || v == updated)
    && (Current(s, keep) == current || Current(s, keep) == updated)
  }

  /** The destination was not replaced, not even as far as a power loss can tell. */
  ghost predicate Untouched(s: State, keep: Name -> bool, before: seq<View>, current: View) {
    && WellFormed(s)
    && (forall v | v in Views(s, keep) :: v in before)
    && Current(s, keep) == current
  }

  ghost predicate AllOldOrNew(trace: seq<State>, from: nat, keep: Name -> bool,
                              before: seq<View>, current: View, updated: View) {
    forall i | from <= i < |trace| :: OldOrNew(trace[i], keep, before, current, updated)
  }

  lemma CreatedTemporary(s: State, temporary: Name, keep: Name -> bool)
    requires WellFormed(s) && !keep(temporary)
    ensures var t := AppendOp(SetFile(s, s.next, File([], false)).(next := s.next + 1), Link(temporary, s.next));
            && WellFormed(t)
            && Views(t, keep) == Views(s, keep) + [Current(s, keep)]
            && Current(t, keep) == Current(s, keep)
            && Unobserved(t, s.next, keep)
            && temporary in Visible(t) && Visible(t)[temporary] == s.next
  {
    var i := s.next;
    var u := SetFile(s, i, File([], false)).(next := i + 1);
    FreshInode(s, keep);
    AppendOpViews(u, Link(temporary, i), keep);
    AppendOpWellFormed(u, Link(temporary, i));
    PrefixesOfAppend(u, Link(temporary, i));
    assert Look(u.inodes, ApplyOp(Visible(u), Link(temporary, i)), keep) == Current(u, keep);
    LinkedUnobserved(u, temporary, i, keep);
  }

  lemma CreatedIsVisible(s: State, temporary: Name)
    ensures var t := AppendOp(SetFile(s, s.next, File([], false)).(next := s.next + 1), Link(temporary, s.next));
            Visible(t).Keys == Visible(s).Keys + {temporary}
  {
    var u := SetFile(s, s.next, File([], false)).(next := s.next + 1);
    PrefixesOfAppend(u, Link(temporary, s.next));
  }

  lemma LinkedUnobserved(s: State, name: Name, inode: nat, keep: Name -> bool)
    requires Unobserved(s, inode, keep) && !keep(name)
    ensures Unobserved(AppendOp(s, Link(name, inode)), inode, keep)
  {
    var t := AppendOp(s, Link(name, inode));
    PrefixesOfAppend(s, Link(name, inode));
    assert s.pending[..|s.pending|] == s.pending;
    forall k, other | 0 <= k <= |t.pending| && other in Apply(t.durable, t.pending[..k]) && keep(other)
      ensures Apply(t.durable, t.pending[..k])[other] != inode
    {
      if k <= |s.pending| {
        assert t.pending[..k] == s.pending[..k];
      }
    }
  }

  lemma FreshInode(s: State, keep: Name -> bool)
    requires WellFormed(s)
    ensures var u := SetFile(s, s.next, File([], false)).(next := s.next + 1);
            && WellFormed(u) && Unobserved(u, s.next, keep)
            && Views(u, keep) == Views(s, keep) && Current(u, keep) == Current(s, keep)
  {
    assert Unobserved(s, s.next, keep);
    SetFileViews(s, s.next, File([], false), keep);
    CurrentIsLastView(s, keep);
    CurrentIsLastView(SetFile(s, s.next, File([], false)), keep);
  }

  lemma RenamedTemporary(s: State, temporary: Name, destination: Name, bytes: seq<byte>, keep: Name -> bool)
    requires WellFormed(s) && !keep(temporary) && keep(destination)
    requires temporary in Visible(s) && ContentOf(s.inodes, Visible(s)[temporary]) == Stable(bytes)
    ensures var t := AppendOp(s, Rename(temporary, destination));
            && WellFormed(t)
            && Views(t, keep) == Views(s, keep) + [Current(s, keep)[destination := Stable(bytes)]]
            && Current(t, keep) == Current(s, keep)[destination := Stable(bytes)]
  {
    var op := Rename(temporary, destination);
    AppendOpViews(s, op, keep);
    AppendOpWellFormed(s, op);
    PrefixesOfAppend(s, op);
    assert Look(s.inodes, ApplyOp(Visible(s), op), keep) == Current(s, keep)[destination := Stable(bytes)];
  }

  /** Why contents are synced before the rename: without it a power loss may keep
      the new name and replace the contents by anything at all. */
  lemma UnsyncedRenameCanTear(s: State, temporary: Name, destination: Name, garbage: nat -> seq<byte>)
    requires WellFormed(s) && temporary in Visible(s)
    requires Visible(s)[temporary] in s.inodes && !s.inodes[Visible(s)[temporary]].synced
    ensures var t := AppendOp(s, Rename(temporary, destination));
            var found := PowerLoss(t, |t.pending|, garbage);
            destination in Visible(found) && Contents(found, destination) == garbage(Visible(s)[temporary])
  {
    var t := AppendOp(s, Rename(temporary, destination));
    PrefixesOfAppend(s, Rename(temporary, destination));
    assert t.pending[..|t.pending|] == t.pending;
    assert Visible(PowerLoss(t, |t.pending|, garbage)) == Visible(t);
  }

  lemma RemovedTemporary(s: State, temporary: Name, keep: Name -> bool)
    requires WellFormed(s) && !keep(temporary)
    ensures var t := AppendOp(s, Unlink(temporary));
            && WellFormed(t)
            && Views(t, keep) == Views(s, keep) + [Current(s, keep)]
            && Current(t, keep) == Current(s, keep)
  {
    var op := Unlink(temporary);
    AppendOpViews(s, op, keep);
    AppendOpWellFormed(s, op);
    PrefixesOfAppend(s, op);
    assert Look(s.inodes, ApplyOp(Visible(s), op), keep) == Current(s, keep);
  }

  lemma RewrittenTemporary(s: State, inode: nat, file: File, keep: Name -> bool)
    requires WellFormed(s) && inode in s.inodes && Unobserved(s, inode, keep)
    ensures var t := SetFile(s, inode, file);
            && WellFormed(t)
            && Views(t, keep) == Views(s, keep)
            && Current(t, keep) == Current(s, keep)
            && Unobserved(t, inode, keep)
            && Visible(t) == Visible(s)
  {
    SetFileViews(s, inode, file, keep);
    CurrentIsLastView(s, keep);
    CurrentIsLastView(SetFile(s, inode, file), keep);
  }

  lemma ViewsContainCurrent(s: State, keep: Name -> bool)
    ensures Current(s, keep) in Views(s, keep)
  {
    CurrentIsLastView(s, keep);
  }

  ghost predicate HasFree(candidates: seq<Name>, d: Dir) {
    exists i :: 0 <= i < |candidates| && candidates[i] !in d
  }

  /** Opening the temporary file: at most one attempt per candidate name. */
  method CreateTemporary(disk: Device, candidates: seq<Name>) returns (r: Option<(Name, nat)>)
    modifies disk
    ensures r.Some? ==>
              && r.value.0 in candidates && r.value.0 !in Visible(old(disk.state))
              && r.value.1 == old(disk.state).next
              && disk.state == AppendOp(SetFile(old(disk.state), r.value.1, File([], false)).(next := r.value.1 + 1),
                                        Link(r.value.0, r.value.1))
    ensures r == None ==> disk.state == old(disk.state)
    ensures disk.healthy && HasFree(candidates, Visible(old(disk.state))) ==> r.Some?
    ensures old(disk.trace) <= disk.trace && |disk.trace| <= |old(disk.trace)| + |candidates|
    ensures forall i | |old(disk.trace)| <= i < |disk.trace| ::
              disk.trace[i] == old(disk.state) || disk.trace[i] == disk.state
  {
    var attempt := 0;
    while attempt < |candidates|
      invariant attempt <= |candidates|
      invariant disk.state == old(disk.state)
      invariant disk.healthy ==> forall i | 0 <= i < attempt :: candidates[i] in Visible(disk.state)
      invariant old(disk.trace) <= disk.trace && |disk.trace| == |old(disk.trace)| + attempt
      invariant forall i | |old(disk.trace)| <= i < |disk.trace| :: disk.trace[i] == old(disk.state)
    {
      var created := disk.CreateNew(candidates[attempt]);
      match created {
        case Created(inode) =>
          return Some((candidates[attempt], inode));
        case AlreadyExists =>
        case CreateFailed =>
          return None;
      }
      attempt := attempt + 1;
    }
    return None;
  }

  /** Contents go to the temporary file and to the medium before the rename. */
  method FillTemporary(disk: Device, inode: nat, bytes: seq<byte>, ghost keep: Name -> bool,
                       ghost before: seq<View>, ghost updated: View) returns (ok: bool)
    requires WellFormed(disk.state) && inode in disk.state.inodes && disk.state.inodes[inode] == File([], false)
    requires Unobserved(disk.state, inode, keep)
    requires OldOrNew(disk.state, keep, before, Current(disk.state, keep), updated)
    modifies disk
    ensures WellFormed(disk.state)
    ensures Views(disk.state, keep) == Views(old(disk.state), keep)
    ensures Current(disk.state, keep) == Current(old(disk.state), keep)
    ensures Visible(disk.state) == Visible(old(disk.state))
    ensures ok ==> ContentOf(disk.state.inodes, inode) == Stable(bytes)
    ensures disk.healthy ==> ok
    ensures old(disk.trace) <= disk.trace
    ensures AllOldOrNew(disk.trace, |old(disk.trace)|, keep, before, Current(old(disk.state), keep), updated)
  {
    ghost var start, current := disk.state, Current(disk.state, keep);
    ok := disk.WriteAll(inode, bytes);
    forall part ensures OldOrNew(SetFile(start, inode, File(part, false)), keep, before, current, updated) {
      RewrittenTemporary(start, inode, File(part, false), keep);
    }
    ghost var part :| disk.state == SetFile(start, inode, File(part, false));
    RewrittenTemporary(start, inode, File(part, false), keep);
    if ok {
      ghost var written := disk.state;
      ok := disk.SyncFile(inode);
      RewrittenTemporary(written, inode, File(bytes, true), keep);
    }
  }

  /** The rename switches the observed contents; the directory sync makes the
      switch permanent. */
  method Publish(disk: Device, temporary: Name, destination: Name, bytes: seq<byte>, ghost keep: Name -> bool,
                 ghost before: seq<View>) returns (ok: bool, ghost renamed: bool)
    requires WellFormed(disk.state) && keep(destination) && !keep(temporary)
    requires temporary in Visible(disk.state)
    requires ContentOf(disk.state.inodes, Visible(disk.state)[temporary]) == Stable(bytes)
    requires Untouched(disk.state, keep, before, Current(disk.state, keep))
    modifies disk
    ensures disk.healthy ==> ok
    ensures Visible(disk.state).Keys == if renamed then Visible(old(disk.state)).Keys - {temporary} + {destination}
                                        else Visible(old(disk.state)).Keys
    ensures var current := Current(old(disk.state), keep);
            var updated := current[destination := Stable(bytes)];
            && OldOrNew(disk.state, keep, before, current, updated)
            && (ok ==> renamed && Views(disk.state, keep) == [updated] && disk.state.pending == [])
            && (if renamed then Current(disk.state, keep) == updated else Untouched(disk.state, keep, before, current))
            && old(disk.trace) <= disk.trace
            && AllOldOrNew(disk.trace, |old(disk.trace)|, keep, before, current, updated)
  {
    ghost var start := disk.state;
    ok := disk.RenameFile(temporary, destination);
    renamed := ok;
    if ok {
      RenamedTemporary(start, temporary, destination, bytes, keep);
      PrefixesOfAppend(start, Rename(temporary, destination));
      ghost var published := disk.state;
      ok := disk.SyncDirectory();
      SyncDirViews(published, keep);
      SyncDirWellFormed(published);
    }
  }

  /** The fallible part after the temporary file exists, and the clean-up. */
  method WriteTemporary(disk: Device, temporary: Name, inode: nat, destination: Name, bytes: seq<byte>,
                        ghost keep: Name -> bool, ghost before: seq<View>) returns (ok: bool, ghost renamed: bool)
    requires WellFormed(disk.state) && inode in disk.state.inodes && disk.state.inodes[inode] == File([], false)
    requires Unobserved(disk.state, inode, keep) && keep(destination) && !keep(temporary)
    requires temporary in Visible(disk.state) && Visible(disk.state)[temporary] == inode
    requires Untouched(disk.state, keep, before, Current(disk.state, keep))
    modifies disk
    ensures disk.healthy ==> ok
    ensures ok || disk.removes ==>
              Visible(disk.state).Keys
              == Visible(old(disk.state)).Keys - {temporary} + (if renamed then {destination} else {})
    ensures var current := Current(old(disk.state), keep);
            var updated := current[destination := Stable(bytes)];
            && OldOrNew(disk.state, keep, before, current, updated)
            && (ok ==> renamed && Views(disk.state, keep) == [updated] && disk.state.pending == [])
            && (if renamed then Current(disk.state, keep) == updated else Untouched(disk.state, keep, before, current))
            && old(disk.trace) <= disk.trace
            && AllOldOrNew(disk.trace, |old(disk.trace)|, keep, before, current, updated)
  {
    ghost var current := Current(disk.state, keep);
    ghost var updated := current[destination := Stable(bytes)];
    ok := FillTemporary(disk, inode, bytes, keep, before, updated);
    renamed := false;
    if ok {
      ok, renamed := Publish(disk, temporary, destination, bytes, keep, before);
    }
    if !ok {
      Discard(disk, temporary, keep, before, current, updated, renamed);
    }
  }

  /** Removing the temporary name, which may fail too, changes nothing observed. */
  method Discard(disk: Device, temporary: Name, ghost keep: Name -> bool, ghost before: seq<View>,
                 ghost current: View, ghost updated: View, ghost renamed: bool)
    requires !keep(temporary) && OldOrNew(disk.state, keep, before, current, updated)
    requires if renamed then Current(disk.state, keep) == updated else Untouched(disk.state, keep, before, current)
    modifies disk
    ensures OldOrNew(disk.state, keep, before, current, updated)
    ensures if renamed then Current(disk.state, keep) == updated else Untouched(disk.state, keep, before, current)
    ensures disk.removes ==> Visible(disk.state).Keys == Visible(old(disk.state)).Keys - {temporary}
    ensures old(disk.trace) <= disk.trace
    ensures AllOldOrNew(disk.trace, |old(disk.trace)|, keep, before, current, updated)
  {
    ghost var failed := disk.state;
    var removed := disk.RemoveFile(temporary);
    ViewsContainCurrent(failed, keep);
    RemovedTemporary(failed, temporary, keep);
    PrefixesOfAppend(failed, Unlink(temporary));
  }

  /** Whatever fails and wherever the program stops, an observer finds the old
      files or the old files with the new contents at the destination; success
      means that a power loss can no longer bring the old contents back; after a
      failure the new contents are there exactly when the rename was reached, and
      no temporary file is left unless its removal fails as well. */
  method ReplaceFile(disk: Device, candidates: seq<Name>, destination: Name, bytes: seq<byte>, ghost keep: Name -> bool)
    returns (ok: bool, ghost renamed: bool)
    requires WellFormed(disk.state)
    requires keep(destination) && forall name | name in candidates :: !keep(name)
    modifies disk
    ensures disk.healthy && HasFree(candidates, Visible(old(disk.state))) ==> ok
    ensures ok || disk.removes ==>
              Visible(disk.state).Keys == Visible(old(disk.state)).Keys + (if renamed then {destination} else {})
    ensures var current := Current(old(disk.state), keep);
            var updated := current[destination := Stable(bytes)];
            && OldOrNew(disk.state, keep, Views(old(disk.state), keep), current, updated)
            && (ok ==> renamed && Views(disk.state, keep) == [updated] && disk.state.pending == [])
            && (if renamed then Current(disk.state, keep) == updated else Untouched(disk.state, keep, Views(old(disk.state), keep), current))
            && old(disk.trace) <= disk.trace
            && AllOldOrNew(disk.trace, |old(disk.trace)|, keep, Views(old(disk.state), keep), current, updated)
  {
    ghost var start := disk.state;
    ghost var current := Current(start, keep);
    ghost var updated := current[destination := Stable(bytes)];
    ViewsContainCurrent(start, keep);
    var handle := CreateTemporary(disk, candidates);
    if handle == None {
      return false, false;
    }
    var temporary, inode := handle.value.0, handle.value.1;
    CreatedTemporary(start, temporary, keep);
    CreatedIsVisible(start, temporary);
    assert Untouched(disk.state, keep, Views(start, keep), current);
    ok, renamed := WriteTemporary(disk, temporary, inode, destination, bytes, keep, Views(start, keep));
  }
}

/** What the users of the write protocol know about durability: the value that
    processes see now, and every value a power loss might bring back. */
module Durability {
  datatype Abstract<M> = Abstract(possible: set<M>, current: M)

  /** A successful change takes effect for good; a failed one may or may not. */
  ghost predicate Commit<M>(a: Abstract<M>, updated: M, ok: bool, b: Abstract<M>) {
    if ok
    then b == Abstract({updated}, updated)
    else && b.possible <= a.possible + {updated}
         && b.current in b.possible
         && (b.current == a.current || b.current == updated)
  }

  ghost predicate Lose<M>(a: Abstract<M>, b: Abstract<M>) {
    b.current in a.possible && b.possible == {b.current}
  }
}

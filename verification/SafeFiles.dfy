/** Descriptor-relative file creation and publication (src/ptest/files.py:80-125, 313-396, 539-588). Other
processes act between any two system calls, and every call may fail. */
module SafeFiles {
  import opened Basics
  import opened Utf8

  type Inode = nat
  type Handle = nat

  /** One directory: which inode a name leads to, and what the inodes hold. */
  datatype Folder = Folder(entries: map<string, Inode>, content: map<Inode, Bytes>)

  function Entry(f: Folder, name: string): Option<Inode> { if name in f.entries then Some(f.entries[name]) else None }

  /** What a reader of `name` sees. */
  function Seen(f: Folder, name: string): Option<Bytes> {
    if name in f.entries && f.entries[name] in f.content then Some(f.content[f.entries[name]]) else None
  }

  /** One change of the folder, by this call or by others. */
  datatype Change = Change(own: bool, before: Folder, after: Folder)

  /** What others make of the folder at a moment: any function, and no choice of this call. */
  type World = (nat, Folder) -> Folder

  /** The calls that can fail; failing the last five leaves something behind. */
  datatype Call = OpenDirectory | TypeOfChild | CreateFile | WriteSome | CheckFile | Rename
                | StatChild | Truncate | Inspect | Unlink | UnlinkTemp

  /** Change i starts where the one before ended, and is the world's if not our own. */
  predicate Follows(changes: seq<Change>, i: nat, world: World)
    requires i < |changes|
  {
    (i > 0 ==> changes[i].before == changes[i - 1].after)
      && (!changes[i].own ==> changes[i].after == world(i, changes[i].before))
  }

  /** The changes lead from one folder to the next without a gap. */
  ghost predicate Linked(start: Folder, changes: seq<Change>, now: Folder, world: World) {
    && (if changes == [] then now == start else changes[0].before == start && changes[|changes| - 1].after == now)
    && forall i {:trigger Follows(changes, i, world)} :: 0 <= i < |changes| ==> Follows(changes, i, world)
  }

  lemma LinkedGrows(start: Folder, changes: seq<Change>, now: Folder, world: World, c: Change)
    requires Linked(start, changes, now, world) && c.before == now && (!c.own ==> c.after == world(|changes|, now))
    ensures Linked(start, changes + [c], c.after, world)
  {
    var more := changes + [c];
    forall i | 0 <= i < |more| ensures Follows(more, i, world) {
      if i < |changes| { assert Follows(changes, i, world); }
    }
  }

  /** An own step of creation: only the entry for `name` appears or goes, only as the own inode, and no other
      inode's content changes. */
  ghost predicate CreationStep(c: Change, name: string, mine: Inode) {
    && (forall n :: n != name ==> Entry(c.after, n) == Entry(c.before, n))
    && (Entry(c.after, name) == Entry(c.before, name)
        || (Entry(c.before, name) == None && Entry(c.after, name) == Some(mine))
        || (Entry(c.before, name) == Some(mine) && Entry(c.after, name) == None))
    && (forall i ::
      i != mine && i in c.before.content ==> i in c.after.content && c.after.content[i] == c.before.content[i])
  }

  /** An own step of publication: readers of `name` see what they saw, or the whole new content; no name but
      these two changes, nor the content of any other inode. */
  ghost predicate PublicationStep(c: Change, name: string, temp: string, mine: Option<Inode>, payload: Bytes) {
    && (forall n :: n != name && n != temp ==> Entry(c.after, n) == Entry(c.before, n))
    && (Seen(c.after, name) == Seen(c.before, name) || Seen(c.after, name) == Some(payload))
    && (forall i ::
      Some(i) != mine && i in c.before.content ==> i in c.after.content && c.after.content[i] == c.before.content[i])
  }

  /** Others neither write to an inode this call has just made nor give it names. */
  predicate Respects(before: Folder, after: Folder, mine: Option<Inode>) {
    && (mine.Some? && mine.value in before.content ==>
      mine.value in after.content && after.content[mine.value] == before.content[mine.value])
    && (mine.Some? ==>
      forall n ::
      n in after.entries && after.entries[n] == mine.value ==> n in before.entries && before.entries[n] == mine.value)
    && (forall n :: n in after.entries ==> after.entries[n] in after.content)
  }

  ghost predicate Sound(f: Folder) { forall n :: n in f.entries ==> f.entries[n] in f.content }

  class Store {
    const world: World
    const foreign: bool
    /** The calls that may fail, and those among them that do. */
    const mayFail: set<Call>
    const mustFail: set<Call>
    /** The folder this call found. */
    const start: Folder
    var folder: Folder
    var open: set<Handle>
    var changes: seq<Change>
    /** The failures that left something behind. */
    var faults: set<Call>
    /** The inode this call made, once it has. */
    var mine: Option<Inode>

    ghost predicate Valid() reads this {
      && Sound(folder) && (mine.Some? ==> mine.value in folder.content)
      && Linked(start, changes, folder, world) && mustFail <= mayFail
    }

    /** No call fails and nobody else acts. */
    ghost predicate Calm() { mayFail == {} && !foreign }

    constructor (f: Folder, world: World, foreign: bool, mayFail: set<Call>, mustFail: set<Call>)
      requires Sound(f) && mustFail <= mayFail
      ensures this.world == world && this.foreign == foreign && this.mayFail == mayFail && this.mustFail == mustFail
        && start == f
      ensures Valid() && folder == f && open == {} && changes == [] && faults == {} && mine == None
    {
      this.world, this.foreign, this.mayFail, this.mustFail, start := world, foreign, mayFail, mustFail, f;
      folder, open, changes, faults, mine := f, {}, [], {}, None;
    }

    /** Others run. They keep their hands off `reserved` (a random temporary name). */
    method Others(reserved: Option<string>)
      requires Valid()
      modifies this`folder, this`changes
      ensures Valid() && Extended(old(changes), changes, false)
      ensures Respects(old(folder), folder, mine) && (!foreign ==> folder == old(folder))
      ensures reserved.Some? ==> Entry(folder, reserved.value) == Entry(old(folder), reserved.value)
    {
      var next := world(|changes|, folder);
      if foreign && Respects(folder, next, mine)
        && (reserved.Some? ==> Entry(next, reserved.value) == Entry(folder, reserved.value)) {
        LinkedGrows(start, changes, folder, world, Change(false, folder, next));
        changes := changes + [Change(false, folder, next)];
        folder := next;
      }
    }

    method Become(next: Folder)
      requires Valid() && Sound(next) && (mine.Some? ==> mine.value in next.content)
      modifies this`folder, this`changes
      ensures Valid() && folder == next && changes == old(changes) + [Change(true, old(folder), next)]
    {
      LinkedGrows(start, changes, folder, world, Change(true, folder, next));
      changes := changes + [Change(true, folder, next)];
      folder := next;
    }

    /** This call fails whenever it is made. */
    predicate MustFail(c: Call) { c in mustFail && c in mayFail }

    method Fails(c: Call) returns (failed: bool)
      ensures failed ==> c in mayFail
      ensures MustFail(c) ==> failed
    {
      failed := *;
      failed := c in mayFail && (failed || c in mustFail);
    }

    // Descriptors.

    method OpenHandle() returns (r: Option<Handle>)
      modifies this`open
      ensures r.None? ==> open == old(open)
      ensures r.Some? ==> r.value !in old(open) && open == old(open) + {r.value}
      ensures OpenDirectory !in mayFail ==> r.Some?
    {
      var failed := Fails(OpenDirectory);
      if failed { return None; }
      var h := PickUnused(open);
      open := open + {h};
      return Some(h);
    }

    method Close(h: Handle)
      requires h in open
      modifies this`open
      ensures open == old(open) - {h}
    {
      open := open - {h};
    }

    /** `_walk_to_parent` over `components` directories. On success only the returned descriptor stays open; on
        failure none does, except the child whose type could not be read. */
    method WalkToParent(root: Handle, components: nat) returns (r: Option<Handle>)
      requires root in open && StatChild !in faults
      modifies this`open, this`faults
      ensures old(faults) <= faults <= old(faults) + {StatChild}
      ensures r.Some? && components == 0 ==> r.value == root && open == old(open)
      ensures r.Some? && components > 0 ==> r.value !in old(open) && open == old(open) + {r.value}
      ensures Calm() ==> r.Some? && faults == old(faults)
      ensures r.Some? ==> StatChild !in faults
      ensures r.None? ==>
        if StatChild in faults then exists leaked :: leaked !in old(open) && open == old(open) + {leaked}
        else open == old(open)
      ensures mayFail == {StatChild} == mustFail && components > 0 ==> StatChild in faults
      ensures mayFail == {} ==> r.Some?
      ensures r.Some? && components > 0 ==> !MustFail(TypeOfChild)
    {
      var above: seq<Handle> := [];
      var fd := root;
      var i := 0;
      while i < components
        invariant 0 <= i <= components && faults == old(faults)
          && (StatChild in mustFail && StatChild in mayFail ==> i == 0)
        invariant i > 0 ==> !MustFail(TypeOfChild)
        invariant Chain(root, above, fd, old(open), open) && (i == 0 <==> fd == root)
      {
        var child := OpenHandle();
        if child.None? {
          CloseAll(root, above, fd, old(open), {});
          return None;
        }
        ghost var leaked := child.value;
        var unreadable := Fails(StatChild);
        if unreadable {
          faults := faults + {StatChild};
          assert open - {child.value} == open - {leaked};
          CloseAll(root, above, fd, old(open), {leaked});
          assert open == old(open) + {leaked};
          return None;
        }
        var notDirectory := Fails(TypeOfChild);
        if notDirectory {
          Close(child.value);
          CloseAll(root, above, fd, old(open), {});
          return None;
        }
        if fd != root { above := above + [fd]; }
        fd := child.value;
        i := i + 1;
      }
      r := Some(fd);
      CloseOpened(above);
    }

    /** Closes the ancestors of the walk, then the deepest descriptor. */
    method CloseAll(root: Handle, above: seq<Handle>, fd: Handle, ghost was: set<Handle>, ghost extra: set<Handle>)
      requires Chain(root, above, fd, was, open - extra)
      modifies this`open
      ensures open == old(open) - (ToSet(above) + if fd == root then {} else {fd})
    {
      CloseOpened(above);
      if fd != root { Close(fd); }
    }

    method CloseOpened(above: seq<Handle>)
      requires ToSet(above) <= open && forall i, j :: 0 <= i < j < |above| ==> above[i] != above[j]
      modifies this`open
      ensures open == old(open) - ToSet(above)
    {
      for i := 0 to |above|
        invariant open == old(open) - ToSet(above[..i])
        invariant forall k :: i <= k < |above| ==> above[k] in open
      {
        assert above[..i + 1] == above[..i] + [above[i]];
        Close(above[i]);
      }
      assert above[..|above|] == above;
    }

    // Creating a file that must not exist.

    /** `O_CREAT | O_EXCL`: a new empty inode under a name nobody has, or nothing. */
    method CreateNew(name: string) returns (r: Option<Handle>)
      requires Valid() && mine == None
      modifies this`folder, this`changes, this`open, this`mine
      ensures Valid() && (r.Some? <==> mine.Some?) && (Calm() ==> (r.Some? <==> name !in old(folder).entries))
      ensures r.None? ==> open == old(open) && folder == old(folder) && changes == old(changes)
      ensures r.Some? ==> r.value !in old(open) && open == old(open) + {r.value}
      ensures r.Some? ==> name !in old(folder).entries && mine.value !in old(folder).content
      ensures r.Some? ==>
        folder == Folder(old(folder).entries[name := mine.value], old(folder).content[mine.value := []])
      ensures r.Some? ==> changes == old(changes) + [Change(true, old(folder), folder)]
      ensures mayFail == {} ==> (r.Some? <==> name !in old(folder).entries)
    {
      if name in folder.entries { return None; }
      var inode := PickUnused(folder.content.Keys);
      r := OpenHandle();
      if r.Some? {
        Become(Folder(folder.entries[name := inode], folder.content[inode := []]));
        mine := Some(inode);
      }
    }

    /** Only `name` may lead to the own inode. */
    ghost predicate Private(name: string) reads this {
      mine.Some? && mine.value in folder.content
        && forall n :: n in folder.entries && folder.entries[n] == mine.value ==> n == name
    }

    /** Replaces the content of the own inode. */
    method SetContent(data: Bytes)
      requires Valid() && mine.Some?
      modifies this`folder, this`changes
      ensures Valid() && folder == Folder(old(folder).entries, old(folder).content[mine.value := data])
      ensures changes == old(changes) + [Change(true, old(folder), folder)]
    {
      Become(Folder(folder.entries, folder.content[mine.value := data]));
    }

    method RemoveEntry(name: string)
      requires Valid()
      modifies this`folder, this`changes
      ensures Valid() && folder == Folder(old(folder).entries - {name}, old(folder).content)
      ensures changes == old(changes) + [Change(true, old(folder), folder)]
    {
      Become(Folder(folder.entries - {name}, folder.content));
    }

    /** The write loop: each call takes some of what is left; it may fail at any point. */
    method WriteAll(name: string, payload: Bytes, reserved: Option<string>) returns (ok: bool)
      requires Valid() && Private(name) && folder.content[mine.value] == []
      requires reserved.Some? ==> reserved.value == name
      modifies this`folder, this`changes
      ensures Valid() && Private(name) && (ok ==> folder.content[mine.value] == payload)
      ensures Calm() ==> ok && folder == Folder(old(folder).entries, old(folder).content[mine.value := payload])
      ensures old(changes) <= changes && OwnWrites(changes, |old(changes)|, mine.value, name)
      ensures reserved.Some? ==> Entry(folder, name) == Entry(old(folder), name)
      ensures mayFail == {} ==> ok
    {
      var done := 0;
      while done < |payload|
        invariant 0 <= done <= |payload| && Valid() && Private(name) && folder.content[mine.value] == payload[..done]
        invariant old(changes) <= changes && OwnWrites(changes, |old(changes)|, mine.value, name)
        invariant Calm() ==> folder == Folder(old(folder).entries, old(folder).content[mine.value := payload[..done]])
        invariant reserved.Some? ==> Entry(folder, name) == Entry(old(folder), name)
      {
        ghost var was := changes;
        Others(reserved);
        ForeignWrites(was, changes, |old(changes)|, mine.value, name);
        var written: int := *;
        var failed := Fails(WriteSome);
        if failed { return false; }
        if written < 1 { written := 1; }
        if written > |payload| - done { written := |payload| - done; }
        was := changes;
        SetContent(folder.content[mine.value] + payload[done..done + written]);
        assert payload[..done] + payload[done..done + written] == payload[..done + written];
        OwnWriteJoins(was, changes, |old(changes)|, mine.value, name);
        done := done + written;
      }
      assert payload[..done] == payload;
      return true;
    }

    lemma ForeignWrites(was: seq<Change>, now: seq<Change>, n: nat, inode: Inode, name: string)
      requires n <= |was| && OwnWrites(was, n, inode, name) && Extended(was, now, false)
      ensures OwnWrites(now, n, inode, name)
    {
    }

    lemma OwnWriteJoins(was: seq<Change>, now: seq<Change>, n: nat, inode: Inode, name: string)
      requires n <= |was| && OwnWrites(was, n, inode, name) && |now| == |was| + 1 && was <= now
        && OnlyWrites(now[|was|], inode, name)
      ensures OwnWrites(now, n, inode, name)
    {
    }

    /** `create_exclusive`. Whatever happens, no entry or content but the own is touched, and a failed call
        leaves the own inode reachable with content only if both invalidating and removing it failed. */
    method CreateExclusive(components: nat, name: string, payload: Bytes, finalize: bool) returns (r: Created)
      requires Valid() && faults == {} && mine == None
      modifies this
      ensures Valid() && old(changes) <= changes && Creation(changes, |old(changes)|, name, mine)
      ensures open != old(open) <==> StatChild in faults
      ensures StatChild in faults ==> exists leaked :: leaked !in old(open) && open == old(open) + {leaked}
      ensures mayFail == {StatChild} == mustFail && components > 0 ==> StatChild in faults && r.Refused?
      ensures (r.Refused? <==> mine == None) && (r.Refused? && !foreign ==> folder == old(folder))
      ensures Calm() ==>
        if name in old(folder).entries then r.Refused? && folder == old(folder)
        else r.Done? && Made(old(folder), folder, name, mine, payload)
      ensures r.Done? ==> folder.content[mine.value] == payload
      ensures r.RolledBack? ==> folder.content[mine.value] == [] || Truncate in faults
      ensures r.RolledBack? ==> Entry(folder, name) != Some(mine.value) || Inspect in faults || Unlink in faults
      ensures mine.Some? ==> Private(name)
      ensures mayFail == {} ==> r.Done? || (r.Refused? && Taken(old(folder), changes, |old(changes)|, name))
      ensures MustFail(CheckFile) ==> !r.Done?
      ensures components > 0 && MustFail(TypeOfChild) ==> r.Refused?
    {
      var root := OpenHandle();
      if root.None? { return Refused; }
      ghost var within := open;
      var parent := WalkToParent(root.value, components);
      if parent.None? {
        Close(root.value);
        if StatChild in faults { LeakShows(old(open), within, root.value, open + {root.value}); }
        return Refused;
      }
      r := CreateIn(parent.value, name, payload, finalize);
      if parent.value != root.value { Close(parent.value); }
      Close(root.value);
    }

    /** With the parent directory open. */
    method CreateIn(parent: Handle, name: string, payload: Bytes, finalize: bool) returns (r: Created)
      requires Valid() && mine == None && parent in open && StatChild !in faults
      modifies this`folder, this`changes, this`open, this`mine, this`faults
      ensures Valid() && old(changes) <= changes && Creation(changes, |old(changes)|, name, mine) && open == old(open)
      ensures old(faults) <= faults && (StatChild in faults ==> StatChild in old(faults))
      ensures (r.Refused? <==> mine == None) && (r.Refused? && !foreign ==> folder == old(folder))
      ensures Calm() ==>
        if name in old(folder).entries then r.Refused? && folder == old(folder)
        else r.Done? && Made(old(folder), folder, name, mine, payload)
      ensures r.Done? ==> folder.content[mine.value] == payload
      ensures r.RolledBack? ==> folder.content[mine.value] == [] || Truncate in faults
      ensures r.RolledBack? ==> Entry(folder, name) != Some(mine.value) || Inspect in faults || Unlink in faults
      ensures mine.Some? ==> Private(name)
      ensures mayFail == {} ==> r.Done? || (r.Refused? && Taken(old(folder), changes, |old(changes)|, name))
      ensures MustFail(CheckFile) ==> !r.Done?
    {
      ghost var n := |changes|;
      Others(None);
      var fd := CreateNew(name);
      if fd.None? { return Refused; }
      ghost var created := changes;
      assert Creation(created, n, name, mine);
      r := Fill(name, payload, finalize);
      CreationJoins(created, changes, n, name, mine);
      Close(fd.value);
    }

    /** With the new file open: write, check, finalize, and undo on failure. */
    method Fill(name: string, payload: Bytes, finalize: bool) returns (r: Created)
      requires Valid() && Private(name) && folder.content[mine.value] == []
      modifies this`folder, this`changes, this`faults
      ensures Valid() && Private(name) && old(changes) <= changes && Creation(changes, |old(changes)|, name, mine)
        && !r.Refused?
      ensures old(faults) <= faults && (StatChild in faults ==> StatChild in old(faults))
      ensures Calm() ==> r.Done? && folder == Folder(old(folder).entries, old(folder).content[mine.value := payload])
      ensures r.Done? ==> folder.content[mine.value] == payload
      ensures r.RolledBack? ==> folder.content[mine.value] == [] || Truncate in faults
      ensures r.RolledBack? ==> Entry(folder, name) != Some(mine.value) || Inspect in faults || Unlink in faults
      ensures mayFail == {} ==> r.Done?
      ensures MustFail(CheckFile) ==> !r.Done?
    {
      ghost var n := |changes|;
      var ok := WriteAll(name, payload, None);
      WritesCreate(changes, n, name, mine.value);
      ghost var was := changes;
      ok := CheckAndFinalize(ok, finalize);
      CreationJoins(was, changes, n, name, mine);
      if ok { return Done; }
      was := changes;
      RollBack(name);
      CreationJoins(was, changes, n, name, mine);
      return RolledBack;
    }

    /** The checks, the syncs and the caller's own last step, during which others may run. */
    method CheckAndFinalize(written: bool, finalize: bool) returns (ok: bool)
      requires Valid() && mine.Some?
      modifies this`folder, this`changes
      ensures Valid() && Extended(old(changes), changes, false) && Respects(old(folder), folder, mine)
      ensures ok ==> written
      ensures Calm() ==> ok == written && folder == old(folder)
      ensures mayFail == {} ==> ok == written
      ensures MustFail(CheckFile) ==> !ok
    {
      Others(None);
      var refused := Fails(CheckFile);
      ok := written && !refused;
    }

    /** What a failed creation does with its own inode. */
    method RollBack(name: string)
      requires Valid() && Private(name)
      modifies this`folder, this`changes, this`faults
      ensures Valid() && Private(name) && old(changes) <= changes && Creation(changes, |old(changes)|, name, mine)
      ensures old(faults) <= faults <= old(faults) + {Truncate, Inspect, Unlink}
      ensures folder.content[mine.value] == [] || Truncate in faults
      ensures Entry(folder, name) != Some(mine.value) || Inspect in faults || Unlink in faults
    {
      Invalidate(name);
      ghost var was := changes;
      RemoveOwn(name);
      CreationJoins(was, changes, |old(changes)|, name, mine);
    }

    /** `ftruncate` on the descriptor, which still names the own inode. */
    method Invalidate(name: string)
      requires Valid() && Private(name)
      modifies this`folder, this`changes, this`faults
      ensures Valid() && Private(name) && old(changes) <= changes && Creation(changes, |old(changes)|, name, mine)
      ensures old(faults) <= faults <= old(faults) + {Truncate}
      ensures folder.content[mine.value] == [] || Truncate in faults
    {
      var failed := Fails(Truncate);
      if failed { faults := faults + {Truncate}; } else { SetContent([]); }
    }

    /** Removes the entry while it leads to the own inode. */
    method RemoveOwn(name: string)
      requires Valid() && Private(name)
      modifies this`folder, this`changes, this`faults
      ensures Valid() && Private(name) && old(changes) <= changes && Creation(changes, |old(changes)|, name, mine)
      ensures old(faults) <= faults <= old(faults) + {Inspect, Unlink}
      ensures folder.content[mine.value] == old(folder).content[mine.value]
      ensures Entry(folder, name) != Some(mine.value) || Inspect in faults || Unlink in faults
    {
      Others(None);
      var unseen := Fails(Inspect);
      if unseen {
        faults := faults + {Inspect};
        return;
      }
      if name in folder.entries && folder.entries[name] == mine.value {
        var failed := Fails(Unlink);
        if failed { faults := faults + {Unlink}; } else { RemoveEntry(name); }
      }
    }

    // Replacing a file at once.

    /** `publish_atomic`. Readers of `name` see what they saw or the whole payload after every step; the
        temporary is gone afterwards unless removing it failed, and no descriptor stays open. */
    method PublishAtomic(name: string, temp: string, payload: Bytes) returns (ok: bool)
      requires Valid() && faults == {} && mine == None && name != temp
      modifies this
      ensures Valid() && old(changes) <= changes && Publication(changes, |old(changes)|, name, temp, mine, payload)
      ensures open == old(open)
      ensures ok ==> exists i :: |old(changes)| <= i < |changes| && Published(changes[i], name, mine, payload)
      ensures Calm() ==>
        (ok <==> temp !in old(folder).entries) && (ok ==> Made(old(folder), folder, name, mine, payload))
      ensures Calm() && !ok ==> folder == Folder(old(folder).entries - {temp}, old(folder).content)
      ensures mine.Some? ==> temp !in folder.entries || UnlinkTemp in faults
      ensures !ok ==> Leaves(changes, |old(changes)|, name)
      ensures mayFail == {} && !ok ==> Taken(old(folder), changes, |old(changes)|, temp)
      ensures MustFail(Rename) ==> !ok
    {
      var root := OpenHandle();
      if root.None? { return false; }
      ok := PublishIn(name, temp, payload);
      Close(root.value);
    }

    method PublishIn(name: string, temp: string, payload: Bytes) returns (ok: bool)
      requires Valid() && faults == {} && mine == None && name != temp
      modifies this`folder, this`changes, this`open, this`mine, this`faults
      ensures Valid() && old(changes) <= changes && Publication(changes, |old(changes)|, name, temp, mine, payload)
      ensures open == old(open)
      ensures ok ==> exists i :: |old(changes)| <= i < |changes| && Published(changes[i], name, mine, payload)
      ensures Calm() ==>
        (ok <==> temp !in old(folder).entries) && (ok ==> Made(old(folder), folder, name, mine, payload))
      ensures Calm() && !ok ==> folder == Folder(old(folder).entries - {temp}, old(folder).content)
      ensures mine.Some? ==> temp !in folder.entries || UnlinkTemp in faults
      ensures !ok ==> Leaves(changes, |old(changes)|, name)
      ensures mayFail == {} && !ok ==> Taken(old(folder), changes, |old(changes)|, temp)
      ensures MustFail(Rename) ==> !ok
    {
      ghost var at;
      ok, at := StageAndSwap(name, temp, payload);
      ghost var was := changes;
      RemoveTemp(name, temp, payload);
      if !ok { LeavesJoins(was, changes, |old(changes)|, name); }
      PublicationJoins(was, changes, |old(changes)|, name, temp, mine, payload);
      assert ok ==> changes[at] == was[at];
    }

    /** Makes the temporary, if its name is free, and publishes it. */
    method StageAndSwap(name: string, temp: string, payload: Bytes) returns (ok: bool, ghost at: nat)
      requires Valid() && mine == None && name != temp
      modifies this`folder, this`changes, this`open, this`mine
      ensures Valid() && old(changes) <= changes && Publication(changes, |old(changes)|, name, temp, mine, payload)
        && open == old(open)
      ensures ok ==>
        |old(changes)| <= at < |changes| && Published(changes[at], name, mine, payload) && temp !in folder.entries
      ensures Calm() ==>
        (ok <==> temp !in old(folder).entries) && (ok ==> Made(old(folder), folder, name, mine, payload))
      ensures Calm() && !ok ==> folder == old(folder)
      ensures !ok ==> Leaves(changes, |old(changes)|, name)
      ensures mayFail == {} && !ok ==> Taken(old(folder), changes, |old(changes)|, temp)
      ensures MustFail(Rename) ==> !ok
    {
      ghost var n := |changes|;
      at, ok := 0, false;
      Others(None);
      ghost var was, before := changes, folder;
      var fd := CreateNew(temp);
      if fd.Some? {
        CreationPublishes(was, changes, n, name, temp, mine.value, payload);
        was := changes;
        ok, at := WriteAndSwap(name, temp, payload);
        if !ok { LeavesJoins(was, changes, n, name); }
        PublicationJoins(was, changes, n, name, temp, mine, payload);
        Close(fd.value);
        if Calm() { SwapMakes(before, name, temp, mine.value, payload); }
      }
    }

    /** Writes the temporary, looks at the destination, and renames. */
    method WriteAndSwap(name: string, temp: string, payload: Bytes) returns (ok: bool, ghost at: nat)
      requires Valid() && Private(temp) && folder.content[mine.value] == [] && name != temp
        && Entry(folder, temp) == mine
      modifies this`folder, this`changes
      ensures Valid() && old(changes) <= changes && Publication(changes, |old(changes)|, name, temp, mine, payload)
      ensures ok ==>
        |old(changes)| <= at < |changes| && Published(changes[at], name, mine, payload) && temp !in folder.entries
        && Private(name)
      ensures !ok ==> Private(temp)
      ensures Calm() ==>
        ok && folder ==
        Folder(old(folder).entries[name := mine.value] - {temp}, old(folder).content[mine.value := payload])
      ensures !ok ==> Leaves(changes, |old(changes)|, name)
      ensures mayFail == {} ==> ok
      ensures MustFail(Rename) ==> !ok
    {
      ghost var n := |changes|;
      ok := WriteAll(temp, payload, Some(temp));
      WritesPublish(changes, n, name, temp, mine.value, payload);
      ghost var was := changes;
      Others(Some(temp));
      PublicationJoins(was, changes, n, name, temp, mine, payload);
      var refused := Fails(Rename);
      at := |changes|;
      ok := ok && !refused;
      if ok {
        was := changes;
        Become(Folder(folder.entries[name := mine.value] - {temp}, folder.content));
        PublicationJoins(was, changes, n, name, temp, mine, payload);
      }
    }

    /** The unconditional clean-up: after a rename there is nothing to remove. */
    method RemoveTemp(name: string, temp: string, payload: Bytes)
      requires Valid() && name != temp
      modifies this`folder, this`changes, this`faults
      ensures Valid() && old(changes) <= changes && Publication(changes, |old(changes)|, name, temp, mine, payload)
      ensures temp !in folder.entries || UnlinkTemp in faults
      ensures Calm() ==> folder == Folder(old(folder).entries - {temp}, old(folder).content)
      ensures Leaves(changes, |old(changes)|, name)
    {
      Others(Some(temp));
      var failed := Fails(UnlinkTemp);
      if temp in folder.entries {
        if failed { faults := faults + {UnlinkTemp}; } else { RemoveEntry(temp); }
      }
    }
  }

  datatype Created = Done | Refused | RolledBack

  /** From one folder to the other, `name` came to lead to a new inode holding the payload, and nothing else changed. */
  ghost predicate Made(before: Folder, after: Folder, name: string, mine: Option<Inode>, payload: Bytes) {
    mine.Some? && mine.value !in before.content
      && after == Folder(before.entries[name := mine.value], before.content[mine.value := payload])
  }

  lemma SwapMakes(f: Folder, name: string, temp: string, inode: Inode, payload: Bytes)
    requires temp !in f.entries && inode !in f.content && name != temp
    ensures Made(f, Folder(f.entries[temp := inode][name := inode] - {temp}, f.content[inode := []][inode := payload]),
      name, Some(inode), payload)
  {
    assert f.entries[temp := inode][name := inode] - {temp} == f.entries[name := inode];
    assert f.content[inode := []][inode := payload] == f.content[inode := payload];
  }

  lemma LeakShows(was: set<Handle>, within: set<Handle>, root: Handle, now: set<Handle>)
    requires root !in was && within == was + {root} && exists leaked :: leaked !in within && now == within + {leaked}
    ensures now - {root} != was && exists leaked :: leaked !in was && now - {root} == was + {leaked}
  {
    var leaked :| leaked !in within && now == within + {leaked};
    assert leaked in now - {root} && now - {root} == was + {leaked};
  }

  /** This change only sets the content of an inode that nothing but `name` leads to. */
  ghost predicate OnlyWrites(c: Change, inode: Inode, name: string) {
    && c.after.entries == c.before.entries && inode in c.after.content && inode in c.before.content
    && c.after.content == c.before.content[inode := c.after.content[inode]]
    && forall n :: n in c.before.entries && c.before.entries[n] == inode ==> n == name
  }

  /** The name was taken when the call began, or after some later change. */
  ghost predicate Taken(was: Folder, changes: seq<Change>, n: nat, name: string) {
    name in was.entries || exists k :: n <= k < |changes| && name in changes[k].after.entries
  }

  /** No own change from the n-th on is to this name. */
  ghost predicate Leaves(changes: seq<Change>, n: nat, name: string) {
    forall i :: n <= i < |changes| && changes[i].own ==> Entry(changes[i].after, name) == Entry(changes[i].before, name)
  }

  lemma LeavesJoins(was: seq<Change>, now: seq<Change>, n: nat, name: string)
    requires n <= |was| && was <= now && Leaves(was, n, name) && Leaves(now, |was|, name)
    ensures Leaves(now, n, name)
  {
    forall i | n <= i < |now| && now[i].own ensures Entry(now[i].after, name) == Entry(now[i].before, name) {
      if i < |was| { assert now[i] == was[i]; }
    }
  }

  ghost predicate OwnWrites(changes: seq<Change>, n: nat, inode: Inode, name: string) {
    forall i :: n <= i < |changes| && changes[i].own ==> OnlyWrites(changes[i], inode, name)
  }

  ghost predicate Creation(changes: seq<Change>, n: nat, name: string, mine: Option<Inode>) {
    forall i :: n <= i < |changes| && changes[i].own ==> mine.Some? && CreationStep(changes[i], name, mine.value)
  }

  lemma WritesCreate(changes: seq<Change>, n: nat, name: string, inode: Inode)
    requires OwnWrites(changes, n, inode, name)
    ensures Creation(changes, n, name, Some(inode))
  {
    forall i | n <= i < |changes| && changes[i].own ensures CreationStep(changes[i], name, inode) {
      assert OnlyWrites(changes[i], inode, name);
    }
  }

  lemma CreationJoins(was: seq<Change>, now: seq<Change>, n: nat, name: string, mine: Option<Inode>)
    requires n <= |was| && was <= now && Creation(was, n, name, mine) && Creation(now, |was|, name, mine)
    ensures Creation(now, n, name, mine)
  {
    forall i | n <= i < |now| && now[i].own ensures mine.Some? && CreationStep(now[i], name, mine.value) {
      if i < |was| { assert now[i] == was[i]; }
    }
  }

  ghost predicate Publication(changes: seq<Change>, n: nat, name: string, temp: string, mine: Option<Inode>,
                              payload: Bytes) {
    forall i :: n <= i < |changes| && changes[i].own ==> PublicationStep(changes[i], name, temp, mine, payload)
  }

  lemma WritesPublish(changes: seq<Change>, n: nat, name: string, temp: string, inode: Inode, payload: Bytes)
    requires OwnWrites(changes, n, inode, temp) && name != temp
    ensures Publication(changes, n, name, temp, Some(inode), payload)
  {
    forall i | n <= i < |changes| && changes[i].own
      ensures PublicationStep(changes[i], name, temp, Some(inode), payload) {
      assert OnlyWrites(changes[i], inode, temp);
    }
  }

  /** Making the temporary, after nothing but foreign changes. */
  lemma CreationPublishes(was: seq<Change>, now: seq<Change>, n: nat, name: string, temp: string, inode: Inode,
                          payload: Bytes)
    requires n <= |was| && name != temp && (forall i :: n <= i < |was| ==> !was[i].own) && |now| == |was| + 1
      && was <= now
    requires var c := now[|was|];
      inode !in c.before.content && Sound(c.before)
        && c.after == Folder(c.before.entries[temp := inode], c.before.content[inode := []])
    ensures Publication(now, n, name, temp, Some(inode), payload)
  {
    assert PublicationStep(now[|was|], name, temp, Some(inode), payload);
  }

  lemma PublicationJoins(was: seq<Change>, now: seq<Change>, n: nat, name: string, temp: string, mine: Option<Inode>,
                         payload: Bytes)
    requires n <= |was| && was <= now && Publication(was, n, name, temp, mine, payload)
      && Publication(now, |was|, name, temp, mine, payload)
    ensures Publication(now, n, name, temp, mine, payload)
  {
    forall i | n <= i < |now| && now[i].own ensures PublicationStep(now[i], name, temp, mine, payload) {
      if i < |was| { assert now[i] == was[i]; }
    }
  }

  /** The step by which `name` comes to lead to the own inode, which holds the whole payload. */
  ghost predicate Published(c: Change, name: string, mine: Option<Inode>, payload: Bytes) {
    c.own && mine.Some? && Entry(c.before, name) != mine == Entry(c.after, name) && Seen(c.after, name) == Some(payload)
  }

  function ToSet(hs: seq<Handle>): set<Handle> { set h | h in hs }

  /** The descriptors of a walk: `above` are the ancestors below the root, `fd` the deepest. */
  ghost predicate Chain(root: Handle, above: seq<Handle>, fd: Handle, was: set<Handle>, now: set<Handle>) {
    && root in was && (fd == root ==> above == []) && fd !in above
    && (forall i, j :: 0 <= i < j < |above| ==> above[i] != above[j])
    && (forall h :: h in above ==> h !in was) && (fd != root ==> fd !in was)
    && now == was + ToSet(above) + (if fd == root then {} else {fd})
  }

  ghost predicate Extended(was: seq<Change>, now: seq<Change>, own: bool) {
    was <= now && forall i :: |was| <= i < |now| ==> now[i].own == own
  }

  /** A run that leaks a descriptor: the type of the first directory on the way cannot be read. */
  method DescriptorLeaks(f: Folder, world: World, name: string, payload: Bytes) returns (store: Store, r: Created)
    requires Sound(f)
    ensures store.Valid() && r == Refused && store.folder == f && exists leaked :: store.open == {leaked}
  {
    store := new Store(f, world, false, {StatChild}, {StatChild});
    r := store.CreateExclusive(1, name, payload, false);
  }

  /** A run that removes another's file: the temporary name is taken, nothing is published, and its entry goes. */
  method ForeignTemporaryIsRemoved(f: Folder, world: World, name: string, temp: string, payload: Bytes)
    returns (store: Store, ok: bool)
    requires Sound(f) && temp in f.entries && name != temp
    ensures store.Valid() && !ok && store.folder == Folder(f.entries - {temp}, f.content)
  {
    store := new Store(f, world, false, {}, {});
    ok := store.PublishAtomic(name, temp, payload);
  }
}

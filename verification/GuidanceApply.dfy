/** The guidance transaction as it runs: `_replace`, `_create_leaf`, `_ensure_tree`, `_rollback` and the
write loop of `apply` (src/ptest/agent_rules.py), over a tree that others may change at any time. */
module GuidanceApply {
  import opened Basics
  import opened GuidanceTree
  import opened GuidanceTrace
  import opened GuidanceJournal

  function StepPaths(steps: seq<Step>): set<Path> { set i | 0 <= i < |steps| :: steps[i].path }

  lemma NextStepFresh(steps: seq<Step>, i: nat)
    requires WellFormedSteps(steps) && i < |steps|
    ensures steps[i].path !in StepPaths(steps[..i])
    ensures StepPaths(steps[..i + 1]) == StepPaths(steps[..i]) + {steps[i].path}
  {
    var now, later := steps[..i], steps[..i + 1];
    forall j | 0 <= j < i ensures now[j] == later[j] {}
    assert later[i] == steps[i];
    forall p | p in StepPaths(later) ensures p in StepPaths(now) + {steps[i].path} {
      var j :| 0 <= j < |later| && later[j].path == p;
      if j < i { assert now[j].path == p; }
    }
    forall p | p in StepPaths(now) ensures p in StepPaths(later) && p != steps[i].path {
      var j :| 0 <= j < |now| && now[j].path == p;
      assert later[j].path == p && steps[j].path == p;
      assert Differ(steps, j, i);
    }
  }

  lemma ReplaceableView(t: Tree, path: Path, original: string)
    requires path != []
    ensures var v := ViewOf(t);
      Replaceable(t, path, None, original) <==>
        path in v && v[path].File? && RealDirs(v, path) && Recognised(v[path].data, original)
  {
    var v := ViewOf(t);
    assert DirsAbove(t, path) <==> RealDirs(v, path) by {
      assert forall q :: q in v <==> q in t;
      if RealDirs(v, path) {
        forall k | 0 < k < |path| ensures path[..k] in t && t[path[..k]].body == Dir { assert path[..k] in v; }
      }
      if DirsAbove(t, path) {
        forall k | 0 < k < |path| ensures path[..k] in v && v[path[..k]] == Dir { assert path[..k] in t; }
      }
    }
  }

  /** The effect of a rewrite undisturbed. */
  lemma RewritePerforms(t: Tree, s: Step)
    requires s.path != [] && s.decide(ViewOf(t)).Rewrite?
    ensures var d := s.decide(ViewOf(t));
      PerformOne(ViewOf(t), s) ==
        if Replaceable(t, s.path, None, d.original) then Some(ViewOf(t)[s.path := File(d.text, d.mode)]) else None
  {
    ReplaceableView(t, s.path, s.decide(ViewOf(t)).original);
  }

  datatype Outcome = Done | Failed(undo: Undo)

  datatype Undo = Escaped | Report(incomplete: seq<Path>)

  // Records in the order the rollback takes them.

  function UpdateRecords(u: seq<Updated>): (r: seq<Record>)
    ensures |r| == |u| && forall j :: 0 <= j < |u| ==> r[j] == OfUpdate(u[|u| - 1 - j])
  {
    seq(|u|, j requires 0 <= j < |u| => OfUpdate(u[|u| - 1 - j]))
  }

  function FileRecords(c: seq<Created>): (r: seq<Record>)
    ensures |r| == |c| && forall j :: 0 <= j < |c| ==> r[j] == OfFile(c[|c| - 1 - j])
  {
    seq(|c|, j requires 0 <= j < |c| => OfFile(c[|c| - 1 - j]))
  }

  function DirRecords(d: seq<MadeDir>): (r: seq<Record>)
    ensures |r| == |d| && forall j :: 0 <= j < |d| ==> r[j] == OfDir(d[|d| - 1 - j])
  {
    seq(|d|, j requires 0 <= j < |d| => OfDir(d[|d| - 1 - j]))
  }

  function Records(c: seq<Created>, d: seq<MadeDir>, u: seq<Updated>): seq<Record> {
    UpdateRecords(u) + FileRecords(c) + DirRecords(d)
  }

  // Texts the rollback cannot recognise.

  /** What a step writes, given what it sees. */
  function TextOf(d: Decision): string {
    match d
    case Create(data) => data
    case Rewrite(_, _, text) => text
    case _ => ""
  }

  /** Every text the first k steps write is within the limit the rollback recognises it by. */
  ghost predicate TextsFit(v: View, steps: seq<Step>, k: nat) {
    k <= |steps| && forall j {:trigger TextFits(v, steps, j)} :: 0 <= j < k ==> TextFits(v, steps, j)
  }

  predicate TextFits(v: View, steps: seq<Step>, j: nat)
    requires j < |steps|
  {
    var u := Perform(v, steps[..j]);
    u.Some? ==> Fits(TextOf(steps[j].decide(u.value)))
  }

  lemma TextsFitStep(v: View, steps: seq<Step>, k: nat)
    requires k < |steps| && Perform(v, steps[..k]).Some?
    ensures TextsFit(v, steps, k + 1) <==>
      TextsFit(v, steps, k) && Fits(TextOf(steps[k].decide(Perform(v, steps[..k]).value)))
  {
    if TextsFit(v, steps, k + 1) { assert TextFits(v, steps, k); }
  }

  ghost predicate DistinctJournal(c: seq<Created>, u: seq<Updated>) {
    DistinctCreated(c) && DistinctUpdated(u) && CreatedPaths(c) !! UpdatedPaths(u)
  }

  /** What was written and is too long to be recognised is still there. */
  ghost predicate Survives(t: Tree, c: seq<Created>, u: seq<Updated>) {
    && (forall x :: x in u && !Fits(x.written) ==> x.path in t && t[x.path].body == File(x.written, x.mode))
    && (forall x :: x in c && !Fits(x.written) ==> x.path in t && t[x.path].body == File(x.written, LEAF_MODE))
  }

  ghost predicate ShortOriginals(u: seq<Updated>) { forall x :: x in u ==> |x.original| <= MAX_FILE_BYTES }

  lemma SurvivesStart(t: Tree, base: Tree, c: seq<Created>, d: seq<MadeDir>, u: seq<Updated>)
    requires Tracks(t, base, c, d, u)
    ensures Survives(t, c, u) && DistinctJournal(c, u)
  {
    forall x | x in u ensures x.path in t { assert x.path in UpdatedPaths(u); }
    forall x | x in c ensures x.path in t { assert x.path in CreatedPaths(c); }
  }

  /** Undoing a record that fits touches nothing that does not. */
  lemma SurvivesUndo(t: Tree, s: Tree, c: seq<Created>, u: seq<Updated>, r: Record)
    requires Survives(t, c, u) && DistinctJournal(c, u) && s - {RecordPath(r)} == t - {RecordPath(r)}
    requires match r case OfUpdate(x) => x in u && Fits(x.written) case OfFile(x) => x in c
      && Fits(x.written) case OfDir(x) => x.path in t && t[x.path].body == Dir
    ensures Survives(s, c, u)
  {
    OneOfEach(c, u);
    forall x | x in u && !Fits(x.written) ensures x.path != RecordPath(r) {
      assert x.path in UpdatedPaths(u);
      if r.OfFile? { assert r.f.path in CreatedPaths(c); }
    }
    forall x | x in c && !Fits(x.written) ensures x.path != RecordPath(r) {
      assert x.path in CreatedPaths(c);
      if r.OfUpdate? { assert r.u.path in UpdatedPaths(u); }
    }
    assert forall p :: p != RecordPath(r) && p in t ==> p in t - {RecordPath(r)};
    assert forall p :: p in s - {RecordPath(r)} ==> p in s && s[p] == (s - {RecordPath(r)})[p];
  }

  /** A survivor shows: its path did not look like that before. */
  lemma SurvivorsShow(was: Tree, base: Tree, c: seq<Created>, d: seq<MadeDir>, u: seq<Updated>)
    requires Tracks(was, base, c, d, u) && ShortOriginals(u)
    ensures !AllFit(c, u) ==> forall t :: Survives(t, c, u) ==> ViewOf(t) != ViewOf(base)
  {
    forall t | !AllFit(c, u) && Survives(t, c, u) ensures ViewOf(t) != ViewOf(base) {
      if x :| x in u && !Fits(x.written) {
        assert x.path in UpdatedPaths(u) && base[x.path].body == File(x.original, x.mode);
        assert ViewOf(base)[x.path].data == x.original && ViewOf(t)[x.path].data == x.written;
      } else {
        var x :| x in c && !Fits(x.written);
        assert x.path in CreatedPaths(c) && x.path !in ViewOf(base) && x.path in ViewOf(t);
      }
    }
  }

  /** What becomes of a created file whose turn it is, when no call fails: t1 is the tree at the look at its bytes,
      t2 the tree at the look at its identity. */
  function FileFate(t1: Tree, t2: Tree, f: Created): Result {
    if LookAt(t1, f.path).Absent? then Gone
    else if !Intact(t1, OfFile(f)) || !StillOwn(t2, f) then Kept
    else Reverted
  }

  class Transaction {
    const world: World         // what others do
    const foreign: bool        // whether others act at all
    const faultsInApply: bool  // a system call of the forward part may fail
    const faultsInGap: bool    // the look at a directory just made may fail before it is journalled
    const faultsInUndo: bool   // a system call of rollback or cleanup may fail
    const spoils: nat -> bool  // whether others have changed the mode or links of a file just written

    var tree: Tree
    var trace: seq<Moment>     // every state of the tree so far
    var temps: nat             // temporaries of this process on disk
    var created: seq<Created>
    var dirs: seq<MadeDir>
    var updated: seq<Updated>
    ghost var spans: seq<Span> // the steps taken so far, the last one perhaps in vain
    ghost var turns: seq<Turn> // what the rollback did with each record

    ghost function Risks(): Trouble { Trouble(faultsInApply, faultsInGap, faultsInUndo, spoils) }

    ghost function Book(): Journal reads this`created, this`dirs, this`updated { Journal(created, dirs, updated) }

    /** The stretch since `from`, with the journal as it was then. */
    ghost function Since(from: nat, was: Journal): Span reads this`trace, this`created, this`dirs, this`updated {
      Span(from, |trace|, was, Book())
    }

    /** The tree is the last state of a trace in which only this process's writes and the world's steps change it. */
    ghost predicate Valid() reads this`tree, this`trace {
      Linked(trace, world, foreign) && trace[|trace| - 1].tree == tree
    }

    constructor (tree: Tree, world: World, foreign: bool, faultsInApply: bool, faultsInGap: bool, faultsInUndo: bool,
                 spoils: nat -> bool)
      ensures Valid() && this.tree == tree && |trace| == 1 && temps == 0 && turns == [] && spans == []
      ensures this.spoils == spoils
      ensures created == [] && dirs == [] && updated == []
      ensures this.world == world && this.foreign == foreign && this.faultsInApply == faultsInApply
      ensures this.faultsInGap == faultsInGap && this.faultsInUndo == faultsInUndo
    {
      this.tree, trace, temps, turns, spans := tree, [Moment(Others, tree)], 0, [], [];
      this.spoils := spoils;
      created, dirs, updated := [], [], [];
      this.world, this.foreign, this.faultsInApply := world, foreign, faultsInApply;
      this.faultsInGap, this.faultsInUndo := faultsInGap, faultsInUndo;
    }

    predicate Faulty(phase: Phase) { if phase == Applying then faultsInApply else faultsInUndo }

    /** Nobody else writes and cleanup works: the setting of the all-or-nothing theorem. */
    predicate Quiet() { !foreign && !faultsInGap && !faultsInUndo }

    ghost predicate Steady(base: Tree)
      reads this`tree, this`created, this`dirs, this`updated
    {
      Tracks(tree, base, created, dirs, updated) && ShortOriginals(updated)
    }

    // One moment each.

    /** Others act: the world decides what becomes of the tree. */
    method Interfere()
      requires Valid()
      modifies `tree, `trace
      ensures Valid() && tree == Disturbed(world, foreign, |old(trace)|, old(tree))
        && trace == old(trace) + [Moment(Others, tree)]
    {
      if foreign { tree := world(|trace|, tree); }
      LinkedGrows(trace, Moment(Others, tree), world, foreign);
      trace := trace + [Moment(Others, tree)];
    }

    /** Records a look, or the start of the rollback. */
    method Note(act: Act)
      requires Valid() && (act.Looked? || act.RollbackStarted?)
      modifies `trace
      ensures Valid() && trace == old(trace) + [Moment(act, tree)]
    {
      LinkedGrows(trace, Moment(act, tree), world, foreign);
      trace := trace + [Moment(act, tree)];
    }

    /** The only way this process changes the tree: one entry at a time. */
    method Write(path: Path, next: Tree)
      requires Valid() && next - {path} == tree - {path}
      modifies `tree, `trace
      ensures Valid() && tree == next && trace == old(trace) + [Moment(Wrote(path), next)]
    {
      LinkedGrows(trace, Moment(Wrote(path), next), world, foreign);
      tree := next;
      trace := trace + [Moment(Wrote(path), next)];
    }

    method Fault(phase: Phase) returns (failed: bool)
      ensures failed ==> Faulty(phase)
    {
      failed := *;
      failed := failed && Faulty(phase);
    }

    method Discard()
      requires temps > 0
      modifies `temps
      ensures !faultsInUndo ==> temps == old(temps) - 1
    {
      var failed := Fault(Undoing);
      if !failed { temps := temps - 1; }
    }

    /** Replace a file whose bytes (and, when given, identity) are still the expected ones. */
    method Replace(phase: Phase, path: Path, text: string, mode: nat, expectId: Option<nat>, expected: string)
      returns (made: Option<nat>)
      requires Valid()
      modifies `tree, `trace, `temps
      ensures Valid() && old(trace) <= trace && (!faultsInUndo ==> temps == old(temps))
      ensures made.None? ==> NoWrites(trace, |old(trace)|, |trace|)
      ensures made.Some? ==>
        |old(trace)| < |trace| && NoWrites(trace, |old(trace)|, |trace| - 1)
        && Replaced(path, text, mode, made.value, expectId, expected)
      ensures made.None? && expectId.Some? && !Faulty(phase) ==>
        exists k :: |old(trace)| <= k < |trace| && !Replaceable(trace[k].tree, path, expectId, expected)
      ensures made.None? && !Faulty(phase) ==> Balked(trace, |old(trace)|, path, expectId, expected)
      ensures !foreign ==>
        tree == if made.Some? then old(tree)[path := Node(made.value, File(text, mode))] else old(tree)
      ensures !foreign && made.Some? ==> Replaceable(old(tree), path, expectId, expected)
      ensures !foreign && !Faulty(phase) && Replaceable(old(tree), path, expectId, expected) ==> made.Some?
    {
      var failed := Fault(phase);
      if failed { return None; }
      Interfere();
      var original := LookAt(tree, path);
      ghost var m := |trace| - 1;
      if !original.Found? {
        assert Differs(trace[m].tree, trace[m].tree, path, expectId, expected);
        return None;
      }
      var id := original.node.id;
      if expectId.Some? && id != expectId.value {
        assert Differs(trace[m].tree, trace[m].tree, path, expectId, expected);
        return None;
      }
      made := ReplaceFound(phase, path, text, mode, id, expected);
      if made.None? && !Faulty(phase) {
        ghost var k :| m <= k < |trace| && !Replaceable(trace[k].tree, path, Some(id), expected);
        assert Differs(trace[m].tree, trace[k].tree, path, expectId, expected);
      }
    }

    /** The file is found under this identity. */
    method ReplaceFound(phase: Phase, path: Path, text: string, mode: nat, id: nat, expected: string)
      returns (made: Option<nat>)
      requires Valid()
      modifies `tree, `trace, `temps
      ensures Valid() && old(trace) <= trace && (!faultsInUndo ==> temps == old(temps))
      ensures made.None? ==> NoWrites(trace, |old(trace)|, |trace|)
      ensures made.Some? ==>
        |old(trace)| < |trace| && NoWrites(trace, |old(trace)|, |trace| - 1)
        && Replaced(path, text, mode, made.value, Some(id), expected)
      ensures made.None? && !Faulty(phase) ==>
        exists k :: |old(trace)| <= k < |trace| && !Replaceable(trace[k].tree, path, Some(id), expected)
      ensures !foreign ==>
        tree == if made.Some? then old(tree)[path := Node(made.value, File(text, mode))] else old(tree)
      ensures !foreign && made.Some? ==> Replaceable(old(tree), path, Some(id), expected)
      ensures !foreign && !Faulty(phase) && Replaceable(old(tree), path, Some(id), expected) ==> made.Some?
    {
      Interfere();
      ghost var m := |trace| - 1;
      if !Replaceable(tree, path, Some(id), expected) {
        assert !Replaceable(trace[m].tree, path, Some(id), expected);
        return None;
      }
      made := Stage(phase, path, text, mode, id, expected);
    }

    /** The last moment wrote the text over a file that had the expected bytes and identity just before. */
    ghost predicate Replaced(path: Path, text: string, mode: nat, id: nat, expectId: Option<nat>,
                             expected: string) reads this {
      && |trace| > 1 && trace[|trace| - 1].act == Wrote(path)
        && Replaceable(trace[|trace| - 2].tree, path, expectId, expected)
      && tree == trace[|trace| - 2].tree[path := Node(id, File(text, mode))]
    }

    /** The second half of a replace: the temporary, the second check, the rename. */
    method Stage(phase: Phase, path: Path, text: string, mode: nat, id: nat, expected: string)
      returns (made: Option<nat>)
      requires Valid()
      modifies `tree, `trace, `temps
      ensures Valid() && old(trace) <= trace && (!faultsInUndo ==> temps == old(temps))
      ensures made.None? ==> NoWrites(trace, |old(trace)|, |trace|)
      ensures made.Some? ==>
        |old(trace)| < |trace| && NoWrites(trace, |old(trace)|, |trace| - 1)
        && Replaced(path, text, mode, made.value, Some(id), expected)
      ensures made.None? && !Faulty(phase) ==>
        exists k :: |old(trace)| <= k < |trace| && !Replaceable(trace[k].tree, path, Some(id), expected)
      ensures !foreign ==>
        tree == if made.Some? then old(tree)[path := Node(made.value, File(text, mode))] else old(tree)
      ensures !foreign && !Faulty(phase) && Replaceable(old(tree), path, Some(id), expected) ==> made.Some?
    {
      var failed := Fault(phase);
      if failed { return None; }
      temps := temps + 1;
      failed := Fault(phase);
      if failed {
        Discard();
        return None;
      }
      Interfere();
      var current := LookAt(tree, path);
      if !current.Found? || current.node.id != id {
        Discard();
        return None;
      }
      made := SwapIn(phase, path, text, mode, id, expected);
    }

    /** The second check of the bytes, then the rename. */
    method SwapIn(phase: Phase, path: Path, text: string, mode: nat, id: nat, expected: string)
      returns (made: Option<nat>)
      requires Valid() && temps > 0
      modifies `tree, `trace, `temps
      ensures Valid() && old(trace) <= trace && |old(trace)| < |trace| && (!faultsInUndo ==> temps == old(temps) - 1)
      ensures made.None? ==> NoWrites(trace, |old(trace)|, |trace|)
      ensures made.Some? ==>
        NoWrites(trace, |old(trace)|, |trace| - 1) && Replaced(path, text, mode, made.value, Some(id), expected)
      ensures made.None? && !Faulty(phase) ==> !Replaceable(trace[|old(trace)|].tree, path, Some(id), expected)
      ensures !foreign ==>
        tree == if made.Some? then old(tree)[path := Node(made.value, File(text, mode))] else old(tree)
      ensures !foreign && !Faulty(phase) && Replaceable(old(tree), path, Some(id), expected) ==> made.Some?
    {
      Interfere();
      var failed := Fault(phase);
      if failed || !Replaceable(tree, path, Some(id), expected) {
        Discard();
        return None;
      }
      var newId: nat := *;
      Write(path, tree[path := Node(newId, File(text, mode))]);
      temps := temps - 1;
      return Some(newId);
    }

    predicate Owns(path: Path, id: nat)
      reads this
    {
      path in tree && tree[path].id == id && tree[path].body.File?
    }

    /** Create one leaf exclusively; a failure after the open truncates and unlinks the own inode. */
    method CreateLeaf(path: Path, data: string) returns (made: Option<nat>)
      requires Valid()
      modifies `tree, `trace
      ensures Valid() && old(trace) <= trace && LeafWrites(trace, |old(trace)|, path)
      ensures made.Some? ==> LeafMade(trace, |old(trace)|, Created(path, data, made.value))
      ensures made.None? && !faultsInApply ==> LeafBlocked(trace, |old(trace)|, path, spoils)
      ensures made.None? ==> LeafUndone(trace, |old(trace)|, path, faultsInUndo)
      ensures !foreign && made.Some? ==>
        Creatable(old(tree), path) && tree == old(tree)[path := Node(made.value, File(data, LEAF_MODE))]
      ensures !foreign && !faultsInUndo && made.None? ==> tree == old(tree)
      ensures !foreign && !faultsInApply && Creatable(old(tree), path) ==> made.Some?
    {
      var failed := Fault(Applying);
      if failed { return None; }
      Interfere();
      if !Creatable(tree, path) { return None; }
      failed := Fault(Applying);
      if failed { return None; }
      made := OpenLeaf(path, data);
    }

    /** The open that makes the inode, and what follows it. */
    method OpenLeaf(path: Path, data: string) returns (made: Option<nat>)
      requires Valid() && Creatable(tree, path) && trace[|trace| - 1].act == Others && |trace| > 1
      modifies `tree, `trace
      ensures Valid() && old(trace) <= trace && LeafWrites(trace, |old(trace)| - 1, path)
      ensures made.Some? ==> LeafMade(trace, |old(trace)| - 1, Created(path, data, made.value))
      ensures made.None? && !faultsInApply ==> LeafBlocked(trace, |old(trace)| - 1, path, spoils)
      ensures made.None? ==> LeafUndone(trace, |old(trace)| - 1, path, faultsInUndo)
      ensures !foreign && made.Some? ==> tree == old(tree)[path := Node(made.value, File(data, LEAF_MODE))]
      ensures !foreign && !faultsInUndo && made.None? ==> tree == old(tree)
      ensures !foreign && !faultsInApply ==> made.Some?
    {
      var id: nat := *;
      Write(path, tree[path := Node(id, File("", LEAF_MODE))]);
      ghost var before, open := trace, tree;
      var failed;
      ghost var text;
      failed, text := FillLeaf(path, id, data);
      if failed { WithdrawLeaf(path, id); }
      LeafOutcome(before, trace, Created(path, data, id), failed, faultsInUndo);
      made := if failed then None else Some(id);
    }

    /** Writes the data and looks at the result. */
    method FillLeaf(path: Path, id: nat, data: string) returns (failed: bool, ghost text: string)
      requires Valid()
      modifies `tree, `trace
      ensures Valid() && old(trace) <= trace && OwnWrites(trace, |old(trace)|, path, id)
      ensures |old(trace)| < |trace| && trace[|old(trace)|].act == Others
      ensures !failed ==> Filled(trace, |old(trace)|, Created(path, data, id))
      ensures !failed ==> |trace| == |old(trace)| + if Leads(trace[|old(trace)|].tree, path, id) then 2 else 1
      ensures failed && !faultsInApply ==> foreign && spoils(|old(trace)|)
      ensures !foreign && old(Owns(path, id)) ==>
        Owns(path, id) && tree == old(tree)[path := Node(id, File(text, old(tree)[path].body.mode))]
        && (!failed ==> text == data)
    {
      Interfere();
      failed := Fault(Applying);
      failed := failed || (foreign && spoils(|trace| - 1));
      text := data;
      if Owns(path, id) {
        var written := data;
        if failed { written := *; }
        SetData(path, id, written);
        text := written;
      }
    }

    /** Empties the own inode, then removes the entry while it is still that inode. */
    method WithdrawLeaf(path: Path, id: nat)
      requires Valid()
      modifies `tree, `trace
      ensures Valid() && old(trace) <= trace && OwnWrites(trace, |old(trace)|, path, id)
      ensures !faultsInUndo ==> !Owns(path, id)
      ensures !faultsInUndo && old(Owns(path, id)) ==>
        |old(trace)| < |trace| && trace[|old(trace)|].act == Wrote(path)
        && trace[|old(trace)|].tree == old(tree)[path := Node(id, File("", old(tree)[path].body.mode))]
      ensures !foreign && !faultsInUndo && old(Owns(path, id)) ==> tree == old(tree) - {path}
    {
      var stuck := Fault(Undoing);
      if !stuck && Owns(path, id) { SetData(path, id, ""); }
      Interfere();
      stuck := Fault(Undoing);
      if !stuck && path in tree && tree[path].id == id && tree[path].body != Dir { Write(path, tree - {path}); }
    }

    method SetData(path: Path, id: nat, data: string)
      requires Valid() && Owns(path, id)
      modifies `tree, `trace
      ensures Valid() && tree == old(tree)[path := Node(id, File(data, old(tree)[path].body.mode))]
      ensures trace == old(trace) + [Moment(Wrote(path), tree)]
    {
      Write(path, tree[path := Node(id, File(data, tree[path].body.mode))]);
    }

    /** One look for a directory component, and the mkdir when it is missing. The source's retry after
        losing the race to another creator is the same as having looked later. */
    method EnsureDir(prefix: Path, ghost base: Tree) returns (ok: bool)
      requires Valid() && prefix != [] && (Quiet() ==> Steady(base)) && (!foreign ==> DirsAbove(tree, prefix))
      modifies `tree, `trace, `dirs
      ensures Valid() && old(trace) <= trace && (Quiet() ==> Steady(base))
      ensures forall i ::
        |old(trace)| <= i && IsWrite(trace, i) ==> Appears(trace, i, prefix) && trace[i].tree[prefix].body == Dir
      ensures ok ==> DirAt(tree, prefix) && DirTaken(trace, |old(trace)|, prefix, old(dirs), dirs)
      ensures !ok ==> dirs == old(dirs) && DirUnrecorded(trace, |old(trace)|, prefix, faultsInGap)
      ensures !ok && !faultsInApply && !faultsInGap ==> DirRefused(trace, |old(trace)|, prefix)
      ensures !foreign ==>
        tree == old(tree) || (prefix !in old(tree) && exists id: nat :: tree == old(tree)[prefix := Node(id, Dir)])
      ensures !foreign && ok ==> prefix in tree && tree[prefix].body == Dir
      ensures !foreign && !faultsInApply && !faultsInGap && (prefix in tree ==> tree[prefix].body == Dir) ==> ok
    {
      var failed := Fault(Applying);
      if failed { return false; }
      Interfere();
      if prefix in tree { return tree[prefix].body == Dir; }
      if !DirsAbove(tree, prefix) { return false; }
      ok := MakeDir(prefix, base);
    }

    /** The mkdir of a missing component, and the look that records it. */
    method MakeDir(prefix: Path, ghost base: Tree) returns (ok: bool)
      requires Valid() && Creatable(tree, prefix) && (Quiet() ==> Steady(base)) && trace[|trace| - 1].act == Others
        && |trace| > 1
      modifies `tree, `trace, `dirs
      ensures Valid() && old(trace) <= trace && (Quiet() ==> Steady(base))
      ensures forall i ::
        |old(trace)| <= i && IsWrite(trace, i) ==> Appears(trace, i, prefix) && trace[i].tree[prefix].body == Dir
      ensures ok ==> DirAt(tree, prefix) && DirTaken(trace, |old(trace)| - 1, prefix, old(dirs), dirs)
      ensures !ok ==> dirs == old(dirs) && DirUnrecorded(trace, |old(trace)|, prefix, faultsInGap)
      ensures !ok && !faultsInApply && !faultsInGap ==> DirRefused(trace, |old(trace)| - 1, prefix)
      ensures !foreign ==> tree == old(tree) || exists id: nat :: tree == old(tree)[prefix := Node(id, Dir)]
      ensures !foreign && !faultsInApply && !faultsInGap ==> ok
    {
      var failed := Fault(Applying);
      if failed { return false; }
      var id: nat := *;
      ghost var was := tree;
      Write(prefix, tree[prefix := Node(id, Dir)]);
      Interfere();
      var lost: bool := *;
      if (lost && faultsInGap) || prefix !in tree || tree[prefix].body != Dir {
        assert DirAt(trace[|trace| - 2].tree, prefix);
        return false;
      }
      if Quiet() { PushDir(was, base, created, dirs, updated, MadeDir(prefix, id)); }
      dirs := dirs + [MadeDir(prefix, tree[prefix].id)];
      return true;
    }

    /** Ensure every directory above `path`; only those made here are journalled. */
    method EnsureTree(path: Path, ghost base: Tree) returns (ok: bool)
      requires Valid() && path != [] && (Quiet() ==> Steady(base))
      modifies `tree, `trace, `dirs
      ensures Valid() && old(trace) <= trace && (Quiet() ==> Steady(base)) && DirWrites(trace, |old(trace)|, path)
      ensures AllNamed(trace, Since(|old(trace)|, old(Book())))
        && if ok then AllExplained(trace, Since(|old(trace)|, old(Book())))
           else AllSettled(trace, Since(|old(trace)|, old(Book())), path, Risks())
      ensures ok ==> DirsTaken(trace, |old(trace)|, path, |path|, |dirs| - |old(dirs)|)
      ensures !ok && !faultsInApply && !faultsInGap ==>
        |old(trace)| < |trace| && trace[|trace| - 1].act == Others
          && AncestorLost(trace, |old(trace)|, |trace| - 1, path)
      ensures !foreign && ok ==> DirsAbove(tree, path) && ViewOf(tree) == WithDirs(ViewOf(old(tree)), path)
      ensures !foreign && !faultsInApply && !faultsInGap && DirsPossible(ViewOf(old(tree)), path) ==> ok
    {
      var k := 1;
      WithNoDirs(ViewOf(tree), path);
      NothingAdded(trace, |trace|, Book());
      while k < |path|
        invariant 1 <= k <= |path|
        invariant Valid() && old(trace) <= trace && (Quiet() ==> Steady(base))
        invariant Laid(path, k, |old(trace)|, old(Book()), old(tree))
      {
        ok := EnsureNext(path, k, base, |old(trace)|, old(Book()), old(tree));
        if !ok { return; }
        k := k + 1;
      }
      assert path[..|path|] == path;
      return true;
    }

    /** The components before the k-th are there, and those made here are accounted for. */
    ghost predicate Laid(path: Path, k: nat, from: nat, book: Journal, start: Tree)
      reads this`tree, this`trace, this`created, this`dirs, this`updated
    {
      && 0 < k <= |path| && DirWrites(trace, from, path)
      && AllNamed(trace, Since(from, book)) && AllExplained(trace, Since(from, book))
      && DirsTaken(trace, from, path, k, |dirs| - |book.dirs|)
      && (!foreign ==> DirsAbove(tree, path[..k]) && ViewOf(tree) == WithDirs(ViewOf(start), path[..k]))
    }

    method EnsureNext(path: Path, k: nat, ghost base: Tree, ghost from: nat, ghost book: Journal, ghost start: Tree)
      returns (ok: bool)
      requires Valid() && k < |path| && (Quiet() ==> Steady(base)) && Laid(path, k, from, book, start)
      modifies `tree, `trace, `dirs
      ensures Valid() && old(trace) <= trace && (Quiet() ==> Steady(base))
      ensures ok ==> Laid(path, k + 1, from, book, start)
      ensures !ok ==>
        DirWrites(trace, from, path) && AllNamed(trace, Since(from, book))
        && AllSettled(trace, Since(from, book), path, Risks())
      ensures !ok && !faultsInApply && !faultsInGap ==>
        from < |trace| && trace[|trace| - 1].act == Others && AncestorLost(trace, from, |trace| - 1, path)
      ensures !foreign && !faultsInApply && !faultsInGap && DirsPossible(ViewOf(start), path) ==> ok
    {
      ghost var was, before, mid := tree, trace, Book();
      if !foreign { NextDirPossible(start, was, path, k); }
      ok := EnsureDir(path[..k], base);
      DirWritesGrow(before, trace, from, path, k);
      if ok {
        DirFollows(before, trace, from, path, k, book, mid, Book());
        if !foreign { DirsStep(start, was, tree, path, k); }
      } else {
        assert Book() == mid;
        DirFails(before, trace, from, path, k, book, mid, Risks());
      }
    }

    method CreateFile(path: Path, data: string, ghost base: Tree) returns (ok: bool)
      requires Valid() && path != [] && (Quiet() ==> Steady(base))
      modifies `tree, `trace, `dirs, `created
      ensures Valid() && old(trace) <= trace && (Quiet() ==> Steady(base)) && CreationWrites(trace, |old(trace)|, path)
      ensures if ok then exists id: nat ::
        created == old(created) + [Created(path, data, id)] else created == old(created)
      ensures AllNamed(trace, Since(|old(trace)|, old(Book())))
        && if ok then AllExplained(trace, Since(|old(trace)|, old(Book())))
           else AllSettled(trace, Since(|old(trace)|, old(Book())), path, Risks())
      ensures ok ==> LeafEnds(trace, Since(|old(trace)|, old(Book())), created[|old(created)|], |old(trace)|)
      ensures !ok && !faultsInApply && !faultsInGap ==> Blocked(trace, |old(trace)|, |trace|, path, spoils)
      ensures !foreign && ok ==> path !in old(tree) && DirsPossible(ViewOf(old(tree)), path)
      ensures !foreign && ok ==> ViewOf(tree) == WithDirs(ViewOf(old(tree)), path)[path := File(data, LEAF_MODE)]
      ensures !foreign && !faultsInApply && !faultsInGap ==>
        path !in old(tree) && DirsPossible(ViewOf(old(tree)), path) ==> ok
    {
      ok := EnsureTree(path, base);
      if !ok {
        if !faultsInApply && !faultsInGap {
          NotWrittenAbove(trace, |old(trace)|, path);
          LostBlocks(trace, |old(trace)|, path, spoils);
        }
        return;
      }
      if !foreign { EnsuredView(old(tree), tree, path); }
      ghost var before := trace;
      ghost var f;
      ok, f := CreateLast(path, data, base, |old(trace)|, old(Book()));
      CreationJoins(before, trace, |old(trace)|, path);
    }

    /** The leaf, below directories that are there. */
    method CreateLast(path: Path, data: string, ghost base: Tree, ghost from: nat, ghost book: Journal)
      returns (ok: bool, ghost f: Created)
      requires Valid() && path != [] && (Quiet() ==> Steady(base)) && from > 0 && created == book.created
      requires DirWrites(trace, from, path) && AllNamed(trace, Since(from, book))
        && AllExplained(trace, Since(from, book))
      requires DirsTaken(trace, from, path, |path|, |dirs| - |book.dirs|)
      modifies `tree, `trace, `created
      ensures Valid() && old(trace) <= trace && (Quiet() ==> Steady(base)) && LeafWrites(trace, |old(trace)|, path)
      ensures created == if ok then old(created) + [f] else old(created)
      ensures f.path == path && f.written == data
      ensures AllNamed(trace, Since(from, book))
        && if ok then AllExplained(trace, Since(from, book)) else AllSettled(trace, Since(from, book), path, Risks())
      ensures ok ==> LeafEnds(trace, Since(from, book), f, from)
      ensures !ok && !faultsInApply ==> Blocked(trace, from, |trace|, path, spoils)
      ensures !foreign && ok ==>
        Creatable(old(tree), path) && ViewOf(tree) == ViewOf(old(tree))[path := File(data, LEAF_MODE)]
      ensures !foreign && !faultsInApply && Creatable(old(tree), path) ==> ok
    {
      ghost var was, before, mid := tree, trace, Book();
      var made := CreateLeaf(path, data);
      ok := made.Some?;
      f := Created(path, data, if ok then made.value else 0);
      if ok {
        if Quiet() { PushCreated(was, base, created, dirs, updated, f); }
        created := created + [Created(path, data, made.value)];
        LeafEnd(before, trace, from, path, book, mid, f);
        assert Since(from, book) == Span(from, |trace|, book, mid.(created := mid.created + [f]));
        if !foreign { ViewWritten(was, path, Node(f.id, File(data, LEAF_MODE))); }
      } else {
        LeafMissing(before, trace, from, path, book, mid, Risks());
      }
    }

    method UpdateFile(path: Path, original: string, mode: nat, text: string, ghost base: Tree)
      returns (ok: bool, ghost id: nat)
      requires Valid() && path != [] && |original| <= MAX_FILE_BYTES
      requires Quiet() ==> Steady(base) && path !in CreatedPaths(created) && path !in UpdatedPaths(updated)
      requires !foreign ==> path in tree && tree[path].body.File? && tree[path].body.mode == mode
      modifies `tree, `trace, `temps, `updated
      ensures Valid() && old(trace) <= trace && (!faultsInUndo ==> temps == old(temps)) && (Quiet() ==> Steady(base))
      ensures forall i :: |old(trace)| <= i && IsWrite(trace, i) ==> TextWrite(trace, i, path, original, mode, text)
      ensures updated == if ok then old(updated) + [Updated(path, original, mode, text, id)] else old(updated)
      ensures AllNamed(trace, Since(|old(trace)|, old(Book()))) && AllExplained(trace, Since(|old(trace)|, old(Book())))
      ensures !ok && !faultsInApply ==> Balked(trace, |old(trace)|, path, None, original)
      ensures !foreign && ok ==> Replaceable(old(tree), path, None, original)
      ensures !foreign ==> ViewOf(tree) == if ok then ViewOf(old(tree))[path := File(text, mode)] else ViewOf(old(tree))
      ensures !foreign && !faultsInApply && Replaceable(old(tree), path, None, original) ==> ok
    {
      ghost var was, book := tree, Book();
      var made := Replace(Applying, path, text, mode, None, original);
      ok := made.Some?;
      id := if ok then made.value else 0;
      if ok {
        var u := Updated(path, original, mode, text, made.value);
        if Quiet() { PushUpdated(was, base, created, dirs, updated, u); }
        updated := updated + [u];
        UpdateEnds(trace, |old(trace)|, book, u);
        if !foreign { ViewWritten(was, path, Node(made.value, File(text, mode))); }
      } else {
        NothingAdded(trace, |old(trace)|, book);
      }
    }

    /** One step: look, decide, and write if the decision says so. */
    method Forward(s: Step, ghost base: Tree) returns (ok: bool)
      requires Valid() && Honest(s) && (Quiet() ==> Steady(base))
      requires s.path !in CreatedPaths(created) && s.path !in UpdatedPaths(updated)
      modifies `tree, `trace, `temps, `dirs, `created, `updated
      ensures Valid() && old(trace) <= trace && (Quiet() ==> Steady(base)) && StepWrites(trace, |old(trace)|, s)
      ensures ok ==> WentThrough(trace, s, Since(|old(trace)|, old(Book())))
      ensures !ok ==> FellShort(trace, s, Since(|old(trace)|, old(Book())), Risks())
      ensures CreatedPaths(created) <= CreatedPaths(old(created)) + {s.path}
      ensures UpdatedPaths(updated) <= UpdatedPaths(old(updated)) + {s.path}
      ensures !faultsInUndo ==> temps == old(temps)
      ensures !ok ==> created == old(created) && updated == old(updated)
      ensures !foreign && ok ==> PerformOne(ViewOf(old(tree)), s) == Some(ViewOf(tree))
      ensures !foreign && ok ==>
        (AllFit(created, updated) <==> AllFit(old(created), old(updated)) && Fits(TextOf(s.decide(ViewOf(old(tree))))))
      ensures !foreign && !faultsInApply && !faultsInGap ==> (ok <==> PerformOne(ViewOf(old(tree)), s).Some?)
    {
      Interfere();
      Note(Looked(s.path));
      ok := Carry(s, base, |old(trace)|);
    }

    /** What the look decides. */
    method Carry(s: Step, ghost base: Tree, ghost from: nat) returns (ok: bool)
      requires Valid() && Honest(s) && (Quiet() ==> Steady(base)) && Begun(s, from)
      requires s.path !in CreatedPaths(created) && s.path !in UpdatedPaths(updated)
      modifies `tree, `trace, `temps, `dirs, `created, `updated
      ensures Valid() && old(trace) <= trace && (Quiet() ==> Steady(base)) && StepWrites(trace, from, s)
      ensures ok ==> WentThrough(trace, s, Since(from, old(Book())))
      ensures !ok ==> FellShort(trace, s, Since(from, old(Book())), Risks())
      ensures CreatedPaths(created) <= CreatedPaths(old(created)) + {s.path}
      ensures UpdatedPaths(updated) <= UpdatedPaths(old(updated)) + {s.path}
      ensures !faultsInUndo ==> temps == old(temps)
      ensures !ok ==> created == old(created) && updated == old(updated)
      ensures !foreign && ok ==> PerformOne(ViewOf(old(tree)), s) == Some(ViewOf(tree))
      ensures ok ==>
        (AllFit(created, updated) <==> AllFit(old(created), old(updated)) && Fits(TextOf(s.decide(ViewOf(old(tree))))))
      ensures !foreign && !faultsInApply && !faultsInGap ==> (ok <==> PerformOne(ViewOf(old(tree)), s).Some?)
    {
      match s.decide(ViewOf(tree))
      case Refuse =>
        NoAccount(trace, from, s, Book(), Risks());
        return false;
      case Keep =>
        NoAccount(trace, from, s, Book(), Risks());
        return true;
      case Create(_) => ok := ForwardCreate(s, base, from);
      case Rewrite(_, _, _) => ok := ForwardRewrite(s, base, from);
    }

    /** The look of a step lies behind. */
    ghost predicate Begun(s: Step, from: nat) reads this`tree, this`trace {
      && 0 < from && |trace| == from + 2 && trace[from].act == Others && trace[from + 1] == Moment(Looked(s.path), tree)
    }

    method ForwardCreate(s: Step, ghost base: Tree, ghost from: nat) returns (ok: bool)
      requires Valid() && Honest(s) && (Quiet() ==> Steady(base)) && Begun(s, from) && s.decide(ViewOf(tree)).Create?
      modifies `tree, `trace, `dirs, `created
      ensures Valid() && old(trace) <= trace && (Quiet() ==> Steady(base)) && StepWrites(trace, from, s)
      ensures ok ==> WentThrough(trace, s, Since(from, old(Book())))
      ensures !ok ==> FellShort(trace, s, Since(from, old(Book())), Risks())
      ensures ok ==> CreatedPaths(created) <= CreatedPaths(old(created)) + {s.path}
      ensures ok ==>
        (AllFit(created, updated) <==> AllFit(old(created), updated) && Fits(s.decide(ViewOf(old(tree))).data))
      ensures !ok ==> created == old(created)
      ensures !foreign && ok ==> PerformOne(ViewOf(old(tree)), s) == Some(ViewOf(tree))
      ensures !foreign && !faultsInApply && !faultsInGap ==> (ok <==> PerformOne(ViewOf(old(tree)), s).Some?)
    {
      ghost var looked, book := trace, Book();
      var data := s.decide(ViewOf(tree)).data;
      ok := CreateFile(s.path, data, base);
      CreationIsStep(looked, trace, from, s);
      CreationAccount(looked, trace, from, s, book, Book(), data, ok, Risks());
      if ok { OneCreated(book.created, created[|book.created|], updated); }
    }

    method ForwardRewrite(s: Step, ghost base: Tree, ghost from: nat) returns (ok: bool)
      requires Valid() && Honest(s) && (Quiet() ==> Steady(base)) && Begun(s, from) && s.decide(ViewOf(tree)).Rewrite?
      requires s.path !in CreatedPaths(created) && s.path !in UpdatedPaths(updated)
      modifies `tree, `trace, `temps, `updated
      ensures Valid() && old(trace) <= trace && (Quiet() ==> Steady(base)) && StepWrites(trace, from, s)
      ensures !faultsInUndo ==> temps == old(temps)
      ensures ok ==> WentThrough(trace, s, Since(from, old(Book())))
      ensures !ok ==> FellShort(trace, s, Since(from, old(Book())), Risks())
      ensures ok ==> UpdatedPaths(updated) <= UpdatedPaths(old(updated)) + {s.path}
      ensures ok ==>
        (AllFit(created, updated) <==> AllFit(created, old(updated)) && Fits(s.decide(ViewOf(old(tree))).text))
      ensures !ok ==> updated == old(updated)
      ensures !foreign && ok ==> PerformOne(ViewOf(old(tree)), s) == Some(ViewOf(tree))
      ensures !foreign && !faultsInApply ==> (ok <==> PerformOne(ViewOf(old(tree)), s).Some?)
    {
      ghost var looked, book, was := trace, Book(), tree;
      var d := s.decide(ViewOf(tree));
      ghost var id;
      ok, id := UpdateFile(s.path, d.original, d.mode, d.text, base);
      RewriteEnds(looked, trace, from, s, book, Book(), ok, id, Risks());
      if !foreign { RewritePerforms(was, s); }
      if ok { OneUpdated(created, book.updated, updated[|book.updated|]); }
    }

    // Rollback: each record is undone only on what this process recorded.

    method UndoUpdate(u: Updated) returns (r: Result)
      requires Valid()
      modifies `tree, `trace, `temps
      ensures Valid() && old(trace) <= trace && (!faultsInUndo ==> temps == old(temps)) && (r == Reverted || r == Kept)
      ensures TurnOk(trace, Turn(OfUpdate(u), |old(trace)|, |trace|, r), faultsInUndo)
      ensures r == Reverted ==> Fits(u.written)
      ensures !foreign ==> if r == Reverted
        then exists id: nat :: tree == old(tree)[u.path := Node(id, File(u.original, u.mode))]
        else tree == old(tree)
      ensures !foreign && !faultsInUndo && Replaceable(old(tree), u.path, Some(u.id), u.written) ==> r == Reverted
    {
      var failed := Fault(Undoing);
      if failed { return Kept; }
      Interfere();
      if !Replaceable(tree, u.path, Some(u.id), u.written) { return Kept; }
      ghost var before := trace;
      var made := Replace(Undoing, u.path, u.original, u.mode, Some(u.id), u.written);
      UpdateTurnOk(before, trace, |old(trace)|, u, made, faultsInUndo);
      return if made.Some? then Reverted else Kept;
    }

    method UndoFile(f: Created) returns (r: Result)
      requires Valid()
      modifies `tree, `trace
      ensures Valid() && old(trace) <= trace
      ensures TurnOk(trace, Turn(OfFile(f), |old(trace)|, |trace|, r), faultsInUndo)
      ensures r == Reverted ==> Fits(f.written)
      ensures !foreign ==> tree == if r == Reverted then old(tree) - {f.path} else old(tree)
      ensures !foreign && !faultsInUndo && Replaceable(old(tree), f.path, Some(f.id), f.written) ==> r == Reverted
      ensures !faultsInUndo ==>
        var t1 := Disturbed(world, foreign, |old(trace)|, old(tree));
        var t2 := Disturbed(world, foreign, |old(trace)| + 2, t1);
        r == FileFate(t1, t2, f) && (r == Reverted ==> tree == t2 - {f.path})
      ensures r == Reverted ==>
        |trace| == |old(trace)| + 4
        && trace[|old(trace)| + 1].tree == Disturbed(world, foreign, |old(trace)|, old(tree))
    {
      var failed := Fault(Undoing);
      if failed { return Kept; }
      Interfere();
      Note(Looked(f.path));
      var look := LookAt(tree, f.path);
      if look.Absent? { return Gone; }
      if !Replaceable(tree, f.path, Some(f.id), f.written) { return Kept; }
      LongTextNeverRecognised(look.node.body.data, f.written);
      r := RemoveOwn(f);
    }

    /** The second half of removing a file whose bytes have just been looked at: only its identity is checked again. */
    method RemoveOwn(f: Created) returns (r: Result)
      requires Valid() && trace[|trace| - 1].act == Looked(f.path) && Intact(tree, OfFile(f))
      modifies `tree, `trace
      ensures Valid() && old(trace) <= trace && (r == Reverted || r == Kept || (r == Raised && faultsInUndo))
      ensures r == Reverted ==>
        |trace| == |old(trace)| + 2 && NoWrites(trace, |old(trace)|, |trace| - 1)
        && Undoes(trace, |old(trace)| - 1, |trace| - 1, OfFile(f))
      ensures r != Reverted ==> NoWrites(trace, |old(trace)|, |trace|)
      ensures r == Kept && !faultsInUndo ==>
        |old(trace)| < |trace| && trace[|old(trace)|].act == Others && !StillOwn(trace[|old(trace)|].tree, f)
      ensures !foreign ==> tree == if r == Reverted then old(tree) - {f.path} else old(tree)
      ensures !faultsInUndo ==> var t2 := Disturbed(world, foreign, |old(trace)|, old(tree));
        r == (if StillOwn(t2, f) then Reverted else Kept) && (r == Reverted ==> tree == t2 - {f.path})
    {
      var failed := Fault(Undoing);
      if failed { return Raised; }
      Interfere();
      if !StillOwn(tree, f) { return Kept; }
      failed := Fault(Undoing);
      if failed { return Kept; }
      Write(f.path, tree - {f.path});
      return Reverted;
    }

    method UndoDir(d: MadeDir) returns (r: Result)
      requires Valid()
      modifies `tree, `trace
      ensures Valid() && old(trace) <= trace
      ensures TurnOk(trace, Turn(OfDir(d), |old(trace)|, |trace|, r), faultsInUndo)
      ensures r == Reverted ==>
        d.path in Disturbed(world, foreign, |old(trace)|, old(tree))
        && Disturbed(world, foreign, |old(trace)|, old(tree))[d.path].body == Dir
      ensures !foreign ==> tree == if r == Reverted then old(tree) - {d.path} else old(tree)
      ensures !foreign && !faultsInUndo && Removable(old(tree), d) ==> r == Reverted
    {
      var failed := Fault(Undoing);
      if failed { return Raised; }
      Interfere();
      Note(Looked(d.path));
      assert trace[|trace| - 1].tree == tree;
      if d.path == [] || !DirsAbove(tree, d.path) {
        assert BarredAt(trace, |trace| - 1, d);
        return Kept;
      }
      if d.path !in tree { return Gone; }
      assert Removable(tree, d) || BarredAt(trace, |trace| - 1, d);
      if tree[d.path] != Node(d.id, Dir) { return Kept; }
      failed := Fault(Undoing);
      if failed || !NothingBelow(tree, d.path) { return Kept; }
      Write(d.path, tree - {d.path});
      return Reverted;
    }

    /** What undisturbed undoing keeps: survivors of texts too long to be recognised. */
    ghost predicate Surviving() reads this`tree, this`created, this`updated {
      Quiet() && Survives(tree, created, updated) && DistinctJournal(created, updated)
    }

    /** Undoing the last update that is left. */
    method UndoLastUpdate(i: nat, ghost base: Tree, ghost steady: bool) returns (r: Result)
      requires Valid() && i < |updated|
      requires steady ==> Quiet() && Fits(updated[i].written) && Tracks(tree, base, created, dirs, updated[..i + 1])
      modifies `tree, `trace, `temps
      ensures Valid() && old(trace) <= trace && (!faultsInUndo ==> temps == old(temps)) && (r == Reverted || r == Kept)
      ensures TurnOk(trace, Turn(OfUpdate(updated[i]), |old(trace)|, |trace|, r), faultsInUndo)
      ensures steady ==> r == Reverted && Tracks(tree, base, created, dirs, updated[..i])
      ensures old(Surviving()) ==> Surviving()
    {
      if steady { LastUpdate(tree, base, created, dirs, updated[..i + 1]); }
      assert updated[..i + 1][..i] == updated[..i];
      ghost var before := tree;
      r := UndoUpdate(updated[i]);
      if old(Surviving()) && r == Reverted { SurvivesUndo(before, tree, created, updated, OfUpdate(updated[i])); }
    }

    method UpdateTurn(i: nat, ghost base: Tree, ghost steady: bool, ghost begin: nat, ghost log: seq<Turn>,
                      incomplete: seq<Path>)
      returns (left: seq<Path>, ghost more: seq<Turn>)
      requires Valid() && i < |updated|
      requires steady ==> Quiet() && Fits(updated[i].written) && Tracks(tree, base, created, dirs, updated[..i + 1])
      requires |log| == |updated| - 1 - i
        && Reporting(trace, begin, log, UpdateRecords(updated), faultsInUndo, incomplete) && NoneRaised(log)
      modifies `tree, `trace, `temps
      ensures Valid() && old(trace) <= trace && (!faultsInUndo ==> temps == old(temps))
      ensures |more| == |log| + 1 && NoneRaised(more)
      ensures Reporting(trace, begin, more, UpdateRecords(updated), faultsInUndo, left)
      ensures steady ==> left == incomplete && Tracks(tree, base, created, dirs, updated[..i])
      ensures old(Surviving()) ==> Surviving()
    {
      ghost var was := trace;
      var r := UndoLastUpdate(i, base, steady);
      left := if r == Kept then incomplete + [updated[i].path] else incomplete;
      more := log + [Turn(OfUpdate(updated[i]), |was|, |trace|, r)];
      ReportingGrows(was, trace, begin, log, UpdateRecords(updated), faultsInUndo, incomplete,
        Turn(OfUpdate(updated[i]), |was|, |trace|, r));
    }

    /** Undoing the last created file that is left. */
    method UndoLastFile(i: nat, ghost base: Tree, ghost steady: bool) returns (r: Result)
      requires Valid() && i < |created|
      requires steady ==> Quiet() && Fits(created[i].written) && Tracks(tree, base, created[..i + 1], dirs, [])
      modifies `tree, `trace
      ensures Valid() && old(trace) <= trace
      ensures TurnOk(trace, Turn(OfFile(created[i]), |old(trace)|, |trace|, r), faultsInUndo)
      ensures steady ==> r == Reverted && Tracks(tree, base, created[..i], dirs, [])
      ensures old(Surviving()) ==> Surviving()
    {
      if steady { LastCreated(tree, base, created[..i + 1], dirs); }
      assert created[..i + 1][..i] == created[..i];
      ghost var before := tree;
      r := UndoFile(created[i]);
      if old(Surviving()) && r == Reverted { SurvivesUndo(before, tree, created, updated, OfFile(created[i])); }
    }

    method FileTurn(i: nat, ghost base: Tree, ghost steady: bool, ghost begin: nat, ghost log: seq<Turn>,
                    incomplete: seq<Path>)
      returns (escaped: bool, left: seq<Path>, ghost more: seq<Turn>)
      requires Valid() && i < |created|
      requires steady ==> Quiet() && Fits(created[i].written) && Tracks(tree, base, created[..i + 1], dirs, [])
      requires |log| == |created| - 1 - i
        && Reporting(trace, begin, log, FileRecords(created), faultsInUndo, incomplete) && NoneRaised(log)
      modifies `tree, `trace
      ensures Valid() && old(trace) <= trace
      ensures |more| == |log| + 1 && (NoneRaised(more) <==> !escaped)
      ensures Reporting(trace, begin, more, FileRecords(created), faultsInUndo, left)
      ensures steady ==> !escaped && left == incomplete && Tracks(tree, base, created[..i], dirs, [])
      ensures old(Surviving()) ==> Surviving()
    {
      ghost var was := trace;
      var r := UndoLastFile(i, base, steady);
      escaped, left := r == Raised, if r == Kept then incomplete + [created[i].path] else incomplete;
      more := log + [Turn(OfFile(created[i]), |was|, |trace|, r)];
      ReportingGrows(was, trace, begin, log, FileRecords(created), faultsInUndo, incomplete,
        Turn(OfFile(created[i]), |was|, |trace|, r));
    }

    /** Removing the last directory that is left. */
    method UndoLastDir(i: nat, ghost base: Tree, ghost steady: bool) returns (r: Result)
      requires Valid() && i < |dirs| && (steady ==> Quiet() && Tracks(tree, base, [], dirs[..i + 1], []))
      modifies `tree, `trace
      ensures Valid() && old(trace) <= trace
      ensures TurnOk(trace, Turn(OfDir(dirs[i]), |old(trace)|, |trace|, r), faultsInUndo)
      ensures steady ==> r == Reverted && Tracks(tree, base, [], dirs[..i], [])
      ensures old(Surviving()) ==> Surviving()
    {
      if steady { LastDir(tree, base, dirs[..i + 1]); }
      assert dirs[..i + 1][..i] == dirs[..i];
      ghost var before := tree;
      r := UndoDir(dirs[i]);
      if old(Surviving()) && r == Reverted { SurvivesUndo(before, tree, created, updated, OfDir(dirs[i])); }
    }

    method DirTurn(i: nat, ghost base: Tree, ghost steady: bool, ghost begin: nat, ghost log: seq<Turn>,
                   incomplete: seq<Path>)
      returns (escaped: bool, left: seq<Path>, ghost more: seq<Turn>)
      requires Valid() && i < |dirs| && (steady ==> Quiet() && Tracks(tree, base, [], dirs[..i + 1], []))
      requires |log| == |dirs| - 1 - i && Reporting(trace, begin, log, DirRecords(dirs), faultsInUndo, incomplete)
        && NoneRaised(log)
      modifies `tree, `trace
      ensures Valid() && old(trace) <= trace
      ensures |more| == |log| + 1 && (NoneRaised(more) <==> !escaped)
      ensures Reporting(trace, begin, more, DirRecords(dirs), faultsInUndo, left)
      ensures steady ==> !escaped && left == incomplete && Tracks(tree, base, [], dirs[..i], [])
      ensures old(Surviving()) ==> Surviving()
    {
      ghost var was := trace;
      var r := UndoLastDir(i, base, steady);
      escaped, left := r == Raised, if r == Kept then incomplete + [dirs[i].path] else incomplete;
      more := log + [Turn(OfDir(dirs[i]), |was|, |trace|, r)];
      ReportingGrows(was, trace, begin, log, DirRecords(dirs), faultsInUndo, incomplete,
        Turn(OfDir(dirs[i]), |was|, |trace|, r));
    }

    method UndoUpdates(ghost base: Tree) returns (incomplete: seq<Path>, ghost log: seq<Turn>)
      requires Valid()
      modifies `tree, `trace, `temps
      ensures Valid() && old(trace) <= trace && (!faultsInUndo ==> temps == old(temps))
      ensures Reporting(trace, |old(trace)|, log, UpdateRecords(updated), faultsInUndo, incomplete)
        && |log| == |updated| && NoneRaised(log)
      ensures Quiet() && old(Steady(base)) && AllFit(created, updated) ==>
        incomplete == [] && Tracks(tree, base, created, dirs, [])
      ensures old(Surviving()) ==> Surviving()
    {
      incomplete, log := [], [];
      var i := |updated|;
      assert updated[..|updated|] == updated;
      ghost var begin, steady := |trace|, Quiet() && Steady(base) && AllFit(created, updated);
      while i > 0
        invariant 0 <= i <= |updated| && |log| == |updated| - i
        invariant Valid() && old(trace) <= trace && (!faultsInUndo ==> temps == old(temps))
        invariant Reporting(trace, begin, log, UpdateRecords(updated), faultsInUndo, incomplete) && NoneRaised(log)
        invariant steady ==> incomplete == [] && Tracks(tree, base, created, dirs, updated[..i])
        invariant old(Surviving()) ==> Surviving()
      {
        i := i - 1;
        incomplete, log := UpdateTurn(i, base, steady, begin, log, incomplete);
      }
    }

    method UndoFiles(ghost base: Tree) returns (escaped: bool, incomplete: seq<Path>, ghost log: seq<Turn>)
      requires Valid()
      modifies `tree, `trace
      ensures Valid() && old(trace) <= trace
      ensures Reporting(trace, |old(trace)|, log, FileRecords(created), faultsInUndo, incomplete)
      ensures escaped <==> !NoneRaised(log)
      ensures !escaped ==> |log| == |created|
      ensures Quiet() && Tracks(old(tree), base, created, dirs, []) && AllFit(created, []) ==>
        !escaped && incomplete == [] && Tracks(tree, base, [], dirs, [])
      ensures old(Surviving()) ==> Surviving()
    {
      escaped, incomplete, log := false, [], [];
      var i := |created|;
      assert created[..|created|] == created;
      ghost var begin, steady := |trace|, Quiet() && Tracks(tree, base, created, dirs, []) && AllFit(created, []);
      while !escaped && i > 0
        invariant 0 <= i <= |created| && |log| == |created| - i
        invariant Valid() && old(trace) <= trace
        invariant Reporting(trace, begin, log, FileRecords(created), faultsInUndo, incomplete)
          && (NoneRaised(log) <==> !escaped)
        invariant steady ==> !escaped && incomplete == [] && Tracks(tree, base, created[..i], dirs, [])
        invariant old(Surviving()) ==> Surviving()
      {
        i := i - 1;
        escaped, incomplete, log := FileTurn(i, base, steady, begin, log, incomplete);
      }
    }

    method UndoDirs(ghost base: Tree) returns (escaped: bool, incomplete: seq<Path>, ghost log: seq<Turn>)
      requires Valid()
      modifies `tree, `trace
      ensures Valid() && old(trace) <= trace
      ensures Reporting(trace, |old(trace)|, log, DirRecords(dirs), faultsInUndo, incomplete)
      ensures escaped <==> !NoneRaised(log)
      ensures !escaped ==> |log| == |dirs|
      ensures Quiet() && Tracks(old(tree), base, [], dirs, []) ==>
        !escaped && incomplete == [] && ViewOf(tree) == ViewOf(base)
      ensures old(Surviving()) ==> Surviving()
    {
      escaped, incomplete, log := false, [], [];
      var i := |dirs|;
      assert dirs[..|dirs|] == dirs;
      ghost var begin, steady := |trace|, Quiet() && Tracks(tree, base, [], dirs, []);
      while !escaped && i > 0
        invariant 0 <= i <= |dirs| && |log| == |dirs| - i
        invariant Valid() && old(trace) <= trace
        invariant Reporting(trace, begin, log, DirRecords(dirs), faultsInUndo, incomplete)
          && (NoneRaised(log) <==> !escaped)
        invariant steady ==> !escaped && incomplete == [] && Tracks(tree, base, [], dirs[..i], [])
        invariant old(Surviving()) ==> Surviving()
      {
        i := i - 1;
        escaped, incomplete, log := DirTurn(i, base, steady, begin, log, incomplete);
      }
      if steady { TracksNothing(tree, base); }
    }

    /** From moment `start` on the trace is a rollback of the journal, and `undo` is its report. */
    ghost predicate RolledBack(start: nat, undo: Undo) reads this {
      && start < |trace| && trace[start].act == RollbackStarted
      && Reported(start + 1, turns, undo)
    }

    /** The turns from moment `begin` on are those of the journal's records, and `undo` names the ones kept. */
    ghost predicate Reported(begin: nat, log: seq<Turn>, undo: Undo) reads this`trace, this`created, this`dirs,
                             this`updated {
      && Logged(trace, begin, log, Records(created, dirs, updated), faultsInUndo)
      && match undo
         case Escaped => !NoneRaised(log)
         case Report(incomplete) =>
           && |log| == |Records(created, dirs, updated)| && NoneRaised(log) && incomplete == KeptPaths(log)
    }

    /** Undo the journal backwards. Whatever others did meanwhile, every write made here undoes something
        recorded, and the report names exactly the records whose turn left them in place. Undisturbed, the tree
        looks as before exactly when every written text is within the limit it is recognised by. */
    method Rollback(ghost base: Tree) returns (undo: Undo)
      requires Valid()
      modifies `tree, `trace, `temps, `turns
      ensures Valid() && old(trace) <= trace && (!faultsInUndo ==> temps == old(temps))
      ensures RolledBack(|old(trace)|, undo)
      ensures Quiet() && old(Steady(base)) ==> (ViewOf(tree) == ViewOf(base) <==> AllFit(created, updated))
      ensures Quiet() && old(Steady(base)) && AllFit(created, updated) ==> undo == Report([])
    {
      Note(RollbackStarted);
      if Quiet() && Steady(base) {
        SurvivesStart(tree, base, created, dirs, updated);
        SurvivorsShow(tree, base, created, dirs, updated);
      }
      undo, turns := UndoStages(base);
    }

    /** All three loops, until one is ended by an error. */
    method UndoStages(ghost base: Tree) returns (undo: Undo, ghost log: seq<Turn>)
      requires Valid()
      modifies `tree, `trace, `temps
      ensures Valid() && old(trace) <= trace && (!faultsInUndo ==> temps == old(temps))
      ensures Reported(|old(trace)|, log, undo)
      ensures Quiet() && old(Steady(base)) && AllFit(created, updated) ==>
        undo == Report([]) && ViewOf(tree) == ViewOf(base)
      ensures old(Surviving()) ==> Surviving()
    {
      ghost var begin := |trace|;
      var escaped, incomplete, leftDirs;
      ghost var cleared;
      escaped, incomplete, log := UndoContents(base);
      if escaped {
        LoggedMore(trace, begin, log, UpdateRecords(updated) + FileRecords(created), DirRecords(dirs), faultsInUndo);
        return Escaped, log;
      }
      ghost var late, first := trace, log;
      escaped, leftDirs, cleared := UndoDirs(base);
      ReportingJoins(late, trace, begin, first, cleared, UpdateRecords(updated) + FileRecords(created),
        DirRecords(dirs), faultsInUndo, incomplete, leftDirs);
      log := first + cleared;
      undo := if escaped then Escaped else Report(incomplete + leftDirs);
    }

    /** The first two loops: updates, then created files. */
    method UndoContents(ghost base: Tree) returns (escaped: bool, incomplete: seq<Path>, ghost log: seq<Turn>)
      requires Valid()
      modifies `tree, `trace, `temps
      ensures Valid() && old(trace) <= trace && (!faultsInUndo ==> temps == old(temps))
      ensures Reporting(trace, |old(trace)|, log, UpdateRecords(updated) + FileRecords(created), faultsInUndo,
        incomplete)
      ensures escaped <==> !NoneRaised(log)
      ensures !escaped ==> |log| == |updated| + |created|
      ensures Quiet() && old(Steady(base)) && AllFit(created, updated) ==>
        !escaped && incomplete == [] && Tracks(tree, base, [], dirs, [])
      ensures old(Surviving()) ==> Surviving()
    {
      var unrestored, unremoved;
      ghost var first, second;
      unrestored, first := UndoUpdates(base);
      ghost var mid := trace;
      escaped, unremoved, second := UndoFiles(base);
      ReportingJoins(mid, trace, |old(trace)|, first, second, UpdateRecords(updated), FileRecords(created),
        faultsInUndo, unrestored, unremoved);
      incomplete, log := unrestored + unremoved, first + second;
    }

    /** After k steps: what they touched, where they have led undisturbed, and whether all they wrote can be
        recognised. */
    ghost predicate SoFar(v: View, steps: seq<Step>, k: nat) reads this`tree, this`created, this`updated {
      && k <= |steps| && CreatedPaths(created) + UpdatedPaths(updated) <= StepPaths(steps[..k])
      && (!foreign ==>
        Perform(v, steps[..k]) == Some(ViewOf(tree)) && (AllFit(created, updated) <==> TextsFit(v, steps, k)))
    }

    /** One turn of the write loop. */
    method Advance(steps: seq<Step>, i: nat, ghost base: Tree) returns (ok: bool)
      requires Valid() && WellFormedSteps(steps) && i < |steps| && (Quiet() ==> Steady(base))
        && SoFar(ViewOf(base), steps, i)
      modifies `tree, `trace, `temps, `dirs, `created, `updated
      ensures Valid() && old(trace) <= trace && (!faultsInUndo ==> temps == old(temps)) && (Quiet() ==> Steady(base))
      ensures StepWrites(trace, |old(trace)|, steps[i])
      ensures ok ==> WentThrough(trace, steps[i], Since(|old(trace)|, old(Book())))
      ensures !ok ==> FellShort(trace, steps[i], Since(|old(trace)|, old(Book())), Risks())
      ensures if ok then SoFar(ViewOf(base), steps, i + 1) else Stopped(ViewOf(base), steps, i)
    {
      NextStepFresh(steps, i);
      ghost var v := ViewOf(tree);
      ok := Forward(steps[i], base);
      PerformExtends(ViewOf(base), steps, i);
      if !foreign { TextsFitStep(ViewOf(base), steps, i); }
    }

    /** The same, with all writes since the loop began and an account of every step. */
    method AdvanceFrom(steps: seq<Step>, i: nat, ghost base: Tree, ghost begin: nat) returns (ok: bool)
      requires Valid() && WellFormedSteps(steps) && i < |steps| && (Quiet() ==> Steady(base))
        && SoFar(ViewOf(base), steps, i)
      requires begin <= |trace| && Taken(steps, begin, i, true)
      modifies `tree, `trace, `temps, `dirs, `created, `updated, `spans
      ensures Valid() && old(trace) <= trace && (!faultsInUndo ==> temps == old(temps)) && (Quiet() ==> Steady(base))
      ensures Taken(steps, begin, i + 1, ok)
      ensures if ok then SoFar(ViewOf(base), steps, i + 1) else Stopped(ViewOf(base), steps, i)
    {
      ghost var before, book := trace, Book();
      ok := Advance(steps, i, base);
      ghost var s := Since(|before|, book);
      TakenGrows(before, trace, steps, spans, begin, s, ok, Risks());
      spans := spans + [s];
    }

    /** The writes since the loop began are those of the steps, and there is an account of each step. */
    ghost predicate Taken(steps: seq<Step>, begin: nat, k: nat, ok: bool)
      reads this`trace, this`created, this`dirs, this`updated, this`spans
    {
      |spans| == k && Logs(trace, steps, spans, begin, |trace|, Book(), ok, Risks())
    }

    /** The write loop of `apply`. Every write of the forward part creates at a free name or rewrites the very
        bytes a step decided on; on failure the journal is rolled back from moment `start` on.

        Without other writers and with working cleanup, a failure after `done` steps leaves the tree as it was,
        bytes, modes and directories, exactly when every text those steps wrote is within the read limit the
        rollback recognises it by. */
    method Apply(steps: seq<Step>) returns (outcome: Outcome, ghost start: nat, ghost done: nat)
      requires Valid() && WellFormedSteps(steps) && (Quiet() ==> Rooted(tree))
      requires created == [] && dirs == [] && updated == [] && spans == []
      modifies this
      ensures Valid() && old(trace) <= trace && (!faultsInUndo ==> temps == old(temps))
      ensures |old(trace)| <= start <= |trace| && ForwardWrites(trace, |old(trace)|, start, steps)
      ensures if outcome.Done? then start == |trace| && done == |steps|
        else RolledBack(start, outcome.undo) && done < |steps|
      ensures outcome.Done? ==> |spans| == done && Accounted(trace, steps, spans, |old(trace)|, start, Book())
      ensures outcome.Failed? ==>
        |spans| == done + 1
        && Stuck(trace, steps, spans, |old(trace)|, start, Book(), Risks())
      ensures !foreign ==> Perform(ViewOf(old(tree)), steps[..done]).Some?
      ensures Quiet() && outcome.Failed? ==>
        (ViewOf(tree) == ViewOf(old(tree)) <==> TextsFit(ViewOf(old(tree)), steps, done))
      ensures Quiet() && outcome.Failed? && TextsFit(ViewOf(old(tree)), steps, done) ==> outcome.undo == Report([])
      ensures !foreign && outcome.Done? ==> Perform(ViewOf(old(tree)), steps) == Some(ViewOf(tree))
      ensures !foreign && !faultsInApply && !faultsInGap ==>
        (outcome.Done? <==> Perform(ViewOf(old(tree)), steps).Some?)
      ensures !foreign && !faultsInApply && !faultsInGap && outcome.Failed? ==>
        Perform(ViewOf(old(tree)), steps[..done + 1]).None?
    {
      ghost var base, before := tree, trace;
      if Quiet() { TracksStart(base); }
      var ok;
      ok, done := ForwardAll(steps, base);
      if ok { return Done, |trace|, done; }
      start := |trace|;
      ghost var forward := trace;
      var undo := Rollback(base);
      ForwardLater(forward, trace, |before|, steps);
      StuckLater(forward, trace, steps, spans, |before|, start, Book(), Risks());
      return Failed(undo), start, done;
    }

    /** The steps in order, until one fails. */
    method ForwardAll(steps: seq<Step>, ghost base: Tree) returns (ok: bool, ghost done: nat)
      requires Valid() && WellFormedSteps(steps) && base == tree && (Quiet() ==> Steady(base))
      requires created == [] && dirs == [] && updated == [] && spans == []
      modifies `tree, `trace, `temps, `dirs, `created, `updated, `spans
      ensures Valid() && old(trace) <= trace && (!faultsInUndo ==> temps == old(temps)) && (Quiet() ==> Steady(base))
      ensures ForwardWrites(trace, |old(trace)|, |trace|, steps) && if ok then done == |steps| else done < |steps|
      ensures !foreign ==>
        Perform(ViewOf(base), steps[..done]).Some?
        && (AllFit(created, updated) <==> TextsFit(ViewOf(base), steps, done))
      ensures !foreign && ok ==> Perform(ViewOf(base), steps) == Some(ViewOf(tree))
      ensures !foreign && !faultsInApply && !faultsInGap ==> (ok <==> Perform(ViewOf(base), steps).Some?)
      ensures !foreign && !faultsInApply && !faultsInGap && !ok ==> Perform(ViewOf(base), steps[..done + 1]).None?
      ensures ok ==> |spans| == done && Accounted(trace, steps, spans, |old(trace)|, |trace|, Book())
      ensures !ok ==>
        |spans| == done + 1
        && Stuck(trace, steps, spans, |old(trace)|, |trace|, Book(), Risks())
    {
      ok, done := ForwardLoop(steps, base);
      assert steps[..|steps|] == steps;
      if !ok { PerformBeyond(ViewOf(base), steps, done); }
    }

    lemma NothingYet(steps: seq<Step>)
      requires created == [] && dirs == [] && updated == [] && spans == []
      ensures SoFar(ViewOf(tree), steps, 0) && Taken(steps, |trace|, 0, true)
    {
      assert steps[..0] == [];
    }

    method ForwardLoop(steps: seq<Step>, ghost base: Tree) returns (ok: bool, ghost done: nat)
      requires Valid() && WellFormedSteps(steps) && base == tree && (Quiet() ==> Steady(base))
      requires created == [] && dirs == [] && updated == [] && spans == []
      modifies `tree, `trace, `temps, `dirs, `created, `updated, `spans
      ensures Valid() && old(trace) <= trace && (!faultsInUndo ==> temps == old(temps)) && (Quiet() ==> Steady(base))
      ensures Taken(steps, |old(trace)|, if ok then done else done + 1, ok)
      ensures if ok then done == |steps| && SoFar(ViewOf(base), steps, done) else Stopped(ViewOf(base), steps, done)
    {
      var i := 0;
      ok := true;
      NothingYet(steps);
      while ok && i < |steps|
        invariant 0 <= i <= |steps|
        invariant Valid() && old(trace) <= trace && (!faultsInUndo ==> temps == old(temps))
          && (Quiet() ==> Steady(base))
        invariant Taken(steps, |old(trace)|, if ok then i else i + 1, ok)
        invariant if ok then SoFar(ViewOf(base), steps, i) else Stopped(ViewOf(base), steps, i)
        decreases |steps| - i, ok
      {
        ok := AdvanceFrom(steps, i, base, |old(trace)|);
        if ok { i := i + 1; }
      }
      done := i;
    }

    /** Step k failed: what the steps before it led to. */
    ghost predicate Stopped(v: View, steps: seq<Step>, k: nat) reads this`created, this`updated {
      k < |steps| && (!foreign ==>
        && Perform(v, steps[..k]).Some? && (AllFit(created, updated) <==> TextsFit(v, steps, k))
        && (!faultsInApply && !faultsInGap ==> Perform(v, steps[..k + 1]).None?))
    }
  }

  /** If the steps up to the k-th cannot be performed, all of them cannot. */
  lemma PerformBeyond(v: View, steps: seq<Step>, k: nat)
    requires k < |steps|
    ensures Perform(v, steps[..k]).Some? && Perform(v, steps[..k + 1]).None? ==> Perform(v, steps).None?
  {
    if Perform(v, steps[..k]).Some? && Perform(v, steps[..k + 1]).None? { PerformStops(v, steps, k + 1); }
  }

  /** One stage after another. */
  lemma ReportingJoins(was: seq<Moment>, now: seq<Moment>, begin: nat, a: seq<Turn>, b: seq<Turn>, first: seq<Record>,
                       second: seq<Record>, faults: bool, left: seq<Path>, more: seq<Path>)
    requires was <= now && Reporting(was, begin, a, first, faults, left) && |a| == |first| && NoneRaised(a)
    requires Reporting(now, |was|, b, second, faults, more)
    ensures Reporting(now, begin, a + b, first + second, faults, left + more)
    ensures NoneRaised(a + b) <==> NoneRaised(b)
  {
    LoggedJoins(was, now, begin, a, b, first, second, faults);
    if !NoneRaised(b) {
      var j :| 0 <= j < |b| && b[j].result == Raised;
      assert (a + b)[|a| + j] == b[j];
    }
  }

  lemma LoggedMore(trace: seq<Moment>, begin: nat, log: seq<Turn>, first: seq<Record>, second: seq<Record>,
                   faults: bool)
    requires Logged(trace, begin, log, first, faults)
    ensures Logged(trace, begin, log, first + second, faults)
  {
  }

  lemma UpdateTurnOk(before: seq<Moment>, trace: seq<Moment>, from: nat, u: Updated, made: Option<nat>, faults: bool)
    requires from < |before| && before <= trace && NoWrites(before, from, |before|)
    requires made.None? ==> NoWrites(trace, |before|, |trace|)
    requires made.Some? ==>
      |before| < |trace| && NoWrites(trace, |before|, |trace| - 1) && trace[|trace| - 1].act == Wrote(u.path)
    requires made.Some? ==> Replaceable(trace[|trace| - 2].tree, u.path, Some(u.id), u.written)
    requires made.Some? ==>
      trace[|trace| - 1].tree == trace[|trace| - 2].tree[u.path := Node(made.value, File(u.original, u.mode))]
    requires made.None? && !faults ==>
      exists k :: |before| <= k < |trace| && !Replaceable(trace[k].tree, u.path, Some(u.id), u.written)
    ensures TurnOk(trace, Turn(OfUpdate(u), from, |trace|, if made.Some? then Reverted else Kept), faults)
    ensures made.Some? ==> Fits(u.written)
  {
    forall i | from <= i < |before| ensures !IsWrite(trace, i) { assert !IsWrite(before, i); }
    if made.Some? {
      LongTextNeverRecognised(trace[|trace| - 2].tree[u.path].body.data, u.written);
    } else if !faults {
      var k :| |before| <= k < |trace| && !Replaceable(trace[k].tree, u.path, Some(u.id), u.written);
      assert !Intact(trace[k].tree, OfUpdate(u));
    }
  }

  // The writes of one step.

  ghost predicate LeafWrites(trace: seq<Moment>, from: nat, path: Path) {
    forall i :: from <= i && IsWrite(trace, i) ==> LeafWrite(trace, from, i, path)
  }

  ghost predicate DirWrites(trace: seq<Moment>, from: nat, path: Path) {
    forall i :: from <= i && IsWrite(trace, i) ==> DirWrite(trace, i, path)
  }

  lemma LeafStands(was: seq<Moment>, now: seq<Moment>, f: Created)
    requires |was| > 1 && was <= now && Appears(was, |was| - 1, f.path)
      && was[|was| - 1].tree[f.path] == Node(f.id, File("", LEAF_MODE))
    requires OwnWrites(now, |was|, f.path, f.id) && was[|was| - 2].act == Others && Filled(now, |was|, f)
    requires |now| == |was| + if Leads(now[|was|].tree, f.path, f.id) then 2 else 1
    ensures LeafMade(now, |was| - 2, f)
  {
    assert Appears(now, |was| - 1, f.path);
  }

  /** The data went into the leaf if the name still led to it, and nothing else happened. */
  predicate LeafStays(trace: seq<Moment>, i: nat, f: Created) {
    i < |trace| && Filled(trace, i, f) && |trace| == i + if Leads(trace[i].tree, f.path, f.id) then 2 else 1
  }

  /** How making a leaf ends, whether or not it failed. */
  lemma {:induction false} LeafOutcome(before: seq<Moment>, now: seq<Moment>, f: Created, failed: bool, undo: bool)
    requires |before| > 1 && before <= now && before[|before| - 2].act == Others
      && Appears(before, |before| - 1, f.path)
    requires before[|before| - 1].tree[f.path] == Node(f.id, File("", LEAF_MODE))
    requires OwnWrites(now, |before|, f.path, f.id)
    requires if failed then undo || !Leads(now[|now| - 1].tree, f.path, f.id)
      else LeafStays(now, |before|, f)
    ensures LeafWrites(now, |before| - 2, f.path)
    ensures if failed then LeafUndone(now, |before| - 2, f.path, undo) else LeafMade(now, |before| - 2, f)
  {
    LeafFrom(now, |before| - 2, |before| - 1, f.path, f.id);
    if failed { assert LeafGone(now, |before| - 1, f.path, f.id, undo); } else { LeafStands(before, now, f); }
  }

  lemma LeafFrom(trace: seq<Moment>, from: nat, at: nat, path: Path, id: nat)
    requires from <= at && NoWrites(trace, from, at) && Appears(trace, at, path)
      && trace[at].tree[path] == Node(id, File("", LEAF_MODE))
    requires OwnWrites(trace, at + 1, path, id)
    ensures LeafWrites(trace, from, path)
  {
  }

  lemma ViewWritten(t: Tree, path: Path, n: Node)
    ensures ViewOf(t[path := n]) == ViewOf(t)[path := n.body]
  {
  }

  /** One rewrite, in the last moment: its record names it and explains all that was written. */
  lemma {:induction false} UpdateEnds(trace: seq<Moment>, from: nat, was: Journal, u: Updated)
    requires from < |trace| && |trace| > 1 && NoWrites(trace, from, |trace| - 1)
    requires trace[|trace| - 1].act == Wrote(u.path) && Replaceable(trace[|trace| - 2].tree, u.path, None, u.original)
    requires trace[|trace| - 1].tree == trace[|trace| - 2].tree[u.path := Node(u.id, File(u.written, u.mode))]
    ensures forall i :: from <= i && IsWrite(trace, i) ==> TextWrite(trace, i, u.path, u.original, u.mode, u.written)
    ensures var s := Span(from, |trace|, was, was.(updated := was.updated + [u]));
      AllNamed(trace, s) && AllExplained(trace, s)
  {
    assert Names(trace, |trace| - 1, OfUpdate(u));
    UpdateSpan(trace, from, was, was.(updated := was.updated + [u]), u);
  }

  lemma OneCreated(c: seq<Created>, f: Created, u: seq<Updated>)
    ensures CreatedPaths(c + [f]) == CreatedPaths(c) + {f.path}
    ensures AllFit(c + [f], u) <==> AllFit(c, u) && Fits(f.written)
  {
    assert f in c + [f] && forall x :: x in c + [f] <==> x in c || x == f;
  }

  lemma OneUpdated(c: seq<Created>, u: seq<Updated>, x: Updated)
    ensures UpdatedPaths(u + [x]) == UpdatedPaths(u) + {x.path}
    ensures AllFit(c, u + [x]) <==> AllFit(c, u) && Fits(x.written)
  {
    assert x in u + [x] && forall y :: y in u + [x] <==> y in u || y == x;
  }

  /** One more directory above the path taken. */
  lemma {:induction false} DirFollows(before: seq<Moment>, now: seq<Moment>, from: nat, path: Path, k: nat,
                                      book: Journal, mid: Journal, last: Journal)
    requires before <= now && from <= |before| && 0 < k < |path|
    requires AllNamed(before, Span(from, |before|, book, mid)) && AllExplained(before, Span(from, |before|, book, mid))
    requires DirsTaken(before, from, path, k, |mid.dirs| - |book.dirs|) && last == mid.(dirs := last.dirs)
    requires DirTaken(now, |before|, path[..k], mid.dirs, last.dirs) && DirAt(now[|now| - 1].tree, path[..k])
    ensures AllNamed(now, Span(from, |now|, book, last)) && AllExplained(now, Span(from, |now|, book, last))
    ensures DirsTaken(now, from, path, k + 1, |last.dirs| - |book.dirs|)
  {
    DirSpan(now, |before|, mid, last, path[..k]);
    DirsTakenGrow(before, now, from, path, k, |mid.dirs| - |book.dirs|, mid.dirs, last.dirs);
    SpansJoin(before, now, Span(from, |before|, book, mid), Span(|before|, |now|, mid, last));
  }

  /** The next directory above the path could not be taken. */
  lemma {:induction false} DirFails(before: seq<Moment>, now: seq<Moment>, from: nat, path: Path, k: nat, book: Journal,
                                    mid: Journal, risks: Trouble)
    requires before <= now && from <= |before| && 0 < k < |path|
    requires AllNamed(before, Span(from, |before|, book, mid)) && AllExplained(before, Span(from, |before|, book, mid))
    requires DirsTaken(before, from, path, k, |mid.dirs| - |book.dirs|)
    requires DirUnrecorded(now, |before|, path[..k], risks.gap)
    requires !risks.MayFail() ==> DirRefused(now, |before|, path[..k])
    ensures AllNamed(now, Span(from, |now|, book, mid)) && AllSettled(now, Span(from, |now|, book, mid), path, risks)
    ensures !risks.MayFail() ==>
      from < |now| && now[|now| - 1].act == Others && AncestorLost(now, from, |now| - 1, path)
  {
    NothingAdded(now, |before|, mid);
    SpansJoin(before, now, Span(from, |before|, book, mid), Span(|before|, |now|, mid, mid));
    DirSettled(now, |before|, mid, path, k, risks);
    SettledJoins(before, now, Span(from, |before|, book, mid), Span(|before|, |now|, mid, mid), path, risks);
    if !risks.MayFail() { LostHere(before, now, from, path, k, |mid.dirs| - |book.dirs|); }
  }

  /** A leaf made after its directories: the account of both together. */
  lemma {:induction false} LeafEnd(before: seq<Moment>, now: seq<Moment>, from: nat, path: Path, book: Journal,
                                   mid: Journal, f: Created)
    requires before <= now && 0 < from <= |before| && path != [] && f.path == path && mid.created == book.created
    requires DirWrites(before, from, path) && DirsTaken(before, from, path, |path|, |mid.dirs| - |book.dirs|)
    requires AllNamed(before, Span(from, |before|, book, mid)) && AllExplained(before, Span(from, |before|, book, mid))
    requires LeafMade(now, |before|, f)
    ensures var s := Span(from, |now|, book, mid.(created := mid.created + [f]));
      AllNamed(now, s) && AllExplained(now, s) && LeafEnds(now, s, f, from)
  {
    var last := mid.(created := mid.created + [f]);
    LeafSpan(now, |before|, mid, last, f);
    NotWrittenAbove(before, from, path);
    SpansJoin(before, now, Span(from, |before|, book, mid), Span(|before|, |now|, mid, last));
  }

  /** A leaf that could not be made after its directories. */
  lemma {:induction false} LeafMissing(before: seq<Moment>, now: seq<Moment>, from: nat, path: Path, book: Journal,
                                       mid: Journal, risks: Trouble)
    requires before <= now && 0 < from <= |before| && path != []
    requires DirWrites(before, from, path) && DirsTaken(before, from, path, |path|, |mid.dirs| - |book.dirs|)
    requires AllNamed(before, Span(from, |before|, book, mid)) && AllExplained(before, Span(from, |before|, book, mid))
    requires LeafUndone(now, |before|, path, risks.undo)
    requires !risks.apply ==> LeafBlocked(now, |before|, path, risks.spoils)
    ensures AllNamed(now, Span(from, |now|, book, mid)) && AllSettled(now, Span(from, |now|, book, mid), path, risks)
    ensures !risks.apply ==> Blocked(now, from, |now|, path, risks.spoils)
  {
    NothingAdded(now, |before|, mid);
    SpansJoin(before, now, Span(from, |before|, book, mid), Span(|before|, |now|, mid, mid));
    LeafSettled(now, |before|, mid, path, risks);
    SettledJoins(before, now, Span(from, |before|, book, mid), Span(|before|, |now|, mid, mid), path, risks);
    if !risks.apply {
      NotWrittenAbove(before, from, path);
      LeafBlocks(before, now, from, path, |mid.dirs| - |book.dirs|, risks.spoils);
    }
  }

  /** While directories above it are made, nothing is written at the path itself. */
  lemma NotWrittenAbove(trace: seq<Moment>, from: nat, path: Path)
    requires from > 0 && DirWrites(trace, from, path)
    ensures forall i :: from <= i < |trace| ==> trace[i].act != Wrote(path)
  {
    forall i | from <= i < |trace| ensures trace[i].act != Wrote(path) {
      if trace[i].act.Wrote? { assert IsWrite(trace, i); }
    }
  }

  lemma DirWritesGrow(was: seq<Moment>, now: seq<Moment>, from: nat, path: Path, k: nat)
    requires was <= now && 0 < k < |path| && DirWrites(was, from, path)
    requires forall i ::
      |was| <= i && IsWrite(now, i) ==> Appears(now, i, path[..k]) && now[i].tree[path[..k]].body == Dir
    ensures DirWrites(now, from, path)
  {
    forall i | from <= i && IsWrite(now, i) ensures DirWrite(now, i, path) {
      if i < |was| { assert IsWrite(was, i); }
      assert path[..k] in Ancestors(path);
    }
  }

  lemma CreationJoins(was: seq<Moment>, now: seq<Moment>, from: nat, path: Path)
    requires was <= now && from <= |was| && DirWrites(was, from, path) && LeafWrites(now, |was|, path)
    ensures CreationWrites(now, from, path)
  {
    forall i | from <= i && IsWrite(now, i) ensures DirWrite(now, i, path) || LeafWrite(now, from, i, path) {
      if i < |was| { assert IsWrite(was, i); }
    }
  }

  lemma CreationIsStep(was: seq<Moment>, now: seq<Moment>, from: nat, s: Step)
    requires was <= now && from <= |was| && NoWrites(was, from, |was|) && CreationWrites(now, |was|, s.path)
    ensures StepWrites(now, from, s)
  {
    forall i | from <= i && IsWrite(now, i) ensures StepWrite(now, from, i, s) {
      if i < |was| { assert IsWrite(was, i); }
    }
  }

  lemma RewriteIsStep(was: seq<Moment>, now: seq<Moment>, from: nat, k: nat, s: Step)
    requires was <= now && from <= k < |was| && NoWrites(was, from, |was|) && was[k].act == Looked(s.path)
    requires var d := s.decide(ViewOf(was[k].tree));
      d.Rewrite? && forall i :: |was| <= i && IsWrite(now, i) ==> TextWrite(now, i, s.path, d.original, d.mode, d.text)
    ensures StepWrites(now, from, s)
  {
    forall i | from <= i && IsWrite(now, i) ensures StepWrite(now, from, i, s) {
      if i < |was| {
        assert IsWrite(was, i);
      } else {
        assert RewriteAt(now, k, i, s);
      }
    }
  }

  /** A rewrite behind its look, whether or not it was refused. */
  lemma {:induction false} RewriteEnds(looked: seq<Moment>, trace: seq<Moment>, from: nat, s: Step, was: Journal,
                                       now: Journal, ok: bool, id: nat, risks: Trouble)
    requires looked <= trace && 0 < from && |looked| == from + 2 && looked[from].act == Others
      && looked[from + 1].act == Looked(s.path) && s.decide(ViewOf(looked[from + 1].tree)).Rewrite?
    requires AllNamed(trace, Span(|looked|, |trace|, was, now))
      && AllExplained(trace, Span(|looked|, |trace|, was, now))
    requires var d := s.decide(ViewOf(looked[from + 1].tree));
      && (forall i :: |looked| <= i && IsWrite(trace, i) ==> TextWrite(trace, i, s.path, d.original, d.mode, d.text))
      && now == (if ok then was.(updated := was.updated + [Updated(s.path, d.original, d.mode, d.text, id)]) else was)
      && (!ok && !risks.apply ==> Balked(trace, |looked|, s.path, None, d.original))
    ensures StepWrites(trace, from, s)
    ensures ok ==> WentThrough(trace, s, Span(from, |trace|, was, now))
    ensures !ok ==> FellShort(trace, s, Span(from, |trace|, was, now), risks)
  {
    RewriteIsStep(looked, trace, from, from + 1, s);
    RewriteAccount(looked, trace, from, s, was, now, ok, risks);
  }

  lemma LastUpdate(t: Tree, base: Tree, c: seq<Created>, d: seq<MadeDir>, u: seq<Updated>)
    requires u != [] && Tracks(t, base, c, d, u) && Fits(u[|u| - 1].written)
    ensures var x := u[|u| - 1];
      && Replaceable(t, x.path, Some(x.id), x.written)
      && forall id: nat :: Tracks(t[x.path := Node(id, File(x.original, x.mode))], base, c, d, u[..|u| - 1])
  {
    var x := u[|u| - 1];
    assert x in u && x.path in UpdatedPaths(u) && DirsAbove(t, x.path);
    forall id: nat
      ensures Tracks(t[x.path := Node(id, File(x.original, x.mode))], base, c, d, u[..|u| - 1])
    {
      PopUpdated(t, base, c, d, u, id);
    }
  }

  lemma LastDir(t: Tree, base: Tree, d: seq<MadeDir>)
    requires d != [] && Tracks(t, base, [], d, [])
    ensures Removable(t, d[|d| - 1]) && Tracks(t - {d[|d| - 1].path}, base, [], d[..|d| - 1], [])
  {
    assert d[|d| - 1] in d;
    PopDir(t, base, d);
  }

  lemma LastCreated(t: Tree, base: Tree, c: seq<Created>, d: seq<MadeDir>)
    requires c != [] && Tracks(t, base, c, d, []) && Fits(c[|c| - 1].written)
    ensures var x := c[|c| - 1];
      && Replaceable(t, x.path, Some(x.id), x.written)
      && Tracks(t - {x.path}, base, c[..|c| - 1], d, [])
  {
    var x := c[|c| - 1];
    assert x in c && x.path in CreatedPaths(c) && DirsAbove(t, x.path);
    PopCreated(t, base, c, d, []);
  }

  // What the report of a failed run means for its writes.

  /** Every record of a failed run names a write of its forward part. */
  lemma {:induction false} RecordsOfFailure(trace: seq<Moment>, steps: seq<Step>, spans: seq<Span>, begin: nat,
                                            end: nat, book: Journal, risks: Trouble)
    requires Stuck(trace, steps, spans, begin, end, book, risks) && begin <= |trace|
    ensures AllNamed(trace, Span(begin, end, NOTHING, book))
  {
    var n := |spans| - 1;
    RecordsNameWrites(trace, steps, spans[..n], begin, spans[n].from, spans[n].was);
    SpansJoin(trace, trace, Span(begin, spans[n].from, NOTHING, spans[n].was), spans[n]);
  }

  lemma {:induction false} PlaceOf(book: Journal, r: Record) returns (t: nat)
    requires Added(NOTHING, book, r)
    ensures t < |Records(book.created, book.dirs, book.updated)|
      && Records(book.created, book.dirs, book.updated)[t] == r
  {
    match r
    case OfUpdate(u) =>
      var k :| 0 <= k < |book.updated| && book.updated[k] == u;
      t := |book.updated| - 1 - k;
    case OfFile(f) =>
      var k :| 0 <= k < |book.created| && book.created[k] == f;
      t := |book.updated| + |book.created| - 1 - k;
    case OfDir(d) =>
      var k :| 0 <= k < |book.dirs| && book.dirs[k] == d;
      t := |book.updated| + |book.created| + |book.dirs| - 1 - k;
  }

  /** Every write of a failed run has its record in the journal at the end, but for those of the step that failed
      which need none. */
  lemma {:induction false} RecordOfWrite(trace: seq<Moment>, steps: seq<Step>, spans: seq<Span>, begin: nat, start: nat,
                                         book: Journal, risks: Trouble, i: nat)
    requires Stuck(trace, steps, spans, begin, start, book, risks) && begin <= |trace|
    requires begin <= i < start && IsWrite(trace, i)
    ensures var n := |spans| - 1;
      Unrecorded(trace, spans[n], steps[n].path, i, risks) || exists r ::
        Added(NOTHING, book, r) && Explains(trace, i, r)
  {
    var n := |spans| - 1;
    var r: Record;
    if i < spans[n].from {
      RecordsNameWrites(trace, steps, spans[..n], begin, spans[n].from, spans[n].was);
      assert Explained(trace, Span(begin, spans[n].from, NOTHING, spans[n].was), i);
      r :| Added(NOTHING, spans[n].was, r) && Explains(trace, i, r);
      AddedJoins(NOTHING, spans[n].was, book, r);
    } else {
      assert Settled(trace, spans[n], steps[n].path, i, risks);
      if Explained(trace, spans[n], i) {
        r :| Added(spans[n].was, book, r) && Explains(trace, i, r);
        AddedJoins(NOTHING, spans[n].was, book, r);
      }
    }
  }

  /** In every failed run with an empty report, each write has a record whose turn undid it, or found the file or
      directory gone; or it is one of the step that failed, of a directory that could not be recorded or of a leaf
      made in vain. */
  lemma {:induction false} EmptyReportUndoesAll(trace: seq<Moment>, steps: seq<Step>, spans: seq<Span>, begin: nat,
        start: nat, book: Journal, risks: Trouble, turns: seq<Turn>, i: nat)
    requires Stuck(trace, steps, spans, begin, start, book, risks) && begin <= |trace|
    requires Logged(trace, start + 1, turns, Records(book.created, book.dirs, book.updated), risks.undo)
    requires |turns| == |Records(book.created, book.dirs, book.updated)| && NoneRaised(turns) && KeptPaths(turns) == []
    requires begin <= i < start && IsWrite(trace, i)
    ensures var n := |spans| - 1;
      || Unrecorded(trace, spans[n], steps[n].path, i, risks)
      || exists t :: 0 <= t < |turns| && Explains(trace, i, turns[t].record) && Undone(trace, turns[t])
  {
    RecordOfWrite(trace, steps, spans, begin, start, book, risks, i);
    RecordUndone(trace, start + 1, book, turns, risks.undo, i);
  }

  lemma {:induction false} RecordUndone(trace: seq<Moment>, begin: nat, book: Journal, turns: seq<Turn>, faults: bool,
                                        i: nat)
    requires Logged(trace, begin, turns, Records(book.created, book.dirs, book.updated), faults) && begin > 0
    requires |turns| == |Records(book.created, book.dirs, book.updated)| && NoneRaised(turns) && KeptPaths(turns) == []
    ensures (exists r :: Added(NOTHING, book, r) && Explains(trace, i, r)) ==>
      exists t :: 0 <= t < |turns| && Explains(trace, i, turns[t].record) && Undone(trace, turns[t])
  {
    if r :| Added(NOTHING, book, r) && Explains(trace, i, r) {
      var t := PlaceOf(book, r);
      UndoneAt(trace, begin, turns, Records(book.created, book.dirs, book.updated), faults, t);
    }
  }

  lemma {:induction false} UndoneAt(trace: seq<Moment>, begin: nat, turns: seq<Turn>, recs: seq<Record>, faults: bool,
                                    t: nat)
    requires Logged(trace, begin, turns, recs, faults) && |turns| == |recs| && begin > 0
    requires NoneRaised(turns) && KeptPaths(turns) == [] && t < |turns|
    ensures turns[t].record == recs[t] && Undone(trace, turns[t])
  {
    EmptyReportMeans(trace, begin, turns, recs, faults);
  }
}

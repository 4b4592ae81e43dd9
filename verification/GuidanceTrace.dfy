/** What a run of the guidance transaction leaves behind: every state of the tree in order, who brought it
about, and what the rollback did with each record. */
module GuidanceTrace {
  import opened Basics
  import opened GuidanceTree

  /** What led to a moment. Looks leave the tree alone. */
  datatype Act = Others | Looked(path: Path) | Wrote(path: Path) | RollbackStarted

  datatype Moment = Moment(act: Act, tree: Tree)

  /** What others make of the tree at a moment: any function, and no choice of this process. */
  type World = (nat, Tree) -> Tree

  function Disturbed(world: World, foreign: bool, n: nat, t: Tree): Tree { if foreign then world(n, t) else t }

  /** Moment i follows from the one before. */
  predicate Follows(trace: seq<Moment>, i: nat, world: World, foreign: bool)
    requires 0 < i < |trace|
  {
    var a, b := trace[i - 1].tree, trace[i].tree;
    match trace[i].act
    case Others => b == Disturbed(world, foreign, i, a)
    case Wrote(p) => b - {p} == a - {p}
    case _ => b == a
  }

  ghost predicate Linked(trace: seq<Moment>, world: World, foreign: bool) {
    trace != [] && forall i {:trigger Follows(trace, i, world, foreign)} ::
      0 < i < |trace| ==> Follows(trace, i, world, foreign)
  }

  lemma LinkedGrows(trace: seq<Moment>, m: Moment, world: World, foreign: bool)
    requires Linked(trace, world, foreign) && Follows(trace + [m], |trace|, world, foreign)
    ensures Linked(trace + [m], world, foreign)
  {
    var now := trace + [m];
    forall i | 0 < i < |now| ensures Follows(now, i, world, foreign) {
      if i < |trace| { assert Follows(trace, i, world, foreign); }
    }
  }

  predicate IsWrite(trace: seq<Moment>, i: nat) { 0 < i < |trace| && trace[i].act.Wrote? }

  ghost predicate NoWrites(trace: seq<Moment>, from: nat, upto: nat) {
    forall i :: from <= i < upto ==> !IsWrite(trace, i)
  }

  // Looking.

  datatype Look = Absent | Unsafe | Found(node: Node)

  function LookAt(t: Tree, path: Path): Look {
    if path == [] || !DirsAbove(t, path) then Unsafe
    else if path !in t then Absent
    else if t[path].body.File? then Found(t[path])
    else Unsafe
  }

  predicate Replaceable(t: Tree, path: Path, expectId: Option<nat>, expected: string) {
    var look := LookAt(t, path);
    look.Found? && (expectId.Some? ==> look.node.id == expectId.value) && Recognised(look.node.body.data, expected)
  }

  predicate Creatable(t: Tree, path: Path) { path != [] && path !in t && DirsAbove(t, path) }

  predicate Removable(t: Tree, d: MadeDir) {
    d.path != [] && d.path in t && DirsAbove(t, d.path) && t[d.path] == Node(d.id, Dir) && NothingBelow(t, d.path)
  }

  /** The last check before a created file is removed: its identity, not its bytes. */
  predicate StillOwn(t: Tree, f: Created) {
    DirsAbove(t, f.path) && f.path in t && t[f.path].id == f.id && t[f.path].body != Dir
  }

  // Undoing one record.

  datatype Record = OfUpdate(u: Updated) | OfFile(f: Created) | OfDir(d: MadeDir)

  function RecordPath(r: Record): Path {
    match r
    case OfUpdate(u) => u.path
    case OfFile(f) => f.path
    case OfDir(d) => d.path
  }

  /** The record is still what this process left. */
  predicate Intact(t: Tree, r: Record) {
    match r
    case OfUpdate(u) => Replaceable(t, u.path, Some(u.id), u.written)
    case OfFile(f) => Replaceable(t, f.path, Some(f.id), f.written)
    case OfDir(d) => Removable(t, d)
  }

  /** The inode of this number is at the path, below real directories, and holds this. */
  predicate HoldsNode(t: Tree, path: Path, id: nat, data: string) {
    && DirsAbove(t, path) && path in t && t[path].id == id && t[path].body.File? && t[path].body.data == data
  }

  predicate HoldsEmptyDir(t: Tree, path: Path, id: nat) {
    && DirsAbove(t, path) && path in t && t[path] == Node(id, Dir)
    && forall q :: q in t && path <= q ==> q == path
  }

  /** For texts within the limit intact means: the very inode holds the very bytes, or the very directory is empty. */
  lemma IntactMeans(t: Tree, r: Record)
    requires RecordPath(r) != []
    ensures match r
      case OfUpdate(u) => |u.written| <= MAX_FILE_BYTES ==> (Intact(t, r) <==> HoldsNode(t, u.path, u.id, u.written))
      case OfFile(f) => |f.written| <= MAX_FILE_BYTES ==> (Intact(t, r) <==> HoldsNode(t, f.path, f.id, f.written))
      case OfDir(d) => Intact(t, r) <==> HoldsEmptyDir(t, d.path, d.id)
  {
  }

  /** The write at moment i undoes the record: it restores an update over the very inode and bytes written, or
      removes a created file whose bytes were looked at two moments before, or removes an empty directory. */
  ghost predicate Undoes(trace: seq<Moment>, from: nat, i: nat, r: Record) {
    && IsWrite(trace, i) && trace[i].act == Wrote(RecordPath(r))
    && var a, b := trace[i - 1].tree, trace[i].tree;
      match r
      case OfUpdate(u) => Intact(a, r) && u.path in b && b[u.path].body == File(u.original, u.mode)
      case OfFile(f) =>
        && b == a - {f.path} && StillOwn(a, f)
        && from <= i - 2 && trace[i - 2].act == Looked(f.path) && Intact(trace[i - 2].tree, r)
          && trace[i - 1].act == Others
      case OfDir(d) => Intact(a, r) && b == a - {d.path}
  }

  ghost predicate FoundGone(trace: seq<Moment>, k: nat, path: Path) {
    k < |trace| && trace[k].act == Looked(path) && path != [] && path !in trace[k].tree
      && DirsAbove(trace[k].tree, path)
  }

  /** How undoing one record ended: done, already gone, left in place and reported, or an error that ends the
      rollback. */
  datatype Result = Reverted | Gone | Kept | Raised

  /** The moments of one record's turn. */
  datatype Turn = Turn(record: Record, from: nat, upto: nat, result: Result)

  /** At some moment of the turn the record was no longer what this process left; for a created file that is the
      look at its bytes or the one at its identity that follows. A file or directory found gone is no reason. */
  ghost predicate Refused(trace: seq<Moment>, t: Turn) {
    match t.record
    case OfFile(f) =>
      && t.from + 2 <= t.upto <= |trace| && trace[t.from + 1].act == Looked(f.path)
      && !FoundGone(trace, t.from + 1, f.path)
      && (Intact(trace[t.from + 1].tree, t.record) ==>
          t.from + 2 < t.upto && trace[t.from + 2].act == Others && !StillOwn(trace[t.from + 2].tree, f))
    case OfDir(d) => exists k :: t.from <= k < t.upto <= |trace| && BarredAt(trace, k, d)
    case OfUpdate(_) => exists k :: t.from <= k < t.upto <= |trace| && !Intact(trace[k].tree, t.record)
  }

  /** A look at the path of a recorded directory showed something else. */
  ghost predicate BarredAt(trace: seq<Moment>, k: nat, d: MadeDir) {
    k < |trace| && trace[k].act == Looked(d.path) && !Intact(trace[k].tree, OfDir(d)) && !FoundGone(trace, k, d.path)
  }

  /** The trace bears the result out. Without faults a record is left in place only for a reason. */
  ghost predicate TurnOk(trace: seq<Moment>, t: Turn, faults: bool) {
    && t.from <= t.upto <= |trace|
    && match t.result
       case Reverted =>
         && t.from < t.upto && NoWrites(trace, t.from, t.upto - 1) && Undoes(trace, t.from, t.upto - 1, t.record)
         && (t.record.OfFile? ==> t.upto == t.from + 4)
       case Gone => t.from < t.upto && NoWrites(trace, t.from, t.upto) && !t.record.OfUpdate?
         && FoundGone(trace, t.upto - 1, RecordPath(t.record))
       case Kept => NoWrites(trace, t.from, t.upto) && (faults || Refused(trace, t))
       case Raised => NoWrites(trace, t.from, t.upto) && faults
  }

  lemma TurnLater(was: seq<Moment>, now: seq<Moment>, t: Turn, faults: bool)
    requires was <= now && TurnOk(was, t, faults)
    ensures TurnOk(now, t, faults)
  {
    assert forall i :: t.from <= i < t.upto ==> IsWrite(was, i) == IsWrite(now, i);
    if t.result == Kept && !faults && t.record.OfUpdate? {
      var k :| t.from <= k < t.upto && !Intact(was[k].tree, t.record);
      assert !Intact(now[k].tree, t.record);
    }
    if t.result == Kept && !faults && t.record.OfDir? {
      var k :| t.from <= k < t.upto && BarredAt(was, k, t.record.d);
      assert BarredAt(now, k, t.record.d);
    }
  }

  // A whole rollback.

  /** The turns are those of the leading records, one after the other, and cover the trace from `begin` on. */
  ghost predicate Logged(trace: seq<Moment>, begin: nat, turns: seq<Turn>, recs: seq<Record>, faults: bool) {
    && |turns| <= |recs| && Chain(turns, begin, |trace|)
    && (forall j :: 0 <= j < |turns| ==> turns[j].record == recs[j])
    && forall j {:trigger TurnOk(trace, turns[j], faults)} :: 0 <= j < |turns| ==> TurnOk(trace, turns[j], faults)
  }

  predicate Chain(turns: seq<Turn>, begin: nat, end: nat) {
    if turns == [] then begin == end
    else
      var last := turns[|turns| - 1];
      last.from <= last.upto == end && Chain(turns[..|turns| - 1], begin, last.from)
  }

  lemma LoggedGrows(was: seq<Moment>, now: seq<Moment>, begin: nat, turns: seq<Turn>, recs: seq<Record>, faults: bool,
                    t: Turn)
    requires Logged(was, begin, turns, recs, faults) && was <= now && |turns| < |recs|
    requires TurnOk(now, t, faults) && t.record == recs[|turns|] && t.from == |was| && t.upto == |now|
    ensures Logged(now, begin, turns + [t], recs, faults)
  {
    var more := turns + [t];
    assert more[..|turns|] == turns;
    forall j | 0 <= j < |more| ensures more[j].record == recs[j] && TurnOk(now, more[j], faults) {
      if j < |turns| { TurnLater(was, now, turns[j], faults); }
    }
  }

  /** The turn a moment belongs to. */
  lemma {:induction false} TurnAt(turns: seq<Turn>, begin: nat, end: nat, i: nat) returns (j: nat)
    requires Chain(turns, begin, end) && begin <= i < end
    ensures j < |turns| && turns[j].from <= i < turns[j].upto
  {
    var last := turns[|turns| - 1];
    if last.from <= i {
      j := |turns| - 1;
    } else {
      j := TurnAt(turns[..|turns| - 1], begin, last.from, i);
    }
  }

  lemma {:induction false} ChainOrders(turns: seq<Turn>, begin: nat, end: nat)
    requires Chain(turns, begin, end)
    ensures begin <= end && forall j :: 0 <= j < |turns| ==> begin <= turns[j].from
  {
    if turns != [] { ChainOrders(turns[..|turns| - 1], begin, turns[|turns| - 1].from); }
  }

  /** Every write of a rollback undoes one recorded change, on what this process recorded. */
  lemma WritesUndo(trace: seq<Moment>, begin: nat, turns: seq<Turn>, recs: seq<Record>, faults: bool, i: nat)
    returns (j: nat)
    requires Logged(trace, begin, turns, recs, faults) && begin <= i && IsWrite(trace, i)
    ensures j < |turns| && recs[j] == turns[j].record && turns[j].result == Reverted && begin <= turns[j].from
      && Undoes(trace, turns[j].from, i, recs[j])
  {
    j := TurnAt(turns, begin, |trace|, i);
    ChainOrders(turns, begin, |trace|);
    assert TurnOk(trace, turns[j], faults);
  }

  function KeptPaths(turns: seq<Turn>): seq<Path> {
    if turns == [] then []
    else
      var last := turns[|turns| - 1];
      KeptPaths(turns[..|turns| - 1]) + if last.result == Kept then [RecordPath(last.record)] else []
  }

  lemma {:induction false} NothingKept(turns: seq<Turn>)
    ensures KeptPaths(turns) == [] <==> forall j :: 0 <= j < |turns| ==> turns[j].result != Kept
  {
    if turns != [] {
      NothingKept(turns[..|turns| - 1]);
      assert forall j :: 0 <= j < |turns| - 1 ==> turns[..|turns| - 1][j] == turns[j];
    }
  }

  /** An empty report means that every record was undone, or found gone at a look of its own turn. */
  lemma EmptyReportMeans(trace: seq<Moment>, begin: nat, turns: seq<Turn>, recs: seq<Record>, faults: bool)
    requires Logged(trace, begin, turns, recs, faults) && |turns| == |recs| && begin > 0
    requires forall j :: 0 <= j < |turns| ==> turns[j].result != Raised
    ensures KeptPaths(turns) == [] <==> forall j :: 0 <= j < |recs| ==> Undone(trace, turns[j])
  {
    NothingKept(turns);
    ChainOrders(turns, begin, |trace|);
    forall j | 0 <= j < |recs| ensures turns[j].result != Kept <==> Undone(trace, turns[j]) {
      TurnDecides(trace, turns[j], faults);
    }
  }

  ghost predicate Undone(trace: seq<Moment>, t: Turn) {
    0 < t.from < t.upto <= |trace| && (Undoes(trace, t.from, t.upto - 1, t.record)
      || (!t.record.OfUpdate? && t.result == Gone && FoundGone(trace, t.upto - 1, RecordPath(t.record))))
  }

  lemma TurnDecides(trace: seq<Moment>, t: Turn, faults: bool)
    requires TurnOk(trace, t, faults) && t.result != Raised && 0 < t.from
    ensures t.result != Kept <==> Undone(trace, t)
  {
    if t.result == Kept && t.from < t.upto { assert !IsWrite(trace, t.upto - 1); }
  }

  ghost predicate NoneRaised(turns: seq<Turn>) { forall j :: 0 <= j < |turns| ==> turns[j].result != Raised }

  /** The loop of a rollback stage: what is logged, what is reported. */
  ghost predicate Reporting(trace: seq<Moment>, begin: nat, log: seq<Turn>, recs: seq<Record>, faults: bool,
                            incomplete: seq<Path>) {
    Logged(trace, begin, log, recs, faults) && incomplete == KeptPaths(log)
  }

  lemma ReportingGrows(was: seq<Moment>, now: seq<Moment>, begin: nat, log: seq<Turn>, recs: seq<Record>, faults: bool,
                       incomplete: seq<Path>, t: Turn)
    requires Reporting(was, begin, log, recs, faults, incomplete) && NoneRaised(log) && was <= now && |log| < |recs|
    requires TurnOk(now, t, faults) && t.record == recs[|log|] && t.from == |was| && t.upto == |now|
    ensures Reporting(now, begin, log + [t], recs, faults,
      if t.result == Kept then incomplete + [RecordPath(t.record)] else incomplete)
    ensures NoneRaised(log + [t]) <==> t.result != Raised
  {
    LoggedGrows(was, now, begin, log, recs, faults, t);
    var more := log + [t];
    assert more[..|log|] == log && more[|log|] == t;
  }

  lemma {:induction false} ChainJoins(a: seq<Turn>, b: seq<Turn>, begin: nat, mid: nat, end: nat)
    requires Chain(a, begin, mid) && Chain(b, mid, end)
    ensures Chain(a + b, begin, end)
  {
    if b == [] {
      assert a + b == a;
    } else {
      var last := b[|b| - 1];
      ChainJoins(a, b[..|b| - 1], begin, mid, last.from);
      assert (a + b)[..|a + b| - 1] == a + b[..|b| - 1];
    }
  }

  lemma {:induction false} KeptJoins(a: seq<Turn>, b: seq<Turn>)
    ensures KeptPaths(a + b) == KeptPaths(a) + KeptPaths(b)
  {
    if b == [] {
      assert a + b == a;
    } else {
      KeptJoins(a, b[..|b| - 1]);
      assert (a + b)[..|a + b| - 1] == a + b[..|b| - 1];
    }
  }

  /** One stage of the rollback after another. */
  lemma LoggedJoins(was: seq<Moment>, now: seq<Moment>, begin: nat, a: seq<Turn>, b: seq<Turn>, first: seq<Record>,
                    second: seq<Record>, faults: bool)
    requires was <= now && Logged(was, begin, a, first, faults) && |a| == |first|
      && Logged(now, |was|, b, second, faults)
    ensures Logged(now, begin, a + b, first + second, faults) && KeptPaths(a + b) == KeptPaths(a) + KeptPaths(b)
  {
    ChainJoins(a, b, begin, |was|, |now|);
    KeptJoins(a, b);
    var all := a + b;
    forall j | 0 <= j < |all| ensures all[j].record == (first + second)[j] && TurnOk(now, all[j], faults) {
      if j < |a| { TurnLater(was, now, a[j], faults); }
    }
  }

  // What the guards mean for the bytes they guard.

  function Content(n: Node): Option<string> { if n.body.File? then Some(n.body.data) else None }

  /** The same inode holds other bytes than before. */
  predicate EditedInPlace(a: Tree, b: Tree, p: Path) {
    p in a && p in b && a[p].id == b[p].id && Content(a[p]) != Content(b[p])
  }

  lemma BoundedLength(data: string)
    ensures |Bounded(data)| == if |data| <= MAX_FILE_BYTES + 1 then |data| else MAX_FILE_BYTES + 1
  {
  }

  /** In every run: the bytes a rollback removes differ from the ones it looked at exactly when others edited
      the file in place between the look and the removal. What it looked at differs from what was written
      exactly when the file outgrew the bounded read. */
  lemma RemovalLosesEdit(trace: seq<Moment>, world: World, foreign: bool, from: nat, i: nat, f: Created)
    requires Linked(trace, world, foreign) && Undoes(trace, from, i, OfFile(f))
    ensures var looked, removed := Content(trace[i - 2].tree[f.path]), Content(trace[i - 1].tree[f.path]);
      && trace[i - 1].tree == Disturbed(world, foreign, i - 1, trace[i - 2].tree)
      && (removed != looked <==> EditedInPlace(trace[i - 2].tree, trace[i - 1].tree, f.path))
      && (looked != Some(f.written) <==> |looked.value| > MAX_FILE_BYTES + 1)
      && (|f.written| <= MAX_FILE_BYTES ==>
        (removed != Some(f.written) <==> EditedInPlace(trace[i - 2].tree, trace[i - 1].tree, f.path)))
  {
    assert Follows(trace, i - 1, world, foreign);
    BoundedLength(trace[i - 2].tree[f.path].body.data);
  }

  /** A restore overwrites bytes other than the written ones exactly when the file outgrew the bounded read. */
  lemma RestoreSeesWritten(trace: seq<Moment>, from: nat, i: nat, u: Updated)
    requires Undoes(trace, from, i, OfUpdate(u))
    ensures var n := trace[i - 1].tree[u.path];
      n.id == u.id && n.body.File? && (n.body.data != u.written <==> |n.body.data| > MAX_FILE_BYTES + 1)
  {
    BoundedLength(trace[i - 1].tree[u.path].body.data);
  }

  /** A written text beyond the read limit is never recognised again, whatever the file now holds. */
  lemma LongTextNeverRecognised(data: string, written: string)
    ensures Recognised(data, written) ==> Fits(written)
    ensures Fits(written) ==> Recognised(written, written)
  {
    assert |Bounded(data)| <= MAX_FILE_BYTES + 1;
  }

  // The forward part.

  predicate Appears(trace: seq<Moment>, i: nat, p: Path) {
    IsWrite(trace, i) && trace[i].act == Wrote(p) && Creatable(trace[i - 1].tree, p) && p in trace[i].tree
  }

  /** Makes a missing directory above `path`. */
  predicate DirWrite(trace: seq<Moment>, i: nat, path: Path) {
    && IsWrite(trace, i)
    && var p := trace[i].act.path;
      p in Ancestors(path) && Appears(trace, i, p) && trace[i].tree[p].body == Dir
  }

  /** Makes the file where there is none, or fills or withdraws the inode made there since `from`. */
  ghost predicate LeafWrite(trace: seq<Moment>, from: nat, i: nat, path: Path) {
    && IsWrite(trace, i) && trace[i].act == Wrote(path)
    && ((Appears(trace, i, path) && trace[i].tree[path].body == File("", LEAF_MODE))
        || exists k ::
          from <= k < i && Appears(trace, k, path)
          && OwnChange(trace[i - 1].tree, trace[i].tree, path, trace[k].tree[path].id))
  }

  predicate OwnChange(a: Tree, b: Tree, path: Path, id: nat) {
    path in a && a[path].id == id && (path in b ==> b[path].id == id)
  }

  /** Replaces a regular file whose bytes a bounded read takes for `original`. */
  predicate TextWrite(trace: seq<Moment>, i: nat, path: Path, original: string, mode: nat, text: string) {
    && IsWrite(trace, i) && trace[i].act == Wrote(path)
    && LookAt(trace[i - 1].tree, path).Found? && Recognised(trace[i - 1].tree[path].body.data, original)
    && path in trace[i].tree && trace[i].tree[path].body == File(text, mode)
  }

  /** A write of this step: a creation at a free name, or the rewrite decided on at a look of the same step. */
  ghost predicate StepWrite(trace: seq<Moment>, from: nat, i: nat, s: Step) {
    || DirWrite(trace, i, s.path) || LeafWrite(trace, from, i, s.path)
    || exists k :: from <= k < i && k < |trace| && trace[k].act == Looked(s.path) && RewriteAt(trace, k, i, s)
  }

  ghost predicate RewriteAt(trace: seq<Moment>, k: nat, i: nat, s: Step)
    requires k < |trace|
  {
    var d := s.decide(ViewOf(trace[k].tree));
    d.Rewrite? && TextWrite(trace, i, s.path, d.original, d.mode, d.text)
  }

  ghost predicate CreationWrites(trace: seq<Moment>, from: nat, path: Path) {
    forall i :: from <= i && IsWrite(trace, i) ==> DirWrite(trace, i, path) || LeafWrite(trace, from, i, path)
  }

  ghost predicate StepWrites(trace: seq<Moment>, from: nat, s: Step) {
    forall i :: from <= i && IsWrite(trace, i) ==> StepWrite(trace, from, i, s)
  }

  /** If moment i is a write, it belongs to one of the steps. */
  ghost predicate Belongs(trace: seq<Moment>, from: nat, i: nat, steps: seq<Step>) {
    IsWrite(trace, i) ==> exists j, n :: 0 <= j < |steps| && from <= n <= i && StepWrite(trace, n, i, steps[j])
  }

  /** Every write from `from` to `upto` belongs to one of the steps. */
  ghost predicate ForwardWrites(trace: seq<Moment>, from: nat, upto: nat, steps: seq<Step>) {
    forall i {:trigger Belongs(trace, from, i, steps)} :: from <= i < upto ==> Belongs(trace, from, i, steps)
  }

  lemma StepWriteLater(was: seq<Moment>, now: seq<Moment>, from: nat, i: nat, s: Step)
    requires was <= now && i < |was| && StepWrite(was, from, i, s)
    ensures StepWrite(now, from, i, s)
  {
    if LeafWrite(was, from, i, s.path)
      && !(Appears(was, i, s.path) && was[i].tree[s.path].body == File("", LEAF_MODE)) {
      var k :| from <= k < i && Appears(was, k, s.path)
        && OwnChange(was[i - 1].tree, was[i].tree, s.path, was[k].tree[s.path].id);
      assert Appears(now, k, s.path);
    } else if !DirWrite(was, i, s.path) && !LeafWrite(was, from, i, s.path) {
      var k :| from <= k < i && was[k].act == Looked(s.path) && RewriteAt(was, k, i, s);
      assert RewriteAt(now, k, i, s);
    }
  }

  lemma ForwardLater(was: seq<Moment>, now: seq<Moment>, from: nat, steps: seq<Step>)
    requires was <= now && ForwardWrites(was, from, |was|, steps)
    ensures ForwardWrites(now, from, |was|, steps)
  {
    forall i | from <= i < |was| ensures Belongs(now, from, i, steps) {
      assert Belongs(was, from, i, steps);
      if IsWrite(now, i) {
        assert IsWrite(was, i);
        var j, n :| 0 <= j < |steps| && from <= n <= i && StepWrite(was, n, i, steps[j]);
        StepWriteLater(was, now, n, i, steps[j]);
      }
    }
  }

  lemma ForwardGrows(was: seq<Moment>, now: seq<Moment>, from: nat, steps: seq<Step>, j: nat)
    requires was <= now && from <= |was| && ForwardWrites(was, from, |was|, steps)
    requires j < |steps| && StepWrites(now, |was|, steps[j])
    ensures ForwardWrites(now, from, |now|, steps)
  {
    ForwardLater(was, now, from, steps);
    forall i | from <= i < |now| ensures Belongs(now, from, i, steps) {
      if i < |was| {
        assert Belongs(now, from, i, steps);
      } else if IsWrite(now, i) {
        assert StepWrite(now, |was|, i, steps[j]);
      }
    }
  }
}

/** The file-tree transaction of `apply` in src/ptest/agent_rules.py: journalled directory creations,
exclusive leaf creations and atomic replaces, and the rollback that undoes the journal.

Other processes may rewrite the tree between any two looks of this process (`Interfere`), and any
system call may fail (`Fault`). What neither the source nor the model defends is the instant between
the last identity check and the system call it guards. */
module GuidanceTree {
  import opened Basics

  type Path = seq<string>

  datatype Body = Dir | File(data: string, mode: nat) | Link(target: string) | Special

  /** An entry and the identity (device and inode) it currently names. */
  datatype Node = Node(id: nat, body: Body)

  type Tree = map<Path, Node>

  /** The tree without identities: what a user sees. */
  type View = map<Path, Body>

  const MAX_FILE_BYTES: nat := 262144

  const LEAF_MODE: nat := 420 // 0o644

  function ViewOf(t: Tree): View { map p | p in t :: t[p].body }

  /** What a bounded read returns. */
  function Bounded(data: string): string {
    if |data| <= MAX_FILE_BYTES + 1 then data else data[..MAX_FILE_BYTES + 1]
  }

  /** A bounded read of `data` gives the bytes this process wrote. */
  predicate Recognised(data: string, written: string) { Bounded(data) == written }

  predicate Fits(written: string) { |written| <= MAX_FILE_BYTES + 1 }

  /** Every directory above `p` is a real directory. */
  predicate DirsAbove(t: Tree, p: Path) {
    forall k :: 0 < k < |p| ==> p[..k] in t && t[p[..k]].body == Dir
  }

  ghost predicate Rooted(t: Tree) {
    [] !in t && forall p {:trigger DirsAbove(t, p)} :: p in t ==> DirsAbove(t, p)
  }

  predicate NothingBelow(t: Tree, p: Path) { forall q :: q in t ==> !(p < q) }

  datatype Created = Created(path: Path, written: string, id: nat)
  datatype MadeDir = MadeDir(path: Path, id: nat)
  datatype Updated = Updated(path: Path, original: string, mode: nat, written: string, id: nat)

  datatype Phase = Applying | Undoing

  function CreatedPaths(c: seq<Created>): set<Path> { set x | x in c :: x.path }
  function DirPaths(d: seq<MadeDir>): set<Path> { set x | x in d :: x.path }
  function UpdatedPaths(u: seq<Updated>): set<Path> { set x | x in u :: x.path }

  predicate CreatedApart(c: seq<Created>, i: nat, j: nat)
    requires i < j < |c|
  {
    c[i].path != c[j].path
  }

  predicate UpdatedApart(u: seq<Updated>, i: nat, j: nat)
    requires i < j < |u|
  {
    u[i].path != u[j].path
  }

  predicate NotAbove(d: seq<MadeDir>, i: nat, j: nat)
    requires i < j < |d|
  {
    !(d[j].path <= d[i].path)
  }

  ghost predicate DistinctCreated(c: seq<Created>) {
    forall i, j {:trigger CreatedApart(c, i, j)} :: 0 <= i < j < |c| ==> CreatedApart(c, i, j)
  }

  ghost predicate DistinctUpdated(u: seq<Updated>) {
    forall i, j {:trigger UpdatedApart(u, i, j)} :: 0 <= i < j < |u| ==> UpdatedApart(u, i, j)
  }

  /** A later directory is never above or equal to an earlier one. */
  ghost predicate ParentsFirst(d: seq<MadeDir>) {
    forall i, j {:trigger NotAbove(d, i, j)} :: 0 <= i < j < |d| ==> NotAbove(d, i, j)
  }

  /** The journal explains exactly how `t` differs from `base`. */
  ghost predicate Tracks(t: Tree, base: Tree, c: seq<Created>, d: seq<MadeDir>, u: seq<Updated>) {
    && Rooted(t) && Rooted(base)
    && t.Keys == base.Keys + CreatedPaths(c) + DirPaths(d)
    && base.Keys !! CreatedPaths(c) && base.Keys !! DirPaths(d) && CreatedPaths(c) !! DirPaths(d)
    && UpdatedPaths(u) <= base.Keys
    && DistinctCreated(c) && DistinctUpdated(u) && ParentsFirst(d)
    && (forall p :: p in base && p !in UpdatedPaths(u) ==> t[p].body == base[p].body)
    && (forall x ::
      x in u ==> base[x.path].body == File(x.original, x.mode) && t[x.path] == Node(x.id, File(x.written, x.mode)))
    && (forall x :: x in c ==> t[x.path] == Node(x.id, File(x.written, LEAF_MODE)))
    && (forall x :: x in d ==> t[x.path] == Node(x.id, Dir))
  }

  ghost predicate AllFit(c: seq<Created>, u: seq<Updated>) {
    (forall x :: x in c ==> Fits(x.written)) && (forall x :: x in u ==> Fits(x.written))
  }

  lemma TracksNothing(t: Tree, base: Tree)
    requires Tracks(t, base, [], [], [])
    ensures ViewOf(t) == ViewOf(base)
  {
    assert t.Keys == base.Keys;
    forall p | p in base ensures t[p].body == base[p].body { assert p !in UpdatedPaths([]); }
  }

  lemma TracksStart(base: Tree)
    requires Rooted(base)
    ensures Tracks(base, base, [], [], [])
  {
  }

  lemma RootedUpdate(t: Tree, p: Path, n: Node)
    requires Rooted(t) && p in t && t[p].body.File? && n.body.File?
    ensures Rooted(t[p := n])
  {
    var s := t[p := n];
    forall q | q in s ensures DirsAbove(s, q) { assert DirsAbove(t, q); }
  }

  lemma RootedInsert(t: Tree, p: Path, n: Node)
    requires Rooted(t) && p !in t && p != [] && DirsAbove(t, p)
    ensures Rooted(t[p := n])
  {
    var s := t[p := n];
    forall q | q in s ensures DirsAbove(s, q) { assert DirsAbove(t, q); }
  }

  lemma RootedRemove(t: Tree, p: Path)
    requires Rooted(t) && NothingBelow(t, p)
    ensures Rooted(t - {p})
  {
    var s := t - {p};
    forall q | q in s ensures DirsAbove(s, q) {
      assert DirsAbove(t, q);
      forall k | 0 < k < |q| ensures q[..k] in s { assert q[..k] < q; }
    }
  }

  /** A file has nothing below it. */
  lemma FileIsLeaf(t: Tree, p: Path)
    requires Rooted(t) && p in t && t[p].body != Dir
    ensures NothingBelow(t, p)
  {
    forall q | q in t ensures !(p < q) {
      assert DirsAbove(t, q);
      var up := if |p| < |q| then q[..|p|] else q;
      assert p < q ==> up == p;
    }
  }

  // Adding one record to the journal.

  lemma OneMoreCreated(c: seq<Created>, x: Created)
    requires DistinctCreated(c) && x.path !in CreatedPaths(c)
    ensures DistinctCreated(c + [x])
  {
    var all := c + [x];
    forall i, j | 0 <= i < j < |all| ensures CreatedApart(all, i, j) {
      if j < |c| { assert CreatedApart(c, i, j); } else { assert all[i] in c; }
    }
  }

  lemma OneMoreUpdated(u: seq<Updated>, x: Updated)
    requires DistinctUpdated(u) && x.path !in UpdatedPaths(u)
    ensures DistinctUpdated(u + [x])
  {
    var all := u + [x];
    forall i, j | 0 <= i < j < |all| ensures UpdatedApart(all, i, j) {
      if j < |u| { assert UpdatedApart(u, i, j); } else { assert all[i] in u; }
    }
  }

  lemma OneMoreDir(d: seq<MadeDir>, x: MadeDir)
    requires ParentsFirst(d) && forall i :: 0 <= i < |d| ==> !(x.path <= d[i].path)
    ensures ParentsFirst(d + [x])
  {
    var all := d + [x];
    forall i, j | 0 <= i < j < |all| ensures NotAbove(all, i, j) { if j < |d| { assert NotAbove(d, i, j); } }
  }

  lemma PushUpdated(t: Tree, base: Tree, c: seq<Created>, d: seq<MadeDir>, u: seq<Updated>, x: Updated)
    requires Tracks(t, base, c, d, u)
    requires x.path in t && x.path !in CreatedPaths(c) && x.path !in UpdatedPaths(u)
    requires t[x.path].body == File(x.original, x.mode)
    ensures Tracks(t[x.path := Node(x.id, File(x.written, x.mode))], base, c, d, u + [x])
  {
    RootedUpdate(t, x.path, Node(x.id, File(x.written, x.mode)));
    OneMoreUpdated(u, x);
    assert UpdatedPaths(u + [x]) == UpdatedPaths(u) + {x.path};
    assert x.path !in DirPaths(d);
  }

  lemma PushCreated(t: Tree, base: Tree, c: seq<Created>, d: seq<MadeDir>, u: seq<Updated>, x: Created)
    requires Tracks(t, base, c, d, u)
    requires x.path !in t && x.path != [] && DirsAbove(t, x.path)
    ensures Tracks(t[x.path := Node(x.id, File(x.written, LEAF_MODE))], base, c + [x], d, u)
  {
    RootedInsert(t, x.path, Node(x.id, File(x.written, LEAF_MODE)));
    OneMoreCreated(c, x);
    assert CreatedPaths(c + [x]) == CreatedPaths(c) + {x.path};
  }

  lemma PushDir(t: Tree, base: Tree, c: seq<Created>, d: seq<MadeDir>, u: seq<Updated>, x: MadeDir)
    requires Tracks(t, base, c, d, u)
    requires x.path !in t && x.path != [] && DirsAbove(t, x.path)
    ensures Tracks(t[x.path := Node(x.id, Dir)], base, c, d + [x], u)
  {
    RootedInsert(t, x.path, Node(x.id, Dir));
    assert DirPaths(d + [x]) == DirPaths(d) + {x.path};
    forall i | 0 <= i < |d| ensures !(x.path <= d[i].path) {
      assert d[i] in d && d[i].path in DirPaths(d);
      NewIsNotAbove(t, x.path, d[i].path);
    }
    OneMoreDir(d, x);
  }

  lemma NewIsNotAbove(t: Tree, p: Path, q: Path)
    requires Rooted(t) && p !in t && p != [] && q in t
    ensures !(p <= q)
  {
    assert DirsAbove(t, q);
    var up := if |p| < |q| then q[..|p|] else q;
    assert p <= q ==> up == p;
  }

  lemma OneOfEach(c: seq<Created>, u: seq<Updated>)
    ensures DistinctCreated(c) ==> forall x, y :: x in c && y in c && x != y ==> x.path != y.path
    ensures DistinctUpdated(u) ==> forall x, y :: x in u && y in u && x != y ==> x.path != y.path
  {
    if DistinctCreated(c) {
      forall x, y | x in c && y in c && x != y ensures x.path != y.path {
        var i :| 0 <= i < |c| && c[i] == x;
        var j :| 0 <= j < |c| && c[j] == y;
        if i < j { assert CreatedApart(c, i, j); } else { assert CreatedApart(c, j, i); }
      }
    }
    if DistinctUpdated(u) {
      forall x, y | x in u && y in u && x != y ensures x.path != y.path {
        var i :| 0 <= i < |u| && u[i] == x;
        var j :| 0 <= j < |u| && u[j] == y;
        if i < j { assert UpdatedApart(u, i, j); } else { assert UpdatedApart(u, j, i); }
      }
    }
  }

  // Undoing the last record of the journal.

  lemma PopUpdated(t: Tree, base: Tree, c: seq<Created>, d: seq<MadeDir>, u: seq<Updated>, id: nat)
    requires u != [] && Tracks(t, base, c, d, u)
    ensures var x := u[|u| - 1];
            Tracks(t[x.path := Node(id, File(x.original, x.mode))], base, c, d, u[..|u| - 1])
  {
    var x, rest := u[|u| - 1], u[..|u| - 1];
    assert x in u && x.path in UpdatedPaths(u);
    RootedUpdate(t, x.path, Node(id, File(x.original, x.mode)));
    assert u == rest + [x];
    assert UpdatedPaths(u) == UpdatedPaths(rest) + {x.path};
    forall y | y in rest ensures y.path != x.path {
      var i :| 0 <= i < |rest| && rest[i] == y;
      assert UpdatedApart(u, i, |u| - 1);
    }
    forall i, j | 0 <= i < j < |rest| ensures UpdatedApart(rest, i, j) { assert UpdatedApart(u, i, j); }
  }

  lemma PopCreated(t: Tree, base: Tree, c: seq<Created>, d: seq<MadeDir>, u: seq<Updated>)
    requires c != [] && Tracks(t, base, c, d, u)
    ensures var x := c[|c| - 1];
            x.path in t && DirsAbove(t, x.path) && Tracks(t - {x.path}, base, c[..|c| - 1], d, u)
  {
    var x, rest := c[|c| - 1], c[..|c| - 1];
    DropLastCreated(c);
    FileIsLeaf(t, x.path);
    RootedRemove(t, x.path);
    CreatedTracksWithout(t, t - {x.path}, base, c, rest, d, u, x);
  }

  lemma DropLastCreated(c: seq<Created>)
    requires c != [] && DistinctCreated(c)
    ensures var x, rest := c[|c| - 1], c[..|c| - 1];
            && DistinctCreated(rest) && CreatedPaths(c) == CreatedPaths(rest) + {x.path}
              && x.path !in CreatedPaths(rest)
            && x in c && forall y :: y in rest ==> y in c && y.path in CreatedPaths(rest)
  {
    var x, rest := c[|c| - 1], c[..|c| - 1];
    assert c == rest + [x];
    forall y | y in rest ensures y.path != x.path {
      var i :| 0 <= i < |rest| && rest[i] == y;
      assert CreatedApart(c, i, |c| - 1);
    }
    forall i, j | 0 <= i < j < |rest| ensures CreatedApart(rest, i, j) { assert CreatedApart(c, i, j); }
  }

  lemma CreatedTracksWithout(t: Tree, s: Tree, base: Tree, c: seq<Created>, rest: seq<Created>, d: seq<MadeDir>,
                             u: seq<Updated>, x: Created)
    requires Tracks(t, base, c, d, u) && Rooted(s) && s == t - {x.path} && DistinctCreated(rest)
    requires CreatedPaths(c) == CreatedPaths(rest) + {x.path} && x.path !in CreatedPaths(rest)
    requires forall y :: y in rest ==> y in c && y.path in CreatedPaths(rest)
    ensures Tracks(s, base, rest, d, u)
  {
    forall y | y in d ensures y.path != x.path { assert y.path in DirPaths(d); }
    forall y | y in u ensures y.path != x.path { assert y.path in UpdatedPaths(u); }
  }

  lemma LastDirEmpty(t: Tree, base: Tree, d: seq<MadeDir>)
    requires d != [] && Tracks(t, base, [], d, [])
    ensures NothingBelow(t, d[|d| - 1].path)
  {
    var p := d[|d| - 1].path;
    assert d[|d| - 1] in d && p in DirPaths(d);
    forall q | q in t ensures !(p < q) {
      if q in base {
        OldNotBelowNew(base, p, q);
      } else {
        assert q in DirPaths(d);
        var i :| 0 <= i < |d| && d[i].path == q;
        if i < |d| - 1 { assert NotAbove(d, i, |d| - 1); }
      }
    }
  }

  lemma OldNotBelowNew(base: Tree, p: Path, q: Path)
    requires Rooted(base) && q in base && p !in base && p != []
    ensures !(p < q)
  {
    assert DirsAbove(base, q);
    var up := if |p| < |q| then q[..|p|] else q;
    assert p < q ==> up == p;
  }

  lemma DropLastDir(d: seq<MadeDir>)
    requires d != [] && ParentsFirst(d)
    ensures var x, rest := d[|d| - 1], d[..|d| - 1];
            && ParentsFirst(rest) && DirPaths(d) == DirPaths(rest) + {x.path} && x.path !in DirPaths(rest)
            && forall y :: y in rest ==> y in d && y.path in DirPaths(rest)
  {
    var x, rest := d[|d| - 1], d[..|d| - 1];
    assert d == rest + [x];
    forall y | y in rest ensures y.path != x.path {
      var i :| 0 <= i < |rest| && rest[i] == y;
      assert NotAbove(d, i, |d| - 1);
    }
    forall i, j | 0 <= i < j < |rest| ensures NotAbove(rest, i, j) { assert NotAbove(d, i, j); }
  }

  lemma PopDir(t: Tree, base: Tree, d: seq<MadeDir>)
    requires d != [] && Tracks(t, base, [], d, [])
    ensures var x := d[|d| - 1];
            && x.path in t && DirsAbove(t, x.path) && NothingBelow(t, x.path)
            && Tracks(t - {x.path}, base, [], d[..|d| - 1], [])
  {
    var x := d[|d| - 1];
    assert x in d && x.path in DirPaths(d);
    LastDirEmpty(t, base, d);
    DropLastDir(d);
    assert Rooted(t - {x.path}) by { RootedRemove(t, x.path); }
    DirTracksWithout(t, t - {x.path}, base, d, d[..|d| - 1], x);
  }

  lemma DirTracksWithout(t: Tree, s: Tree, base: Tree, d: seq<MadeDir>, rest: seq<MadeDir>, x: MadeDir)
    requires Tracks(t, base, [], d, []) && Rooted(s) && s == t - {x.path} && ParentsFirst(rest)
    requires DirPaths(d) == DirPaths(rest) + {x.path} && x.path !in DirPaths(rest)
    requires forall y :: y in rest ==> y in d && y.path in DirPaths(rest)
    ensures Tracks(s, base, [], rest, [])
  {
  }

  // The functional effect of the forward steps, on views.

  /** No proper prefix of `path` is something other than a directory. */
  predicate DirsPossible(v: View, path: Path) {
    forall k :: 0 < k < |path| && path[..k] in v ==> v[path[..k]] == Dir
  }

  function Ancestors(path: Path): set<Path> { set k | 0 < k < |path| :: path[..k] }

  /** The missing directories above `path`, added. */
  function WithDirs(v: View, path: Path): View {
    map q | q in v.Keys + Ancestors(path) :: if q in v then v[q] else Dir
  }

  lemma WithNoDirs(v: View, path: Path)
    requires |path| > 0
    ensures WithDirs(v, path[..1]) == v
  {
    assert Ancestors(path[..1]) == {};
  }

  lemma AncestorsStep(path: Path, k: nat)
    requires 0 < k < |path|
    ensures Ancestors(path[..k + 1]) == Ancestors(path[..k]) + {path[..k]}
    ensures path[..k] !in Ancestors(path[..k])
  {
    var longer, shorter := path[..k + 1], path[..k];
    forall j | 0 < j < k ensures longer[..j] == shorter[..j] {}
    assert longer[..k] == shorter;
    forall a | a in Ancestors(longer) ensures a in Ancestors(shorter) + {shorter} {
      var j :| 0 < j < |longer| && a == longer[..j];
      if j < k { assert a == shorter[..j]; }
    }
    forall a | a in Ancestors(shorter) ensures a in Ancestors(longer) && a != shorter {
      var j :| 0 < j < |shorter| && a == shorter[..j];
      assert a == longer[..j] && |a| == j;
    }
  }

  lemma NextDirPossible(start: Tree, was: Tree, path: Path, k: nat)
    requires 0 < k < |path| && ViewOf(was) == WithDirs(ViewOf(start), path[..k])
    ensures DirsPossible(ViewOf(start), path) && path[..k] in was ==> was[path[..k]].body == Dir
  {
    AncestorsStep(path, k);
    if path[..k] in was { assert path[..k] in ViewOf(was) && ViewOf(was)[path[..k]] == was[path[..k]].body; }
  }

  lemma DirsStep(start: Tree, was: Tree, now: Tree, path: Path, k: nat)
    requires 0 < k < |path|
    requires DirsAbove(was, path[..k]) && ViewOf(was) == WithDirs(ViewOf(start), path[..k])
    requires now == was || (path[..k] !in was && exists id: nat :: now == was[path[..k] := Node(id, Dir)])
    requires path[..k] in now && now[path[..k]].body == Dir
    ensures DirsAbove(now, path[..k + 1]) && ViewOf(now) == WithDirs(ViewOf(start), path[..k + 1])
  {
    var p := path[..k + 1];
    forall j | 0 < j < |p| ensures p[..j] in now && now[p[..j]].body == Dir {
      assert p[..j] == path[..j];
      if j < k { assert path[..k][..j] == path[..j]; }
    }
    AncestorsStep(path, k);
    var a, b := ViewOf(now), WithDirs(ViewOf(start), p);
    assert ViewOf(now) == ViewOf(was)[path[..k] := Dir];
    assert a.Keys == b.Keys;
    var w, v := ViewOf(was), ViewOf(start);
    forall q | q in a ensures a[q] == b[q] {
      if q == path[..k] {
        assert a[q] == Dir;
        if q in v { assert q in w && w[q] == v[q] == was[q].body; }
      } else {
        assert q in w && a[q] == w[q];
      }
    }
  }

  /** What one step of `apply` decides from the files it sees. */
  datatype Decision =
    | Refuse
    | Keep
    | Create(data: string)
    | Rewrite(original: string, mode: nat, text: string)

  datatype Step = Step(path: Path, decide: View -> Decision)

  /** A rewrite carries the mode it saw and an original no longer than the read limit. */
  ghost predicate Honest(s: Step) {
    && s.path != []
    && forall v: View :: s.decide(v).Rewrite? ==>
         && s.path in v && v[s.path].File? && v[s.path].mode == s.decide(v).mode
         && |s.decide(v).original| <= MAX_FILE_BYTES
  }

  ghost predicate WellFormedSteps(steps: seq<Step>) {
    && (forall i :: 0 <= i < |steps| ==> Honest(steps[i]))
    && forall i, j {:trigger Differ(steps, i, j)} :: 0 <= i < j < |steps| ==> Differ(steps, i, j)
  }

  predicate Differ(steps: seq<Step>, i: nat, j: nat)
    requires i < j < |steps|
  {
    steps[i].path != steps[j].path
  }

  predicate RealDirs(v: View, path: Path) {
    forall k :: 0 < k < |path| ==> path[..k] in v && v[path[..k]] == Dir
  }

  /** The effect of one step when nothing fails and nobody interferes; None when it refuses. */
  function PerformOne(v: View, s: Step): Option<View> {
    match s.decide(v)
    case Refuse => None
    case Keep => Some(v)
    case Create(data) =>
      if s.path in v || !DirsPossible(v, s.path) then None
      else Some(WithDirs(v, s.path)[s.path := File(data, LEAF_MODE)])
    case Rewrite(original, mode, text) =>
      if s.path in v && v[s.path].File? && RealDirs(v, s.path) && Recognised(v[s.path].data, original)
      then Some(v[s.path := File(text, mode)])
      else None
  }

  function Perform(v: View, steps: seq<Step>): Option<View> {
    if steps == [] then Some(v)
    else
      var w := Perform(v, steps[..|steps| - 1]);
      if w.None? then None else PerformOne(w.value, steps[|steps| - 1])
  }

  lemma PerformExtends(v: View, steps: seq<Step>, k: nat)
    requires k < |steps|
    ensures Perform(v, steps[..k + 1]) ==
      (var w := Perform(v, steps[..k]); if w.None? then None else PerformOne(w.value, steps[k]))
  {
    assert steps[..k + 1][..k] == steps[..k];
  }

  lemma {:induction false} PerformStops(v: View, steps: seq<Step>, k: nat)
    requires k <= |steps| && Perform(v, steps[..k]).None?
    ensures Perform(v, steps).None?
    decreases |steps|
  {
    if k < |steps| {
      assert steps[..|steps| - 1][..k] == steps[..k];
      PerformStops(v, steps[..|steps| - 1], k);
    } else {
      assert steps[..k] == steps;
    }
  }

  lemma EnsuredView(was: Tree, now: Tree, path: Path)
    requires path != [] && DirsAbove(now, path) && ViewOf(now) == WithDirs(ViewOf(was), path)
    ensures path in now <==> path in was
    ensures DirsPossible(ViewOf(was), path)
  {
    var v, w := ViewOf(was), ViewOf(now);
    forall k | 0 < k < |path| ensures path[..k] != path { assert |path[..k]| == k; }
    assert path in w <==> path in v;
    forall k | 0 < k < |path| && path[..k] in v ensures v[path[..k]] == Dir {
      assert w[path[..k]] == now[path[..k]].body;
    }
  }
}

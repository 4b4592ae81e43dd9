/** Fitting a test selection into a request's arguments (src/ptest/cli.py:3412-3469, 3795-3807, 3895-3917). */
module ArgvFit {
  import opened Basics
  import Utf8

  const FILES_MAX: nat := 200
  const BYTES_MAX: nat := 65536
  const DESELECT_MAX: nat := 200000

  /** The encoded size of one character. */
  function CharBytes(c: char): nat {
    if c as int < 0x80 then 1 else if c as int < 0x800 then 2 else if c as int < 0x10000 then 3 else 4
  }

  function ByteLength(s: string): nat { if s == "" then 0 else CharBytes(s[0]) + ByteLength(s[1..]) }

  /** It is the length of the UTF-8 encoding. */
  lemma {:induction false} ByteLengthIs(s: string)
    ensures ByteLength(s) == |Utf8.Encode(seq(|s|, i requires 0 <= i < |s| => s[i] as int))|
  {
    var codes := seq(|s|, i requires 0 <= i < |s| => s[i] as int);
    if s != "" {
      ByteLengthIs(s[1..]);
      assert codes[1..] == seq(|s[1..]|, i requires 0 <= i < |s[1..]| => s[1..][i] as int);
    }
  }

  function TotalLength(paths: seq<string>): nat {
    if paths == [] then 0 else ByteLength(paths[0]) + TotalLength(paths[1..])
  }

  /** `_argv_fits`. */
  predicate Fits(paths: seq<string>) { |paths| <= FILES_MAX && TotalLength(paths) <= BYTES_MAX }

  predicate Below(path: string, dir: string) { dir + "/" <= path }

  /** `_under_any`; the empty folder is the project root. */
  predicate UnderAny(path: string, folders: seq<string>) {
    exists i :: 0 <= i < |folders| && (path == folders[i] || folders[i] == "" || Below(path, folders[i]))
  }

  // Covering directories.

  function Slash(s: string): (i: nat)
    ensures i <= |s| && (i < |s| ==> s[i] == '/')
  {
    if s == "" || s[0] == '/' then 0 else 1 + Slash(s[1..])
  }

  /** The components of the directory a path lies in. */
  function Parents(path: string): seq<string>
    decreases |path|
  {
    var i := Slash(path);
    if i == |path| then [] else [path[..i]] + Parents(path[i + 1..])
  }

  function Join(parts: seq<string>): string {
    if parts == [] then "" else if |parts| == 1 then parts[0] else parts[0] + "/" + Join(parts[1..])
  }

  lemma {:induction false} JoinIsAbove(path: string, depth: nat)
    requires 0 < depth <= |Parents(path)|
    ensures Below(path, Join(Parents(path)[..depth]))
    decreases |path|
  {
    var i := Slash(path);
    var parts, rest := Parents(path), path[i + 1..];
    assert path == path[..i] + "/" + rest;
    if depth == 1 {
      assert parts[..1] == [path[..i]];
    } else {
      JoinIsAbove(rest, depth - 1);
      assert parts[..depth] == [path[..i]] + Parents(rest)[..depth - 1];
      JoinFirst(path[..i], Parents(rest)[..depth - 1]);
      BelowMore(path[..i] + "/", rest, Join(Parents(rest)[..depth - 1]));
    }
  }

  lemma JoinFirst(part: string, rest: seq<string>)
    requires rest != []
    ensures Join([part] + rest) == part + "/" + Join(rest)
  {
    assert ([part] + rest)[1..] == rest;
  }

  lemma BelowMore(head: string, path: string, dir: string)
    requires Below(path, dir)
    ensures Below(head + path, head + dir)
  {
    assert head + dir + "/" == head + (dir + "/");
  }

  /** Where the slashes of a text are. */
  function SlashesIn(s: string): set<int> { set i | 0 <= i < |s| && s[i] == '/' }

  /** The directory above the path that has so many components, counted by its slashes. */
  ghost predicate Ancestor(path: string, dir: string, components: int) {
    Below(path, dir) && |SlashesIn(dir)| == components - 1
  }

  lemma SlashPush(s: string, c: char)
    ensures |SlashesIn(s + [c])| == |SlashesIn(s)| + if c == '/' then 1 else 0
  {
    assert SlashesIn(s + [c]) == SlashesIn(s) + if c == '/' then {|s|} else {};
  }

  lemma {:induction false} SlashJoin(a: string, b: string)
    ensures |SlashesIn(a + b)| == |SlashesIn(a)| + |SlashesIn(b)|
    decreases |b|
  {
    if b == "" {
      assert a + b == a;
    } else {
      var n := |b| - 1;
      SlashJoin(a, b[..n]);
      SlashPush(a + b[..n], b[n]);
      SlashPush(b[..n], b[n]);
      assert a + b == a + b[..n] + [b[n]] && b == b[..n] + [b[n]];
    }
  }

  lemma SlashSplits(head: string, rest: string)
    ensures |SlashesIn(head + "/" + rest)| == |SlashesIn(head)| + 1 + |SlashesIn(rest)|
  {
    SlashJoin(head + "/", rest);
    SlashPush(head, '/');
  }

  lemma FirstPart(path: string)
    ensures SlashesIn(path[..Slash(path)]) == {}
    ensures Slash(path) == |path| <==> SlashesIn(path) == {}
  {
    SlashFirst(path);
    assert Slash(path) < |path| ==> Slash(path) in SlashesIn(path);
  }

  lemma {:induction false} SlashFirst(path: string)
    ensures forall i :: 0 <= i < Slash(path) ==> path[i] != '/'
  {
    if path != "" && path[0] != '/' { SlashFirst(path[1..]); }
  }

  /** The leading components joined are the ancestor with so many of them; a path has as many as slashes. */
  lemma {:induction false} JoinIsAncestor(path: string, depth: nat)
    requires 0 < depth <= |Parents(path)|
    ensures Ancestor(path, Join(Parents(path)[..depth]), depth)
    decreases |path|
  {
    JoinIsAbove(path, depth);
    var i := Slash(path);
    FirstPart(path);
    var parts, rest := Parents(path), path[i + 1..];
    if depth == 1 {
      assert parts[..1] == [path[..i]];
    } else {
      JoinIsAncestor(rest, depth - 1);
      assert parts[..depth] == [path[..i]] + Parents(rest)[..depth - 1];
      JoinFirst(path[..i], Parents(rest)[..depth - 1]);
      SlashSplits(path[..i], Join(Parents(rest)[..depth - 1]));
    }
  }

  lemma {:induction false} ParentsCounted(path: string)
    ensures |Parents(path)| == |SlashesIn(path)|
    decreases |path|
  {
    var i := Slash(path);
    FirstPart(path);
    if i < |path| {
      ParentsCounted(path[i + 1..]);
      SlashSplits(path[..i], path[i + 1..]);
      assert path == path[..i] + "/" + path[i + 1..];
    }
  }

  /** A path has one ancestor of each size. */
  lemma AncestorUnique(path: string, a: string, b: string, components: int)
    requires Ancestor(path, a, components) && Ancestor(path, b, components)
    ensures a == b
  {
    if |a| < |b| { LongerHasMore(path, a, b); }
    if |b| < |a| { LongerHasMore(path, b, a); }
    assert a == path[..|a|] && b == path[..|b|];
  }

  lemma LongerHasMore(path: string, a: string, b: string)
    requires Below(path, a) && Below(path, b) && |a| < |b|
    ensures |SlashesIn(a)| < |SlashesIn(b)|
  {
    assert a + "/" == path[..|a| + 1] && b == path[..|b|];
    assert b[..|a| + 1] == a + "/" && b[|a|] == '/';
    forall i | i in SlashesIn(a) ensures i in SlashesIn(b) { assert b[i] == a[i]; }
    assert SlashesIn(a) + {|a|} <= SlashesIn(b);
    Basics.SubsetSize(SlashesIn(a) + {|a|}, SlashesIn(b));
  }

  /** What stands for a file at this depth, on its characters: the file itself at the root, and otherwise the
      ancestor of this many components, or of as many as there are. */
  ghost predicate StandsFor(path: string, depth: nat, dir: string) {
    var slashes := |SlashesIn(path)|;
    if slashes == 0 then dir == path else Ancestor(path, dir, if depth < slashes then depth else slashes)
  }

  lemma PickedStands(path: string, depth: nat, dir: string)
    requires depth > 0
    ensures StandsFor(path, depth, dir) <==> dir == Picked(path, depth)
  {
    ParentsCounted(path);
    var parts := Parents(path);
    if parts != [] {
      var n := if depth < |parts| then depth else |parts|;
      JoinIsAncestor(path, n);
      if StandsFor(path, depth, dir) { AncestorUnique(path, dir, Picked(path, depth), n); }
    }
  }

  /** What stands for a file at this depth: an ancestor directory, or the file itself at the root. */
  function Picked(path: string, depth: nat): string {
    var parts := Parents(path);
    if parts == [] then path else Join(parts[..if depth < |parts| then depth else |parts|])
  }

  lemma PickedIsAbove(path: string, depth: nat)
    requires depth > 0
    ensures path == Picked(path, depth) || Below(path, Picked(path, depth))
  {
    var parts := Parents(path);
    if parts != [] { JoinIsAbove(path, if depth < |parts| then depth else |parts|); }
  }

  function AllPicked(files: seq<string>, depth: nat): (r: seq<string>)
    ensures |r| == |files| && forall i :: 0 <= i < |files| ==> r[i] == Picked(files[i], depth)
  {
    seq(|files|, i requires 0 <= i < |files| => Picked(files[i], depth))
  }

  /** Those not below another one. */
  function Topmost(items: seq<string>, all: seq<string>): seq<string> {
    if items == [] then [] else (if IsNested(items[0], all) then [] else [items[0]]) + Topmost(items[1..], all)
  }

  predicate IsNested(x: string, all: seq<string>) { exists o :: o in all && o != x && Below(x, o) }

  lemma {:induction false} TopmostHas(items: seq<string>, all: seq<string>, x: string)
    ensures x in Topmost(items, all) <==> x in items && !IsNested(x, all)
  {
    if items != [] {
      TopmostHas(items[1..], all, x);
      assert items == [items[0]] + items[1..];
    }
  }

  /** The directories standing for the files at one depth (in the order of the files rather than sorted). */
  function Collapsed(files: seq<string>, depth: nat): seq<string> {
    var picked := Unique(AllPicked(files, depth));
    Topmost(picked, picked)
  }

  /** Some file is stood for by this entry. */
  ghost predicate StandsForSome(files: seq<string>, depth: nat, x: string) {
    exists f :: f in files && StandsFor(f, depth, x)
  }

  /** A level: whatever stands for some file and lies below nothing else that does, each once. */
  ghost predicate IsLevel(files: seq<string>, depth: nat, level: seq<string>) {
    && NoneTwice(level)
    && forall x :: x in level <==>
         StandsForSome(files, depth, x)
         && !exists o :: StandsForSome(files, depth, o) && o != x && Below(x, o)
  }

  lemma PickedSome(files: seq<string>, depth: nat, x: string)
    requires depth > 0
    ensures StandsForSome(files, depth, x) <==> x in Unique(AllPicked(files, depth))
  {
    var picked := AllPicked(files, depth);
    if f :| f in files && StandsFor(f, depth, x) {
      PickedStands(f, depth, x);
      var i :| 0 <= i < |files| && files[i] == f;
      assert picked[i] in picked;
    }
    if x in picked {
      var i :| 0 <= i < |picked| && picked[i] == x;
      PickedStands(files[i], depth, x);
    }
  }

  lemma {:induction false} TopmostOnce(items: seq<string>, all: seq<string>)
    requires NoneTwice(items)
    ensures NoneTwice(Topmost(items, all))
  {
    if items != [] {
      var rest := Topmost(items[1..], all);
      TopmostOnce(items[1..], all);
      TopmostHas(items[1..], all, items[0]);
      assert items[0] !in items[1..];
    }
  }

  lemma CollapsedIsLevel(files: seq<string>, depth: nat)
    requires depth > 0
    ensures IsLevel(files, depth, Collapsed(files, depth))
  {
    var picked := Unique(AllPicked(files, depth));
    TopmostOnce(picked, picked);
    forall x ensures x in Collapsed(files, depth) <==>
      StandsForSome(files, depth, x) && !exists o :: StandsForSome(files, depth, o) && o != x && Below(x, o)
    {
      TopmostHas(picked, picked, x);
      PickedSome(files, depth, x);
      forall o ensures StandsForSome(files, depth, o) <==> o in picked { PickedSome(files, depth, o); }
    }
  }

  /** Every list of a level's entries fits or none does. */
  lemma LevelsFitAlike(files: seq<string>, depth: nat, a: seq<string>, b: seq<string>)
    requires IsLevel(files, depth, a) && IsLevel(files, depth, b)
    ensures Fits(a) <==> Fits(b)
  {
    AmongIsShorter(a, b);
    AmongIsShorter(b, a);
  }

  /** No file has more slashes. */
  ghost predicate Within(files: seq<string>, depth: nat) { forall f :: f in files ==> |SlashesIn(f)| <= depth }

  /** What covers the files: the deepest level that fits, over all depths there are, and otherwise the root. */
  ghost predicate IsCovering(files: seq<string>, dirs: seq<string>, at: nat) {
    && (if at == 0 then dirs == [""] else IsLevel(files, at, dirs) && Fits(dirs))
    && forall k, level {:trigger IsLevel(files, k, level)} ::
         at < k && !Within(files, k - 1) && IsLevel(files, k, level) ==> !Fits(level)
  }

  function MaxDepth(files: seq<string>): nat {
    if files == [] then 0
    else if |Parents(files[0])| > MaxDepth(files[1..]) then |Parents(files[0])| else MaxDepth(files[1..])
  }

  /** The levels by depth. */
  function Levels(files: seq<string>): nat -> seq<string> { (depth: nat) => Collapsed(files, depth) }

  /** The deepest level that fits, from this depth upward; the project root if none does. */
  function Deepest(level: nat -> seq<string>, depth: nat): seq<string> {
    if depth == 0 then [""]
    else if Fits(level(depth)) then level(depth)
    else Deepest(level, depth - 1)
  }

  function Covering(files: seq<string>, depth: nat): seq<string> { Deepest(Levels(files), depth) }

  /** The deepest level stands for every file by its own directory. */
  lemma {:induction false} DeepestIsOwnDirectory(files: seq<string>, f: string)
    requires f in files
    ensures |Parents(f)| <= MaxDepth(files)
    ensures Picked(f, MaxDepth(files)) == if Parents(f) == [] then f else Join(Parents(f))
  {
    if f != files[0] {
      assert files == [files[0]] + files[1..];
      DeepestIsOwnDirectory(files[1..], f);
    }
    assert Parents(f)[..|Parents(f)|] == Parents(f);
  }

  /** `_covering_dirs`. */
  method CoveringDirs(files: seq<string>) returns (dirs: seq<string>, ghost at: nat)
    ensures dirs == Covering(files, MaxDepth(files)) && IsCovering(files, dirs, at)
  {
    dirs := DeepestLevel(Levels(files), MaxDepth(files));
    at := CoveringIs(files);
  }

  method DeepestLevel(level: nat -> seq<string>, most: nat) returns (dirs: seq<string>)
    ensures dirs == Deepest(level, most)
  {
    var depth := most;
    while depth > 0
      invariant Deepest(level, most) == Deepest(level, depth)
    {
      dirs := level(depth);
      if Fits(dirs) { return dirs; }
      depth := depth - 1;
    }
    dirs := [""];
  }

  lemma {:induction false} TopmostAbove(all: seq<string>, item: string)
    requires item in all
    ensures UnderAny(item, Topmost(all, all))
    decreases |item|
  {
    var top := Topmost(all, all);
    TopmostHas(all, all, item);
    if IsNested(item, all) {
      var o :| o in all && o != item && Below(item, o);
      TopmostAbove(all, o);
      UnderBelow(item, o, top);
    } else {
      assert item in top;
    }
  }

  lemma UnderBelow(path: string, dir: string, folders: seq<string>)
    requires Below(path, dir) && UnderAny(dir, folders)
    ensures UnderAny(path, folders)
  {
    var i :| 0 <= i < |folders| && (dir == folders[i] || folders[i] == "" || Below(dir, folders[i]));
    assert path == folders[i] || folders[i] == "" || Below(path, folders[i]);
  }

  lemma {:induction false} DeepestAt(level: nat -> seq<string>, depth: nat) returns (at: nat)
    ensures at <= depth && (forall k :: at < k <= depth ==> !Fits(level(k))) && (at > 0 ==> Fits(level(at)))
    ensures Deepest(level, depth) == if at == 0 then [""] else level(at)
  {
    if depth == 0 || Fits(level(depth)) {
      at := depth;
    } else {
      at := DeepestAt(level, depth - 1);
    }
  }

  /** Every file lies under the directories of a level. */
  lemma LevelCovers(files: seq<string>, depth: nat, f: string)
    requires f in files && depth > 0
    ensures UnderAny(f, Collapsed(files, depth))
  {
    var picked := Unique(AllPicked(files, depth));
    var i :| 0 <= i < |files| && files[i] == f;
    assert AllPicked(files, depth)[i] in picked;
    TopmostAbove(picked, Picked(f, depth));
    PickedIsAbove(f, depth);
    if f != Picked(f, depth) { UnderBelow(f, Picked(f, depth), Collapsed(files, depth)); }
  }

  /** Every file lies under the covering directories, at whatever depth they end up. */
  lemma CoveringCovers(files: seq<string>, depth: nat, f: string)
    requires f in files
    ensures UnderAny(f, Covering(files, depth))
  {
    var at := DeepestAt(Levels(files), depth);
    if at == 0 {
      assert [""][0] == "";
    } else {
      LevelCovers(files, at, f);
    }
  }

  lemma RootFits()
    ensures Fits([""]) && Fits(["."])
  {
    assert ByteLength(".") == CharBytes('.') + ByteLength("");
    assert TotalLength(["."]) == ByteLength(".") + TotalLength([]);
    assert TotalLength([""]) == ByteLength("") + TotalLength([]);
  }

  /** They fit. */
  lemma CoveringFits(files: seq<string>, depth: nat)
    ensures Fits(Covering(files, depth))
  {
    RootFits();
    var _ := DeepestAt(Levels(files), depth);
  }

  ghost predicate NoneFit(files: seq<string>, above: nat, upto: nat) {
    forall k {:trigger Collapsed(files, k)} :: above < k <= upto ==> !Fits(Collapsed(files, k))
  }

  /** It is the deepest level that fits: a caller gets the least that has to be collapsed. */
  lemma CoveringIsDeepest(files: seq<string>, depth: nat) returns (at: nat)
    ensures at <= depth && NoneFit(files, at, depth)
    ensures Covering(files, depth) == if at == 0 then [""] else Collapsed(files, at)
    ensures at > 0 ==> IsLevel(files, at, Covering(files, depth)) && Fits(Covering(files, depth))
    ensures forall k: nat, level :: at < k <= depth && IsLevel(files, k, level) ==> !Fits(level)
  {
    var level := Levels(files);
    at := DeepestAt(level, depth);
    forall k | at < k <= depth ensures !Fits(Collapsed(files, k)) { assert !Fits(level(k)); }
    if at > 0 { CollapsedIsLevel(files, at); }
    forall k: nat, dirs | at < k <= depth && IsLevel(files, k, dirs) ensures !Fits(dirs) {
      CollapsedIsLevel(files, k);
      LevelsFitAlike(files, k, dirs, Collapsed(files, k));
      assert !Fits(Collapsed(files, k));
    }
  }

  lemma {:induction false} DepthIsMost(files: seq<string>)
    ensures Within(files, MaxDepth(files)) && forall k: nat :: k < MaxDepth(files) ==> !Within(files, k)
  {
    if files != [] {
      DepthIsMost(files[1..]);
      ParentsCounted(files[0]);
      assert files == [files[0]] + files[1..];
      forall k: nat | k < MaxDepth(files) ensures !Within(files, k) {
        if |Parents(files[0])| <= MaxDepth(files[1..]) {
          assert !Within(files[1..], k);
          var f :| f in files[1..] && |SlashesIn(f)| > k;
          assert f in files;
        } else {
          assert files[0] in files;
        }
      }
    }
  }

  /** The covering directories, told from the characters of the paths alone. */
  lemma CoveringIs(files: seq<string>) returns (at: nat)
    ensures IsCovering(files, Covering(files, MaxDepth(files)), at)
    ensures at <= MaxDepth(files)
  {
    at := CoveringIsDeepest(files, MaxDepth(files));
    DepthIsMost(files);
  }

  lemma CollapsedFrom(files: seq<string>, depth: nat, dir: string) returns (f: string)
    requires dir in Collapsed(files, depth)
    ensures f in files && dir == Picked(f, depth)
  {
    var picked := AllPicked(files, depth);
    TopmostHas(Unique(picked), Unique(picked), dir);
    var i :| 0 <= i < |files| && picked[i] == dir;
    f := files[i];
  }

  /** Each is one of the files or lies above one; only the last resort is the root itself. */
  lemma CoveringAbove(files: seq<string>, depth: nat, dir: string)
    requires dir in Covering(files, depth)
    ensures Covering(files, depth) == [""] || exists f :: f in files && (f == dir || Below(f, dir))
  {
    var at := DeepestAt(Levels(files), depth);
    if at > 0 {
      var f := CollapsedFrom(files, at, dir);
      PickedIsAbove(f, at);
    }
  }

  /** Project-relative paths: not ".", and no "./" or "/" in front. */
  ghost predicate Relative(files: seq<string>) {
    forall f :: f in files ==> f != "" && f != "." && !("./" <= f) && !("/" <= f)
  }

  lemma CoveringHasNot(files: seq<string>, dir: string)
    requires forall f :: f in files ==> f != dir && !Below(f, dir)
    ensures dir in Covering(files, MaxDepth(files)) ==> Covering(files, MaxDepth(files)) == [""]
  {
    if dir in Covering(files, MaxDepth(files)) { CoveringAbove(files, MaxDepth(files), dir); }
  }

  lemma CoveringRelative(files: seq<string>)
    requires Relative(files)
    ensures "." !in Covering(files, MaxDepth(files))
    ensures Covering(files, MaxDepth(files)) == [""] || "" !in Covering(files, MaxDepth(files))
  {
    CoveringHasNot(files, "");
    forall f | f in files ensures !Below(f, ".") { assert "." + "/" == "./"; }
    CoveringHasNot(files, ".");
    assert "." !in [""];
  }

  // Test identifiers.

  function TestFile(nodeid: string): string {
    if nodeid == "" || "::" <= nodeid then "" else [nodeid[0]] + TestFile(nodeid[1..])
  }

  ghost predicate Separator(nodeid: string, k: int) { 0 <= k <= |nodeid| - 2 && nodeid[k..k + 2] == "::" }

  /** The text before the first separator, or all of it. */
  lemma {:induction false} TestFileIs(nodeid: string)
    ensures TestFile(nodeid) <= nodeid
    ensures forall k :: k < |TestFile(nodeid)| ==> !Separator(nodeid, k)
    ensures |TestFile(nodeid)| == |nodeid| || Separator(nodeid, |TestFile(nodeid)|)
  {
    if nodeid != "" && !("::" <= nodeid) {
      TestFileIs(nodeid[1..]);
      assert nodeid == [nodeid[0]] + nodeid[1..];
      forall k | 0 < k <= |nodeid| - 2 ensures Separator(nodeid, k) <==> Separator(nodeid[1..], k - 1) {
        assert nodeid[k..k + 2] == nodeid[1..][k - 1..k + 1];
      }
      assert !Separator(nodeid, 0) by {
        if |nodeid| >= 2 { assert nodeid[0..2] == nodeid[..2]; }
      }
    }
  }

  /** The file's own name holds no separator. */
  lemma {:induction false} TestFileOnce(nodeid: string)
    ensures TestFile(TestFile(nodeid)) == TestFile(nodeid)
  {
    if nodeid != "" && !("::" <= nodeid) { TestFileOnce(nodeid[1..]); }
  }

  /** A path, rather than the name of one test in a file. */
  predicate Plain(arg: string) { TestFile(arg) == arg }

  lemma {:induction false} PlainPrefix(path: string, dir: string)
    requires dir <= path && Plain(path)
    ensures Plain(dir)
  {
    if dir != "" { PlainPrefix(path[1..], dir[1..]); }
  }

  /** An argument naming a test, a class of tests, or a parametrised test. */
  predicate Names(arg: string, t: string) { !Plain(arg) && (arg == t || arg + "::" <= t || arg + "[" <= t) }

  predicate CoversFile(arg: string, file: string) { arg == "." || arg == file || Below(file, arg) }

  /** An argument as the test runner reads it. */
  predicate Covers(arg: string, t: string) { CoversFile(arg, TestFile(t)) || Names(arg, t) }

  predicate Covered(args: seq<string>, t: string) { exists i :: 0 <= i < |args| && Covers(args[i], t) }

  predicate Runs(args: seq<string>, deselect: seq<string>, t: string) { t !in deselect && Covered(args, t) }

  // Fitting.

  datatype Index = Index(testFiles: set<string>, recorded: seq<string>)

  /** A recorded test of a covered file the plan did not select. */
  predicate Extra(safe: string -> bool, index: Index, planned: set<string>, deselect: seq<string>, dirs: seq<string>,
                  t: string) {
    && t in index.recorded && t !in deselect && safe(t)
    && TestFile(t) in index.testFiles && TestFile(t) !in planned && UnderAny(TestFile(t), dirs)
  }

  function Extras(safe: string -> bool, index: Index, planned: set<string>, deselect: seq<string>, dirs: seq<string>,
                  recorded: seq<string>): (r: seq<string>)
    requires forall t :: t in recorded ==> t in index.recorded
    ensures forall t :: t in r <==> t in recorded && Extra(safe, index, planned, deselect, dirs, t)
  {
    if recorded == [] then []
    else
      var last := recorded[|recorded| - 1];
      Extras(safe, index, planned, deselect, dirs, recorded[..|recorded| - 1])
        + if Extra(safe, index, planned, deselect, dirs, last) then [last] else []
  }

  /** The places in the record that hold such a test. */
  function ExtraPlaces(safe: string -> bool, index: Index, planned: set<string>, deselect: seq<string>,
                       dirs: seq<string>, recorded: seq<string>): set<int> {
    PlacesOf((t: string) => Extra(safe, index, planned, deselect, dirs, t), recorded)
  }

  function PlacesOf(p: string -> bool, items: seq<string>): set<int> { set k | 0 <= k < |items| && p(items[k]) }

  lemma PlacesStep(p: string -> bool, items: seq<string>)
    requires items != []
    ensures var n := |items| - 1; |PlacesOf(p, items)| == |PlacesOf(p, items[..n])| + if p(items[n]) then 1 else 0
  {
    var n := |items| - 1;
    assert PlacesOf(p, items) == PlacesOf(p, items[..n]) + if p(items[n]) then {n} else {};
  }

  /** One deselection for each of them. */
  lemma ExtrasCounted(safe: string -> bool, index: Index, planned: set<string>, deselect: seq<string>,
                      dirs: seq<string>, recorded: seq<string>)
    requires forall t :: t in recorded ==> t in index.recorded
    ensures |Extras(safe, index, planned, deselect, dirs, recorded)| ==
      |ExtraPlaces(safe, index, planned, deselect, dirs, recorded)|
  {
    var p := (t: string) => Extra(safe, index, planned, deselect, dirs, t);
    CountedBy(p, safe, index, planned, deselect, dirs, recorded);
    assert ExtraPlaces(safe, index, planned, deselect, dirs, recorded) == PlacesOf(p, recorded);
  }

  lemma {:induction false} CountedBy(p: string -> bool, safe: string -> bool, index: Index, planned: set<string>,
                                     deselect: seq<string>, dirs: seq<string>, recorded: seq<string>)
    requires forall t :: t in recorded ==> t in index.recorded
    requires forall t :: p(t) == Extra(safe, index, planned, deselect, dirs, t)
    ensures |Extras(safe, index, planned, deselect, dirs, recorded)| == |PlacesOf(p, recorded)|
  {
    if recorded != [] {
      CountedBy(p, safe, index, planned, deselect, dirs, recorded[..|recorded| - 1]);
      PlacesStep(p, recorded);
    }
  }

  function Plan(files: seq<string>, keep: seq<string>): set<string> { (set f | f in files) + set k | k in keep }

  function Literal(dirs: seq<string>): (r: seq<string>)
    ensures |r| == |dirs| && forall i :: 0 <= i < |dirs| ==> r[i] == if dirs[i] == "" then "." else dirs[i]
  {
    seq(|dirs|, i requires 0 <= i < |dirs| => if dirs[i] == "" then "." else dirs[i])
  }

  datatype Fitted = Fitted(argv: seq<string>, deselect: seq<string>)

  /** The extra deselections of a collapsed run; None when nothing collapses, when there is no index, or when
      they would exceed the cap. */
  function Narrowing(safe: string -> bool, index: Option<Index>, files: seq<string>, deselect: seq<string>,
                     keep: seq<string>): Option<seq<string>> {
    if Fits(files) || index.None? then None
    else
      var extra :=
        Extras(safe, index.value, Plan(files, keep), deselect, Covering(files, MaxDepth(files)), index.value.recorded);
      if |deselect| + |extra| > DESELECT_MAX then None else Some(extra)
  }

  /** A collapsed run is narrowed exactly when there is an index and the cap holds; then each recorded, bindable test
      of an indexed file under the directories that is neither planned nor deselected yet is. */
  lemma NarrowedExactly(safe: string -> bool, index: Option<Index>, files: seq<string>, deselect: seq<string>,
                        keep: seq<string>)
    ensures Narrowing(safe, index, files, deselect, keep).Some? <==>
      && !Fits(files) && index.Some?
      && |deselect| + |ExtraPlaces(safe, index.value, Plan(files, keep), deselect, Covering(files, MaxDepth(files)),
           index.value.recorded)| <= 200000
    ensures Narrowing(safe, index, files, deselect, keep).Some? ==> forall t ::
      t in Narrowing(safe, index, files, deselect, keep).value <==>
        && t in index.value.recorded && t !in deselect && safe(t) && TestFile(t) in index.value.testFiles
        && TestFile(t) !in files && TestFile(t) !in keep
        && UnderAny(TestFile(t), Covering(files, MaxDepth(files)))
  {
    if index.Some? {
      ExtrasCounted(safe, index.value, Plan(files, keep), deselect, Covering(files, MaxDepth(files)),
        index.value.recorded);
    }
  }

  function FittedArgv(safe: string -> bool, index: Option<Index>, files: seq<string>, deselect: seq<string>,
                      keep: seq<string>): Fitted {
    var narrowing := Narrowing(safe, index, files, deselect, keep);
    Fitted(
      if Fits(files) then files else Literal(Covering(files, MaxDepth(files))),
      if narrowing.None? then deselect else deselect + narrowing.value)
  }

  ghost predicate AllPlain(files: seq<string>) { forall f :: f in files ==> Plain(f) }

  /** The arguments: the files themselves when they fit, and otherwise the directories covering them. */
  ghost predicate ArgvOf(argv: seq<string>, files: seq<string>) {
    if Fits(files) then argv == files
    else exists dirs, at :: IsCovering(files, dirs, at) && IsLiteral(argv, dirs)
  }

  ghost predicate IsLiteral(argv: seq<string>, dirs: seq<string>) {
    |argv| == |dirs| && forall i :: 0 <= i < |dirs| ==> argv[i] == if dirs[i] == "" then "." else dirs[i]
  }

  /** What a fitted run does: it fits, it only adds deselections and keeps their cap, a test of the plan still
      runs exactly unless a directory alone covers it, and nothing recorded outside the plan is added. */
  ghost predicate FitsPlan(r: Fitted, safe: string -> bool, index: Option<Index>, files: seq<string>,
                           deselect: seq<string>, keep: seq<string>) {
    && (Relative(files) ==> Fits(r.argv)) && ArgvOf(r.argv, files)
    && deselect <= r.deselect && (|deselect| <= DESELECT_MAX ==> |r.deselect| <= DESELECT_MAX)
    && (r.deselect != deselect ==> Narrowing(safe, index, files, deselect, keep).Some?)
    && (AllPlain(files) && "." !in files ==> forall t :: Runs(files, deselect, t) ==>
        (Runs(r.argv, r.deselect, t) <==> !CoveredByDirectoryOnly(safe, index, files, deselect, keep, t)))
    && (AllPlain(files) && Relative(files) && Narrowing(safe, index, files, deselect, keep).Some? ==> forall t ::
        Runs(r.argv, r.deselect, t) && t in index.value.recorded && safe(t) && TestFile(t) in index.value.testFiles ==>
          TestFile(t) in Plan(files, keep))
  }

  /** `_fit_argv`. */
  method FitArgv(safe: string -> bool, index: Option<Index>, files: seq<string>, deselect: seq<string>,
                 keep: seq<string>) returns (r: Fitted)
    ensures r == FittedArgv(safe, index, files, deselect, keep)
    ensures FitsPlan(r, safe, index, files, deselect, keep)
  {
    FittedIsFit(safe, index, files, deselect, keep);
    if Fits(files) { return Fitted(files, deselect); }
    var dirs, _ := CoveringDirs(files);
    var argv := Literal(dirs);
    if index.None? { return Fitted(argv, deselect); }
    var extra := Extras(safe, index.value, Plan(files, keep), deselect, dirs, index.value.recorded);
    var combined := deselect + extra;
    if |combined| > DESELECT_MAX { return Fitted(argv, deselect); }
    return Fitted(argv, combined);
  }

  lemma FittedIsFit(safe: string -> bool, index: Option<Index>, files: seq<string>, deselect: seq<string>,
                    keep: seq<string>)
    ensures FitsPlan(FittedArgv(safe, index, files, deselect, keep), safe, index, files, deselect, keep)
  {
    var r := FittedArgv(safe, index, files, deselect, keep);
    if !Fits(files) {
      var at := CoveringIs(files);
      assert IsLiteral(r.argv, Covering(files, MaxDepth(files)));
    }
    if Relative(files) { FittedFits(safe, index, files, deselect, keep); }
    GivenUpKeepsDeselect(safe, index, files, deselect, keep);
    if AllPlain(files) && "." !in files {
      forall t | Runs(files, deselect, t)
        ensures Runs(r.argv, r.deselect, t) <==> !CoveredByDirectoryOnly(safe, index, files, deselect, keep, t)
      {
        LostExactly(safe, index, files, deselect, keep, t);
      }
      if Relative(files) && Narrowing(safe, index, files, deselect, keep).Some? {
        forall t | Runs(r.argv, r.deselect, t) && t in index.value.recorded && safe(t)
          && TestFile(t) in index.value.testFiles
          ensures TestFile(t) in Plan(files, keep)
        {
          StaysInPlan(safe, index, files, deselect, keep, t);
        }
      }
    }
  }

  lemma LiteralCovers(dirs: seq<string>, path: string, t: string)
    requires UnderAny(path, dirs) && CoversFile(path, TestFile(t))
    ensures Covered(Literal(dirs), t)
  {
    var i :| 0 <= i < |dirs| && (path == dirs[i] || dirs[i] == "" || Below(path, dirs[i]));
    assert CoversFile(Literal(dirs)[i], TestFile(t));
  }

  /** Whatever is an argument before is covered by the arguments after. */
  lemma StillCovered(safe: string -> bool, index: Option<Index>, files: seq<string>, deselect: seq<string>,
                     keep: seq<string>, t: string)
    requires AllPlain(files) && Covered(files, t)
    ensures Covered(FittedArgv(safe, index, files, deselect, keep).argv, t)
  {
    if !Fits(files) {
      var i :| 0 <= i < |files| && Covers(files[i], t);
      assert files[i] in files;
      CoveringCovers(files, MaxDepth(files), files[i]);
      LiteralCovers(Covering(files, MaxDepth(files)), files[i], t);
    }
  }

  /** When fitting drops a test that was to run: the plan covers it only through an argument that is a
      directory, because planned files are compared as whole strings. */
  predicate CoveredByDirectoryOnly(safe: string -> bool, index: Option<Index>, files: seq<string>,
                                   deselect: seq<string>, keep: seq<string>, t: string) {
    && Narrowing(safe, index, files, deselect, keep).Some? && t in index.value.recorded && safe(t)
    && TestFile(t) in index.value.testFiles && TestFile(t) !in Plan(files, keep)
  }

  /** A test of the plan runs after fitting exactly unless it is a recorded, bindable test of an indexed file
      that only a directory argument covers. */
  lemma LostExactly(safe: string -> bool, index: Option<Index>, files: seq<string>, deselect: seq<string>,
                    keep: seq<string>, t: string)
    requires Runs(files, deselect, t) && AllPlain(files) && "." !in files
    ensures var r := FittedArgv(safe, index, files, deselect, keep);
      Runs(r.argv, r.deselect, t) <==> !CoveredByDirectoryOnly(safe, index, files, deselect, keep, t)
  {
    StillCovered(safe, index, files, deselect, keep, t);
    if Narrowing(safe, index, files, deselect, keep).Some? {
      var i :| 0 <= i < |files| && Covers(files[i], t);
      assert files[i] in files;
      CoveringCovers(files, MaxDepth(files), files[i]);
      if files[i] != TestFile(t) { UnderBelow(TestFile(t), files[i], Covering(files, MaxDepth(files))); }
    }
  }

  /** No argument is a directory of indexed test files. */
  predicate NoDirectory(files: seq<string>, testFiles: set<string>) {
    "." !in files && forall a, f :: a in files && f in testFiles ==> !Below(f, a)
  }

  /** Collapsing a selection of plain files never loses a test, whichever way fitting ends. */
  lemma NeverLosesATest(safe: string -> bool, index: Option<Index>, files: seq<string>, deselect: seq<string>,
                        keep: seq<string>, t: string)
    requires Runs(files, deselect, t) && AllPlain(files) && (index.Some? ==> NoDirectory(files, index.value.testFiles))
    ensures var r := FittedArgv(safe, index, files, deselect, keep); Runs(r.argv, r.deselect, t)
  {
    StillCovered(safe, index, files, deselect, keep, t);
    if index.Some? {
      var i :| 0 <= i < |files| && Covers(files[i], t);
      assert files[i] in files;
    }
  }

  /** Whoever is covered by literal arguments lies under the directories, unless one of them is "." or names a test. */
  lemma CoveredIsUnder(dirs: seq<string>, t: string)
    requires "." !in dirs && AllPlain(dirs) && Covered(Literal(dirs), t)
    ensures UnderAny(TestFile(t), dirs)
  {
    var i :| 0 <= i < |dirs| && Covers(Literal(dirs)[i], t);
    assert dirs[i] in dirs && Plain(".");
    assert TestFile(t) == dirs[i] || dirs[i] == "" || Below(TestFile(t), dirs[i]);
  }

  lemma CoveringPlain(files: seq<string>)
    requires AllPlain(files)
    ensures AllPlain(Covering(files, MaxDepth(files)))
  {
    var dirs := Covering(files, MaxDepth(files));
    forall d | d in dirs ensures Plain(d) {
      CoveringAbove(files, MaxDepth(files), d);
      if dirs != [""] {
        var f :| f in files && (f == d || Below(f, d));
        PlainPrefix(f, d);
      }
    }
  }

  /** Within the deselection cap a collapsed run stays the plan's: every recorded, bindable test of an indexed
      file that runs lies in a planned or kept file. */
  lemma StaysInPlan(safe: string -> bool, index: Option<Index>, files: seq<string>, deselect: seq<string>,
                    keep: seq<string>, t: string)
    requires Narrowing(safe, index, files, deselect, keep).Some? && AllPlain(files) && Relative(files)
    requires t in index.value.recorded && safe(t) && TestFile(t) in index.value.testFiles
    requires var r := FittedArgv(safe, index, files, deselect, keep); Runs(r.argv, r.deselect, t)
    ensures TestFile(t) in Plan(files, keep)
  {
    CoveringRelative(files);
    CoveringPlain(files);
    CoveredIsUnder(Covering(files, MaxDepth(files)), t);
  }

  /** A run that is not collapsed, or whose narrowing is given up, deselects exactly what it did before. */
  lemma GivenUpKeepsDeselect(safe: string -> bool, index: Option<Index>, files: seq<string>, deselect: seq<string>,
                             keep: seq<string>)
    ensures var r := FittedArgv(safe, index, files, deselect, keep);
      && deselect <= r.deselect && (|deselect| <= DESELECT_MAX ==> |r.deselect| <= DESELECT_MAX)
      && (r.deselect != deselect ==> Narrowing(safe, index, files, deselect, keep).Some?)
  {
  }

  lemma {:induction false} LiteralSame(dirs: seq<string>)
    requires "" !in dirs
    ensures Literal(dirs) == dirs
  {
  }

  /** The arguments fit the request in every case. */
  lemma FittedFits(safe: string -> bool, index: Option<Index>, files: seq<string>, deselect: seq<string>,
                   keep: seq<string>)
    requires Relative(files)
    ensures Fits(FittedArgv(safe, index, files, deselect, keep).argv)
  {
    if !Fits(files) {
      CoveringFits(files, MaxDepth(files));
      CoveringRelative(files);
      if Covering(files, MaxDepth(files)) == [""] {
        RootFits();
        assert Literal([""]) == ["."];
      } else {
        LiteralSame(Covering(files, MaxDepth(files)));
      }
    }
  }

  // Folder runs.

  function TestFiles(ids: seq<string>): set<string> { set i | i in ids :: TestFile(i) }

  /** `_filter_folder_deselect`. */
  method FilterFolderDeselect(deselect: seq<string>, selected: seq<string>, explicit: seq<string>)
    returns (kept: seq<string>)
    ensures kept == FolderDeselect(deselect, selected, explicit)
  {
    var wanted, named := TestFiles(selected), TestFiles(explicit);
    kept := [];
    for i := 0 to |deselect|
      invariant kept == FolderDeselect(deselect[..i], selected, explicit)
    {
      var path := TestFile(deselect[i]);
      if path in wanted && path !in named { kept := kept + [deselect[i]]; }
      assert deselect[..i + 1][..i] == deselect[..i];
    }
    assert deselect[..|deselect|] == deselect;
  }

  function FolderDeselect(deselect: seq<string>, selected: seq<string>, explicit: seq<string>): (r: seq<string>)
    ensures forall t ::
      t in r <==> t in deselect && TestFile(t) in TestFiles(selected) && TestFile(t) !in TestFiles(explicit)
  {
    if deselect == [] then []
    else
      var last := deselect[|deselect| - 1];
      FolderDeselect(deselect[..|deselect| - 1], selected, explicit)
        + if TestFile(last) in TestFiles(selected) && TestFile(last) !in TestFiles(explicit) then [last] else []
  }

  function Without(items: seq<string>, drop: seq<string>): (r: seq<string>)
    ensures forall x :: x in r <==> x in items && x !in drop
  {
    if items == [] then [] else (if items[0] in drop then [] else [items[0]]) + Without(items[1..], drop)
  }

  /** Items dropped and deselections kept one by one, in order. */
  lemma {:induction false} WithoutSplits(a: seq<string>, b: seq<string>, drop: seq<string>)
    ensures Without(a + b, drop) == Without(a, drop) + Without(b, drop)
    ensures |a| == 1 ==> Without(a, drop) == if a[0] in drop then [] else a
  {
    if a == [] {
      assert a + b == b;
    } else {
      assert (a + b)[1..] == a[1..] + b;
      WithoutSplits(a[1..], b, drop);
    }
  }

  lemma {:induction false} FolderDeselectSplits(a: seq<string>, b: seq<string>, selected: seq<string>,
        explicit: seq<string>)
    ensures FolderDeselect(a + b, selected, explicit) ==
      FolderDeselect(a, selected, explicit) + FolderDeselect(b, selected, explicit)
    decreases |b|
  {
    if b == [] {
      assert a + b == a;
    } else {
      var n := |b| - 1;
      assert (a + b)[..|a + b| - 1] == a + b[..n] && (a + b)[|a + b| - 1] == b[n];
      FolderDeselectSplits(a, b[..n], selected, explicit);
    }
  }

  lemma FolderDeselectOne(id: string, selected: seq<string>, explicit: seq<string>)
    ensures FolderDeselect([id], selected, explicit) ==
      if (exists s :: s in selected && TestFile(s) == TestFile(id))
        && !(exists e :: e in explicit && TestFile(e) == TestFile(id)) then [id] else []
  {
    var one := [id];
    assert one[..0] == [] && FolderDeselect([], selected, explicit) == [];
  }

  function FittedFolder(safe: string -> bool, index: Option<Index>, deselect: seq<string>, selected: seq<string>,
                        always: seq<string>): Fitted {
    var kept := FolderDeselect(deselect, selected, always);
    if Fits(selected) then Fitted(selected, kept)
    else
      var r := FittedArgv(safe, index, Without(selected, always), kept, always);
      Fitted(r.argv + Without(always, r.argv), r.deselect)
  }

  /** When a folder run that has to be collapsed drops a test it was to run: its file is not itself an argument,
      so that only the name of the test or a directory covers it, and it lies under the collapsed directories. */
  predicate DroppedByFolder(safe: string -> bool, index: Option<Index>, deselect: seq<string>, selected: seq<string>,
                            always: seq<string>, t: string) {
    var rest, kept := Without(selected, always), FolderDeselect(deselect, selected, always);
    && !Fits(selected) && Narrowing(safe, index, rest, kept, always).Some?
    && t in index.value.recorded && safe(t) && TestFile(t) in index.value.testFiles
    && TestFile(t) !in selected && UnderAny(TestFile(t), Covering(rest, MaxDepth(rest)))
  }

  /** The planned files are paths; what the user named may also be tests, and is part of the selection. */
  ghost predicate FolderSelection(selected: seq<string>, always: seq<string>) {
    AllPlain(Without(selected, always)) && forall a :: a in always ==> a in selected
  }

  /** What a folder run does: a test of its filtered plan still runs exactly unless it is dropped as above, and
      everything the user named stays an argument. */
  ghost predicate FitsFolder(r: Fitted, safe: string -> bool, index: Option<Index>, deselect: seq<string>,
                             selected: seq<string>, always: seq<string>) {
    FolderSelection(selected, always) ==>
      && (forall a :: a in always ==> a in r.argv)
      && forall t :: Runs(selected, FolderDeselect(deselect, selected, always), t) ==>
          (Runs(r.argv, r.deselect, t) <==> !DroppedByFolder(safe, index, deselect, selected, always, t))
  }

  /** `_fit_folder_argv`. */
  method FitFolderArgv(safe: string -> bool, index: Option<Index>, deselect: seq<string>, selected: seq<string>,
                       always: seq<string>) returns (r: Fitted)
    ensures r == FittedFolder(safe, index, deselect, selected, always)
    ensures FitsFolder(r, safe, index, deselect, selected, always)
  {
    FolderIsFit(safe, index, deselect, selected, always);
    var kept := FilterFolderDeselect(deselect, selected, always);
    if Fits(selected) { return Fitted(selected, kept); }
    r := FitArgv(safe, index, Without(selected, always), kept, always);
    r := Fitted(r.argv + Without(always, r.argv), r.deselect);
  }

  lemma FolderIsFit(safe: string -> bool, index: Option<Index>, deselect: seq<string>, selected: seq<string>,
                    always: seq<string>)
    ensures FitsFolder(FittedFolder(safe, index, deselect, selected, always), safe, index, deselect, selected, always)
  {
    var r := FittedFolder(safe, index, deselect, selected, always);
    if FolderSelection(selected, always) {
      forall t | Runs(selected, FolderDeselect(deselect, selected, always), t)
        ensures Runs(r.argv, r.deselect, t) <==> !DroppedByFolder(safe, index, deselect, selected, always, t)
      {
        FolderLosesExactly(safe, index, deselect, selected, always, t);
      }
    }
  }

  /** What a folder run covers before, it covers after. */
  lemma FolderStillCovers(safe: string -> bool, index: Option<Index>, deselect: seq<string>, selected: seq<string>,
                          always: seq<string>, t: string)
    requires FolderSelection(selected, always) && Covered(selected, t)
    ensures Covered(FittedFolder(safe, index, deselect, selected, always).argv, t)
  {
    if !Fits(selected) {
      var rest, kept := Without(selected, always), FolderDeselect(deselect, selected, always);
      var inner := FittedArgv(safe, index, rest, kept, always);
      var r := FittedFolder(safe, index, deselect, selected, always);
      var i :| 0 <= i < |selected| && Covers(selected[i], t);
      if selected[i] in always {
        assert selected[i] in r.argv;
        var k :| 0 <= k < |r.argv| && r.argv[k] == selected[i];
        assert Covers(r.argv[k], t);
      } else {
        assert selected[i] in rest;
        var k :| 0 <= k < |rest| && rest[k] == selected[i];
        StillCovered(safe, index, rest, kept, always, t);
        var m :| 0 <= m < |inner.argv| && Covers(inner.argv[m], t);
        assert r.argv[m] == inner.argv[m];
      }
    }
  }

  /** A test of a folder run's filtered plan is lost exactly when it is dropped as above. */
  lemma FolderLosesExactly(safe: string -> bool, index: Option<Index>, deselect: seq<string>, selected: seq<string>,
                           always: seq<string>, t: string)
    requires FolderSelection(selected, always) && Runs(selected, FolderDeselect(deselect, selected, always), t)
    ensures var r := FittedFolder(safe, index, deselect, selected, always);
      Runs(r.argv, r.deselect, t) <==> !DroppedByFolder(safe, index, deselect, selected, always, t)
  {
    FolderStillCovers(safe, index, deselect, selected, always, t);
    assert forall f :: f in Plan(Without(selected, always), always) <==> f in selected;
  }

  lemma {:induction false} TotalJoins(a: seq<string>, b: seq<string>)
    ensures TotalLength(a + b) == TotalLength(a) + TotalLength(b)
  {
    if a == [] {
      assert a + b == b;
    } else {
      assert (a + b)[1..] == a[1..] + b;
      TotalJoins(a[1..], b);
    }
  }

  predicate NoneTwice(items: seq<string>) { forall i, j :: 0 <= i < j < |items| ==> items[i] != items[j] }

  lemma OneOut(items: seq<string>, k: nat)
    requires k < |items|
    ensures var rest := items[..k] + items[k + 1..];
      && TotalLength(items) == ByteLength(items[k]) + TotalLength(rest)
        && forall x :: x in items && x != items[k] ==> x in rest
  {
    var rest := items[..k] + items[k + 1..];
    assert items == items[..k] + [items[k]] + items[k + 1..];
    TotalJoins(items[..k] + [items[k]], items[k + 1..]);
    TotalJoins(items[..k], [items[k]]);
    TotalJoins(items[..k], items[k + 1..]);
    forall x | x in items && x != items[k] ensures x in rest {
      var i :| 0 <= i < |items| && items[i] == x;
      assert rest[if i < k then i else i - 1] == x;
    }
  }

  /** Different items that are all among others are no more and no longer than those. */
  lemma {:induction false} AmongIsShorter(some: seq<string>, all: seq<string>)
    requires NoneTwice(some) && forall x :: x in some ==> x in all
    ensures |some| <= |all| && TotalLength(some) <= TotalLength(all)
  {
    if some != [] {
      assert some[0] in all;
      var k :| 0 <= k < |all| && all[k] == some[0];
      var others := all[..k] + all[k + 1..];
      OneOut(all, k);
      forall x | x in some[1..] ensures x in others {
        var i :| 0 <= i < |some[1..]| && some[1..][i] == x;
        assert some[0] != some[i + 1];
      }
      AmongIsShorter(some[1..], others);
    }
  }

  /** Some folder run with these named arguments fits, whatever the index, the plan and its deselections. */
  ghost predicate FitsSomehow(safe: string -> bool, always: seq<string>) {
    exists index: Option<Index>, deselect: seq<string>, selected: seq<string> ::
      (forall a :: a in always ==> a in selected) && Fits(FittedFolder(safe, index, deselect, selected, always).argv)
  }

  lemma NamedAreArguments(safe: string -> bool, index: Option<Index>, deselect: seq<string>, selected: seq<string>,
                          always: seq<string>)
    requires forall a :: a in always ==> a in selected
    ensures forall a :: a in selected && (a in always || Fits(Without(selected, always))) ==>
      a in FittedFolder(safe, index, deselect, selected, always).argv
  {
  }

  /** Named arguments leave room for some folder run exactly when they fit by themselves, each taken once; beyond
      the budget no run with them fits, whatever is planned beside them. */
  lemma NamedDecide(safe: string -> bool, always: seq<string>)
    ensures FitsSomehow(safe, always) <==> Fits(Unique(always))
  {
    if Fits(Unique(always)) { assert Fits(FittedFolder(safe, None, [], Unique(always), always).argv); }
    forall index: Option<Index>, deselect: seq<string>, selected: seq<string> |
      (forall a :: a in always ==> a in selected) && Fits(FittedFolder(safe, index, deselect, selected, always).argv)
      ensures Fits(Unique(always))
    {
      NamedAreArguments(safe, index, deselect, selected, always);
      AmongIsShorter(Unique(always), FittedFolder(safe, index, deselect, selected, always).argv);
    }
  }

  /** A selection that is too long although its planned part fits by itself stays too long: only that part is
      looked at, and nothing is collapsed. */
  lemma FittingPlanIsNotCollapsed(safe: string -> bool, index: Option<Index>, deselect: seq<string>,
                                  selected: seq<string>, always: seq<string>)
    requires forall a :: a in always ==> a in selected
    requires !Fits(Unique(selected)) && Fits(Without(selected, always))
    ensures !Fits(FittedFolder(safe, index, deselect, selected, always).argv)
  {
    NamedAreArguments(safe, index, deselect, selected, always);
    AmongIsShorter(Unique(selected), FittedFolder(safe, index, deselect, selected, always).argv);
  }

  lemma {:induction false} WithoutNone(items: seq<string>)
    ensures Without(items, []) == items
  {
    if items != [] { WithoutNone(items[1..]); }
  }

  /** Without named arguments a folder run fits in every case. */
  lemma PlannedAloneFits(safe: string -> bool, index: Option<Index>, deselect: seq<string>, selected: seq<string>)
    requires Relative(selected)
    ensures Fits(FittedFolder(safe, index, deselect, selected, []).argv)
  {
    if !Fits(selected) {
      WithoutNone(selected);
      FittedFits(safe, index, selected, FolderDeselect(deselect, selected, []), []);
      var paths := FittedArgv(safe, index, selected, FolderDeselect(deselect, selected, []), []).argv;
      assert paths + [] == paths;
    }
  }

  /** A file that is itself an argument, planned or named by the user, loses none of its tests; one the user
      named runs those the plan deselects as well. */
  lemma WholeFilesKeepTheirTests(safe: string -> bool, index: Option<Index>, deselect: seq<string>,
                                 selected: seq<string>, always: seq<string>, t: string)
    requires FolderSelection(selected, always) && TestFile(t) in selected
    requires t in deselect ==> TestFile(t) in always
    ensures var r := FittedFolder(safe, index, deselect, selected, always); Runs(r.argv, r.deselect, t)
  {
    TestFileOnce(t);
    if TestFile(t) in always { assert TestFile(TestFile(t)) in TestFiles(always); }
    var i :| 0 <= i < |selected| && selected[i] == TestFile(t);
    assert Covers(selected[i], t);
    FolderLosesExactly(safe, index, deselect, selected, always, t);
  }

  /** What covers a test without being its file or a directory above it names it, and comes from the user. */
  lemma NamedByUser(selected: seq<string>, always: seq<string>, a: string, t: string)
    requires FolderSelection(selected, always) && a in selected && Covers(a, t) && !CoversFile(a, TestFile(t))
    ensures a in always && Names(a, t)
  {
  }

  lemma CoveredByName(selected: seq<string>, always: seq<string>, testFiles: set<string>, t: string)
    requires FolderSelection(selected, always) && Covered(selected, t) && NoDirectory(selected, testFiles)
    requires TestFile(t) in testFiles && TestFile(t) !in selected
    ensures exists a :: a in always && Names(a, t)
  {
    var i :| 0 <= i < |selected| && Covers(selected[i], t);
    NamedByUser(selected, always, selected[i], t);
  }

  /** When no argument is a directory of test files, a lost test was asked for by name only. */
  lemma OnlyNamedTestsAreLost(safe: string -> bool, index: Option<Index>, deselect: seq<string>, selected: seq<string>,
                              always: seq<string>, t: string)
    requires FolderSelection(selected, always) && Runs(selected, FolderDeselect(deselect, selected, always), t)
    requires index.Some? ==> NoDirectory(selected, index.value.testFiles)
    requires var r := FittedFolder(safe, index, deselect, selected, always); !Runs(r.argv, r.deselect, t)
    ensures exists a :: a in always && Names(a, t)
  {
    FolderLosesExactly(safe, index, deselect, selected, always, t);
    CoveredByName(selected, always, index.value.testFiles, t);
  }

  // A folder run that loses a test the user named.

  function Letters(n: nat): (s: string)
    ensures |s| == n && forall k :: 0 <= k < n ==> s[k] == 'b'
  {
    seq(n, _ => 'b')
  }

  /** So many test files of one directory. */
  function Many(n: nat): (files: seq<string>)
    ensures |files| == n && forall i :: 0 <= i < n ==> files[i] == "tests/" + Letters(i + 1)
  {
    seq(n, i requires 0 <= i < n => "tests/" + Letters(i + 1))
  }

  lemma {:induction false} WithoutLast(items: seq<string>, last: string)
    requires last !in items
    ensures Without(items + [last], [last]) == items
  {
    if items == [] {
      assert [last][1..] == [];
    } else {
      assert (items + [last])[1..] == items[1..] + [last];
      WithoutLast(items[1..], last);
    }
  }

  lemma {:induction false} LettersPlain(head: string, n: nat)
    requires forall k :: 0 <= k < |head| ==> head[k] != ':'
    ensures Plain(head + Letters(n))
  {
    NoColonPlain(head + Letters(n));
  }

  lemma {:induction false} NoColonPlain(s: string)
    requires forall k :: 0 <= k < |s| ==> s[k] != ':'
    ensures Plain(s)
  {
    if s != "" { NoColonPlain(s[1..]); }
  }

  lemma {:induction false} NoSlash(s: string)
    requires forall k :: 0 <= k < |s| ==> s[k] != '/'
    ensures Slash(s) == |s|
  {
    if s != "" { NoSlash(s[1..]); }
  }

  lemma {:induction false} SlashAfter(head: string, rest: string)
    requires forall k :: 0 <= k < |head| ==> head[k] != '/'
    ensures Slash(head + "/" + rest) == |head|
  {
    if head != "" {
      assert (head + "/" + rest)[1..] == head[1..] + "/" + rest;
      SlashAfter(head[1..], rest);
    }
  }

  lemma ParentsOfMany(n: nat)
    ensures Parents("tests/" + Letters(n)) == ["tests"]
  {
    var path := "tests/" + Letters(n);
    assert path == "tests" + "/" + Letters(n);
    SlashAfter("tests", Letters(n));
    NoSlash(Letters(n));
    assert path[..5] == "tests" && path[6..] == Letters(n);
  }

  lemma ManyCollapse(n: nat, file: string)
    requires n > 0 && Below(file, "tests")
    ensures UnderAny(file, Covering(Many(n), MaxDepth(Many(n))))
  {
    var files := Many(n);
    var dirs := Covering(files, MaxDepth(files));
    var at := CoveringIsDeepest(files, MaxDepth(files));
    CoveringCovers(files, MaxDepth(files), files[0]);
    if at == 0 {
      assert dirs[0] == "";
    } else {
      var i :| 0 <= i < |dirs|;
      assert dirs[i] in dirs;
      var f := CollapsedFrom(files, at, dirs[i]);
      var k :| 0 <= k < n && files[k] == f;
      ParentsOfMany(k + 1);
      assert ["tests"][..1] == ["tests"];
      assert dirs[i] == "tests";
    }
  }

  /** The parts of the run below: planned files are paths other than the test and its file. */
  lemma ManyFiles(n: nat, t: string)
    requires t == "tests/a.py::t"
    ensures AllPlain(Many(n)) && t !in Many(n) && "tests/a.py" !in Many(n)
  {
    forall f | f in Many(n) ensures Plain(f) && f != t && f != "tests/a.py" {
      var i :| 0 <= i < n && f == Many(n)[i];
      LettersPlain("tests/", i + 1);
      assert f[6] == 'b' && t[6] == 'a' && "tests/a.py"[6] == 'a';
    }
  }

  lemma TestOfA(t: string)
    requires t == "tests/a.py::t"
    ensures TestFile(t) == "tests/a.py" && Below("tests/a.py", "tests")
  {
    FileOf("tests/a.py", "t");
    assert "tests/a.py" + "::" + "t" == t;
    assert "tests" + "/" <= "tests/a.py";
  }

  lemma OneExtra(safe: string -> bool, index: Index, planned: set<string>, dirs: seq<string>, recorded: seq<string>,
                 t: string)
    requires recorded == [t] && t in index.recorded && Extra(safe, index, planned, [], dirs, t)
    ensures |Extras(safe, index, planned, [], dirs, recorded)| == 1
  {
    assert recorded[..0] == [];
  }

  lemma NarrowsByOne(safe: string -> bool, index: Index, files: seq<string>, keep: seq<string>, t: string)
    requires index.recorded == [t] && !Fits(files)
    requires Extra(safe, index, Plan(files, keep), [], Covering(files, MaxDepth(files)), t)
    ensures Narrowing(safe, Some(index), files, [], keep).Some?
  {
    OneExtra(safe, index, Plan(files, keep), Covering(files, MaxDepth(files)), index.recorded, t);
  }

  lemma ManySelected(n: nat, t: string)
    requires n > FILES_MAX && t == "tests/a.py::t"
    ensures var selected := Many(n) + [t];
      && FolderSelection(selected, [t]) && Without(selected, [t]) == Many(n) && Covered(selected, t)
      && TestFile(t) !in selected && TestFile(t) !in Many(n) && !Fits(selected) && !Fits(Many(n)) && !Plain(t)
  {
    var selected := Many(n) + [t];
    ManyFiles(n, t);
    TestOfA(t);
    WithoutLast(Many(n), t);
    assert selected[n] == t && Covers(t, t);
  }

  lemma ManyDrop(safe: string -> bool, n: nat, t: string)
    requires n > FILES_MAX && t == "tests/a.py::t" && safe(t)
    ensures DroppedByFolder(safe, Some(Index({TestFile(t)}, [t])), [], Many(n) + [t], [t], t)
  {
    var index := Index({TestFile(t)}, [t]);
    ManySelected(n, t);
    TestOfA(t);
    ManyCollapse(n, TestFile(t));
    PlainIsOther(Many(n), t);
    NarrowsByOne(safe, index, Many(n), [t], t);
    assert FolderDeselect([], Many(n) + [t], [t]) == [];
  }

  lemma PlainIsOther(files: seq<string>, t: string)
    requires TestFile(t) !in files && !Plain(t)
    ensures TestFile(t) !in Plan(files, [t])
  {
  }

  /** More planned files of one directory than a request holds, beside one recorded test the user named: the
      test is an argument of the run, is deselected as well, and does not run. */
  lemma NamedTestIsLost(safe: string -> bool, n: nat, t: string)
    requires n > FILES_MAX && t == "tests/a.py::t" && safe(t)
    ensures var selected := Many(n) + [t];
      var r := FittedFolder(safe, Some(Index({TestFile(t)}, [t])), [], selected, [t]);
      && FolderSelection(selected, [t]) && Runs(selected, FolderDeselect([], selected, [t]), t)
      && t in r.argv && t in r.deselect && !Runs(r.argv, r.deselect, t)
  {
    ManySelected(n, t);
    ManyDrop(safe, n, t);
    LostWhenDropped(safe, Index({TestFile(t)}, [t]), Many(n) + [t], t);
  }

  lemma {:induction false} ManyShort(n: nat)
    requires n <= 200
    ensures TotalLength(Many(n)) <= 300 * n
  {
    if n > 0 {
      ManyShort(n - 1);
      assert Many(n) == Many(n - 1) + ["tests/" + Letters(n)];
      TotalJoins(Many(n - 1), ["tests/" + Letters(n)]);
      AsciiLength("tests/" + Letters(n));
      assert ["tests/" + Letters(n)][1..] == [];
    }
  }

  lemma {:induction false} AsciiLength(s: string)
    requires forall k :: 0 <= k < |s| ==> s[k] as int < 0x80
    ensures ByteLength(s) == |s|
  {
    if s != "" { AsciiLength(s[1..]); }
  }

  /** As many planned files as a request holds, beside one named file: the run has one argument too many, and
      leaving out either part would have fitted. */
  lemma OneTooMany(safe: string -> bool, index: Option<Index>, deselect: seq<string>)
    ensures var planned, named := Many(FILES_MAX), ["a.py"];
      && Fits(planned) && Fits(named) && !Fits(FittedFolder(safe, index, deselect, planned + named, named).argv)
  {
    var planned := Many(FILES_MAX);
    ManyShort(FILES_MAX);
    AsciiLength("a.py");
    forall i, j | 0 <= i < j < FILES_MAX ensures planned[i] != planned[j] {
      assert |planned[i]| == 7 + i && |planned[j]| == 7 + j;
    }
    forall i | 0 <= i < FILES_MAX ensures planned[i] != "a.py" { assert |planned[i]| == 7 + i; }
    assert forall i :: 0 <= i < FILES_MAX ==> (planned + ["a.py"])[i] == planned[i];
    WithoutLast(planned, "a.py");
    AmongIsShorter(planned + ["a.py"], Unique(planned + ["a.py"]));
    FittingPlanIsNotCollapsed(safe, index, deselect, planned + ["a.py"], ["a.py"]);
  }

  lemma LostWhenDropped(safe: string -> bool, index: Index, selected: seq<string>, t: string)
    requires FolderSelection(selected, [t]) && Covered(selected, t)
    requires DroppedByFolder(safe, Some(index), [], selected, [t], t)
    ensures var r := FittedFolder(safe, Some(index), [], selected, [t]);
      && Runs(selected, FolderDeselect([], selected, [t]), t)
      && t in r.argv && t in r.deselect && !Runs(r.argv, r.deselect, t)
  {
    FolderIsFit(safe, Some(index), [], selected, [t]);
    FolderLosesExactly(safe, Some(index), [], selected, [t], t);
    FolderStillCovers(safe, Some(index), [], selected, [t], t);
  }

  lemma {:induction false} FileOf(file: string, test: string)
    requires forall k :: 0 <= k < |file| ==> file[k] != ':'
    ensures TestFile(file + "::" + test) == file
  {
    if file != "" {
      assert (file + "::" + test)[1..] == file[1..] + "::" + test;
      FileOf(file[1..], test);
    } else {
      assert file + "::" + test == "::" + test;
    }
  }
}

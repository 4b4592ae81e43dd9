/** What the journal of a run stands for: the write each record names, and the record of each write. */
module GuidanceJournal {
  import opened Basics
  import opened GuidanceTree
  import opened GuidanceTrace

  datatype Journal = Journal(created: seq<Created>, dirs: seq<MadeDir>, updated: seq<Updated>)

  const NOTHING := Journal([], [], [])

  predicate Extends(was: Journal, now: Journal) {
    was.created <= now.created && was.dirs <= now.dirs && was.updated <= now.updated
  }

  /** In the journal now, behind what it held before. */
  predicate Added(was: Journal, now: Journal, r: Record) {
    match r
    case OfUpdate(u) => exists k :: |was.updated| <= k < |now.updated| && now.updated[k] == u
    case OfFile(f) => exists k :: |was.created| <= k < |now.created| && now.created[k] == f
    case OfDir(d) => exists k :: |was.dirs| <= k < |now.dirs| && now.dirs[k] == d
  }

  predicate Leads(t: Tree, path: Path, id: nat) { path in t && t[path].id == id && t[path].body.File? }

  predicate DirAt(t: Tree, p: Path) { p in t && t[p].body == Dir }

  /** At the look of moment i the data goes into the new inode, if the name still leads to it. */
  predicate Filled(trace: seq<Moment>, i: nat, f: Created) {
    && i < |trace| && trace[i].act == Others
    && var t := trace[i].tree;
      Leads(t, f.path, f.id) ==>
        && i + 1 < |trace| && trace[i + 1].act == Wrote(f.path)
        && trace[i + 1].tree == t[f.path := Node(f.id, File(f.written, t[f.path].body.mode))]
  }

  /** The record is that of the write at moment i: the rewrite of a file that held the original, the inode made at
      a free name, or the directory found one moment after one was made there, whoever put it there. */
  predicate Names(trace: seq<Moment>, i: nat, r: Record) {
    && IsWrite(trace, i) && trace[i].act == Wrote(RecordPath(r))
    && match r
       case OfUpdate(u) =>
         && TextWrite(trace, i, u.path, u.original, u.mode, u.written)
         && trace[i].tree[u.path] == Node(u.id, File(u.written, u.mode))
       case OfFile(f) =>
         && Appears(trace, i, f.path) && trace[i].tree[f.path] == Node(f.id, File("", LEAF_MODE))
         && Filled(trace, i + 1, f)
       case OfDir(d) =>
         && Appears(trace, i, d.path) && trace[i].tree[d.path].body == Dir
         && i + 1 < |trace| && trace[i + 1].act == Others
         && d.path in trace[i + 1].tree && trace[i + 1].tree[d.path] == Node(d.id, Dir)
  }

  /** The write is the record's own, or a later one into the inode the record names. */
  predicate Explains(trace: seq<Moment>, i: nat, r: Record) {
    || Names(trace, i, r)
    || (r.OfFile? && IsWrite(trace, i) && trace[i].act == Wrote(r.f.path)
        && OwnChange(trace[i - 1].tree, trace[i].tree, r.f.path, r.f.id))
  }

  /** A stretch of the run, and the journal before and after it. */
  datatype Span = Span(from: nat, upto: nat, was: Journal, now: Journal)

  ghost predicate Named(trace: seq<Moment>, s: Span, r: Record) {
    exists i :: s.from <= i < s.upto && Names(trace, i, r)
  }

  /** Every record made in the span is that of a write of the span. */
  ghost predicate AllNamed(trace: seq<Moment>, s: Span) {
    && s.from <= s.upto <= |trace| && Extends(s.was, s.now)
    && forall r {:trigger Added(s.was, s.now, r)} :: Added(s.was, s.now, r) ==> Named(trace, s, r)
  }

  ghost predicate Explained(trace: seq<Moment>, s: Span, i: nat) {
    IsWrite(trace, i) ==> exists r :: Added(s.was, s.now, r) && Explains(trace, i, r)
  }

  /** Every write of the span has a record made in the span. */
  ghost predicate AllExplained(trace: seq<Moment>, s: Span) {
    forall i {:trigger Explained(trace, s, i)} :: s.from <= i < s.upto ==> Explained(trace, s, i)
  }

  lemma {:induction false} NamesLater(was: seq<Moment>, now: seq<Moment>, i: nat, r: Record)
    requires was <= now && Names(was, i, r)
    ensures Names(now, i, r)
  {
  }

  lemma {:induction false} ExplainsLater(was: seq<Moment>, now: seq<Moment>, i: nat, r: Record)
    requires was <= now && Explains(was, i, r)
    ensures Explains(now, i, r)
  {
    if Names(was, i, r) { NamesLater(was, now, i, r); }
  }

  lemma {:induction false} SpanLater(was: seq<Moment>, now: seq<Moment>, s: Span)
    requires was <= now && AllNamed(was, s)
    ensures AllNamed(now, s)
    ensures AllExplained(was, s) ==> AllExplained(now, s)
  {
    forall r | Added(s.was, s.now, r) ensures Named(now, s, r) {
      var i :| s.from <= i < s.upto && Names(was, i, r);
      NamesLater(was, now, i, r);
    }
    if AllExplained(was, s) {
      forall i | s.from <= i < s.upto ensures Explained(now, s, i) {
        assert Explained(was, s, i);
        if IsWrite(now, i) {
          assert IsWrite(was, i);
          var r :| Added(s.was, s.now, r) && Explains(was, i, r);
          ExplainsLater(was, now, i, r);
        }
      }
    }
  }

  lemma {:induction false} AddedJoins(a: Journal, b: Journal, c: Journal, r: Record)
    requires Extends(a, b) && Extends(b, c)
    ensures Added(a, c, r) <==> Added(a, b, r) || Added(b, c, r)
  {
    match r
    case OfUpdate(u) =>
      if Added(a, b, r) {
        var k :| |a.updated| <= k < |b.updated| && b.updated[k] == u;
        assert c.updated[k] == u;
      }
    case OfFile(f) =>
      if Added(a, b, r) {
        var k :| |a.created| <= k < |b.created| && b.created[k] == f;
        assert c.created[k] == f;
      }
    case OfDir(d) =>
      if Added(a, b, r) {
        var k :| |a.dirs| <= k < |b.dirs| && b.dirs[k] == d;
        assert c.dirs[k] == d;
      }
  }

  /** One span after another. */
  lemma {:induction false} SpansJoin(was: seq<Moment>, now: seq<Moment>, first: Span, second: Span)
    requires was <= now && AllNamed(was, first) && AllNamed(now, second)
    requires first.upto == second.from && first.now == second.was
    ensures var whole := Span(first.from, second.upto, first.was, second.now);
      AllNamed(now, whole) && (AllExplained(was, first) && AllExplained(now, second) ==> AllExplained(now, whole))
  {
    var whole := Span(first.from, second.upto, first.was, second.now);
    SpanLater(was, now, first);
    forall r | Added(whole.was, whole.now, r) ensures Named(now, whole, r) {
      AddedJoins(first.was, first.now, second.now, r);
      if Added(first.was, first.now, r) {
        assert Named(now, first, r);
        var i :| first.from <= i < first.upto && Names(now, i, r);
      } else {
        assert Named(now, second, r);
        var i :| second.from <= i < second.upto && Names(now, i, r);
      }
    }
    if AllExplained(was, first) && AllExplained(now, second) {
      forall i | whole.from <= i < whole.upto ensures Explained(now, whole, i) {
        ExplainedJoins(now, first, second, i);
      }
    }
  }

  lemma {:induction false} ExplainedJoins(trace: seq<Moment>, first: Span, second: Span, i: nat)
    requires Extends(first.was, first.now) && Extends(second.was, second.now) && first.now == second.was
    requires AllExplained(trace, first) && AllExplained(trace, second) && first.upto == second.from
    requires first.from <= i < second.upto
    ensures Explained(trace, Span(first.from, second.upto, first.was, second.now), i)
  {
    if i < first.upto { assert Explained(trace, first, i); } else { assert Explained(trace, second, i); }
    if IsWrite(trace, i) {
      var r :| (Added(first.was, first.now, r) || Added(second.was, second.now, r)) && Explains(trace, i, r);
      AddedJoins(first.was, first.now, second.now, r);
    }
  }

  lemma {:induction false} NothingAdded(trace: seq<Moment>, from: nat, j: Journal)
    requires from <= |trace|
    ensures AllNamed(trace, Span(from, |trace|, j, j))
    ensures NoWrites(trace, from, |trace|) ==> AllExplained(trace, Span(from, |trace|, j, j))
  {
  }

  /** A span that made one record, with one write of its own. */
  lemma {:induction false} OneAdded(trace: seq<Moment>, s: Span, i: nat, r: Record)
    requires s.from <= i < s.upto <= |trace| && Extends(s.was, s.now) && Added(s.was, s.now, r) && Names(trace, i, r)
    requires forall q :: Added(s.was, s.now, q) ==> q == r
    ensures AllNamed(trace, s)
    ensures (forall k :: s.from <= k < s.upto && IsWrite(trace, k) ==> Explains(trace, k, r)) ==> AllExplained(trace, s)
  {
  }

  // One step.

  ghost predicate OwnWrites(trace: seq<Moment>, from: nat, path: Path, id: nat) {
    forall i ::
      from <= i && IsWrite(trace, i) ==>
      trace[i].act == Wrote(path) && OwnChange(trace[i - 1].tree, trace[i].tree, path, id)
  }

  ghost predicate Lost(trace: seq<Moment>, from: nat, m: nat, p: Path)
    requires m < |trace|
  {
    && !DirAt(trace[m].tree, p)
    && (p in trace[m].tree || exists i :: from <= i < m && DirAt(trace[i].tree, p))
  }

  ghost predicate AncestorLost(trace: seq<Moment>, from: nat, m: nat, path: Path)
    requires m < |trace|
  {
    exists j :: 0 < j < |path| && Lost(trace, from, m, path[..j])
  }

  /** Before anything was made at the path, others had put something there or in place of a directory above it; or
      they had changed the new file by the check that follows it. */
  ghost predicate BlockedAt(trace: seq<Moment>, from: nat, m: nat, path: Path, spoils: nat -> bool)
    requires m < |trace|
  {
    || spoils(m)
    || ((forall i :: from <= i < m ==> trace[i].act != Wrote(path))
        && (path in trace[m].tree || AncestorLost(trace, from, m, path)))
  }

  ghost predicate Blocked(trace: seq<Moment>, from: nat, upto: nat, path: Path, spoils: nat -> bool) {
    exists m :: from <= m < upto <= |trace| && trace[m].act == Others && BlockedAt(trace, from, m, path, spoils)
  }

  /** Between two looks the file was not the same regular file with the expected bytes. */
  predicate Differs(a: Tree, b: Tree, path: Path, expectId: Option<nat>, expected: string) {
    !LookAt(a, path).Found? ||
    !Replaceable(b, path, Some(if expectId.Some? then expectId.value else LookAt(a, path).node.id), expected)
  }

  ghost predicate Balked(trace: seq<Moment>, from: nat, path: Path, expectId: Option<nat>, expected: string) {
    exists m, k :: from <= m <= k < |trace| && Differs(trace[m].tree, trace[k].tree, path, expectId, expected)
  }

  /** The look every step begins with. */
  predicate Looks(trace: seq<Moment>, s: Span, step: Step) {
    && s.from + 2 <= s.upto <= |trace| && trace[s.from].act == Others && trace[s.from + 1].act == Looked(step.path)
  }

  function DecisionAt(trace: seq<Moment>, s: Span, step: Step): Decision
    requires Looks(trace, s, step)
  {
    step.decide(ViewOf(trace[s.from + 1].tree))
  }

  ghost predicate Within(trace: seq<Moment>, s: Span, step: Step, i: nat) {
    IsWrite(trace, i) ==> StepWrite(trace, s.from, i, step)
  }

  ghost predicate WritesWithin(trace: seq<Moment>, s: Span, step: Step) {
    forall i {:trigger Within(trace, s, step, i)} :: s.from <= i < s.upto ==> Within(trace, s, step, i)
  }

  /** The step went through: at its look it had nothing to do, or it wrote, and the journal has exactly the records
      of its writes. A creation looks once for every directory above, three times where it makes one. */
  ghost predicate WentThrough(trace: seq<Moment>, step: Step, s: Span) {
    && AllNamed(trace, s) && AllExplained(trace, s) && WritesWithin(trace, s, step) && Looks(trace, s, step)
    && match DecisionAt(trace, s, step)
       case Refuse => false
       case Keep => s.now == s.was && s.upto == s.from + 2
       case Create(data) =>
         && s.now.updated == s.was.updated && |s.now.created| == |s.was.created| + 1
         && var f := s.now.created[|s.was.created|];
            f.path == step.path && f.written == data && LeafEnds(trace, s, f, s.from + 2)
       case Rewrite(original, mode, text) =>
         && s.now.created == s.was.created && s.now.dirs == s.was.dirs
         && exists id :: s.now.updated == s.was.updated + [Updated(step.path, original, mode, text, id)]
  }

  /** Where a creation's moments lie. */
  predicate LeafEnds(trace: seq<Moment>, s: Span, f: Created, from: nat) {
    && |s.was.dirs| <= |s.now.dirs| < |s.was.dirs| + |f.path|
    && var at := from + |f.path| - 1 + 2 * (|s.now.dirs| - |s.was.dirs|);
       && at + 2 < |trace| && trace[at].act == Others && Names(trace, at + 1, OfFile(f))
       && (forall i {:trigger trace[i]} :: from <= i <= at ==> trace[i].act != Wrote(f.path))
       && s.upto == at + if Leads(trace[at + 2].tree, f.path, f.id) then 4 else 3
  }

  /** Why a step may fail although no call does. */
  ghost predicate Reason(trace: seq<Moment>, step: Step, s: Span, spoils: nat -> bool)
    requires Looks(trace, s, step)
  {
    match DecisionAt(trace, s, step)
    case Refuse => s.upto == s.from + 2
    case Keep => false
    case Create(_) => Blocked(trace, s.from, s.upto, step.path, spoils)
    case Rewrite(original, _, _) => Balked(trace[..s.upto], s.from, step.path, None, original)
  }

  /** What can go wrong in a run: whether calls of the forward part, the look at a directory just made, or calls of
      the clean-up may fail, and when others have changed the mode or links of a file just written. */
  datatype Trouble = Trouble(apply: bool, gap: bool, undo: bool, spoils: nat -> bool) {
    predicate MayFail() { apply || gap }
  }

  /** A directory was made above the path, and the step ended at the look that should have recorded it: it was no
      directory any more, or the look failed. */
  predicate DirMissed(trace: seq<Moment>, upto: nat, path: Path, i: nat, gap: bool) {
    && DirWrite(trace, i, path) && upto == i + 2 <= |trace| && trace[i + 1].act == Others
    && (gap || !DirAt(trace[i + 1].tree, trace[i].act.path))
  }

  /** At moment m a leaf was made in vain: from then on only its inode was written, and unless cleaning up failed
      the name does not lead to it at the end. */
  ghost predicate LeafGone(trace: seq<Moment>, m: nat, path: Path, id: nat, undo: bool) {
    && Appears(trace, m, path) && trace[m].tree[path] == Node(id, File("", LEAF_MODE))
    && OwnWrites(trace, m + 1, path, id) && (undo || !Leads(trace[|trace| - 1].tree, path, id))
  }

  ghost predicate LeafMissed(trace: seq<Moment>, s: Span, path: Path, i: nat, undo: bool) {
    s.upto <= |trace| && exists m, id :: s.from < m <= i < s.upto && LeafGone(trace[..s.upto], m, path, id, undo)
  }

  /** A write without a record: of a directory that could not be recorded, or of a leaf made in vain. */
  ghost predicate Unrecorded(trace: seq<Moment>, s: Span, path: Path, i: nat, risks: Trouble) {
    s.from <= i < s.upto && (DirMissed(trace, s.upto, path, i, risks.gap) || LeafMissed(trace, s, path, i, risks.undo))
  }

  ghost predicate Settled(trace: seq<Moment>, s: Span, path: Path, i: nat, risks: Trouble) {
    IsWrite(trace, i) ==> Explained(trace, s, i) || Unrecorded(trace, s, path, i, risks)
  }

  /** Every write of the span has its record, or is one that needs none. */
  ghost predicate AllSettled(trace: seq<Moment>, s: Span, path: Path, risks: Trouble) {
    forall i {:trigger Settled(trace, s, path, i, risks)} :: s.from <= i < s.upto ==> Settled(trace, s, path, i, risks)
  }

  /** The step failed: every record it made is that of a write, every write has its record or is of a directory that
      could not be recorded or of a leaf made in vain, and unless a call failed there was a reason. */
  ghost predicate FellShort(trace: seq<Moment>, step: Step, s: Span, risks: Trouble) {
    && AllNamed(trace, s) && AllSettled(trace, s, step.path, risks)
    && s.now.created == s.was.created && s.now.updated == s.was.updated
    && WritesWithin(trace, s, step) && Looks(trace, s, step)
    && (risks.MayFail() || Reason(trace, step, s, risks.spoils))
  }

  lemma {:induction false} SettledLater(was: seq<Moment>, now: seq<Moment>, s: Span, path: Path, risks: Trouble)
    requires was <= now && s.upto <= |was| && AllSettled(was, s, path, risks)
    ensures AllSettled(now, s, path, risks)
  {
    assert now[..s.upto] == was[..s.upto];
    forall i | s.from <= i < s.upto ensures Settled(now, s, path, i, risks) {
      assert Settled(was, s, path, i, risks);
      if IsWrite(now, i) && Explained(was, s, i) {
        assert IsWrite(was, i);
        var r :| Added(s.was, s.now, r) && Explains(was, i, r);
        ExplainsLater(was, now, i, r);
      }
    }
  }

  /** Explained writes first, settled ones behind them. */
  lemma {:induction false} SettledJoins(was: seq<Moment>, now: seq<Moment>, first: Span, second: Span, path: Path,
                                        risks: Trouble)
    requires was <= now && AllNamed(was, first) && AllExplained(was, first) && Extends(second.was, second.now)
    requires AllSettled(now, second, path, risks) && first.upto == second.from && first.now == second.was
    ensures AllSettled(now, Span(first.from, second.upto, first.was, second.now), path, risks)
  {
    var whole := Span(first.from, second.upto, first.was, second.now);
    SpanLater(was, now, first);
    forall i | whole.from <= i < whole.upto ensures Settled(now, whole, path, i, risks) {
      if i < first.upto {
        assert Explained(now, first, i);
        if IsWrite(now, i) {
          var r :| Added(first.was, first.now, r) && Explains(now, i, r);
          AddedJoins(first.was, first.now, second.now, r);
        }
      } else {
        SettledFrom(now, first, second, path, i, risks);
      }
    }
  }

  lemma {:induction false} SettledFrom(trace: seq<Moment>, first: Span, second: Span, path: Path, i: nat,
                                       risks: Trouble)
    requires Extends(first.was, first.now) && Extends(second.was, second.now) && first.now == second.was
    requires AllSettled(trace, second, path, risks) && first.from <= first.upto == second.from <= i < second.upto
    ensures Settled(trace, Span(first.from, second.upto, first.was, second.now), path, i, risks)
  {
    var whole := Span(first.from, second.upto, first.was, second.now);
    assert Settled(trace, second, path, i, risks);
    if IsWrite(trace, i) {
      if Explained(trace, second, i) {
        var r :| Added(second.was, second.now, r) && Explains(trace, i, r);
        AddedJoins(first.was, first.now, second.now, r);
      } else if LeafMissed(trace, second, path, i, risks.undo) {
        var m, id :| second.from < m <= i < second.upto && LeafGone(trace[..second.upto], m, path, id, risks.undo);
        assert LeafGone(trace[..whole.upto], m, path, id, risks.undo);
      }
    }
  }

  lemma {:induction false} ExplainedIsSettled(trace: seq<Moment>, s: Span, path: Path, risks: Trouble)
    requires AllExplained(trace, s)
    ensures AllSettled(trace, s, path, risks)
  {
    forall i | s.from <= i < s.upto ensures Settled(trace, s, path, i, risks) { assert Explained(trace, s, i); }
  }

  // The steps of a run.

  /** One span for each of the leading steps, one after the other. */
  ghost predicate Accounted(trace: seq<Moment>, steps: seq<Step>, spans: seq<Span>, begin: nat, end: nat, last: Journal)
    decreases |spans|
  {
    && |spans| <= |steps|
    && if spans == [] then begin == end && last == NOTHING
       else
         var s := spans[|spans| - 1];
         && s.upto == end && s.now == last && WentThrough(trace, steps[|spans| - 1], s)
         && Accounted(trace, steps, spans[..|spans| - 1], begin, s.from, s.was)
  }

  lemma {:induction false} WithinLater(was: seq<Moment>, now: seq<Moment>, s: Span, step: Step)
    requires was <= now && s.upto <= |was| && WritesWithin(was, s, step)
    ensures WritesWithin(now, s, step)
  {
    forall i | s.from <= i < s.upto ensures Within(now, s, step, i) {
      assert Within(was, s, step, i);
      if IsWrite(now, i) {
        assert IsWrite(was, i);
        StepWriteLater(was, now, s.from, i, step);
      }
    }
  }

  lemma {:induction false} WentThroughLater(was: seq<Moment>, now: seq<Moment>, step: Step, s: Span)
    requires was <= now && WentThrough(was, step, s)
    ensures WentThrough(now, step, s)
  {
    SpanLater(was, now, s);
    WithinLater(was, now, s, step);
    if DecisionAt(was, s, step).Create? {
      var f := s.now.created[|s.was.created|];
      NamesLater(was, now, s.from + 2 + |f.path| - 1 + 2 * (|s.now.dirs| - |s.was.dirs|) + 1, OfFile(f));
    }
  }

  lemma {:induction false} AccountedLater(was: seq<Moment>, now: seq<Moment>, steps: seq<Step>, spans: seq<Span>,
                                          begin: nat, end: nat, last: Journal)
    requires was <= now && Accounted(was, steps, spans, begin, end, last)
    ensures Accounted(now, steps, spans, begin, end, last)
    decreases |spans|
  {
    if spans != [] {
      var s := spans[|spans| - 1];
      WentThroughLater(was, now, steps[|spans| - 1], s);
      AccountedLater(was, now, steps, spans[..|spans| - 1], begin, s.from, s.was);
    }
  }

  /** Every record of the steps so far names a write of one of them. */
  lemma {:induction false} RecordsNameWrites(trace: seq<Moment>, steps: seq<Step>, spans: seq<Span>, begin: nat,
                                             end: nat, last: Journal)
    requires Accounted(trace, steps, spans, begin, end, last) && begin <= |trace|
    ensures AllNamed(trace, Span(begin, end, NOTHING, last)) && AllExplained(trace, Span(begin, end, NOTHING, last))
    decreases |spans|
  {
    if spans != [] {
      var s := spans[|spans| - 1];
      RecordsNameWrites(trace, steps, spans[..|spans| - 1], begin, s.from, s.was);
      SpansJoin(trace, trace, Span(begin, s.from, NOTHING, s.was), s);
    }
  }

  lemma {:induction false} AccountedGrows(was: seq<Moment>, now: seq<Moment>, steps: seq<Step>, spans: seq<Span>,
                                          begin: nat, s: Span)
    requires was <= now && Accounted(was, steps, spans, begin, s.from, s.was) && |spans| < |steps|
    requires WentThrough(now, steps[|spans|], s)
    ensures Accounted(now, steps, spans + [s], begin, s.upto, s.now)
  {
    AccountedLater(was, now, steps, spans, begin, s.from, s.was);
    assert (spans + [s])[..|spans|] == spans;
  }

  /** The steps of a run that failed: those that went through, and the one that did not. */
  ghost predicate Stuck(trace: seq<Moment>, steps: seq<Step>, spans: seq<Span>, begin: nat, end: nat, last: Journal,
                        risks: Trouble) {
    && 0 < |spans| <= |steps|
    && var n := |spans| - 1;
       && Accounted(trace, steps, spans[..n], begin, spans[n].from, spans[n].was)
       && FellShort(trace, steps[n], spans[n], risks) && spans[n].upto == end && spans[n].now == last
  }

  lemma {:induction false} FellShortLater(was: seq<Moment>, now: seq<Moment>, step: Step, s: Span, risks: Trouble)
    requires was <= now && FellShort(was, step, s, risks)
    ensures FellShort(now, step, s, risks)
  {
    SpanLater(was, now, s);
    WithinLater(was, now, s, step);
    assert now[..s.upto] == was[..s.upto];
    if !risks.MayFail() && DecisionAt(was, s, step).Create? {
      BlockedLater(was, now, s.from, s.upto, step.path, risks.spoils);
    }
    SettledLater(was, now, s, step.path, risks);
  }

  lemma {:induction false} BlockedLater(was: seq<Moment>, now: seq<Moment>, from: nat, upto: nat, path: Path,
                                        spoils: nat -> bool)
    requires was <= now && Blocked(was, from, upto, path, spoils)
    ensures Blocked(now, from, upto, path, spoils)
  {
    var m :| from <= m < upto && was[m].act == Others && BlockedAt(was, from, m, path, spoils);
    if !spoils(m) && path !in was[m].tree {
      var j :| 0 < j < |path| && Lost(was, from, m, path[..j]);
      assert Lost(now, from, m, path[..j]);
    }
    assert BlockedAt(now, from, m, path, spoils);
  }

  lemma {:induction false} StuckLater(was: seq<Moment>, now: seq<Moment>, steps: seq<Step>, spans: seq<Span>,
                                      begin: nat, end: nat, last: Journal, risks: Trouble)
    requires was <= now && Stuck(was, steps, spans, begin, end, last, risks)
    ensures Stuck(now, steps, spans, begin, end, last, risks)
  {
    var n := |spans| - 1;
    AccountedLater(was, now, steps, spans[..n], begin, spans[n].from, spans[n].was);
    FellShortLater(was, now, steps[n], spans[n], risks);
  }

  lemma {:induction false} StuckHere(was: seq<Moment>, now: seq<Moment>, steps: seq<Step>, spans: seq<Span>, begin: nat,
                                     s: Span, risks: Trouble)
    requires was <= now && Accounted(was, steps, spans, begin, s.from, s.was) && |spans| < |steps|
    requires FellShort(now, steps[|spans|], s, risks)
    ensures Stuck(now, steps, spans + [s], begin, s.upto, s.now, risks)
  {
    AccountedLater(was, now, steps, spans, begin, s.from, s.was);
    var all := spans + [s];
    assert all[|all| - 1] == s && all[..|all| - 1] == spans;
  }

  /** The spans with that of the step just taken, whichever way it ended. */
  lemma {:induction false} AnotherSpan(was: seq<Moment>, now: seq<Moment>, steps: seq<Step>, spans: seq<Span>,
                                       begin: nat, s: Span, ok: bool, risks: Trouble)
    returns (more: seq<Span>)
    requires was <= now && Accounted(was, steps, spans, begin, s.from, s.was) && |spans| < |steps|
    requires if ok then WentThrough(now, steps[|spans|], s) else FellShort(now, steps[|spans|], s, risks)
    ensures more == spans + [s]
    ensures if ok then Accounted(now, steps, more, begin, s.upto, s.now)
      else Stuck(now, steps, more, begin, s.upto, s.now, risks)
  {
    more := spans + [s];
    if ok {
      AccountedGrows(was, now, steps, spans, begin, s);
    } else {
      StuckHere(was, now, steps, spans, begin, s, risks);
    }
  }

  /** What the loop over the steps keeps, and how it ends. */
  ghost predicate Logs(trace: seq<Moment>, steps: seq<Step>, spans: seq<Span>, begin: nat, end: nat, last: Journal,
                       ok: bool, risks: Trouble) {
    && ForwardWrites(trace, begin, end, steps)
    && if ok then Accounted(trace, steps, spans, begin, end, last)
      else Stuck(trace, steps, spans, begin, end, last, risks)
  }

  lemma {:induction false} TakenGrows(was: seq<Moment>, now: seq<Moment>, steps: seq<Step>, spans: seq<Span>,
                                      begin: nat, s: Span, ok: bool, risks: Trouble)
    requires was <= now && begin <= |was| == s.from && |now| == s.upto && |spans| < |steps|
    requires Logs(was, steps, spans, begin, |was|, s.was, true, risks)
      && StepWrites(now, |was|, steps[|spans|])
    requires if ok then WentThrough(now, steps[|spans|], s) else FellShort(now, steps[|spans|], s, risks)
    ensures Logs(now, steps, spans + [s], begin, |now|, s.now, ok, risks)
  {
    ForwardGrows(was, now, begin, steps, |spans|);
    var _ := AnotherSpan(was, now, steps, spans, begin, s, ok, risks);
  }

  // The parts of a step.

  ghost predicate WasDir(trace: seq<Moment>, from: nat, p: Path) {
    exists i :: from <= i < |trace| && DirAt(trace[i].tree, p)
  }

  /** A directory component was found, or made and found again one moment later. */
  ghost predicate DirTaken(trace: seq<Moment>, from: nat, prefix: Path, was: seq<MadeDir>, now: seq<MadeDir>) {
    && from < |trace| && trace[from].act == Others
    && if now == was then |trace| == from + 1
       else
         && |now| == |was| + 1 && was <= now && now[|was|].path == prefix && |trace| == from + 3
         && Names(trace, from + 1, OfDir(now[|was|]))
  }

  ghost predicate DirRefused(trace: seq<Moment>, from: nat, prefix: Path) {
    && from < |trace| && trace[|trace| - 1].act == Others
    && (Lost(trace, from, |trace| - 1, prefix)
      || exists j :: 0 < j < |prefix| && !DirAt(trace[|trace| - 1].tree, prefix[..j]))
  }

  /** The components before the k-th were taken, this many of them made. */
  ghost predicate DirsTaken(trace: seq<Moment>, from: nat, path: Path, k: nat, made: int) {
    && 0 <= made < k <= |path| && |trace| == from + k - 1 + 2 * made
    && forall j {:trigger path[..j]} :: 0 < j < k ==> WasDir(trace, from, path[..j])
  }

  lemma {:induction false} DirsTakenGrow(was: seq<Moment>, now: seq<Moment>, from: nat, path: Path, k: nat, made: int,
                                         before: seq<MadeDir>, after: seq<MadeDir>)
    requires was <= now && 0 < k < |path| && DirsTaken(was, from, path, k, made)
    requires DirTaken(now, |was|, path[..k], before, after) && DirAt(now[|now| - 1].tree, path[..k])
    ensures DirsTaken(now, from, path, k + 1, made + |after| - |before|)
  {
    forall j | 0 < j < k + 1 ensures WasDir(now, from, path[..j]) {
      if j < k {
        assert WasDir(was, from, path[..j]);
        var i :| from <= i < |was| && DirAt(was[i].tree, path[..j]);
        assert DirAt(now[i].tree, path[..j]);
      }
    }
  }

  /** Refused at the k-th component: what was a directory is one no more. */
  lemma {:induction false} LostHere(was: seq<Moment>, now: seq<Moment>, from: nat, path: Path, k: nat, made: int)
    requires was <= now && 0 < k < |path| && DirsTaken(was, from, path, k, made) && DirRefused(now, |was|, path[..k])
    ensures AncestorLost(now, from, |now| - 1, path)
  {
    var m := |now| - 1;
    if Lost(now, |was|, m, path[..k]) {
      assert Lost(now, from, m, path[..k]);
    } else {
      var j :| 0 < j < |path[..k]| && !DirAt(now[m].tree, path[..k][..j]);
      assert path[..k][..j] == path[..j];
      assert WasDir(was, from, path[..j]);
      var i :| from <= i < |was| && DirAt(was[i].tree, path[..j]);
      assert DirAt(now[i].tree, path[..j]);
      assert Lost(now, from, m, path[..j]);
    }
  }

  lemma {:induction false} DirSpan(trace: seq<Moment>, at: nat, was: Journal, now: Journal, prefix: Path)
    requires DirTaken(trace, at, prefix, was.dirs, now.dirs) && now.created == was.created && now.updated == was.updated
    ensures AllNamed(trace, Span(at, |trace|, was, now)) && AllExplained(trace, Span(at, |trace|, was, now))
  {
    if now.dirs == was.dirs {
      assert now == was;
      NothingAdded(trace, at, was);
    } else {
      OneAdded(trace, Span(at, |trace|, was, now), at + 1, OfDir(now.dirs[|was.dirs|]));
    }
  }

  /** A file was made in these moments, and only its inode was touched. */
  ghost predicate LeafMade(trace: seq<Moment>, at: nat, f: Created) {
    && at + 2 < |trace| && trace[at].act == Others && Names(trace, at + 1, OfFile(f))
    && |trace| == at + (if Leads(trace[at + 2].tree, f.path, f.id) then 4 else 3)
    && forall i {:trigger IsWrite(trace, i)} :: at <= i && IsWrite(trace, i) ==> Explains(trace, i, OfFile(f))
  }

  ghost predicate LeafBlocked(trace: seq<Moment>, at: nat, path: Path, spoils: nat -> bool) {
    || (at < |trace| && trace[at].act == Others && !Creatable(trace[at].tree, path))
    || (at + 2 < |trace| && trace[at + 2].act == Others && spoils(at + 2))
  }

  /** No leaf was made, or one in vain. */
  ghost predicate LeafUndone(trace: seq<Moment>, at: nat, path: Path, undo: bool) {
    || NoWrites(trace, at, |trace|)
    || (!IsWrite(trace, at) && exists m, id :: m == at + 1 && LeafGone(trace, m, path, id, undo))
  }

  /** Of a leaf that could not be made no write needs a record. */
  lemma {:induction false} LeafSettled(trace: seq<Moment>, at: nat, j: Journal, path: Path, risks: Trouble)
    requires at <= |trace| && LeafUndone(trace, at, path, risks.undo)
    ensures AllSettled(trace, Span(at, |trace|, j, j), path, risks)
  {
    assert trace[..|trace|] == trace;
    forall i | at <= i < |trace| ensures Settled(trace, Span(at, |trace|, j, j), path, i, risks) {}
  }

  /** Of a directory that could not be taken no write needs a record. */
  lemma {:induction false} DirSettled(trace: seq<Moment>, at: nat, j: Journal, path: Path, k: nat, risks: Trouble)
    requires at <= |trace| && 0 < k < |path| && DirUnrecorded(trace, at, path[..k], risks.gap)
    ensures AllSettled(trace, Span(at, |trace|, j, j), path, risks)
  {
    assert path[..k] in Ancestors(path);
    forall i | at <= i < |trace| ensures Settled(trace, Span(at, |trace|, j, j), path, i, risks) {
      if IsWrite(trace, i) { assert DirLeft(trace, i, path[..k], risks.gap); }
    }
  }

  /** The directory made at moment i could not be recorded at the last moment. */
  predicate DirLeft(trace: seq<Moment>, i: nat, prefix: Path, gap: bool) {
    && Appears(trace, i, prefix) && trace[i].tree[prefix].body == Dir && |trace| == i + 2
    && trace[i + 1].act == Others && (gap || !DirAt(trace[i + 1].tree, prefix))
  }

  ghost predicate DirUnrecorded(trace: seq<Moment>, at: nat, prefix: Path, gap: bool) {
    forall i {:trigger DirLeft(trace, i, prefix, gap)} ::
      at <= i && IsWrite(trace, i) ==> DirLeft(trace, i, prefix, gap)
  }

  lemma {:induction false} LeafSpan(trace: seq<Moment>, at: nat, was: Journal, now: Journal, f: Created)
    requires LeafMade(trace, at, f) && now == was.(created := was.created + [f])
    ensures AllNamed(trace, Span(at, |trace|, was, now)) && AllExplained(trace, Span(at, |trace|, was, now))
  {
    assert now.created[|was.created|] == f;
    OneAdded(trace, Span(at, |trace|, was, now), at + 1, OfFile(f));
  }

  lemma {:induction false} UpdateSpan(trace: seq<Moment>, from: nat, was: Journal, now: Journal, u: Updated)
    requires from < |trace| && NoWrites(trace, from, |trace| - 1) && Names(trace, |trace| - 1, OfUpdate(u))
    requires now == was.(updated := was.updated + [u])
    ensures AllNamed(trace, Span(from, |trace|, was, now)) && AllExplained(trace, Span(from, |trace|, was, now))
  {
    assert now.updated[|was.updated|] == u;
    OneAdded(trace, Span(from, |trace|, was, now), |trace| - 1, OfUpdate(u));
  }

  lemma {:induction false} LostBlocks(trace: seq<Moment>, from: nat, path: Path, spoils: nat -> bool)
    requires 0 < from < |trace| && trace[|trace| - 1].act == Others && AncestorLost(trace, from, |trace| - 1, path)
    requires forall i :: from <= i < |trace| ==> trace[i].act != Wrote(path)
    ensures Blocked(trace, from, |trace|, path, spoils)
  {
    assert BlockedAt(trace, from, |trace| - 1, path, spoils);
  }

  lemma {:induction false} LeafBlocks(was: seq<Moment>, now: seq<Moment>, from: nat, path: Path, made: int,
                                      spoils: nat -> bool)
    requires 0 < from <= |was| && was <= now && path != [] && DirsTaken(was, from, path, |path|, made)
    requires LeafBlocked(now, |was|, path, spoils)
    requires forall i :: from <= i < |was| ==> was[i].act != Wrote(path)
    ensures Blocked(now, from, |now|, path, spoils)
  {
    var m := |was|;
    if m < |now| && now[m].act == Others && !Creatable(now[m].tree, path) {
      if path !in now[m].tree {
        var j :| 0 < j < |path| && !DirAt(now[m].tree, path[..j]);
        assert WasDir(was, from, path[..j]);
        var i :| from <= i < |was| && DirAt(was[i].tree, path[..j]);
        assert DirAt(now[i].tree, path[..j]);
        assert Lost(now, from, m, path[..j]);
      }
      assert BlockedAt(now, from, m, path, spoils);
    } else {
      assert BlockedAt(now, from, m + 2, path, spoils);
    }
  }

  /** A creation behind its look. */
  lemma {:induction false} CreationAccount(looked: seq<Moment>, trace: seq<Moment>, from: nat, step: Step, was: Journal,
                                           now: Journal, data: string, ok: bool, risks: Trouble)
    requires looked <= trace && |looked| == from + 2 && looked[from].act == Others
      && looked[from + 1].act == Looked(step.path)
    requires step.decide(ViewOf(looked[from + 1].tree)) == Create(data) && StepWrites(trace, from, step)
    requires AllNamed(trace, Span(|looked|, |trace|, was, now)) && now.updated == was.updated
    requires ok ==>
      AllExplained(trace, Span(|looked|, |trace|, was, now))
      && exists id :: now.created == was.created + [Created(step.path, data, id)]
    requires ok ==> LeafEnds(trace, Span(|looked|, |trace|, was, now), now.created[|was.created|], |looked|)
    requires !ok ==>
      now.created == was.created && (risks.MayFail() || Blocked(trace, |looked|, |trace|, step.path, risks.spoils))
    requires !ok ==> AllSettled(trace, Span(|looked|, |trace|, was, now), step.path, risks)
    ensures ok ==> WentThrough(trace, step, Span(from, |trace|, was, now))
    ensures !ok ==> FellShort(trace, step, Span(from, |trace|, was, now), risks)
  {
    LookSpan(looked, from, was);
    SpansJoin(looked, trace, Span(from, |looked|, was, was), Span(|looked|, |trace|, was, now));
    if !ok {
      SettledJoins(looked, trace, Span(from, |looked|, was, was), Span(|looked|, |trace|, was, now), step.path, risks);
    }
    if !ok && !risks.MayFail() {
      var m :| |looked| <= m < |trace| && trace[m].act == Others
        && BlockedAt(trace, |looked|, m, step.path, risks.spoils);
      if !risks.spoils(m) && step.path !in trace[m].tree {
        var j :| 0 < j < |step.path| && Lost(trace, |looked|, m, step.path[..j]);
        assert Lost(trace, from, m, step.path[..j]);
      }
      assert BlockedAt(trace, from, m, step.path, risks.spoils);
    }
  }

  lemma {:induction false} LookSpan(looked: seq<Moment>, from: nat, j: Journal)
    requires |looked| == from + 2 && looked[from].act == Others && looked[from + 1].act.Looked?
    ensures AllNamed(looked, Span(from, |looked|, j, j)) && AllExplained(looked, Span(from, |looked|, j, j))
  {
    NothingAdded(looked, from, j);
  }

  /** A rewrite behind its look. */
  lemma {:induction false} RewriteAccount(looked: seq<Moment>, trace: seq<Moment>, from: nat, step: Step, was: Journal,
                                          now: Journal, ok: bool, risks: Trouble)
    requires looked <= trace && |looked| == from + 2 && looked[from].act == Others
      && looked[from + 1].act == Looked(step.path)
    requires step.decide(ViewOf(looked[from + 1].tree)).Rewrite? && StepWrites(trace, from, step)
    requires AllNamed(trace, Span(|looked|, |trace|, was, now))
      && AllExplained(trace, Span(|looked|, |trace|, was, now))
    requires now.created == was.created && now.dirs == was.dirs
    requires var d := step.decide(ViewOf(looked[from + 1].tree));
      if ok then exists id :: now.updated == was.updated + [Updated(step.path, d.original, d.mode, d.text, id)]
      else now.updated == was.updated && (risks.MayFail() || Balked(trace, |looked|, step.path, None, d.original))
    ensures ok ==> WentThrough(trace, step, Span(from, |trace|, was, now))
    ensures !ok ==> FellShort(trace, step, Span(from, |trace|, was, now), risks)
  {
    var d := step.decide(ViewOf(looked[from + 1].tree));
    LookSpan(looked, from, was);
    SpansJoin(looked, trace, Span(from, |looked|, was, was), Span(|looked|, |trace|, was, now));
    assert trace[..|trace|] == trace;
    ExplainedIsSettled(trace, Span(from, |trace|, was, now), step.path, risks);
    if !ok && !risks.MayFail() {
      var m, k :| |looked| <= m <= k < |trace| && Differs(trace[m].tree, trace[k].tree, step.path, None, d.original);
      assert Balked(trace, from, step.path, None, d.original);
    }
  }

  lemma {:induction false} NoAccount(looked: seq<Moment>, from: nat, step: Step, j: Journal, risks: Trouble)
    requires |looked| == from + 2 && looked[from].act == Others && looked[from + 1].act == Looked(step.path)
    requires StepWrites(looked, from, step)
    ensures var d := step.decide(ViewOf(looked[from + 1].tree));
      && (d.Keep? ==> WentThrough(looked, step, Span(from, |looked|, j, j)))
      && (d.Refuse? ==> FellShort(looked, step, Span(from, |looked|, j, j), risks))
  {
    LookSpan(looked, from, j);
    ExplainedIsSettled(looked, Span(from, |looked|, j, j), step.path, risks);
  }

  // Directories.

  /** Others put another directory in place of the one just made. */
  predicate Swapped(a: Tree, b: Tree, p: Path) { p in a && p in b && a[p].id != b[p].id }

  /** In every run: the directory a rollback removes is another one than the one made exactly when others replaced
      it between the making and the look that records it. */
  lemma {:induction false} RemovedDirectoryIsOurs(trace: seq<Moment>, world: World, foreign: bool, i: nat, from: nat,
        k: nat, d: MadeDir)
    requires Linked(trace, world, foreign) && Names(trace, i, OfDir(d)) && Undoes(trace, from, k, OfDir(d))
    ensures trace[i + 1].tree == Disturbed(world, foreign, i + 1, trace[i].tree)
    ensures trace[k - 1].tree[d.path].id != trace[i].tree[d.path].id <==>
      Swapped(trace[i].tree, trace[i + 1].tree, d.path)
  {
    assert Follows(trace, i + 1, world, foreign);
  }
}

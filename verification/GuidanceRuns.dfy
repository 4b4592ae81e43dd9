/** Two runs of `apply` in which nothing fails and rollback takes away what this process did not make. */
module GuidanceRuns {
  import opened Basics
  import opened GuidanceTree
  import opened GuidanceTrace
  import opened GuidanceJournal
  import opened GuidanceApply

  /** Creates one file; refuses at another. */
  function Creates(path: Path, data: string): Step { Step(path, (v: View) => Create(data)) }

  function Refuses(path: Path): Step { Step(path, (v: View) => Refuse) }

  const RULES: Path := ["AGENTS.md"]

  /** No write and no change by others: the tree stays. */
  lemma {:induction false} Still(trace: seq<Moment>, world: World, i: nat, j: nat)
    requires Linked(trace, world, true) && i <= j < |trace| && NoWrites(trace, i + 1, j + 1)
    requires forall n :: i < n <= j ==> world(n, trace[i].tree) == trace[i].tree
    ensures trace[j].tree == trace[i].tree
    decreases j
  {
    if i < j {
      Still(trace, world, i, j - 1);
      assert Follows(trace, j, world, true);
      assert !IsWrite(trace, j);
    }
  }

  /** A span in which only a file at the root is created writes nothing else. */
  lemma {:induction false} RootWrites(trace: seq<Moment>, s: Span, step: Step, i: nat)
    requires WritesWithin(trace, s, step) && s.from <= i < s.upto && IsWrite(trace, i)
    requires |step.path| == 1 && forall v :: !step.decide(v).Rewrite?
    ensures trace[i].act == Wrote(step.path)
  {
    assert Within(trace, s, step, i);
  }

  /** A run with two steps, of which the second refuses, ends with the first one through and the second one not. */
  lemma {:induction false} TwoSteps(trace: seq<Moment>, steps: seq<Step>, spans: seq<Span>, start: nat, book: Journal,
                                    spoils: nat -> bool)
    requires |steps| == 2 && Stuck(trace, steps, spans, 1, start, book, NoFaults(spoils))
    requires forall s: Span :: s.from == 1 && s.was == NOTHING ==> !FellShort(trace, steps[0], s, NoFaults(spoils))
    ensures |spans| == 2 && WentThrough(trace, steps[0], spans[0])
      && FellShort(trace, steps[1], spans[1], NoFaults(spoils))
    ensures spans[0].from == 1 && spans[0].was == NOTHING && spans[0].upto == spans[1].from
      && spans[0].now == spans[1].was
    ensures spans[1].upto == start && spans[1].now == book
  {
    assert spans[..1] == [spans[0]];
    OneSpan(trace, steps, spans[0], spans[1].from, spans[1].was);
  }

  lemma {:induction false} OneSpan(trace: seq<Moment>, steps: seq<Step>, s: Span, end: nat, last: Journal)
    requires steps != [] && Accounted(trace, steps, [s], 1, end, last)
    ensures s.from == 1 && s.was == NOTHING && s.upto == end && s.now == last && WentThrough(trace, steps[0], s)
  {
    assert [s][..0] == [];
  }

  function Never(n: nat): bool { false }

  /** No call fails. */
  function NoFaults(spoils: nat -> bool): Trouble { Trouble(false, false, false, spoils) }

  /** A file to be created, then one that is refused. */
  function Two(path: Path): seq<Step> { [Creates(path, "guide"), Refuses(RULES)] }

  lemma {:induction false} TwoWellFormed(path: Path)
    requires path != [] && path != RULES
    ensures WellFormedSteps(Two(path))
  {
  }

  /** A run of two steps, of which the second refuses, as `apply` leaves it. */
  ghost predicate Ran(trace: seq<Moment>, steps: seq<Step>, spans: seq<Span>, start: nat, book: Journal,
                      turns: seq<Turn>, outcome: Outcome) {
    if outcome.Done? then |spans| == |steps| && Accounted(trace, steps, spans, 1, start, book)
    else
      && Stuck(trace, steps, spans, 1, start, book, NoFaults(Never))
      && start < |trace| && trace[start].act == RollbackStarted
      && var recs := Records(book.created, book.dirs, book.updated);
         && Logged(trace, start + 1, turns, recs, false)
         && (outcome.undo.Report? ==>
           |turns| == |recs| && NoneRaised(turns) && outcome.undo.incomplete == KeptPaths(turns))
         && (outcome.undo.Escaped? ==> !NoneRaised(turns))
  }

  /** It has failed, and every record has had its turn. */
  lemma {:induction false} RanToTheEnd(trace: seq<Moment>, steps: seq<Step>, spans: seq<Span>, start: nat,
                                       book: Journal, turns: seq<Turn>, outcome: Outcome)
    requires |steps| == 2 && steps[1] == Refuses(RULES) && Ran(trace, steps, spans, start, book, turns, outcome)
    ensures outcome == Failed(Report(KeptPaths(turns)))
    ensures NoneRaised(turns) && |turns| == |Records(book.created, book.dirs, book.updated)|
  {
    if outcome.Done? {
      RefusalEnds(trace, steps, spans, start, book);
    } else {
      OnlyFaultsRaise(trace, start + 1, turns, Records(book.created, book.dirs, book.updated));
    }
  }

  lemma {:induction false} OnlyFaultsRaise(trace: seq<Moment>, begin: nat, turns: seq<Turn>, recs: seq<Record>)
    requires Logged(trace, begin, turns, recs, false)
    ensures NoneRaised(turns)
  {
    forall j | 0 <= j < |turns| ensures turns[j].result != Raised { assert TurnOk(trace, turns[j], false); }
  }

  lemma {:induction false} RefusalEnds(trace: seq<Moment>, steps: seq<Step>, spans: seq<Span>, end: nat, book: Journal)
    requires |steps| == 2 && steps[1] == Refuses(RULES) && |spans| == 2
    ensures !Accounted(trace, steps, spans, 1, end, book)
  {
    NeverThrough(trace, steps[1], spans[1]);
  }

  lemma {:induction false} NeverThrough(trace: seq<Moment>, step: Step, s: Span)
    requires step == Refuses(RULES)
    ensures !WentThrough(trace, step, s)
  {
  }

  // An edit in the window.

  const NOTES: Path := ["notes.md"]

  function Edits(n: nat, t: Tree): Tree {
    if n == 12 && NOTES in t then t[NOTES := Node(t[NOTES].id, File("edited guide", LEAF_MODE))] else t
  }

  /** The first step finds nothing in its way. */
  lemma {:induction false} NotesGoThrough(trace: seq<Moment>, s: Span, spoils: nat -> bool)
    requires Linked(trace, Edits, true) && trace[0].tree == map[] && s.from == 1 && forall n :: !spoils(n)
    ensures !FellShort(trace, Creates(NOTES, "guide"), s, NoFaults(spoils))
  {
    var step := Creates(NOTES, "guide");
    if FellShort(trace, step, s, NoFaults(spoils)) {
      var m :| s.from <= m < s.upto && trace[m].act == Others && BlockedAt(trace, s.from, m, NOTES, spoils);
      forall i | 1 <= i < m + 1 ensures !IsWrite(trace, i) {
        if IsWrite(trace, i) { RootWrites(trace, s, step, i); }
      }
      Still(trace, Edits, 0, m);
      assert false;
    }
  }

  /** After the first step the file is there, and only its record is. */
  lemma {:induction false} NotesWritten(trace: seq<Moment>, s: Span) returns (f: Created)
    requires Linked(trace, Edits, true) && s.from == 1 && s.was == NOTHING
    requires WentThrough(trace, Creates(NOTES, "guide"), s)
    ensures s.upto == 7 && s.now == Journal([f], [], []) && f.path == NOTES && f.written == "guide"
    ensures exists mode :: trace[6].tree == trace[5].tree[NOTES := Node(f.id, File("guide", mode))]
  {
    f := s.now.created[0];
    assert Follows(trace, 5, Edits, true);
    assert s.now.created == [f] && s.now.dirs == [];
  }

  /** The refusing step adds nothing. */
  lemma {:induction false} RefusalAdds(trace: seq<Moment>, s: Span, path: Path, spoils: nat -> bool)
    requires FellShort(trace, Refuses(path), s, NoFaults(spoils))
    ensures s.upto == s.from + 2 && s.now == s.was
  {
    if |s.now.dirs| > |s.was.dirs| {
      var r := OfDir(s.now.dirs[|s.was.dirs|]);
      assert Added(s.was, s.now, r);
      assert Named(trace, s, r);
      var i :| s.from <= i < s.upto && Names(trace, i, r);
      assert false;
    }
    assert s.now.dirs == s.was.dirs;
  }

  lemma {:induction false} OneRecord(f: Created)
    ensures Records([f], [], []) == [OfFile(f)]
  {
  }

  lemma {:induction false} OneTurn(trace: seq<Moment>, begin: nat, turns: seq<Turn>, r: Record, faults: bool)
    requires Logged(trace, begin, turns, [r], faults) && |turns| == 1
    ensures turns[0].record == r && turns[0].from == begin && turns[0].upto == |trace|
      && TurnOk(trace, turns[0], faults)
  {
    assert turns == [turns[0]];
    OneChain(turns[0], begin, |trace|);
    assert [r][0] == r;
  }

  lemma {:induction false} OneKept(turns: seq<Turn>)
    requires |turns| == 1 && (turns[0].result == Reverted || turns[0].result == Gone)
    ensures NoneRaised(turns) && KeptPaths(turns) == []
  {
    assert turns[..0] == [];
  }

  lemma {:induction false} OneChain(t: Turn, begin: nat, end: nat)
    requires Chain([t], begin, end)
    ensures t.from == begin && t.upto == end
  {
    assert [t][..0] == [];
  }

  /** The file's turn: looked at, edited, removed. */
  lemma {:induction false} NotesRemoved(trace: seq<Moment>, t: Turn, f: Created, mode: nat)
    requires Linked(trace, Edits, true) && t.record == OfFile(f) && t.from == 10 && t.upto == |trace|
      && TurnOk(trace, t, false)
    requires f.path == NOTES && f.written == "guide" && trace[6].tree == map[NOTES := Node(f.id, File("guide", mode))]
    requires trace[7].act == Others && trace[8].act.Looked? && trace[9].act == RollbackStarted
    ensures t.result == Reverted && |trace| == 14 && trace[13].act == Wrote(NOTES)
    ensures trace[11].tree == trace[6].tree && trace[12].tree == Edits(12, trace[6].tree) && trace[13].tree == map[]
  {
    forall k | 6 < k < |trace| && k < 12 && NoWrites(trace, 10, k + 1) ensures trace[k].tree == trace[6].tree {
      forall i | 7 <= i < k + 1 ensures !IsWrite(trace, i) {}
      Still(trace, Edits, 6, k);
    }
    assert Recognised("guide", "guide") && DirsAbove(trace[6].tree, NOTES);
    NotesNotLeft(trace, t, f);
    assert Follows(trace, 12, Edits, true) && Follows(trace, 13, Edits, true);
    assert trace[13].tree == trace[12].tree - {NOTES};
  }

  /** It is neither found gone nor left in place. */
  lemma {:induction false} NotesNotLeft(trace: seq<Moment>, t: Turn, f: Created)
    requires Linked(trace, Edits, true) && t.record == OfFile(f) && t.from == 10 && t.upto == |trace|
      && TurnOk(trace, t, false)
    requires f.path == NOTES && NoWrites(trace, 7, 10) && NOTES in trace[6].tree
    requires 11 < |trace| && NoWrites(trace, 10, 12) ==> Intact(trace[11].tree, OfFile(f))
    ensures t.result == Reverted
  {
    if t.result == Gone { NotesStay(trace, t.upto - 1); }
    if t.result == Kept && 12 < |trace| { var _ := Follows(trace, 12, Edits, true); }
  }

  lemma {:induction false} NotesStay(trace: seq<Moment>, k: nat)
    requires Linked(trace, Edits, true) && 6 <= k < |trace| && NOTES in trace[6].tree && NoWrites(trace, 7, k + 1)
    ensures NOTES in trace[k].tree
  {
    if k > 6 {
      NotesStay(trace, k - 1);
      assert Follows(trace, k, Edits, true) && !IsWrite(trace, k);
    }
  }

  /** What such a run comes to. */
  lemma {:induction false} NotesRun(trace: seq<Moment>, steps: seq<Step>, spans: seq<Span>, start: nat, book: Journal,
                                    spoils: nat -> bool)
    returns (f: Created, mode: nat)
    requires Linked(trace, Edits, true) && trace[0].tree == map[] && forall n :: !spoils(n)
    requires steps == Two(NOTES) && Stuck(trace, steps, spans, 1, start, book, NoFaults(spoils))
    ensures start == 9 < |trace| ==> book == Journal([f], [], []) && f.path == NOTES && f.written == "guide"
    ensures start == 9 && (start < |trace| ==> trace[6].tree == map[NOTES := Node(f.id, File("guide", mode))])
    ensures trace[7].act == Others && trace[8].act.Looked?
  {
    forall s: Span | s.from == 1 && s.was == NOTHING ensures !FellShort(trace, steps[0], s, NoFaults(spoils)) {
      NotesGoThrough(trace, s, spoils);
    }
    TwoSteps(trace, steps, spans, start, book, spoils);
    f := NotesWritten(trace, spans[0]);
    RefusalAdds(trace, spans[1], RULES, spoils);
    mode :| trace[6].tree == trace[5].tree[NOTES := Node(f.id, File("guide", mode))];
    OnlyNotes(trace, spans[0], 5);
  }

  lemma {:induction false} SameOthers(a: Tree, b: Tree, p: Path)
    requires b - {p} == a - {p}
    ensures b.Keys <= a.Keys + {p} && forall q :: q in a && q != p ==> q in b && b[q] == a[q]
  {
    forall q | q in b ensures q in a || q == p {
      if q != p { assert q in b - {p}; }
    }
    forall q | q in a && q != p ensures q in b && b[q] == a[q] {
      assert q in a - {p} && (a - {p})[q] == a[q] && (b - {p})[q] == b[q];
    }
  }

  lemma {:induction false} OnlyNotes(trace: seq<Moment>, s: Span, k: nat)
    requires Linked(trace, Edits, true) && trace[0].tree == map[] && s.from == 1 && k < s.upto <= |trace|
    requires WritesWithin(trace, s, Creates(NOTES, "guide"))
    ensures trace[k].tree.Keys <= {NOTES}
  {
    if k > 0 {
      OnlyNotes(trace, s, k - 1);
      assert Follows(trace, k, Edits, true);
      if IsWrite(trace, k) {
        RootWrites(trace, s, Creates(NOTES, "guide"), k);
        SameOthers(trace[k - 1].tree, trace[k].tree, NOTES);
      }
    }
  }

  /** The whole run. */
  lemma {:induction false} NotesOutcome(trace: seq<Moment>, spans: seq<Span>, start: nat, book: Journal,
                                        turns: seq<Turn>, outcome: Outcome)
    requires Linked(trace, Edits, true) && trace[0].tree == map[]
      && Ran(trace, Two(NOTES), spans, start, book, turns, outcome)
    ensures outcome == Failed(Report([])) && |trace| == 14 && trace[13].act == Wrote(NOTES) && trace[13].tree == map[]
    ensures NOTES in trace[11].tree && Content(trace[11].tree[NOTES]) == Some("guide")
    ensures NOTES in trace[12].tree && Content(trace[12].tree[NOTES]) == Some("edited guide")
  {
    RanToTheEnd(trace, Two(NOTES), spans, start, book, turns, outcome);
    var f, mode := NotesRun(trace, Two(NOTES), spans, start, book, Never);
    OneRecord(f);
    OneTurn(trace, 10, turns, OfFile(f), false);
    NotesRemoved(trace, turns[0], f, mode);
    OneKept(turns);
  }

  /** A file is created, a later step is refused, and the rollback removes bytes this process never wrote: others
      edit the file in place between the look at its bytes and the look at its identity. The report is empty. */
  method EditInWindowIsLost() returns (tx: Transaction, outcome: Outcome)
    ensures tx.Valid() && outcome == Failed(Report([])) && |tx.trace| == 14
    ensures tx.trace[13].act == Wrote(NOTES) && NOTES !in tx.tree && NOTES in tx.trace[11].tree
      && NOTES in tx.trace[12].tree
    ensures Content(tx.trace[11].tree[NOTES]) == Some("guide")
      && Content(tx.trace[12].tree[NOTES]) == Some("edited guide")
  {
    PathsDiffer();
    TwoWellFormed(NOTES);
    tx := new Transaction(map[], Edits, true, false, false, false, Never);
    ghost var start, done;
    outcome, start, done := tx.Apply(Two(NOTES));
    NotesOutcome(tx.trace, tx.spans, start, tx.Book(), tx.turns, outcome);
  }

  // A directory swapped in.

  const DOCS: Path := ["docs"]
  const GUIDE: Path := ["docs", "guide.md"]
  const MARK: Path := ["mark"]

  /** Others replace the new directory before anything is in it, once. */
  function Swaps(n: nat, t: Tree): Tree {
    if DirAt(t, DOCS) && GUIDE !in t && MARK !in t
    then t[DOCS := Node(t[DOCS].id + 1, Dir)][MARK := Node(0, File("", LEAF_MODE))]
    else t
  }

  /** What creating the file writes: the directory, or the file. */
  lemma {:induction false} GuideWrites(trace: seq<Moment>, s: Span, i: nat)
    requires WritesWithin(trace, s, Creates(GUIDE, "guide")) && s.from <= i < s.upto && IsWrite(trace, i)
    ensures trace[i].act == Wrote(GUIDE) || (Appears(trace, i, DOCS) && DirAt(trace[i].tree, DOCS))
    ensures trace[i].act == Wrote(GUIDE) && Appears(trace, i, GUIDE) ==> !DirAt(trace[i].tree, GUIDE)
  {
    assert Within(trace, s, Creates(GUIDE, "guide"), i);
    assert Ancestors(GUIDE) == {DOCS} by { assert GUIDE[..1] == DOCS; }
    assert DOCS != GUIDE by { assert |DOCS| != |GUIDE|; }
  }

  /** Until the file is written there is at most the directory, and the mark only beside it. */
  predicate Docs(t: Tree) {
    t.Keys <= {DOCS, MARK} && (DOCS in t ==> t[DOCS].body == Dir) && (MARK in t ==> DOCS in t)
  }

  lemma {:induction false} PathsDiffer()
    ensures DOCS != MARK && DOCS != GUIDE && MARK != GUIDE && RULES != GUIDE && RULES != NOTES
  {
    assert DOCS[0] != MARK[0] && |DOCS| != |GUIDE| && |MARK| != |GUIDE| && |RULES| != |GUIDE| && RULES[0] != NOTES[0];
  }

  lemma {:induction false} DocsFirst(trace: seq<Moment>, s: Span, k: nat)
    requires Linked(trace, Swaps, true) && trace[0].tree == map[] && s.from == 1 && k < s.upto <= |trace|
    requires WritesWithin(trace, s, Creates(GUIDE, "guide")) && forall i :: 1 <= i <= k ==> trace[i].act != Wrote(GUIDE)
    ensures Docs(trace[k].tree) && forall i :: 0 <= i < k && DOCS in trace[i].tree ==> DOCS in trace[k].tree
  {
    PathsDiffer();
    if k > 0 {
      DocsFirst(trace, s, k - 1);
      assert Follows(trace, k, Swaps, true);
      if IsWrite(trace, k) {
        GuideWrites(trace, s, k);
        SameOthers(trace[k - 1].tree, trace[k].tree, DOCS);
      }
    }
  }

  /** Nothing is in the way of the first step. */
  lemma {:induction false} GuideGoesThrough(trace: seq<Moment>, s: Span, spoils: nat -> bool)
    requires Linked(trace, Swaps, true) && trace[0].tree == map[] && s.from == 1 && forall n :: !spoils(n)
    ensures !FellShort(trace, Creates(GUIDE, "guide"), s, NoFaults(spoils))
  {
    if FellShort(trace, Creates(GUIDE, "guide"), s, NoFaults(spoils)) {
      var m :| s.from <= m < s.upto && trace[m].act == Others && BlockedAt(trace, s.from, m, GUIDE, spoils);
      PathsDiffer();
      assert GUIDE[..1] == DOCS;
      DocsFirst(trace, s, m);
    }
  }

  /** The directory's write, and the moment others replace it. */
  lemma {:induction false} DocsSwapped(trace: seq<Moment>, s: Span, i: nat, at: nat)
    requires Linked(trace, Swaps, true) && trace[0].tree == map[] && s.from == 1 && i < at < s.upto <= |trace|
    requires WritesWithin(trace, s, Creates(GUIDE, "guide"))
      && forall k :: 1 <= k <= at ==> trace[k].act != Wrote(GUIDE)
    requires 1 <= i && Appears(trace, i, DOCS) && DirAt(trace[i].tree, DOCS) && trace[i].act == Wrote(DOCS)
    requires trace[i + 1].act == Others
    ensures Swapped(trace[i].tree, trace[i + 1].tree, DOCS) && trace[at].tree == trace[i + 1].tree
    ensures trace[i + 1].tree.Keys == {DOCS, MARK} && trace[i + 1].tree[DOCS].body == Dir
  {
    PathsDiffer();
    DocsFirst(trace, s, i - 1);
    assert Follows(trace, i, Swaps, true) && Follows(trace, i + 1, Swaps, true);
    SameOthers(trace[i - 1].tree, trace[i].tree, DOCS);
    forall k | i + 2 <= k < at + 1 ensures !IsWrite(trace, k) {
      if IsWrite(trace, k) {
        GuideWrites(trace, s, k);
        DocsFirst(trace, s, k - 1);
      }
    }
    Still(trace, Swaps, i + 1, at);
  }

  /** Without a record of a directory there is none. */
  lemma {:induction false} DocsMissing(trace: seq<Moment>, s: Span, at: nat)
    requires Linked(trace, Swaps, true) && trace[0].tree == map[] && s.from == 1 && at < s.upto <= |trace|
    requires AllExplained(trace, s) && s.now.updated == s.was.updated && s.now.dirs == s.was.dirs
    requires forall f :: Added(s.was, s.now, OfFile(f)) ==> f.path == GUIDE
    requires forall k :: 1 <= k <= at ==> trace[k].act != Wrote(GUIDE)
    ensures trace[at].tree == map[]
  {
    forall k | 1 <= k < at + 1 ensures !IsWrite(trace, k) {
      assert Explained(trace, s, k);
    }
    Still(trace, Swaps, 0, at);
  }

  /** Only the first step's writes have made the directory. */
  lemma {:induction false} DocsRecorded(trace: seq<Moment>, s: Span, at: nat) returns (i: nat, d: MadeDir)
    requires Linked(trace, Swaps, true) && trace[0].tree == map[] && s.from == 1 && s.was == NOTHING
    requires WentThrough(trace, Creates(GUIDE, "guide"), s) && at == 4 + 2 * |s.now.dirs|
    ensures s.now.dirs == [d] && d.path == DOCS && Names(trace, i, OfDir(d)) && i < at < s.upto
  {
    PathsDiffer();
    var f := s.now.created[0];
    assert GUIDE[..1] == DOCS && DirAt(trace[at].tree, DOCS);
    if s.now.dirs == [] { DocsMissing(trace, s, at); }
    d := s.now.dirs[0];
    assert Added(s.was, s.now, OfDir(d));
    assert Named(trace, s, OfDir(d));
    i :| s.from <= i < s.upto && Names(trace, i, OfDir(d));
    GuideWrites(trace, s, i);
    if i >= at { DocsStay(trace, s, at, i - 1); }
  }

  lemma {:induction false} DocsStay(trace: seq<Moment>, s: Span, at: nat, k: nat)
    requires Linked(trace, Swaps, true) && 1 <= s.from <= at <= k < s.upto <= |trace|
      && WritesWithin(trace, s, Creates(GUIDE, "guide"))
    requires DOCS in trace[at].tree
    ensures DOCS in trace[k].tree
    decreases k
  {
    PathsDiffer();
    if k > at {
      DocsStay(trace, s, at, k - 1);
      assert Follows(trace, k, Swaps, true);
      if IsWrite(trace, k) {
        GuideWrites(trace, s, k);
        if trace[k].act == Wrote(GUIDE) { SameOthers(trace[k - 1].tree, trace[k].tree, GUIDE); }
      }
    }
  }

  /** The tree when the first step is through, with the records of it. */
  lemma {:induction false} GuideWritten(trace: seq<Moment>, s: Span) returns (f: Created, d: MadeDir, i: nat)
    requires Linked(trace, Swaps, true) && trace[0].tree == map[] && s.from == 1 && s.was == NOTHING
    requires WentThrough(trace, Creates(GUIDE, "guide"), s)
    ensures s.now == Journal([f], [d], []) && f.path == GUIDE && f.written == "guide" && d.path == DOCS && 6 < s.upto
    ensures Names(trace, i, OfDir(d)) && Swapped(trace[i].tree, trace[i + 1].tree, DOCS)
    ensures Finished(trace[s.upto - 1].tree, f, d)
  {
    PathsDiffer();
    f := s.now.created[0];
    assert s.now.created == [f];
    var at := 4 + 2 * |s.now.dirs|;
    i, d := DocsRecorded(trace, s, at);
    DocsSwapped(trace, s, i, at);
    assert Follows(trace, at + 1, Swaps, true) && Follows(trace, at + 2, Swaps, true);
    SameOthers(trace[at].tree, trace[at + 1].tree, GUIDE);
  }

  /** The directory, the file in it and the mark. */
  predicate Finished(t: Tree, f: Created, d: MadeDir) {
    && t.Keys == {DOCS, MARK, GUIDE} && t[DOCS] == Node(d.id, Dir)
    && t[GUIDE].id == f.id && t[GUIDE].body.File? && t[GUIDE].body.data == "guide"
  }

  lemma {:induction false} TwoRecords(f: Created, d: MadeDir)
    ensures Records([f], [d], []) == [OfFile(f), OfDir(d)]
  {
  }

  lemma {:induction false} TwoTurns(trace: seq<Moment>, begin: nat, turns: seq<Turn>, q: Record, r: Record)
    requires Logged(trace, begin, turns, [q, r], false) && NoneRaised(turns) && |turns| == 2
    ensures turns[0].record == q && turns[0].from == begin && turns[0].upto == turns[1].from
      && TurnOk(trace, turns[0], false)
    ensures turns[1].record == r && turns[1].upto == |trace| && TurnOk(trace, turns[1], false)
    ensures turns[0].result == Reverted || turns[0].result == Gone ==>
      turns[1].result == Reverted || turns[1].result == Gone ==> KeptPaths(turns) == []
  {
    assert turns[..1] == [turns[0]] && [turns[0]][..0] == [] && turns == [turns[0], turns[1]];
    OneChain(turns[0], begin, turns[1].from);
    assert [q, r][0] == q && [q, r][1] == r;
    NothingKept(turns);
  }

  /** The file's turn. */
  lemma {:induction false} GuideRemoved(trace: seq<Moment>, t: Turn, f: Created, d: MadeDir, e: nat)
    requires Linked(trace, Swaps, true) && t.record == OfFile(f) && TurnOk(trace, t, false) && t.result != Raised
    requires e < t.from == e + 4 <= |trace| && f.path == GUIDE && f.written == "guide" && NoWrites(trace, e + 1, t.from)
    requires Finished(trace[e].tree, f, d)
    ensures t.result == Reverted && t.from < t.upto && trace[t.upto - 1].tree == trace[e].tree - {GUIDE}
  {
    PathsDiffer();
    var world := trace[e].tree;
    Still(trace, Swaps, e, t.from - 1);
    TurnStill(trace, t, world);
    assert GUIDE[..1] == DOCS && DirsAbove(world, GUIDE) && Recognised("guide", "guide");
    assert Intact(world, OfFile(f)) && StillOwn(world, f);
  }

  /** As long as nothing is written the tree is this one. */
  ghost predicate Calm(trace: seq<Moment>, from: nat, upto: nat, tree: Tree) {
    NoWrites(trace, from, upto) ==> forall k :: from <= k < upto <= |trace| ==> trace[k].tree == tree
  }

  /** Others leave a marked tree alone for all of a turn. */
  lemma {:induction false} TurnStill(trace: seq<Moment>, t: Turn, tree: Tree)
    requires Linked(trace, Swaps, true) && 0 < t.from <= t.upto <= |trace| && trace[t.from - 1].tree == tree
      && MARK in tree
    ensures Calm(trace, t.from, t.upto, tree) && (t.from < t.upto ==> Calm(trace, t.from, t.upto - 1, tree))
  {
    CalmUntil(trace, t.from, t.upto, tree);
    if t.from < t.upto { CalmUntil(trace, t.from, t.upto - 1, tree); }
  }

  lemma {:induction false} CalmUntil(trace: seq<Moment>, from: nat, upto: nat, tree: Tree)
    requires Linked(trace, Swaps, true) && 0 < from <= upto <= |trace| && trace[from - 1].tree == tree && MARK in tree
    ensures Calm(trace, from, upto, tree)
  {
    if NoWrites(trace, from, upto) {
      forall k | from <= k < upto ensures trace[k].tree == tree { Still(trace, Swaps, from - 1, k); }
    }
  }

  /** The directory's turn: it is empty and bears the recorded identity, so it goes. */
  lemma {:induction false} DocsRemoved(trace: seq<Moment>, t: Turn, d: MadeDir, tree: Tree)
    requires Linked(trace, Swaps, true) && t.record == OfDir(d) && TurnOk(trace, t, false) && t.result != Raised
    requires d.path == DOCS && 0 < t.from <= |trace| && trace[t.from - 1].tree == tree
    requires tree.Keys == {DOCS, MARK} && tree[DOCS] == Node(d.id, Dir)
    ensures t.result == Reverted && t.from < t.upto && trace[t.upto - 1].tree == tree - {DOCS}
    ensures trace[t.upto - 2].tree == tree
  {
    PathsDiffer();
    TurnStill(trace, t, tree);
    assert DirsAbove(tree, DOCS) && NothingBelow(tree, DOCS) by { assert !(DOCS < MARK); }
    assert Intact(tree, t.record);
  }

  /** What the second run comes to. */
  lemma {:induction false} DocsRun(trace: seq<Moment>, steps: seq<Step>, spans: seq<Span>, start: nat, book: Journal,
                                   spoils: nat -> bool)
    returns (f: Created, d: MadeDir, i: nat)
    requires Linked(trace, Swaps, true) && trace[0].tree == map[] && forall n :: !spoils(n)
    requires steps == Two(GUIDE) && Stuck(trace, steps, spans, 1, start, book, NoFaults(spoils))
    ensures book == Journal([f], [d], []) && f.path == GUIDE && f.written == "guide" && d.path == DOCS
    ensures Names(trace, i, OfDir(d)) && Swapped(trace[i].tree, trace[i + 1].tree, DOCS)
    ensures 3 <= start <= |trace| && Finished(trace[start - 3].tree, f, d) && NoWrites(trace, start - 2, start)
  {
    forall s: Span | s.from == 1 && s.was == NOTHING ensures !FellShort(trace, steps[0], s, NoFaults(spoils)) {
      GuideGoesThrough(trace, s, spoils);
    }
    TwoSteps(trace, steps, spans, start, book, spoils);
    f, d, i := GuideWritten(trace, spans[0]);
    RefusalAdds(trace, spans[1], RULES, spoils);
  }

  /** Both turns of its rollback. */
  lemma {:induction false} DocsUndone(trace: seq<Moment>, turns: seq<Turn>, start: nat, f: Created, d: MadeDir)
    requires Linked(trace, Swaps, true) && Logged(trace, start + 1, turns, [OfFile(f), OfDir(d)], false) && |turns| == 2
      && NoneRaised(turns)
    requires 3 <= start < |trace| && trace[start].act == RollbackStarted && NoWrites(trace, start - 2, start)
    requires Finished(trace[start - 3].tree, f, d) && f.path == GUIDE && f.written == "guide" && d.path == DOCS
    ensures KeptPaths(turns) == [] && start < |trace| - 1 && trace[|trace| - 1].act == Wrote(DOCS)
    ensures DOCS in trace[|trace| - 2].tree && trace[|trace| - 2].tree[DOCS] == Node(d.id, Dir)
      && DOCS !in trace[|trace| - 1].tree
  {
    TwoTurns(trace, start + 1, turns, OfFile(f), OfDir(d));
    GuideRemoved(trace, turns[0], f, d, start - 3);
    DocsRemoved(trace, turns[1], d, trace[start - 3].tree - {GUIDE});
  }

  /** The directory made at moment i is another one a moment later; that one is recorded, and the last moment
      removes it. */
  predicate ForeignRemoved(trace: seq<Moment>, i: nat, d: MadeDir) {
    && d.path == DOCS && i + 1 < |trace| && Names(trace, i, OfDir(d)) && Swapped(trace[i].tree, trace[i + 1].tree, DOCS)
    && trace[|trace| - 1].act == Wrote(DOCS) && DOCS !in trace[|trace| - 1].tree
    && DOCS in trace[|trace| - 2].tree && trace[|trace| - 2].tree[DOCS] == trace[i + 1].tree[DOCS]
  }

  /** The whole run. */
  lemma {:induction false} DocsOutcome(trace: seq<Moment>, spans: seq<Span>, start: nat, book: Journal,
                                       turns: seq<Turn>, outcome: Outcome)
    returns (i: nat, d: MadeDir)
    requires Linked(trace, Swaps, true) && trace[0].tree == map[]
      && Ran(trace, Two(GUIDE), spans, start, book, turns, outcome)
    ensures outcome == Failed(Report([])) && ForeignRemoved(trace, i, d)
  {
    RanToTheEnd(trace, Two(GUIDE), spans, start, book, turns, outcome);
    var f;
    f, d, i := DocsRun(trace, Two(GUIDE), spans, start, book, Never);
    TwoRecords(f, d);
    DocsUndone(trace, turns, start, f, d);
    assert IsWrite(trace, |trace| - 1);
  }

  /** A directory is made, others put one of their own in its place before it is recorded, and a later step is
      refused: the rollback removes theirs. Nothing fails and the report is empty. */
  method ForeignDirectoryIsRemoved() returns (tx: Transaction, outcome: Outcome, ghost i: nat, ghost d: MadeDir)
    ensures tx.Valid() && outcome == Failed(Report([])) && ForeignRemoved(tx.trace, i, d)
  {
    PathsDiffer();
    TwoWellFormed(GUIDE);
    tx := new Transaction(map[], Swaps, true, false, false, false, Never);
    ghost var start, done;
    outcome, start, done := tx.Apply(Two(GUIDE));
    i, d := DocsOutcome(tx.trace, tx.spans, start, tx.Book(), tx.turns, outcome);
  }
}

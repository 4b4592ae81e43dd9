/** An input on which apply is not all-or-nothing (src/ptest/agent_rules.py:1312-1358, 1368-1474): an
instruction file of exactly the size limit gets the block appended, a later file is refused, and the rollback
no longer recognises the longer text. */
module GuidanceLimits {
  import opened Basics
  import opened GuidanceTree
  import opened GuidanceRules
  import opened GuidanceAgreement
  import opened GuidanceCommand
  import GuidanceApply
  import GuidanceTrace
  import MB = ManagedBlock

  function Filled(n: nat): (s: string)
    ensures |s| == n && forall i :: 0 <= i < n ==> s[i] == 'a'
  {
    seq(n, _ => 'a')
  }

  const LONG: string := Filled(MAX_FILE_BYTES)

  ghost predicate HoldsLong(v: View) {
    v == map[["AGENTS.md"] := File(LONG, LEAF_MODE), ["CLAUDE.md"] := File("x\r", LEAF_MODE)]
  }

  lemma {:induction false} NoMarker(s: string, m: string)
    requires m != "" && m[0] == '<' && '<' !in s
    ensures MB.Count(s, m) == 0
    decreases |s|
  {
    if |s| >= |m| {
      assert s[..|m|][0] == s[0];
      NoMarker(s[1..], m);
    }
  }

  lemma LongReads()
    ensures Universal(LONG) == LONG && '\r' !in LONG
    ensures MB.BlockVariant(LONG, "AGENTS.md") == MB.Unmanaged
    ensures MB.StripNewlines(LONG) == LONG
  {
    NoMarker(LONG, MB.START);
    NoMarker(LONG, MB.END);
  }

  /** The appended text is longer than anything a bounded read returns. */
  lemma LongEdited()
    ensures MB.BlockVariant(LONG, "AGENTS.md") == MB.Unmanaged
    ensures MB.Reconcile(LONG, "AGENTS.md", false) == Some(MB.Append(LONG, "AGENTS.md", MB.Base))
    ensures !Fits(MB.Append(LONG, "AGENTS.md", MB.Base))
  {
    LongReads();
  }

  lemma NamesInView(v: View)
    requires HoldsLong(v)
    ensures ["AGENTS.md"] in v && v[["AGENTS.md"]] == File(LONG, LEAF_MODE)
    ensures ["CLAUDE.md"] in v && v[["CLAUDE.md"]] == File("x\r", LEAF_MODE)
    ensures ["GEMINI.md"] !in v && ["docs"] !in v && PathOf(Guide) !in v
  {
    assert ["AGENTS.md"][0] != ["CLAUDE.md"][0] && ["GEMINI.md"][0] != ["CLAUDE.md"][0];
    assert ["GEMINI.md"][0] != ["AGENTS.md"][0];
    assert ["docs"][0] != ["AGENTS.md"][0] && ["docs"][0] != ["CLAUDE.md"][0];
    assert |PathOf(Guide)| == 2;
  }

  lemma Readings(v: View)
    requires HoldsLong(v)
    ensures ReadInstruction(v, "AGENTS.md") == Text(LONG)
    ensures ReadInstruction(v, "CLAUDE.md") == Text("x\n") && MB.BlockVariant("x\n", "CLAUDE.md") == MB.Unmanaged
    ensures ReadInstruction(v, "GEMINI.md") == Missing
    ensures forall n :: n in INSTRUCTIONS ==> Readable(v, n) && !HoldsPolicy(v, n)
  {
    NamesInView(v);
    LongReads();
    assert Universal("x\r"[1..]) == "\n" + Universal("");
    NoMarker("x\n", MB.START);
    NoMarker("x\n", MB.END);
  }

  lemma TargetList(v: View)
    requires HoldsLong(v)
    ensures !PolicyWanted(v, false)
    ensures Targets(v, [], false) == [Guide, Instruction("AGENTS.md", false), Instruction("CLAUDE.md", false)]
  {
    Readings(v);
    InstalledMeans(v, INSTRUCTIONS);
    assert INSTRUCTIONS[1..] == ["CLAUDE.md", "GEMINI.md"] && INSTRUCTIONS[1..][1..] == ["GEMINI.md"];
    assert Existing(v, ["GEMINI.md"]) == [];
    assert Existing(v, ["CLAUDE.md", "GEMINI.md"]) == ["CLAUDE.md"];
    assert InstructionNames(v) == ["AGENTS.md", "CLAUDE.md"];
    assert Unique<string>([]) == [] && SkillTargets([]) == [];
  }

  lemma AgentsVerdict(res: Resources)
    ensures OwnVerdict(res, Instruction("AGENTS.md", false), Some(File(LONG, LEAF_MODE))) ==
      WouldUpdate(LONG, LEAF_MODE, MB.Append(LONG, "AGENTS.md", MB.Base))
  {
    LongReads();
    LongEdited();
  }

  lemma ClaudeVerdict(res: Resources)
    ensures OwnVerdict(res, Instruction("CLAUDE.md", false), Some(File("x\r", LEAF_MODE))).WouldUpdate?
  {
    assert Universal("x\r"[1..]) == "\n" + Universal("");
    NoMarker("x\n", MB.START);
    NoMarker("x\n", MB.END);
    assert MB.Reconcile("x\n", "CLAUDE.md", false).Some?;
  }

  lemma VerdictList(res: Resources, v: View)
    requires HoldsLong(v)
    ensures VerdictOf(res, Guide, v) == WouldCreate(res.guide)
    ensures VerdictOf(res, Instruction("AGENTS.md", false), v) ==
      WouldUpdate(LONG, LEAF_MODE, MB.Append(LONG, "AGENTS.md", MB.Base))
    ensures VerdictOf(res, Instruction("CLAUDE.md", false), v).WouldUpdate?
  {
    NamesInView(v);
    AgentsVerdict(res);
    ClaudeVerdict(res);
    assert PathOf(Guide)[..1] == ["docs"];
  }

  /** Apply goes ahead on this tree and stops at the third target, after a text that cannot be recognised. */
  lemma LongPlan(res: Resources, v: View)
    requires Sound(res) && HoldsLong(v)
    ensures Previews(res, v, [], false) && VerdictOf(res, Guide, v) in PlanOf(res, v, [], false)
      && VerdictOf(res, Guide, v) != Present
    ensures !AllPerformable(res, v, Targets(v, [], PolicyWanted(v, false)))
  {
    TargetList(v);
    VerdictList(res, v);
    NamesInView(v);
    LongReads();
    Readings(v);
    assert PlanOf(res, v, [], false)[0] == VerdictOf(res, Guide, v);
    assert !Performable(VerdictOf(res, Targets(v, [], false)[2], v), Entry(v, PathOf(Targets(v, [], false)[2])));
  }

  /** It stops at the third target. */
  lemma LongStops(res: Resources, v: View, done: nat)
    requires HoldsLong(v)
    requires var ts := Targets(v, [], PolicyWanted(v, false));
      && done < |ts| && !Performable(VerdictOf(res, ts[done], v), Entry(v, PathOf(ts[done])))
    ensures !PreviewedFit(res, v, Targets(v, [], PolicyWanted(v, false)), done)
  {
    TargetList(v);
    VerdictList(res, v);
    NamesInView(v);
    LongReads();
    LongEdited();
    assert Performable(VerdictOf(res, Guide, v), Entry(v, PathOf(Guide)));
    assert VerdictText(VerdictOf(res, Targets(v, [], false)[1], v)) == MB.Append(LONG, "AGENTS.md", MB.Base);
  }

  lemma LongOutcome(res: Resources, v: View, report: Report, done: nat, after: View)
    requires Sound(res) && HoldsLong(v)
    requires Undisturbed(res, v, [], false, report, done, after)
    requires report.Failed? ==> RestoredIffFit(res, v, [], false, done, after)
    ensures report.Failed? && after != v
  {
    LongPlan(res, v);
    if report.Failed? { LongStops(res, v, done); }
  }

  lemma LongRooted(t: Tree)
    requires HoldsLong(ViewOf(t))
    ensures Rooted(t)
  {
    assert t.Keys == ViewOf(t).Keys;
  }

  method NewAlone(before: Tree) returns (tx: GuidanceApply.Transaction)
    ensures fresh(tx) && tx.Valid() && tx.tree == before && tx.Quiet() && !tx.faultsInApply
    ensures |tx.trace| == 1 && tx.trace[0].tree == before
    ensures tx.created == [] && tx.dirs == [] && tx.updated == [] && tx.spans == []
  {
    tx := new GuidanceApply.Transaction(before, (n: nat, t: Tree) => t, false, false, false, false, _ => false);
  }

  /** The command on a tree of its own, with nothing failing and nobody interfering. */
  method ApplyAlone(res: Resources, before: Tree)
    returns (tx: GuidanceApply.Transaction, report: Report, ghost done: nat)
    requires Sound(res) && SoundSkills(res) && Rooted(before)
    ensures tx.Valid() && tx.trace[0].tree == before && tx.Quiet() && !tx.faultsInApply
    ensures Undisturbed(res, ViewOf(before), [], false, report, done, ViewOf(tx.tree))
    ensures report.Failed? ==> RestoredIffFit(res, ViewOf(before), [], false, done, ViewOf(tx.tree))
  {
    tx := NewAlone(before);
    ghost var start;
    report, start, done := ApplyRules(tx, res, [], false);
  }

  /** Nothing fails and nobody interferes; apply fails all the same, and the tree is not as it was. */
  method LongFileIsNotRestored(res: Resources) returns (tx: GuidanceApply.Transaction, report: Report)
    requires Sound(res) && SoundSkills(res)
    ensures tx.Quiet() && !tx.faultsInApply && report.Failed?
    ensures tx.Valid() && HoldsLong(ViewOf(tx.trace[0].tree)) && ViewOf(tx.tree) != ViewOf(tx.trace[0].tree)
  {
    var before: Tree :=
      map[["AGENTS.md"] := Node(1, File(LONG, LEAF_MODE)), ["CLAUDE.md"] := Node(2, File("x\r", LEAF_MODE))];
    LongRooted(before);
    ghost var done;
    tx, report, done := ApplyAlone(res, before);
    LongOutcome(res, ViewOf(before), report, done, ViewOf(tx.tree));
  }
}

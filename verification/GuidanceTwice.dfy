/** Apply twice on a tree whose instruction file has exactly the size limit (src/ptest/agent_rules.py:640-693,
1368-1474): the first goes through, and leaves a file that the second refuses to read. */
module GuidanceTwice {
  import opened Basics
  import opened GuidanceTree
  import opened GuidanceRules
  import opened GuidanceAgreement
  import opened GuidanceCommand
  import opened GuidanceLimits
  import GuidanceApply
  import MB = ManagedBlock

  ghost predicate HoldsOnlyLong(v: View) { v == map[["AGENTS.md"] := File(LONG, LEAF_MODE)] }

  lemma OnlyNameInView(v: View)
    requires HoldsOnlyLong(v)
    ensures ["AGENTS.md"] in v && v[["AGENTS.md"]] == File(LONG, LEAF_MODE)
    ensures ["CLAUDE.md"] !in v && ["GEMINI.md"] !in v && ["docs"] !in v && PathOf(Guide) !in v
  {
    assert ["AGENTS.md"][0] != ["CLAUDE.md"][0] && ["GEMINI.md"][0] != ["AGENTS.md"][0]
      && ["docs"][0] != ["AGENTS.md"][0];
    assert |PathOf(Guide)| == 2;
  }

  lemma OnlyReadings(v: View)
    requires HoldsOnlyLong(v)
    ensures ReadInstruction(v, "AGENTS.md") == Text(LONG)
    ensures ReadInstruction(v, "CLAUDE.md") == Missing && ReadInstruction(v, "GEMINI.md") == Missing
    ensures forall n :: n in INSTRUCTIONS ==> Readable(v, n) && !HoldsPolicy(v, n)
  {
    OnlyNameInView(v);
    LongReads();
  }

  lemma OnlyTargets(v: View)
    requires HoldsOnlyLong(v)
    ensures !PolicyWanted(v, false) && Targets(v, [], false) == [Guide, Instruction("AGENTS.md", false)]
  {
    OnlyReadings(v);
    InstalledMeans(v, INSTRUCTIONS);
    assert INSTRUCTIONS[1..] == ["CLAUDE.md", "GEMINI.md"] && INSTRUCTIONS[1..][1..] == ["GEMINI.md"];
    assert Existing(v, ["GEMINI.md"]) == [];
    assert Existing(v, ["CLAUDE.md", "GEMINI.md"]) == [];
    assert InstructionNames(v) == ["AGENTS.md"];
    assert Unique<string>([]) == [] && SkillTargets([]) == [];
  }

  lemma OnlyVerdicts(res: Resources, v: View)
    requires HoldsOnlyLong(v)
    ensures VerdictOf(res, Guide, v) == WouldCreate(res.guide)
    ensures VerdictOf(res, Instruction("AGENTS.md", false), v) ==
      WouldUpdate(LONG, LEAF_MODE, MB.Append(LONG, "AGENTS.md", MB.Base))
  {
    OnlyNameInView(v);
    AgentsVerdict(res);
    assert PathOf(Guide)[..1] == ["docs"];
  }

  lemma OnlyPlan(res: Resources, v: View)
    requires Sound(res) && HoldsOnlyLong(v)
    ensures var ts := Targets(v, [], PolicyWanted(v, false));
      && Previews(res, v, [], false) && AllPreviewed(res, v, ts) && AllPerformable(res, v, ts)
      && !AllWritesFit(res, v, ts) && VerdictOf(res, Guide, v) in PlanOf(res, v, [], false)
  {
    OnlyTargets(v);
    OnlyVerdicts(res, v);
    OnlyNameInView(v);
    LongReads();
    LongEdited();
    OnlyReadings(v);
    assert PlanOf(res, v, [], false)[0] == VerdictOf(res, Guide, v);
    assert !WriteFits(VerdictOf(res, Targets(v, [], false)[1], v));
  }

  lemma OnlyRooted(t: Tree)
    requires HoldsOnlyLong(ViewOf(t))
    ensures Rooted(t)
  {
    assert t.Keys == ViewOf(t).Keys;
  }

  lemma TreeRooted(t: Tree)
    requires ViewRooted(ViewOf(t))
    ensures Rooted(t)
  {
    forall p | p in t ensures DirsAbove(t, p) { assert RealDirs(ViewOf(t), p); }
  }

  /** What the first invocation leaves: the second is not even previewed. */
  lemma FirstLeaves(res: Resources, v: View, report: Report, done: nat, w: View)
    requires Sound(res) && SoundSkills(res) && ViewRooted(v) && HoldsOnlyLong(v)
    requires Undisturbed(res, v, [], false, report, done, w)
    ensures report.Changed? && ViewRooted(w) && !Previews(res, w, [], false)
  {
    OnlyPlan(res, v);
    var ts := Targets(v, [], PolicyWanted(v, false));
    TargetsGood(v, [], PolicyWanted(v, false));
    ApplyAgrees(res, v, ts, PolicyWanted(v, false));
    SecondApplyWritesNothing(res, v, [], false, w);
  }

  /** Nothing fails and nobody interferes; the first apply succeeds and the second is refused. */
  method SecondApplyIsRefused(res: Resources)
    returns (first: Report, second: Report, ghost before: View, ghost between: View)
    requires Sound(res) && SoundSkills(res)
    ensures HoldsOnlyLong(before) && Applied(res, before, [], false, between)
    ensures first.Changed? && second.Declined?
  {
    var tree: Tree := map[["AGENTS.md"] := Node(1, File(LONG, LEAF_MODE))];
    before := ViewOf(tree);
    OnlyRooted(tree);
    RootedView(tree);
    ghost var done;
    var tx;
    tx, first, done := ApplyAlone(res, tree);
    between := ViewOf(tx.tree);
    OnlyPlan(res, before);
    FirstLeaves(res, before, first, done, between);
    TreeRooted(tx.tree);
    var again;
    again, second, done := ApplyAlone(res, tx.tree);
  }
}

/** `preview`, `apply` and `refresh` agree (src/ptest/agent_rules.py): what apply does when nothing
interferes, what a second apply finds, and what refresh still has to do afterwards. */
module GuidanceAgreement {
  import opened Basics
  import opened GuidanceTree
  import opened GuidanceRules
  import MB = ManagedBlock

  ghost predicate ViewRooted(v: View) { [] !in v && forall p {:trigger RealDirs(v, p)} :: p in v ==> RealDirs(v, p) }

  predicate Apart(p: Path, q: Path) { !(p <= q) && !(q <= p) }

  predicate Proper(t: Target) {
    match t
    case Instruction(name, _) => name in INSTRUCTIONS
    case Skill(provider) => provider in PROVIDERS
    case _ => true
  }

  /** A list of targets without repeats, whose instruction targets share one policy flag. */
  ghost predicate GoodTargets(ts: seq<Target>, policy: bool) {
    && (forall i :: 0 <= i < |ts| ==> Proper(ts[i]) && (ts[i].Instruction? ==> ts[i].policy == policy))
    && forall i, j :: 0 <= i < j < |ts| ==> ts[i] != ts[j]
  }

  lemma ApartByFirst(p: Path, q: Path)
    requires p != [] && q != [] && p[0] != q[0]
    ensures Apart(p, q)
  {
  }

  lemma SkillRootsDiffer(a: string, b: string)
    requires a in PROVIDERS && b in PROVIDERS && a != b
    ensures SkillRoot(a) != SkillRoot(b)
  {
  }

  lemma SkillRootNotTop(a: string, name: string)
    requires a in PROVIDERS && name in INSTRUCTIONS
    ensures SkillRoot(a) != "docs" && SkillRoot(a) != name && name != "docs"
  {
  }

  lemma TargetsApart(t: Target, u: Target, policy: bool)
    requires Proper(t) && Proper(u) && t != u
    requires (t.Instruction? ==> t.policy == policy) && (u.Instruction? ==> u.policy == policy)
    ensures Apart(PathOf(t), PathOf(u))
  {
    assert "ptest-agent.md" != "ptest-test-policy.md";
    assert PathOf(Guide)[1] != PathOf(TestPolicy)[1];
    if PathOf(t)[0] != PathOf(u)[0] {
      ApartByFirst(PathOf(t), PathOf(u));
    } else {
      match t {
        case Skill(a) =>
          match u {
            case Skill(b) => SkillRootsDiffer(a, b);
            case Instruction(name, _) => SkillRootNotTop(a, name);
            case _ => SkillRootNotTop(a, "AGENTS.md");
          }
        case Instruction(name, _) =>
          match u {
            case Skill(b) => SkillRootNotTop(b, name);
            case Instruction(_, _) =>
            case _ => SkillRootNotTop("claude", name);
          }
        case _ =>
          match u {
            case Skill(b) => SkillRootNotTop(b, "AGENTS.md");
            case Instruction(name, _) => SkillRootNotTop("claude", name);
            case _ =>
          }
      }
    }
  }

  lemma {:induction false} ExistingFacts(v: View, names: seq<string>)
    requires forall i, j :: 0 <= i < j < |names| ==> names[i] != names[j]
    ensures forall n :: n in Existing(v, names) <==> n in names && ReadInstruction(v, n).Text?
    ensures forall i, j :: 0 <= i < j < |Existing(v, names)| ==> Existing(v, names)[i] != Existing(v, names)[j]
  {
    if names != [] {
      ExistingFacts(v, names[1..]);
      assert names == [names[0]] + names[1..];
      assert names[0] !in names[1..];
    }
  }

  lemma NamesFacts(v: View)
    ensures forall n :: n in InstructionNames(v) ==> n in INSTRUCTIONS
    ensures forall i, j :: 0 <= i < j < |InstructionNames(v)| ==> InstructionNames(v)[i] != InstructionNames(v)[j]
    ensures forall n :: n in INSTRUCTIONS && ReadInstruction(v, n).Text? ==> n in InstructionNames(v)
  {
    InstructionsDistinct();
    ExistingFacts(v, INSTRUCTIONS);
  }

  lemma InstructionsDistinct()
    ensures forall i, j :: 0 <= i < j < |INSTRUCTIONS| ==> INSTRUCTIONS[i] != INSTRUCTIONS[j]
  {
  }

  lemma TargetsGood(v: View, agents: seq<string>, policy: bool)
    requires Supported(agents)
    ensures GoodTargets(Targets(v, agents, policy), policy)
  {
    NamesFacts(v);
    var names, skills := InstructionTargets(InstructionNames(v), policy), SkillTargets(Unique(agents));
    ListGood([Guide], if policy then [TestPolicy] else [], names, skills, policy);
  }

  lemma ListGood(a: seq<Target>, b: seq<Target>, c: seq<Target>, d: seq<Target>, policy: bool)
    requires a == [Guide] && (b == [] || b == [TestPolicy])
    requires GoodTargets(c, policy) && forall i :: 0 <= i < |c| ==> c[i].Instruction?
    requires GoodTargets(d, policy) && forall i :: 0 <= i < |d| ==> d[i].Skill?
    ensures GoodTargets(a + b + c + d, policy)
  {
  }

  // One step, and what it leaves alone.

  /** From v to w only the entry at p changed, and missing directories above it appeared. */
  ghost predicate Stepped(v: View, w: View, p: Path, after: Option<Body>) {
    && Entry(w, p) == after
    && (forall q :: q != p && (q in v || q !in Ancestors(p)) ==> Entry(w, q) == Entry(v, q))
    && (forall q :: q in Ancestors(p) && q !in v && q in w ==> w[q] == Dir)
  }

  lemma ApartKeeps(v: View, w: View, p: Path, after: Option<Body>, q: Path)
    requires Stepped(v, w, p, after) && Apart(p, q) && q != []
    ensures Entry(w, q) == Entry(v, q)
    ensures DirsPossible(v, q) ==> DirsPossible(w, q)
  {
    forall k | 0 < k < |p| ensures p[..k] <= p {}
    if DirsPossible(v, q) {
      forall k | 0 < k < |q| && q[..k] in w ensures w[q[..k]] == Dir {
        var a := q[..k];
        assert a <= q && a != p;
        if a in v || a !in Ancestors(p) { assert Entry(w, a) == Entry(v, a); }
      }
    }
  }

  lemma CreateSteps(v: View, p: Path, data: string)
    requires p != [] && p !in v && DirsPossible(v, p) && ViewRooted(v)
    ensures var w := WithDirs(v, p)[p := File(data, LEAF_MODE)];
      Stepped(v, w, p, Some(File(data, LEAF_MODE))) && ViewRooted(w)
  {
    var w := WithDirs(v, p)[p := File(data, LEAF_MODE)];
    forall k | 0 < k < |p| ensures p[..k] in w && w[p[..k]] == Dir && |p[..k]| < |p| {
      assert p[..k] in Ancestors(p);
    }
    forall q | q in w ensures RealDirs(w, q) {
      if q in v {
        assert RealDirs(v, q);
      } else if q != p {
        var n :| 0 < n < |p| && q == p[..n];
        forall k | 0 < k < |q| ensures q[..k] in w && w[q[..k]] == Dir { assert q[..k] == p[..k]; }
      }
    }
  }

  lemma UpdateSteps(v: View, p: Path, text: string, mode: nat)
    requires p in v && v[p].File? && ViewRooted(v)
    ensures Stepped(v, v[p := File(text, mode)], p, Some(File(text, mode))) && ViewRooted(v[p := File(text, mode)])
  {
    var w := v[p := File(text, mode)];
    forall q | q in w ensures RealDirs(w, q) { assert RealDirs(v, q); }
  }

  /** A step that is not refused does what its verdict says, exactly when the file holds no carriage return
      (for instruction, guide and policy files the text is read with line ends translated). */
  lemma StepPerforms(res: Resources, t: Target, v: View) returns (w: View)
    requires VerdictOf(res, t, v) != Stop && ViewRooted(v)
    requires t.Skill? ==> forall s :: res.oldSkill(t.provider, s) ==> '\r' !in s
    ensures var d := VerdictOf(res, t, v);
      if Performable(d, Entry(v, PathOf(t)))
      then PerformOne(v, StepOf(res, t)) == Some(w) && Stepped(v, w, PathOf(t), AfterBody(d, Entry(v, PathOf(t))))
        && ViewRooted(w)
      else PerformOne(v, StepOf(res, t)) == None
  {
    var p, d := PathOf(t), VerdictOf(res, t, v);
    w := v;
    match d
    case WouldCreate(data) =>
      CreatePerforms(res, t, v);
      CreateSteps(v, p, data);
      w := WithDirs(v, p)[p := File(data, LEAF_MODE)];
    case WouldUpdate(original, mode, text) =>
      UpdatePerforms(res, t, v);
      UpdateSteps(v, p, text, mode);
      w := v[p := File(text, mode)];
    case _ =>
  }

  lemma CreatePerforms(res: Resources, t: Target, v: View)
    requires VerdictOf(res, t, v).WouldCreate?
    ensures var d := VerdictOf(res, t, v);
      PathOf(t) !in v && DirsPossible(v, PathOf(t)) && Performable(d, Entry(v, PathOf(t))) &&
      PerformOne(v, StepOf(res, t)) == Some(WithDirs(v, PathOf(t))[PathOf(t) := File(d.data, LEAF_MODE)])
  {
  }

  lemma UpdatePerforms(res: Resources, t: Target, v: View)
    requires VerdictOf(res, t, v).WouldUpdate? && ViewRooted(v)
    requires t.Skill? ==> forall s :: res.oldSkill(t.provider, s) ==> '\r' !in s
    ensures var d := VerdictOf(res, t, v);
      PathOf(t) in v && v[PathOf(t)].File? &&
      PerformOne(v, StepOf(res, t)) == if Performable(d, Entry(v, PathOf(t)))
        then Some(v[PathOf(t) := File(d.text, d.mode)]) else None
  {
    assert PathOf(t) in v ==> RealDirs(v, PathOf(t));
  }

  /** Skills are compared as raw bytes; their recognised older texts hold no carriage return either. */
  ghost predicate SoundSkills(res: Resources) { forall p, s :: res.oldSkill(p, s) ==> '\r' !in s }

  ghost predicate AllPreviewed(res: Resources, v: View, ts: seq<Target>) {
    forall i :: 0 <= i < |ts| ==> VerdictOf(res, ts[i], v) != Stop
  }

  ghost predicate AllPerformable(res: Resources, v: View, ts: seq<Target>) {
    forall i :: 0 <= i < |ts| ==> Performable(VerdictOf(res, ts[i], v), Entry(v, PathOf(ts[i])))
  }

  /** After the first k targets: those hold what their verdicts said, the others still what they held. */
  ghost predicate Reached(res: Resources, v: View, ts: seq<Target>, k: nat, w: View)
    requires k <= |ts|
  {
    && ViewRooted(w)
    && (forall i ::
      0 <= i < k ==> Entry(w, PathOf(ts[i])) == AfterBody(VerdictOf(res, ts[i], v), Entry(v, PathOf(ts[i]))))
    && (forall i :: k <= i < |ts| ==> Entry(w, PathOf(ts[i])) == Entry(v, PathOf(ts[i])))
    && (forall i :: 0 <= i < |ts| ==> DirsPossible(w, PathOf(ts[i])))
  }

  lemma ReachedStart(res: Resources, v: View, ts: seq<Target>)
    requires ViewRooted(v) && AllPreviewed(res, v, ts)
    ensures Reached(res, v, ts, 0, v)
  {
    forall i | 0 <= i < |ts| ensures DirsPossible(v, PathOf(ts[i])) { assert VerdictOf(res, ts[i], v) != Stop; }
  }

  lemma ReachedStep(res: Resources, v: View, ts: seq<Target>, policy: bool, k: nat, w: View, x: View)
    requires GoodTargets(ts, policy) && k < |ts| && AllPreviewed(res, v, ts)
    requires Reached(res, v, ts, k, w) && ViewRooted(x)
    requires Stepped(w, x, PathOf(ts[k]), AfterBody(VerdictOf(res, ts[k], v), Entry(v, PathOf(ts[k]))))
    ensures Reached(res, v, ts, k + 1, x)
  {
    var p := PathOf(ts[k]);
    var after := AfterBody(VerdictOf(res, ts[k], v), Entry(v, p));
    forall i | 0 <= i < |ts| && i != k
      ensures Entry(x, PathOf(ts[i])) == Entry(w, PathOf(ts[i])) && DirsPossible(x, PathOf(ts[i]))
    {
      TargetsApart(ts[k], ts[i], policy);
      ApartKeeps(w, x, p, after, PathOf(ts[i]));
    }
    forall j | 0 < j < |p| && p[..j] in x ensures x[p[..j]] == Dir { OwnDirs(w, x, p, after, j); }
  }

  lemma OwnDirs(w: View, x: View, p: Path, after: Option<Body>, j: nat)
    requires Stepped(w, x, p, after) && DirsPossible(w, p) && 0 < j < |p| && p[..j] in x
    ensures x[p[..j]] == Dir
  {
    var a := p[..j];
    assert a in Ancestors(p) && |a| == j;
    if a in w { assert Entry(x, a) == Entry(w, a); }
  }

  lemma VerdictCarries(res: Resources, v: View, ts: seq<Target>, k: nat, w: View)
    requires k < |ts| && AllPreviewed(res, v, ts) && Reached(res, v, ts, k, w)
    ensures VerdictOf(res, ts[k], w) == VerdictOf(res, ts[k], v)
    ensures Entry(w, PathOf(ts[k])) == Entry(v, PathOf(ts[k]))
  {
    assert VerdictOf(res, ts[k], v) != Stop;
  }

  /** The first k steps reach the state their verdicts describe. */
  lemma {:induction false} PerformReaches(res: Resources, v: View, ts: seq<Target>, policy: bool, k: nat)
    returns (w: View)
    requires SoundSkills(res) && GoodTargets(ts, policy) && ViewRooted(v) && AllPreviewed(res, v, ts) && k <= |ts|
    requires forall i :: 0 <= i < k ==> Performable(VerdictOf(res, ts[i], v), Entry(v, PathOf(ts[i])))
    ensures Perform(v, StepsOf(res, ts)[..k]) == Some(w) && Reached(res, v, ts, k, w)
  {
    if k == 0 {
      w := v;
      ReachedStart(res, v, ts);
    } else {
      var u := PerformReaches(res, v, ts, policy, k - 1);
      VerdictCarries(res, v, ts, k - 1, u);
      w := StepPerforms(res, ts[k - 1], u);
      ReachedStep(res, v, ts, policy, k - 1, u, w);
      PerformExtends(v, StepsOf(res, ts), k - 1);
    }
  }

  /** Without interference `apply` goes through exactly when no file it would rewrite holds a carriage
      return, and then every target holds what its previewed verdict says. */
  lemma ApplyAgrees(res: Resources, v: View, ts: seq<Target>, policy: bool)
    requires SoundSkills(res) && GoodTargets(ts, policy) && ViewRooted(v) && AllPreviewed(res, v, ts)
    ensures var done := Perform(v, StepsOf(res, ts));
      && (done.Some? <==> AllPerformable(res, v, ts))
      && (done.Some? ==> Reached(res, v, ts, |ts|, done.value))
  {
    var steps := StepsOf(res, ts);
    if AllPerformable(res, v, ts) {
      var w := PerformReaches(res, v, ts, policy, |ts|);
      assert steps[..|ts|] == steps;
    } else {
      var k := FirstUnperformable(res, v, ts);
      var u := PerformReaches(res, v, ts, policy, k);
      VerdictCarries(res, v, ts, k, u);
      var _ := StepPerforms(res, ts[k], u);
      PerformExtends(v, steps, k);
      PerformStops(v, steps, k + 1);
    }
  }

  lemma {:induction false} FirstFalse(flags: seq<bool>) returns (k: nat)
    requires false in flags
    ensures k < |flags| && !flags[k] && forall i :: 0 <= i < k ==> flags[i]
  {
    if !flags[0] {
      k := 0;
    } else {
      assert flags == [flags[0]] + flags[1..];
      var j := FirstFalse(flags[1..]);
      k := j + 1;
      forall i | 0 <= i < k ensures flags[i] { if i > 0 { assert flags[1..][i - 1]; } }
    }
  }

  ghost predicate PerformableUpTo(res: Resources, v: View, ts: seq<Target>, k: nat) {
    k <= |ts| && forall i :: 0 <= i < k ==> Performable(VerdictOf(res, ts[i], v), Entry(v, PathOf(ts[i])))
  }

  lemma FirstUnperformable(res: Resources, v: View, ts: seq<Target>) returns (k: nat)
    requires !AllPerformable(res, v, ts)
    ensures k < |ts| && !Performable(VerdictOf(res, ts[k], v), Entry(v, PathOf(ts[k])))
    ensures PerformableUpTo(res, v, ts, k)
  {
    var flags := seq(|ts|, i requires 0 <= i < |ts| => Performable(VerdictOf(res, ts[i], v), Entry(v, PathOf(ts[i]))));
    var bad :| 0 <= bad < |ts| && !Performable(VerdictOf(res, ts[bad], v), Entry(v, PathOf(ts[bad])));
    assert flags[bad] == false;
    k := FirstFalse(flags);
    forall i | 0 <= i < k ensures Performable(VerdictOf(res, ts[i], v), Entry(v, PathOf(ts[i]))) { assert flags[i]; }
  }

  // Entries no target names stay as they are.

  lemma {:induction false} PerformKeeps(res: Resources, v: View, ts: seq<Target>, policy: bool, k: nat, q: Path)
    requires SoundSkills(res) && GoodTargets(ts, policy) && ViewRooted(v) && AllPreviewed(res, v, ts) && k <= |ts|
    requires AllPerformable(res, v, ts)
    requires q != [] && forall i :: 0 <= i < |ts| ==> Apart(PathOf(ts[i]), q)
    ensures var w := Perform(v, StepsOf(res, ts)[..k]); w.Some? && Entry(w.value, q) == Entry(v, q)
  {
    if k > 0 {
      PerformKeeps(res, v, ts, policy, k - 1, q);
      var u := PerformReaches(res, v, ts, policy, k - 1);
      VerdictCarries(res, v, ts, k - 1, u);
      var w := StepPerforms(res, ts[k - 1], u);
      ApartKeeps(u, w, PathOf(ts[k - 1]), AfterBody(VerdictOf(res, ts[k - 1], v), Entry(v, PathOf(ts[k - 1]))), q);
      PerformExtends(v, StepsOf(res, ts), k - 1);
    }
  }

  lemma OtherTargetKept(res: Resources, v: View, ts: seq<Target>, policy: bool, t: Target)
    requires SoundSkills(res) && GoodTargets(ts, policy) && ViewRooted(v) && AllPreviewed(res, v, ts)
    requires AllPerformable(res, v, ts)
    requires Proper(t) && t !in ts && (t.Instruction? ==> t.policy == policy)
    ensures var w := Perform(v, StepsOf(res, ts)); w.Some? && Entry(w.value, PathOf(t)) == Entry(v, PathOf(t))
  {
    forall i | 0 <= i < |ts| ensures Apart(PathOf(ts[i]), PathOf(t)) { TargetsApart(ts[i], t, policy); }
    PerformKeeps(res, v, ts, policy, |ts|, PathOf(t));
    assert StepsOf(res, ts)[..|ts|] == StepsOf(res, ts);
  }

  // One invocation: what it was asked, what it saw, what it left.

  ghost predicate AllWritesFit(res: Resources, v: View, ts: seq<Target>) {
    forall i :: 0 <= i < |ts| ==> WriteFits(VerdictOf(res, ts[i], v))
  }

  /** A previewed invocation without interference: v before, w after. */
  ghost predicate Applied(res: Resources, v: View, agents: seq<string>, testPolicy: bool, w: View) {
    var ts := Targets(v, agents, PolicyWanted(v, testPolicy));
    && Sound(res) && SoundSkills(res) && ViewRooted(v) && Previews(res, v, agents, testPolicy)
    && AllPreviewed(res, v, ts) && AllPerformable(res, v, ts)
    && Perform(v, StepsOf(res, ts)) == Some(w)
  }

  /** Afterwards a target is present, or refused when the text written is beyond the size limit. */
  lemma TargetSettled(res: Resources, v: View, agents: seq<string>, testPolicy: bool, w: View, t: Target)
    requires Applied(res, v, agents, testPolicy, w)
    requires t in Targets(v, agents, PolicyWanted(v, testPolicy))
    ensures VerdictOf(res, t, w) == if WriteFits(VerdictOf(res, t, v)) then Present else Stop
    ensures Performable(VerdictOf(res, t, v), Entry(v, PathOf(t)))
    ensures Entry(w, PathOf(t)) == AfterBody(VerdictOf(res, t, v), Entry(v, PathOf(t)))
    ensures VerdictOf(res, t, v) != Stop && DirsPossible(v, PathOf(t))
  {
    var policy := PolicyWanted(v, testPolicy);
    var ts := Targets(v, agents, policy);
    TargetsGood(v, agents, policy);
    ApplyAgrees(res, v, ts, policy);
    var i :| 0 <= i < |ts| && ts[i] == t;
    assert VerdictOf(res, ts[i], v) != Stop;
    StepSettles(res, t, Entry(v, PathOf(t)));
    assert DirsPossible(w, PathOf(ts[i]));
    assert Performable(VerdictOf(res, ts[i], v), Entry(v, PathOf(ts[i])));
  }

  /** Only an edited instruction file can outgrow the limit. */
  lemma OnlyInstructionsOutgrow(res: Resources, t: Target, v: View)
    requires Sound(res) && !WriteFits(VerdictOf(res, t, v))
    ensures t.Instruction?
  {
  }

  predicate HoldsPolicy(v: View, name: string) {
    ReadInstruction(v, name).Text? && MB.BlockVariant(ReadInstruction(v, name).text, name) == MB.Managed(MB.Policy)
  }

  lemma MarkMeans(v: View, name: string)
    requires Readable(v, name)
    ensures MarkOf(v, name) != Problem
    ensures MarkOf(v, name) == Recorded <==> HoldsPolicy(v, name)
  {
  }

  lemma {:induction false} InstalledMeans(v: View, names: seq<string>)
    requires forall n :: n in names ==> Readable(v, n)
    ensures Installed(v, names) <==> exists n :: n in names && HoldsPolicy(v, n)
  {
    if names != [] {
      InstalledMeans(v, names[1..]);
      MarkMeans(v, names[0]);
      assert forall n :: n in names <==> n == names[0] || n in names[1..];
    }
  }

  lemma TargetOfName(v: View, agents: seq<string>, policy: bool, name: string)
    requires name in InstructionNames(v)
    ensures Instruction(name, policy) in Targets(v, agents, policy)
  {
    var names := InstructionTargets(InstructionNames(v), policy);
    var i :| 0 <= i < |InstructionNames(v)| && InstructionNames(v)[i] == name;
    assert names[i] in names;
  }

  lemma NameOfTarget(v: View, agents: seq<string>, policy: bool, name: string)
    requires Instruction(name, policy) in Targets(v, agents, policy)
    ensures name in InstructionNames(v)
  {
    var names := InstructionTargets(InstructionNames(v), policy);
    assert Instruction(name, policy) in names;
  }

  /** With every instruction file readable, a listed file is a text or about to be created. */
  lemma ListedIsTextOrNew(res: Resources, v: View, name: string)
    requires Validated(res, v) && name in InstructionNames(v)
    ensures name in INSTRUCTIONS && !IsAlias(v, name)
    ensures [name] in v ==> ReadInstruction(v, name).Text?
  {
    NamesFacts(v);
    InstructionsDistinct();
    ExistingFacts(v, INSTRUCTIONS);
    assert Readable(v, name);
    if Existing(v, INSTRUCTIONS) == [] {
      assert Readable(v, "AGENTS.md") && Readable(v, "CLAUDE.md");
      assert ["CLAUDE.md"] !in v;
    }
  }

  lemma ListedEntries(res: Resources, v: View, agents: seq<string>, testPolicy: bool, w: View, name: string)
    requires Applied(res, v, agents, testPolicy, w) && name in InstructionNames(v)
    ensures var d := OwnVerdict(res, Instruction(name, PolicyWanted(v, testPolicy)), Entry(v, [name]));
      d != Stop && Performable(d, Entry(v, [name])) && Entry(w, [name]) == AfterBody(d, Entry(v, [name]))
    ensures VerdictOf(res, Instruction(name, PolicyWanted(v, testPolicy)), v) ==
      OwnVerdict(res, Instruction(name, PolicyWanted(v, testPolicy)), Entry(v, [name]))
  {
    var policy := PolicyWanted(v, testPolicy);
    var ts := Targets(v, agents, policy);
    var t := Instruction(name, policy);
    TargetOfName(v, agents, policy, name);
    TargetSettled(res, v, agents, testPolicy, w, t);
  }

  lemma HadPolicyMeansWanted(v: View, testPolicy: bool, name: string)
    requires (forall n :: n in INSTRUCTIONS ==> Readable(v, n)) && name in INSTRUCTIONS && HoldsPolicy(v, name)
    ensures PolicyWanted(v, testPolicy)
  {
    InstalledMeans(v, INSTRUCTIONS);
  }

  /** A settled instruction file is a text with a block, the policy block exactly when wanted; one whose edited
      text is beyond the size limit can no longer be read. */
  lemma ListedAfter(res: Resources, v: View, agents: seq<string>, testPolicy: bool, w: View, name: string)
    requires Applied(res, v, agents, testPolicy, w) && name in InstructionNames(v)
    ensures [name] in w
    ensures var fits := WriteFits(VerdictOf(res, Instruction(name, PolicyWanted(v, testPolicy)), v));
      && (Readable(w, name) <==> fits) && (ReadInstruction(w, name).Text? <==> fits)
      && (HoldsPolicy(w, name) <==> fits && PolicyWanted(v, testPolicy))
  {
    var policy := PolicyWanted(v, testPolicy);
    ListedEntries(res, v, agents, testPolicy, w, name);
    ListedIsTextOrNew(res, v, name);
    ReadAfter(res, v, w, name, policy);
    if HoldsPolicy(v, name) { HadPolicyMeansWanted(v, testPolicy, name); }
  }

  /** The same from the entries alone: the file reads as a text exactly when it fits, and holds the policy block
      when that was asked for or was there before. */
  lemma ReadAfter(res: Resources, v: View, w: View, name: string, policy: bool)
    requires var d := OwnVerdict(res, Instruction(name, policy), Entry(v, [name]));
      d != Stop && Performable(d, Entry(v, [name])) && Entry(w, [name]) == AfterBody(d, Entry(v, [name]))
    requires !IsAlias(v, name) && ([name] in v ==> ReadInstruction(v, name).Text?)
    ensures var fits := WriteFits(OwnVerdict(res, Instruction(name, policy), Entry(v, [name])));
      && [name] in w && (Readable(w, name) <==> fits) && (ReadInstruction(w, name).Text? <==> fits)
      && (HoldsPolicy(w, name) && !policy ==> HoldsPolicy(v, name)) && (fits && policy ==> HoldsPolicy(w, name))
  {
    FileReads(w, name);
    FileReads(v, name);
    if WriteFits(OwnVerdict(res, Instruction(name, policy), Entry(v, [name]))) {
      InstructionAfter(res, name, policy, Entry(v, [name]), Entry(w, [name]));
    }
  }

  /** How a regular file within the limit is read. */
  lemma FileReads(v: View, name: string)
    ensures var e := Entry(v, [name]);
      e.Some? && e.value.File? && |e.value.data| <= MAX_FILE_BYTES && !IsAlias(v, name) ==>
        ReadInstruction(v, name) == Text(Universal(e.value.data))
    ensures var e := Entry(v, [name]); e.Some? && e.value.File? ==> !IsAlias(v, name)
    ensures var e := Entry(v, [name]); e.Some? && e.value.File? && |e.value.data| > MAX_FILE_BYTES ==>
      ReadInstruction(v, name) == Refused
  {
  }

  /** One settled instruction file, from its entries before and after. */
  lemma InstructionAfter(res: Resources, name: string, policy: bool, was: Option<Body>, now: Option<Body>)
    requires var d := OwnVerdict(res, Instruction(name, policy), was);
      d != Stop && Performable(d, was) && WriteFits(d) && now == AfterBody(d, was)
    ensures now.Some? && now.value.File? && |now.value.data| <= MAX_FILE_BYTES
    ensures var reading := MB.BlockVariant(Universal(now.value.data), name);
      && reading.Managed? && (policy ==> reading == MB.Managed(MB.Policy))
      && (!policy && reading == MB.Managed(MB.Policy) ==>
           was.Some? && was.value.File? && MB.BlockVariant(Universal(was.value.data), name) == reading)
  {
    match OwnVerdict(res, Instruction(name, policy), was)
    case WouldCreate(data) => CreatedVariant(name, policy, data);
    case WouldUpdate(original, mode, text) =>
      MB.ReconcileHasNoReturn(original, name, policy);
      MB.ReconcileSettles(original, name, policy);
      if !policy { UpdatedVariant(original, name); }
    case _ =>
  }

  lemma CreatedVariant(name: string, policy: bool, data: string)
    requires data == MB.Block(name, if policy then MB.Policy else MB.Base)
    ensures Universal(data) == data && |data| <= MAX_FILE_BYTES
    ensures MB.BlockVariant(data, name) == MB.Managed(if policy then MB.Policy else MB.Base)
  {
    BlockSettles(name, policy);
    MB.BlockReads(name, if policy then MB.Policy else MB.Base);
  }

  lemma UpdatedVariant(original: string, name: string)
    requires MB.BlockVariant(original, name) != MB.Malformed && MB.Reconcile(original, name, false).Some?
    ensures MB.BlockVariant(MB.Reconcile(original, name, false).value, name) == MB.Managed(MB.Base)
  {
    MB.AppendReads(original, name, MB.Base);
  }

  lemma AppliedKeeps(res: Resources, v: View, agents: seq<string>, testPolicy: bool, w: View, t: Target)
    requires Applied(res, v, agents, testPolicy, w) && Proper(t)
    requires t !in Targets(v, agents, PolicyWanted(v, testPolicy))
      && (t.Instruction? ==> t.policy == PolicyWanted(v, testPolicy))
    ensures Entry(w, PathOf(t)) == Entry(v, PathOf(t))
  {
    var policy := PolicyWanted(v, testPolicy);
    TargetsGood(v, agents, policy);
    OtherTargetKept(res, v, Targets(v, agents, policy), policy, t);
  }

  /** An instruction file that was not there is still not there. */
  lemma UnlistedAfter(res: Resources, v: View, agents: seq<string>, testPolicy: bool, w: View, name: string)
    requires Applied(res, v, agents, testPolicy, w) && name in INSTRUCTIONS && name !in InstructionNames(v)
    ensures ReadInstruction(w, name).Missing? && ReadInstruction(v, name).Missing?
    ensures IsAlias(w, name) ==> ["CLAUDE.md"] in v
  {
    var policy := PolicyWanted(v, testPolicy);
    if Instruction(name, policy) in Targets(v, agents, policy) { NameOfTarget(v, agents, policy, name); }
    AppliedKeeps(res, v, agents, testPolicy, w, Instruction(name, policy));
    NamesFacts(v);
    assert Readable(v, name);
  }

  lemma ClaudeStays(res: Resources, v: View, agents: seq<string>, testPolicy: bool, w: View)
    requires Applied(res, v, agents, testPolicy, w) && ["CLAUDE.md"] in v
    ensures ["CLAUDE.md"] in w
  {
    if "CLAUDE.md" in InstructionNames(v) {
      ListedAfter(res, v, agents, testPolicy, w, "CLAUDE.md");
    } else {
      UnlistedAfter(res, v, agents, testPolicy, w, "CLAUDE.md");
    }
  }

  lemma AllReadableAfter(res: Resources, v: View, agents: seq<string>, testPolicy: bool, w: View)
    requires Applied(res, v, agents, testPolicy, w)
      && AllWritesFit(res, v, Targets(v, agents, PolicyWanted(v, testPolicy)))
    ensures forall n :: n in INSTRUCTIONS ==> Readable(w, n)
    ensures forall n :: n in INSTRUCTIONS ==> (ReadInstruction(w, n).Text? <==> n in InstructionNames(v))
    ensures forall n ::
      n in INSTRUCTIONS ==> (HoldsPolicy(w, n) <==> n in InstructionNames(v) && PolicyWanted(v, testPolicy))
  {
    forall n | n in INSTRUCTIONS
      ensures Readable(w, n) && (ReadInstruction(w, n).Text? <==> n in InstructionNames(v))
      ensures HoldsPolicy(w, n) <==> n in InstructionNames(v) && PolicyWanted(v, testPolicy)
    {
      if n in InstructionNames(v) {
        ListedAfter(res, v, agents, testPolicy, w, n);
        TargetOfName(v, agents, PolicyWanted(v, testPolicy), n);
        var i :| 0 <= i < |Targets(v, agents, PolicyWanted(v, testPolicy))|
          && Targets(v, agents, PolicyWanted(v, testPolicy))[i] == Instruction(n, PolicyWanted(v, testPolicy));
        assert WriteFits(VerdictOf(res, Targets(v, agents, PolicyWanted(v, testPolicy))[i], v));
      } else {
        UnlistedAfter(res, v, agents, testPolicy, w, n);
        if ["CLAUDE.md"] in v { ClaudeStays(res, v, agents, testPolicy, w); }
      }
    }
  }

  lemma {:induction false} ExistingIs(w: View, names: seq<string>, listed: seq<string>)
    requires forall i, j :: 0 <= i < j < |names| ==> names[i] != names[j]
    requires forall n :: n in names ==> (ReadInstruction(w, n).Text? <==> n in listed)
    ensures Existing(w, names) == Kept(names, listed)
  {
    if names != [] { ExistingIs(w, names[1..], listed); }
  }

  function Kept(names: seq<string>, listed: seq<string>): seq<string> {
    if names == [] then [] else (if names[0] in listed then [names[0]] else []) + Kept(names[1..], listed)
  }

  lemma NamesSame(v: View, w: View)
    requires forall n :: n in INSTRUCTIONS ==> (ReadInstruction(w, n).Text? <==> n in InstructionNames(v))
    ensures InstructionNames(w) == InstructionNames(v)
  {
    InstructionsDistinct();
    ExistingIs(w, INSTRUCTIONS, InstructionNames(v));
    ExistingFacts(v, INSTRUCTIONS);
    if Existing(v, INSTRUCTIONS) == [] {
      KeptAgents();
    } else {
      ExistingIs(v, INSTRUCTIONS, InstructionNames(v));
    }
  }

  lemma KeptAgents()
    ensures Kept(INSTRUCTIONS, ["AGENTS.md"]) == ["AGENTS.md"]
  {
    assert INSTRUCTIONS[1..] == ["CLAUDE.md", "GEMINI.md"];
    assert INSTRUCTIONS[1..][1..] == ["GEMINI.md"];
    assert Kept(["GEMINI.md"], ["AGENTS.md"]) == [];
    assert Kept(["CLAUDE.md", "GEMINI.md"], ["AGENTS.md"]) == [];
  }

  /** When everything written fits, the same invocation afterwards sees the same targets, all of them present. */
  lemma FittingApplySettles(res: Resources, v: View, agents: seq<string>, testPolicy: bool, w: View)
    requires Applied(res, v, agents, testPolicy, w)
      && AllWritesFit(res, v, Targets(v, agents, PolicyWanted(v, testPolicy)))
    ensures Previews(res, w, agents, testPolicy)
    ensures var ts := Targets(w, agents, PolicyWanted(w, testPolicy));
      && ts == Targets(v, agents, PolicyWanted(v, testPolicy))
      && forall t :: t in ts ==> VerdictOf(res, t, w) == Present
  {
    var ts := Targets(v, agents, PolicyWanted(v, testPolicy));
    AllReadableAfter(res, v, agents, testPolicy, w);
    NamesSame(v, w);
    InstalledMeans(w, INSTRUCTIONS);
    SomeNameListed(v);
    forall t | t in ts ensures VerdictOf(res, t, w) == Present {
      TargetSettled(res, v, agents, testPolicy, w, t);
      var i :| 0 <= i < |ts| && ts[i] == t;
      assert WriteFits(VerdictOf(res, ts[i], v));
    }
    assert Guide in ts;
  }

  /** A second apply writes nothing: it is refused exactly when the first one grew an instruction file beyond the
      size limit, and otherwise it finds every target present. */
  lemma SecondApplyWritesNothing(res: Resources, v: View, agents: seq<string>, testPolicy: bool, w: View)
    requires Applied(res, v, agents, testPolicy, w)
    ensures Previews(res, w, agents, testPolicy) <==>
      AllWritesFit(res, v, Targets(v, agents, PolicyWanted(v, testPolicy)))
    ensures Previews(res, w, agents, testPolicy) ==>
      var ts := Targets(w, agents, PolicyWanted(w, testPolicy));
      && ts == Targets(v, agents, PolicyWanted(v, testPolicy))
      && forall t :: t in ts ==> VerdictOf(res, t, w) == Present
  {
    var policy := PolicyWanted(v, testPolicy);
    var ts := Targets(v, agents, policy);
    if AllWritesFit(res, v, ts) {
      FittingApplySettles(res, v, agents, testPolicy, w);
    } else {
      var i :| 0 <= i < |ts| && !WriteFits(VerdictOf(res, ts[i], v));
      OnlyInstructionsOutgrow(res, ts[i], v);
      TargetsGood(v, agents, policy);
      assert ts[i] == Instruction(ts[i].name, policy) && ts[i] in ts;
      NameOfTarget(v, agents, policy, ts[i].name);
      NamesFacts(v);
      ListedAfter(res, v, agents, testPolicy, w, ts[i].name);
    }
  }

  /** An instruction file that records the policy afterwards means the policy was wanted. */
  lemma RecordedMeansWanted(res: Resources, v: View, agents: seq<string>, testPolicy: bool, w: View)
    requires Applied(res, v, agents, testPolicy, w) && Installed(w, INSTRUCTIONS)
    ensures PolicyWanted(v, testPolicy)
  {
    var n := RecordedSomewhere(w, INSTRUCTIONS);
    if n in InstructionNames(v) {
      ListedAfter(res, v, agents, testPolicy, w, n);
    } else {
      UnlistedAfter(res, v, agents, testPolicy, w, n);
    }
  }

  lemma {:induction false} RecordedSomewhere(v: View, names: seq<string>) returns (n: string)
    requires Installed(v, names)
    ensures n in names && HoldsPolicy(v, n)
  {
    if MarkOf(v, names[0]) == Recorded { n := names[0]; } else { n := RecordedSomewhere(v, names[1..]); }
  }

  lemma SomeNameListed(v: View)
    ensures exists n :: n in INSTRUCTIONS && n in InstructionNames(v)
  {
    NamesFacts(v);
    assert InstructionNames(v)[0] in InstructionNames(v);
  }

  /** After an apply that covers the installed providers, refresh has nothing left to do. */
  lemma ApplyLeavesNothingToRefresh(res: Resources, v: View, agents: seq<string>, testPolicy: bool, w: View)
    requires Applied(res, v, agents, testPolicy, w)
    requires forall p :: p in InstalledProviders(res, v, PROVIDERS) ==> p in agents
    ensures NothingToRefresh(res, w)
  {
    var ts := Targets(v, agents, PolicyWanted(v, testPolicy));
    assert Guide in ts;
    DocumentSettled(res, v, agents, testPolicy, w, Guide);
    if Installed(w, INSTRUCTIONS) {
      RecordedMeansWanted(res, v, agents, testPolicy, w);
      assert TestPolicy in ts;
      DocumentSettled(res, v, agents, testPolicy, w, TestPolicy);
    }
    forall p | p in PROVIDERS ensures !RefreshesSkill(res, w, p) { SkillSettled(res, v, agents, testPolicy, w, p); }
  }

  /** An applied document is current. */
  lemma DocumentSettled(res: Resources, v: View, agents: seq<string>, testPolicy: bool, w: View, t: Target)
    requires Applied(res, v, agents, testPolicy, w) && (t == Guide || t == TestPolicy)
    requires t in Targets(v, agents, PolicyWanted(v, testPolicy))
    ensures if t == Guide then !RefreshesGuide(res, w) else !RefreshesPolicy(res, w)
  {
    TargetSettled(res, v, agents, testPolicy, w, t);
    if !WriteFits(VerdictOf(res, t, v)) { OnlyInstructionsOutgrow(res, t, v); }
    PresentNotOld(res, t, w);
  }

  lemma SkillSettled(res: Resources, v: View, agents: seq<string>, testPolicy: bool, w: View, p: string)
    requires Applied(res, v, agents, testPolicy, w) && p in PROVIDERS
    requires forall p :: p in InstalledProviders(res, v, PROVIDERS) ==> p in agents
    ensures !RefreshesSkill(res, w, p)
  {
    var policy := PolicyWanted(v, testPolicy);
    if p in agents {
      var i :| 0 <= i < |Unique(agents)| && Unique(agents)[i] == p;
      assert SkillTargets(Unique(agents))[i] in Targets(v, agents, policy);
      TargetSettled(res, v, agents, testPolicy, w, Skill(p));
    } else {
      NotAskedNotTarget(v, agents, policy, p);
      AppliedKeeps(res, v, agents, testPolicy, w, Skill(p));
      assert !IsInstalled(res, v, p);
      if Entry(v, PathOf(Skill(p))).Some? { assert RealDirs(v, PathOf(Skill(p))); }
    }
  }

  lemma NotAskedNotTarget(v: View, agents: seq<string>, policy: bool, p: string)
    requires p !in agents
    ensures Skill(p) !in Targets(v, agents, policy)
  {
    var skills := SkillTargets(Unique(agents));
    forall i | 0 <= i < |skills| ensures skills[i] != Skill(p) { assert Unique(agents)[i] in Unique(agents); }
  }

  lemma PresentNotOld(res: Resources, t: Target, w: View)
    requires Sound(res) && (t == Guide || t == TestPolicy) && VerdictOf(res, t, w) == Present
    ensures t == Guide ==> !RefreshesGuide(res, w)
    ensures t == TestPolicy ==> !RefreshesPolicy(res, w)
  {
  }

  lemma ReturnReadsUnmanaged()
    ensures Universal("x\r") == "x\n" && MB.BlockVariant("x\n", "AGENTS.md") == MB.Unmanaged
  {
    assert Universal("x\r"[1..]) == "\n" + Universal("");
  }

  ghost predicate HoldsReturn(v: View) { v == map[["AGENTS.md"] := File("x\r", LEAF_MODE)] }

  lemma ReturnReadings(v: View, n: string)
    requires HoldsReturn(v) && n in INSTRUCTIONS
    ensures Readable(v, n) && !HoldsPolicy(v, n)
    ensures ReadInstruction(v, n).Text? <==> n == "AGENTS.md"
    ensures n == "AGENTS.md" ==> ReadInstruction(v, n) == Text("x\n")
  {
    ReturnReadsUnmanaged();
    if n != "AGENTS.md" { assert [n][0] != ["AGENTS.md"][0]; }
  }

  lemma ReturnTargets(v: View)
    requires HoldsReturn(v)
    ensures !PolicyWanted(v, false)
    ensures Instruction("AGENTS.md", false) in Targets(v, [], false)
    ensures forall t :: t in Targets(v, [], false) ==> t == Guide || t == Instruction("AGENTS.md", false)
  {
    forall n | n in INSTRUCTIONS
      ensures Readable(v, n) && !HoldsPolicy(v, n) && (ReadInstruction(v, n).Text? <==> n == "AGENTS.md")
    {
      ReturnReadings(v, n);
    }
    InstalledMeans(v, INSTRUCTIONS);
    InstructionsDistinct();
    ExistingFacts(v, INSTRUCTIONS);
    assert "AGENTS.md" in InstructionNames(v);
    TargetOfName(v, [], false, "AGENTS.md");
    OnlyAgents(v);
  }

  lemma OnlyAgents(v: View)
    requires forall n :: n in InstructionNames(v) ==> n == "AGENTS.md"
    ensures forall t :: t in Targets(v, [], false) ==> t == Guide || t == Instruction("AGENTS.md", false)
  {
    assert Unique<string>([]) == [] && SkillTargets([]) == [];
    var names := InstructionTargets(InstructionNames(v), false);
    forall i | 0 <= i < |names| ensures names[i] == Instruction("AGENTS.md", false) {
      assert InstructionNames(v)[i] in InstructionNames(v);
    }
  }

  lemma ReturnGuide(res: Resources, v: View)
    requires HoldsReturn(v)
    ensures VerdictOf(res, Guide, v) == WouldCreate(res.guide)
  {
    var path := PathOf(Guide);
    assert path == ["docs", "ptest-agent.md"] && path[..1] == ["docs"];
    assert ["docs"][0] != ["AGENTS.md"][0] && |path| != |["AGENTS.md"]|;
    assert ["docs"] !in v && path !in v;
    assert DirsPossible(v, path);
    assert Entry(v, path) == None;
  }

  lemma ReturnVerdicts(res: Resources, v: View)
    requires HoldsReturn(v)
    ensures VerdictOf(res, Guide, v) == WouldCreate(res.guide)
    ensures VerdictOf(res, Instruction("AGENTS.md", false), v).WouldUpdate?
  {
    ReturnReadsUnmanaged();
    ReturnGuide(res, v);
    assert DirsPossible(v, ["AGENTS.md"]);
    assert Entry(v, ["AGENTS.md"]) == Some(File("x\r", LEAF_MODE));
  }

  lemma ReturnPreviews(res: Resources, v: View)
    requires Sound(res) && HoldsReturn(v)
    ensures Previews(res, v, [], false)
  {
    ReturnTargets(v);
    ReturnVerdicts(res, v);
    forall n | n in INSTRUCTIONS ensures Readable(v, n) { ReturnReadings(v, n); }
  }

  lemma ReturnRooted(v: View)
    requires HoldsReturn(v)
    ensures ViewRooted(v)
  {
  }

  lemma ReturnUnperformable(res: Resources, v: View, ts: seq<Target>)
    requires HoldsReturn(v) && Instruction("AGENTS.md", false) in ts
    requires VerdictOf(res, Instruction("AGENTS.md", false), v).WouldUpdate?
    ensures !AllPerformable(res, v, ts)
  {
    var i :| 0 <= i < |ts| && ts[i] == Instruction("AGENTS.md", false);
    assert !Performable(VerdictOf(res, ts[i], v), Entry(v, PathOf(ts[i])));
  }

  lemma ReturnAllPreviewed(res: Resources, v: View, ts: seq<Target>)
    requires HoldsReturn(v) && forall t :: t in ts ==> t == Guide || t == Instruction("AGENTS.md", false)
    ensures AllPreviewed(res, v, ts)
  {
    ReturnVerdicts(res, v);
    forall i | 0 <= i < |ts| ensures VerdictOf(res, ts[i], v) != Stop { assert ts[i] in ts; }
  }

  /** An instruction file with a carriage return: preview promises an update that apply then refuses. */
  lemma ReturnBlocksApply(res: Resources, v: View)
    requires Sound(res) && SoundSkills(res) && HoldsReturn(v)
    ensures Previews(res, v, [], false)
    ensures VerdictOf(res, Instruction("AGENTS.md", false), v).WouldUpdate?
    ensures Perform(v, StepsOf(res, Targets(v, [], PolicyWanted(v, false)))) == None
  {
    ReturnPreviews(res, v);
    ReturnTargets(v);
    ReturnVerdicts(res, v);
    ReturnRooted(v);
    var ts := Targets(v, [], false);
    TargetsGood(v, [], false);
    ReturnAllPreviewed(res, v, ts);
    ReturnUnperformable(res, v, ts);
    ApplyAgrees(res, v, ts, false);
  }
}

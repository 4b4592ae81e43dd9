/** What the guidance commands may touch and what they leave (src/ptest/agent_rules.py), told from the files
before and after alone: no verdict, target or step is mentioned in the definitions. */
module GuidanceEffect {
  import opened Basics
  import opened GuidanceTree
  import opened GuidanceRules
  import opened GuidanceAgreement
  import MB = ManagedBlock

  /** A file ptest ships whole: its text now, and which older texts count as its own. */
  datatype Shipment = Shipment(path: Path, current: string, older: string -> bool, raw: bool)

  function GuideFile(res: Resources): Shipment {
    Shipment(["docs", "ptest-agent.md"], res.guide, res.previousGuide, false)
  }

  function PolicyFile(res: Resources): Shipment {
    Shipment(["docs", "ptest-test-policy.md"], res.policy, res.previousPolicy, false)
  }

  const SKILL_DIRS: map<string, string> :=
    map["claude" := ".claude", "codex" := ".agents", "opencode" := ".opencode", "gemini" := ".gemini"]

  function SkillFile(res: Resources, p: string): Shipment
    requires p in SKILL_DIRS
  {
    Shipment([SKILL_DIRS[p], "skills", "ptest", "SKILL.md"], res.skill(p), (s: string) => res.oldSkill(p, s), true)
  }

  predicate IsFile(v: View, path: Path) { path in v && v[path].File? && |v[path].data| <= MAX_FILE_BYTES }

  /** Documents are compared with their line ends translated, skills as they are. */
  function TextAt(v: View, f: Shipment): string
    requires IsFile(v, f.path)
  {
    if f.raw then v[f.path].data else Universal(v[f.path].data)
  }

  predicate HoldsCurrent(v: View, f: Shipment) { IsFile(v, f.path) && TextAt(v, f) == f.current }

  predicate HoldsOlder(v: View, f: Shipment) {
    IsFile(v, f.path) && TextAt(v, f) != f.current && f.older(TextAt(v, f))
  }

  /** Nothing there, or one of ptest's own texts, and no obstacle above. */
  predicate MayOwn(v: View, f: Shipment) {
    DirsPossible(v, f.path) && (f.path in v ==> HoldsCurrent(v, f) || HoldsOlder(v, f))
  }

  const CARRIERS: set<string> := {"AGENTS.md", "CLAUDE.md", "GEMINI.md"}

  function Content(v: View, name: string): string
    requires IsFile(v, [name])
  {
    Universal(v[[name]].data)
  }

  /** An instruction file that is missing, a link to its neighbour, or a text with at most one whole block. */
  ghost predicate Legible(v: View, name: string) {
    || [name] !in v
    || (name == "AGENTS.md" && v[[name]] == Link("CLAUDE.md") && ["CLAUDE.md"] in v)
    || (IsFile(v, [name])
        && (MB.Plain(Content(v, name)) || exists variant :: MB.HasBlock(Content(v, name), name, variant)))
  }

  ghost predicate Has(v: View, name: string, variant: MB.Variant) {
    IsFile(v, [name]) && MB.HasBlock(Content(v, name), name, variant)
  }

  /** The policy is asked for, or an instruction file records it. */
  ghost predicate Wants(v: View, testPolicy: bool) {
    testPolicy || exists name :: name in CARRIERS && Has(v, name, MB.Policy)
  }

  /** What preview and apply demand of the files: nothing the command would write is the user's own. */
  ghost predicate Acceptable(res: Resources, v: View, agents: seq<string>, testPolicy: bool) {
    && (forall p :: p in agents ==> p in SKILL_DIRS)
    && (forall name :: name in CARRIERS ==> Legible(v, name))
    && MayOwn(v, GuideFile(res))
    && (Wants(v, testPolicy) ==> MayOwn(v, PolicyFile(res)))
    && (forall p :: p in agents && p in SKILL_DIRS ==> MayOwn(v, SkillFile(res, p)))
  }

  /** A shipped file afterwards: its current text, as it was if it had that, and with its old mode. */
  predicate Delivered(v: View, w: View, f: Shipment) {
    f.path in w && w[f.path] ==
      if f.path in v && v[f.path].File? then
        if HoldsCurrent(v, f) then v[f.path] else File(f.current, v[f.path].mode)
      else File(f.current, LEAF_MODE)
  }

  predicate Untouched(v: View, w: View, path: Path) { Entry(w, path) == Entry(v, path) }

  /** This instruction file lacks the wanted block. */
  ghost predicate Lacks(v: View, name: string, policy: bool) {
    IsFile(v, [name]) && !Has(v, name, MB.Policy) && (policy || !Has(v, name, MB.Base))
  }

  /** An instruction file afterwards: edited when it lacks the wanted block, made when there is none at all. */
  ghost predicate Marked(v: View, w: View, name: string, policy: bool) {
    if Lacks(v, name, policy) then
      [name] in w && w[[name]].File? && w[[name]].mode == v[[name]].mode
        && MB.Edited(Content(v, name), w[[name]].data, name, policy)
    else if name == "AGENTS.md" && forall n :: n in CARRIERS ==> !IsFile(v, [n]) then
      [name] in w && w[[name]] == File(MB.Block(name, if policy then MB.Policy else MB.Base), LEAF_MODE)
    else Untouched(v, w, [name])
  }

  /** The paths the command answers for. */
  ghost predicate Named(res: Resources, path: Path) {
    || path == GuideFile(res).path || path == PolicyFile(res).path || (|path| == 1 && path[0] in CARRIERS)
    || exists p :: p in SKILL_DIRS && path == SkillFile(res, p).path
  }

  /** Everything a completed command did: every file it answers for, and a few directories. */
  ghost predicate Effect(res: Resources, v: View, agents: seq<string>, testPolicy: bool, w: View) {
    var policy := Wants(v, testPolicy);
    && Delivered(v, w, GuideFile(res))
    && (if policy then Delivered(v, w, PolicyFile(res)) else Untouched(v, w, PolicyFile(res).path))
    && (forall p :: p in SKILL_DIRS ==>
      if p in agents then Delivered(v, w, SkillFile(res, p)) else Untouched(v, w, SkillFile(res, p).path))
    && (forall name :: name in CARRIERS ==> Marked(v, w, name, policy))
    && (forall q :: q != [] && !Named(res, q) ==>
      Untouched(v, w, q)
        || (q !in v && q in w && w[q] == Dir && exists path :: Named(res, path) && q < path && path in w))
  }

  predicate HasReturn(v: View, path: Path) { path in v && v[path].File? && '\r' in v[path].data }

  /** A file to be rewritten holds a carriage return. */
  ghost predicate Unwritable(res: Resources, v: View, testPolicy: bool) {
    || (HoldsOlder(v, GuideFile(res)) && HasReturn(v, GuideFile(res).path))
    || (Wants(v, testPolicy) && HoldsOlder(v, PolicyFile(res)) && HasReturn(v, PolicyFile(res).path))
    || exists name :: name in CARRIERS && Lacks(v, name, Wants(v, testPolicy)) && HasReturn(v, [name])
  }

  // The judgement on each file.

  lemma ManagedJudged(res: Resources, t: Target, v: View, f: Shipment)
    requires match t case Guide => f == GuideFile(res) case TestPolicy => f == PolicyFile(res)
      case Skill(p) => p in SKILL_DIRS && f == SkillFile(res, p) case _ => false
    ensures PathOf(t) == f.path
    ensures VerdictOf(res, t, v) != Stop <==> MayOwn(v, f)
    ensures VerdictOf(res, t, v).WouldUpdate? <==> DirsPossible(v, f.path) && HoldsOlder(v, f)
    ensures VerdictOf(res, t, v).WouldUpdate? ==>
      VerdictOf(res, t, v) == WouldUpdate(TextAt(v, f), v[f.path].mode, f.current)
    ensures VerdictOf(res, t, v).Present? <==> DirsPossible(v, f.path) && HoldsCurrent(v, f)
    ensures VerdictOf(res, t, v).WouldCreate? <==> DirsPossible(v, f.path) && f.path !in v
    ensures VerdictOf(res, t, v).WouldCreate? ==> VerdictOf(res, t, v).data == f.current
  {
  }

  lemma CarriersAre(name: string)
    ensures name in CARRIERS <==> name in INSTRUCTIONS
  {
  }

  lemma ProvidersAre(p: string)
    ensures p in SKILL_DIRS <==> p in PROVIDERS
  {
  }

  lemma LegibleMeansReadable(v: View, name: string)
    requires name in CARRIERS
    ensures Legible(v, name) <==> Readable(v, name)
    ensures Legible(v, name) ==> (IsFile(v, [name]) <==> ReadInstruction(v, name).Text?)
    ensures Legible(v, name) && IsFile(v, [name]) ==> ReadInstruction(v, name) == Text(Content(v, name))
    ensures Legible(v, name) ==> (Has(v, name, MB.Policy) <==> HoldsPolicy(v, name))
  {
    if IsFile(v, [name]) { MB.ReadingMeans(Content(v, name), name); }
  }

  /** With all instruction files legible the recorded choice is the one some file holds. */
  lemma WantsMeansWanted(v: View, testPolicy: bool)
    requires forall name :: name in CARRIERS ==> Legible(v, name)
    ensures Wants(v, testPolicy) <==> PolicyWanted(v, testPolicy)
  {
    forall name | name in INSTRUCTIONS
      ensures name in CARRIERS && Readable(v, name) && (Has(v, name, MB.Policy) <==> HoldsPolicy(v, name)) {
      CarriersAre(name);
      LegibleMeansReadable(v, name);
    }
    InstalledMeans(v, INSTRUCTIONS);
    if name :| name in CARRIERS && Has(v, name, MB.Policy) { CarriersAre(name); }
  }

  /** An instruction file in the list of targets: made when there is none at all, edited when it lacks the block. */
  lemma InstructionJudged(res: Resources, v: View, name: string, policy: bool)
    requires name in CARRIERS && Legible(v, name) && (IsFile(v, [name]) || [name] !in v)
    ensures var d := VerdictOf(res, Instruction(name, policy), v);
      && d != Stop && (d.WouldUpdate? <==> Lacks(v, name, policy))
      && (d.WouldUpdate? ==> d.mode == v[[name]].mode && MB.Edited(Content(v, name), d.text, name, policy))
      && (d.WouldCreate? <==> [name] !in v)
      && (d.WouldCreate? ==> d.data == MB.Block(name, if policy then MB.Policy else MB.Base))
  {
    assert DirsPossible(v, [name]);
    if IsFile(v, [name]) {
      if variant :| MB.HasBlock(Content(v, name), name, variant) { assert variant == MB.Base || variant == MB.Policy; }
      TextJudged(res, name, policy, v[[name]]);
    }
  }

  lemma TextJudged(res: Resources, name: string, policy: bool, body: Body)
    requires body.File? && |body.data| <= MAX_FILE_BYTES
    requires var text := Universal(body.data);
      MB.Plain(text) || MB.HasBlock(text, name, MB.Base) || MB.HasBlock(text, name, MB.Policy)
    ensures var d, text := OwnVerdict(res, Instruction(name, policy), Some(body)), Universal(body.data);
      && (d.Present? || d.WouldUpdate?)
      && (d.Present? <==> MB.HasBlock(text, name, MB.Policy) || (!policy && MB.HasBlock(text, name, MB.Base)))
      && (d.WouldUpdate? ==> d.mode == body.mode && MB.Edited(text, d.text, name, policy))
  {
    var text := Universal(body.data);
    MB.ReconcileEdits(text, name, policy);
    InstructionOwn(res, name, policy, body);
  }

  lemma InstructionOwn(res: Resources, name: string, policy: bool, body: Body)
    requires body.File? && |body.data| <= MAX_FILE_BYTES && MB.BlockVariant(Universal(body.data), name) != MB.Malformed
    ensures OwnVerdict(res, Instruction(name, policy), Some(body)) ==
      match MB.Reconcile(Universal(body.data), name, policy)
      case None => Present
      case Some(edited) => WouldUpdate(Universal(body.data), body.mode, edited)
  {
  }

  /** Which instruction files the command takes: the regular ones, or AGENTS.md when there is none. */
  lemma TakenNames(v: View, name: string)
    requires name in CARRIERS && forall n :: n in CARRIERS ==> Legible(v, n)
    ensures name in InstructionNames(v) <==>
      IsFile(v, [name]) || (name == "AGENTS.md" && forall n :: n in CARRIERS ==> !IsFile(v, [n]))
    ensures name in InstructionNames(v) ==> IsFile(v, [name]) || [name] !in v
  {
    forall n | n in CARRIERS ensures n in INSTRUCTIONS && (IsFile(v, [n]) <==> ReadInstruction(v, n).Text?) {
      CarriersAre(n);
      LegibleMeansReadable(v, n);
    }
    InstructionsDistinct();
    ExistingFacts(v, INSTRUCTIONS);
    forall n | n in INSTRUCTIONS ensures n in CARRIERS { CarriersAre(n); }
    if Existing(v, INSTRUCTIONS) == [] {
      forall n | n in CARRIERS ensures !IsFile(v, [n]) { assert n !in Existing(v, INSTRUCTIONS); }
      assert Legible(v, "AGENTS.md") && Legible(v, "CLAUDE.md");
      assert ["CLAUDE.md"] !in v;
    } else {
      var n := Existing(v, INSTRUCTIONS)[0];
      assert n in Existing(v, INSTRUCTIONS) && IsFile(v, [n]);
    }
  }

  /** The list of targets, member by member. */
  lemma TargetsAre(v: View, agents: seq<string>, policy: bool, t: Target)
    ensures t in Targets(v, agents, policy) <==>
      match t
      case Guide => true
      case TestPolicy => policy
      case Instruction(name, flag) => flag == policy && name in InstructionNames(v)
      case Skill(p) => p in agents
  {
    var names, skills := InstructionTargets(InstructionNames(v), policy), SkillTargets(Unique(agents));
    match t
    case Instruction(name, flag) =>
      if flag == policy && name in InstructionNames(v) { TargetOfName(v, agents, policy, name); }
      if t in names {
        var i :| 0 <= i < |names| && names[i] == t;
        assert InstructionNames(v)[i] in InstructionNames(v);
      }
    case Skill(p) =>
      if p in agents {
        assert p in Unique(agents);
        var i :| 0 <= i < |Unique(agents)| && Unique(agents)[i] == p;
        assert skills[i] in skills;
      }
      if t in skills { NotInOther(v, agents, policy, p); }
    case _ =>
  }

  lemma NotInOther(v: View, agents: seq<string>, policy: bool, p: string)
    requires Skill(p) in SkillTargets(Unique(agents))
    ensures p in agents
  {
    var skills := SkillTargets(Unique(agents));
    var i :| 0 <= i < |skills| && skills[i] == Skill(p);
    assert Unique(agents)[i] in Unique(agents);
  }

  /** The command goes ahead exactly when every file it may have to write is missing or ptest's own, and every
      instruction file is legible; a file of the user's in a place it needs refuses it. */
  lemma AcceptedExactly(res: Resources, v: View, agents: seq<string>, testPolicy: bool)
    ensures Previews(res, v, agents, testPolicy) <==> Acceptable(res, v, agents, testPolicy)
  {
    forall p | p in agents ensures p in SKILL_DIRS <==> p in PROVIDERS { ProvidersAre(p); }
    forall n | n in CARRIERS || n in INSTRUCTIONS
      ensures (n in CARRIERS <==> n in INSTRUCTIONS) && (n in CARRIERS ==> (Legible(v, n) <==> Readable(v, n)))
    {
      CarriersAre(n);
      if n in CARRIERS { LegibleMeansReadable(v, n); }
    }
    ManagedJudged(res, Guide, v, GuideFile(res));
    if Supported(agents) && forall name :: name in CARRIERS ==> Legible(v, name) {
      WantsMeansWanted(v, testPolicy);
      AllJudged(res, v, agents, PolicyWanted(v, testPolicy));
    }
  }

  lemma AllJudged(res: Resources, v: View, agents: seq<string>, policy: bool)
    requires (forall p :: p in agents ==> p in SKILL_DIRS) && forall name :: name in CARRIERS ==> Legible(v, name)
    ensures (forall t :: t in Targets(v, agents, policy) ==> VerdictOf(res, t, v) != Stop) <==>
      MayOwn(v, GuideFile(res)) && (policy ==> MayOwn(v, PolicyFile(res)))
      && forall p :: p in agents && p in SKILL_DIRS ==> MayOwn(v, SkillFile(res, p))
  {
    ManagedJudged(res, Guide, v, GuideFile(res));
    ManagedJudged(res, TestPolicy, v, PolicyFile(res));
    forall p | p in agents && p in SKILL_DIRS
      ensures VerdictOf(res, Skill(p), v) != Stop <==> MayOwn(v, SkillFile(res, p))
    {
      ManagedJudged(res, Skill(p), v, SkillFile(res, p));
    }
    forall t ensures t in Targets(v, agents, policy) <==>
      match t case Guide => true case TestPolicy => policy case Skill(p) => p in agents
        case Instruction(name, flag) => flag == policy && name in InstructionNames(v)
    {
      TargetsAre(v, agents, policy, t);
    }
    NamesFacts(v);
    forall name | name in InstructionNames(v) ensures VerdictOf(res, Instruction(name, policy), v) != Stop {
      CarriersAre(name);
      TakenNames(v, name);
      InstructionJudged(res, v, name, policy);
    }
  }

  // What following the verdicts leaves.

  /** This entry is as it was, or a directory made on the way to a target. */
  ghost predicate RestKept(v: View, w: View, ts: seq<Target>, q: Path) {
    Untouched(v, w, q) ||
      (q !in v && q in w && w[q] == Dir && exists i :: 0 <= i < |ts| && q in Ancestors(PathOf(ts[i])))
  }

  ghost predicate NoTarget(ts: seq<Target>, q: Path) { forall i :: 0 <= i < |ts| ==> PathOf(ts[i]) != q }

  ghost predicate Followed(res: Resources, v: View, ts: seq<Target>, w: View) {
    && (forall i :: 0 <= i < |ts| ==>
      Entry(w, PathOf(ts[i])) == AfterBody(VerdictOf(res, ts[i], v), Entry(v, PathOf(ts[i]))))
    && (forall q {:trigger NoTarget(ts, q)} :: q != [] && NoTarget(ts, q) ==> RestKept(v, w, ts, q))
  }

  lemma {:induction false} PerformKeepsRest(res: Resources, v: View, ts: seq<Target>, policy: bool, k: nat, q: Path)
    requires SoundSkills(res) && GoodTargets(ts, policy) && ViewRooted(v) && AllPreviewed(res, v, ts) && k <= |ts|
    requires AllPerformable(res, v, ts) && q != [] && NoTarget(ts, q)
    ensures var w := Perform(v, StepsOf(res, ts)[..k]); w.Some? && RestKept(v, w.value, ts, q)
  {
    if k > 0 {
      PerformKeepsRest(res, v, ts, policy, k - 1, q);
      var u := PerformReaches(res, v, ts, policy, k - 1);
      VerdictCarries(res, v, ts, k - 1, u);
      var _ := StepPerforms(res, ts[k - 1], u);
      PerformExtends(v, StepsOf(res, ts), k - 1);
    }
  }

  lemma PerformFollows(res: Resources, v: View, ts: seq<Target>, policy: bool, w: View)
    requires SoundSkills(res) && GoodTargets(ts, policy) && ViewRooted(v) && AllPreviewed(res, v, ts)
    requires AllPerformable(res, v, ts) && Perform(v, StepsOf(res, ts)) == Some(w)
    ensures Followed(res, v, ts, w)
  {
    ApplyAgrees(res, v, ts, policy);
    assert StepsOf(res, ts)[..|ts|] == StepsOf(res, ts);
    forall q | q != [] && NoTarget(ts, q) ensures RestKept(v, w, ts, q) {
      PerformKeepsRest(res, v, ts, policy, |ts|, q);
    }
  }

  /** The entry of a target in the list. */
  lemma FollowedEntry(res: Resources, v: View, agents: seq<string>, policy: bool, w: View, t: Target)
    requires var ts := Targets(v, agents, policy); Followed(res, v, ts, w) && AllPreviewed(res, v, ts)
    requires t in Targets(v, agents, policy)
    ensures VerdictOf(res, t, v) != Stop
    ensures Entry(w, PathOf(t)) == AfterBody(VerdictOf(res, t, v), Entry(v, PathOf(t)))
  {
    var ts := Targets(v, agents, policy);
    var i :| 0 <= i < |ts| && ts[i] == t;
    assert VerdictOf(res, ts[i], v) != Stop;
  }

  /** The entry of a target that is not. */
  lemma UnfollowedEntry(res: Resources, v: View, agents: seq<string>, policy: bool, w: View, t: Target)
    requires var ts := Targets(v, agents, policy); Followed(res, v, ts, w) && GoodTargets(ts, policy)
    requires Proper(t) && t !in Targets(v, agents, policy) && (t.Instruction? ==> t.policy == policy)
    ensures Untouched(v, w, PathOf(t))
  {
    var ts := Targets(v, agents, policy);
    forall i | 0 <= i < |ts| ensures Apart(PathOf(ts[i]), PathOf(t)) { TargetsApart(ts[i], t, policy); }
    forall i | 0 <= i < |ts| ensures PathOf(t) !in Ancestors(PathOf(ts[i])) { assert !(PathOf(t) <= PathOf(ts[i])); }
    assert NoTarget(ts, PathOf(t));
  }

  ghost predicate Follows(res: Resources, v: View, agents: seq<string>, policy: bool, w: View) {
    var ts := Targets(v, agents, policy);
    && (forall p :: p in agents ==> p in SKILL_DIRS) && (forall n :: n in CARRIERS ==> Legible(v, n))
    && AllPreviewed(res, v, ts) && GoodTargets(ts, policy) && Followed(res, v, ts, w)
  }

  lemma DeliveredWhole(res: Resources, v: View, agents: seq<string>, policy: bool, w: View, t: Target, f: Shipment)
    requires Follows(res, v, agents, policy, w)
    requires match t case Guide => f == GuideFile(res) case TestPolicy => f == PolicyFile(res)
      case Skill(p) => p in SKILL_DIRS && f == SkillFile(res, p) case _ => false
    ensures t in Targets(v, agents, policy) ==> Delivered(v, w, f)
    ensures t !in Targets(v, agents, policy) ==> Untouched(v, w, f.path)
  {
    ManagedJudged(res, t, v, f);
    if t in Targets(v, agents, policy) {
      FollowedEntry(res, v, agents, policy, w, t);
    } else {
      if t.Skill? { ProvidersAre(t.provider); }
      UnfollowedEntry(res, v, agents, policy, w, t);
    }
  }

  lemma MarkedWhole(res: Resources, v: View, agents: seq<string>, policy: bool, w: View, name: string)
    requires Follows(res, v, agents, policy, w) && name in CARRIERS
    ensures Marked(v, w, name, policy)
  {
    var t := Instruction(name, policy);
    CarriersAre(name);
    TakenNames(v, name);
    TargetsAre(v, agents, policy, t);
    if t in Targets(v, agents, policy) {
      InstructionJudged(res, v, name, policy);
      FollowedEntry(res, v, agents, policy, w, t);
    } else {
      UnfollowedEntry(res, v, agents, policy, w, t);
    }
  }

  lemma TargetNamed(res: Resources, v: View, agents: seq<string>, policy: bool, w: View, i: nat)
    requires Follows(res, v, agents, policy, w) && i < |Targets(v, agents, policy)|
    ensures Named(res, PathOf(Targets(v, agents, policy)[i])) && PathOf(Targets(v, agents, policy)[i]) in w
  {
    var t := Targets(v, agents, policy)[i];
    FollowedEntry(res, v, agents, policy, w, t);
    match t
    case Skill(p) => ProvidersAre(p); ManagedJudged(res, t, v, SkillFile(res, p));
    case Instruction(name, _) => CarriersAre(name);
    case _ =>
  }

  lemma RestWhole(res: Resources, v: View, agents: seq<string>, policy: bool, w: View, q: Path)
    requires Follows(res, v, agents, policy, w) && q != [] && !Named(res, q)
    ensures Untouched(v, w, q)
      || (q !in v && q in w && w[q] == Dir && exists path :: Named(res, path) && q < path && path in w)
  {
    var ts := Targets(v, agents, policy);
    forall i | 0 <= i < |ts| ensures Named(res, PathOf(ts[i])) && PathOf(ts[i]) in w {
      TargetNamed(res, v, agents, policy, w, i);
    }
    assert NoTarget(ts, q);
    if !Untouched(v, w, q) {
      var i :| 0 <= i < |ts| && q in Ancestors(PathOf(ts[i]));
      assert Named(res, PathOf(ts[i])) && q < PathOf(ts[i]);
    }
  }

  /** A list of verdicts followed is the whole effect. */
  lemma FollowedIsEffect(res: Resources, v: View, agents: seq<string>, testPolicy: bool, w: View)
    requires Follows(res, v, agents, PolicyWanted(v, testPolicy), w)
    ensures Effect(res, v, agents, testPolicy, w)
  {
    var policy := PolicyWanted(v, testPolicy);
    WantsMeansWanted(v, testPolicy);
    DeliveredWhole(res, v, agents, policy, w, Guide, GuideFile(res));
    DeliveredWhole(res, v, agents, policy, w, TestPolicy, PolicyFile(res));
    TargetsAre(v, agents, policy, Guide);
    TargetsAre(v, agents, policy, TestPolicy);
    forall p | p in SKILL_DIRS
      ensures if p in agents then Delivered(v, w, SkillFile(res, p)) else Untouched(v, w, SkillFile(res, p).path)
    {
      TargetsAre(v, agents, policy, Skill(p));
      DeliveredWhole(res, v, agents, policy, w, Skill(p), SkillFile(res, p));
    }
    forall name | name in CARRIERS ensures Marked(v, w, name, policy) {
      MarkedWhole(res, v, agents, policy, w, name);
    }
    forall q | q != [] && !Named(res, q)
      ensures Untouched(v, w, q)
        || (q !in v && q in w && w[q] == Dir && exists path :: Named(res, path) && q < path && path in w)
    {
      RestWhole(res, v, agents, policy, w, q);
    }
  }

  /** The updates of an accepted command can all be made exactly when none is unwritable. */
  lemma UnwritableExactly(res: Resources, v: View, agents: seq<string>, testPolicy: bool)
    requires Acceptable(res, v, agents, testPolicy) && SoundSkills(res)
    ensures AllPerformable(res, v, Targets(v, agents, PolicyWanted(v, testPolicy))) <==> !Unwritable(res, v, testPolicy)
  {
    var policy := PolicyWanted(v, testPolicy);
    var ts := Targets(v, agents, policy);
    WantsMeansWanted(v, testPolicy);
    ManagedJudged(res, Guide, v, GuideFile(res));
    ManagedJudged(res, TestPolicy, v, PolicyFile(res));
    TargetsAre(v, agents, policy, Guide);
    TargetsAre(v, agents, policy, TestPolicy);
    forall t | t in ts ensures CanBeDone(res, v, t) <==> !UnwritableAt(res, v, t) {
      OneUnwritable(res, v, agents, policy, t);
    }
    if t :| t in ts && !CanBeDone(res, v, t) {
      var i :| 0 <= i < |ts| && ts[i] == t;
      UnwritableSomewhere(res, v, agents, testPolicy, t);
    } else {
      forall i | 0 <= i < |ts| ensures CanBeDone(res, v, ts[i]) {}
      forall name | name in CARRIERS && Lacks(v, name, policy) ensures !HasReturn(v, [name]) {
        TakenNames(v, name);
        TargetsAre(v, agents, policy, Instruction(name, policy));
        assert CanBeDone(res, v, Instruction(name, policy));
      }
      assert CanBeDone(res, v, Guide) && (policy ==> CanBeDone(res, v, TestPolicy));
    }
  }

  ghost predicate CanBeDone(res: Resources, v: View, t: Target) {
    Performable(VerdictOf(res, t, v), Entry(v, PathOf(t)))
  }

  ghost predicate UnwritableAt(res: Resources, v: View, t: Target) {
    match t
    case Guide => HoldsOlder(v, GuideFile(res)) && HasReturn(v, GuideFile(res).path)
    case TestPolicy => HoldsOlder(v, PolicyFile(res)) && HasReturn(v, PolicyFile(res).path)
    case Instruction(name, policy) => Lacks(v, name, policy) && HasReturn(v, [name])
    case Skill(_) => false
  }

  lemma OneUnwritable(res: Resources, v: View, agents: seq<string>, policy: bool, t: Target)
    requires (forall p :: p in agents ==> p in SKILL_DIRS) && (forall n :: n in CARRIERS ==> Legible(v, n))
    requires SoundSkills(res) && t in Targets(v, agents, policy)
    requires MayOwn(v, GuideFile(res)) && (policy ==> MayOwn(v, PolicyFile(res)))
    ensures CanBeDone(res, v, t) <==> !UnwritableAt(res, v, t)
  {
    TargetsAre(v, agents, policy, t);
    match t
    case Guide => ManagedJudged(res, t, v, GuideFile(res));
    case TestPolicy => ManagedJudged(res, t, v, PolicyFile(res));
    case Skill(p) => ManagedJudged(res, t, v, SkillFile(res, p));
    case Instruction(name, _) =>
      NamesFacts(v);
      CarriersAre(name);
      TakenNames(v, name);
      InstructionJudged(res, v, name, policy);
  }

  lemma UnwritableSomewhere(res: Resources, v: View, agents: seq<string>, testPolicy: bool, t: Target)
    requires forall n :: n in CARRIERS ==> Legible(v, n)
    requires t in Targets(v, agents, PolicyWanted(v, testPolicy)) && UnwritableAt(res, v, t)
    ensures Unwritable(res, v, testPolicy)
  {
    WantsMeansWanted(v, testPolicy);
    TargetsAre(v, agents, PolicyWanted(v, testPolicy), t);
    match t
    case Instruction(name, _) => NamesFacts(v); CarriersAre(name);
    case _ =>
  }

  // Refresh, and the installed providers.

  /** A provider counts as installed exactly when its skill file is ptest's own, current or older. */
  lemma InstalledAre(res: Resources, v: View, p: string)
    ensures p in InstalledProviders(res, v, PROVIDERS) <==>
      p in SKILL_DIRS && DirsPossible(v, SkillFile(res, p).path)
      && (HoldsCurrent(v, SkillFile(res, p)) || HoldsOlder(v, SkillFile(res, p)))
  {
    ProvidersAre(p);
    if p in SKILL_DIRS { ManagedJudged(res, Skill(p), v, SkillFile(res, p)); }
  }

  /** Refresh rewrites exactly the files that apply would rewrite, but for a document with a carriage return. */
  lemma RefreshIsOlder(res: Resources, v: View)
    requires Sound(res) && ViewRooted(v)
    requires forall s :: res.previousGuide(s) || res.previousPolicy(s) ==> |s| <= MAX_FILE_BYTES
    ensures RefreshesGuide(res, v) <==> HoldsOlder(v, GuideFile(res)) && !HasReturn(v, GuideFile(res).path)
    ensures RefreshesPolicy(res, v) <==>
      Installed(v, INSTRUCTIONS) && HoldsOlder(v, PolicyFile(res)) && !HasReturn(v, PolicyFile(res).path)
    ensures forall p :: p in SKILL_DIRS ==> (RefreshesSkill(res, v, p) <==> HoldsOlder(v, SkillFile(res, p)))
  {
    GuideIsOlder(res, v);
    PolicyIsOlder(res, v);
    forall p | p in SKILL_DIRS ensures RefreshesSkill(res, v, p) <==> HoldsOlder(v, SkillFile(res, p)) {
      SkillIsOlder(res, v, p);
    }
  }

  lemma GuideIsOlder(res: Resources, v: View)
    requires Sound(res) && ViewRooted(v) && forall s :: res.previousGuide(s) ==> |s| <= MAX_FILE_BYTES
    ensures RefreshesGuide(res, v) <==> HoldsOlder(v, GuideFile(res)) && !HasReturn(v, GuideFile(res).path)
  {
    RawIsOlder(res, v, GuideFile(res));
  }

  lemma PolicyIsOlder(res: Resources, v: View)
    requires Sound(res) && ViewRooted(v) && forall s :: res.previousPolicy(s) ==> |s| <= MAX_FILE_BYTES
    ensures RefreshesPolicy(res, v) <==>
      Installed(v, INSTRUCTIONS) && HoldsOlder(v, PolicyFile(res)) && !HasReturn(v, PolicyFile(res).path)
  {
    RawIsOlder(res, v, PolicyFile(res));
  }

  lemma SkillIsOlder(res: Resources, v: View, p: string)
    requires ViewRooted(v) && p in SKILL_DIRS
    ensures RefreshesSkill(res, v, p) <==> HoldsOlder(v, SkillFile(res, p))
  {
    ManagedJudged(res, Skill(p), v, SkillFile(res, p));
    if SkillFile(res, p).path in v { assert RealDirs(v, SkillFile(res, p).path); }
  }

  lemma RawIsOlder(res: Resources, v: View, f: Shipment)
    requires ViewRooted(v) && !f.raw && '\r' !in f.current
    requires forall s :: f.older(s) ==> '\r' !in s && |s| <= MAX_FILE_BYTES
    ensures var raw := RawFile(v, f.path);
      raw.Some? && OldManaged(raw.value, f.current, f.older(raw.value)) <==> HoldsOlder(v, f) && !HasReturn(v, f.path)
  {
    if f.path in v { assert RealDirs(v, f.path); }
  }

  /** No trouble in reading this file: missing, a link to its neighbour, or a text with at most one whole block. */
  ghost predicate Untroubled(v: View, name: string) {
    Legible(v, name) || (name == "AGENTS.md" && [name] in v && v[[name]] == Link("CLAUDE.md"))
  }

  ghost predicate FirstRecorded(v: View, names: seq<string>, i: int) {
    0 <= i < |names| && MarkOf(v, names[i]) == Recorded && forall j :: 0 <= j < i ==> MarkOf(v, names[j]) == Silent
  }

  lemma {:induction false} InstalledFirst(v: View, names: seq<string>)
    ensures Installed(v, names) <==> exists i :: FirstRecorded(v, names, i)
  {
    if names != [] {
      InstalledFirst(v, names[1..]);
      if i :| FirstRecorded(v, names[1..], i) {
        if MarkOf(v, names[0]) == Silent {
          forall j | 0 <= j < i + 1 ensures MarkOf(v, names[j]) == Silent {
            if j > 0 { assert names[1..][j - 1] == names[j]; }
          }
          assert FirstRecorded(v, names, i + 1);
        }
      }
      if i :| FirstRecorded(v, names, i) {
        if i > 0 {
          forall j | 0 <= j < i - 1 ensures MarkOf(v, names[1..][j]) == Silent { assert names[1..][j] == names[j + 1]; }
          assert FirstRecorded(v, names[1..], i - 1);
        }
      }
      if MarkOf(v, names[0]) == Recorded { assert FirstRecorded(v, names, 0); }
    }
  }

  /** The i-th instruction file holds the policy block, and none before it does or gives trouble. */
  ghost predicate RecordsFirst(v: View, i: int) {
    0 <= i < |INSTRUCTIONS| && Has(v, INSTRUCTIONS[i], MB.Policy)
      && forall j :: 0 <= j < i ==> Untroubled(v, INSTRUCTIONS[j]) && !Has(v, INSTRUCTIONS[j], MB.Policy)
  }

  /** The recorded choice, also where some file is illegible. */
  lemma RecordedExactly(v: View)
    ensures Installed(v, INSTRUCTIONS) <==> exists i :: RecordsFirst(v, i)
  {
    InstalledFirst(v, INSTRUCTIONS);
    if i :| FirstRecorded(v, INSTRUCTIONS, i) { FirstMeans(v, i); }
    if i :| RecordsFirst(v, i) { FirstMeans(v, i); }
  }

  lemma FirstMeans(v: View, i: int)
    requires 0 <= i < |INSTRUCTIONS|
    ensures FirstRecorded(v, INSTRUCTIONS, i) <==> RecordsFirst(v, i)
  {
    forall j | 0 <= j <= i
      ensures MarkOf(v, INSTRUCTIONS[j]) == Recorded <==> Has(v, INSTRUCTIONS[j], MB.Policy)
      ensures MarkOf(v, INSTRUCTIONS[j]) == Problem <==> !Untroubled(v, INSTRUCTIONS[j])
    {
      CarriersAre(INSTRUCTIONS[j]);
      MarkExactly(v, INSTRUCTIONS[j]);
    }
  }

  lemma MarkExactly(v: View, name: string)
    requires name in CARRIERS
    ensures MarkOf(v, name) == Recorded <==> Has(v, name, MB.Policy)
    ensures MarkOf(v, name) == Problem <==> !Untroubled(v, name)
  {
    if IsFile(v, [name]) { MB.ReadingMeans(Content(v, name), name); }
  }
}

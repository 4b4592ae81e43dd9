/** What the guidance commands decide: `_provider_target`, `_validated`, `preview`, `apply`'s steps,
`_refresh_targets` and `installed_providers` (src/ptest/agent_rules.py), on views of the tree. */
module GuidanceRules {
  import opened Basics
  import opened GuidanceTree
  import MB = ManagedBlock

  /** The bundled texts, and which older texts are recognised as ptest's own. */
  datatype Resources = Resources(
    guide: string, policy: string, skill: string -> string,
    previousGuide: string -> bool, previousPolicy: string -> bool, oldSkill: (string, string) -> bool)

  /** Shipped texts use LF line ends and are within the size limit, and so were the recognised older ones. */
  ghost predicate Sound(res: Resources) {
    && Shipped(res.guide) && Shipped(res.policy) && (forall p :: Shipped(res.skill(p)))
    && (forall s :: res.previousGuide(s) || res.previousPolicy(s) ==> '\r' !in s)
  }

  predicate Shipped(s: string) { '\r' !in s && |s| <= MAX_FILE_BYTES }

  const PROVIDERS: seq<string> := ["claude", "codex", "opencode", "gemini"]
  const INSTRUCTIONS: seq<string> := ["AGENTS.md", "CLAUDE.md", "GEMINI.md"]

  datatype Target = Guide | TestPolicy | Instruction(name: string, policy: bool) | Skill(provider: string)

  function SkillRoot(provider: string): string {
    if provider == "claude" then ".claude"
    else if provider == "codex" then ".agents"
    else if provider == "opencode" then ".opencode"
    else ".gemini"
  }

  function PathOf(target: Target): Path {
    match target
    case Guide => ["docs", "ptest-agent.md"]
    case TestPolicy => ["docs", "ptest-test-policy.md"]
    case Instruction(name, _) => [name]
    case Skill(provider) => [SkillRoot(provider), "skills", "ptest", "SKILL.md"]
  }

  /** Text-mode reading: every line end becomes a newline. */
  function Universal(s: string): (r: string)
    ensures |r| <= |s|
    ensures '\r' !in r
    ensures r == s <==> '\r' !in s
  {
    if s == "" then ""
    else if s[0] == '\r' then
      var rest := if |s| > 1 && s[1] == '\n' then s[2..] else s[1..];
      "\n" + Universal(rest)
    else
      UniversalStep(s);
      [s[0]] + Universal(s[1..])
  }

  lemma UniversalStep(s: string)
    requires s != ""
    ensures s == [s[0]] + s[1..]
    ensures '\r' in s <==> s[0] == '\r' || '\r' in s[1..]
  {
    assert s == [s[0]] + s[1..];
  }

  function LineHead(s: string): nat
    requires s != ""
  {
    if s[0] == '\r' && |s| > 1 && s[1] == '\n' then 2 else 1
  }

  lemma UniversalHead(s: string)
    requires s != ""
    ensures Universal(s) == [if s[0] == '\r' then '\n' else s[0]] + Universal(s[LineHead(s)..])
  {
  }

  /** Which line ends become what: a text may be read in parts that do not cut a line end in two. */
  lemma {:induction false} UniversalSplit(a: string, b: string)
    requires a == "" || b == "" || a[|a| - 1] != '\r' || b[0] != '\n'
    ensures Universal(a + b) == Universal(a) + Universal(b)
    decreases |a|
  {
    if a == "" {
      assert a + b == b;
    } else if b == "" {
      assert a + b == a;
    } else {
      var n := LineHead(a);
      HeadStays(a, b);
      UniversalSplit(a[n..], b);
      UniversalHead(a);
      UniversalHead(a + b);
      Regroup([if a[0] == '\r' then '\n' else a[0]], Universal(a[n..]), Universal(b));
    }
  }

  lemma HeadStays(a: string, b: string)
    requires a != "" && b != "" && (a[|a| - 1] != '\r' || b[0] != '\n')
    ensures (a + b)[0] == a[0] && LineHead(a + b) == LineHead(a) && (a + b)[LineHead(a)..] == a[LineHead(a)..] + b
  {
    if |a| == 1 { assert (a + b)[1] == b[0]; } else { assert (a + b)[1] == a[1]; }
  }

  lemma UniversalEnds(c: char)
    ensures Universal("\r\n") == "\n" && Universal("\r") == "\n" && Universal("") == ""
    ensures c != '\r' ==> Universal([c]) == [c]
  {
    UniversalHead("\r\n");
    UniversalHead("\r");
    UniversalHead([c]);
  }

  datatype Verdict =
    | Stop
    | Present
    | WouldCreate(data: string)
    | WouldUpdate(original: string, mode: nat, text: string)

  function Fresh(res: Resources, target: Target): string {
    match target
    case Guide => res.guide
    case TestPolicy => res.policy
    case Instruction(name, policy) => MB.Block(name, if policy then MB.Policy else MB.Base)
    case Skill(provider) => res.skill(provider)
  }

  function ManagedText(text: string, mode: nat, current: string, previous: bool): Verdict {
    if text == current then Present else if previous then WouldUpdate(text, mode, current) else Stop
  }

  /** The verdict on a target from its own entry. */
  function OwnVerdict(res: Resources, target: Target, entry: Option<Body>): Verdict {
    match entry
    case None => WouldCreate(Fresh(res, target))
    case Some(File(data, mode)) =>
      if |data| > MAX_FILE_BYTES then Stop
      else (match target
        case Guide => ManagedText(Universal(data), mode, res.guide, res.previousGuide(Universal(data)))
        case TestPolicy => ManagedText(Universal(data), mode, res.policy, res.previousPolicy(Universal(data)))
        case Skill(provider) => ManagedText(data, mode, res.skill(provider), res.oldSkill(provider, data))
        case Instruction(name, policy) =>
          var text := Universal(data);
          if MB.BlockVariant(text, name) == MB.Malformed then Stop
          else match MB.Reconcile(text, name, policy)
            case None => Present
            case Some(edited) => WouldUpdate(text, mode, edited))
    case Some(_) => Stop
  }

  function Entry(v: View, path: Path): Option<Body> { if path in v then Some(v[path]) else None }

  function VerdictOf(res: Resources, target: Target, v: View): Verdict {
    if DirsPossible(v, PathOf(target)) then OwnVerdict(res, target, Entry(v, PathOf(target))) else Stop
  }

  // Reading the three instruction files.

  datatype Reading = Missing | Refused | Text(text: string)

  function ReadText(v: View, path: Path): Reading {
    if path !in v then Missing
    else match v[path]
      case File(data, _) => if |data| > MAX_FILE_BYTES then Refused else Text(Universal(data))
      case _ => Refused
  }

  /** AGENTS.md may be a link to CLAUDE.md, which then stands for both. */
  predicate IsAlias(v: View, name: string) { name == "AGENTS.md" && [name] in v && v[[name]] == Link("CLAUDE.md") }

  function ReadInstruction(v: View, name: string): Reading {
    if IsAlias(v, name) then Missing else ReadText(v, [name])
  }

  predicate Readable(v: View, name: string) {
    match ReadInstruction(v, name)
    case Missing => IsAlias(v, name) ==> ["CLAUDE.md"] in v
    case Refused => false
    case Text(text) => MB.BlockVariant(text, name) != MB.Malformed
  }

  /** The instruction files that exist, in order. */
  function Existing(v: View, names: seq<string>): seq<string> {
    if names == [] then []
    else if ReadInstruction(v, names[0]).Text? then [names[0]] + Existing(v, names[1..])
    else Existing(v, names[1..])
  }

  /** What one instruction file says about the recorded policy choice: nothing, yes, or a problem. */
  datatype Mark = Silent | Recorded | Problem

  function MarkOf(v: View, name: string): Mark {
    if IsAlias(v, name) then Silent
    else match ReadText(v, [name])
      case Missing => Silent
      case Refused => Problem
      case Text(text) =>
        match MB.BlockVariant(text, name)
        case Malformed => Problem
        case Managed(variant) => if variant == MB.Policy then Recorded else Silent
        case Unmanaged => Silent
  }

  /** Whether an instruction file records the policy block; any problem before it answers no. */
  function Installed(v: View, names: seq<string>): bool {
    if names == [] then false
    else match MarkOf(v, names[0])
      case Silent => Installed(v, names[1..])
      case Recorded => true
      case Problem => false
  }

  function PolicyWanted(v: View, testPolicy: bool): bool { testPolicy || Installed(v, INSTRUCTIONS) }

  predicate Validated(res: Resources, v: View) {
    && VerdictOf(res, Guide, v) != Stop
    && forall name :: name in INSTRUCTIONS ==> Readable(v, name)
  }

  function InstructionTargets(names: seq<string>, policy: bool): (r: seq<Target>)
    ensures |r| == |names| && forall i :: 0 <= i < |r| ==> r[i] == Instruction(names[i], policy)
  {
    seq(|names|, i requires 0 <= i < |names| => Instruction(names[i], policy))
  }

  function SkillTargets(providers: seq<string>): (r: seq<Target>)
    ensures |r| == |providers| && forall i :: 0 <= i < |r| ==> r[i] == Skill(providers[i])
  {
    seq(|providers|, i requires 0 <= i < |providers| => Skill(providers[i]))
  }

  function InstructionNames(v: View): seq<string> {
    if Existing(v, INSTRUCTIONS) == [] then ["AGENTS.md"] else Existing(v, INSTRUCTIONS)
  }

  /** The targets of one invocation, in the order `preview` and `apply` take them. */
  function Targets(v: View, agents: seq<string>, policy: bool): seq<Target> {
    [Guide] + (if policy then [TestPolicy] else []) + InstructionTargets(InstructionNames(v), policy)
    + SkillTargets(Unique(agents))
  }

  predicate Supported(agents: seq<string>) { forall a :: a in agents ==> a in PROVIDERS }

  /** `preview` lists a verdict per target, or refuses. */
  predicate Previews(res: Resources, v: View, agents: seq<string>, testPolicy: bool) {
    && Validated(res, v) && Supported(agents)
    && forall t :: t in Targets(v, agents, PolicyWanted(v, testPolicy)) ==> VerdictOf(res, t, v) != Stop
  }

  function ToDecision(verdict: Verdict): Decision {
    match verdict
    case Stop => Refuse
    case Present => Keep
    case WouldCreate(data) => Create(data)
    case WouldUpdate(original, mode, text) => Rewrite(original, mode, text)
  }

  function StepOf(res: Resources, target: Target): Step {
    Step(PathOf(target), (v: View) => ToDecision(VerdictOf(res, target, v)))
  }

  function StepsOf(res: Resources, targets: seq<Target>): (r: seq<Step>)
    ensures |r| == |targets| && forall i :: 0 <= i < |r| ==> r[i] == StepOf(res, targets[i])
  {
    seq(|targets|, i requires 0 <= i < |targets| => StepOf(res, targets[i]))
  }

  // `refresh`: older managed files, by their raw bytes.

  predicate OldManaged(data: string, current: string, previous: bool) { data != current && previous }

  function RawFile(v: View, path: Path): Option<string> {
    if path in v && v[path].File? && RealDirs(v, path) then Some(Bounded(v[path].data)) else None
  }

  predicate RefreshesGuide(res: Resources, v: View) {
    var raw := RawFile(v, PathOf(Guide));
    raw.Some? && OldManaged(raw.value, res.guide, res.previousGuide(raw.value))
  }

  predicate RefreshesPolicy(res: Resources, v: View) {
    var raw := RawFile(v, PathOf(TestPolicy));
    Installed(v, INSTRUCTIONS) && raw.Some? && OldManaged(raw.value, res.policy, res.previousPolicy(raw.value))
  }

  predicate RefreshesSkill(res: Resources, v: View, provider: string) {
    VerdictOf(res, Skill(provider), v).WouldUpdate?
  }

  predicate NothingToRefresh(res: Resources, v: View) {
    !RefreshesGuide(res, v) && !RefreshesPolicy(res, v) && forall p :: p in PROVIDERS ==> !RefreshesSkill(res, v, p)
  }

  predicate IsInstalled(res: Resources, v: View, provider: string) {
    var verdict := VerdictOf(res, Skill(provider), v);
    verdict.Present? || verdict.WouldUpdate?
  }

  function InstalledProviders(res: Resources, v: View, names: seq<string>): (r: seq<string>)
    ensures forall p :: p in r <==> p in names && IsInstalled(res, v, p)
  {
    if names == [] then []
    else if IsInstalled(res, v, names[0]) then [names[0]] + InstalledProviders(res, v, names[1..])
    else InstalledProviders(res, v, names[1..])
  }

  // What a step leaves behind.

  function AfterBody(verdict: Verdict, was: Option<Body>): Option<Body> {
    match verdict
    case WouldCreate(data) => Some(File(data, LEAF_MODE))
    case WouldUpdate(_, mode, text) => Some(File(text, mode))
    case _ => was
  }

  /** The update this verdict promises can be performed: the file's bytes are its text. */
  predicate Performable(verdict: Verdict, entry: Option<Body>) {
    verdict.WouldUpdate? ==> entry.Some? && entry.value.File? && '\r' !in entry.value.data
  }

  predicate WriteFits(verdict: Verdict) { verdict.WouldUpdate? ==> |verdict.text| <= MAX_FILE_BYTES }

  /** Doing what the verdict says settles the target, exactly when the written text is within the limit. */
  lemma StepSettles(res: Resources, target: Target, entry: Option<Body>)
    requires Sound(res)
    requires var d := OwnVerdict(res, target, entry); d != Stop && Performable(d, entry)
    ensures var d := OwnVerdict(res, target, entry);
      OwnVerdict(res, target, AfterBody(d, entry)) == if WriteFits(d) then Present else Stop
  {
    match OwnVerdict(res, target, entry)
    case WouldCreate(data) =>
      match target {
        case Instruction(name, policy) =>
          BlockSettles(name, policy);
        case _ =>
      }
    case WouldUpdate(original, mode, text) =>
      match target {
        case Instruction(name, policy) =>
          MB.ReconcileHasNoReturn(original, name, policy);
          MB.ReconcileSettles(original, name, policy);
        case _ =>
      }
    case _ =>
  }

  lemma BlockSettles(name: string, policy: bool)
    ensures var block := MB.Block(name, if policy then MB.Policy else MB.Base);
      '\r' !in block && |block| <= 1000 && MB.BlockVariant(block, name).Managed?
        && MB.Reconcile(block, name, policy) == None
  {
    var variant := if policy then MB.Policy else MB.Base;
    MB.BlockReads(name, variant);
    MB.BlockIsShort(name, variant);
    MB.SectionHasNoReturn(name, variant);
  }
}

/** The commands `preview` and `apply` (src/ptest/agent_rules.py:1250-1310, 1495-1617) as one method: what it refuses,
what it does undisturbed, and when a failure is undone. */
module GuidanceCommand {
  import opened Basics
  import opened GuidanceTree
  import opened GuidanceRules
  import opened GuidanceAgreement
  import opened GuidanceEffect
  import opened GuidanceTrace
  import opened GuidanceJournal
  import GuidanceApply
  import MB = ManagedBlock

  datatype Report = Declined | Unchanged | Changed(details: seq<Verdict>) | Failed(undo: GuidanceApply.Undo)

  function PlanOf(res: Resources, v: View, agents: seq<string>, testPolicy: bool): (r: seq<Verdict>)
    ensures |r| == |Targets(v, agents, PolicyWanted(v, testPolicy))|
  {
    var ts := Targets(v, agents, PolicyWanted(v, testPolicy));
    seq(|ts|, i requires 0 <= i < |ts| => VerdictOf(res, ts[i], v))
  }

  lemma StepsWellFormed(res: Resources, ts: seq<Target>, policy: bool)
    requires GoodTargets(ts, policy)
    ensures WellFormedSteps(StepsOf(res, ts))
  {
    forall i, j | 0 <= i < j < |ts| ensures Differ(StepsOf(res, ts), i, j) { TargetsApart(ts[i], ts[j], policy); }
    forall i | 0 <= i < |ts| ensures Honest(StepsOf(res, ts)[i]) { assert StepsOf(res, ts)[i] == StepOf(res, ts[i]); }
  }

  lemma RootedView(t: Tree)
    requires Rooted(t)
    ensures ViewRooted(ViewOf(t))
  {
    forall p | p in ViewOf(t) ensures RealDirs(ViewOf(t), p) { assert DirsAbove(t, p); }
  }

  function VerdictText(d: Verdict): string {
    match d case WouldCreate(data) => data case WouldUpdate(_, _, text) => text case _ => ""
  }

  /** The texts previewed for the first k targets are within the limit the rollback recognises them by. */
  ghost predicate PreviewedFit(res: Resources, v: View, ts: seq<Target>, k: nat) {
    forall j :: 0 <= j < k <= |ts| ==> Fits(VerdictText(VerdictOf(res, ts[j], v)))
  }

  /** After performable steps, the next one goes through exactly when it is performable. */
  lemma NextDecides(res: Resources, v: View, ts: seq<Target>, policy: bool, k: nat)
    requires SoundSkills(res) && GoodTargets(ts, policy) && ViewRooted(v) && AllPreviewed(res, v, ts) && k < |ts|
    requires Perform(v, StepsOf(res, ts)[..k]).Some?
    requires PerformableUpTo(res, v, ts, k)
    ensures Perform(v, StepsOf(res, ts)[..k + 1]).Some? <==>
      Performable(VerdictOf(res, ts[k], v), Entry(v, PathOf(ts[k])))
  {
    PerformExtends(v, StepsOf(res, ts), k);
    var u := PerformReaches(res, v, ts, policy, k);
    VerdictCarries(res, v, ts, k, u);
    var _ := StepPerforms(res, ts[k], u);
  }

  /** Steps that went through were performable. */
  lemma {:induction false} ThroughMeansPerformable(res: Resources, v: View, ts: seq<Target>, policy: bool, k: nat)
    requires SoundSkills(res) && GoodTargets(ts, policy) && ViewRooted(v) && AllPreviewed(res, v, ts) && k <= |ts|
    requires Perform(v, StepsOf(res, ts)[..k]).Some?
    ensures PerformableUpTo(res, v, ts, k)
    decreases k
  {
    if k > 0 {
      var steps := StepsOf(res, ts);
      PerformExtends(v, steps, k - 1);
      assert Perform(v, steps[..k - 1]).Some?;
      ThroughMeansPerformable(res, v, ts, policy, k - 1);
      NextDecides(res, v, ts, policy, k - 1);
      OneMore(res, v, ts, k - 1);
    }
  }

  lemma OneMore(res: Resources, v: View, ts: seq<Target>, k: nat)
    requires k < |ts| && PerformableUpTo(res, v, ts, k)
      && Performable(VerdictOf(res, ts[k], v), Entry(v, PathOf(ts[k])))
    ensures PerformableUpTo(res, v, ts, k + 1)
  {
  }

  /** What the first k steps write is what was previewed. */
  lemma TextsArePreviewed(res: Resources, v: View, ts: seq<Target>, policy: bool, k: nat)
    requires SoundSkills(res) && GoodTargets(ts, policy) && ViewRooted(v) && AllPreviewed(res, v, ts) && k <= |ts|
    requires Perform(v, StepsOf(res, ts)[..k]).Some?
    ensures GuidanceApply.TextsFit(v, StepsOf(res, ts), k) <==> PreviewedFit(res, v, ts, k)
  {
    var steps := StepsOf(res, ts);
    ThroughMeansPerformable(res, v, ts, policy, k);
    forall j | 0 <= j < k ensures GuidanceApply.TextFits(v, steps, j) <==> Fits(VerdictText(VerdictOf(res, ts[j], v))) {
      TextIsPreviewed(res, v, ts, policy, j);
    }
  }

  lemma TextIsPreviewed(res: Resources, v: View, ts: seq<Target>, policy: bool, j: nat)
    requires SoundSkills(res) && GoodTargets(ts, policy) && ViewRooted(v) && AllPreviewed(res, v, ts)
    requires j < |ts| && PerformableUpTo(res, v, ts, j)
    ensures GuidanceApply.TextFits(v, StepsOf(res, ts), j) <==> Fits(VerdictText(VerdictOf(res, ts[j], v)))
  {
    var u := PerformReaches(res, v, ts, policy, j);
    VerdictCarries(res, v, ts, j, u);
    assert StepsOf(res, ts)[j] == StepOf(res, ts[j]);
  }

  /** Where undisturbed apply stops: the first file to be rewritten that holds a carriage return. */
  lemma StopsAtReturn(res: Resources, v: View, ts: seq<Target>, policy: bool, k: nat)
    requires SoundSkills(res) && GoodTargets(ts, policy) && ViewRooted(v) && AllPreviewed(res, v, ts) && k < |ts|
    requires Perform(v, StepsOf(res, ts)[..k]).Some? && Perform(v, StepsOf(res, ts)[..k + 1]).None?
    ensures !Performable(VerdictOf(res, ts[k], v), Entry(v, PathOf(ts[k])))
    ensures PerformableUpTo(res, v, ts, k)
  {
    ThroughMeansPerformable(res, v, ts, policy, k);
    NextDecides(res, v, ts, policy, k);
  }

  /** What an invocation reports and leaves when nothing fails and nobody interferes. */
  ghost predicate Undisturbed(res: Resources, v: View, agents: seq<string>, testPolicy: bool, report: Report, done: nat,
                              after: View) {
    var ts := Targets(v, agents, PolicyWanted(v, testPolicy));
    && (report.Declined? <==> !Previews(res, v, agents, testPolicy))
    && (report.Unchanged? <==>
      Previews(res, v, agents, testPolicy) && forall d :: d in PlanOf(res, v, agents, testPolicy) ==> d == Present)
    && (report.Failed? ==> done < |ts| && !Performable(VerdictOf(res, ts[done], v), Entry(v, PathOf(ts[done]))))
    && (report.Failed? ==> forall i :: 0 <= i < done ==> Performable(VerdictOf(res, ts[i], v), Entry(v, PathOf(ts[i]))))
    && (report.Changed? ==> AllPerformable(res, v, ts) && Perform(v, StepsOf(res, ts)) == Some(after))
    && (report.Changed? ==> report.details == PlanOf(res, v, agents, testPolicy))
  }

  /** After a failure behind `done` targets the tree is as before exactly when what was written can be recognised. */
  ghost predicate RestoredIffFit(res: Resources, v: View, agents: seq<string>, testPolicy: bool, done: nat,
                                 after: View) {
    var ts := Targets(v, agents, PolicyWanted(v, testPolicy));
    done < |ts| && (after == v <==> PreviewedFit(res, v, ts, done))
  }

  lemma NothingFollowed(res: Resources, v: View, ts: seq<Target>)
    requires forall i :: 0 <= i < |ts| ==> VerdictOf(res, ts[i], v) == Present
    ensures Followed(res, v, ts, v) && AllPreviewed(res, v, ts) && AllPerformable(res, v, ts)
  {
    forall q | q != [] && NoTarget(ts, q) ensures RestKept(v, v, ts, q) {}
  }

  /** When every verdict is "present", nothing to do is the whole effect. */
  lemma NothingDone(res: Resources, v: View, agents: seq<string>, testPolicy: bool)
    requires SoundSkills(res) && Previews(res, v, agents, testPolicy)
    requires forall d :: d in PlanOf(res, v, agents, testPolicy) ==> d == Present
    ensures Effect(res, v, agents, testPolicy, v) && !Unwritable(res, v, testPolicy)
  {
    var policy := PolicyWanted(v, testPolicy);
    var ts, plan := Targets(v, agents, policy), PlanOf(res, v, agents, testPolicy);
    AcceptedExactly(res, v, agents, testPolicy);
    TargetsGood(v, agents, policy);
    forall i | 0 <= i < |ts| ensures VerdictOf(res, ts[i], v) == Present { assert plan[i] in plan; }
    NothingFollowed(res, v, ts);
    FollowedIsEffect(res, v, agents, testPolicy, v);
    UnwritableExactly(res, v, agents, testPolicy);
  }

  /** All verdicts carried out are the whole effect. */
  lemma CompletedIsEffect(res: Resources, v: View, agents: seq<string>, testPolicy: bool, w: View)
    requires SoundSkills(res) && ViewRooted(v) && Previews(res, v, agents, testPolicy)
    requires var ts := Targets(v, agents, PolicyWanted(v, testPolicy));
      AllPerformable(res, v, ts) && Perform(v, StepsOf(res, ts)) == Some(w)
    ensures Effect(res, v, agents, testPolicy, w)
  {
    var policy := PolicyWanted(v, testPolicy);
    var ts := Targets(v, agents, policy);
    AcceptedExactly(res, v, agents, testPolicy);
    TargetsGood(v, agents, policy);
    PerformFollows(res, v, ts, policy, w);
    FollowedIsEffect(res, v, agents, testPolicy, w);
  }

  /** The same from the files alone: what is refused, what fails, and what a command that goes through leaves. */
  ghost predicate Explained(res: Resources, v: View, agents: seq<string>, testPolicy: bool, report: Report,
                            after: View) {
    && (report.Failed? <==> Acceptable(res, v, agents, testPolicy) && Unwritable(res, v, testPolicy))
    && (report.Changed? || report.Unchanged? ==> Effect(res, v, agents, testPolicy, after))
  }

  lemma UndisturbedExplained(res: Resources, v: View, agents: seq<string>, testPolicy: bool, report: Report, done: nat,
                             after: View)
    requires SoundSkills(res) && ViewRooted(v) && Undisturbed(res, v, agents, testPolicy, report, done, after)
    requires report.Unchanged? ==> after == v
    ensures Explained(res, v, agents, testPolicy, report, after)
  {
    AcceptedExactly(res, v, agents, testPolicy);
    if !report.Declined? {
      UnwritableExactly(res, v, agents, testPolicy);
      if report.Unchanged? { NothingDone(res, v, agents, testPolicy); }
      if report.Changed? { CompletedIsEffect(res, v, agents, testPolicy, after); }
    }
  }

  /** Whatever others do meanwhile: every write before the rollback belongs to a target, completed targets are
      accounted for, and a failure rolls back. */
  ghost predicate Carried(tx: GuidanceApply.Transaction, res: Resources, v: View, agents: seq<string>, testPolicy: bool,
                          report: Report, from: nat, start: nat, done: nat)
    reads tx
  {
    var steps := StepsOf(res, Targets(v, agents, PolicyWanted(v, testPolicy)));
    && from <= start <= |tx.trace| && ForwardWrites(tx.trace, from, start, steps)
    && (!report.Failed? ==> start == |tx.trace|)
    && match report
       case Changed(_) => Accounted(tx.trace, steps, tx.spans, from, start, tx.Book()) && |tx.spans| == |steps|
       case Failed(undo) =>
         tx.RolledBack(start, undo) && Stuck(tx.trace, steps, tx.spans, from, start, tx.Book(), tx.Risks())
           && |tx.spans| == done + 1 <= |steps|
       case _ => start == from
  }

  /** A text of ptest's own in place of an older one of its own, or the wanted block brought into a text. */
  ghost predicate Ours(res: Resources, path: Path, original: string, text: string) {
    || (exists f :: Ships(res, f) && path == f.path && original != f.current && f.older(original) && text == f.current)
    || exists name, policy :: name in CARRIERS && path == [name] && MB.Edited(original, text, name, policy)
  }

  ghost predicate Ships(res: Resources, f: Shipment) {
    f == GuideFile(res) || f == PolicyFile(res) || exists p :: p in SKILL_DIRS && f == SkillFile(res, p)
  }

  /** If this is a write, it makes a directory or a file where there was nothing, changes the file made so, or puts
      ptest's text over bytes that are its own older text, or an edited text over the bytes it was made from. */
  ghost predicate Spares(res: Resources, trace: seq<Moment>, from: nat, i: nat) {
    IsWrite(trace, i) ==>
      var path := trace[i].act.path;
      || (Appears(trace, i, path) && trace[i].tree[path].body == Dir)
      || (exists n :: from <= n <= i && LeafWrite(trace, n, i, path))
      || exists original, mode, text ::
           TextWrite(trace, i, path, original, mode, text) && Ours(res, path, original, text)
  }

  ghost predicate AllSpare(res: Resources, trace: seq<Moment>, from: nat, upto: nat) {
    forall i {:trigger Spares(res, trace, from, i)} :: from <= i < upto ==> Spares(res, trace, from, i)
  }

  /** What any look makes a target rewrite is one of those. */
  lemma UpdateIsOurs(res: Resources, t: Target, v: View)
    requires Proper(t) && VerdictOf(res, t, v).WouldUpdate?
    ensures var d := VerdictOf(res, t, v); Ours(res, PathOf(t), d.original, d.text)
  {
    match t
    case Guide => ManagedJudged(res, t, v, GuideFile(res)); assert Ships(res, GuideFile(res));
    case TestPolicy => ManagedJudged(res, t, v, PolicyFile(res)); assert Ships(res, PolicyFile(res));
    case Skill(p) =>
      ProvidersAre(p);
      ManagedJudged(res, t, v, SkillFile(res, p));
      assert Ships(res, SkillFile(res, p));
    case Instruction(name, policy) =>
      CarriersAre(name);
      var text := VerdictOf(res, t, v).original;
      MB.ReadingMeans(text, name);
      MB.ReconcileEdits(text, name, policy);
  }

  lemma StepSpares(res: Resources, trace: seq<Moment>, t: Target, from: nat, n: nat, i: nat)
    requires Proper(t) && from <= n <= i && IsWrite(trace, i) && StepWrite(trace, n, i, StepOf(res, t))
    ensures Spares(res, trace, from, i)
  {
    var s := StepOf(res, t);
    if !DirWrite(trace, i, s.path) && !LeafWrite(trace, n, i, s.path) {
      var k :| n <= k < i && k < |trace| && trace[k].act == Looked(s.path) && RewriteAt(trace, k, i, s);
      UpdateIsOurs(res, t, ViewOf(trace[k].tree));
    }
  }

  /** Whatever others do, and whatever fails: no write before a rollback destroys a text of the user's. */
  lemma ForwardSpares(res: Resources, trace: seq<Moment>, ts: seq<Target>, from: nat, upto: nat)
    requires (forall t :: t in ts ==> Proper(t)) && ForwardWrites(trace, from, upto, StepsOf(res, ts))
    ensures AllSpare(res, trace, from, upto)
  {
    var steps := StepsOf(res, ts);
    forall i | from <= i < upto && IsWrite(trace, i) ensures Spares(res, trace, from, i) {
      assert Belongs(trace, from, i, steps);
      var j, n :| 0 <= j < |steps| && from <= n <= i && StepWrite(trace, n, i, steps[j]);
      assert ts[j] in ts;
      StepSpares(res, trace, ts[j], from, n, i);
    }
  }

  /** `apply` as a command. It is refused exactly when some file it may write is the user's own or illegible, and then
      nothing is touched. Undisturbed, it refuses, does nothing or writes exactly as `preview` says it
      will, except that a carriage return in a file to be rewritten makes it fail. After a failure the tree is as
      it was exactly when every text previewed for the `done` targets before it can be recognised again. */
  method ApplyRules(tx: GuidanceApply.Transaction, res: Resources, agents: seq<string>, testPolicy: bool)
    returns (report: Report, ghost start: nat, ghost done: nat)
    requires tx.Valid() && Sound(res) && SoundSkills(res) && Rooted(tx.tree)
    requires tx.created == [] && tx.dirs == [] && tx.updated == [] && tx.spans == []
    modifies tx
    ensures !tx.foreign && !tx.faultsInApply && !tx.faultsInGap ==>
      Undisturbed(res, ViewOf(old(tx.tree)), agents, testPolicy, report, done, ViewOf(tx.tree))
    ensures tx.Valid()
      && Carried(tx, res, ViewOf(old(tx.tree)), agents, testPolicy, report, |old(tx.trace)|, start, done)
    ensures old(tx.trace) <= tx.trace && AllSpare(res, tx.trace, |old(tx.trace)|, start)
    ensures report.Declined? <==> !Acceptable(res, ViewOf(old(tx.tree)), agents, testPolicy)
    ensures !tx.foreign && !tx.faultsInApply && !tx.faultsInGap ==>
      Explained(res, ViewOf(old(tx.tree)), agents, testPolicy, report, ViewOf(tx.tree))
    ensures report.Declined? || report.Unchanged? ==> tx.tree == old(tx.tree)
    ensures tx.Quiet() && report.Failed? ==>
      RestoredIffFit(res, ViewOf(old(tx.tree)), agents, testPolicy, done, ViewOf(tx.tree))
  {
    ghost var v := ViewOf(tx.tree);
    RootedView(tx.tree);
    report, start, done := RunRules(tx, res, agents, testPolicy);
    AcceptedExactly(res, v, agents, testPolicy);
    if Acceptable(res, v, agents, testPolicy) {
      TargetsGood(v, agents, PolicyWanted(v, testPolicy));
      ForwardSpares(res, tx.trace, Targets(v, agents, PolicyWanted(v, testPolicy)), |old(tx.trace)|, start);
    }
    if !tx.foreign && !tx.faultsInApply && !tx.faultsInGap {
      UndisturbedExplained(res, v, agents, testPolicy, report, done, ViewOf(tx.tree));
    }
  }

  /** Preview, and then the steps if any is left to take. */
  method RunRules(tx: GuidanceApply.Transaction, res: Resources, agents: seq<string>, testPolicy: bool)
    returns (report: Report, ghost start: nat, ghost done: nat)
    requires tx.Valid() && Sound(res) && SoundSkills(res) && Rooted(tx.tree)
    requires tx.created == [] && tx.dirs == [] && tx.updated == [] && tx.spans == []
    modifies tx
    ensures !tx.foreign && !tx.faultsInApply && !tx.faultsInGap ==>
      Undisturbed(res, ViewOf(old(tx.tree)), agents, testPolicy, report, done, ViewOf(tx.tree))
    ensures tx.Valid()
      && Carried(tx, res, ViewOf(old(tx.tree)), agents, testPolicy, report, |old(tx.trace)|, start, done)
    ensures old(tx.trace) <= tx.trace
    ensures report.Declined? <==> !Previews(res, ViewOf(old(tx.tree)), agents, testPolicy)
    ensures report.Declined? || report.Unchanged? ==> tx.tree == old(tx.tree)
    ensures tx.Quiet() && report.Failed? ==>
      RestoredIffFit(res, ViewOf(old(tx.tree)), agents, testPolicy, done, ViewOf(tx.tree))
  {
    var v := ViewOf(tx.tree);
    start, done := |tx.trace|, 0;
    if !Previews(res, v, agents, testPolicy) { return Declined, start, done; }
    var plan := PlanOf(res, v, agents, testPolicy);
    if forall d :: d in plan ==> d == Present { return Unchanged, start, done; }
    report, start, done := TakeSteps(tx, res, agents, testPolicy, plan);
  }

  lemma StepsUndisturbed(res: Resources, v: View, agents: seq<string>, testPolicy: bool, report: Report, done: nat,
                         after: View)
    requires SoundSkills(res) && ViewRooted(v) && Previews(res, v, agents, testPolicy)
    requires !(forall d :: d in PlanOf(res, v, agents, testPolicy) ==> d == Present)
    requires var steps := StepsOf(res, Targets(v, agents, PolicyWanted(v, testPolicy)));
      match report
      case Changed(details) => details == PlanOf(res, v, agents, testPolicy) && Perform(v, steps) == Some(after)
      case Failed(_) => done < |steps| && Perform(v, steps[..done]).Some? && Perform(v, steps[..done + 1]).None?
      case _ => false
    ensures Undisturbed(res, v, agents, testPolicy, report, done, after)
  {
    var policy := PolicyWanted(v, testPolicy);
    var ts := Targets(v, agents, policy);
    TargetsGood(v, agents, policy);
    ApplyAgrees(res, v, ts, policy);
    if report.Failed? { StopsAtReturn(res, v, ts, policy, done); }
  }

  lemma RestoredWhen(res: Resources, v: View, agents: seq<string>, testPolicy: bool, done: nat, after: View)
    requires SoundSkills(res) && ViewRooted(v) && Previews(res, v, agents, testPolicy)
    requires var steps := StepsOf(res, Targets(v, agents, PolicyWanted(v, testPolicy)));
      done < |steps| && Perform(v, steps[..done]).Some? && (after == v <==> GuidanceApply.TextsFit(v, steps, done))
    ensures RestoredIffFit(res, v, agents, testPolicy, done, after)
  {
    var policy := PolicyWanted(v, testPolicy);
    TargetsGood(v, agents, policy);
    TextsArePreviewed(res, v, Targets(v, agents, policy), policy, done);
  }

  /** The steps, after a preview that found something to do. */
  method TakeSteps(tx: GuidanceApply.Transaction, res: Resources, agents: seq<string>, testPolicy: bool,
                   plan: seq<Verdict>)
    returns (report: Report, ghost start: nat, ghost done: nat)
    requires tx.Valid() && Sound(res) && SoundSkills(res) && Rooted(tx.tree)
    requires tx.created == [] && tx.dirs == [] && tx.updated == [] && tx.spans == []
    requires var v := ViewOf(tx.tree);
      Previews(res, v, agents, testPolicy) && plan == PlanOf(res, v, agents, testPolicy)
      && !(forall d :: d in plan ==> d == Present)
    modifies tx
    ensures !tx.foreign && !tx.faultsInApply && !tx.faultsInGap ==>
      Undisturbed(res, ViewOf(old(tx.tree)), agents, testPolicy, report, done, ViewOf(tx.tree))
    ensures tx.Valid()
      && Carried(tx, res, ViewOf(old(tx.tree)), agents, testPolicy, report, |old(tx.trace)|, start, done)
    ensures old(tx.trace) <= tx.trace
    ensures report.Changed? || report.Failed?
    ensures tx.Quiet() && report.Failed? ==>
      RestoredIffFit(res, ViewOf(old(tx.tree)), agents, testPolicy, done, ViewOf(tx.tree))
  {
    var v := ViewOf(tx.tree);
    var policy := PolicyWanted(v, testPolicy);
    var ts := Targets(v, agents, policy);
    RootedView(tx.tree);
    TargetsGood(v, agents, policy);
    StepsWellFormed(res, ts, policy);
    var outcome;
    outcome, start, done := tx.Apply(StepsOf(res, ts));
    if tx.Quiet() && outcome.Failed? { RestoredWhen(res, v, agents, testPolicy, done, ViewOf(tx.tree)); }
    report := match outcome case Done => Changed(plan) case Failed(undo) => Report.Failed(undo);
    if !tx.foreign && !tx.faultsInApply && !tx.faultsInGap {
      StepsUndisturbed(res, v, agents, testPolicy, report, done, ViewOf(tx.tree));
    }
  }
}

/** Accounting for every candidate of a packet: what admission did with it, and what became of it later
(src/ptest/agent_assessment.py:1476-1576, 2332-2351, 2466-2484). */
module PacketLog {
  import opened Basics
  import opened Admission

  /** An admitted file may be withdrawn again with its chain, or dropped to shorten the packet. */
  datatype Now = Kept | Withdrawn | Dropped

  datatype Given = Given(rel: string, fate: Fate, now: Now)

  function Rels(log: seq<Given>): (r: seq<string>)
    ensures |r| == |log| && forall i :: 0 <= i < |log| ==> r[i] == log[i].rel
  {
    seq(|log|, i requires 0 <= i < |log| => log[i].rel)
  }

  predicate Stands(g: Given) { g.fate.Admitted? && g.now == Kept }

  predicate IsCut(g: Given) { g.fate.Admitted? && !g.fate.complete }

  /** The files still in the packet, and whether they are whole. */
  function Standing(prefix: string, log: seq<Given>): seq<(string, bool)> {
    if log == [] then []
    else
      var last := log[|log| - 1];
      Standing(prefix, log[..|log| - 1]) + if Stands(last) then [(prefix + last.rel, last.fate.complete)] else []
  }

  function Shown(excerpts: seq<Excerpt>): (r: seq<(string, bool)>)
    ensures |r| == |excerpts|
  {
    seq(|excerpts|, i requires 0 <= i < |excerpts| => (excerpts[i].path, excerpts[i].complete))
  }

  function Count(log: seq<Given>, p: Given -> bool): nat {
    if log == [] then 0 else Count(log[..|log| - 1], p) + if p(log[|log| - 1]) then 1 else 0
  }

  const admits: Given -> bool := (g: Given) => g.fate.Admitted?
  const skips: Given -> bool := (g: Given) => g.fate.Skipped?
  const truncations: Given -> bool := (g: Given) => g.fate.Truncated? || IsCut(g)
  const cuts: Given -> bool := (g: Given) => IsCut(g)
  const withdrawals: Given -> bool := (g: Given) => g.fate.Admitted? && g.now == Withdrawn
  const drops: Given -> bool := (g: Given) => g.fate.Admitted? && g.now == Dropped

  /** The excerpts are the files still standing, in order, and the counters are what the log says, beside what
      the projection of a static packet added. */
  ghost predicate Balanced(prefix: string, st: State, log: seq<Given>, projected: (nat, nat)) {
    && Shown(st.excerpts) == Standing(prefix, log)
    && st.skipped == Count(log, skips) + projected.0
    && st.truncated == Count(log, truncations) + Count(log, drops) + projected.1
  }

  /** These candidates were given, in this order, and what was admitted of them still stands. */
  ghost predicate Gave(was: seq<Given>, now: seq<Given>, rels: seq<string>) {
    was <= now && Rels(now[|was|..]) == rels && forall i :: |was| <= i < |now| ==> now[i].now == Kept
  }

  lemma BalancedStep(prefix: string, st: State, log: seq<Given>, projected: (nat, nat), to: State, fate: Fate,
                     rel: string)
    requires Balanced(prefix, st, log, projected) && Counted(st, to, fate, prefix, rel)
    ensures Balanced(prefix, to, log + [Given(rel, fate, Kept)], projected)
  {
    var last := Given(rel, fate, Kept);
    assert (log + [last])[..|log|] == log;
    if fate.Admitted? {
      var e := to.excerpts[|st.excerpts|];
      assert to.excerpts == st.excerpts + [e];
      assert Shown(to.excerpts) == Shown(st.excerpts) + [(e.path, e.complete)];
    }
  }

  lemma GaveStep(was: seq<Given>, now: seq<Given>, rels: seq<string>, i: nat, fate: Fate)
    requires i < |rels| && Gave(was, now, rels[..i])
    ensures Gave(was, now + [Given(rels[i], fate, Kept)], rels[..i + 1])
  {
    var last := Given(rels[i], fate, Kept);
    assert (now + [last])[|was|..] == now[|was|..] + [last];
    assert Rels(now[|was|..] + [last]) == Rels(now[|was|..]) + [rels[i]];
    assert rels[..i + 1] == rels[..i] + [rels[i]];
  }

  lemma {:induction false} CountJoins(a: seq<Given>, b: seq<Given>, p: Given -> bool)
    ensures Count(a + b, p) == Count(a, p) + Count(b, p)
  {
    if b == [] {
      assert a + b == a;
    } else {
      assert (a + b)[..|a + b| - 1] == a + b[..|b| - 1];
      CountJoins(a, b[..|b| - 1], p);
    }
  }

  lemma {:induction false} StandingJoins(prefix: string, a: seq<Given>, b: seq<Given>)
    ensures Standing(prefix, a + b) == Standing(prefix, a) + Standing(prefix, b)
  {
    if b == [] {
      assert a + b == a;
    } else {
      assert (a + b)[..|a + b| - 1] == a + b[..|b| - 1];
      StandingJoins(prefix, a, b[..|b| - 1]);
    }
  }

  predicate Shows(shown: seq<(string, bool)>, p: string) { exists k :: 0 <= k < |shown| && shown[k].0 == p }

  lemma ShowsJoins(a: seq<(string, bool)>, b: seq<(string, bool)>, p: string)
    ensures Shows(a + b, p) <==> Shows(a, p) || Shows(b, p)
  {
    if k :| 0 <= k < |a| && a[k].0 == p { assert (a + b)[k].0 == p; }
    if k :| 0 <= k < |b| && b[k].0 == p { assert (a + b)[|a| + k].0 == p; }
    if k :| 0 <= k < |a + b| && (a + b)[k].0 == p {
      if k < |a| { assert a[k].0 == p; } else { assert b[k - |a|].0 == p; }
    }
  }

  lemma ShownPaths(excerpts: seq<Excerpt>, p: string)
    ensures p in PathsOf(excerpts) <==> Shows(Shown(excerpts), p)
  {
    if p in PathsOf(excerpts) {
      var k :| 0 <= k < |excerpts| && excerpts[k].path == p;
      assert Shown(excerpts)[k].0 == p;
    }
    if k :| 0 <= k < |excerpts| && Shown(excerpts)[k].0 == p { assert excerpts[k].path == p; }
  }

  /** Of files that differ, one is shown exactly when its own entry stands. */
  lemma {:induction false} StandingHas(prefix: string, log: seq<Given>, i: nat)
    requires i < |log| && NoRepeats(Rels(log))
    ensures Shows(Standing(prefix, log), prefix + log[i].rel) <==> Stands(log[i])
  {
    var n := |log| - 1;
    var front, last, p := log[..n], log[n], prefix + log[i].rel;
    var own := if Stands(last) then [(prefix + last.rel, last.fate.complete)] else [];
    ShowsJoins(Standing(prefix, front), own, p);
    forall j, k | 0 <= j < k < |front| ensures Rels(front)[j] != Rels(front)[k] { assert Rels(log)[j] != Rels(log)[k]; }
    if i < n {
      StandingHas(prefix, front, i);
      assert Rels(log)[i] != Rels(log)[n];
      assert (prefix + last.rel)[|prefix|..] == last.rel && p[|prefix|..] == log[i].rel;
    } else {
      NotShown(prefix, front, last.rel);
      if Stands(last) { assert own[0].0 == p; }
    }
  }

  lemma {:induction false} NotShown(prefix: string, log: seq<Given>, rel: string)
    requires forall i :: 0 <= i < |log| ==> Rels(log)[i] != rel
    ensures !Shows(Standing(prefix, log), prefix + rel)
  {
    if log != [] {
      var n := |log| - 1;
      var own := if Stands(log[n]) then [(prefix + log[n].rel, log[n].fate.complete)] else [];
      forall i | 0 <= i < n ensures Rels(log[..n])[i] != rel { assert Rels(log)[i] != rel; }
      NotShown(prefix, log[..n], rel);
      assert Rels(log)[n] != rel;
      assert (prefix + log[n].rel)[|prefix|..] == log[n].rel && (prefix + rel)[|prefix|..] == rel;
      ShowsJoins(Standing(prefix, log[..n]), own, prefix + rel);
    }
  }

  /** Of files given just now and not shown before, those are shown that were admitted. */
  lemma ShownWhenAdmitted(prefix: string, st: State, was: seq<Given>, to: State, now: seq<Given>, rels: seq<string>,
                          projected: (nat, nat), i: nat)
    requires Balanced(prefix, st, was, projected) && Balanced(prefix, to, now, projected) && Gave(was, now, rels)
    requires NoRepeats(rels) && i < |rels| && prefix + rels[i] !in PathsOf(st.excerpts)
    ensures |now| == |was| + |rels| && now[|was| + i].rel == rels[i]
    ensures prefix + rels[i] in PathsOf(to.excerpts) <==> now[|was| + i].fate.Admitted?
  {
    var added, p := now[|was|..], prefix + rels[i];
    assert now == was + added && Rels(added)[i] == rels[i];
    StandingJoins(prefix, was, added);
    ShowsJoins(Standing(prefix, was), Standing(prefix, added), p);
    ShownPaths(st.excerpts, p);
    ShownPaths(to.excerpts, p);
    StandingHas(prefix, added, i);
  }

  lemma RelsJoin(a: seq<Given>, b: seq<Given>)
    ensures Rels(a + b) == Rels(a) + Rels(b)
  {
  }

  // Rolling a chain back.

  function Withdraw(log: seq<Given>): (r: seq<Given>)
    ensures |r| == |log| && forall i :: 0 <= i < |log| ==> r[i] == log[i].(now := Withdrawn)
  {
    seq(|log|, i requires 0 <= i < |log| => log[i].(now := Withdrawn))
  }

  lemma {:induction false} WithdrawnCounts(prefix: string, log: seq<Given>)
    requires forall i :: 0 <= i < |log| ==> log[i].now == Kept
    ensures Standing(prefix, Withdraw(log)) == [] && Count(log, withdrawals) == 0
    ensures Count(Withdraw(log), withdrawals) == Count(log, admits)
    ensures Count(Withdraw(log), skips) == Count(log, skips)
      && Count(Withdraw(log), truncations) == Count(log, truncations)
    ensures Count(Withdraw(log), drops) == 0 == Count(log, drops)
  {
    if log != [] {
      var front := log[..|log| - 1];
      assert Withdraw(log)[..|log| - 1] == Withdraw(front);
      WithdrawnCounts(prefix, front);
    }
  }

  /** Taking back what was added since, counters excepted, leaves the account balanced. */
  lemma BalancedBack(prefix: string, st: State, log: seq<Given>, to: State, added: seq<Given>, projected: (nat, nat))
    requires Balanced(prefix, st, log, projected) && Balanced(prefix, to, log + added, projected)
    requires forall i :: 0 <= i < |added| ==> added[i].now == Kept
    ensures Balanced(prefix, to.(excerpts := st.excerpts), log + Withdraw(added), projected)
  {
    WithdrawnCounts(prefix, added);
    StandingJoins(prefix, log, Withdraw(added));
    assert Standing(prefix, log) + [] == Standing(prefix, log);
    CountJoins(log, added, skips);
    CountJoins(log, Withdraw(added), skips);
    CountJoins(log, added, truncations);
    CountJoins(log, Withdraw(added), truncations);
    CountJoins(log, added, drops);
    CountJoins(log, Withdraw(added), drops);
  }

  // Shortening the packet.

  /** The same candidates with the same fates, and the same ones withdrawn. */
  predicate SameGiven(was: seq<Given>, now: seq<Given>) {
    |was| == |now| && forall i :: 0 <= i < |was| ==>
      was[i].rel == now[i].rel && was[i].fate == now[i].fate && (was[i].now == Withdrawn <==> now[i].now == Withdrawn)
  }

  lemma {:induction false} SameGivenCounts(was: seq<Given>, now: seq<Given>)
    requires SameGiven(was, now)
    ensures Rels(was) == Rels(now)
    ensures Count(was, admits) == Count(now, admits) && Count(was, skips) == Count(now, skips)
    ensures Count(was, truncations) == Count(now, truncations) && Count(was, cuts) == Count(now, cuts)
    ensures Count(was, withdrawals) == Count(now, withdrawals)
  {
    if was != [] { SameGivenCounts(was[..|was| - 1], now[..|now| - 1]); }
  }

  /** The last file still standing is dropped. */
  function DropLast(log: seq<Given>): (r: seq<Given>)
    ensures SameGiven(log, r)
  {
    if log == [] then []
    else
      var front, last := log[..|log| - 1], log[|log| - 1];
      if Stands(last) then front + [last.(now := Dropped)] else DropLast(front) + [last]
  }

  lemma {:induction false} DropLastCounts(prefix: string, log: seq<Given>)
    requires Standing(prefix, log) != []
    ensures Standing(prefix, DropLast(log)) == Standing(prefix, log)[..|Standing(prefix, log)| - 1]
    ensures Count(DropLast(log), drops) == Count(log, drops) + 1
    ensures Count(DropLast(log), skips) == Count(log, skips)
      && Count(DropLast(log), truncations) == Count(log, truncations)
  {
    var front, last := log[..|log| - 1], log[|log| - 1];
    assert DropLast(log)[..|log| - 1] == if Stands(last) then front else DropLast(front);
    if !Stands(last) { DropLastCounts(prefix, front); }
  }

  lemma BalancedDrop(prefix: string, st: State, log: seq<Given>, projected: (nat, nat), byteCount: nat)
    requires Balanced(prefix, st, log, projected) && st.excerpts != []
    ensures Balanced(prefix,
      st.(excerpts := st.excerpts[..|st.excerpts| - 1], byteCount := byteCount, truncated := st.truncated + 1),
      DropLast(log), projected)
  {
    DropLastCounts(prefix, log);
    assert Shown(st.excerpts[..|st.excerpts| - 1]) == Shown(st.excerpts)[..|st.excerpts| - 1];
  }

  // What the account says of the whole packet.

  lemma NothingStands(prefix: string, st: State, projected: (nat, nat))
    requires Balanced(prefix, st, [], projected)
    ensures st.excerpts == [] && st.skipped == projected.0 && st.truncated == projected.1
  {
  }

  /** The core files, then what the chains offered, then the late files, and only offers were withdrawn. */
  ghost predicate EveryoneGiven(log: seq<Given>, core: seq<string>, offered: seq<Given>, late: seq<string>) {
    Rels(log) == core + Rels(offered) + late && Count(log, withdrawals) == Count(offered, withdrawals)
  }

  lemma JoinedLog(first: seq<Given>, second: seq<Given>, log: seq<Given>, core: seq<string>, late: seq<string>)
    requires Gave([], first, core) && first <= second && Gave(second, log, late)
    ensures EveryoneGiven(log, core, second[|first|..], late)
  {
    var offered, last := second[|first|..], log[|second|..];
    assert first[0..] == first && log == first + offered + last;
    RelsJoin(first + offered, last);
    RelsJoin(first, offered);
    CountJoins(first + offered, last, withdrawals);
    CountJoins(first, offered, withdrawals);
    KeptCounts("", first);
    KeptCounts("", last);
  }

  lemma {:induction false} KeptCounts(prefix: string, log: seq<Given>)
    requires forall i :: 0 <= i < |log| ==> log[i].now == Kept
    ensures Count(log, withdrawals) == 0 == Count(log, drops) && Count(log, admits) == |Standing(prefix, log)|
  {
    if log != [] { KeptCounts(prefix, log[..|log| - 1]); }
  }

  lemma GaveTwice(prefix: string, first: seq<Given>, log: seq<Given>, core: seq<string>, more: seq<string>)
    requires Gave([], first, core) && Gave(first, log, more)
    ensures Rels(log) == core + more
    ensures Count(log, withdrawals) == 0 == Count(log, drops) && Count(log, admits) == |Standing(prefix, log)|
  {
    var last := log[|first|..];
    assert first[0..] == first && log == first + last;
    RelsJoin(first, last);
    KeptCounts(prefix, log);
  }

  lemma {:induction false} EachOnce(prefix: string, log: seq<Given>)
    ensures |Standing(prefix, log)| + Count(log, skips) + Count(log, truncations) + Count(log, drops) + Count(log,
      withdrawals)
      == |log| + Count(log, cuts)
  {
    if log != [] { EachOnce(prefix, log[..|log| - 1]); }
  }

  /** Every candidate is reported exactly once, as kept, skipped or truncated, except that a cut file counts
      twice, and a withdrawn one not at all. */
  lemma ReportsAll(prefix: string, st: State, log: seq<Given>, projected: (nat, nat))
    requires Balanced(prefix, st, log, projected)
    ensures |st.excerpts| + st.skipped + st.truncated + Count(log, withdrawals)
      == |log| + Count(log, cuts) + projected.0 + projected.1
  {
    EachOnce(prefix, log);
  }

  lemma EveryoneReported(prefix: string, st: State, log: seq<Given>, core: seq<string>, offered: seq<Given>,
                         late: seq<string>)
    requires Balanced(prefix, st, log, (0, 0)) && EveryoneGiven(log, core, offered, late)
    ensures |st.excerpts| + st.skipped + st.truncated + Count(offered, withdrawals) ==
      |core| + |offered| + |late| + Count(log, cuts)
  {
    ReportsAll(prefix, st, log, (0, 0));
    assert |Rels(log)| == |core| + |offered| + |late|;
  }
}

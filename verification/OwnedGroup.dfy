/** Stopping the provider's own process group (src/ptest/agent_providers.py:477-696): enumerate the group,
pin each member with a descriptor, validate it after the pin, signal only through the pin. Between any
two system calls every process may exit, be reaped, fork, change group or session, and a number whose
holder is gone may go to a new process. */
module OwnedGroup {
  import opened Basics

  /** A process, as opposed to the number it carries for a while. */
  type Process = nat
  type Pid = nat
  type Handle = nat

  datatype Phase = Running | Zombie | Gone
  datatype Record = Record(pid: Pid, group: nat, session: nat, start: int, ours: bool, phase: Phase)
  type Table = map<Process, Record>

  datatype Signal = Term | Kill
  /** A signal that reached `target`; `at` is the moment, as an index into the history. */
  datatype Delivery = Delivery(target: Process, signal: Signal, at: nat, pinned: bool)

  predicate Holds(t: Table, u: Process, pid: Pid) { u in t && t[u].phase != Gone && t[u].pid == pid }

  predicate RunsAs(t: Table, u: Process) { u in t && t[u].phase == Running }

  /** No number has two holders, and no outsider carries the private session. */
  predicate Sane(t: Table, session: nat) {
    && (forall u, w :: u in t && w in t && t[u].phase != Gone && t[w].phase != Gone && t[u].pid == t[w].pid ==> u == w)
    && (forall u :: u in t && t[u].phase != Gone && t[u].session == session ==> t[u].ours)
  }

  predicate Onward(p: Phase, q: Phase) { p == q || p == Running || q == Gone }

  /** b can follow a: processes keep number, start and origin, and never come back to life. */
  predicate Later(a: Table, b: Table) {
    forall u :: u in a ==>
      u in b && b[u].pid == a[u].pid && b[u].start == a[u].start && b[u].ours == a[u].ours
        && Onward(a[u].phase, b[u].phase)
  }

  ghost predicate Trace(h: seq<Table>, session: nat, child: Process) {
    && h != [] && child in h[0]
    && (forall i {:trigger Sane(h[i], session)} :: 0 <= i < |h| ==> Sane(h[i], session))
    && forall i, j {:trigger Later(h[i], h[j])} :: 0 <= i <= j < |h| ==> Later(h[i], h[j])
  }

  lemma TraceGrows(h: seq<Table>, t: Table, session: nat, child: Process)
    requires Trace(h, session, child) && Sane(t, session) && Later(h[|h| - 1], t)
    ensures Trace(h + [t], session, child)
  {
    forall i | 0 <= i < |h| ensures Later(h[i], t) { assert Later(h[i], h[|h| - 1]); }
  }

  /** What validation establishes about a process. */
  predicate Vetted(t: Table, u: Process, session: nat, leaderStart: int) {
    u in t && t[u].phase != Gone && t[u].session == session && t[u].ours && t[u].start >= leaderStart
  }

  /** A running process that validation must refuse. */
  predicate Intruder(t: Table, u: Process, session: nat, leaderStart: int) {
    RunsAs(t, u) && (t[u].session != session || t[u].start < leaderStart)
  }

  /** Such a process was there at some moment from `from` on. */
  ghost predicate Suspect(h: seq<Table>, from: nat, session: nat, leaderStart: int) {
    exists k, u :: from <= k < |h| && Intruder(h[k], u, session, leaderStart)
  }

  lemma SuspectLater(h: seq<Table>, g: seq<Table>, begin: nat, from: nat, session: nat, leaderStart: int)
    requires h <= g && begin <= from && Suspect(h, from, session, leaderStart)
    ensures Suspect(g, begin, session, leaderStart)
  {
    var k, u :| from <= k < |h| && Intruder(h[k], u, session, leaderStart);
    assert Intruder(g[k], u, session, leaderStart);
  }

  /** Why an enumeration may fail when every call works: it lacks what it compares with, or it saw an intruder. */
  ghost predicate Excuse(h: seq<Table>, from: nat, session: nat, pidfds: bool, sid: Option<nat>,
                         leaderStart: Option<int>) {
    !pidfds || sid.None? || leaderStart.None? || Suspect(h, from, session, leaderStart.value)
  }

  lemma ExcuseLater(h: seq<Table>, g: seq<Table>, begin: nat, from: nat, session: nat, pidfds: bool, sid: Option<nat>,
                    leaderStart: Option<int>)
    requires h <= g && begin <= from && Excuse(h, from, session, pidfds, sid, leaderStart)
    ensures Excuse(g, begin, session, pidfds, sid, leaderStart)
  {
    if pidfds && sid.Some? && leaderStart.Some? { SuspectLater(h, g, begin, from, session, leaderStart.value); }
  }

  ghost predicate VettedWithin(h: seq<Table>, from: nat, upto: nat, u: Process, session: nat, leaderStart: int) {
    exists k :: from <= k <= upto < |h| && Vetted(h[k], u, session, leaderStart)
  }

  /** The pinned process is dead for good, or was in the private session when it was examined. */
  ghost predicate SafePin(h: seq<Table>, from: nat, u: Process, session: nat, leaderStart: int) {
    && h != [] && u in h[|h| - 1]
    && (h[|h| - 1][u].phase == Gone || VettedWithin(h, from, |h| - 1, u, session, leaderStart))
  }

  /** The numeric reads at moments `asked` and `dated` may have seen another holder of the number; then the
      pinned process is dead, and otherwise they saw the pinned process itself. */
  lemma ReadsVet(h: seq<Table>, session: nat, child: Process, u: Process, pid: Pid, leaderStart: int, from: nat,
                 pinnedAt: nat, asked: nat, dated: nat)
    requires Trace(h, session, child) && from <= pinnedAt <= asked <= dated < |h|
    requires Holds(h[pinnedAt], u, pid)
    requires forall w :: Holds(h[asked], w, pid) ==> h[asked][w].session == session
    requires forall w :: Holds(h[dated], w, pid) ==> h[dated][w].start >= leaderStart
    ensures SafePin(h, from, u, session, leaderStart)
  {
    assert Later(h[pinnedAt], h[|h| - 1]) && Later(h[pinnedAt], h[asked]) && Later(h[pinnedAt], h[dated]);
    if h[|h| - 1][u].phase != Gone {
      assert Later(h[asked], h[|h| - 1]) && Later(h[dated], h[|h| - 1]);
      assert Sane(h[asked], session);
      assert Vetted(h[asked], u, session, leaderStart);
    }
  }

  lemma SafePinLater(h: seq<Table>, g: seq<Table>, session: nat, child: Process, from: nat, u: Process,
                     leaderStart: int)
    requires Trace(g, session, child) && h <= g && SafePin(h, from, u, session, leaderStart)
    ensures SafePin(g, from, u, session, leaderStart)
  {
    assert Later(g[|h| - 1], g[|g| - 1]);
    if h[|h| - 1][u].phase != Gone {
      var k :| from <= k <= |h| - 1 && Vetted(h[k], u, session, leaderStart);
      assert Vetted(g[k], u, session, leaderStart);
    }
  }

  lemma SafePinFrom(h: seq<Table>, begin: nat, from: nat, u: Process, session: nat, leaderStart: int)
    requires begin <= from && SafePin(h, from, u, session, leaderStart)
    ensures SafePin(h, begin, u, session, leaderStart)
  {
  }

  /** In the group, and running, at every moment from `from` to `upto`. */
  ghost predicate Steady(h: seq<Table>, from: nat, upto: nat, u: Process, pgid: nat) {
    from <= upto < |h| && forall k :: from <= k <= upto ==> RunsAs(h[k], u) && h[k][u].group == pgid
  }

  /** Steady up to now. */
  ghost predicate Stays(h: seq<Table>, from: nat, u: Process, pgid: nat) {
    h != [] && Steady(h, from, |h| - 1, u, pgid)
  }

  /** Every steady member of the group is still to come, found, or could not be read. */
  ghost predicate Covered(h: seq<Table>, from: nat, pgid: nat, rest: seq<Pid>, members: seq<Pid>,
                          denied: set<Process>) {
    h != [] && forall u {:trigger Stays(h, from, u, pgid)} :: Stays(h, from, u, pgid) ==>
      u in h[|h| - 1] && (h[|h| - 1][u].pid in rest || h[|h| - 1][u].pid in members || u in denied)
  }

  /** A right delivery: to the unreaped child by number, or through a pin to a vetted process. */
  ghost predicate Rightful(h: seq<Table>, d: Delivery, from: nat, session: nat, leaderStart: Option<int>,
                           child: Process) {
    if d.pinned then
      d.target != child && leaderStart.Some? && VettedWithin(h, from, d.at, d.target, session, leaderStart.value)
    else d.target == child && from <= d.at < |h| && child in h[d.at] && h[d.at][child].phase != Gone
  }

  /** Whoever receives a pinned signal is one of our own descendants, no older than the leader. */
  lemma RightfulReachesOurs(h: seq<Table>, d: Delivery, from: nat, session: nat, leaderStart: Option<int>,
                            child: Process)
    requires Trace(h, session, child) && d.pinned && Rightful(h, d, from, session, leaderStart, child)
    ensures d.target != child && d.at < |h| && d.target in h[d.at] && h[d.at][d.target].ours
      && h[d.at][d.target].start >= leaderStart.value
  {
    var k :| from <= k <= d.at && Vetted(h[k], d.target, session, leaderStart.value);
    assert Later(h[k], h[d.at]);
  }

  ghost predicate RightfulFrom(h: seq<Table>, log: seq<Delivery>, n: nat, from: nat, session: nat,
                               leaderStart: Option<int>, child: Process) {
    forall i :: n <= i < |log| ==> Rightful(h, log[i], from, session, leaderStart, child)
  }

  lemma RightfulLater(h: seq<Table>, g: seq<Table>, log: seq<Delivery>, n: nat, from: nat, begin: nat, session: nat,
                      leaderStart: Option<int>, child: Process)
    requires h <= g && begin <= from && RightfulFrom(h, log, n, from, session, leaderStart, child)
    ensures RightfulFrom(g, log, n, begin, session, leaderStart, child)
  {
    forall i | n <= i < |log| ensures Rightful(g, log[i], begin, session, leaderStart, child) {
      assert Rightful(h, log[i], from, session, leaderStart, child);
      if log[i].pinned {
        var k :| from <= k <= log[i].at && Vetted(h[k], log[i].target, session, leaderStart.value);
        assert Vetted(g[k], log[i].target, session, leaderStart.value);
      }
    }
  }

  datatype Read = Value(record: Record) | Failed
  datatype Pin = Pin(pid: Pid, handle: Handle)
  datatype Examined = Pinned(handle: Handle) | Skipped | Unverified
  datatype Probe = Present | NoGroup | Refused
  datatype Members = Members(pins: seq<Pin>) | Unverifiable
  datatype Call = OpenCall | GroupCall | ReadCall | PollCall | SendCall | ListCall | ProbeCall | KillCall | WaitCall

  /** A call the kernel refused at a moment although the process was there. */
  datatype Refusal = Refusal(process: Process, call: Call, at: nat)

  /** What others make of the process table at a moment: any function, and no choice of this program. */
  type World = (nat, Table) -> Table

  /** What the table can become while others run: nobody but this program reaps its child. */
  predicate Allowed(a: Table, b: Table, session: nat, child: Process)
    requires child in a
  {
    Sane(b, session) && Later(a, b) && (b[child].phase == Gone <==> a[child].phase == Gone)
  }

  function Elapsed(world: World, n: nat, t: Table, session: nat, child: Process): Table
    requires child in t
  {
    if Allowed(t, world(n, t), session, child) then world(n, t) else t
  }

  /** Each table follows from the one before by a step of others, or by reaping the child. */
  predicate Follows(h: seq<Table>, i: nat, world: World, session: nat, child: Process)
    requires 0 < i < |h|
  {
    child in h[i - 1] && (h[i] == Elapsed(world, i, h[i - 1], session, child) ||
      (h[i - 1][child].phase == Zombie && h[i] == h[i - 1][child := h[i - 1][child].(phase := Gone)]))
  }

  ghost predicate Linked(h: seq<Table>, world: World, session: nat, child: Process) {
    forall i {:trigger Follows(h, i, world, session, child)} :: 0 < i < |h| ==> Follows(h, i, world, session, child)
  }

  lemma LinkedGrows(h: seq<Table>, t: Table, world: World, session: nat, child: Process)
    requires h != [] && Linked(h, world, session, child) && Follows(h + [t], |h|, world, session, child)
    ensures Linked(h + [t], world, session, child)
  {
    var g := h + [t];
    forall i | 0 < i < |g| ensures Follows(g, i, world, session, child) {
      if i < |h| { assert Follows(h, i, world, session, child); }
    }
  }
  datatype Outcome = Stopped | GroupUnverifiable | MemberSurvived

  /** Moments of one stop: the child was asked to end by `told`, the group by `swept`; the grace period ended
      at `graced`, with `read` readings of the clock; the child was killed by `killed` and waited for until `waited`;
      the first hard sweep of the group ended at `cleared`, and the last one ran from `again` to `ended`. */
  datatype Course = Course(told: nat, swept: nat, graced: nat, read: nat, killed: nat, waited: nat, cleared: nat,
                           again: nat, ended: nat)

  ghost function HandlesOf(pins: seq<Pin>): set<Handle> { set i | 0 <= i < |pins| :: pins[i].handle }

  /** Pins with distinct handles, all open. */
  ghost predicate Open(pins: seq<Pin>, fds: map<Handle, Process>) {
    && (forall i :: 0 <= i < |pins| ==> pins[i].handle in fds)
    && forall i, j :: 0 <= i < j < |pins| ==> pins[i].handle != pins[j].handle
  }

  ghost predicate Pins(pins: seq<Pin>, fds: map<Handle, Process>, u: Process) {
    exists i :: 0 <= i < |pins| && pins[i].handle in fds && fds[pins[i].handle] == u
  }

  /** Every steady member of the group but the child is still to come, pinned, or was not readable. */
  ghost predicate Caught(h: seq<Table>, from: nat, pgid: nat, leader: Pid, rest: seq<Pid>, pins: seq<Pin>,
                         fds: map<Handle, Process>, denied: set<Process>) {
    h != [] && forall u {:trigger Stays(h, from, u, pgid)} :: Stays(h, from, u, pgid) ==>
      u in h[|h| - 1] && (h[|h| - 1][u].pid == leader || h[|h| - 1][u].pid in rest || Pins(pins, fds, u) || u in denied)
  }

  ghost predicate Signalled(log: seq<Delivery>, n: nat, u: Process, signal: Signal) {
    exists i :: n <= i < |log| && log[i].target == u && log[i].signal == signal && log[i].pinned
  }

  /** Every member that stayed from `from` to `upto`, but the child, was sent the signal, or a call on it
      was refused. */
  ghost predicate Reached(h: seq<Table>, from: nat, upto: nat, pgid: nat, leader: Pid, log: seq<Delivery>, n: nat,
                          signal: Signal, denied: set<Process>) {
    from <= upto < |h| && forall u {:trigger Steady(h, from, upto, u, pgid)} :: Steady(h, from, upto, u, pgid) ==>
      u in h[upto] && (h[upto][u].pid == leader || Signalled(log, n, u, signal) || u in denied)
  }

  lemma ReachedLater(h: seq<Table>, g: seq<Table>, from: nat, upto: nat, pgid: nat, leader: Pid, was: seq<Delivery>,
                     now: seq<Delivery>, n: nat, m: nat, signal: Signal, denied: set<Process>, more: set<Process>)
    requires h <= g && was <= now && denied <= more && m <= n
      && Reached(h, from, upto, pgid, leader, was, n, signal, denied)
    ensures Reached(g, from, upto, pgid, leader, now, m, signal, more)
  {
    forall u | Steady(g, from, upto, u, pgid)
      ensures u in g[upto] && (g[upto][u].pid == leader || Signalled(now, m, u, signal) || u in more)
    {
      forall k | from <= k <= upto ensures RunsAs(h[k], u) && h[k][u].group == pgid { assert RunsAs(g[k], u); }
      assert Steady(h, from, upto, u, pgid);
      if Signalled(was, n, u, signal) {
        var i :| n <= i < |was| && was[i].target == u && was[i].signal == signal && was[i].pinned;
        assert now[i] == was[i];
      }
    }
  }

  /** The child was sent the signal by number, after `from` and by `upto`. */
  ghost predicate Told(log: seq<Delivery>, n: nat, child: Process, signal: Signal, from: nat, upto: nat) {
    exists i ::
      n <= i < |log| && log[i].target == child && log[i].signal == signal && !log[i].pinned && from < log[i].at <= upto
  }

  lemma ToldLater(was: seq<Delivery>, now: seq<Delivery>, n: nat, m: nat, child: Process, signal: Signal, from: nat,
                  upto: nat)
    requires was <= now && m <= n && Told(was, n, child, signal, from, upto)
    ensures Told(now, m, child, signal, from, upto)
  {
    var i :| n <= i < |was| && was[i].target == child && was[i].signal == signal && !was[i].pinned
      && from < was[i].at <= upto;
    assert now[i] == was[i];
  }

  /** The child had exited at this moment, or signalling it was refused then. */
  ghost predicate NeedNotTell(h: seq<Table>, child: Process, refuses: (nat, Call) -> bool, k: nat)
    requires k < |h|
  {
    (child in h[k] && h[k][child].phase != Running) || refuses(k, KillCall)
  }

  /** By `upto` the child was sent the signal, or some moment after `from` excuses that. */
  ghost predicate ChildTold(h: seq<Table>, log: seq<Delivery>, n: nat, child: Process, refuses: (nat, Call) -> bool,
                            signal: Signal, from: nat, upto: nat) {
    from < upto < |h|
      && (Told(log, n, child, signal, from, upto) || exists k :: from < k <= upto && NeedNotTell(h, child, refuses, k))
  }

  lemma ChildToldLater(h: seq<Table>, g: seq<Table>, was: seq<Delivery>, now: seq<Delivery>, n: nat, m: nat,
                       child: Process, refuses: (nat, Call) -> bool, signal: Signal, from: nat, upto: nat)
    requires h <= g && was <= now && m <= n && ChildTold(h, was, n, child, refuses, signal, from, upto)
    ensures ChildTold(g, now, m, child, refuses, signal, from, upto)
  {
    if Told(was, n, child, signal, from, upto) {
      ToldLater(was, now, n, m, child, signal, from, upto);
    } else {
      var k :| from < k <= upto && NeedNotTell(h, child, refuses, k);
      assert NeedNotTell(g, child, refuses, k);
    }
  }

  /** Nobody but the child stayed running in the group from `from` to `upto`, except where a call was refused. */
  ghost predicate Quiet(h: seq<Table>, from: nat, upto: nat, pgid: nat, leader: Pid, denied: set<Process>) {
    from <= upto < |h| && forall u {:trigger Steady(h, from, upto, u, pgid)} ::
      Steady(h, from, upto, u, pgid) ==> u in h[upto] && (h[upto][u].pid == leader || u in denied)
  }

  lemma QuietLater(h: seq<Table>, g: seq<Table>, from: nat, upto: nat, pgid: nat, leader: Pid, denied: set<Process>)
    requires h <= g && Quiet(h, from, upto, pgid, leader, denied)
    ensures Quiet(g, from, upto, pgid, leader, denied)
  {
    forall u | Steady(g, from, upto, u, pgid) ensures Steady(h, from, upto, u, pgid) {
      forall k | from <= k <= upto ensures RunsAs(h[k], u) && h[k][u].group == pgid { assert RunsAs(g[k], u); }
    }
  }

  /** The processes a pin or a group read was refused on after the moment `from` and up to `upto`. */
  ghost function Hidden(refusals: seq<Refusal>, from: nat, upto: nat): set<Process> {
    set i | 0 <= i < |refusals| && refusals[i].call != SendCall && from < refusals[i].at <= upto :: refusals[i].process
  }

  /** The processes any call was refused on after the moment `from` and up to `upto`. */
  ghost function Denied(refusals: seq<Refusal>, from: nat, upto: nat): set<Process> {
    set i | 0 <= i < |refusals| && from < refusals[i].at <= upto :: refusals[i].process
  }

  lemma DeniedGrows(was: seq<Refusal>, now: seq<Refusal>, begin: nat, from: nat, mid: nat, upto: nat)
    requires was <= now && begin <= from && mid <= upto
    ensures Denied(was, from, mid) <= Denied(now, begin, upto) && Hidden(was, from, mid) <= Denied(now, begin, upto)
  {
    forall u | u in Denied(was, from, mid) ensures u in Denied(now, begin, upto) {
      var i :| 0 <= i < |was| && from < was[i].at <= mid && was[i].process == u;
      assert now[i] == was[i];
    }
    forall u | u in Hidden(was, from, mid) ensures u in Denied(now, begin, upto) {
      var i :| 0 <= i < |was| && was[i].call != SendCall && from < was[i].at <= mid && was[i].process == u;
      assert now[i] == was[i];
    }
  }

  lemma HiddenGrows(was: seq<Refusal>, now: seq<Refusal>, begin: nat, from: nat, mid: nat, upto: nat)
    requires was <= now && begin <= from && mid <= upto
    ensures Hidden(was, from, mid) <= Hidden(now, begin, upto)
  {
    forall u | u in Hidden(was, from, mid) ensures u in Hidden(now, begin, upto) {
      var i :| 0 <= i < |was| && was[i].call != SendCall && from < was[i].at <= mid && was[i].process == u;
      assert now[i] == was[i];
    }
  }

  lemma HiddenLast(was: seq<Refusal>, r: Refusal, from: nat, upto: nat)
    requires r.call != SendCall && from < r.at <= upto
    ensures r.process in Hidden(was + [r], from, upto)
  {
    assert (was + [r])[|was|] == r;
  }

  /** No signal from the n-th on was sent after the moment `from`. */
  ghost predicate SentBy(log: seq<Delivery>, n: nat, from: nat) { forall i :: n <= i < |log| ==> log[i].at <= from }

  const TERM_GRACE: nat := 40

  /** What the clock showed, and the last moment before that reading. */
  datatype Reading = Reading(time: nat, at: nat)

  /** Two readings lie a grace period apart, both between these moments. */
  ghost predicate Waited(readings: seq<Reading>, n: nat, from: nat, upto: nat) {
    exists a, b :: n <= a < b < |readings| && from <= readings[a].at && readings[b].at <= upto
      && readings[a].time + TERM_GRACE <= readings[b].time
  }

  lemma WaitedLater(was: seq<Reading>, now: seq<Reading>, n: nat, m: nat, from: nat, begin: nat, upto: nat)
    requires was <= now && m <= n && begin <= from && Waited(was, n, from, upto)
    ensures Waited(now, m, begin, upto)
  {
    var a, b :| n <= a < b < |was| && from <= was[a].at && was[b].at <= upto && was[a].time + TERM_GRACE <= was[b].time;
    assert now[a] == was[a] && now[b] == was[b];
  }

  /** Of these readings only the last may lie a grace period after the first. */
  ghost predicate Brief(readings: seq<Reading>, n: nat, m: nat) {
    n < m <= |readings| && forall i :: n <= i < m - 1 ==> readings[i].time < readings[n].time + TERM_GRACE
  }

  /** Every delivery from the n-th on is of this signal and after this moment. */
  ghost predicate AllOf(log: seq<Delivery>, n: nat, signal: Signal, from: nat) {
    forall i :: n <= i < |log| ==> log[i].signal == signal && from < log[i].at
  }

  /** No hard signal from the n-th delivery on, or none but after this moment. */
  ghost predicate OnlyTerm(log: seq<Delivery>, n: nat) { forall i :: n <= i < |log| ==> log[i].signal == Term }

  ghost predicate KillsAfter(log: seq<Delivery>, n: nat, at: nat) {
    forall i :: n <= i < |log| && log[i].signal == Kill ==> at < log[i].at
  }

  lemma AllOfJoins(was: seq<Delivery>, now: seq<Delivery>, n: nat, signal: Signal, from: nat, later: nat)
    requires was <= now && n <= |was| && from <= later && AllOf(was, n, signal, from)
      && AllOf(now, |was|, signal, later)
    ensures AllOf(now, n, signal, from)
  {
    forall i | n <= i < |now| ensures now[i].signal == signal && from < now[i].at {
      if i < |was| { assert now[i] == was[i]; }
    }
  }

  lemma KillsJoin(was: seq<Delivery>, now: seq<Delivery>, n: nat, at: nat, later: nat)
    requires was <= now && n <= |was| && at <= later && AllOf(now, |was|, Kill, later)
    requires OnlyTerm(was, n) || KillsAfter(was, n, at)
    ensures KillsAfter(now, n, at)
  {
    forall i | n <= i < |now| && now[i].signal == Kill ensures at < now[i].at {
      if i < |was| { assert now[i] == was[i]; }
    }
  }

  class Kernel {
    const child: Process
    const childPid: Pid
    const session: nat
    const pidfds: bool
    const world: World
    /** Whether the kernel refuses a call at a moment, or fails it without a reason. */
    const refuses: (nat, Call) -> bool
    var history: seq<Table>
    var fds: map<Handle, Process>
    var log: seq<Delivery>
    var refusals: seq<Refusal>
    /** Monotonic time in units of the shortest sleep. */
    var clock: nat
    /** What was read off it. */
    ghost var readings: seq<Reading>

    ghost predicate Valid() reads this`history, this`fds, this`refusals, this`log {
      && Trace(history, session, child) && child in Now() && Now()[child].pid == childPid
      && (forall f :: f in fds ==> fds[f] in history[|history| - 1]) && Linked(history, world, session, child)
      && AllFounded(refusals, history)
      && (PinsRefused() ==> fds == map[] && forall i :: 0 <= i < |log| ==> !log[i].pinned)
    }

    /** The kernel did refuse this call, and the process was there. */
    ghost predicate Founded(r: Refusal, h: seq<Table>) {
      refuses(r.at, r.call) && r.at < |h| && r.process in h[r.at] && h[r.at][r.process].phase != Gone
    }

    ghost predicate AllFounded(rs: seq<Refusal>, h: seq<Table>) {
      forall i {:trigger Founded(rs[i], h)} :: 0 <= i < |rs| ==> Founded(rs[i], h)
    }

    /** No call is refused. */
    ghost predicate Reliable() { forall n: nat, c :: !refuses(n, c) }

    /** Pins are available, every pin is refused, and no other call is. */
    ghost predicate PinsRefused() { pidfds && forall n: nat, c :: refuses(n, c) <==> c == OpenCall }

    function Now(): Table reads this`history requires history != [] { history[|history| - 1] }

    predicate ChildReaped() reads this`history { history != [] && child in Now() && Now()[child].phase == Gone }

    constructor (session: nat, child: Process, childPid: Pid, pidfds: bool, world: World, refuses: (nat, Call) -> bool,
                 table: Table)
      requires Sane(table, session) && child in table && table[child].pid == childPid
      ensures Valid() && history == [table] && fds == map[] && log == []
      ensures this.session == session && this.child == child && this.childPid == childPid && this.pidfds == pidfds
        && this.world == world && this.refuses == refuses
    {
      this.session, this.child, this.childPid, this.pidfds, this.world, this.refuses := session, child, childPid,
        pidfds, world, refuses;
      history, fds, log, clock, refusals, readings := [table], map[], [], 0, [], [];
    }

    /** Others run. */
    method Elapse()
      requires Valid()
      modifies this`history
      ensures Valid() && old(history) <= history && |history| == |old(history)| + 1
        && (ChildReaped() <==> old(ChildReaped()))
    {
      var next := Elapsed(world, |history|, Now(), session, child);
      ghost var before := Now();
      AllowedStays(before, session, child);
      TraceGrows(history, next, session, child);
      LinkedGrows(history, next, world, session, child);
      FoundedStays(next);
      history := history + [next];
      assert Later(before, next);
    }

    lemma AllowedStays(t: Table, session: nat, child: Process)
      requires Trace(history, this.session, this.child) && session == this.session && child == this.child && t == Now()
      ensures child in t && Allowed(t, t, session, child)
    {
      assert Later(history[0], t) && Sane(t, session);
    }

    lemma FoundedStays(next: Table)
      requires AllFounded(refusals, history)
      ensures AllFounded(refusals, history + [next])
    {
      forall i | 0 <= i < |refusals| ensures Founded(refusals[i], history + [next]) {
        var was := Founded(refusals[i], history);
      }
    }

    lemma FdsKnown(h: seq<Table>)
      requires Valid() && h != [] && h <= history
      ensures forall u :: u in h[|h| - 1] ==> u in Now()
    {
      assert Later(history[|h| - 1], Now());
    }

    // System calls.

    /** A read by number: the current holder's record. Every such read may also fail. */
    method Look(pid: Pid, call: Call) returns (r: Read)
      requires Valid()
      modifies this`history
      ensures Valid() && old(history) <= history && (ChildReaped() <==> old(ChildReaped()))
      ensures r.Value? ==> forall u :: Holds(Now(), u, pid) ==> Now()[u] == r.record
      ensures |history| == |old(history)| + 1
      ensures r.Failed? ==> refuses(|history| - 1, call) || forall u :: !Holds(Now(), u, pid)
    {
      Elapse();
      if !refuses(|history| - 1, call) && exists u :: u in Now() && Holds(Now(), u, pid) {
        var u :| u in Now() && Holds(Now(), u, pid);
        r := Value(Now()[u]);
        assert Sane(Now(), session);
      } else {
        r := Failed;
      }
    }

    /** `_pin_process`: any error of the call counts as "already exited". */
    method OpenPin(pid: Pid) returns (r: Option<Handle>, ghost denied: set<Process>)
      requires Valid()
      modifies this`history, this`fds, this`refusals
      ensures Valid() && old(history) <= history && (ChildReaped() <==> old(ChildReaped()))
      ensures old(refusals) <= refusals && denied <= Hidden(refusals, |old(history)| - 1, |history| - 1)
      ensures PinsRefused() ==> r.None?
      ensures r.None? ==> fds == old(fds) && forall u :: Holds(Now(), u, pid) ==> u in denied
      ensures r.Some? ==>
        r.value !in old(fds) && r.value in fds && fds == old(fds)[r.value := fds[r.value]]
        && Holds(Now(), fds[r.value], pid) && denied == {}
      ensures forall u :: u in denied ==> Holds(Now(), u, pid)
    {
      ghost var h := history;
      Elapse();
      FdsKnown(h);
      var handle := PickUnused(fds.Keys);
      if refuses(|history| - 1, OpenCall) || !exists u :: u in Now() && Holds(Now(), u, pid) {
        denied := {};
        if exists u :: u in Now() && Holds(Now(), u, pid) {
          var u :| u in Now() && Holds(Now(), u, pid);
          OnlyHolders(u, pid);
          denied := {u};
          HiddenLast(refusals, Refusal(u, OpenCall, |history| - 1), |h| - 1, |history| - 1);
          Refuse(u, OpenCall);
        }
        return None, denied;
      }
      var u :| u in Now() && Holds(Now(), u, pid);
      fds := fds[handle := u];
      return Some(handle), {};
    }

    method Refuse(u: Process, call: Call)
      requires Valid() && u in Now() && Now()[u].phase != Gone && refuses(|history| - 1, call)
      modifies this`refusals
      ensures Valid() && refusals == old(refusals) + [Refusal(u, call, |history| - 1)]
    {
      var r := Refusal(u, call, |history| - 1);
      forall i | 0 <= i < |refusals + [r]| ensures Founded((refusals + [r])[i], history) {
        if i < |refusals| { var was := Founded(refusals[i], history); }
      }
      refusals := refusals + [r];
    }

    lemma OnlyHolders(u: Process, pid: Pid)
      requires Valid() && Holds(Now(), u, pid)
      ensures forall w :: Holds(Now(), w, pid) ==> w == u
    {
      assert Sane(Now(), session);
    }

    method Close(handle: Handle)
      requires Valid() && handle in fds
      modifies this`fds
      ensures Valid() && fds == old(fds) - {handle}
    {
      fds := fds - {handle};
    }

    /** `_pidfd_exited`: a failing poll reports "not exited". */
    method Exited(handle: Handle) returns (r: bool)
      requires Valid() && handle in fds
      modifies this`history
      ensures Valid() && old(history) <= history && (ChildReaped() <==> old(ChildReaped()))
      ensures r ==> fds[handle] in Now() && !RunsAs(Now(), fds[handle])
      ensures Reliable() && !r ==> RunsAs(Now(), fds[handle])
    {
      ghost var h := history;
      Elapse();
      FdsKnown(h);
      r := !refuses(|history| - 1, PollCall) && Now()[fds[handle]].phase != Running;
    }

    /** `_pidfd_signal`: reaches the pinned process and no other, unless it is gone or the call is refused. */
    method Send(handle: Handle, signal: Signal) returns (sent: bool, ghost denied: set<Process>)
      requires Valid() && handle in fds
      modifies this`history, this`log, this`refusals
      ensures Valid() && old(history) <= history && |history| == |old(history)| + 1
        && (ChildReaped() <==> old(ChildReaped()))
      ensures refusals == old(refusals) + if denied == {} then [] else [Refusal(fds[handle], SendCall, |history| - 1)]
      ensures sent ==>
        log == old(log) + [Delivery(fds[handle], signal, |history| - 1, true)] && Now()[fds[handle]].phase != Gone
      ensures !sent ==> log == old(log) && (Now()[fds[handle]].phase == Gone || fds[handle] in denied)
      ensures denied <= {fds[handle]}
    {
      ghost var h := history;
      Elapse();
      FdsKnown(h);
      var refused := refuses(|history| - 1, SendCall) && Now()[fds[handle]].phase != Gone;
      sent := !refused && Now()[fds[handle]].phase != Gone;
      denied := if refused then {fds[handle]} else {};
      if refused { Refuse(fds[handle], SendCall); }
      if sent { log := log + [Delivery(fds[handle], signal, |history| - 1, true)]; }
    }

    /** `os.killpg(pgid, 0)`. */
    method ProbeGroup(pgid: nat) returns (r: Probe)
      requires Valid()
      modifies this`history
      ensures Valid() && old(history) <= history && (ChildReaped() <==> old(ChildReaped()))
      ensures r.NoGroup? ==> forall u :: u in Now() && Now()[u].phase != Gone ==> Now()[u].group != pgid
    {
      Elapse();
      if exists u :: u in Now() && Now()[u].phase != Gone && Now()[u].group == pgid {
        return if refuses(|history| - 1, ProbeCall) then Refused else Present;
      }
      return NoGroup;
    }

    /** Listing the process directory is not atomic: it holds at least the numbers held throughout. */
    method ListPids() returns (r: Option<seq<Pid>>)
      requires Valid()
      modifies this`history
      ensures Valid() && old(history) <= history && (ChildReaped() <==> old(ChildReaped()))
      ensures (forall n: nat :: !refuses(n, ListCall)) ==> r.Some?
      ensures r.Some? ==>
        forall u :: u in old(Now()) && u in Now() && Now()[u].phase != Gone ==> old(Now())[u].pid in r.value
    {
      var before, h := Now(), history;
      Elapse();
      FdsKnown(h);
      var pids: seq<Pid> := *;
      if forall u :: u in before && u in Now() && Now()[u].phase != Gone ==> before[u].pid in pids {
        return Some(pids);
      }
      if refuses(|history| - 1, ListCall) { return None; }
      pids := NumbersOf(before);
      return Some(pids);
    }

    // The protocol.

    /** `_group_member_pids`. A number whose group cannot be read is left out. */
    method GroupPids(pgid: nat) returns (r: Option<seq<Pid>>, ghost denied: set<Process>)
      requires Valid()
      modifies this`history, this`refusals
      ensures Valid() && old(history) <= history && (ChildReaped() <==> old(ChildReaped()))
      ensures old(refusals) <= refusals && denied <= Hidden(refusals, |old(history)| - 1, |history| - 1)
      ensures (forall n: nat :: !refuses(n, ListCall)) ==> r.Some?
      ensures r.Some? ==> Covered(history, |old(history)| - 1, pgid, [], r.value, denied)
    {
      ghost var from := |history| - 1;
      denied := {};
      var entries := ListPids();
      if entries.None? { return None, {}; }
      var members: seq<Pid> := [];
      forall u | Stays(history, from, u, pgid) ensures u in Now() && Now()[u].pid in entries.value {
        ListedSteady(from, u, pgid, entries.value);
      }
      var i := 0;
      while i < |entries.value|
        invariant 0 <= i <= |entries.value|
        invariant Valid() && old(history) <= history && (ChildReaped() <==> old(ChildReaped()))
        invariant old(refusals) <= refusals && denied <= Hidden(refusals, from, |history| - 1)
        invariant Covered(history, from, pgid, entries.value[i..], members, denied)
      {
        ghost var h, before := history, refusals;
        var inside, missed := InGroup(entries.value[i], pgid);
        assert entries.value[i..] == [entries.value[i]] + entries.value[i + 1..];
        ghost var rest := entries.value[i + 1..];
        CoveredStep(h, from, pgid, entries.value[i], rest, members,
          if inside then members + [entries.value[i]] else members, denied, missed);
        if inside { members := members + [entries.value[i]]; }
        HiddenGrows(before, refusals, from, from, |h| - 1, |history| - 1);
        HiddenGrows(refusals, refusals, from, |h| - 1, |history| - 1, |history| - 1);
        denied := denied + missed;
        i := i + 1;
      }
      return Some(members), denied;
    }

    /** `os.getpgid(pid) == pgid`; an error counts as "not in the group". */
    method InGroup(pid: Pid, pgid: nat) returns (r: bool, ghost denied: set<Process>)
      requires Valid()
      modifies this`history, this`refusals
      ensures Valid() && old(history) <= history && (ChildReaped() <==> old(ChildReaped()))
      ensures old(refusals) <= refusals && denied <= Hidden(refusals, |old(history)| - 1, |history| - 1)
      ensures forall u :: Holds(Now(), u, pid) && Now()[u].group == pgid ==> r || u in denied
    {
      var seen := Look(pid, GroupCall);
      r := seen.Value? && seen.record.group == pgid;
      denied := {};
      if seen.Failed? && exists u :: u in Now() && Holds(Now(), u, pid) {
        var u :| u in Now() && Holds(Now(), u, pid);
        OnlyHolders(u, pid);
        denied := {u};
        HiddenLast(refusals, Refusal(u, GroupCall, |history| - 1), |history| - 2, |history| - 1);
        Refuse(u, GroupCall);
      }
    }

    lemma CoveredStep(h: seq<Table>, from: nat, pgid: nat, entry: Pid, rest: seq<Pid>, members: seq<Pid>,
                      more: seq<Pid>, denied: set<Process>, missed: set<Process>)
      requires Valid() && h <= history && from < |h| && Covered(h, from, pgid, [entry] + rest, members, denied)
      requires more == members || more == members + [entry]
      requires forall u :: Holds(Now(), u, entry) && Now()[u].group == pgid ==> entry in more || u in missed
      ensures Covered(history, from, pgid, rest, more, denied + missed)
    {
      forall u | Stays(history, from, u, pgid)
        ensures u in Now() && (Now()[u].pid in rest || Now()[u].pid in more || u in denied + missed)
      {
        SteadyBefore(h, from, u, pgid);
      }
    }

    lemma ListedSteady(from: nat, u: Process, pgid: nat, listed: seq<Pid>)
      requires Valid() && Stays(history, from, u, pgid)
      requires forall w :: w in history[from] && w in Now() && Now()[w].phase != Gone ==> history[from][w].pid in listed
      ensures u in Now() && Now()[u].pid in listed
    {
      assert RunsAs(history[from], u) && RunsAs(history[|history| - 1], u);
      assert Later(history[from], Now());
    }

    lemma SteadyBefore(h: seq<Table>, from: nat, u: Process, pgid: nat)
      requires Valid() && h <= history && from < |h| && Stays(history, from, u, pgid)
      ensures Stays(h, from, u, pgid)
      ensures u in h[|h| - 1] && u in Now() && h[|h| - 1][u].pid == Now()[u].pid && Now()[u].phase == Running
        && Now()[u].group == pgid
    {
      assert forall k :: 0 <= k < |h| ==> h[k] == history[k];
      assert RunsAs(history[|h| - 1], u) && RunsAs(history[|history| - 1], u);
      assert Later(history[|h| - 1], Now());
    }

    /** Closes a pin that failed validation: a dead one is skipped, a live one is unverifiable. */
    method Dismiss(handle: Handle) returns (r: Examined)
      requires Valid() && handle in fds
      modifies this`history, this`fds
      ensures Valid() && old(history) <= history && (ChildReaped() <==> old(ChildReaped()))
      ensures fds == old(fds) - {handle} && !r.Pinned?
      ensures r.Skipped? ==> old(fds)[handle] in Now() && !RunsAs(Now(), old(fds)[handle])
      ensures Reliable() && r.Unverified? ==> RunsAs(Now(), old(fds)[handle])
    {
      var exited := Exited(handle);
      Close(handle);
      return if exited then Skipped else Unverified;
    }

    lemma HoldersKeep(from: nat, at: nat, u: Process, pid: Pid)
      requires Valid() && from <= at < |history| && Holds(history[from], u, pid) && RunsAs(Now(), u)
      ensures Holds(history[at], u, pid) && RunsAs(history[at], u)
    {
      assert Later(history[from], history[at]) && Later(history[at], Now());
    }

    lemma OnlyHolder(at: nat, u: Process, w: Process, pid: Pid)
      requires Valid() && at < |history| && Holds(history[at], u, pid) && Holds(history[at], w, pid)
      ensures u == w
    {
      assert Sane(history[at], session);
    }

    /** What follows a pin: session, start and state are read by number and compared. */
    method Validate(mid: Pid, handle: Handle, leaderStart: int) returns (r: Examined)
      requires Valid() && handle in fds && fds[handle] != child && Holds(Now(), fds[handle], mid)
      modifies this`history, this`fds
      ensures Valid() && old(history) <= history && (ChildReaped() <==> old(ChildReaped()))
      ensures r.Pinned? ==> r.handle == handle && fds == old(fds)
      ensures r.Pinned? ==> Member(history, |old(history)| - 1, fds[handle], leaderStart)
      ensures !r.Pinned? ==> fds == old(fds) - {handle}
      ensures r.Skipped? ==> !RunsAs(Now(), old(fds)[handle])
      ensures Reliable() && r.Unverified? ==> Suspect(history, |old(history)| - 1, session, leaderStart)
    {
      ghost var pinnedAt := |history| - 1;
      ghost var who := fds[handle];
      var owner := Look(mid, ReadCall);
      ghost var asked := |history| - 1;
      if owner.Failed? || owner.record.session != session {
        r := Dismiss(handle);
        if Reliable() && r.Unverified? { Exposed(pinnedAt, asked, who, mid, leaderStart); }
        return r;
      }
      var dated := Look(mid, ReadCall);
      ghost var datedAt := |history| - 1;
      if dated.Failed? || dated.record.start < leaderStart {
        r := Dismiss(handle);
        if Reliable() && r.Unverified? { Exposed(pinnedAt, datedAt, who, mid, leaderStart); }
        return r;
      }
      r := CheckState(mid, handle, pinnedAt);
      if r.Pinned? { ReadsVet(history, session, child, who, mid, leaderStart, pinnedAt, pinnedAt, asked, datedAt); }
    }

    /** The last read: a zombie needs no signal, and neither does an unreadable process that has exited. */
    method CheckState(mid: Pid, handle: Handle, ghost pinnedAt: nat) returns (r: Examined)
      requires Valid() && handle in fds && pinnedAt < |history| && Holds(history[pinnedAt], fds[handle], mid)
      modifies this`history, this`fds
      ensures Valid() && old(history) <= history && (ChildReaped() <==> old(ChildReaped()))
      ensures r == Skipped || r == Pinned(handle)
      ensures fds == if r.Pinned? then old(fds) else old(fds) - {handle}
      ensures r.Skipped? ==> !RunsAs(Now(), old(fds)[handle])
      ensures r.Pinned? ==> exists k ::
        pinnedAt <= k < |history| && fds[handle] in history[k]
        && (history[k][fds[handle]].phase != Zombie || refuses(k, ReadCall))
    {
      ghost var who := fds[handle];
      var state := Look(mid, ReadCall);
      ghost var read := |history| - 1;
      assert Later(history[pinnedAt], history[read]);
      assert Holds(Now(), who, mid) || Now()[who].phase == Gone;
      if state.Value? && state.record.phase == Zombie {
        Close(handle);
        return Skipped;
      }
      if state.Failed? {
        var exited := Exited(handle);
        if exited {
          Close(handle);
          return Skipped;
        }
      }
      assert who in history[read] && (history[read][who].phase != Zombie || refuses(read, ReadCall));
      return Pinned(handle);
    }

    /** A pin that is still running after a read was the one that was read. */
    lemma Exposed(pinnedAt: nat, readAt: nat, who: Process, mid: Pid, leaderStart: int)
      requires Valid() && pinnedAt <= readAt < |history| && Holds(history[pinnedAt], who, mid) && RunsAs(Now(), who)
      requires forall u ::
        Holds(history[readAt], u, mid) ==>
        history[readAt][u].session != session || history[readAt][u].start < leaderStart
      ensures Suspect(history, pinnedAt, session, leaderStart)
    {
      HoldersKeep(pinnedAt, readAt, who, mid);
      assert Intruder(history[readAt], who, session, leaderStart);
    }

    /** One group member: pin first, then validate what the number shows. */
    method Examine(mid: Pid, leaderStart: int) returns (r: Examined, ghost denied: set<Process>)
      requires Valid() && mid != childPid
      modifies this`history, this`fds, this`refusals
      ensures Valid() && old(history) <= history && (ChildReaped() <==> old(ChildReaped()))
      ensures old(refusals) <= refusals && denied <= Hidden(refusals, |old(history)| - 1, |history| - 1)
      ensures !r.Pinned? ==> fds == old(fds)
      ensures r.Pinned? ==> r.handle !in old(fds) && r.handle in fds && fds == old(fds)[r.handle := fds[r.handle]]
      ensures r.Pinned? ==> Member(history, |old(history)| - 1, fds[r.handle], leaderStart)
      ensures PinsRefused() ==> r.Skipped?
      ensures Reliable() && r.Unverified? ==> Suspect(history, |old(history)| - 1, session, leaderStart)
      ensures !r.Unverified? ==>
        forall u :: Holds(old(Now()), u, mid) && RunsAs(Now(), u) ==> u in denied || (r.Pinned? && fds[r.handle] == u)
    {
      ghost var from := |history| - 1;
      ghost var known := fds;
      var pin;
      pin, denied := OpenPin(mid);
      ghost var pinnedAt := |history| - 1;
      if pin.None? {
        forall u | Holds(history[from], u, mid) && RunsAs(Now(), u) ensures u in denied {
          HoldersKeep(from, pinnedAt, u, mid);
        }
        return Skipped, denied;
      }
      ghost var who := fds[pin.value];
      r := Validate(mid, pin.value, leaderStart);
      OnlyPinned(from, pinnedAt, who, mid);
      if r.Pinned? { MemberStays(history, from, pinnedAt, who, leaderStart); }
      if Reliable() && r.Unverified? { SuspectLater(history, history, from, pinnedAt, session, leaderStart); }
    }

    lemma OnlyPinned(from: nat, pinnedAt: nat, who: Process, pid: Pid)
      requires Valid() && from <= pinnedAt < |history| && Holds(history[pinnedAt], who, pid)
      ensures forall u :: Holds(history[from], u, pid) && RunsAs(Now(), u) ==> u == who
    {
      forall u | Holds(history[from], u, pid) && RunsAs(Now(), u) ensures u == who {
        HoldersKeep(from, pinnedAt, u, pid);
        OnlyHolder(pinnedAt, u, who, pid);
      }
    }

    method ClosePinned(pins: seq<Pin>)
      requires Valid() && Open(pins, fds)
      modifies this`fds
      ensures Valid() && fds == old(fds) - HandlesOf(pins)
    {
      var i := 0;
      while i < |pins|
        invariant 0 <= i <= |pins|
        invariant Valid() && Open(pins[i..], fds) && fds == old(fds) - HandlesOf(pins[..i])
      {
        Close(pins[i].handle);
        assert pins[..i + 1] == pins[..i] + [pins[i]];
        assert HandlesOf(pins[..i + 1]) ==
          HandlesOf(pins[..i]) + {pins[i].handle} by { HandlesGrow(pins[..i], pins[i]); }
        assert pins[i..][1..] == pins[i + 1..];
        i := i + 1;
      }
      assert pins[..|pins|] == pins;
    }

    /** A process to keep pinned: safe, not the child, and no zombie all along unless a read was refused. */
    ghost predicate Member(h: seq<Table>, from: nat, u: Process, leaderStart: int) {
      && u != child && SafePin(h, from, u, session, leaderStart)
      && exists k :: from <= k < |h| && u in h[k] && (h[k][u].phase != Zombie || refuses(k, ReadCall))
    }

    lemma MemberStays(h: seq<Table>, begin: nat, from: nat, u: Process, leaderStart: int)
      requires Valid() && h <= history && begin <= from && Member(h, from, u, leaderStart)
      ensures Member(history, begin, u, leaderStart)
    {
      SafePinLater(h, history, session, child, from, u, leaderStart);
      SafePinFrom(history, begin, from, u, session, leaderStart);
      var k :| from <= k < |h| && u in h[k] && (h[k][u].phase != Zombie || refuses(k, ReadCall));
      assert u in history[k];
    }

    ghost predicate AllSafe(h: seq<Table>, from: nat, pins: seq<Pin>, fds: map<Handle, Process>, leaderStart: int) {
      forall i :: 0 <= i < |pins| ==> pins[i].handle in fds && Member(h, from, fds[pins[i].handle], leaderStart)
    }

    lemma AllSafeLater(h: seq<Table>, from: nat, pins: seq<Pin>, was: map<Handle, Process>, leaderStart: int)
      requires Valid() && h <= history && AllSafe(h, from, pins, was, leaderStart)
      requires forall f :: f in was ==> f in fds && fds[f] == was[f]
      ensures AllSafe(history, from, pins, fds, leaderStart)
    {
      forall i | 0 <= i < |pins| ensures Member(history, from, fds[pins[i].handle], leaderStart) {
        MemberStays(h, from, from, fds[pins[i].handle], leaderStart);
      }
    }

    lemma CaughtStep(h: seq<Table>, from: nat, pgid: nat, mid: Pid, rest: seq<Pid>, pins: seq<Pin>,
                     was: map<Handle, Process>, more: seq<Pin>, denied: set<Process>, missed: set<Process>)
      requires Valid() && h <= history && from < |h| && Caught(h, from, pgid, childPid, [mid] + rest, pins, was, denied)
      requires forall u :: Pins(pins, was, u) ==> Pins(more, fds, u)
      requires mid == childPid
        || forall u :: Holds(h[|h| - 1], u, mid) && RunsAs(Now(), u) ==> u in missed || Pins(more, fds, u)
      ensures Caught(history, from, pgid, childPid, rest, more, fds, denied + missed)
    {
      forall u | Stays(history, from, u, pgid)
        ensures u in Now()
          && (Now()[u].pid == childPid || Now()[u].pid in rest || Pins(more, fds, u) || u in denied + missed)
      {
        SteadyBefore(h, from, u, pgid);
        assert h[|h| - 1] == history[|h| - 1];
        assert RunsAs(h[|h| - 1], u);
      }
    }

    lemma PinsKept(pins: seq<Pin>, was: map<Handle, Process>, more: seq<Pin>)
      requires pins <= more && forall f :: f in was ==> f in fds && fds[f] == was[f]
      ensures forall u :: Pins(pins, was, u) ==> Pins(more, fds, u)
    {
      forall u | Pins(pins, was, u) ensures Pins(more, fds, u) {
        var i :| 0 <= i < |pins| && pins[i].handle in was && was[pins[i].handle] == u;
        assert more[i].handle in fds;
      }
    }

    /** The state of the scan over the members listed: nothing leaked, pins safe, nobody lost. */
    ghost predicate Scanned(from: nat, known: map<Handle, Process>, pgid: nat, rest: seq<Pid>, pins: seq<Pin>,
                            leaderStart: int, denied: set<Process>)
      reads this`history, this`fds
    {
      && Open(pins, fds) && fds - HandlesOf(pins) == known
      && AllSafe(history, from, pins, fds, leaderStart)
      && Caught(history, from, pgid, childPid, rest, pins, fds, denied)
    }

    /** One turn of the scan. */
    method Consider(mid: Pid, leaderStart: int, pins: seq<Pin>, ghost from: nat, ghost known: map<Handle, Process>,
                    ghost pgid: nat, ghost rest: seq<Pid>, ghost denied: set<Process>)
      returns (ok: bool, more: seq<Pin>, ghost missed: set<Process>)
      requires Valid() && from < |history| && Scanned(from, known, pgid, [mid] + rest, pins, leaderStart, denied)
      modifies this`history, this`fds, this`refusals
      ensures Valid() && old(history) <= history && (ChildReaped() <==> old(ChildReaped()))
      ensures old(refusals) <= refusals && missed <= Hidden(refusals, |old(history)| - 1, |history| - 1)
      ensures ok ==> Scanned(from, known, pgid, rest, more, leaderStart, denied + missed)
      ensures !ok ==> more == pins && fds == old(fds)
      ensures PinsRefused() ==> ok && more == pins
      ensures !ok && Reliable() ==> Suspect(history, from, session, leaderStart)
    {
      ghost var h, was := history, fds;
      more, missed, ok := pins, {}, true;
      if mid != childPid {
        var r;
        r, missed := Examine(mid, leaderStart);
        AllSafeLater(h, from, pins, was, leaderStart);
        if r.Pinned? {
          more := pins + [Pin(mid, r.handle)];
          HandlesGrow(pins, Pin(mid, r.handle));
          MemberStays(history, from, |h| - 1, fds[r.handle], leaderStart);
          assert more[|pins|].handle == r.handle;
        }
        ok := !r.Unverified?;
        if !ok && Reliable() { SuspectLater(history, history, from, |h| - 1, session, leaderStart); }
      }
      if ok {
        PinsKept(pins, was, more);
        CaughtStep(h, from, pgid, mid, rest, pins, was, more, denied, missed);
      }
    }

    /** `_owned_group_members`. */
    method OwnedMembers(pgid: nat, sid: Option<nat>, leaderStart: Option<int>)
      returns (r: Members, ghost denied: set<Process>)
      requires Valid() && (sid.Some? ==> sid.value == session)
      modifies this`history, this`fds, this`refusals
      ensures Valid() && old(history) <= history && (ChildReaped() <==> old(ChildReaped()))
      ensures old(refusals) <= refusals && denied <= Hidden(refusals, |old(history)| - 1, |history| - 1)
      ensures r.Unverifiable? ==> fds == old(fds)
      ensures PinsRefused() && sid.Some? && leaderStart.Some? ==> r == Members([])
      ensures r.Unverifiable? && Reliable() ==> Excuse(history, |old(history)| - 1, session, pidfds, sid, leaderStart)
      ensures r.Members? ==>
        leaderStart.Some? && Scanned(|old(history)| - 1, old(fds), pgid, [], r.pins, leaderStart.value, denied)
    {
      ghost var from, known := |history| - 1, fds;
      denied := {};
      if !pidfds || sid.None? || leaderStart.None? { return Unverifiable, {}; }
      var members, unread := GroupPids(pgid);
      if members.None? {
        var probe := ProbeGroup(pgid);
        if probe != NoGroup { return Unverifiable, {}; }
        NobodyCaught(from, pgid);
        assert fds - HandlesOf([]) == known;
        return Members([]), {};
      }
      CoveredCaught(from, pgid, members.value, unread);
      assert fds - HandlesOf([]) == known;
      r, denied := Scan(members.value, leaderStart.value, from, pgid, unread);
    }

    /** Pins and validates every listed member, and closes all pins again if one cannot be verified. */
    method Scan(members: seq<Pid>, leaderStart: int, ghost from: nat, ghost pgid: nat, ghost unread: set<Process>)
      returns (r: Members, ghost denied: set<Process>)
      requires Valid() && from < |history| && Scanned(from, fds, pgid, members, [], leaderStart, unread)
      requires unread <= Hidden(refusals, from, |history| - 1)
      modifies this`history, this`fds, this`refusals
      ensures Valid() && old(history) <= history && (ChildReaped() <==> old(ChildReaped()))
      ensures old(refusals) <= refusals && denied <= Hidden(refusals, from, |history| - 1)
      ensures r.Unverifiable? ==> fds == old(fds)
      ensures PinsRefused() ==> r == Members([])
      ensures r.Unverifiable? && Reliable() ==> Suspect(history, from, session, leaderStart)
      ensures r.Members? ==> Scanned(from, old(fds), pgid, [], r.pins, leaderStart, denied)
    {
      var pins: seq<Pin> := [];
      var i := 0;
      denied := unread;
      assert members[0..] == members;
      while i < |members|
        invariant 0 <= i <= |members|
        invariant Valid() && old(history) <= history && (ChildReaped() <==> old(ChildReaped()))
        invariant old(refusals) <= refusals && denied <= Hidden(refusals, from, |history| - 1)
        invariant PinsRefused() ==> pins == []
        invariant Scanned(from, old(fds), pgid, members[i..], pins, leaderStart, denied)
      {
        ghost var h, before := history, refusals;
        assert members[i..] == [members[i]] + members[i + 1..];
        var ok, more, missed := Consider(members[i], leaderStart, pins, from, old(fds), pgid, members[i + 1..], denied);
        if !ok {
          ClosePinned(pins);
          return Unverifiable, {};
        }
        HiddenGrows(before, refusals, from, from, |h| - 1, |history| - 1);
        HiddenGrows(refusals, refusals, from, |h| - 1, |history| - 1, |history| - 1);
        pins, denied := more, denied + missed;
        i := i + 1;
      }
      return Members(pins), denied;
    }

    lemma NobodyCaught(from: nat, pgid: nat)
      requires Valid() && from < |history|
      requires forall u :: u in Now() && Now()[u].phase != Gone ==> Now()[u].group != pgid
      ensures Caught(history, from, pgid, childPid, [], [], fds, {})
    {
      forall u ensures !Stays(history, from, u, pgid) { NotSteady(from, u, pgid); }
    }

    lemma NotSteady(from: nat, u: Process, pgid: nat)
      requires Valid() && from < |history|
      requires RunsAs(Now(), u) ==> Now()[u].group != pgid
      ensures !Stays(history, from, u, pgid)
    {
      if Stays(history, from, u, pgid) { SteadyBefore(history, from, u, pgid); }
    }

    lemma CoveredCaught(from: nat, pgid: nat, members: seq<Pid>, denied: set<Process>)
      requires Covered(history, from, pgid, [], members, denied)
      ensures Caught(history, from, pgid, childPid, members, [], fds, denied)
    {
      forall u | Stays(history, from, u, pgid) ensures u in Now() && (Now()[u].pid in members || u in denied) {}
    }

    /** Signals every pin in turn. */
    method SendAll(pins: seq<Pin>, signal: Signal, ghost from: nat, leaderStart: int)
      returns (ghost denied: set<Process>)
      requires Valid() && from < |history| && Open(pins, fds)
        && AllSafe(history, from, pins, fds, leaderStart)
      modifies this`history, this`log, this`refusals
      ensures Valid() && old(history) <= history && (ChildReaped() <==> old(ChildReaped()))
      ensures old(refusals) <= refusals && denied <= Denied(refusals, |old(history)| - 1, |history| - 1)
      ensures pins == [] ==> log == old(log)
      ensures AllOf(log, |old(log)|, signal, |old(history)| - 1)
      ensures old(log) <= log && RightfulFrom(history, log, |old(log)|, from, session, Some(leaderStart), child)
      ensures forall u ::
        Pins(pins, fds, u) && RunsAs(Now(), u) ==> Signalled(log, |old(log)|, u, signal) || u in denied
    {
      denied := {};
      var i := 0;
      while i < |pins|
        invariant 0 <= i <= |pins|
        invariant Valid() && old(history) <= history && (ChildReaped() <==> old(ChildReaped()))
        invariant old(refusals) <= refusals && denied <= Denied(refusals, |old(history)| - 1, |history| - 1)
        invariant (i == 0 ==> log == old(log)) && AllOf(log, |old(log)|, signal, |old(history)| - 1)
        invariant AllSafe(history, from, pins, fds, leaderStart)
        invariant old(log) <= log && RightfulFrom(history, log, |old(log)|, from, session, Some(leaderStart), child)
        invariant forall u ::
          Pins(pins[..i], fds, u) && RunsAs(Now(), u) ==> Signalled(log, |old(log)|, u, signal) || u in denied
      {
        ghost var h, before, sentBefore := history, refusals, log;
        ghost var missed := SendOne(pins, i, signal, |old(log)|, from, leaderStart, denied);
        AllOfJoins(sentBefore, log, |old(log)|, signal, |old(history)| - 1, |h| - 1);
        DeniedGrows(before, refusals, |old(history)| - 1, |old(history)| - 1, |h| - 1, |history| - 1);
        DeniedGrows(refusals, refusals, |old(history)| - 1, |h| - 1, |history| - 1, |history| - 1);
        denied := denied + missed;
        i := i + 1;
      }
      assert pins[..|pins|] == pins;
    }

    method SendOne(pins: seq<Pin>, i: nat, signal: Signal, ghost n: nat, ghost from: nat, leaderStart: int,
                   ghost denied: set<Process>)
      returns (ghost missed: set<Process>)
      requires Valid() && i < |pins| && Open(pins, fds)
        && AllSafe(history, from, pins, fds, leaderStart)
      requires n <= |log| && RightfulFrom(history, log, n, from, session, Some(leaderStart), child)
      requires forall u :: Pins(pins[..i], fds, u) && RunsAs(Now(), u) ==> Signalled(log, n, u, signal) || u in denied
      modifies this`history, this`log, this`refusals
      ensures Valid() && old(history) <= history && (ChildReaped() <==> old(ChildReaped()))
      ensures old(refusals) <= refusals && missed <= Denied(refusals, |old(history)| - 1, |history| - 1)
      ensures AllSafe(history, from, pins, fds, leaderStart)
      ensures AllOf(log, |old(log)|, signal, |old(history)| - 1)
      ensures old(log) <= log && RightfulFrom(history, log, n, from, session, Some(leaderStart), child)
      ensures forall u ::
        Pins(pins[..i + 1], fds, u) && RunsAs(Now(), u) ==> Signalled(log, n, u, signal) || u in denied + missed
    {
      ghost var h, sentBefore := history, log;
      var sent;
      ghost var before := refusals;
      sent, missed := Send(pins[i].handle, signal);
      if missed != {} { assert refusals[|before|] == Refusal(fds[pins[i].handle], SendCall, |history| - 1); }
      AllSafeLater(h, from, pins, fds, leaderStart);
      RightfulLater(h, history, sentBefore, n, from, from, session, Some(leaderStart), child);
      if sent {
        RightfulMore(history, sentBefore, log, n, from, leaderStart);
      }
      forall u | Pins(pins[..i + 1], fds, u) && RunsAs(Now(), u)
        ensures Signalled(log, n, u, signal) || u in denied + missed {
        SentOrBefore(h, sentBefore, pins, i, n, signal, u);
      }
    }

    lemma RightfulMore(h: seq<Table>, was: seq<Delivery>, now: seq<Delivery>, n: nat, from: nat, leaderStart: int)
      requires |now| == |was| + 1 && was <= now && RightfulFrom(h, was, n, from, session, Some(leaderStart), child)
      requires Rightful(h, now[|was|], from, session, Some(leaderStart), child)
      ensures RightfulFrom(h, now, n, from, session, Some(leaderStart), child)
    {
    }

    lemma SentOrBefore(h: seq<Table>, was: seq<Delivery>, pins: seq<Pin>, i: nat, n: nat, signal: Signal, u: Process)
      requires Valid() && h != [] && h <= history && n <= |was| && was <= log && i < |pins| && pins[i].handle in fds
      requires Pins(pins[..i + 1], fds, u) && RunsAs(Now(), u) && (forall f :: f in fds ==> fds[f] in h[|h| - 1])
      ensures fds[pins[i].handle] == u || (Pins(pins[..i], fds, u) && RunsAs(h[|h| - 1], u))
      ensures Signalled(was, n, u, signal) ==> Signalled(log, n, u, signal)
    {
      assert Later(h[|h| - 1], Now());
      var j :| 0 <= j < i + 1 && pins[j].handle in fds && fds[pins[j].handle] == u;
      if j < i { assert pins[..i][j] == pins[j]; }
      if Signalled(was, n, u, signal) {
        var k :| n <= k < |was| && was[k].target == u && was[k].signal == signal && was[k].pinned;
        assert log[k] == was[k];
      }
    }

    /** A member was verified in an enumeration that began at this moment, and may have died since. */
    ghost predicate Found(from: nat, leaderStart: int) reads this`history {
      exists u :: Member(history, from, u, leaderStart)
    }

    lemma FoundStays(h: seq<Table>, from: nat, leaderStart: int)
      requires Valid() && h <= history && exists u :: Member(h, from, u, leaderStart)
      ensures Found(from, leaderStart)
    {
      var u :| Member(h, from, u, leaderStart);
      MemberStays(h, from, from, u, leaderStart);
    }

    /** Enumerate, signal every verified member, close every pin. */
    method Sweep(pgid: nat, sid: Option<nat>, leaderStart: Option<int>, signal: Signal)
      returns (r: Members, ghost upto: nat)
      requires Valid() && (sid.Some? ==> sid.value == session)
      modifies this`history, this`fds, this`log, this`refusals
      ensures Valid() && old(history) <= history && fds == old(fds) && (ChildReaped() <==> old(ChildReaped()))
      ensures old(refusals) <= refusals
      ensures old(log) <= log && RightfulFrom(history, log, |old(log)|, |old(history)| - 1, session, leaderStart, child)
      ensures r.Unverifiable? || r.pins == [] ==> log == old(log)
      ensures AllOf(log, |old(log)|, signal, |old(history)| - 1)
      ensures r.Members? && r.pins != [] ==> leaderStart.Some? && Found(|old(history)| - 1, leaderStart.value)
      ensures r.Unverifiable? && Reliable() ==> Excuse(history, |old(history)| - 1, session, pidfds, sid, leaderStart)
      ensures PinsRefused() && sid.Some? && leaderStart.Some? ==> r == Members([])
      ensures r.Members? ==>
        Reached(history, |old(history)| - 1, |history| - 1, pgid, childPid, log, |old(log)|, signal,
          Denied(refusals, |old(history)| - 1, |history| - 1))
      ensures r.Members? && r.pins == [] ==>
        Quiet(history, |old(history)| - 1, upto, pgid, childPid, Hidden(refusals, |old(history)| - 1, upto))
    {
      ghost var from := |history| - 1;
      ghost var denied;
      r, denied := OwnedMembers(pgid, sid, leaderStart);
      upto := |history| - 1;
      if r.Unverifiable? { return; }
      ghost var h, known := history, fds;
      SignalAndJudge(r.pins, pgid, signal, leaderStart.value, from, denied);
      if r.pins != [] {
        MemberStays(h, from, from, known[r.pins[0].handle], leaderStart.value);
      }
      ClosePinned(r.pins);
    }

    /** The signals after an enumeration, and what both together achieve. */
    method SignalAndJudge(pins: seq<Pin>, ghost pgid: nat, signal: Signal, leaderStart: int, ghost from: nat,
                          ghost denied: set<Process>)
      requires Valid() && from < |history| && Open(pins, fds)
        && AllSafe(history, from, pins, fds, leaderStart)
      requires Caught(history, from, pgid, childPid, [], pins, fds, denied)
        && denied <= Hidden(refusals, from, |history| - 1)
      modifies this`history, this`log, this`refusals
      ensures Valid() && old(history) <= history && (ChildReaped() <==> old(ChildReaped())) && old(refusals) <= refusals
      ensures old(log) <= log && RightfulFrom(history, log, |old(log)|, from, session, Some(leaderStart), child)
      ensures AllOf(log, |old(log)|, signal, |old(history)| - 1)
      ensures pins == [] ==>
        log == old(log)
        && Quiet(history, from, |old(history)| - 1, pgid, childPid, Hidden(refusals, from, |old(history)| - 1))
      ensures Reached(history, from, |history| - 1, pgid, childPid, log, |old(log)|, signal,
        Denied(refusals, from, |history| - 1))
    {
      ghost var h, before, n := history, refusals, |log|;
      ghost var missed := SendAll(pins, signal, from, leaderStart);
      HiddenGrows(before, refusals, from, from, |h| - 1, |h| - 1);
      DeniedGrows(before, refusals, from, from, |h| - 1, |history| - 1);
      DeniedGrows(refusals, refusals, from, |h| - 1, |history| - 1, |history| - 1);
      AllReached(h, from, pgid, pins, n, signal, denied, missed, Denied(refusals, from, |history| - 1));
      if pins == [] { QuietWhenEmpty(h, from, pgid, denied); }
    }

    lemma QuietWhenEmpty(h: seq<Table>, from: nat, pgid: nat, denied: set<Process>)
      requires from < |h| && h <= history && Caught(h, from, pgid, childPid, [], [], fds, denied)
        && denied <= Hidden(refusals, from, |h| - 1)
      ensures Quiet(history, from, |h| - 1, pgid, childPid, Hidden(refusals, from, |h| - 1))
    {
      QuietNow(h, from, pgid, denied);
      QuietLater(h, history, from, |h| - 1, pgid, childPid, denied);
      QuietMore(history, from, |h| - 1, pgid, denied, Hidden(refusals, from, |h| - 1));
    }

    lemma AllReached(h: seq<Table>, from: nat, pgid: nat, pins: seq<Pin>, n: nat, signal: Signal, denied: set<Process>,
                     missed: set<Process>, all: set<Process>)
      requires Valid() && h <= history && from < |h| && Caught(h, from, pgid, childPid, [], pins, fds, denied)
      requires forall u :: Pins(pins, fds, u) && RunsAs(Now(), u) ==> Signalled(log, n, u, signal) || u in missed
      requires denied <= all && missed <= all
      ensures Reached(history, from, |history| - 1, pgid, childPid, log, n, signal, all)
    {
      forall u | Stays(history, from, u, pgid)
        ensures u in Now() && (Now()[u].pid == childPid || Signalled(log, n, u, signal) || u in all)
      {
        SteadyBefore(h, from, u, pgid);
      }
    }

    lemma QuietNow(h: seq<Table>, from: nat, pgid: nat, denied: set<Process>)
      requires from < |h| && Caught(h, from, pgid, childPid, [], [], fds, denied)
      ensures Quiet(h, from, |h| - 1, pgid, childPid, denied)
    {
      forall u | Steady(h, from, |h| - 1, u, pgid)
        ensures u in h[|h| - 1] && (h[|h| - 1][u].pid == childPid || u in denied) {
        assert Stays(h, from, u, pgid);
      }
    }

    lemma QuietMore(h: seq<Table>, from: nat, upto: nat, pgid: nat, some: set<Process>, more: set<Process>)
      requires some <= more && Quiet(h, from, upto, pgid, childPid, some)
      ensures Quiet(h, from, upto, pgid, childPid, more)
    {
    }

    // The child, through its own handle.

    /** `Popen.poll`. */
    method Poll() returns (done: bool)
      requires Valid()
      modifies this`history
      ensures Valid() && old(history) <= history && |old(history)| < |history| && (old(ChildReaped()) ==> ChildReaped())
      ensures (done <==> ChildReaped()) && (done <==> !RunsAs(Now(), child))
      ensures ChildReaped() && !old(ChildReaped()) ==> !ReapedIn(history, |history| - 2)
    {
      Elapse();
      if Now()[child].phase == Zombie { Reap(); }
      done := ChildReaped();
    }

    method Reap()
      requires Valid() && Now()[child].phase == Zombie
      modifies this`history
      ensures Valid() && old(history) <= history && |history| == |old(history)| + 1 && ChildReaped()
    {
      var next := Now()[child := Now()[child].(phase := Gone)];
      assert Sane(Now(), session);
      TraceGrows(history, next, session, child);
      LinkedGrows(history, next, world, session, child);
      FoundedStays(next);
      history := history + [next];
    }

    /** `Popen.terminate` and `Popen.kill`: polls again, then signals by number; an unreaped child keeps its number. */
    method SignalChild(signal: Signal)
      requires Valid()
      modifies this`history, this`log
      ensures Valid() && old(history) <= history && (old(ChildReaped()) ==> ChildReaped())
      ensures old(log) <= log && RightfulFrom(history, log, |old(log)|, |old(history)| - 1, session, None, child)
      ensures ChildTold(history, log, |old(log)|, child, refuses, signal, |old(history)| - 1, |history| - 1)
      ensures AllOf(log, |old(log)|, signal, |old(history)| - 1)
    {
      var done := Poll();
      if done {
        assert NeedNotTell(history, child, refuses, |history| - 1);
        return;
      }
      Elapse();
      assert refuses(|history| - 1, KillCall) || !RunsAs(Now(), child) ==>
        NeedNotTell(history, child, refuses, |history| - 1);
      if !refuses(|history| - 1, KillCall) && exists u :: u in Now() && Holds(Now(), u, childPid) {
        var u :| u in Now() && Holds(Now(), u, childPid);
        assert Holds(Now(), child, childPid) && Sane(Now(), session);
        log := log + [Delivery(u, signal, |history| - 1, false)];
        assert log[|old(log)|].target == child;
      }
    }

    /** `Popen.wait` with a timeout: what its last look at the child shows, unless the call fails. */
    method Wait() returns (timedOut: bool)
      requires Valid()
      modifies this`history
      ensures Valid() && old(history) <= history && |old(history)| < |history| <= |old(history)| + 2
        && (old(ChildReaped()) ==> ChildReaped())
      ensures timedOut <==> !ChildReaped()
      ensures (ChildReaped() <==> Collected(history, |old(history)|))
        && (ChildReaped() || |history| == |old(history)| + 1)
    {
      Elapse();
      ghost var seen := history;
      if Now()[child].phase == Zombie && !refuses(|history| - 1, WaitCall) { Reap(); }
      timedOut := !ChildReaped();
      assert seen <= history && history[|seen| - 1] == seen[|seen| - 1];
    }

    /** The child is reaped already, or a wait at this moment reaps it. */
    ghost predicate Collected(h: seq<Table>, at: nat) {
      at < |h| && child in h[at]
        && (h[at][child].phase == Gone || (h[at][child].phase == Zombie && !refuses(at, WaitCall)))
    }

    method ReadClock() returns (now: nat)
      requires Valid()
      modifies this`clock, this`readings
      ensures Valid() && old(clock) <= clock == now && readings == old(readings) + [Reading(now, |history| - 1)]
    {
      var passed: int := *;
      if passed > 0 { clock := clock + passed; }
      now := clock;
      readings := readings + [Reading(now, |history| - 1)];
    }

    method Sleep()
      requires Valid()
      modifies this`clock, this`history
      ensures Valid() && old(history) <= history && (ChildReaped() <==> old(ChildReaped()))
      ensures old(clock) < clock
    {
      Elapse();
      var passed: int := *;
      clock := clock + if passed > 0 then passed else 1;
    }

    /** A look at the child and then, unless it has exited, at the clock. */
    method PollAndRead() returns (done: bool, now: nat)
      requires Valid()
      modifies this`clock, this`history, this`readings
      ensures Valid() && old(history) <= history && |old(history)| < |history| && (old(ChildReaped()) ==> ChildReaped())
      ensures old(clock) <= now == clock && (done <==> ChildReaped()) && (done <==> !RunsAs(Now(), child))
      ensures readings == if done then old(readings) else old(readings) + [Reading(now, |history| - 1)]
      ensures done ==> old(ChildReaped()) || !ReapedIn(history, |history| - 2)
    {
      done := Poll();
      now := clock;
      if !done { now := ReadClock(); }
    }

    /** Waits for the child until it is reaped or the grace period is over, and not a moment longer. */
    method Grace()
      requires Valid()
      modifies this`clock, this`history, this`readings
      ensures Valid() && old(history) <= history && |old(history)| < |history| && (old(ChildReaped()) ==> ChildReaped())
      ensures old(clock) <= clock && old(readings) <= readings
      ensures ChildReaped() ||
        (RunsAs(Now(), child) && Waited(readings, |old(readings)|, |old(history)| - 1, |history| - 1))
      ensures Brief(readings, |old(readings)|, |readings|)
      ensures ChildReaped() ==> old(ChildReaped()) || !ReapedIn(history, |history| - 2)
    {
      ghost var n := |readings|;
      var begin := ReadClock();
      var deadline := begin + TERM_GRACE;
      var done, now := PollAndRead();
      while !done && now < deadline
        invariant Valid() && old(history) <= history && |old(history)| < |history|
          && (old(ChildReaped()) ==> ChildReaped())
        invariant old(clock) <= now <= clock && old(readings) <= readings && (done <==> ChildReaped())
          && (done <==> !RunsAs(Now(), child))
        invariant |readings| > n && readings[n] == Reading(begin, |old(history)| - 1)
        invariant !done ==> |readings| > n + 1 && readings[|readings| - 1] == Reading(now, |history| - 1)
        invariant Brief(readings, n, |readings|)
        invariant done ==> old(ChildReaped()) || !ReapedIn(history, |history| - 2)
        decreases deadline - now
      {
        Sleep();
        done, now := PollAndRead();
      }
    }

    /** The child had been reaped by this moment. */
    ghost predicate ReapedIn(h: seq<Table>, k: int) { 0 <= k < |h| && child in h[k] && h[k][child].phase == Gone }

    /** Re-signals survivors until an enumeration finds none or the deadline passes. The ghost results say
        when the last enumeration took place; it was after the last signal. */
    method KillUntilQuiet(pgid: nat, sid: Option<nat>, leaderStart: Option<int>)
      returns (r: Outcome, ghost from: nat, ghost upto: nat, ghost ended: nat)
      requires Valid() && (sid.Some? ==> sid.value == session)
      modifies this`history, this`fds, this`log, this`clock, this`refusals, this`readings
      ensures Valid() && old(history) <= history && fds == old(fds) && (ChildReaped() <==> old(ChildReaped()))
      ensures old(refusals) <= refusals
      ensures old(log) <= log && RightfulFrom(history, log, |old(log)|, |old(history)| - 1, session, leaderStart, child)
      ensures r.Stopped? ==> |old(history)| - 1 <= from && SentBy(log, |old(log)|, from)
      ensures r.GroupUnverifiable? && Reliable() ==>
        Excuse(history, |old(history)| - 1, session, pidfds, sid, leaderStart)
      ensures r.MemberSurvived? ==>
        leaderStart.Some? && Found(from, leaderStart.value)
        && Waited(readings, |old(readings)|, |old(history)| - 1, |history| - 1)
      ensures old(readings) <= readings && Brief(readings, |old(readings)|, |readings|)
      ensures AllOf(log, |old(log)|, Kill, |old(history)| - 1)
      ensures !r.GroupUnverifiable? ==>
        |old(history)| - 1 <= from && ended == |history| - 1
        && GroupTold(history, log, refusals, |old(log)|, pgid, Kill, from, ended)
      ensures r.Stopped? ==> Quiet(history, from, upto, pgid, childPid, Hidden(refusals, from, upto))
      ensures PinsRefused() && sid.Some? && leaderStart.Some? ==> r.Stopped?
    {
      ghost var begin, n := |history| - 1, |log|;
      var start := ReadClock();
      var deadline := start + TERM_GRACE;
      from := begin;
      var members, now;
      members, upto, now := FirstSweep(pgid, sid, leaderStart, n, begin, |old(readings)|, start);
      while members.Members? && members.pins != [] && now < deadline
        invariant Valid() && old(history) <= history && fds == old(fds) && (ChildReaped() <==> old(ChildReaped()))
        invariant old(refusals) <= refusals && old(log) <= log && old(readings) <= readings
        invariant Swept(members, n, begin, from, upto, pgid, sid, leaderStart)
        invariant Timed(|old(readings)|, start, begin, now)
        decreases deadline - now
      {
        members, from, upto, now := SleepAndSweep(pgid, sid, leaderStart, n, begin, |old(readings)|, start, now);
      }
      ended := |history| - 1;
      r := if members.Unverifiable? then GroupUnverifiable else if members.pins == [] then Stopped else MemberSurvived;
    }

    /** The clock was read first at the start and last just now, and what it showed in between was in time. */
    ghost predicate Timed(rn: nat, start: nat, begin: nat, now: nat) reads this`history, this`readings, this`clock {
      && history != [] && rn + 1 < |readings| && readings[rn] == Reading(start, begin)
      && readings[|readings| - 1] == Reading(now, |history| - 1) && now <= clock && Brief(readings, rn, |readings|)
    }

    /** What the loop knows after each of its sweeps, the last of which began at `from`. */
    ghost predicate Swept(members: Members, n: nat, begin: nat, from: nat, upto: nat, pgid: nat, sid: Option<nat>,
                          leaderStart: Option<int>)
      reads this`history, this`log, this`refusals
    {
      && begin <= from && begin < |history| && n <= |log| && AllOf(log, n, Kill, begin)
      && RightfulFrom(history, log, n, begin, session, leaderStart, child)
      && Verdict(members, n, from, upto, pgid, sid, leaderStart)
      && (members.Unverifiable? && Reliable() ==> Excuse(history, begin, session, pidfds, sid, leaderStart))
    }

    method FirstSweep(pgid: nat, sid: Option<nat>, leaderStart: Option<int>, ghost n: nat, ghost begin: nat,
                      ghost rn: nat, ghost start: nat)
      returns (members: Members, ghost upto: nat, now: nat)
      requires Valid() && (sid.Some? ==> sid.value == session) && begin == |history| - 1 && n == |log|
      requires |readings| == rn + 1 && readings[rn] == Reading(start, begin) && start <= clock
      modifies this`history, this`fds, this`log, this`refusals, this`clock, this`readings
      ensures Valid() && old(history) <= history && fds == old(fds) && (ChildReaped() <==> old(ChildReaped()))
      ensures old(refusals) <= refusals && old(log) <= log && old(readings) <= readings
      ensures Swept(members, n, begin, begin, upto, pgid, sid, leaderStart) && Timed(rn, start, begin, now)
    {
      members, upto := SweepAgain(pgid, sid, leaderStart, n, begin);
      now := ReadClock();
    }

    method SleepAndSweep(pgid: nat, sid: Option<nat>, leaderStart: Option<int>, ghost n: nat, ghost begin: nat,
                         ghost rn: nat, ghost start: nat, ghost past: nat)
      returns (members: Members, ghost from: nat, ghost upto: nat, now: nat)
      requires Valid() && (sid.Some? ==> sid.value == session)
      requires begin < |history| && n <= |log| && RightfulFrom(history, log, n, begin, session, leaderStart, child)
      requires AllOf(log, n, Kill, begin) && Timed(rn, start, begin, past)
      requires past < start + TERM_GRACE
      modifies this`history, this`fds, this`log, this`refusals, this`clock, this`readings
      ensures Valid() && old(history) <= history && fds == old(fds) && (ChildReaped() <==> old(ChildReaped()))
      ensures old(refusals) <= refusals && old(log) <= log && old(readings) <= readings
      ensures Swept(members, n, begin, from, upto, pgid, sid, leaderStart)
      ensures Timed(rn, start, begin, now) && past < now
    {
      ghost var h, sent := history, log;
      Sleep();
      RightfulLater(h, history, log, n, begin, begin, session, leaderStart, child);
      from := |history| - 1;
      members, upto := SweepAgain(pgid, sid, leaderStart, n, begin);
      AllOfJoins(sent, log, n, Kill, begin, from);
      now := ReadClock();
    }

    /** What an enumeration that found nobody means, and what one that found somebody; every member that stayed
        was signalled, and when every pin is refused nobody is found. */
    ghost predicate Verdict(members: Members, n: nat, from: nat, upto: nat, pgid: nat, sid: Option<nat>,
                            leaderStart: Option<int>)
      reads this`history, this`log, this`refusals
    {
      && (members.Members? && members.pins == [] ==>
        SentBy(log, n, from) && Quiet(history, from, upto, pgid, childPid, Hidden(refusals, from, upto)))
      && (members.Members? && members.pins != [] ==> leaderStart.Some? && Found(from, leaderStart.value))
      && (members.Members? ==> GroupTold(history, log, refusals, n, pgid, Kill, from, |history| - 1))
      && (PinsRefused() && sid.Some? && leaderStart.Some? ==> members == Members([]))
    }

    /** A later sweep, seen from the start of the loop. */
    method SweepAgain(pgid: nat, sid: Option<nat>, leaderStart: Option<int>, ghost n: nat, ghost begin: nat)
      returns (members: Members, ghost upto: nat)
      requires Valid() && (sid.Some? ==> sid.value == session)
      requires begin < |history| && n <= |log| && RightfulFrom(history, log, n, begin, session, leaderStart, child)
      modifies this`history, this`fds, this`log, this`refusals
      ensures Valid() && old(history) <= history && fds == old(fds) && (ChildReaped() <==> old(ChildReaped()))
      ensures old(refusals) <= refusals && old(log) <= log
        && RightfulFrom(history, log, n, begin, session, leaderStart, child)
      ensures members.Unverifiable? && Reliable() ==> Excuse(history, begin, session, pidfds, sid, leaderStart)
      ensures Verdict(members, n, |old(history)| - 1, upto, pgid, sid, leaderStart)
      ensures members.Members? ==> GroupTold(history, log, refusals, n, pgid, Kill, |old(history)| - 1, |history| - 1)
      ensures AllOf(log, |old(log)|, Kill, |old(history)| - 1)
    {
      ghost var h, sent := history, log;
      members, upto := Sweep(pgid, sid, leaderStart, Kill);
      if members.Members? { GroupToldStays(history, log, refusals, |sent|, n, pgid, Kill, |h| - 1, |history| - 1); }
      JoinRightful(h, sent, n, begin, |h| - 1, leaderStart);
      SentSoFar(h, sent, n, begin, leaderStart);
      if members.Unverifiable? && Reliable() {
        ExcuseLater(history, history, begin, |h| - 1, session, pidfds, sid, leaderStart);
      }
    }

    lemma SentSoFar(h: seq<Table>, log: seq<Delivery>, n: nat, from: nat, leaderStart: Option<int>)
      requires h != [] && RightfulFrom(h, log, n, from, session, leaderStart, child)
      ensures SentBy(log, n, |h| - 1)
    {
      forall i | n <= i < |log| ensures log[i].at <= |h| - 1 {
        assert Rightful(h, log[i], from, session, leaderStart, child);
      }
    }

    lemma JoinRightful(h: seq<Table>, was: seq<Delivery>, n: nat, begin: nat, from: nat, leaderStart: Option<int>)
      requires h <= history && was <= log && n <= |was| && begin <= from
      requires RightfulFrom(h, was, n, begin, session, leaderStart, child)
      requires RightfulFrom(history, log, |was|, from, session, leaderStart, child)
      ensures RightfulFrom(history, log, n, begin, session, leaderStart, child)
    {
      RightfulLater(h, history, was, n, begin, begin, session, leaderStart, child);
      RightfulLater(history, history, log, |was|, from, begin, session, leaderStart, child);
      forall i | n <= i < |log| ensures Rightful(history, log[i], begin, session, leaderStart, child) {
        if i < |was| { assert Rightful(history, was[i], begin, session, leaderStart, child); }
      }
    }

    /** Every member that stayed throughout was sent the signal, or a call on it was refused meanwhile. */
    ghost predicate GroupTold(h: seq<Table>, log: seq<Delivery>, rs: seq<Refusal>, n: nat, pgid: nat, signal: Signal,
                              from: nat, upto: nat) {
      Reached(h, from, upto, pgid, childPid, log, n, signal, Denied(rs, from, upto))
    }

    lemma GroupToldStays(h: seq<Table>, log: seq<Delivery>, rs: seq<Refusal>, n: nat, m: nat, pgid: nat, signal: Signal,
                         from: nat, upto: nat)
      requires h <= history && log <= this.log && rs <= refusals && m <= n
        && GroupTold(h, log, rs, n, pgid, signal, from, upto)
      ensures GroupTold(history, this.log, refusals, m, pgid, signal, from, upto)
    {
      DeniedGrows(rs, refusals, from, from, upto, upto);
      ReachedLater(h, history, from, upto, pgid, childPid, log, this.log, n, m, signal, Denied(rs, from, upto),
        Denied(refusals, from, upto));
    }

    /** The polite half: the child first, then the group. */
    ghost predicate Asked(h: seq<Table>, log: seq<Delivery>, rs: seq<Refusal>, c: Course, begin: nat, n: nat,
                          pgid: Option<nat>) {
      && begin < c.told <= c.swept < |h| && ChildTold(h, log, n, child, refuses, Term, begin, c.told)
      && (pgid.Some? ==> GroupTold(h, log, rs, n, pgid.value, Term, c.told, c.swept))
    }

    /** The hard half: the child after the grace period, then the group after waiting for the child. */
    ghost predicate Killed(h: seq<Table>, log: seq<Delivery>, rs: seq<Refusal>, c: Course, n: nat, pgid: Option<nat>) {
      && c.swept <= c.graced < c.killed <= c.waited <= c.cleared < |h|
        && ChildTold(h, log, n, child, refuses, Kill, c.graced, c.killed)
      && c.killed < c.waited && (ReapedIn(h, c.waited) <==> Collected(h, c.killed + 1))
      && (pgid.Some? ==>
        c.cleared <= c.again <= c.ended < |h|
          && GroupTold(h, log, rs, n, pgid.value, Kill, c.waited, c.cleared)
          && GroupTold(h, log, rs, n, pgid.value, Kill, c.again, c.ended))
    }

    /** Nothing is killed before the grace period is over. It ends with the child reaped, and then at once, or with
        the child still running and a grace period between two readings of the clock, and then at the first reading
        that shows it. */
    ghost predicate Patient(h: seq<Table>, log: seq<Delivery>, readings: seq<Reading>, c: Course, n: nat, rn: nat) {
      && c.swept < c.graced < |h| && KillsAfter(log, n, c.graced) && Brief(readings, rn, c.read)
      && (ReapedIn(h, c.graced) || (RunsAs(h[c.graced], child) && Waited(readings[..c.read], rn, c.swept, c.graced)))
      && (ReapedIn(h, c.graced) ==> ReapedIn(h, c.swept) || !ReapedIn(h, c.graced - 1))
    }

    lemma PatientStays(h: seq<Table>, was: seq<Delivery>, rs: seq<Reading>, c: Course, n: nat, rn: nat)
      requires h != [] && h <= history && was <= log && rs <= readings && n <= |was| && AllOf(log, |was|, Kill, |h| - 1)
      requires Patient(h, was, rs, c, n, rn)
      ensures Patient(history, log, readings, c, n, rn)
    {
      KillsJoin(was, log, n, c.graced, |h| - 1);
      assert readings[..c.read] == rs[..c.read];
    }

    /** This delivery is a numeric hard signal to the child, unreaped then and a grace period after this moment. */
    ghost predicate LateKill(d: Delivery, swept: nat, rn: nat) reads this`history, this`readings {
      d.target == child && !ReapedIn(history, d.at) && Waited(readings, rn, swept, d.at)
    }

    /** Such signals come only when the grace period is over and the child still runs. */
    lemma KillIsPatient(c: Course, n: nat, rn: nat, begin: nat, leaderStart: Option<int>, i: nat)
      requires Valid() && Patient(history, log, readings, c, n, rn) && n <= i < |log|
      requires RightfulFrom(history, log, n, begin, session, leaderStart, child)
      requires log[i].signal == Kill && !log[i].pinned
      ensures LateKill(log[i], c.swept, rn) && c.graced < log[i].at && RunsAs(history[c.graced], child)
    {
      assert Rightful(history, log[i], begin, session, leaderStart, child);
      assert Later(history[c.graced], history[log[i].at]);
      WaitedLater(readings[..c.read], readings, rn, rn, c.swept, c.swept, c.graced);
      var a, b :| rn <= a < b < |readings| && c.swept <= readings[a].at && readings[b].at <= c.graced
        && readings[a].time + TERM_GRACE <= readings[b].time;
      assert readings[b].at <= log[i].at;
    }

    lemma AskedStays(h: seq<Table>, log: seq<Delivery>, rs: seq<Refusal>, c: Course, begin: nat, n: nat,
                     pgid: Option<nat>)
      requires h <= history && log <= this.log && rs <= refusals && Asked(h, log, rs, c, begin, n, pgid)
      ensures Asked(history, this.log, refusals, c, begin, n, pgid)
    {
      ChildToldLater(h, history, log, this.log, n, n, child, refuses, Term, begin, c.told);
      if pgid.Some? { GroupToldStays(h, log, rs, n, n, pgid.value, Term, c.told, c.swept); }
    }

    lemma KilledStays(h: seq<Table>, log: seq<Delivery>, rs: seq<Refusal>, c: Course, n: nat, pgid: Option<nat>)
      requires h <= history && log <= this.log && rs <= refusals && Killed(h, log, rs, c, n, pgid)
      ensures Killed(history, this.log, refusals, c, n, pgid)
    {
      ChildToldLater(h, history, log, this.log, n, n, child, refuses, Kill, c.graced, c.killed);
      if pgid.Some? {
        GroupToldStays(h, log, rs, n, n, pgid.value, Kill, c.waited, c.cleared);
        GroupToldStays(h, log, rs, n, n, pgid.value, Kill, c.again, c.ended);
      }
    }

    /** The order of a stop: either it ended before the clock was read and anything was killed, or it asked first and
        was patient, and then
        killed the child and, unless the group was unverifiable, everyone in it. */
    ghost predicate Ordered(r: Outcome, c: Course, begin: nat, n: nat, rn: nat, pgid: Option<nat>)
      reads this`history, this`log, this`refusals, this`readings
    {
      if r.GroupUnverifiable? && |readings| == rn then OnlyTerm(log, n)
      else
        Asked(history, log, refusals, c, begin, n, pgid) && Patient(history, log, readings, c, n, rn)
          && Killed(history, log, refusals, c, n, if r.GroupUnverifiable? then None else pgid)
    }

    lemma OrderedStays(h: seq<Table>, r: Outcome, c: Course, begin: nat, n: nat, rn: nat, pgid: Option<nat>)
      requires h != [] && h <= history && n <= |log| && !(r.GroupUnverifiable? && |readings| == rn)
      requires Asked(h, log, refusals, c, begin, n, pgid) && Patient(h, log, readings, c, n, rn)
        && Killed(h, log, refusals, c, n, if r.GroupUnverifiable? then None else pgid)
      ensures Ordered(r, c, begin, n, rn, pgid)
    {
      AskedStays(h, log, refusals, c, begin, n, pgid);
      KilledStays(h, log, refusals, c, n, if r.GroupUnverifiable? then None else pgid);
      PatientStays(h, log, readings, c, n, rn);
    }

    /** So are all numeric hard signals. */
    ghost predicate AllLate(n: nat, swept: nat, rn: nat) reads this`history, this`readings, this`log {
      forall i :: n <= i < |log| && log[i].signal == Kill && !log[i].pinned ==> LateKill(log[i], swept, rn)
    }

    lemma KillsAreLate(r: Outcome, c: Course, n: nat, rn: nat, begin: nat, leaderStart: Option<int>, pgid: Option<nat>)
      requires Valid() && RightfulFrom(history, log, n, begin, session, leaderStart, child)
      requires Ordered(r, c, begin, n, rn, pgid)
      ensures AllLate(n, c.swept, rn)
    {
      forall i | n <= i < |log| && log[i].signal == Kill && !log[i].pinned ensures LateKill(log[i], c.swept, rn) {
        KillIsPatient(c, n, rn, begin, leaderStart, i);
      }
    }

    /** `_stop_owned`. Every signal is rightful and every descriptor is closed whatever the outcome, and the child is
        killed by number only when it outlived the grace period. Unless the group is unverifiable, the child and
        every member that stayed were sent both signals, or a call was refused. A quiet return means that an
        enumeration after the last signal found nobody but processes the kernel hid by refusing a call. The child is
        reaped exactly when it had exited at the last look. */
    method StopOwned(pgid: Option<nat>, sid: Option<nat>, leaderStart: Option<int>)
      returns (r: Outcome, ghost from: nat, ghost upto: nat, ghost course: Course, ghost last: nat)
      requires Valid() && (sid.Some? ==> sid.value == session)
      modifies this`history, this`fds, this`log, this`clock, this`refusals, this`readings
      ensures Valid() && old(history) <= history && fds == old(fds) && old(refusals) <= refusals
      ensures old(log) <= log && RightfulFrom(history, log, |old(log)|, |old(history)| - 1, session, leaderStart, child)
      ensures old(readings) <= readings
      ensures Ordered(r, course, |old(history)| - 1, |old(log)|, |old(readings)|, pgid)
      ensures AllLate(|old(log)|, course.swept, |old(readings)|)
      ensures !r.GroupUnverifiable? ==> Resignalled(r, course, from, pgid, leaderStart)
      ensures r.Stopped? && pgid.Some? ==> |old(history)| - 1 <= from && SentBy(log, |old(log)|, from)
      ensures r.Stopped? && pgid.Some? ==>
        Quiet(history, from, upto, pgid.value, childPid, Hidden(refusals, from, upto))
      ensures Reliable() && r.Stopped? && pgid.Some? ==> Quiet(history, from, upto, pgid.value, childPid, {})
      ensures PinsRefused() && sid.Some? && leaderStart.Some? ==> r.Stopped?
      ensures r.GroupUnverifiable? && Reliable() ==>
        Excuse(history, |old(history)| - 1, session, pidfds, sid, leaderStart)
      ensures pgid.None? ==> r.Stopped?
      ensures (ChildReaped() <==> Collected(history, last)) && |old(history)| <= last < |history| <= last + 2
      ensures Reliable() ==> (ChildReaped() <==> exists k: nat :: ExitedAt(k))
    {
      ghost var begin, n := |history| - 1, |log|;
      r, from, upto, course := BothPhases(pgid, sid, leaderStart);
      last := LastWait(n, begin, pgid, sid, leaderStart, course, from, upto, r, |old(readings)|);
      if Reliable() { NobodyHidden(from, upto); }
      KillsAreLate(r, course, n, |old(readings)|, begin, leaderStart, pgid);
    }

    /** All but the final wait. */
    method BothPhases(pgid: Option<nat>, sid: Option<nat>, leaderStart: Option<int>)
      returns (r: Outcome, ghost from: nat, ghost upto: nat, ghost course: Course)
      requires Valid() && (sid.Some? ==> sid.value == session)
      modifies this`history, this`fds, this`log, this`clock, this`refusals, this`readings
      ensures Valid() && old(history) <= history && fds == old(fds) && old(refusals) <= refusals
      ensures old(log) <= log && RightfulFrom(history, log, |old(log)|, |old(history)| - 1, session, leaderStart, child)
      ensures old(readings) <= readings
      ensures Ordered(r, course, |old(history)| - 1, |old(log)|, |old(readings)|, pgid)
      ensures !r.GroupUnverifiable? ==> Resignalled(r, course, from, pgid, leaderStart)
      ensures r.Stopped? && pgid.Some? ==> |old(history)| - 1 <= from && SentBy(log, |old(log)|, from)
      ensures r.Stopped? && pgid.Some? ==>
        Quiet(history, from, upto, pgid.value, childPid, Hidden(refusals, from, upto))
      ensures PinsRefused() && sid.Some? && leaderStart.Some? ==> r.Stopped?
      ensures r.GroupUnverifiable? && Reliable() ==>
        Excuse(history, |old(history)| - 1, session, pidfds, sid, leaderStart)
      ensures pgid.None? ==> r.Stopped?
    {
      from, upto := |history| - 1, |history| - 1;
      r, course := TermPhase(pgid, sid, leaderStart);
      if r.Stopped? {
        r, from, upto, course := KillPhase(pgid, sid, leaderStart, |old(log)|, |old(history)| - 1, course);
      }
    }

    /** The wait that ends every stop. */
    method LastWait(ghost n: nat, ghost begin: nat, ghost pgid: Option<nat>, ghost sid: Option<nat>,
                    ghost leaderStart: Option<int>, ghost course: Course, ghost from: nat, ghost upto: nat,
                    ghost r: Outcome, ghost rn: nat)
      returns (ghost last: nat)
      requires Valid() && begin < |history| && n <= |log|
        && RightfulFrom(history, log, n, begin, session, leaderStart, child)
      requires Ordered(r, course, begin, n, rn, pgid)
        && (!r.GroupUnverifiable? ==> Resignalled(r, course, from, pgid, leaderStart))
      requires (r.GroupUnverifiable? && Reliable() ==> Excuse(history, begin, session, pidfds, sid, leaderStart))
      requires r.Stopped? && pgid.Some? ==>
        Quiet(history, from, upto, pgid.value, childPid, Hidden(refusals, from, upto))
      modifies this`history
      ensures Valid() && old(history) <= history && RightfulFrom(history, log, n, begin, session, leaderStart, child)
      ensures Ordered(r, course, begin, n, rn, pgid)
        && (!r.GroupUnverifiable? ==> Resignalled(r, course, from, pgid, leaderStart))
      ensures (ChildReaped() <==> Collected(history, last)) && |old(history)| == last < |history| <= last + 2
      ensures (r.GroupUnverifiable? && Reliable() ==> Excuse(history, begin, session, pidfds, sid, leaderStart))
      ensures r.Stopped? && pgid.Some? ==>
        Quiet(history, from, upto, pgid.value, childPid, Hidden(refusals, from, upto))
      ensures Reliable() ==> (ChildReaped() <==> exists k: nat :: ExitedAt(k))
    {
      ghost var h := history;
      last := |history|;
      var _ := Wait();
      RightfulLater(h, history, log, n, begin, begin, session, leaderStart, child);
      if !(r.GroupUnverifiable? && |readings| == rn) { OrderedStays(h, r, course, begin, n, rn, pgid); }
      if r.MemberSurvived? {
        FoundStays(h, course.again, leaderStart.value);
        WaitedLater(readings, readings, course.read, course.read, course.cleared, course.cleared, |history| - 1);
      }
      if r.GroupUnverifiable? && Reliable() {
        ExcuseLater(h, history, begin, begin, session, pidfds, sid, leaderStart);
      }
      if r.Stopped? && pgid.Some? {
        QuietLater(h, history, from, upto, pgid.value, childPid, Hidden(refusals, from, upto));
      }
      if Reliable() { ReapedIfExited(last); }
    }

    /** The child was no longer running at this moment. */
    ghost predicate ExitedAt(k: nat) reads this`history {
      k < |history| && child in history[k] && history[k][child].phase != Running
    }

    lemma ReapedIfExited(last: nat)
      requires Valid() && Reliable() && last < |history| && (ChildReaped() <==> Collected(history, last))
        && (ChildReaped() || last == |history| - 1)
      ensures ChildReaped() <==> exists k: nat :: ExitedAt(k)
    {
      assert ChildReaped() ==> ExitedAt(|history| - 1);
      forall k: nat | ExitedAt(k) ensures ChildReaped() {
        if k <= last { assert Later(history[k], history[last]); }
        assert Later(history[last], Now()) && Later(history[k], Now());
      }
    }

    /** Where no call is refused nobody is hidden. */
    lemma NobodyHidden(from: nat, upto: nat)
      requires Valid() && Reliable()
      ensures Hidden(refusals, from, upto) == {}
    {
      if |refusals| > 0 { var was := Founded(refusals[0], history); }
    }

    /** Up to and including the polite signal to the group. */
    method TermPhase(pgid: Option<nat>, sid: Option<nat>, leaderStart: Option<int>)
      returns (r: Outcome, ghost course: Course)
      requires Valid() && (sid.Some? ==> sid.value == session)
      modifies this`history, this`fds, this`log, this`refusals
      ensures Valid() && old(history) <= history && fds == old(fds) && old(refusals) <= refusals
      ensures old(log) <= log && RightfulFrom(history, log, |old(log)|, |old(history)| - 1, session, leaderStart, child)
      ensures r.GroupUnverifiable? && Reliable() ==>
        Excuse(history, |old(history)| - 1, session, pidfds, sid, leaderStart)
      ensures r.Stopped? ==>
        Asked(history, log, refusals, course, |old(history)| - 1, |old(log)|, pgid) && course.swept == |history| - 1
      ensures PinsRefused() && sid.Some? && leaderStart.Some? ==> r.Stopped?
      ensures !r.MemberSurvived? && (pgid.None? ==> r.Stopped?)
      ensures OnlyTerm(log, |old(log)|)
    {
      ghost var begin, n := |history| - 1, |log|;
      r := Stopped;
      TellChild(Term, leaderStart, n, begin);
      ghost var told := |history| - 1;
      if pgid.Some? {
        var members := TermSweep(pgid.value, sid, leaderStart, n, begin);
        if members.Unverifiable? { r := GroupUnverifiable; }
      }
      course := Course(told, |history| - 1, 0, 0, 0, 0, 0, 0, 0);
    }

    /** The polite signal to the group, after the one to the child. */
    method TermSweep(pgid: nat, sid: Option<nat>, leaderStart: Option<int>, ghost n: nat, ghost begin: nat)
      returns (members: Members)
      requires Valid() && (sid.Some? ==> sid.value == session) && begin < |history| - 1 && n <= |log|
      requires RightfulFrom(history, log, n, begin, session, leaderStart, child)
      requires ChildTold(history, log, n, child, refuses, Term, begin, |history| - 1)
      modifies this`history, this`fds, this`log, this`refusals
      ensures Valid() && old(history) <= history && fds == old(fds) && old(refusals) <= refusals
      ensures old(log) <= log && RightfulFrom(history, log, n, begin, session, leaderStart, child)
      ensures members.Unverifiable? && Reliable() ==> Excuse(history, begin, session, pidfds, sid, leaderStart)
      ensures ChildTold(history, log, n, child, refuses, Term, begin, |old(history)| - 1)
      ensures members.Members? ==> GroupTold(history, log, refusals, n, pgid, Term, |old(history)| - 1, |history| - 1)
      ensures PinsRefused() && sid.Some? && leaderStart.Some? ==> members.Members?
      ensures AllOf(log, |old(log)|, Term, |old(history)| - 1)
    {
      ghost var h, sent := history, log;
      ghost var upto;
      members, upto := Sweep(pgid, sid, leaderStart, Term);
      JoinRightful(h, sent, n, begin, |h| - 1, leaderStart);
      ChildToldLater(h, history, sent, log, n, n, child, refuses, Term, begin, |h| - 1);
      if members.Members? { GroupToldStays(history, log, refusals, |sent|, n, pgid, Term, |h| - 1, |history| - 1); }
      if members.Unverifiable? && Reliable() {
        ExcuseLater(history, history, begin, |h| - 1, session, pidfds, sid, leaderStart);
      }
    }

    /** The child is signalled unless a poll finds that it has exited. */
    method TellChild(signal: Signal, ghost leaderStart: Option<int>, ghost n: nat, ghost begin: nat)
      requires Valid() && begin < |history| && n <= |log|
        && RightfulFrom(history, log, n, begin, session, leaderStart, child)
      modifies this`history, this`log
      ensures Valid() && old(history) <= history && (old(ChildReaped()) ==> ChildReaped())
      ensures old(log) <= log && RightfulFrom(history, log, n, begin, session, leaderStart, child)
      ensures ChildTold(history, log, n, child, refuses, signal, |old(history)| - 1, |history| - 1)
      ensures AllOf(log, |old(log)|, signal, |old(history)| - 1)
    {
      ghost var h := history;
      var done := Poll();
      RightfulLater(h, history, log, n, begin, begin, session, leaderStart, child);
      if done {
        assert NeedNotTell(history, child, refuses, |history| - 1);
      } else {
        ghost var polled := |history| - 1;
        SignalTheChild(signal, leaderStart, n, begin);
        ToldSince(n, signal, |h| - 1, polled, |history| - 1);
      }
    }

    lemma ToldSince(n: nat, signal: Signal, from: nat, polled: nat, upto: nat)
      requires from <= polled && ChildTold(history, log, n, child, refuses, signal, polled, upto)
      ensures ChildTold(history, log, n, child, refuses, signal, from, upto)
    {
    }

    /** A numeric signal to the child after others already logged. */
    method SignalTheChild(signal: Signal, ghost leaderStart: Option<int>, ghost n: nat, ghost begin: nat)
      requires Valid() && begin < |history| && n <= |log|
        && RightfulFrom(history, log, n, begin, session, leaderStart, child)
      modifies this`history, this`log
      ensures Valid() && old(history) <= history && (old(ChildReaped()) ==> ChildReaped())
      ensures old(log) <= log && RightfulFrom(history, log, n, begin, session, leaderStart, child)
      ensures ChildTold(history, log, n, child, refuses, signal, |old(history)| - 1, |history| - 1)
      ensures AllOf(log, |old(log)|, signal, |old(history)| - 1)
    {
      ghost var h, sent := history, log;
      SignalChild(signal);
      ChildToldLater(history, history, log, log, |sent|, n, child, refuses, signal, |h| - 1, |history| - 1);
      NumericIsRightful(|sent|, |h| - 1, leaderStart);
      JoinRightful(h, sent, n, begin, |h| - 1, leaderStart);
    }

    lemma NumericIsRightful(n: nat, from: nat, leaderStart: Option<int>)
      requires RightfulFrom(history, log, n, from, session, None, child)
      ensures RightfulFrom(history, log, n, from, session, leaderStart, child)
    {
      forall i | n <= i < |log| ensures Rightful(history, log[i], from, session, leaderStart, child) {
        assert Rightful(history, log[i], from, session, None, child);
      }
    }

    /** The grace period, the hard kill of the child, and of the group until it is quiet. */
    method KillPhase(pgid: Option<nat>, sid: Option<nat>, leaderStart: Option<int>, ghost n: nat, ghost begin: nat,
                     ghost asked: Course)
      returns (r: Outcome, ghost from: nat, ghost upto: nat, ghost course: Course)
      requires Valid() && (sid.Some? ==> sid.value == session) && Asked(history, log, refusals, asked, begin, n, pgid)
      requires OnlyTerm(log, n) && asked.swept == |history| - 1
      requires begin < |history| && n <= |log| && RightfulFrom(history, log, n, begin, session, leaderStart, child)
      modifies this`history, this`fds, this`log, this`clock, this`refusals, this`readings
      ensures Valid() && old(history) <= history && fds == old(fds) && old(refusals) <= refusals
      ensures old(log) <= log && RightfulFrom(history, log, n, begin, session, leaderStart, child)
      ensures Asked(history, log, refusals, course, begin, n, pgid) && Killed(history, log, refusals, course, n, None)
      ensures old(readings) <= readings && Patient(history, log, readings, course, n, |old(readings)|)
      ensures !r.GroupUnverifiable? ==> Killed(history, log, refusals, course, n, pgid)
      ensures Resignalled(r, course, from, pgid, leaderStart)
      ensures r.Stopped? && pgid.Some? ==> begin <= from && SentBy(log, n, from)
      ensures r.Stopped? && pgid.Some? ==>
        Quiet(history, from, upto, pgid.value, childPid, Hidden(refusals, from, upto))
      ensures PinsRefused() && sid.Some? && leaderStart.Some? ==> r.Stopped?
      ensures r.GroupUnverifiable? && Reliable() ==> Excuse(history, begin, session, pidfds, sid, leaderStart)
      ensures pgid.None? ==> r.Stopped?
    {
      from, upto, r := begin, begin, Stopped;
      course := KillChild(leaderStart, n, begin, pgid, asked);
      if pgid.Some? {
        r, from, upto, course := HardSweep(pgid.value, sid, leaderStart, n, begin, course, |old(readings)|);
      }
    }

    /** The grace period, the hard kill of the child and the wait for it. */
    method KillChild(ghost leaderStart: Option<int>, ghost n: nat, ghost begin: nat, ghost pgid: Option<nat>,
                     ghost asked: Course)
      returns (ghost course: Course)
      requires Valid() && Asked(history, log, refusals, asked, begin, n, pgid) && OnlyTerm(log, n)
        && asked.swept == |history| - 1
      requires begin < |history| && n <= |log| && RightfulFrom(history, log, n, begin, session, leaderStart, child)
      modifies this`history, this`log, this`clock, this`readings
      ensures Valid() && old(history) <= history && old(clock) <= clock
      ensures old(log) <= log && RightfulFrom(history, log, n, begin, session, leaderStart, child)
      ensures old(readings) <= readings && course.read == |readings| && course.waited == course.cleared == |history| - 1
      ensures Asked(history, log, refusals, course, begin, n, pgid) && Killed(history, log, refusals, course, n, None)
      ensures Patient(history, log, readings, course, n, |old(readings)|)
    {
      course := AwaitAndKill(leaderStart, n, begin, pgid, asked);
      ghost var h := history;
      var _ := Wait();
      course := course.(waited := |history| - 1, cleared := |history| - 1);
      RightfulLater(h, history, log, n, begin, begin, session, leaderStart, child);
      ChildToldLater(h, history, log, log, n, n, child, refuses, Kill, course.graced, course.killed);
      PatientStays(h, log, readings, course, n, |old(readings)|);
      AskedStays(h, log, refusals, course, begin, n, pgid);
    }

    /** The grace period and the signal to a child that outlived it. */
    method AwaitAndKill(ghost leaderStart: Option<int>, ghost n: nat, ghost begin: nat, ghost pgid: Option<nat>,
                        ghost asked: Course)
      returns (ghost course: Course)
      requires Valid() && Asked(history, log, refusals, asked, begin, n, pgid) && OnlyTerm(log, n)
        && asked.swept == |history| - 1
      requires begin < |history| && n <= |log| && RightfulFrom(history, log, n, begin, session, leaderStart, child)
      modifies this`history, this`log, this`clock, this`readings
      ensures Valid() && old(history) <= history && old(clock) <= clock && old(readings) <= readings
        && course.read == |readings|
      ensures old(log) <= log && RightfulFrom(history, log, n, begin, session, leaderStart, child)
      ensures course == asked.(graced := course.graced, read := course.read, killed := |history| - 1)
      ensures Asked(history, log, refusals, course, begin, n, pgid)
      ensures ChildTold(history, log, n, child, refuses, Kill, course.graced, course.killed)
      ensures Patient(history, log, readings, course, n, |old(readings)|)
    {
      ghost var h, sent := history, log;
      Grace();
      RightfulLater(h, history, log, n, begin, begin, session, leaderStart, child);
      course := asked.(graced := |history| - 1, read := |readings|);
      assert readings[..course.read] == readings;
      assert Patient(history, log, readings, course, n, |old(readings)|);
      ghost var graced := history;
      TellChild(Kill, leaderStart, n, begin);
      course := course.(killed := |history| - 1);
      PatientStays(graced, sent, readings, course, n, |old(readings)|);
      AskedStays(h, sent, refusals, asked, begin, n, pgid);
    }

    method HardSweep(pgid: nat, sid: Option<nat>, leaderStart: Option<int>, ghost n: nat, ghost begin: nat,
                     ghost told: Course, ghost rn: nat)
      returns (r: Outcome, ghost from: nat, ghost upto: nat, ghost course: Course)
      requires Valid() && (sid.Some? ==> sid.value == session)
        && Asked(history, log, refusals, told, begin, n, Some(pgid)) && Killed(history, log, refusals, told, n, None)
      requires told.waited == told.cleared == |history| - 1
      requires told.read == |readings| && Patient(history, log, readings, told, n, rn)
      requires begin < |history| && n <= |log| && RightfulFrom(history, log, n, begin, session, leaderStart, child)
      modifies this`history, this`fds, this`log, this`clock, this`refusals, this`readings
      ensures Valid() && old(history) <= history && fds == old(fds) && old(refusals) <= refusals
      ensures old(log) <= log && RightfulFrom(history, log, n, begin, session, leaderStart, child)
      ensures old(readings) <= readings && Patient(history, log, readings, course, n, rn)
      ensures Asked(history, log, refusals, course, begin, n, Some(pgid))
        && Killed(history, log, refusals, course, n, None)
      ensures !r.GroupUnverifiable? ==> Killed(history, log, refusals, course, n, Some(pgid))
      ensures Resignalled(r, course, from, Some(pgid), leaderStart)
      ensures r.Stopped? ==>
        begin <= from && SentBy(log, n, from)
        && Quiet(history, from, upto, pgid, childPid, Hidden(refusals, from, upto))
      ensures PinsRefused() && sid.Some? && leaderStart.Some? ==> r.Stopped?
      ensures r.GroupUnverifiable? && Reliable() ==> Excuse(history, begin, session, pidfds, sid, leaderStart)
    {
      from, upto := begin, begin;
      ghost var h, sent, rs := history, log, refusals;
      var members, _ := SweepAgain(pgid, sid, leaderStart, n, begin);
      course := told;
      AskedStays(h, sent, rs, told, begin, n, Some(pgid));
      KilledStays(h, sent, rs, told, n, None);
      PatientStays(h, sent, readings, told, n, rn);
      if members.Unverifiable? { return GroupUnverifiable, from, upto, course; }
      course := told.(cleared := |history| - 1);
      r, from, upto, course := ResignalSurvivors(pgid, sid, leaderStart, n, begin, course, rn);
    }

    /** The loop that signals survivors again: it reads the clock until the first reading a grace period on, and
        gives up then only with a survivor in its last enumeration. */
    ghost predicate Resignalled(r: Outcome, c: Course, from: nat, pgid: Option<nat>, leaderStart: Option<int>)
      reads this`history, this`readings
    {
      && (pgid.None? ==> |readings| == c.read)
      && (pgid.Some? && !r.GroupUnverifiable? ==> from == c.again && Brief(readings, c.read, |readings|))
      && (r.MemberSurvived? ==>
        pgid.Some? && leaderStart.Some? && Found(c.again, leaderStart.value)
          && Waited(readings, c.read, c.cleared, |history| - 1))
    }

    /** What re-signalling survivors leaves of what was known before. */
    method ResignalSurvivors(pgid: nat, sid: Option<nat>, leaderStart: Option<int>, ghost n: nat, ghost begin: nat,
                             ghost swept: Course, ghost rn: nat)
      returns (r: Outcome, ghost from: nat, ghost upto: nat, ghost course: Course)
      requires Valid() && (sid.Some? ==> sid.value == session)
      requires Asked(history, log, refusals, swept, begin, n, Some(pgid))
        && Killed(history, log, refusals, swept, n, None)
      requires GroupTold(history, log, refusals, n, pgid, Kill, swept.waited, swept.cleared)
      requires swept.cleared == |history| - 1
      requires swept.read == |readings| && Patient(history, log, readings, swept, n, rn)
      requires begin < |history| && n <= |log| && RightfulFrom(history, log, n, begin, session, leaderStart, child)
      modifies this`history, this`fds, this`log, this`clock, this`refusals, this`readings
      ensures Valid() && old(history) <= history && fds == old(fds) && old(refusals) <= refusals
      ensures old(log) <= log && RightfulFrom(history, log, n, begin, session, leaderStart, child)
      ensures old(readings) <= readings && Patient(history, log, readings, course, n, rn)
      ensures Asked(history, log, refusals, course, begin, n, Some(pgid))
        && Killed(history, log, refusals, course, n, None)
      ensures !r.GroupUnverifiable? ==> Killed(history, log, refusals, course, n, Some(pgid))
      ensures Resignalled(r, course, from, Some(pgid), leaderStart)
      ensures r.Stopped? ==>
        begin <= from && SentBy(log, n, from)
        && Quiet(history, from, upto, pgid, childPid, Hidden(refusals, from, upto))
      ensures PinsRefused() && sid.Some? && leaderStart.Some? ==> r.Stopped?
      ensures r.GroupUnverifiable? && Reliable() ==> Excuse(history, begin, session, pidfds, sid, leaderStart)
    {
      ghost var h, sent, rs := history, log, refusals;
      ghost var ended;
      r, from, upto, ended := KillUntilQuiet(pgid, sid, leaderStart);
      course := if r.GroupUnverifiable? then swept else swept.(again := from, ended := ended);
      CourseStays(h, sent, rs, readings[..swept.read], r, swept, course, begin, n, rn, pgid);
      JoinRightful(h, sent, n, begin, |h| - 1, leaderStart);
      SentSoFar(h, sent, n, begin, leaderStart);
      if r.GroupUnverifiable? && Reliable() {
        ExcuseLater(history, history, begin, |h| - 1, session, pidfds, sid, leaderStart);
      }
      if r.Stopped? { SentByJoins(sent, n, |h| - 1, from); }
    }

    /** A course goes on with the last sweep. */
    lemma CourseStays(h: seq<Table>, was: seq<Delivery>, rs: seq<Refusal>, told: seq<Reading>, r: Outcome,
                      swept: Course, c: Course, begin: nat, n: nat, rn: nat, pgid: nat)
      requires h != [] && h <= history && was <= log && rs <= refusals && told <= readings && n <= |was|
      requires Asked(h, was, rs, swept, begin, n, Some(pgid)) && Killed(h, was, rs, swept, n, None)
      requires GroupTold(h, was, rs, n, pgid, Kill, swept.waited, swept.cleared) && swept.cleared == |h| - 1
      requires Patient(h, was, told, swept, n, rn) && AllOf(log, |was|, Kill, |h| - 1)
      requires c == if r.GroupUnverifiable? then swept else swept.(again := c.again, ended := c.ended)
      requires !r.GroupUnverifiable? ==>
        |h| - 1 <= c.again && c.ended == |history| - 1
        && GroupTold(history, log, refusals, |was|, pgid, Kill, c.again, c.ended)
      ensures Asked(history, log, refusals, c, begin, n, Some(pgid)) && Patient(history, log, readings, c, n, rn)
      ensures Killed(history, log, refusals, c, n, None)
      ensures !r.GroupUnverifiable? ==> Killed(history, log, refusals, c, n, Some(pgid))
    {
      AskedStays(h, was, rs, swept, begin, n, Some(pgid));
      KilledStays(h, was, rs, swept, n, None);
      PatientStays(h, was, told, swept, n, rn);
      if !r.GroupUnverifiable? {
        GroupToldStays(h, was, rs, n, n, pgid, Kill, swept.waited, swept.cleared);
        GroupToldStays(history, log, refusals, |was|, n, pgid, Kill, c.again, c.ended);
      }
    }

    lemma SentByJoins(was: seq<Delivery>, n: nat, upto: nat, from: nat)
      requires was <= log && SentBy(was, n, upto) && upto <= from && SentBy(log, |was|, from)
      ensures SentBy(log, n, from)
    {
      forall i | n <= i < |log| ensures log[i].at <= from { if i < |was| { assert log[i] == was[i]; } }
    }
  }

  method NumbersOf(t: Table) returns (pids: seq<Pid>)
    ensures forall u :: u in t ==> t[u].pid in pids
  {
    pids := [];
    var rest := t.Keys;
    while rest != {}
      invariant rest <= t.Keys && forall u :: u in t && u !in rest ==> t[u].pid in pids
      decreases |rest|
    {
      var u :| u in rest;
      pids, rest := pids + [t[u].pid], rest - {u};
    }
  }

  lemma HandlesGrow(pins: seq<Pin>, pin: Pin)
    ensures HandlesOf(pins + [pin]) == HandlesOf(pins) + {pin.handle}
  {
    var all := pins + [pin];
    assert all[|pins|] == pin;
    forall h | h in HandlesOf(pins) ensures h in HandlesOf(all) {
      var i :| 0 <= i < |pins| && pins[i].handle == h;
      assert all[i].handle == h;
    }
  }

  lemma {:induction false} Untouched(h: seq<Table>, i: nat, world: World, session: nat, child: Process, u: Process)
    requires Linked(h, world, session, child) && i < |h| && (forall n: nat, t :: world(n, t) == t)
    requires u != child && u in h[0]
    ensures u in h[i] && h[i][u] == h[0][u]
  {
    if i > 0 {
      assert Follows(h, i, world, session, child);
      Untouched(h, i - 1, world, session, child, u);
    }
  }

  /** A run in which a live member is left out silently: the kernel refuses every pin and nothing else, the stop
      ends quietly, and the member is still running in the group, never signalled. */
  method MemberIsLeftOut() returns (kernel: Kernel, r: Outcome)
    ensures kernel.Valid() && r == Stopped && kernel.PinsRefused()
    ensures RunsAs(kernel.Now(), 1) && kernel.Now()[1].group == 10 && kernel.Now()[1].session == 10
    ensures forall i :: 0 <= i < |kernel.log| ==> kernel.log[i].target == 0
  {
    var child, member := Record(10, 10, 10, 5, true, Zombie), Record(11, 10, 10, 6, true, Running);
    var table: Table := map[0 := child, 1 := member];
    var world := (n: nat, t: Table) => t;
    kernel := new Kernel(10, 0, 10, true, world, (n: nat, c: Call) => c == OpenCall, table);
    ghost var from, upto, course, last;
    r, from, upto, course, last := kernel.StopOwned(Some(10), Some(10), Some(5));
    forall i | 0 <= i < |kernel.log| ensures kernel.log[i].target == 0 {
      assert Rightful(kernel.history, kernel.log[i], 0, 10, Some(5), 0);
    }
    Untouched(kernel.history, |kernel.history| - 1, world, 10, 0, 1);
  }

  /** With a child that does not exit and others that do nothing the table stays as it was. */
  lemma {:induction false} Still(h: seq<Table>, i: nat, world: World, session: nat, child: Process)
    requires Linked(h, world, session, child) && i < |h| && (forall n: nat, t :: world(n, t) == t)
    requires child in h[0] && h[0][child].phase == Running
    ensures h[i] == h[0]
  {
    if i > 0 {
      assert Follows(h, i, world, session, child);
      Still(h, i - 1, world, session, child);
    }
  }

  /** Nobody in such a table is an intruder, and the child never exited. */
  lemma NothingMoves(h: seq<Table>, world: World, session: nat, child: Process, leaderStart: int)
    requires h != [] && Linked(h, world, session, child) && (forall n: nat, t :: world(n, t) == t)
    requires child in h[0] && h[0][child].phase == Running && forall u :: !Intruder(h[0], u, session, leaderStart)
    ensures !Suspect(h, 0, session, leaderStart)
    ensures forall k: nat :: k < |h| ==> child in h[k] && h[k][child].phase == Running
  {
    forall k: nat | k < |h| ensures h[k] == h[0] { Still(h, k, world, session, child); }
  }

  /** A run in which the child is left unreaped: no call is refused, it is sent both signals, and it does not exit. */
  method ChildIsNotReaped() returns (kernel: Kernel, r: Outcome)
    ensures kernel.Valid() && kernel.Reliable() && r != GroupUnverifiable
    ensures !kernel.ChildReaped() && RunsAs(kernel.Now(), kernel.child)
    ensures exists at, upto :: Told(kernel.log, 0, kernel.child, Term, at, upto)
    ensures exists at, upto :: Told(kernel.log, 0, kernel.child, Kill, at, upto)
  {
    var table: Table := map[0 := Record(10, 10, 10, 5, true, Running)];
    var world := (n: nat, t: Table) => t;
    kernel := new Kernel(10, 0, 10, true, world, (n: nat, c: Call) => false, table);
    ghost var from, upto, course, last;
    r, from, upto, course, last := kernel.StopOwned(Some(10), Some(10), Some(5));
    NothingMoves(kernel.history, world, 10, 0, 5);
    if r != GroupUnverifiable {
      assert forall k: nat :: k < |kernel.history| ==> !NeedNotTell(kernel.history, 0, kernel.refuses, k);
      assert Told(kernel.log, 0, 0, Term, 0, course.told) && Told(kernel.log, 0, 0, Kill, course.graced, course.killed);
    }
  }
}

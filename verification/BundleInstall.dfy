/** Installing a release bundle (scripts/install.py:264-376): stage, mark complete, swap the public link, and
clean up after a fault. Other installers, following the same rules, act between any two steps. */
module BundleInstall {
  import opened Basics

  type Name = string

  datatype Marker = Absent | Partial | Written
  datatype Bundle = Bundle(wheels: nat, environment: bool, marker: Marker)

  /** What the public name is. A link counts as installed once an installer put it there. */
  datatype Public = Nothing | Foreign | LinkTo(bundle: Name)

  /** The destination: its bundles, temporary links, public name, and every bundle ever published there. */
  datatype Host = Host(root: bool, bundles: map<Name, Bundle>, links: map<Name, Name>, public: Public,
    published: set<Name>)

  predicate Ready(host: Host, b: Name) { b in host.bundles && host.bundles[b].marker == Written }

  /** Every bundle that was ever published is there, complete. */
  predicate Serving(host: Host) {
    && (forall b :: b in host.published ==> Ready(host, b))
    && (host.bundles != map[] ==> host.root)
  }

  /** What one step of the installer of bundle b, with temporary link t, may do. */
  ghost predicate Step(x: Host, y: Host, b: Name, t: Name) {
    && (forall n ::
      n != b ==> (n in y.bundles <==> n in x.bundles) && (n in x.bundles ==> y.bundles[n] == x.bundles[n]))
    && (forall n :: n != t ==> (n in y.links <==> n in x.links) && (n in x.links ==> y.links[n] == x.links[n]))
    && (y.public == x.public || (y.public == LinkTo(b) && Ready(y, b) && b in y.published))
    && x.published <= y.published <= x.published + {b}
    && (b in x.published ==> (b in x.bundles <==> b in y.bundles) && (b in x.bundles ==> y.bundles[b] == x.bundles[b]))
    && (x.root && !y.root ==> y.bundles == map[])
  }

  /** What the installer of b and t relies on: others leave its bundle and its temporary link alone, and do not
      unmake what was published. */
  ghost predicate Rely(x: Host, y: Host, b: Name, t: Name) {
    && (b in y.bundles <==> b in x.bundles) && (b in x.bundles ==> y.bundles[b] == x.bundles[b])
    && (t in y.links <==> t in x.links) && (t in x.links ==> y.links[t] == x.links[t])
    && x.published <= y.published && (b in y.published ==> b in x.published)
    && (y.public != x.public && y.public.LinkTo? ==> y.public.bundle != b)
  }

  /** Installers with different names do not disturb each other, and each keeps what is served. */
  lemma StepsCompose(x: Host, y: Host, b: Name, t: Name, c: Name, u: Name)
    requires Step(x, y, c, u) && b != c && t != u
    ensures Rely(x, y, b, t)
  {
  }

  /** What others make of the host at a moment: any function, and no choice of this installer. */
  type World = (nat, Host) -> Host

  /** The calls that can fail. After PrepareBundle and the calls of the clean-up something may stay behind. */
  datatype Call = MakeRoot | MakeBundle | PrepareBundle | CopyWheel | BuildEnvironment | SmokeCheck
                | WriteMark | RemoveMark | MakeLink | LookAtPublic | ReplaceLink | SyncParent | RemoveBundle
                | RemoveLink | RemoveRoot

  datatype Move = Move(own: bool, before: Host, after: Host)

  /** Move i starts where the one before ended, and is the world's if not our own. */
  predicate Follows(moves: seq<Move>, i: nat, world: World)
    requires i < |moves|
  {
    (i > 0 ==> moves[i].before == moves[i - 1].after) && (!moves[i].own ==> moves[i].after == world(i, moves[i].before))
  }

  /** The moves lead from one state of the host to the next without a gap. */
  ghost predicate Linked(start: Host, moves: seq<Move>, now: Host, world: World) {
    && (if moves == [] then now == start else moves[0].before == start && moves[|moves| - 1].after == now)
    && forall i {:trigger Follows(moves, i, world)} :: 0 <= i < |moves| ==> Follows(moves, i, world)
  }

  lemma LinkedGrows(start: Host, moves: seq<Move>, now: Host, world: World, m: Move)
    requires Linked(start, moves, now, world) && m.before == now && (!m.own ==> m.after == world(|moves|, now))
    ensures Linked(start, moves + [m], m.after, world)
  {
    var more := moves + [m];
    forall i | 0 <= i < |more| ensures Follows(more, i, world) {
      if i < |moves| { assert Follows(moves, i, world); }
    }
  }

  datatype Outcome = Installed | Raised

  class Installer {
    var host: Host
    const mine: Name
    const temp: Name
    const world: World
    const foreign: bool
    /** The calls that may fail, and those among them that do. */
    const mayFail: set<Call>
    const mustFail: set<Call>
    /** The host this installer found. */
    const start: Host
    var moves: seq<Move>
    /** The failures that can leave something behind. */
    var faults: set<Call>

    ghost predicate Valid() reads this { Serving(host) && Linked(start, moves, host, world) }

    /** Preparing the directory can fail, and neither call before it. */
    predicate OnlyPreparing() { PrepareBundle in mayFail && MakeRoot !in mayFail && MakeBundle !in mayFail }

    /** No call fails and nobody else acts. */
    ghost predicate Calm() { mayFail == {} && !foreign }

    constructor (host: Host, mine: Name, temp: Name, world: World, foreign: bool, mayFail: set<Call>,
                 mustFail: set<Call>)
      requires Serving(host)
      ensures this.world == world && this.foreign == foreign && this.mayFail == mayFail && this.mustFail == mustFail
        && start == host
      ensures Valid() && this.host == host && this.mine == mine && this.temp == temp && moves == [] && faults == {}
    {
      this.host, this.mine, this.temp, moves, faults := host, mine, temp, [], {};
      this.world, this.foreign, this.mayFail, this.mustFail, start := world, foreign, mayFail, mustFail, host;
    }

    /** Others run: any steps of other installers, and whatever a user does to the public name by hand short of
        naming this bundle. */
    method Others()
      requires Valid()
      modifies this`host, this`moves
      ensures Valid() && old(moves) <= moves && Safe(moves, |old(moves)|, mine, temp)
      ensures Rely(old(host), host, mine, temp) && (!foreign ==> host == old(host))
    {
      var next := world(|moves|, host);
      if foreign && Serving(next) && (next.root || next.bundles == map[])
        && (mine in next.bundles <==> mine in host.bundles)
          && (mine in host.bundles ==> next.bundles[mine] == host.bundles[mine])
        && (temp in next.links <==> temp in host.links) && (temp in host.links ==> next.links[temp] == host.links[temp])
        && host.published <= next.published && (mine in next.published ==> mine in host.published)
        && (next.public != host.public && next.public.LinkTo? ==> next.public.bundle != mine)
      {
        LinkedGrows(start, moves, host, world, Move(false, host, next));
        moves := moves + [Move(false, host, next)];
        host := next;
      }
    }

    method Take(next: Host)
      requires Valid() && Serving(next) && Step(host, next, mine, temp)
      modifies this`host, this`moves
      ensures Valid() && host == next && moves == old(moves) + [Move(true, old(host), next)]
        && Safe(moves, |old(moves)|, mine, temp)
    {
      LinkedGrows(start, moves, host, world, Move(true, host, next));
      moves := moves + [Move(true, host, next)];
      host := next;
    }

    /** This call fails whenever it is made. */
    predicate MustFail(c: Call) { c in mustFail && c in mayFail }

    method Fault(c: Call) returns (failed: bool)
      ensures failed ==> c in mayFail
      ensures MustFail(c) ==> failed
    {
      failed := *;
      failed := c in mayFail && (failed || c in mustFail);
    }

    /** A call that may fail, after steps of others. */
    method Fails(c: Call) returns (failed: bool)
      requires Valid()
      modifies this`host, this`moves
      ensures Valid() && old(moves) <= moves && Safe(moves, |old(moves)|, mine, temp)
      ensures Rely(old(host), host, mine, temp) && (!foreign ==> host == old(host))
      ensures (failed ==> c in mayFail) && (MustFail(c) ==> failed)
    {
      Others();
      failed := Fault(c);
    }

    /** The own bundle is there and unpublished. */
    ghost predicate Staged() reads this { mine in host.bundles && mine !in host.published && host.root }

    /** Replaces the own, unpublished bundle. */
    method Update(bundle: Bundle)
      requires Valid() && Staged()
      modifies this`host, this`moves
      ensures Valid() && Staged() && host == old(host).(bundles := old(host).bundles[mine := bundle])
      ensures old(moves) <= moves && Safe(moves, |old(moves)|, mine, temp)
    {
      Take(host.(bundles := host.bundles[mine := bundle]));
    }

    /** `shutil.rmtree(bundle, ignore_errors=True)`. */
    method DeleteBundle()
      requires Valid() && Staged() && RemoveBundle !in faults
      modifies this`host, this`moves, this`faults
      ensures Valid() && mine !in host.published && old(faults) <= faults <= old(faults) + {RemoveBundle}
      ensures Calm() ==> faults == old(faults)
      ensures mine in host.bundles <==> RemoveBundle in faults
      ensures old(moves) <= moves && Safe(moves, |old(moves)|, mine, temp)
      ensures host.links == old(host).links && host.public == old(host).public
    {
      var failed := Fault(RemoveBundle);
      if failed {
        faults := faults + {RemoveBundle};
      } else {
        Take(host.(bundles := host.bundles - {mine}));
      }
    }

    // The installation.

    /** `install_bundle` with this many wheels. At every moment an installed public link resolves to a complete
        bundle, and nothing ever published is touched. A raised fault leaves no temporary link and no
        unpublished bundle, unless clean-up itself failed or the fault came before staging had begun. */
    method InstallBundle(wheels: nat) returns (r: Outcome)
      requires Valid() && faults == {} && mine !in host.published && temp !in host.links
      modifies this
      ensures Valid() && old(moves) <= moves && Safe(moves, |old(moves)|, mine, temp)
      ensures r.Installed? ==>
        mine in host.published && mine in host.bundles && host.bundles[mine] == Bundle(wheels, true, Written)
        && exists i :: |old(moves)| <= i < |moves| && Swaps(moves[i], mine)
      ensures temp in host.links <==> RemoveLink in faults
      ensures r.Raised? && mine !in host.published && mine !in old(host).bundles ==>
        (mine in host.bundles <==> Leaves(faults))
      ensures PrepareBundle in mustFail && OnlyPreparing() && mine !in old(host).bundles ==>
        r.Raised? && PrepareBundle in faults && mine !in host.published
      ensures Calm() ==> faults == {} && (r.Installed? <==> mine !in old(host).bundles && !old(host).public.Foreign?)
      ensures Calm() && r.Installed? ==> host == Completed(old(host), mine, wheels)
      ensures mayFail == {} && r.Raised? ==> mine in old(host).bundles || ForeignSeen(moves, |old(moves)|)
      ensures old(host).public != LinkTo(mine) ==>
        forall k :: |old(moves)| <= k < |moves| && moves[k].after.public == LinkTo(mine) ==> Ready(moves[k].after, mine)
      ensures forall k ::
        |old(moves)| <= k < |moves| ==> old(host).published <= moves[k].after.published && Serving(moves[k].after)
      ensures r.Installed? ==> forall c :: c in Needed(wheels) ==> !MustFail(c)
    {
      ghost var was := moves;
      r := Install(wheels);
      FirstMove(start, was, moves, old(host), host, world);
      GaplessFrom(start, moves, host, world, |was|);
      LinksResolve(moves, |was|, old(host));
    }

    /** What the moves of an installation mean for the public link. */
    lemma LinksResolve(moves: seq<Move>, n: nat, was: Host)
      requires Gapless(moves, n) && Safe(moves, n, mine, temp) && (n < |moves| ==> moves[n].before == was)
      ensures was.public != LinkTo(mine) ==>
        forall k :: n <= k < |moves| && moves[k].after.public == LinkTo(mine) ==> Ready(moves[k].after, mine)
      ensures Serving(was) ==>
        forall k :: n <= k < |moves| ==> was.published <= moves[k].after.published && Serving(moves[k].after)
    {
      forall k | n <= k < |moves| && was.public != LinkTo(mine) && moves[k].after.public == LinkTo(mine)
        ensures Ready(moves[k].after, mine) {
        OwnLinkResolves(moves, n, mine, temp, k);
      }
      forall k, p | n <= k < |moves| && Serving(was) && p in was.published ensures p in moves[k].after.published {
        PublishedStays(moves, n, mine, temp, k, p);
      }
      forall k | n <= k < |moves| ensures Serving(moves[k].after) { assert Fair(moves[k], mine, temp); }
    }

    /** The steps of the installation. */
    method Install(wheels: nat) returns (r: Outcome)
      requires Valid() && faults == {} && mine !in host.published && temp !in host.links
      modifies this`host, this`moves, this`faults
      ensures Valid() && old(moves) <= moves && Safe(moves, |old(moves)|, mine, temp)
      ensures r.Installed? ==>
        mine in host.published && mine in host.bundles && host.bundles[mine] == Bundle(wheels, true, Written)
        && exists i :: |old(moves)| <= i < |moves| && Swaps(moves[i], mine)
      ensures temp in host.links <==> RemoveLink in faults
      ensures r.Raised? && mine !in host.published && mine !in old(host).bundles ==>
        (mine in host.bundles <==> Leaves(faults))
      ensures PrepareBundle in mustFail && OnlyPreparing() && mine !in old(host).bundles ==>
        r.Raised? && PrepareBundle in faults && mine !in host.published
      ensures Calm() ==> faults == {} && (r.Installed? <==> mine !in old(host).bundles && !old(host).public.Foreign?)
      ensures Calm() && r.Installed? ==> host == Completed(old(host), mine, wheels)
      ensures mayFail == {} && r.Raised? ==> mine in old(host).bundles || ForeignSeen(moves, |old(moves)|)
      ensures r.Installed? ==> forall c :: c in Needed(wheels) ==> !MustFail(c)
    {
      ghost var n := |moves|;
      var begun := Begin();
      if !begun { return Raised; }
      ghost var was := moves;
      var staged := StageWheels(wheels);
      SafeJoins(was, moves, n, mine, temp);
      was := moves;
      if !staged {
        AbandonStaging();
        SafeJoins(was, moves, n, mine, temp);
        return Raised;
      }
      r := Publish();
      SafeJoins(was, moves, n, mine, temp);
    }

    /** Makes the bundle root and the bundle directory. */
    method Begin() returns (ok: bool)
      requires Valid() && faults == {} && mine !in host.published && temp !in host.links
      modifies this`host, this`moves, this`faults
      ensures Valid() && old(moves) <= moves && Safe(moves, |old(moves)|, mine, temp)
      ensures mine !in host.published && temp !in host.links && faults <= {PrepareBundle}
      ensures ok ==>
        Staged() && faults == {} && mine !in old(host).bundles && host.bundles[mine] == Bundle(0, false, Absent)
      ensures !ok && mine !in old(host).bundles ==> (mine in host.bundles <==> PrepareBundle in faults)
      ensures PrepareBundle in mustFail && OnlyPreparing() && mine !in old(host).bundles ==>
        !ok && PrepareBundle in faults
      ensures Calm() ==> faults == {} && (ok <==> mine !in old(host).bundles)
      ensures Calm() && ok ==>
        host == old(host).(root := true, bundles := old(host).bundles[mine := Bundle(0, false, Absent)])
      ensures mayFail == {} && !ok ==> mine in old(host).bundles
      ensures ok ==> !MustFail(MakeRoot) && !MustFail(MakeBundle) && !MustFail(PrepareBundle)
    {
      ghost var n := |moves|;
      var failed := Fails(MakeRoot);
      if failed || mine in host.bundles { return false; }
      ghost var was := moves;
      if !host.root { Take(host.(root := true)); }
      SafeJoins(was, moves, n, mine, temp);
      was := moves;
      ok := MakeOwn();
      SafeJoins(was, moves, n, mine, temp);
    }

    /** Makes the bundle's own directory and prepares it. */
    method MakeOwn() returns (ok: bool)
      requires Valid() && faults == {} && host.root && mine !in host.published && mine !in host.bundles
        && temp !in host.links
      modifies this`host, this`moves, this`faults
      ensures Valid() && old(moves) <= moves && Safe(moves, |old(moves)|, mine, temp)
      ensures mine !in host.published && temp !in host.links && faults <= {PrepareBundle}
      ensures ok ==> Staged() && faults == {} && host.bundles[mine] == Bundle(0, false, Absent)
      ensures !ok ==> (mine in host.bundles <==> PrepareBundle in faults)
      ensures PrepareBundle in mayFail && PrepareBundle in mustFail && MakeBundle !in mayFail ==>
        !ok && PrepareBundle in faults
      ensures Calm() ==>
        ok && faults == {} && host == old(host).(bundles := old(host).bundles[mine := Bundle(0, false, Absent)])
      ensures mayFail == {} ==> ok
      ensures ok ==> !MustFail(MakeBundle) && !MustFail(PrepareBundle)
    {
      ghost var n := |moves|;
      var failed := Fault(MakeBundle);
      if failed { return false; }
      ghost var was := moves;
      Take(host.(bundles := host.bundles[mine := Bundle(0, false, Absent)]));
      SafeJoins(was, moves, n, mine, temp);
      was := moves;
      failed := Fails(PrepareBundle);
      SafeJoins(was, moves, n, mine, temp);
      if failed { faults := faults + {PrepareBundle}; }
      ok := !failed;
    }

    /** Copies the wheels one by one. */
    method StageWheels(wheels: nat) returns (ok: bool)
      requires Valid() && Staged() && temp !in host.links
      modifies this`host, this`moves
      ensures Valid() && Staged() && temp !in host.links && old(moves) <= moves && Safe(moves, |old(moves)|, mine, temp)
      ensures ok ==>
        host.bundles[mine] == old(host).bundles[mine].(wheels := old(host).bundles[mine].wheels + wheels)
      ensures Calm() ==>
        ok && host ==
        old(host).(bundles :=
        old(host).bundles[mine := old(host).bundles[mine].(wheels := old(host).bundles[mine].wheels + wheels)])
      ensures mayFail == {} ==> ok
      ensures ok && wheels > 0 ==> !MustFail(CopyWheel)
    {
      ghost var n := |moves|;
      for i := 0 to wheels
        invariant Valid() && Staged() && temp !in host.links && old(moves) <= moves && Safe(moves, n, mine, temp)
        invariant host.bundles[mine] == old(host).bundles[mine].(wheels := old(host).bundles[mine].wheels + i)
        invariant Calm() ==>
          host == old(host).(bundles :=
          old(host).bundles[mine := old(host).bundles[mine].(wheels := old(host).bundles[mine].wheels + i)])
        invariant i > 0 ==> !MustFail(CopyWheel)
      {
        ghost var was := moves;
        ok := StageWheel();
        SafeJoins(was, moves, n, mine, temp);
        if !ok { return false; }
      }
      return true;
    }

    method StageWheel() returns (ok: bool)
      requires Valid() && Staged() && temp !in host.links
      modifies this`host, this`moves
      ensures Valid() && Staged() && temp !in host.links && old(moves) <= moves && Safe(moves, |old(moves)|, mine, temp)
      ensures ok ==> host.bundles[mine] == old(host).bundles[mine].(wheels := old(host).bundles[mine].wheels + 1)
      ensures Calm() ==>
        ok && host ==
        old(host).(bundles :=
        old(host).bundles[mine := old(host).bundles[mine].(wheels := old(host).bundles[mine].wheels + 1)])
      ensures mayFail == {} ==> ok
      ensures ok ==> !MustFail(CopyWheel)
    {
      var failed := Fails(CopyWheel);
      if failed { return false; }
      ghost var was := moves;
      Update(host.bundles[mine].(wheels := host.bundles[mine].wheels + 1));
      SafeJoins(was, moves, |old(moves)|, mine, temp);
      return true;
    }

    /** Clean-up after a fault while staging: the bundle goes, and the root with it if nothing else is there. */
    method AbandonStaging()
      requires Valid() && Staged() && temp !in host.links && faults == {}
      modifies this`host, this`moves, this`faults
      ensures Valid() && old(moves) <= moves && Safe(moves, |old(moves)|, mine, temp)
      ensures mine !in host.published && temp !in host.links && (mine in host.bundles <==> RemoveBundle in faults)
        && faults <= {RemoveBundle, RemoveRoot}
      ensures host.root ==> host.bundles != map[] || RemoveRoot in faults
      ensures Calm() ==> faults == old(faults)
    {
      DeleteBundle();
      ghost var was := moves;
      var failed := Fails(RemoveRoot);
      SafeJoins(was, moves, |old(moves)|, mine, temp);
      was := moves;
      if host.root && host.bundles == map[] {
        if failed { faults := faults + {RemoveRoot}; } else { Take(host.(root := false)); }
      }
      SafeJoins(was, moves, |old(moves)|, mine, temp);
    }

    /** Builds the environment, writes the completion marker, and swaps the public link. */
    method Publish() returns (r: Outcome)
      requires Valid() && Staged() && temp !in host.links && faults == {}
      modifies this`host, this`moves, this`faults
      ensures Valid() && old(moves) <= moves && Safe(moves, |old(moves)|, mine, temp)
      ensures r.Installed? ==>
        mine in host.published && mine in host.bundles
        && host.bundles[mine] == Bundle(old(host).bundles[mine].wheels, true, Written) && exists i ::
          |old(moves)| <= i < |moves| && Swaps(moves[i], mine)
      ensures temp in host.links <==> RemoveLink in faults
      ensures r.Raised? && mine !in host.published ==> (mine in host.bundles <==> Leaves(faults))
      ensures Calm() ==> faults == {} && (r.Installed? <==> !old(host).public.Foreign?)
      ensures Calm() && r.Installed? ==> host == Completed(old(host), mine, old(host).bundles[mine].wheels)
      ensures mayFail == {} && r.Raised? ==> ForeignSeen(moves, |old(moves)|)
      ensures r.Installed? ==> forall c :: c in Needed(0) ==> c in {MakeRoot, MakeBundle, PrepareBundle} || !MustFail(c)
    {
      ghost var n := |moves|;
      var complete := Complete();
      ghost var was := moves;
      var swapped := false;
      ghost var at := 0;
      if complete {
        swapped, at := Swap();
        SafeJoins(was, moves, n, mine, temp);
        was := moves;
      }
      var failed := Fails(SyncParent);
      SafeJoins(was, moves, n, mine, temp);
      if swapped && !failed { return Installed; }
      was := moves;
      CleanUp(swapped);
      SafeJoins(was, moves, n, mine, temp);
      return Raised;
    }

    /** The environment and the smoke checks, then the marker. */
    method Complete() returns (ok: bool)
      requires Valid() && Staged() && temp !in host.links
      modifies this`host, this`moves
      ensures Valid() && Staged() && temp !in host.links && old(moves) <= moves && Safe(moves, |old(moves)|, mine, temp)
      ensures ok ==> host.bundles[mine] == Bundle(old(host).bundles[mine].wheels, true, Written)
      ensures Calm() ==>
        ok && host ==
        old(host).(bundles := old(host).bundles[mine := Bundle(old(host).bundles[mine].wheels, true, Written)])
      ensures mayFail == {} ==> ok
      ensures ok ==> !MustFail(BuildEnvironment) && !MustFail(SmokeCheck) && !MustFail(WriteMark)
    {
      ghost var n := |moves|;
      var failed := Fails(BuildEnvironment);
      if failed { return false; }
      ghost var was := moves;
      Update(host.bundles[mine].(environment := true));
      SafeJoins(was, moves, n, mine, temp);
      was := moves;
      failed := Fails(SmokeCheck);
      SafeJoins(was, moves, n, mine, temp);
      if failed { return false; }
      ok := WriteMarker();
      SafeJoins(was, moves, n, mine, temp);
    }

    /** `_write_private_json`: a failed write removes the partial marker if it can. */
    method WriteMarker() returns (ok: bool)
      requires Valid() && Staged() && temp !in host.links
      modifies this`host, this`moves
      ensures Valid() && Staged() && temp !in host.links && old(moves) <= moves && Safe(moves, |old(moves)|, mine, temp)
      ensures ok ==> host.bundles[mine] == old(host).bundles[mine].(marker := Written)
      ensures !ok ==> !Ready(host, mine) && (RemoveMark !in mayFail ==> host.bundles[mine].marker == Absent)
      ensures Calm() ==>
        ok && host == old(host).(bundles := old(host).bundles[mine := old(host).bundles[mine].(marker := Written)])
      ensures mayFail == {} ==> ok
      ensures ok ==> !MustFail(WriteMark)
    {
      ghost var n := |moves|;
      Update(host.bundles[mine].(marker := Partial));
      ghost var was := moves;
      var failed := Fails(WriteMark);
      SafeJoins(was, moves, n, mine, temp);
      was := moves;
      if failed {
        var stuck := Fault(RemoveMark);
        if !stuck { Update(host.bundles[mine].(marker := Absent)); }
      } else {
        Update(host.bundles[mine].(marker := Written));
      }
      SafeJoins(was, moves, n, mine, temp);
      return !failed;
    }

    /** Makes the temporary link, refuses a destination that is not an installer's, and renames over it. */
    method Swap() returns (ok: bool, ghost at: nat)
      requires Valid() && Staged() && temp !in host.links && Ready(host, mine)
      modifies this`host, this`moves
      ensures Valid() && old(moves) <= moves && Safe(moves, |old(moves)|, mine, temp)
      ensures ok ==>
        |old(moves)| <= at < |moves| && Swaps(moves[at], mine) && mine in host.published && temp !in host.links
      ensures !ok ==> Staged()
      ensures ok ==> mine in host.bundles && host.bundles[mine] == old(host).bundles[mine]
      ensures ok ==> exists k :: |old(moves)| <= k < at && !moves[k].after.public.Foreign?
      ensures Calm() ==> (ok <==> !old(host).public.Foreign?)
      ensures Calm() && ok ==> host == old(host).(public := LinkTo(mine), published := old(host).published + {mine})
      ensures mayFail == {} && !ok ==> ForeignSeen(moves, |old(moves)|)
      ensures ok ==> !MustFail(MakeLink) && !MustFail(LookAtPublic) && !MustFail(ReplaceLink)
    {
      at := 0;
      var failed := Fails(MakeLink);
      if failed { return false, at; }
      ghost var was, before := moves, host;
      Take(host.(links := host.links[temp := mine]));
      SafeJoins(was, moves, |old(moves)|, mine, temp);
      was := moves;
      ok, at := ReplacePublic();
      SafeJoins(was, moves, |old(moves)|, mine, temp);
      if Calm() { assert before.links[temp := mine] - {temp} == before.links; }
    }

    /** The look at the public name and the rename over it. */
    method ReplacePublic() returns (ok: bool, ghost at: nat)
      requires Valid() && Staged() && temp in host.links && Ready(host, mine) && moves != []
      modifies this`host, this`moves
      ensures Valid() && old(moves) <= moves && Safe(moves, |old(moves)|, mine, temp)
      ensures ok ==>
        |old(moves)| <= at < |moves| && Swaps(moves[at], mine) && mine in host.published && temp !in host.links
      ensures !ok ==> Staged()
      ensures ok ==> mine in host.bundles && host.bundles[mine] == old(host).bundles[mine]
      ensures ok ==> exists k :: |old(moves)| - 1 <= k < at && !moves[k].after.public.Foreign?
      ensures Calm() ==> (ok <==> !old(host).public.Foreign?)
      ensures Calm() && ok ==>
        host == old(host).(links := old(host).links - {temp}, public := LinkTo(mine),
        published := old(host).published + {mine})
      ensures mayFail == {} && !ok ==> ForeignSeen(moves, |old(moves)| - 1)
      ensures ok ==> !MustFail(LookAtPublic) && !MustFail(ReplaceLink)
    {
      at := 0;
      var failed := Fails(LookAtPublic);
      assert moves[|moves| - 1].after == host;
      if failed || host.public.Foreign? { return false, at; }
      ghost var was, seen := moves, |moves| - 1;
      assert !moves[seen].after.public.Foreign?;
      failed := Fails(ReplaceLink);
      SafeJoins(was, moves, |old(moves)|, mine, temp);
      if failed { return false, at; }
      was := moves;
      at := |moves|;
      Take(host.(links := host.links - {temp}, public := LinkTo(mine), published := host.published + {mine}));
      SafeJoins(was, moves, |old(moves)|, mine, temp);
      return true, at;
    }

    /** Clean-up after a later fault: the temporary link goes, and the bundle if it was not published. */
    method CleanUp(published: bool)
      requires Valid() && faults == {}
        && (if published then mine in host.published && temp !in host.links else Staged())
      modifies this`host, this`moves, this`faults
      ensures Valid() && old(moves) <= moves && Safe(moves, |old(moves)|, mine, temp)
      ensures faults <= {RemoveLink, RemoveBundle} && (temp in host.links <==> RemoveLink in faults)
      ensures published ==> mine in host.published
      ensures Calm() ==> faults == old(faults)
      ensures !published ==> mine !in host.published && (mine in host.bundles <==> Leaves(faults))
    {
      if temp in host.links {
        var failed := Fault(RemoveLink);
        if failed {
          faults := faults + {RemoveLink};
          return;
        }
        Take(host.(links := host.links - {temp}));
      }
      ghost var was := moves;
      if !published {
        DeleteBundle();
        SafeJoins(was, moves, |old(moves)|, mine, temp);
      }
    }
  }

  /** A move of this installer is a permitted step, any other one within what it relies on; the host serves after it. */
  ghost predicate Fair(m: Move, b: Name, t: Name) {
    Serving(m.after) && if m.own then Step(m.before, m.after, b, t) else Rely(m.before, m.after, b, t)
  }

  /** Every move from the n-th on is fair. */
  ghost predicate Safe(moves: seq<Move>, n: nat, b: Name, t: Name) {
    forall i {:trigger Fair(moves[i], b, t)} :: n <= i < |moves| ==> Fair(moves[i], b, t)
  }

  lemma SafeJoins(was: seq<Move>, now: seq<Move>, n: nat, b: Name, t: Name)
    requires n <= |was| && was <= now && Safe(was, n, b, t) && Safe(now, |was|, b, t)
    ensures Safe(now, n, b, t)
  {
    forall i | n <= i < |now| ensures Fair(now[i], b, t) {
      if i < |was| { assert Fair(was[i], b, t); }
    }
  }

  // What holds at every moment of a run.

  predicate Gapless(moves: seq<Move>, n: nat) {
    forall i {:trigger moves[i]} :: n < i < |moves| ==> moves[i].before == moves[i - 1].after
  }

  /** From a host whose public name does not lead to this bundle, it leads to the bundle only once that is published
      and complete. */
  lemma {:induction false} OwnLinkResolves(moves: seq<Move>, n: nat, b: Name, t: Name, k: nat)
    requires n <= k < |moves| && Gapless(moves, n) && Safe(moves, n, b, t) && moves[n].before.public != LinkTo(b)
    ensures OwnLinkGood(moves[k].after, b)
  {
    if k > n { OwnLinkResolves(moves, n, b, t, k - 1); }
    LinkOnce(moves[k], b, t);
  }

  /** The public name leads to this bundle only if that is published and complete. */
  predicate OwnLinkGood(host: Host, b: Name) { host.public == LinkTo(b) ==> b in host.published && Ready(host, b) }

  lemma LinkOnce(m: Move, b: Name, t: Name)
    requires Fair(m, b, t) && OwnLinkGood(m.before, b)
    ensures OwnLinkGood(m.after, b)
  {
  }

  /** The public name leads to a complete bundle that was published. */
  predicate Resolves(host: Host) {
    host.public.LinkTo? ==> host.public.bundle in host.published && Ready(host, host.public.bundle)
  }

  /** From a host whose public link resolves it does so after every move, unless others have at some moment put a
      link there by hand that does not. */
  lemma {:induction false} PublicLinkResolves(moves: seq<Move>, n: nat, b: Name, t: Name, k: nat)
    requires n <= k < |moves| && Gapless(moves, n) && Safe(moves, n, b, t) && Resolves(moves[n].before)
    ensures Resolves(moves[k].after) ||
      exists i :: n <= i <= k && !moves[i].own && Resolves(moves[i].before) && !Resolves(moves[i].after)
  {
    assert Fair(moves[k], b, t);
    if k > n { PublicLinkResolves(moves, n, b, t, k - 1); }
  }

  /** Whatever was published at some moment stays published and complete, and others alone can have altered it. */
  lemma {:induction false} PublishedStays(moves: seq<Move>, n: nat, b: Name, t: Name, k: nat, p: Name)
    requires n <= k < |moves| && Gapless(moves, n) && Safe(moves, n, b, t)
    requires p in moves[n].before.published && Ready(moves[n].before, p)
    ensures p in moves[k].after.published && Ready(moves[k].after, p)
    ensures moves[k].after.bundles[p] == moves[n].before.bundles[p] || exists i :: n <= i <= k && Altered(moves[i], p)
  {
    if k > n {
      PublishedStays(moves, n, b, t, k - 1, p);
      assert moves[k].before == moves[k - 1].after;
    }
    StaysOnce(moves[k], b, t, p);
  }

  lemma StaysOnce(m: Move, b: Name, t: Name, p: Name)
    requires Fair(m, b, t) && p in m.before.published && Ready(m.before, p)
    ensures p in m.after.published && Ready(m.after, p)
    ensures m.after.bundles[p] == m.before.bundles[p] || Altered(m, p)
  {
  }

  /** Others changed this bundle. */
  predicate Altered(m: Move, p: Name) {
    !m.own && p in m.before.bundles && (p in m.after.bundles ==> m.after.bundles[p] != m.before.bundles[p])
  }

  /** The first of the later moves starts where the earlier ones ended. */
  lemma FirstMove(start: Host, was: seq<Move>, now: seq<Move>, before: Host, after: Host, world: World)
    requires Linked(start, was, before, world) && Linked(start, now, after, world) && was <= now
    ensures |was| < |now| ==> now[|was|].before == before
  {
    if 0 < |was| < |now| {
      assert Follows(now, |was|, world);
      assert now[|was| - 1] == was[|was| - 1];
    }
  }

  lemma GaplessFrom(start: Host, moves: seq<Move>, now: Host, world: World, n: nat)
    requires Linked(start, moves, now, world)
    ensures Gapless(moves, n)
  {
    forall i | n < i < |moves| ensures moves[i].before == moves[i - 1].after { assert Follows(moves, i, world); }
  }

  /** At some move since the n-th the public name was a foreign file. */
  ghost predicate ForeignSeen(moves: seq<Move>, n: nat) {
    exists k :: n <= k < |moves| && moves[k].after.public.Foreign?
  }

  /** A failure after which the unpublished bundle is still there. */
  predicate Leaves(faults: set<Call>) { PrepareBundle in faults || RemoveBundle in faults || RemoveLink in faults }

  /** The calls an installation cannot do without. */
  function Needed(wheels: nat): set<Call> {
    {MakeRoot, MakeBundle, PrepareBundle, BuildEnvironment, SmokeCheck, WriteMark, MakeLink, LookAtPublic, ReplaceLink,
      SyncParent} + if wheels > 0 then {CopyWheel} else {}
  }

  /** What a successful installation adds to a host. */
  function Completed(host: Host, b: Name, wheels: nat): Host {
    host.(root := true, bundles := host.bundles[b := Bundle(wheels, true, Written)], public := LinkTo(b),
      published := host.published + {b})
  }

  /** The move that made the public name lead to bundle b. */
  ghost predicate Swaps(m: Move, b: Name) { m.own && m.after.public == LinkTo(b) && Ready(m.after, b) }

  /** A run that leaves a bundle directory behind: the first call on it fails, before the guarded part. */
  method BundleStaysBehind(host: Host, mine: Name, temp: Name, world: World) returns (it: Installer, r: Outcome)
    requires Serving(host) && mine !in host.published && mine !in host.bundles && temp !in host.links
    ensures it.Valid() && r == Raised && mine in it.host.bundles && mine !in it.host.published
  {
    it := new Installer(host, mine, temp, world, true, {PrepareBundle}, {PrepareBundle});
    r := it.InstallBundle(1);
  }
}

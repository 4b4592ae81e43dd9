/** Stratified sampling of mutation sites (`sample_mutants` in scripts/selection_eval.py).

The seeded shuffle is a parameter: `shuffled[i]` is any rearrangement of the sites of class i,
so every statement below holds for every seed. */
module Sampling {

  const MUTATION_CLASSES: seq<string> := [
    "raise-entry", "comparison-flip", "constant-change", "attr-change",
    "default-change", "decorator-change", "import-change", "data-change"
  ]

  datatype Site = Site(siteClass: string, path: string, lineno: nat, name: string, detail: string)

  /** `number` is the decimal inside the source's identifier "m0001". */
  datatype Mutant = Mutant(number: nat, site: Site)

  /** The sites of one class, in source order. */
  function OfClass(sites: seq<Site>, name: string): seq<Site> {
    if sites == [] then []
    else if sites[0].siteClass == name then [sites[0]] + OfClass(sites[1..], name)
    else OfClass(sites[1..], name)
  }

  /** The sites whose class is one of `names`. */
  function Eligible(sites: seq<Site>, names: seq<string>): seq<Site> {
    if sites == [] then []
    else if sites[0].siteClass in names then [sites[0]] + Eligible(sites[1..], names)
    else Eligible(sites[1..], names)
  }

  /** Each site of a named class, as often as it is there. */
  lemma {:induction false} EligibleCounts(sites: seq<Site>, names: seq<string>, x: Site)
    ensures multiset(Eligible(sites, names))[x] == if x.siteClass in names then multiset(sites)[x] else 0
  {
    if sites != [] {
      EligibleCounts(sites[1..], names, x);
      assert sites == [sites[0]] + sites[1..];
    }
  }

  lemma {:induction false} OfClassCounts(sites: seq<Site>, name: string, x: Site)
    ensures multiset(OfClass(sites, name))[x] == if x.siteClass == name then multiset(sites)[x] else 0
  {
    if sites != [] {
      OfClassCounts(sites[1..], name, x);
      assert sites == [sites[0]] + sites[1..];
    }
  }

  function Sites(mutants: seq<Mutant>): (s: seq<Site>)
    ensures |s| == |mutants|
    ensures forall k :: 0 <= k < |s| ==> s[k] == mutants[k].site
  {
    seq(|mutants|, k requires 0 <= k < |mutants| => mutants[k].site)
  }

  function Numbered(picked: seq<Site>): (r: seq<Mutant>)
    ensures |r| == |picked| && Sites(r) == picked && forall k :: 0 <= k < |r| ==> r[k].number == k + 1
  {
    var r := seq(|picked|, k requires 0 <= k < |picked| => Mutant(k + 1, picked[k]));
    assert Sites(r) == picked;
    r
  }

  /** How many sites of a class a selection holds. */
  function Tally(picked: seq<Site>, name: string): nat { |OfClass(picked, name)| }

  ghost function Pooled(pools: seq<seq<Site>>): multiset<Site> {
    if pools == [] then multiset{} else multiset(pools[0]) + Pooled(pools[1..])
  }

  predicate Distinct(names: seq<string>) {
    forall i, j :: 0 <= i < j < |names| ==> names[i] != names[j]
  }

  /** One pool per class name, each any rearrangement of that class's sites. */
  ghost predicate Shuffles(sites: seq<Site>, names: seq<string>, shuffled: seq<seq<Site>>) {
    && |shuffled| == |names|
    && forall i :: 0 <= i < |shuffled| ==> multiset(shuffled[i]) == multiset(OfClass(sites, names[i]))
  }

  /** No class is ahead of another by more than one pick, unless the other has no sites left. */
  ghost predicate Fair(picked: seq<Site>, sites: seq<Site>, names: seq<string>) {
    forall a, b :: a in names && b in names && Tally(picked, a) > Tally(picked, b) + 1
      ==> Tally(picked, b) == Tally(sites, b)
  }

  lemma {:induction false} OfClassAppend(s: seq<Site>, x: Site, name: string)
    ensures OfClass(s + [x], name) == OfClass(s, name) + (if x.siteClass == name then [x] else [])
  {
    if s != [] {
      assert (s + [x])[1..] == s[1..] + [x];
      OfClassAppend(s[1..], x, name);
    } else {
      assert s + [x] == [x];
    }
  }

  lemma {:induction false} OfClassHasClass(s: seq<Site>, name: string)
    ensures forall x :: x in OfClass(s, name) ==> x.siteClass == name
  {
    if s != [] { OfClassHasClass(s[1..], name); }
  }

  lemma {:induction false} EligibleGrows(sites: seq<Site>, names: seq<string>, name: string)
    requires name !in names
    ensures multiset(Eligible(sites, names + [name])) ==
      multiset(Eligible(sites, names)) + multiset(OfClass(sites, name))
  {
    if sites != [] {
      EligibleGrows(sites[1..], names, name);
      assert sites == [sites[0]] + sites[1..];
    }
  }

  lemma {:induction false} EligibleNone(sites: seq<Site>)
    ensures Eligible(sites, []) == []
  {
    if sites != [] { EligibleNone(sites[1..]); }
  }

  lemma {:induction false} PooledAppend(pools: seq<seq<Site>>, pool: seq<Site>)
    ensures Pooled(pools + [pool]) == Pooled(pools) + multiset(pool)
  {
    if pools != [] {
      assert (pools + [pool])[1..] == pools[1..] + [pool];
      PooledAppend(pools[1..], pool);
    } else {
      assert pools + [pool] == [pool];
    }
  }

  lemma LastTaken<T>(s: seq<T>, k: nat)
    requires 0 < k <= |s|
    ensures s[..k] == s[..k - 1] + [s[k - 1]]
  {
  }

  lemma {:induction false} NewName(names: seq<string>, k: nat)
    requires Distinct(names) && k < |names|
    ensures names[k] !in names[..k]
  {
  }

  /** One more pool, of a class not yet named. */
  lemma {:induction false} OneMorePool(sites: seq<Site>, names: seq<string>, pools: seq<seq<Site>>, name: string,
                                       pool: seq<Site>)
    requires name !in names && multiset(pool) == multiset(OfClass(sites, name))
    requires Pooled(pools) == multiset(Eligible(sites, names))
    ensures Pooled(pools + [pool]) == multiset(Eligible(sites, names + [name]))
  {
    PooledAppend(pools, pool);
    EligibleGrows(sites, names, name);
  }

  /** The shuffled pools hold exactly the sites of the named classes. */
  lemma {:induction false} PoolsHoldEligible(sites: seq<Site>, names: seq<string>, shuffled: seq<seq<Site>>, k: nat)
    requires Distinct(names) && Shuffles(sites, names, shuffled) && k <= |shuffled|
    ensures Pooled(shuffled[..k]) == multiset(Eligible(sites, names[..k]))
  {
    if k == 0 {
      EligibleNone(sites);
    } else {
      var name, pool := names[k - 1], shuffled[k - 1];
      PoolsHoldEligible(sites, names, shuffled, k - 1);
      NewName(names, k - 1);
      OneMorePool(sites, names[..k - 1], shuffled[..k - 1], name, pool);
      LastTaken(names, k);
      LastTaken(shuffled, k);
    }
  }

  lemma {:induction false} PopPooled(pools: seq<seq<Site>>, i: nat)
    requires i < |pools| && pools[i] != []
    ensures var p := pools[i];
            Pooled(pools) == Pooled(pools[i := p[..|p| - 1]]) + multiset{p[|p| - 1]}
  {
    var p := pools[i];
    assert p == p[..|p| - 1] + [p[|p| - 1]];
    var rest := pools[i := p[..|p| - 1]];
    if i == 0 {
      assert rest[1..] == pools[1..];
    } else {
      assert rest[1..] == pools[1..][i - 1 := p[..|p| - 1]];
      PopPooled(pools[1..], i - 1);
    }
  }

  lemma {:induction false} EmptyPooled(pools: seq<seq<Site>>)
    requires forall i :: 0 <= i < |pools| ==> pools[i] == []
    ensures Pooled(pools) == multiset{}
  {
    if pools != [] { EmptyPooled(pools[1..]); }
  }

  ghost predicate Conserved(shuffled: seq<seq<Site>>, pools: seq<seq<Site>>, picked: seq<Site>) {
    Pooled(shuffled) == Pooled(pools) + multiset(picked)
  }

  /** Each pool is a prefix of its shuffled list (picks come off the end), and what is missing
      from it is what was picked of its class. */
  ghost predicate Drained(names: seq<string>, shuffled: seq<seq<Site>>, pools: seq<seq<Site>>, picked: seq<Site>) {
    && |pools| == |shuffled| == |names|
    && Conserved(shuffled, pools, picked)
    && forall i :: 0 <= i < |pools| ==>
         pools[i] <= shuffled[i] && Tally(picked, names[i]) == |shuffled[i]| - |pools[i]|
  }

  function Min(a: nat, b: nat): nat { if a <= b then a else b }

  /** After `round` full rounds and the first `turn` turns of the next one. */
  ghost predicate InRound(shuffled: seq<seq<Site>>, pools: seq<seq<Site>>, round: nat, turn: nat)
    requires |pools| == |shuffled|
  {
    forall i :: 0 <= i < |pools| ==>
      |shuffled[i]| - |pools[i]| == Min(|shuffled[i]|, if i < turn then round + 1 else round)
  }

  // Whose turn it is.

  /** A turn: the round, and the class within it. */
  datatype Place = Place(round: nat, turn: nat)

  predicate Before(a: Place, b: Place) { a.round < b.round || (a.round == b.round && a.turn < b.turn) }

  /** A turn in which the class still has a site. */
  predicate HasSite(shuffled: seq<seq<Site>>, p: Place) { p.turn < |shuffled| && p.round < |shuffled[p.turn]| }

  /** That site: the pools are used up from their ends. */
  function SiteAt(shuffled: seq<seq<Site>>, p: Place): Site
    requires HasSite(shuffled, p)
  {
    shuffled[p.turn][|shuffled[p.turn]| - 1 - p.round]
  }

  ghost predicate Increasing(places: seq<Place>) {
    forall i, j {:trigger places[i], places[j]} :: 0 <= i < j < |places| ==> Before(places[i], places[j])
  }

  /** The picks are those of all turns with a site before this one, in the order of the turns. */
  ghost predicate InTurn(shuffled: seq<seq<Site>>, picked: seq<Site>, places: seq<Place>, next: Place) {
    && |places| == |picked| && Increasing(places)
    && (forall k :: 0 <= k < |places| ==> HasSite(shuffled, places[k]) && picked[k] == SiteAt(shuffled, places[k]))
    && forall p :: p in places <==> HasSite(shuffled, p) && Before(p, next)
  }

  /** Classes take turns: the picks are those of the first turns that have a site, without a gap, in order. */
  ghost predicate TakesTurns(shuffled: seq<seq<Site>>, picked: seq<Site>) {
    exists places, next :: InTurn(shuffled, picked, places, next)
  }

  /** There is one such list of each length. */
  lemma TurnsDecide(shuffled: seq<seq<Site>>, a: seq<Site>, b: seq<Site>)
    requires TakesTurns(shuffled, a) && TakesTurns(shuffled, b) && |a| == |b|
    ensures a == b
  {
    var p, x :| InTurn(shuffled, a, p, x);
    var q, y :| InTurn(shuffled, b, q, y);
    if Before(x, y) || x == y {
      SamePlaces(shuffled, a, p, x, b, q, y);
    } else {
      SamePlaces(shuffled, b, q, y, a, p, x);
    }
  }

  lemma SamePlaces(shuffled: seq<seq<Site>>, a: seq<Site>, p: seq<Place>, x: Place, b: seq<Site>, q: seq<Place>,
                   y: Place)
    requires InTurn(shuffled, a, p, x) && InTurn(shuffled, b, q, y) && |a| == |b| && (Before(x, y) || x == y)
    ensures a == b
  {
    var s, t := set z | z in p, set z | z in q;
    IncreasingSize(p);
    IncreasingSize(q);
    SubsetSame(s, t);
    forall z ensures z in p <==> z in q { assert z in s <==> z in t; }
    SortedSame(p, q, |p|);
    assert p[..|p|] == p && q[..|p|] == q;
  }

  lemma SubsetSame(s: set<Place>, t: set<Place>)
    requires s <= t && |s| == |t|
    ensures s == t
  {
    assert t == s + (t - s);
  }

  lemma {:induction false} IncreasingSize(places: seq<Place>)
    requires Increasing(places)
    ensures |set t | t in places| == |places|
  {
    if places != [] {
      var n := |places| - 1;
      IncreasingSize(places[..n]);
      assert places == places[..n] + [places[n]];
      assert (set t | t in places) == (set t | t in places[..n]) + {places[n]};
    }
  }

  lemma {:induction false} SortedSame(p: seq<Place>, q: seq<Place>, k: nat)
    requires Increasing(p) && Increasing(q) && |p| == |q| && k <= |p| && forall t :: t in p <==> t in q
    ensures p[..k] == q[..k]
  {
    if k > 0 {
      SortedSame(p, q, k - 1);
      var i := PlaceOf(p, q, k - 1);
      var j := PlaceOf(q, p, k - 1);
      assert p[k - 1] == q[k - 1];
      assert p[..k] == p[..k - 1] + [p[k - 1]] && q[..k] == q[..k - 1] + [q[k - 1]];
    }
  }

  lemma PlaceOf(p: seq<Place>, q: seq<Place>, k: nat) returns (i: nat)
    requires Increasing(p) && k < |p| == |q| && p[..k] == q[..k] && forall t :: t in p <==> t in q
    ensures k <= i < |q| && q[i] == p[k]
  {
    forall z | 0 <= z < k ensures p[z] == q[z] { assert p[..k][z] == q[..k][z]; }
    assert p[k] in q;
    i :| 0 <= i < |q| && q[i] == p[k];
  }

  /** One turn taken. */
  lemma TurnTaken(names: seq<string>, shuffled: seq<seq<Site>>, pools: seq<seq<Site>>, picked: seq<Site>,
                  places: seq<Place>, round: nat, turn: nat) returns (more: seq<Place>)
    requires Drained(names, shuffled, pools, picked) && InRound(shuffled, pools, round, turn) && turn < |pools|
    requires InTurn(shuffled, picked, places, Place(round, turn))
    ensures InTurn(shuffled, PicksAfter(pools, picked, turn), more, Place(round, turn + 1))
  {
    assert pools[turn] <= shuffled[turn];
    if pools[turn] == [] {
      more := places;
      assert !HasSite(shuffled, Place(round, turn));
      EmptyTurn(shuffled, picked, places, round, turn);
    } else {
      more := places + [Place(round, turn)];
      assert SiteAt(shuffled, Place(round, turn)) == pools[turn][|pools[turn]| - 1];
      FullTurn(shuffled, picked, places, round, turn);
    }
  }

  lemma EmptyTurn(shuffled: seq<seq<Site>>, picked: seq<Site>, places: seq<Place>, round: nat, turn: nat)
    requires InTurn(shuffled, picked, places, Place(round, turn)) && !HasSite(shuffled, Place(round, turn))
    ensures InTurn(shuffled, picked, places, Place(round, turn + 1))
  {
    forall p ensures p in places <==> HasSite(shuffled, p) && Before(p, Place(round, turn + 1)) {}
  }

  lemma FullTurn(shuffled: seq<seq<Site>>, picked: seq<Site>, places: seq<Place>, round: nat, turn: nat)
    requires InTurn(shuffled, picked, places, Place(round, turn)) && HasSite(shuffled, Place(round, turn))
    ensures InTurn(shuffled, picked + [SiteAt(shuffled, Place(round, turn))], places + [Place(round, turn)],
      Place(round, turn + 1))
  {
    var here := Place(round, turn);
    var more := places + [here];
    forall i, j | 0 <= i < j < |more| ensures Before(more[i], more[j]) {
      if j < |places| { assert Before(places[i], places[j]); } else { assert places[i] in places; }
    }
    forall p ensures p in more <==> HasSite(shuffled, p) && Before(p, Place(round, turn + 1)) {
      assert p in more <==> p in places || p == here;
    }
  }

  lemma RoundTaken(shuffled: seq<seq<Site>>, picked: seq<Site>, places: seq<Place>, round: nat)
    requires InTurn(shuffled, picked, places, Place(round, |shuffled|))
    ensures InTurn(shuffled, picked, places, Place(round + 1, 0))
  {
    forall p ensures p in places <==> HasSite(shuffled, p) && Before(p, Place(round + 1, 0)) {}
  }

  lemma RoundIsFair(sites: seq<Site>, names: seq<string>, shuffled: seq<seq<Site>>, pools: seq<seq<Site>>,
                    picked: seq<Site>, round: nat, turn: nat)
    requires Shuffles(sites, names, shuffled) && Drained(names, shuffled, pools, picked)
    requires InRound(shuffled, pools, round, turn)
    ensures Fair(picked, sites, names)
  {
    forall i | 0 <= i < |shuffled| ensures |shuffled[i]| == Tally(sites, names[i]) {
      assert |multiset(shuffled[i])| == |multiset(OfClass(sites, names[i]))|;
    }
    forall a, b | a in names && b in names && Tally(picked, a) > Tally(picked, b) + 1
      ensures Tally(picked, b) == Tally(sites, b)
    {
      var i :| 0 <= i < |names| && names[i] == a;
      var j :| 0 <= j < |names| && names[j] == b;
      assert |shuffled[i]| - |pools[i]| <= round + 1;
      assert |shuffled[j]| - |pools[j]| < round;
    }
  }

  lemma PooledClass(sites: seq<Site>, names: seq<string>, shuffled: seq<seq<Site>>, i: nat, x: Site)
    requires Shuffles(sites, names, shuffled) && i < |shuffled| && x in shuffled[i]
    ensures x.siteClass == names[i]
  {
    assert x in multiset(shuffled[i]);
    OfClassHasClass(sites, names[i]);
  }

  lemma PickTallies(names: seq<string>, picked: seq<Site>, x: Site, i: nat)
    requires Distinct(names) && i < |names| && x.siteClass == names[i]
    ensures forall j :: 0 <= j < |names| ==>
      Tally(picked + [x], names[j]) == Tally(picked, names[j]) + (if j == i then 1 else 0)
  {
    forall j | 0 <= j < |names|
      ensures Tally(picked + [x], names[j]) == Tally(picked, names[j]) + (if j == i then 1 else 0)
    {
      OfClassAppend(picked, x, names[j]);
    }
  }

  lemma PickConserves(shuffled: seq<seq<Site>>, pools: seq<seq<Site>>, picked: seq<Site>, i: nat)
    requires i < |pools| && pools[i] != [] && Conserved(shuffled, pools, picked)
    ensures var p := pools[i]; Conserved(shuffled, pools[i := p[..|p| - 1]], picked + [p[|p| - 1]])
  {
    PopPooled(pools, i);
  }

  lemma TakePreserves(sites: seq<Site>, names: seq<string>, shuffled: seq<seq<Site>>, pools: seq<seq<Site>>,
                      picked: seq<Site>, i: nat)
    requires Distinct(names) && Shuffles(sites, names, shuffled) && Drained(names, shuffled, pools, picked)
    requires i < |pools| && pools[i] != []
    ensures var p := pools[i];
            Drained(names, shuffled, pools[i := p[..|p| - 1]], picked + [p[|p| - 1]])
  {
    var p := pools[i];
    var x := p[|p| - 1];
    PickConserves(shuffled, pools, picked, i);
    assert x == shuffled[i][|p| - 1];
    PooledClass(sites, names, shuffled, i, x);
    PickTallies(names, picked, x, i);
  }

  /** One turn of the round: the pools and picks after class `turn` has had its chance. */
  function PoolsAfter(pools: seq<seq<Site>>, turn: nat): (r: seq<seq<Site>>)
    requires turn < |pools|
    ensures |r| == |pools|
  {
    if pools[turn] == [] then pools else pools[turn := pools[turn][..|pools[turn]| - 1]]
  }

  function PicksAfter(pools: seq<seq<Site>>, picked: seq<Site>, turn: nat): (r: seq<Site>)
    requires turn < |pools|
    ensures |picked| <= |r| <= |picked| + 1
    ensures |r| == |picked| ==> pools[turn] == []
  {
    if pools[turn] == [] then picked else picked + [pools[turn][|pools[turn]| - 1]]
  }

  lemma TurnPreserves(sites: seq<Site>, names: seq<string>, shuffled: seq<seq<Site>>, pools: seq<seq<Site>>,
                      picked: seq<Site>, round: nat, turn: nat)
    requires Distinct(names) && Shuffles(sites, names, shuffled) && Drained(names, shuffled, pools, picked)
    requires InRound(shuffled, pools, round, turn) && turn < |pools|
    ensures Drained(names, shuffled, PoolsAfter(pools, turn), PicksAfter(pools, picked, turn))
    ensures InRound(shuffled, PoolsAfter(pools, turn), round, turn + 1)
    ensures forall i :: turn < i < |pools| ==> PoolsAfter(pools, turn)[i] == pools[i]
  {
    if pools[turn] != [] { TakePreserves(sites, names, shuffled, pools, picked, turn); }
    TurnAdvances(shuffled, pools, round, turn);
  }

  lemma TurnAdvances(shuffled: seq<seq<Site>>, pools: seq<seq<Site>>, round: nat, turn: nat)
    requires |pools| == |shuffled| && turn < |pools| && InRound(shuffled, pools, round, turn)
    ensures InRound(shuffled, PoolsAfter(pools, turn), round, turn + 1)
  {
  }

  /** The state before this turn of this round. */
  ghost predicate Going(names: seq<string>, shuffled: seq<seq<Site>>, pools: seq<seq<Site>>, picked: seq<Site>,
                        places: seq<Place>, round: nat, turn: nat) {
    Drained(names, shuffled, pools, picked) && InRound(shuffled, pools, round, turn)
      && InTurn(shuffled, picked, places, Place(round, turn))
  }

  lemma TurnGoesOn(sites: seq<Site>, names: seq<string>, shuffled: seq<seq<Site>>, pools: seq<seq<Site>>,
                   picked: seq<Site>, places: seq<Place>, round: nat, turn: nat) returns (more: seq<Place>)
    requires Distinct(names) && Shuffles(sites, names, shuffled) && turn < |pools|
    requires Going(names, shuffled, pools, picked, places, round, turn)
    ensures Going(names, shuffled, PoolsAfter(pools, turn), PicksAfter(pools, picked, turn), more, round, turn + 1)
    ensures forall i :: turn < i < |pools| ==> PoolsAfter(pools, turn)[i] == pools[i]
  {
    TurnPreserves(sites, names, shuffled, pools, picked, round, turn);
    more := TurnTaken(names, shuffled, pools, picked, places, round, turn);
  }

  /** One round of turns: every class with sites left gives one, until `count` is reached. */
  method TakeTurns(ghost sites: seq<Site>, ghost names: seq<string>, ghost shuffled: seq<seq<Site>>, count: nat,
                   start: seq<seq<Site>>, chosen: seq<Site>, ghost round: nat, ghost before: seq<Place>)
    returns (pools: seq<seq<Site>>, picked: seq<Site>, ghost turn: nat, ghost places: seq<Place>)
    requires Distinct(names) && Shuffles(sites, names, shuffled) && |chosen| < count
    requires Going(names, shuffled, start, chosen, before, round, 0)
    ensures Going(names, shuffled, pools, picked, places, round, turn)
    ensures |chosen| <= |picked| <= count
    ensures |picked| < count ==> turn == |pools|
    ensures |picked| == |chosen| ==> forall i :: 0 <= i < |start| ==> start[i] == []
  {
    pools, picked, turn, places := start, chosen, 0, before;
    for k := 0 to |start|
      invariant |pools| == |start|
      invariant Going(names, shuffled, pools, picked, places, round, turn)
      invariant |chosen| <= |picked| <= count
      invariant |picked| < count ==> turn == k && forall i :: k <= i < |start| ==> pools[i] == start[i]
      invariant |picked| == |chosen| ==> forall i :: 0 <= i < k ==> start[i] == []
    {
      if |picked| < count {
        places := TurnGoesOn(sites, names, shuffled, pools, picked, places, round, k);
        pools, picked, turn := PoolsAfter(pools, k), PicksAfter(pools, picked, k), k + 1;
      }
    }
  }

  lemma ConservedBounds(sites: seq<Site>, names: seq<string>, shuffled: seq<seq<Site>>, pools: seq<seq<Site>>,
                        picked: seq<Site>)
    requires Distinct(names) && Shuffles(sites, names, shuffled) && Conserved(shuffled, pools, picked)
    ensures multiset(picked) <= multiset(Eligible(sites, names))
    ensures |picked| <= |Eligible(sites, names)|
    ensures (forall i :: 0 <= i < |pools| ==> pools[i] == []) ==> |picked| == |Eligible(sites, names)|
  {
    PoolsHoldEligible(sites, names, shuffled, |shuffled|);
    assert shuffled[..|shuffled|] == shuffled && names[..|names|] == names;
    assert |Pooled(pools) + multiset(picked)| == |multiset(Eligible(sites, names))|;
    if forall i :: 0 <= i < |pools| ==> pools[i] == [] { EmptyPooled(pools); }
  }

  lemma SampleDone(sites: seq<Site>, names: seq<string>, shuffled: seq<seq<Site>>, pools: seq<seq<Site>>,
                   picked: seq<Site>, places: seq<Place>, round: nat, turn: nat)
    requires Distinct(names) && Shuffles(sites, names, shuffled)
      && Going(names, shuffled, pools, picked, places, round, turn)
    ensures multiset(picked) <= multiset(Eligible(sites, names)) && |picked| <= |Eligible(sites, names)|
    ensures (forall i :: 0 <= i < |pools| ==> pools[i] == []) ==> |picked| == |Eligible(sites, names)|
    ensures Fair(picked, sites, names) && TakesTurns(shuffled, picked)
  {
    RoundIsFair(sites, names, shuffled, pools, picked, round, turn);
    ConservedBounds(sites, names, shuffled, pools, picked);
  }

  /** A round, and where it leaves the turn. */
  method NextRound(ghost sites: seq<Site>, ghost names: seq<string>, ghost shuffled: seq<seq<Site>>, count: nat,
                   start: seq<seq<Site>>, chosen: seq<Site>, ghost before: seq<Place>, ghost at: nat)
    returns (pools: seq<seq<Site>>, picked: seq<Site>, ghost places: seq<Place>, ghost round: nat, ghost turn: nat)
    requires Distinct(names) && Shuffles(sites, names, shuffled) && |chosen| < count
    requires Going(names, shuffled, start, chosen, before, at, 0)
    requires exists i :: 0 <= i < |start| && start[i] != []
    ensures Going(names, shuffled, pools, picked, places, round, turn)
    ensures |chosen| < |picked| <= count && (|picked| < count ==> turn == 0)
  {
    pools, picked, turn, places := TakeTurns(sites, names, shuffled, count, start, chosen, at, before);
    round := at;
    if turn == |pools| {
      RoundTaken(shuffled, picked, places, round);
      round, turn := round + 1, 0;
    }
  }

  /** Rounds until there are enough picks or no sites left. */
  method PickAll(ghost sites: seq<Site>, count: int, ghost names: seq<string>, shuffled: seq<seq<Site>>)
    returns (picked: seq<Site>)
    requires Distinct(names) && Shuffles(sites, names, shuffled)
    ensures var total := |Eligible(sites, names)|;
            |picked| == if count < 0 then 0 else if count < total then count else total
    ensures multiset(picked) <= multiset(Eligible(sites, names))
    ensures Fair(picked, sites, names) && TakesTurns(shuffled, picked)
  {
    var pools := shuffled;
    picked := [];
    ghost var round, turn := 0, 0;
    ghost var places: seq<Place> := [];
    while |picked| < count && exists i :: 0 <= i < |pools| && pools[i] != []
      invariant Going(names, shuffled, pools, picked, places, round, turn)
      invariant |picked| < count ==> turn == 0
      invariant |picked| <= if count < 0 then 0 else count
      decreases count - |picked|
    {
      pools, picked, places, round, turn := NextRound(sites, names, shuffled, count, pools, picked, places, round);
    }
    SampleDone(sites, names, shuffled, pools, picked, places, round, turn);
  }

  /** Exactly min(count, eligible sites) picks, fair between the classes, for every shuffle. No site
      is picked more often than `sites` holds it. */
  method SampleClasses(sites: seq<Site>, count: int, names: seq<string>, shuffled: seq<seq<Site>>)
    returns (mutants: seq<Mutant>)
    requires Distinct(names) && Shuffles(sites, names, shuffled)
    ensures var total := |Eligible(sites, names)|;
            |mutants| == if count < 0 then 0 else if count < total then count else total
    ensures multiset(Sites(mutants)) <= multiset(Eligible(sites, names))
    ensures Fair(Sites(mutants), sites, names) && TakesTurns(shuffled, Sites(mutants))
    ensures forall k :: 0 <= k < |mutants| ==> mutants[k].number == k + 1
  {
    var picked := PickAll(sites, count, names, shuffled);
    mutants := Numbered(picked);
  }

  method SampleMutants(sites: seq<Site>, count: int, shuffled: seq<seq<Site>>) returns (mutants: seq<Mutant>)
    requires Shuffles(sites, MUTATION_CLASSES, shuffled)
    ensures var total := |Eligible(sites, MUTATION_CLASSES)|;
            |mutants| == if count < 0 then 0 else if count < total then count else total
    ensures multiset(Sites(mutants)) <= multiset(Eligible(sites, MUTATION_CLASSES))
    ensures Fair(Sites(mutants), sites, MUTATION_CLASSES) && TakesTurns(shuffled, Sites(mutants))
    ensures forall k :: 0 <= k < |mutants| ==> mutants[k].number == k + 1
  {
    mutants := SampleClasses(sites, count, MUTATION_CLASSES, shuffled);
  }
}

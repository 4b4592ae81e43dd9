/** Which candidates are ranked by their texts (src/ptest/agent_assessment.py:1777-1849): one bounded read each, in
order, on the shared ledger, until that is used up. */
module PacketPool {
  import opened Basics
  import opened Utf8
  import opened Admission

  /** A path and its listed size. */
  type Candidate = (string, nat)

  predicate IsText(b: Bytes) { 0 !in b && Valid(b) }

  /** The candidate is small enough, has not been read, and the ledger is used up. */
  predicate Stops(l: Limits, st: State, cache: Disk, c: Candidate) {
    c.1 <= l.perFile && c.0 !in cache && Exhausted(l, st)
  }

  /** The candidate is read from disk. */
  predicate Reads(l: Limits, st: State, cache: Disk, c: Candidate) {
    c.1 <= l.perFile && c.0 !in cache && !Exhausted(l, st)
  }

  /** Its bytes, if as many as listed are had and a sentinel read would have shown more. */
  function PoolReply(l: Limits, st: State, cache: Disk, disk: Disk, c: Candidate): (r: Option<Bytes>)
    ensures r.Some? ==> |r.value| == c.1 <= l.perFile && c.1 < MaxRead(l)
  {
    var (rel, size) := c;
    if size > l.perFile || size >= MaxRead(l) then None
    else if rel in cache then (if |cache[rel]| == size then Some(cache[rel]) else None)
    else if Exhausted(l, st) || rel !in disk then None
    else if Least(l.candidateBytes - st.bytesRead, |disk[rel]|) == size then Some(disk[rel][..size])
    else None
  }

  /** What the turn of a candidate charges: what was read, or all that was reserved when the read failed. */
  function PoolCharge(l: Limits, st: State, cache: Disk, disk: Disk, c: Candidate): State {
    if !Reads(l, st, cache, c) then st
    else st.(filesRead := st.filesRead + 1,
             bytesRead := st.bytesRead + if c.0 in disk then Least(ReadLimit(l, st), |disk[c.0]|) else ReadLimit(l, st))
  }

  function PoolCache(l: Limits, st: State, cache: Disk, disk: Disk, c: Candidate): Disk {
    var r := PoolReply(l, st, cache, disk, c);
    if r.Some? then cache[c.0 := r.value] else cache
  }

  /** The texts of the candidates, from a ledger and a cache on. */
  function PoolOf(l: Limits, st: State, cache: Disk, disk: Disk, candidates: seq<Candidate>): map<string, Bytes>
    decreases |candidates|
  {
    if candidates == [] || Stops(l, st, cache, candidates[0]) then map[]
    else
      var c := candidates[0];
      var r := PoolReply(l, st, cache, disk, c);
      (if r.Some? && IsText(r.value) then map[c.0 := r.value] else map[])
        + PoolOf(l, PoolCharge(l, st, cache, disk, c), PoolCache(l, st, cache, disk, c), disk, candidates[1..])
  }

  lemma PutFirst(texts: map<string, Bytes>, p: string, b: Bytes, rest: map<string, Bytes>)
    ensures texts + (map[p := b] + rest) == texts[p := b] + rest && texts + (map[] + rest) == texts + rest
  {
  }

  /** One turn of the pool, seen from its result. */
  lemma PoolStep(l: Limits, st: State, cache: Disk, disk: Disk, candidates: seq<Candidate>, texts: map<string, Bytes>,
                 i: nat)
    requires i < |candidates|
    ensures Stops(l, st, cache, candidates[i]) ==> PoolOf(l, st, cache, disk, candidates[i..]) == map[]
    ensures var c := candidates[i];
      var r := PoolReply(l, st, cache, disk, c);
      !Stops(l, st, cache, c) ==>
        texts + PoolOf(l, st, cache, disk, candidates[i..]) ==
        (if r.Some? && IsText(r.value) then texts[c.0 := r.value] else texts)
          + PoolOf(l, PoolCharge(l, st, cache, disk, c), PoolCache(l, st, cache, disk, c), disk, candidates[i + 1..])
  {
    var c := candidates[i];
    var r := PoolReply(l, st, cache, disk, c);
    assert candidates[i..][1..] == candidates[i + 1..];
    var rest :=
      PoolOf(l, PoolCharge(l, st, cache, disk, c), PoolCache(l, st, cache, disk, c), disk, candidates[i + 1..]);
    PutFirst(texts, c.0, if r.Some? then r.value else [], rest);
  }

  // What a caller can tell beforehand.

  /** How many of these candidates are small enough to be read. */
  function Opened(l: Limits, candidates: seq<Candidate>): nat {
    if candidates == [] then 0 else (if candidates[0].1 <= l.perFile then 1 else 0) + Opened(l, candidates[1..])
  }

  /** The bytes that reading those takes. */
  function Spent(l: Limits, candidates: seq<Candidate>): nat {
    if candidates == [] then 0
    else (if candidates[0].1 <= l.perFile then Least(MaxRead(l), candidates[0].1) else 0) + Spent(l, candidates[1..])
  }

  /** The files and bytes left suffice for the i-th candidate after all before it. */
  predicate RoomFor(l: Limits, filesRead: nat, bytesRead: int, candidates: seq<Candidate>, i: nat)
    requires i < |candidates|
  {
    && filesRead + Opened(l, candidates[..i]) < l.candidateFiles
    && bytesRead + Spent(l, candidates[..i]) + (if candidates[i].1 == 0 then 1 else candidates[i].1) <= l.candidateBytes
  }

  predicate AsOnDisk(disk: Disk, candidates: seq<Candidate>) {
    forall i :: 0 <= i < |candidates| ==> candidates[i].0 in disk && |disk[candidates[i].0]| == candidates[i].1
  }

  predicate Fresh(cache: Disk, candidates: seq<Candidate>) {
    forall i :: 0 <= i < |candidates| ==> candidates[i].0 !in cache
  }

  predicate Paths(candidates: seq<Candidate>) {
    forall i, j {:trigger OtherPath(candidates, i, j)} :: 0 <= i < j < |candidates| ==> OtherPath(candidates, i, j)
  }

  predicate OtherPath(candidates: seq<Candidate>, i: nat, j: nat)
    requires i < j < |candidates|
  {
    candidates[i].0 != candidates[j].0
  }

  /** The i-th candidate is small enough to be read whole and to show it, it is text, and there is room for it. */
  predicate Ranks(l: Limits, filesRead: nat, bytesRead: int, disk: Disk, candidates: seq<Candidate>, i: nat)
    requires i < |candidates| && candidates[i].0 in disk
  {
    && candidates[i].1 <= l.perFile && candidates[i].1 < MaxRead(l) && IsText(disk[candidates[i].0])
    && RoomFor(l, filesRead, bytesRead, candidates, i)
  }

  lemma {:induction false} PoolKeys(l: Limits, st: State, cache: Disk, disk: Disk, candidates: seq<Candidate>,
                                    p: string)
    requires forall i :: 0 <= i < |candidates| ==> candidates[i].0 != p
    ensures p !in PoolOf(l, st, cache, disk, candidates)
    decreases |candidates|
  {
    if candidates != [] && !Stops(l, st, cache, candidates[0]) {
      var c := candidates[0];
      PoolKeys(l, PoolCharge(l, st, cache, disk, c), PoolCache(l, st, cache, disk, c), disk, candidates[1..], p);
    }
  }

  lemma TailFacts(cache: Disk, disk: Disk, candidates: seq<Candidate>, r: Option<Bytes>)
    requires candidates != [] && AsOnDisk(disk, candidates) && Fresh(cache, candidates) && Paths(candidates)
    ensures AsOnDisk(disk, candidates[1..]) && Paths(candidates[1..])
    ensures Fresh(if r.Some? then cache[candidates[0].0 := r.value] else cache, candidates[1..])
    ensures forall i :: 0 <= i < |candidates[1..]| ==> candidates[1..][i].0 != candidates[0].0
  {
    var rest := candidates[1..];
    forall i | 0 <= i < |rest| ensures rest[i].0 != candidates[0].0 { assert OtherPath(candidates, 0, i + 1); }
    forall i, j | 0 <= i < j < |rest| ensures OtherPath(rest, i, j) { assert OtherPath(candidates, i + 1, j + 1); }
  }

  /** Room for a later candidate, seen after the first one's turn. */
  lemma RoomLater(l: Limits, st: State, cache: Disk, disk: Disk, candidates: seq<Candidate>, i: nat)
    requires 0 < i < |candidates| && AsOnDisk(disk, candidates) && candidates[0].0 !in cache
    ensures Stops(l, st, cache, candidates[0]) ==> !RoomFor(l, st.filesRead, st.bytesRead, candidates, i)
    ensures var to := PoolCharge(l, st, cache, disk, candidates[0]);
      !Stops(l, st, cache, candidates[0]) ==>
        (RoomFor(l, st.filesRead, st.bytesRead, candidates, i) <==>
          RoomFor(l, to.filesRead, to.bytesRead, candidates[1..], i - 1))
  {
    assert candidates[..i][1..] == candidates[1..][..i - 1] && candidates[1..][i - 1] == candidates[i];
  }

  /** Of files that are as listed, on disk and unread, exactly those are ranked that are complete texts for which the
      ledger has room after the ones before them; and they are ranked by their whole text. */
  lemma {:induction false} PoolDecided(l: Limits, st: State, cache: Disk, disk: Disk, candidates: seq<Candidate>,
                                       i: nat)
    requires AsOnDisk(disk, candidates) && Fresh(cache, candidates) && Paths(candidates) && i < |candidates|
    ensures candidates[i].0 in PoolOf(l, st, cache, disk, candidates) <==>
      Ranks(l, st.filesRead, st.bytesRead, disk, candidates, i)
    ensures candidates[i].0 in PoolOf(l, st, cache, disk, candidates) ==>
      PoolOf(l, st, cache, disk, candidates)[candidates[i].0] == disk[candidates[i].0]
    decreases |candidates|
  {
    var c, rest := candidates[0], candidates[1..];
    var r := PoolReply(l, st, cache, disk, c);
    var to, kept := PoolCharge(l, st, cache, disk, c), PoolCache(l, st, cache, disk, c);
    TailFacts(cache, disk, candidates, r);
    if i == 0 {
      assert candidates[..0] == [];
      PoolKeys(l, to, kept, disk, rest, c.0);
      assert r.Some? ==> r.value == disk[c.0];
    } else {
      RoomLater(l, st, cache, disk, candidates, i);
      if !Stops(l, st, cache, c) {
        assert rest[i - 1] == candidates[i];
        PoolDecided(l, to, kept, disk, rest, i - 1);
      }
    }
  }
}

/** Admitting candidate files into one evidence packet under the per-child caps
(src/ptest/agent_assessment.py:1421-1576), as functions of the packet state. */
module Admission {
  import opened Basics
  import opened Utf8

  datatype Limits = Limits(files: nat, bytes: nat, perFile: nat, prompt: nat, candidateFiles: nat, candidateBytes: nat)

  predicate Positive(l: Limits) {
    l.files > 0 && l.bytes > 0 && l.perFile > 0 && l.prompt > 0 && l.candidateFiles > 0 && l.candidateBytes > 0
  }

  /** One excerpt plus one sentinel byte. */
  function MaxRead(l: Limits): nat { Least(l.perFile, l.bytes) + 1 }

  /** An admitted file; its text is kept in encoded form. */
  datatype Excerpt = Excerpt(path: string, startLine: nat, endLine: nat, digest: string, text: Bytes, complete: bool)

  /** Line counting and hashing. */
  datatype Codec = Codec(lines: Bytes -> nat, digest: Bytes -> string)

  /** The packet so far and the ledger of candidate reads. */
  datatype State = State(
    excerpts: seq<Excerpt>, paths: map<string, string>, byteCount: nat,
    truncated: nat, skipped: nat, filesRead: nat, bytesRead: int)

  /** The part after the last slash. */
  function BaseName(rel: string): string
    decreases |rel|
  {
    if rel == [] || rel[|rel| - 1] == '/' then "" else BaseName(rel[..|rel| - 1]) + [rel[|rel| - 1]]
  }

  function Chunk(raw: Bytes, cap: nat): (r: Bytes)
    ensures |r| <= cap && r <= raw
  {
    if |raw| <= cap then raw else
      ShortenedFacts(raw[..cap]);
      Shortened(raw[..cap])
  }

  function NewExcerpt(codec: Codec, prefix: string, rel: string, chunk: Bytes, cut: bool): Excerpt {
    Excerpt(prefix + rel, 1, if codec.lines(chunk) == 0 then 1 else codec.lines(chunk), codec.digest(chunk), chunk,
      !cut)
  }

  /** The checks on bytes in hand. */
  function Place(codec: Codec, l: Limits, prefix: string, st: State, rel: string, raw: Bytes): State {
    var chunk := Chunk(raw, l.perFile);
    var cut := |raw| > l.perFile;
    if cut && chunk == [] then st.(truncated := st.truncated + 1)
    else if chunk == [] then st.(skipped := st.skipped + 1)
    else if st.byteCount + |chunk| > l.bytes then st.(truncated := st.truncated + 1)
    else if 0 in chunk || !Valid(chunk) then st.(skipped := st.skipped + 1)
    else
      var excerpt := NewExcerpt(codec, prefix, rel, chunk, cut);
      var base := BaseName(rel);
      st.(excerpts := st.excerpts + [excerpt],
          paths := if base in st.paths then st.paths else st.paths[base := excerpt.path],
          byteCount := st.byteCount + |chunk|,
          truncated := st.truncated + if cut then 1 else 0)
  }

  predicate Exhausted(l: Limits, st: State) {
    st.filesRead >= l.candidateFiles || st.bytesRead >= l.candidateBytes
  }

  /** What a fresh read reserves: the sentinel-sized bound, or what is left of the byte budget. */
  function ReadLimit(l: Limits, st: State): (r: nat)
    requires !Exhausted(l, st)
  {
    if st.bytesRead + MaxRead(l) <= l.candidateBytes then MaxRead(l) else l.candidateBytes - st.bytesRead
  }

  predicate FromCache(l: Limits, cached: Option<Bytes>) { cached.Some? && |cached.value| <= MaxRead(l) }

  /** Whether this candidate opens the file. */
  predicate Opens(l: Limits, st: State, cached: Option<Bytes>) {
    |st.excerpts| < l.files && !FromCache(l, cached) && !Exhausted(l, st)
  }

  /** `_admit_candidate`; `reply` is what the bounded read returned, if there was one. */
  function Admit(codec: Codec, l: Limits, prefix: string, st: State, rel: string, cached: Option<Bytes>,
                 reply: Option<Bytes>): State {
    if |st.excerpts| >= l.files then st.(truncated := st.truncated + 1)
    else if FromCache(l, cached) then Place(codec, l, prefix, st, rel, cached.value)
    else if Exhausted(l, st) then st.(truncated := st.truncated + 1)
    else
      var limit := ReadLimit(l, st);
      var charged := st.(filesRead := st.filesRead + 1, bytesRead := st.bytesRead + limit);
      if reply.None? then charged.(skipped := st.skipped + 1)
      else
        var raw := reply.value;
        var settled := charged.(bytesRead := charged.bytesRead - (limit - |raw|));
        if limit < MaxRead(l) && |raw| == limit then settled.(truncated := st.truncated + 1)
        else Place(codec, l, prefix, settled, rel, raw)
  }

  /** A bounded read returns at most what it asked for. */
  predicate Bounded(l: Limits, st: State, cached: Option<Bytes>, reply: Option<Bytes>) {
    Opens(l, st, cached) && reply.Some? ==> |reply.value| <= ReadLimit(l, st)
  }

  // What every packet state keeps.

  function TotalBytes(excerpts: seq<Excerpt>): nat {
    if excerpts == [] then 0 else TotalBytes(excerpts[..|excerpts| - 1]) + |excerpts[|excerpts| - 1].text|
  }

  function PathsOf(excerpts: seq<Excerpt>): set<string> { set i | 0 <= i < |excerpts| :: excerpts[i].path }

  predicate GoodExcerpt(codec: Codec, l: Limits, e: Excerpt) {
    && e.text != [] && Valid(e.text) && 0 !in e.text && |e.text| <= l.perFile
    && e.digest == codec.digest(e.text) && e.startLine == 1
    && e.endLine == if codec.lines(e.text) == 0 then 1 else codec.lines(e.text)
  }

  predicate Apart(excerpts: seq<Excerpt>, i: nat, j: nat)
    requires i < j < |excerpts|
  {
    excerpts[i].path != excerpts[j].path
  }

  ghost predicate DistinctPaths(excerpts: seq<Excerpt>) {
    forall i, j {:trigger Apart(excerpts, i, j)} :: 0 <= i < j < |excerpts| ==> Apart(excerpts, i, j)
  }

  lemma FirstDistinct(excerpts: seq<Excerpt>, n: nat)
    requires DistinctPaths(excerpts) && n <= |excerpts|
    ensures DistinctPaths(excerpts[..n])
  {
    forall i, j | 0 <= i < j < n ensures Apart(excerpts[..n], i, j) { assert Apart(excerpts, i, j); }
  }

  ghost predicate Sound(codec: Codec, l: Limits, st: State) {
    && |st.excerpts| <= l.files && st.byteCount == TotalBytes(st.excerpts) && st.byteCount <= l.bytes
    && (forall i :: 0 <= i < |st.excerpts| ==> GoodExcerpt(codec, l, st.excerpts[i]))
    && st.filesRead <= l.candidateFiles && 0 <= st.bytesRead <= l.candidateBytes
  }

  lemma PathsGrow(excerpts: seq<Excerpt>, e: Excerpt)
    ensures PathsOf(excerpts + [e]) == PathsOf(excerpts) + {e.path}
  {
    var all := excerpts + [e];
    assert all[|excerpts|] == e;
    forall p | p in PathsOf(excerpts) ensures p in PathsOf(all) {
      var i :| 0 <= i < |excerpts| && excerpts[i].path == p;
      assert all[i].path == p;
    }
  }

  lemma PlaceSound(codec: Codec, l: Limits, prefix: string, st: State, rel: string, raw: Bytes)
    requires Sound(codec, l, st) && |st.excerpts| < l.files
    ensures Sound(codec, l, Place(codec, l, prefix, st, rel, raw))
  {
    var to := Place(codec, l, prefix, st, rel, raw);
    if to.excerpts != st.excerpts {
      assert to.excerpts[..|to.excerpts| - 1] == st.excerpts;
    }
  }

  /** Caps, byte count and excerpt quality survive every candidate, whatever the read returned. */
  lemma AdmitSound(codec: Codec, l: Limits, prefix: string, st: State, rel: string, cached: Option<Bytes>,
                   reply: Option<Bytes>)
    requires Sound(codec, l, st) && Bounded(l, st, cached, reply)
    ensures Sound(codec, l, Admit(codec, l, prefix, st, rel, cached, reply))
  {
    if |st.excerpts| < l.files {
      if FromCache(l, cached) {
        PlaceSound(codec, l, prefix, st, rel, cached.value);
      } else if !Exhausted(l, st) && reply.Some? {
        assert ReadLimit(l, st) <= l.candidateBytes - st.bytesRead;
        var settled := st.(filesRead := st.filesRead + 1, bytesRead := st.bytesRead + |reply.value|);
        assert Sound(codec, l, settled);
        PlaceSound(codec, l, prefix, settled, rel, reply.value);
      }
    }
  }

  datatype Fate = Admitted(complete: bool) | Truncated | Skipped

  /** What the counters say happened to one candidate. */
  predicate Counted(was: State, now: State, fate: Fate, prefix: string, rel: string) {
    match fate
    case Admitted(complete) =>
      && |now.excerpts| == |was.excerpts| + 1 && now.excerpts[..|was.excerpts|] == was.excerpts
      && now.excerpts[|was.excerpts|].path == prefix + rel && now.excerpts[|was.excerpts|].complete == complete
      && now.byteCount == was.byteCount + |now.excerpts[|was.excerpts|].text|
      && now.truncated == was.truncated + (if complete then 0 else 1) && now.skipped == was.skipped
    case Truncated =>
      now.excerpts == was.excerpts && now.paths == was.paths && now.byteCount == was.byteCount
      && now.truncated == was.truncated + 1 && now.skipped == was.skipped
    case Skipped =>
      now.excerpts == was.excerpts && now.paths == was.paths && now.byteCount == was.byteCount
      && now.truncated == was.truncated && now.skipped == was.skipped + 1
  }

  /** Every candidate meets exactly one fate; only an excerpt of a cut file counts as truncated too. */
  lemma ExactlyOneFate(codec: Codec, l: Limits, prefix: string, st: State, rel: string, cached: Option<Bytes>,
                       reply: Option<Bytes>)
    returns (fate: Fate)
    ensures Counted(st, Admit(codec, l, prefix, st, rel, cached, reply), fate, prefix, rel)
    ensures forall other ::
      Counted(st, Admit(codec, l, prefix, st, rel, cached, reply), other, prefix, rel) ==> other == fate
  {
    var to := Admit(codec, l, prefix, st, rel, cached, reply);
    if |to.excerpts| > |st.excerpts| {
      fate := Admitted(to.excerpts[|st.excerpts|].complete);
    } else if to.truncated > st.truncated {
      fate := Truncated;
    } else {
      fate := Skipped;
    }
  }

  // One candidate's fate from its bytes and the counts before it.

  /** The packet has a place, and there are bytes at hand or the ledger allows a read. */
  predicate InReach(l: Limits, st: State, cached: Option<Bytes>) {
    && |st.excerpts| < l.files
    && ((cached.Some? && |cached.value| <= Least(l.perFile, l.bytes) + 1)
      || (st.filesRead < l.candidateFiles && st.bytesRead < l.candidateBytes))
  }

  /** The bytes the decision is about: kept ones within the bound of a read, and otherwise what the read gave. */
  function AtHand(l: Limits, cached: Option<Bytes>, reply: Option<Bytes>): Option<Bytes> {
    if cached.Some? && |cached.value| <= Least(l.perFile, l.bytes) + 1 then cached else reply
  }

  /** A read that the byte budget kept below the bound, and that filled what was left of it. */
  predicate CutByBudget(l: Limits, st: State, cached: Option<Bytes>, reply: Option<Bytes>) {
    && !(cached.Some? && |cached.value| <= Least(l.perFile, l.bytes) + 1) && reply.Some?
    && l.candidateBytes - st.bytesRead <= Least(l.perFile, l.bytes) && |reply.value| == l.candidateBytes - st.bytesRead
  }

  /** What the cap leaves: all of it, or the shortest valid string among the first cap bytes and those less at most
      three; nothing if none of them is valid. */
  ghost predicate LeftByCap(raw: Bytes, cap: nat, chunk: Bytes) {
    if |raw| <= cap then chunk == raw
    else if exists t :: 0 <= t <= 3 && ValidLess(raw[..cap], t) then
      exists t :: 0 <= t <= 3 && ValidLess(raw[..cap], t) && chunk == raw[..cap - t]
        && forall s :: t < s <= 3 ==> !ValidLess(raw[..cap], s)
    else chunk == []
  }

  lemma ChunkIsLeft(raw: Bytes, cap: nat)
    ensures LeftByCap(raw, cap, Chunk(raw, cap))
  {
    if |raw| > cap {
      var head := raw[..cap];
      if ValidLess(head, 3) {
        ShortenedAt(raw, cap, 3);
      } else if ValidLess(head, 2) {
        ShortenedAt(raw, cap, 2);
      } else if ValidLess(head, 1) {
        ShortenedAt(raw, cap, 1);
      } else if ValidLess(head, 0) {
        ShortenedAt(raw, cap, 0);
      } else {
        NothingValid(head);
      }
    }
  }

  lemma ShortenedAt(raw: Bytes, cap: nat, t: nat)
    requires cap < |raw| && t <= 3 && ValidLess(raw[..cap], t)
    requires forall s :: t < s <= 3 ==> !ValidLess(raw[..cap], s)
    ensures Shortened(raw[..cap]) == raw[..cap - t]
  {
    ShortenedIs(raw[..cap], t);
    assert raw[..cap][..cap - t] == raw[..cap - t];
  }

  /** The component of a path that starts here and ends it. */
  predicate LastFrom(rel: string, k: int) {
    0 <= k <= |rel| && (k == 0 || rel[k - 1] == '/') && forall i :: k <= i < |rel| ==> rel[i] != '/'
  }

  lemma {:induction false} BaseNameFrom(rel: string) returns (k: nat)
    ensures LastFrom(rel, k) && BaseName(rel) == rel[k..]
    decreases |rel|
  {
    if rel == "" || rel[|rel| - 1] == '/' {
      k := |rel|;
    } else {
      k := BaseNameFrom(rel[..|rel| - 1]);
      assert rel[k..] == rel[..|rel| - 1][k..] + [rel[|rel| - 1]];
    }
  }

  lemma LastFromUnique(rel: string, j: int, k: int)
    requires LastFrom(rel, j) && LastFrom(rel, k)
    ensures j == k
  {
  }

  /** Which fate it is. The chunk is what the cap leaves of the bytes at hand. */
  predicate Decides(l: Limits, st: State, cached: Option<Bytes>, reply: Option<Bytes>, chunk: Bytes, fate: Fate) {
    var raw, cut := AtHand(l, cached, reply), CutByBudget(l, st, cached, reply);
    var room := st.byteCount + |chunk| <= l.bytes;
    && (fate.Skipped? <==>
      InReach(l, st, cached) && (raw.None? ||
        (!cut && (raw.value == [] || (chunk != [] && room && (0 in chunk || !Valid(chunk)))))))
    && (fate.Admitted? <==>
      InReach(l, st, cached) && raw.Some? && !cut && chunk != [] && room && 0 !in chunk && Valid(chunk))
    && (fate.Admitted? ==> (fate.complete <==> |raw.value| <= l.perFile))
  }

  /** What that does to the packet. */
  ghost predicate Adds(codec: Codec, prefix: string, was: State, rel: string, chunk: Bytes, fate: Fate, now: State) {
    && Counted(was, now, fate, prefix, rel)
    && (fate.Admitted? ==> now.excerpts == was.excerpts + [Excerpt(prefix + rel, 1,
        if codec.lines(chunk) == 0 then 1 else codec.lines(chunk), codec.digest(chunk), chunk, fate.complete)])
    && (fate.Admitted? ==> forall k :: LastFrom(rel, k) ==>
      now.paths == if rel[k..] in was.paths then was.paths else was.paths[rel[k..] := prefix + rel])
  }

  /** What it does to the ledger: a read is charged what it gave, and a failed one what it could have given. */
  predicate Charges(l: Limits, was: State, cached: Option<Bytes>, reply: Option<Bytes>, now: State) {
    var opens := InReach(l, was, cached) && !(cached.Some? && |cached.value| <= Least(l.perFile, l.bytes) + 1);
    && now.filesRead == was.filesRead + (if opens then 1 else 0)
    && now.bytesRead == was.bytesRead +
      if !opens then 0
      else if reply.Some? then |reply.value|
      else Least(Least(l.perFile, l.bytes) + 1, l.candidateBytes - was.bytesRead)
  }

  ghost predicate Judged(codec: Codec, l: Limits, prefix: string, was: State, rel: string, cached: Option<Bytes>,
                         reply: Option<Bytes>, fate: Fate, now: State) {
    exists chunk: Bytes ::
      && (AtHand(l, cached, reply).Some? ==> LeftByCap(AtHand(l, cached, reply).value, l.perFile, chunk))
      && Decides(l, was, cached, reply, chunk, fate)
      && Adds(codec, prefix, was, rel, chunk, fate, now) && Charges(l, was, cached, reply, now)
  }

  /** Skipped exactly when the read failed, or the bytes had no budget cut and are empty, or they have room and what
      the cap leaves is no text; admitted exactly when there is room and it is nonempty text; truncated otherwise. */
  lemma FateDecided(codec: Codec, l: Limits, prefix: string, st: State, rel: string, cached: Option<Bytes>,
                    reply: Option<Bytes>, fate: Fate)
    requires Counted(st, Admit(codec, l, prefix, st, rel, cached, reply), fate, prefix, rel)
    ensures Judged(codec, l, prefix, st, rel, cached, reply, fate, Admit(codec, l, prefix, st, rel, cached, reply))
  {
    var raw := AtHand(l, cached, reply);
    if raw.Some? { ChunkIsLeft(raw.value, l.perFile); }
    FateDecides(codec, l, prefix, st, rel, cached, reply, fate);
    FateAdds(codec, l, prefix, st, rel, cached, reply, fate);
    AdmitCharges(codec, l, prefix, st, rel, cached, reply);
  }

  function ChunkAtHand(l: Limits, cached: Option<Bytes>, reply: Option<Bytes>): Bytes {
    if AtHand(l, cached, reply).Some? then Chunk(AtHand(l, cached, reply).value, l.perFile) else []
  }

  lemma FateDecides(codec: Codec, l: Limits, prefix: string, st: State, rel: string, cached: Option<Bytes>,
                    reply: Option<Bytes>, fate: Fate)
    requires Counted(st, Admit(codec, l, prefix, st, rel, cached, reply), fate, prefix, rel)
    ensures Decides(l, st, cached, reply, ChunkAtHand(l, cached, reply), fate)
  {
  }

  lemma AdmitCharges(codec: Codec, l: Limits, prefix: string, st: State, rel: string, cached: Option<Bytes>,
                     reply: Option<Bytes>)
    ensures Charges(l, st, cached, reply, Admit(codec, l, prefix, st, rel, cached, reply))
  {
  }

  lemma FateAdds(codec: Codec, l: Limits, prefix: string, st: State, rel: string, cached: Option<Bytes>,
                 reply: Option<Bytes>, fate: Fate)
    requires Counted(st, Admit(codec, l, prefix, st, rel, cached, reply), fate, prefix, rel)
    ensures Adds(codec, prefix, st, rel, ChunkAtHand(l, cached, reply), fate,
      Admit(codec, l, prefix, st, rel, cached, reply))
  {
    var start := BaseNameFrom(rel);
    forall k | LastFrom(rel, k) ensures k == start { LastFromUnique(rel, k, start); }
  }

  lemma AdmitPaths(codec: Codec, l: Limits, prefix: string, st: State, rel: string, cached: Option<Bytes>,
                   reply: Option<Bytes>)
    ensures var to := Admit(codec, l, prefix, st, rel, cached, reply);
      && st.excerpts <= to.excerpts
        && PathsOf(st.excerpts) <= PathsOf(to.excerpts) <= PathsOf(st.excerpts) + {prefix + rel}
      && (prefix + rel in PathsOf(to.excerpts) <==> prefix + rel in PathsOf(st.excerpts) || to.excerpts != st.excerpts)
      && (DistinctPaths(st.excerpts) && prefix + rel !in PathsOf(st.excerpts) ==> DistinctPaths(to.excerpts))
  {
    var to := Admit(codec, l, prefix, st, rel, cached, reply);
    var fate := ExactlyOneFate(codec, l, prefix, st, rel, cached, reply);
    if fate.Admitted? {
      var e := to.excerpts[|st.excerpts|];
      assert to.excerpts == st.excerpts + [e];
      PathsGrow(st.excerpts, e);
      if DistinctPaths(st.excerpts) && prefix + rel !in PathsOf(st.excerpts) {
        forall i, j | 0 <= i < j < |to.excerpts| ensures Apart(to.excerpts, i, j) {
          if j < |st.excerpts| {
            assert Apart(st.excerpts, i, j);
          } else {
            assert to.excerpts[i].path in PathsOf(st.excerpts);
          }
        }
      }
    }
  }

  // A whole list of candidates over files that do not change.

  type Disk = map<string, Bytes>

  function Lookup(files: map<string, Bytes>, rel: string): Option<Bytes> {
    if rel in files then Some(files[rel]) else None
  }

  function Reply(disk: Disk, rel: string, limit: nat): Option<Bytes> {
    if rel in disk then Some(disk[rel][..Least(limit, |disk[rel]|)]) else None
  }

  function AdmitOne(codec: Codec, l: Limits, prefix: string, st: State, rel: string, cache: Disk, disk: Disk): State {
    Admit(codec, l, prefix, st, rel, Lookup(cache, rel),
      if Exhausted(l, st) then None else Reply(disk, rel, ReadLimit(l, st)))
  }

  function AdmitAll(codec: Codec, l: Limits, prefix: string, st: State, rels: seq<string>, cache: Disk,
                    disk: Disk): State
    decreases |rels|
  {
    if rels == [] then st
    else AdmitAll(codec, l, prefix, AdmitOne(codec, l, prefix, st, rels[0], cache, disk), rels[1..], cache, disk)
  }

  // The projection from sizes.

  datatype Tally = Tally(files: nat, bytes: nat, skipped: nat, truncated: nat)

  function TallyOf(st: State): Tally { Tally(|st.excerpts|, st.byteCount, st.skipped, st.truncated) }

  function Projected(l: Limits, t: Tally, size: nat): Tally {
    if t.files >= l.files then t.(truncated := t.truncated + 1)
    else
      var chunk := Least(size, l.perFile);
      if chunk == 0 then t.(skipped := t.skipped + 1)
      else if t.bytes + chunk > l.bytes then t.(truncated := t.truncated + 1)
      else t.(files := t.files + 1, bytes := t.bytes + chunk,
        truncated := t.truncated + if size > l.perFile then 1 else 0)
  }

  function ProjectedAll(l: Limits, t: Tally, sizes: seq<nat>): Tally
    decreases |sizes|
  {
    if sizes == [] then t else ProjectedAll(l, Projected(l, t, sizes[0]), sizes[1..])
  }

  /** How many files the projection admits and cuts. */
  function ProjectedCuts(l: Limits, t: Tally, sizes: seq<nat>): nat
    decreases |sizes|
  {
    if sizes == [] then 0
    else
      var to := Projected(l, t, sizes[0]);
      ProjectedCuts(l, to, sizes[1..]) + if to.files > t.files && sizes[0] > l.perFile then 1 else 0
  }

  /** The projection counts every file once, and a cut one twice. */
  lemma {:induction false} ProjectionBalances(l: Limits, t: Tally, sizes: seq<nat>)
    ensures var p := ProjectedAll(l, t, sizes);
      && p.files >= t.files && p.skipped >= t.skipped && p.truncated >= t.truncated
      && (p.files - t.files) + (p.skipped - t.skipped) + (p.truncated - t.truncated) ==
        |sizes| + ProjectedCuts(l, t, sizes)
    decreases |sizes|
  {
    if sizes != [] { ProjectionBalances(l, Projected(l, t, sizes[0]), sizes[1..]); }
  }

  /** `_project_static_admission`. */
  method ProjectStaticAdmission(l: Limits, t: Tally, sizes: seq<nat>)
    returns (admitted: nat, skipped: nat, truncated: nat)
    ensures var p := ProjectedAll(l, t, sizes);
      admitted == p.files - t.files && skipped == p.skipped && truncated == p.truncated
  {
    var files: nat, bytes: nat := t.files, t.bytes;
    admitted, skipped, truncated := 0, t.skipped, t.truncated;
    var i := 0;
    assert sizes[0..] == sizes;
    while i < |sizes|
      invariant 0 <= i <= |sizes|
      invariant files == t.files + admitted
      invariant ProjectedAll(l, t, sizes) == ProjectedAll(l, Tally(files, bytes, skipped, truncated), sizes[i..])
    {
      var size := sizes[i];
      assert sizes[i..][1..] == sizes[i + 1..];
      if files >= l.files {
        truncated := truncated + 1;
      } else {
        var chunk := Least(size, l.perFile);
        if chunk == 0 {
          skipped := skipped + 1;
        } else if bytes + chunk > l.bytes {
          truncated := truncated + 1;
        } else {
          files, bytes, admitted := files + 1, bytes + chunk, admitted + 1;
          if size > l.perFile { truncated := truncated + 1; }
        }
      }
      i := i + 1;
    }
  }

  /** Readable text, and nothing but it (or nothing at all) in the cache. */
  predicate Plain(rel: string, cache: Disk, disk: Disk) {
    && rel in disk && Valid(disk[rel]) && 0 !in disk[rel]
    && (rel in cache ==> cache[rel] == disk[rel])
  }

  ghost predicate AllPlain(rels: seq<string>, cache: Disk, disk: Disk) {
    forall p {:trigger p in rels} :: p in rels ==> Plain(p, cache, disk)
  }

  function Sizes(rels: seq<string>, disk: Disk): (r: seq<nat>)
    requires forall p :: p in rels ==> p in disk
    ensures |r| == |rels|
  {
    if rels == [] then [] else [|disk[rels[0]]|] + Sizes(rels[1..], disk)
  }

  function Sum(sizes: seq<nat>): nat { if sizes == [] then 0 else sizes[0] + Sum(sizes[1..]) }

  /** The read ledger has room for these files and one sentinel read. */
  predicate Unbinding(l: Limits, st: State, sizes: seq<nat>) {
    st.filesRead + |sizes| <= l.candidateFiles && st.bytesRead + Sum(sizes) + MaxRead(l) <= l.candidateBytes
  }

  lemma NoZeroInside(whole: Bytes, part: Bytes)
    requires part <= whole && 0 !in whole
    ensures 0 !in part
  {
  }

  /** One file within the per-file cap: projection and admission agree on every count, the bytes included. */
  lemma ProjectedOne(codec: Codec, l: Limits, prefix: string, st: State, rel: string, cache: Disk, disk: Disk)
    requires Positive(l) && Plain(rel, cache, disk) && |disk[rel]| <= l.perFile
    requires st.filesRead < l.candidateFiles && st.bytesRead + MaxRead(l) <= l.candidateBytes
    ensures var to := AdmitOne(codec, l, prefix, st, rel, cache, disk);
      && TallyOf(to) == Projected(l, TallyOf(st), |disk[rel]|)
      && to.filesRead <= st.filesRead + 1 && to.bytesRead <= st.bytesRead + |disk[rel]|
  {
    var content := disk[rel];
    var raw := content[..Least(MaxRead(l), |content|)];
    if |content| <= MaxRead(l) { assert raw == content; }
    NoZeroInside(content, raw);
  }

  lemma Members(rels: seq<string>)
    requires rels != []
    ensures rels[0] in rels && forall p {:trigger p in rels[1..]} :: p in rels[1..] ==> p in rels
  {
  }

  /** The projection refines real admission over every list of files within the per-file cap. */
  lemma {:induction false} ProjectionRefines(codec: Codec, l: Limits, prefix: string, st: State, rels: seq<string>,
                                             cache: Disk, disk: Disk)
    requires Positive(l) && AllPlain(rels, cache, disk) && forall p :: p in rels ==> |disk[p]| <= l.perFile
    requires Unbinding(l, st, Sizes(rels, disk))
    ensures TallyOf(AdmitAll(codec, l, prefix, st, rels, cache, disk)) ==
      ProjectedAll(l, TallyOf(st), Sizes(rels, disk))
    decreases |rels|
  {
    if rels != [] {
      var sizes := Sizes(rels, disk);
      Members(rels);
      ProjectedOne(codec, l, prefix, st, rels[0], cache, disk);
      ProjectionRefines(codec, l, prefix, AdmitOne(codec, l, prefix, st, rels[0], cache, disk), rels[1..], cache, disk);
    }
  }

  // Larger files: the projection never knows where a character ends.

  /** The same counts, and at most three bytes too many for each of k cut files. */
  predicate Close(actual: Tally, projected: Tally, k: nat) {
    && actual.files == projected.files && actual.skipped == projected.skipped && actual.truncated == projected.truncated
    && actual.bytes <= projected.bytes <= actual.bytes + 3 * k
  }

  /** The projection does not meet the byte cap on this file. */
  predicate Fits(l: Limits, t: Tally, size: nat) { t.files >= l.files || t.bytes + Least(size, l.perFile) <= l.bytes }

  predicate FitsAll(l: Limits, t: Tally, sizes: seq<nat>)
    decreases |sizes|
  {
    sizes == [] || (Fits(l, t, sizes[0]) && FitsAll(l, Projected(l, t, sizes[0]), sizes[1..]))
  }

  function CutFiles(l: Limits, sizes: seq<nat>): nat {
    if sizes == [] then 0 else (if sizes[0] > l.perFile then 1 else 0) + CutFiles(l, sizes[1..])
  }

  /** The bytes in hand are the file, or one sentinel read of a file that is larger. */
  predicate InHand(l: Limits, content: Bytes, raw: Bytes) {
    (raw == content && |raw| <= MaxRead(l)) || (raw <= content && |raw| == MaxRead(l) < |content|)
  }

  /** How many bytes admission keeps of a file that is read whole or to the sentinel. */
  function KeptBytes(l: Limits, content: Bytes): nat {
    if |content| <= l.perFile then |content| else |Shortened(content[..l.perFile])|
  }

  /** Whether admission finds room for it, and whether the projection does. */
  predicate ReallyFits(l: Limits, byteCount: nat, content: Bytes) {
    KeptBytes(l, content) > 0 && byteCount + KeptBytes(l, content) <= l.bytes
      && (|content| > l.perFile ==> l.perFile <= l.bytes)
  }

  predicate LooksFitting(l: Limits, bytes: nat, size: nat) {
    size > 0 && bytes + Least(size, l.perFile) <= l.bytes
  }

  lemma KeptOfRaw(l: Limits, content: Bytes, raw: Bytes)
    requires Positive(l) && Valid(content) && 0 !in content && InHand(l, content, raw)
    ensures var chunk := Chunk(raw, l.perFile);
      if l.perFile <= l.bytes || |content| <= l.bytes then
        |chunk| == KeptBytes(l, content) && 0 !in chunk && Valid(chunk)
          && (|raw| > l.perFile <==> |content| > l.perFile)
      else |chunk| > l.bytes && |raw| <= l.perFile
  {
    NoZeroInside(content, raw);
    if |raw| > l.perFile {
      assert raw[..l.perFile] == content[..l.perFile];
      ShortenedFacts(raw[..l.perFile]);
      NoZeroInside(content, Chunk(raw, l.perFile));
    }
  }

  /** What the counts are after a file in hand, given where it finds room. */
  lemma PlaceCounts(codec: Codec, l: Limits, prefix: string, st: State, rel: string, content: Bytes, raw: Bytes)
    requires Positive(l) && Valid(content) && 0 !in content && InHand(l, content, raw)
    ensures var to := Place(codec, l, prefix, st, rel, raw);
      && |to.excerpts| == |st.excerpts| + (if ReallyFits(l, st.byteCount, content) then 1 else 0)
      && to.byteCount == st.byteCount + (if ReallyFits(l, st.byteCount, content) then KeptBytes(l, content) else 0)
      && to.skipped == st.skipped + (if content == [] then 1 else 0)
      && to.truncated == st.truncated +
        (if content != [] && (ReallyFits(l, st.byteCount, content) ==> |content| > l.perFile) then 1 else 0)
  {
    KeptOfRaw(l, content, raw);
  }

  /** The same from the file's own bytes: a single plain file, whether it comes from the cache or a read. */
  lemma AdmitCounts(codec: Codec, l: Limits, prefix: string, st: State, rel: string, cache: Disk, disk: Disk)
    requires Positive(l) && Plain(rel, cache, disk) && |st.excerpts| < l.files
    requires st.filesRead < l.candidateFiles && st.bytesRead + MaxRead(l) <= l.candidateBytes
    ensures var to := AdmitOne(codec, l, prefix, st, rel, cache, disk); var content := disk[rel];
      && |to.excerpts| == |st.excerpts| + (if ReallyFits(l, st.byteCount, content) then 1 else 0)
      && to.byteCount == st.byteCount + (if ReallyFits(l, st.byteCount, content) then KeptBytes(l, content) else 0)
      && to.skipped == st.skipped + (if content == [] then 1 else 0)
      && to.truncated == st.truncated +
        (if content != [] && (ReallyFits(l, st.byteCount, content) ==> |content| > l.perFile) then 1 else 0)
      && to.filesRead <= st.filesRead + 1 && to.bytesRead <= st.bytesRead + Least(|content|, MaxRead(l))
  {
    var content := disk[rel];
    var raw := content[..Least(MaxRead(l), |content|)];
    if |content| <= MaxRead(l) { assert raw == content; }
    if FromCache(l, Lookup(cache, rel)) {
      PlaceCounts(codec, l, prefix, st, rel, content, content);
    } else {
      var settled := st.(filesRead := st.filesRead + 1, bytesRead := st.bytesRead + |raw|);
      PlaceCounts(codec, l, prefix, settled, rel, content, raw);
    }
  }

  predicate SameCounts(actual: Tally, projected: Tally) {
    actual.files == projected.files && actual.skipped == projected.skipped && actual.truncated == projected.truncated
  }

  /** Where admission and the projection find the same room for a file. */
  predicate Agrees(l: Limits, actual: Tally, projected: Tally, content: Bytes) {
    actual.files >= l.files || (ReallyFits(l, actual.bytes, content) <==> LooksFitting(l, projected.bytes, |content|))
  }

  /** One file, from equal counts: they stay equal exactly when both find room for it or neither does. */
  lemma StepAgrees(codec: Codec, l: Limits, prefix: string, st: State, rel: string, cache: Disk, disk: Disk, t: Tally)
    requires Positive(l) && Plain(rel, cache, disk) && SameCounts(TallyOf(st), t)
    requires st.filesRead < l.candidateFiles && st.bytesRead + MaxRead(l) <= l.candidateBytes
    ensures SameCounts(TallyOf(AdmitOne(codec, l, prefix, st, rel, cache, disk)), Projected(l, t, |disk[rel]|)) <==>
      Agrees(l, TallyOf(st), t, disk[rel])
  {
    if |st.excerpts| < l.files { AdmitCounts(codec, l, prefix, st, rel, cache, disk); }
  }

  /** The counts agree after every file of the list. */
  predicate AgreeAlong(codec: Codec, l: Limits, prefix: string, st: State, rels: seq<string>, cache: Disk, disk: Disk,
                       t: Tally)
    requires forall p :: p in rels ==> p in disk
    decreases |rels|
  {
    rels == [] ||
    var to, now := AdmitOne(codec, l, prefix, st, rels[0], cache, disk), Projected(l, t, |disk[rels[0]]|);
    Members(rels);
    SameCounts(TallyOf(to), now) && AgreeAlong(codec, l, prefix, to, rels[1..], cache, disk, now)
  }

  /** Both find the same room for every file of the list. */
  predicate RoomAlong(codec: Codec, l: Limits, prefix: string, st: State, rels: seq<string>, cache: Disk, disk: Disk,
                      t: Tally)
    requires forall p :: p in rels ==> p in disk
    decreases |rels|
  {
    rels == [] ||
    var to, now := AdmitOne(codec, l, prefix, st, rels[0], cache, disk), Projected(l, t, |disk[rels[0]]|);
    Members(rels);
    Agrees(l, TallyOf(st), t, disk[rels[0]]) && RoomAlong(codec, l, prefix, to, rels[1..], cache, disk, now)
  }

  /** A whole list of plain files of any size, cached or not: the projected counts follow admission after every
      file exactly when both find the same room for every file. */
  lemma {:induction false} ProjectionFollows(codec: Codec, l: Limits, prefix: string, st: State, rels: seq<string>,
                                             cache: Disk, disk: Disk, t: Tally)
    requires Positive(l) && AllPlain(rels, cache, disk) && SameCounts(TallyOf(st), t)
    requires Unbinding(l, st, Sizes(rels, disk))
    ensures AgreeAlong(codec, l, prefix, st, rels, cache, disk, t) <==>
      RoomAlong(codec, l, prefix, st, rels, cache, disk, t)
    decreases |rels|
  {
    if rels != [] {
      Members(rels);
      assert Plain(rels[0], cache, disk);
      StepAgrees(codec, l, prefix, st, rels[0], cache, disk, t);
      LedgerStep(codec, l, prefix, st, rels[0], cache, disk);
      var to := AdmitOne(codec, l, prefix, st, rels[0], cache, disk);
      if SameCounts(TallyOf(to), Projected(l, t, |disk[rels[0]]|)) {
        ProjectionFollows(codec, l, prefix, to, rels[1..], cache, disk, Projected(l, t, |disk[rels[0]]|));
      }
    }
  }

  lemma LedgerStep(codec: Codec, l: Limits, prefix: string, st: State, rel: string, cache: Disk, disk: Disk)
    requires Positive(l) && Plain(rel, cache, disk)
    requires st.filesRead < l.candidateFiles && st.bytesRead + MaxRead(l) <= l.candidateBytes
    ensures var to := AdmitOne(codec, l, prefix, st, rel, cache, disk);
      to.filesRead <= st.filesRead + 1 && to.bytesRead <= st.bytesRead + |disk[rel]|
  {
    if |st.excerpts| < l.files { AdmitCounts(codec, l, prefix, st, rel, cache, disk); }
  }

  /** A larger file that has room is admitted, cut, exactly when the per-file cap exceeds three bytes; the
      projection admits it whatever the cap. */
  lemma CutAdmittedIff(codec: Codec, l: Limits, prefix: string, st: State, rel: string, cache: Disk, disk: Disk)
    requires Positive(l) && Plain(rel, cache, disk) && |disk[rel]| > l.perFile
    requires |st.excerpts| < l.files && st.byteCount + l.perFile <= l.bytes
    requires st.filesRead < l.candidateFiles && st.bytesRead + MaxRead(l) <= l.candidateBytes
    ensures var to := AdmitOne(codec, l, prefix, st, rel, cache, disk);
      && (|to.excerpts| == |st.excerpts| + 1 <==> l.perFile > 3)
      && Projected(l, TallyOf(st), |disk[rel]|).files == |st.excerpts| + 1
      && to.truncated == st.truncated + 1
  {
    AdmitCounts(codec, l, prefix, st, rel, cache, disk);
    CutLength(l, disk[rel]);
  }

  lemma CutLength(l: Limits, content: Bytes)
    requires Valid(content) && |content| > l.perFile
    ensures l.perFile - 3 <= KeptBytes(l, content) <= l.perFile && (KeptBytes(l, content) > 0 <==> l.perFile > 3)
  {
    var head := content[..l.perFile];
    assert head <= content;
    ShortenedFacts(head);
    if l.perFile <= 3 {
      assert head[..|head| - l.perFile] == [];
      ShortenedShortest(head, l.perFile);
    }
  }

  lemma CloseOne(codec: Codec, l: Limits, prefix: string, st: State, rel: string, cache: Disk, disk: Disk, t: Tally,
                 k: nat)
    requires l.perFile > 3 && Positive(l) && Plain(rel, cache, disk)
    requires st.filesRead < l.candidateFiles && st.bytesRead + MaxRead(l) <= l.candidateBytes
    requires Close(TallyOf(st), t, k) && Fits(l, t, |disk[rel]|)
    ensures var to := AdmitOne(codec, l, prefix, st, rel, cache, disk);
      Close(TallyOf(to), Projected(l, t, |disk[rel]|), k + if |disk[rel]| > l.perFile then 1 else 0)
  {
    if |st.excerpts| < l.files {
      AdmitCounts(codec, l, prefix, st, rel, cache, disk);
      if |disk[rel]| > l.perFile { CutLength(l, disk[rel]); }
    }
  }

  /** With larger files among them the counts still agree as long as the projection itself has room, and its
      byte estimate is at most three bytes too high for each file it cuts. */
  lemma {:induction false} ProjectionClose(codec: Codec, l: Limits, prefix: string, st: State, rels: seq<string>,
                                           cache: Disk, disk: Disk, t: Tally, k: nat)
    requires l.perFile > 3 && Positive(l) && AllPlain(rels, cache, disk)
    requires Unbinding(l, st, Sizes(rels, disk))
    requires Close(TallyOf(st), t, k) && FitsAll(l, t, Sizes(rels, disk))
    ensures Close(TallyOf(AdmitAll(codec, l, prefix, st, rels, cache, disk)), ProjectedAll(l, t, Sizes(rels, disk)),
      k + CutFiles(l, Sizes(rels, disk)))
    decreases |rels|
  {
    if rels != [] {
      var sizes := Sizes(rels, disk);
      Members(rels);
      assert Plain(rels[0], cache, disk);
      CloseOne(codec, l, prefix, st, rels[0], cache, disk, t, k);
      LedgerStep(codec, l, prefix, st, rels[0], cache, disk);
      var to := AdmitOne(codec, l, prefix, st, rels[0], cache, disk);
      ProjectionClose(codec, l, prefix, to, rels[1..], cache, disk, Projected(l, t, sizes[0]),
        k + if sizes[0] > l.perFile then 1 else 0);
    }
  }

  /** With a per-file cap of three bytes or fewer the projection admits what admission cannot. */
  lemma TinyCapDiffers(codec: Codec, prefix: string)
    ensures var l := Limits(1, 9, 3, 9, 9, 9);
      var disk: Disk := map["a" := [65, 65, 65, 65]];
      var st := State([], map[], 0, 0, 0, 0, 0);
      TallyOf(AdmitOne(codec, l, prefix, st, "a", map[], disk)) == Tally(0, 0, 0, 1)
        && Projected(l, TallyOf(st), 4) == Tally(1, 3, 0, 1)
  {
    var head: Bytes := [65, 65, 65];
    AsciiLosesThree(head);
    var raw: Bytes := [65, 65, 65, 65];
    assert raw[..3] == head;
    assert raw[..4] == raw;
  }

  // Chains of files that must be admitted together.

  function Additions(prefix: string, chain: seq<string>, admitted: set<string>): (r: seq<string>)
    ensures forall p :: p in r <==> p in chain && prefix + p !in admitted
  {
    if chain == [] then []
    else (if prefix + chain[0] in admitted then [] else [chain[0]]) + Additions(prefix, chain[1..], admitted)
  }

  /** Member by member, in order. */
  lemma {:induction false} AdditionsSplit(prefix: string, a: seq<string>, b: seq<string>, admitted: set<string>)
    ensures Additions(prefix, a + b, admitted) == Additions(prefix, a, admitted) + Additions(prefix, b, admitted)
  {
    if a == [] {
      assert a + b == b;
    } else {
      var head := if prefix + a[0] in admitted then [] else [a[0]];
      assert (a + b)[1..] == a[1..] + b && (a + b)[0] == a[0];
      AdditionsSplit(prefix, a[1..], b, admitted);
      Regroup(head, Additions(prefix, a[1..], admitted), Additions(prefix, b, admitted));
    }
  }

  lemma {:induction false} UncachedSplit(a: seq<string>, b: seq<string>, cache: Disk)
    ensures Uncached(a + b, cache) == Uncached(a, cache) + Uncached(b, cache)
  {
    if a == [] {
      assert a + b == b;
    } else {
      var head := if a[0] in cache then [] else [a[0]];
      assert (a + b)[1..] == a[1..] + b && (a + b)[0] == a[0];
      UncachedSplit(a[1..], b, cache);
      Regroup(head, Uncached(a[1..], cache), Uncached(b, cache));
    }
  }

  lemma OneMember(prefix: string, p: string, admitted: set<string>, cache: Disk)
    ensures Additions(prefix, [p], admitted) == if prefix + p in admitted then [] else [p]
    ensures Uncached([p], cache) == if p in cache then [] else [p]
  {
  }

  lemma {:induction false} AdditionsDistinct(prefix: string, chain: seq<string>, admitted: set<string>)
    requires NoRepeats(chain)
    ensures NoRepeats(Additions(prefix, chain, admitted))
  {
    if chain != [] {
      AdditionsDistinct(prefix, chain[1..], admitted);
      assert chain[0] !in chain[1..];
    }
  }

  function Uncached(rels: seq<string>, cache: Disk): (r: seq<string>)
    ensures |r| <= |rels| && forall p :: p in r <==> p in rels && p !in cache
  {
    if rels == [] then [] else (if rels[0] in cache then [] else [rels[0]]) + Uncached(rels[1..], cache)
  }

  function Listed(rels: seq<string>, sizes: map<string, nat>): nat
    requires forall p :: p in rels ==> p in sizes
  {
    if rels == [] then 0 else sizes[rels[0]] + Listed(rels[1..], sizes)
  }

  predicate EachFits(l: Limits, sizes: map<string, nat>, rels: seq<string>) {
    forall p {:trigger p in rels} :: p in rels ==> p in sizes && sizes[p] <= l.perFile && sizes[p] <= MaxRead(l) - 1
  }

  /** `chain_fits`, for the additions of a chain. */
  predicate ChainFits(l: Limits, st: State, sizes: map<string, nat>, cache: Disk, additions: seq<string>) {
    && EachFits(l, sizes, additions)
    && |st.excerpts| + |additions| <= l.files
    && st.byteCount + Listed(additions, sizes) <= l.bytes
    && st.filesRead + |Uncached(additions, cache)| <= l.candidateFiles
    && st.bytesRead + Listed(Uncached(additions, cache), sizes) <= l.candidateBytes
  }

  /** Nonempty readable texts of exactly the listed size. */
  ghost predicate AsListed(rels: seq<string>, sizes: map<string, nat>, cache: Disk, disk: Disk) {
    AllPlain(rels, cache, disk)
      && forall p {:trigger p in rels} :: p in rels ==> p in sizes && |disk[p]| == sizes[p] && sizes[p] > 0
  }

  /** The reads of this chain end exactly on the byte budget. */
  predicate LandsOnBudget(l: Limits, st: State, sizes: map<string, nat>, unread: seq<string>)
    requires forall p :: p in unread ==> p in sizes
  {
    unread != [] && st.bytesRead + Listed(unread, sizes) == l.candidateBytes
  }

  ghost predicate AllIn(prefix: string, rels: seq<string>, st: State) {
    forall p :: p in rels ==> prefix + p in PathsOf(st.excerpts)
  }

  predicate NoRepeats(rels: seq<string>) { forall i, j :: 0 <= i < j < |rels| ==> rels[i] != rels[j] }

  lemma {:induction false} AdmitAllPaths(codec: Codec, l: Limits, prefix: string, st: State, rels: seq<string>,
                                         cache: Disk, disk: Disk)
    ensures var to := AdmitAll(codec, l, prefix, st, rels, cache, disk);
      && st.excerpts <= to.excerpts && PathsOf(st.excerpts) <= PathsOf(to.excerpts)
      && forall p ::
        p in PathsOf(to.excerpts) ==> p in PathsOf(st.excerpts) || exists i :: 0 <= i < |rels| && p == prefix + rels[i]
    decreases |rels|
  {
    if rels != [] {
      var one := AdmitOne(codec, l, prefix, st, rels[0], cache, disk);
      AdmitPaths(codec, l, prefix, st, rels[0], Lookup(cache, rels[0]),
        if Exhausted(l, st) then None else Reply(disk, rels[0], ReadLimit(l, st)));
      AdmitAllPaths(codec, l, prefix, one, rels[1..], cache, disk);
      var to := AdmitAll(codec, l, prefix, st, rels, cache, disk);
      forall p | p in PathsOf(to.excerpts) && p !in PathsOf(st.excerpts)
        ensures exists i :: 0 <= i < |rels| && p == prefix + rels[i] {
        if p == prefix + rels[0] {
        } else {
          var i :| 0 <= i < |rels[1..]| && p == prefix + rels[1..][i];
          assert rels[i + 1] == rels[1..][i];
        }
      }
    }
  }

  /** One member of a chain that fits: admitted from the cache, or by a read that ends before the budget. */
  lemma FittingOne(codec: Codec, l: Limits, prefix: string, st: State, rel: string, size: nat, cache: Disk, disk: Disk)
    requires Plain(rel, cache, disk) && |disk[rel]| == size && 0 < size <= l.perFile && size <= MaxRead(l) - 1
    requires |st.excerpts| < l.files && st.byteCount + size <= l.bytes
    requires rel !in cache ==> st.filesRead < l.candidateFiles && st.bytesRead + size <= l.candidateBytes
    ensures var to := AdmitOne(codec, l, prefix, st, rel, cache, disk);
      if rel !in cache && st.bytesRead + size == l.candidateBytes then to.excerpts == st.excerpts else
          |to.excerpts| == |st.excerpts| + 1 && to.excerpts[|st.excerpts|].path == prefix + rel
            && to.byteCount == st.byteCount + size
          && to.filesRead == st.filesRead + (if rel in cache then 0 else 1)
            && to.bytesRead == st.bytesRead + (if rel in cache then 0 else size)
  {
    var content := disk[rel];
    if rel !in cache && st.bytesRead < l.candidateBytes {
      var raw := content[..Least(ReadLimit(l, st), |content|)];
      assert raw == content;
    }
  }

  lemma {:induction false} ListedPositive(rels: seq<string>, sizes: map<string, nat>)
    requires forall p :: p in rels ==> p in sizes && sizes[p] > 0
    ensures rels != [] ==> Listed(rels, sizes) > 0
  {
  }

  /** Nothing the rest admits stands in for p, so p is in exactly when its own turn admitted it. */
  lemma OwnTurn(codec: Codec, l: Limits, prefix: string, st: State, p: string, rest: seq<string>, cache: Disk,
                disk: Disk)
    requires p !in rest && prefix + p !in PathsOf(st.excerpts)
    ensures var one := AdmitOne(codec, l, prefix, st, p, cache, disk);
      && (prefix + p in PathsOf(AdmitAll(codec, l, prefix, one, rest, cache, disk).excerpts) <==>
        one.excerpts != st.excerpts)
      && PathsOf(one.excerpts) <= PathsOf(st.excerpts) + {prefix + p}
  {
    var one := AdmitOne(codec, l, prefix, st, p, cache, disk);
    AdmitPaths(codec, l, prefix, st, p, Lookup(cache, p),
      if Exhausted(l, st) then None else Reply(disk, p, ReadLimit(l, st)));
    AdmitAllPaths(codec, l, prefix, one, rest, cache, disk);
    NotInLater(prefix, p, rest);
  }

  lemma FirstStep(codec: Codec, l: Limits, prefix: string, st: State, rels: seq<string>, sizes: map<string, nat>,
                  cache: Disk, disk: Disk)
    requires rels != [] && ChainFits(l, st, sizes, cache, rels) && AsListed(rels, sizes, cache, disk)
    ensures var one := AdmitOne(codec, l, prefix, st, rels[0], cache, disk);
      (one.excerpts == st.excerpts <==> rels[0] !in cache && st.bytesRead + sizes[rels[0]] == l.candidateBytes)
    ensures var one := AdmitOne(codec, l, prefix, st, rels[0], cache, disk);
      one.excerpts != st.excerpts ==>
        ChainFits(l, one, sizes, cache, rels[1..]) && one.bytesRead == st.bytesRead + if rels[0] in cache then 0
        else sizes[rels[0]]
  {
    var p, rest := rels[0], rels[1..];
    Members(rels);
    ListedFirst(rels, sizes, cache);
    FittingOne(codec, l, prefix, st, p, sizes[p], cache, disk);
  }

  lemma ListedFirst(rels: seq<string>, sizes: map<string, nat>, cache: Disk)
    requires rels != [] && forall p {:trigger p in rels} :: p in rels ==> p in sizes
    ensures Uncached(rels, cache) == (if rels[0] in cache then [] else [rels[0]]) + Uncached(rels[1..], cache)
    ensures Listed(Uncached(rels, cache), sizes) ==
      (if rels[0] in cache then 0 else sizes[rels[0]]) + Listed(Uncached(rels[1..], cache), sizes)
  {
    Members(rels);
    var rest := Uncached(rels[1..], cache);
    if rels[0] in cache {
      assert [] + rest == rest;
    } else {
      assert ([rels[0]] + rest)[1..] == rest;
    }
  }

  lemma LandsLater(l: Limits, st: State, one: State, rels: seq<string>, sizes: map<string, nat>, cache: Disk)
    requires rels != [] && forall p {:trigger p in rels} :: p in rels ==> p in sizes && sizes[p] > 0
    requires st.bytesRead + Listed(Uncached(rels, cache), sizes) <= l.candidateBytes
    ensures rels[0] !in cache && st.bytesRead + sizes[rels[0]] == l.candidateBytes ==>
      LandsOnBudget(l, st, sizes, Uncached(rels, cache))
    ensures (rels[0] in cache || st.bytesRead + sizes[rels[0]] != l.candidateBytes) ==>
      one.bytesRead == st.bytesRead + (if rels[0] in cache then 0 else sizes[rels[0]]) ==>
      (LandsOnBudget(l, one, sizes, Uncached(rels[1..], cache)) <==> LandsOnBudget(l, st, sizes, Uncached(rels, cache)))
  {
    Members(rels);
    ListedFirst(rels, sizes, cache);
    ListedPositive(Uncached(rels[1..], cache), sizes);
  }

  /** A chain that fits is admitted whole exactly when its reads do not end precisely on the byte budget. */
  lemma {:induction false} FittingChainAdmitted(codec: Codec, l: Limits, prefix: string, st: State, rels: seq<string>,
        sizes: map<string, nat>, cache: Disk, disk: Disk)
    requires ChainFits(l, st, sizes, cache, rels) && AsListed(rels, sizes, cache, disk)
    requires NoRepeats(rels) && forall p :: p in rels ==> prefix + p !in PathsOf(st.excerpts)
    ensures AllIn(prefix, rels, AdmitAll(codec, l, prefix, st, rels, cache, disk)) <==>
      !LandsOnBudget(l, st, sizes, Uncached(rels, cache))
    decreases |rels|
  {
    if rels != [] {
      var p, rest := rels[0], rels[1..];
      var one := AdmitOne(codec, l, prefix, st, p, cache, disk);
      var to := AdmitAll(codec, l, prefix, st, rels, cache, disk);
      assert p in rels && p !in rest;
      OwnTurn(codec, l, prefix, st, p, rest, cache, disk);
      FirstStep(codec, l, prefix, st, rels, sizes, cache, disk);
      LandsLater(l, st, one, rels, sizes, cache);
      AllInSplits(prefix, rels, to);
      if one.excerpts != st.excerpts {
        Members(rels);
        OthersStillOut(prefix, st, one, p, rest);
        FittingChainAdmitted(codec, l, prefix, one, rest, sizes, cache, disk);
      }
    }
  }

  /** Each of these is admitted whole in its turn. */
  predicate TakenWhole(codec: Codec, l: Limits, prefix: string, st: State, rels: seq<string>, cache: Disk, disk: Disk)
    decreases |rels|
  {
    rels == [] ||
      var one := AdmitOne(codec, l, prefix, st, rels[0], cache, disk);
      && |one.excerpts| > |st.excerpts| && one.excerpts[|st.excerpts|].complete
      && TakenWhole(codec, l, prefix, one, rels[1..], cache, disk)
  }

  /** One turn, exactly; the read has to end before the byte budget does. */
  lemma WholeTurn(codec: Codec, l: Limits, prefix: string, st: State, rel: string, size: nat, cache: Disk, disk: Disk)
    requires Plain(rel, cache, disk) && |disk[rel]| == size && size > 0 && st.bytesRead <= l.candidateBytes
    ensures var to := AdmitOne(codec, l, prefix, st, rel, cache, disk);
      && (|to.excerpts| > |st.excerpts| && to.excerpts[|st.excerpts|].complete <==>
        |st.excerpts| < l.files && size <= l.perFile && st.byteCount + size <= l.bytes
          && (rel !in cache ==> st.filesRead < l.candidateFiles && st.bytesRead + size < l.candidateBytes))
      && (|to.excerpts| > |st.excerpts| && to.excerpts[|st.excerpts|].complete ==>
        && |to.excerpts| == |st.excerpts| + 1 && to.byteCount == st.byteCount + size
        && to.filesRead == st.filesRead + (if rel in cache then 0 else 1)
        && to.bytesRead == st.bytesRead + (if rel in cache then 0 else size))
  {
    var content := disk[rel];
    if rel !in cache && !Exhausted(l, st) {
      var raw := content[..Least(ReadLimit(l, st), |content|)];
      assert |raw| == |content| ==> raw == content;
    }
  }

  predicate RoomLeft(l: Limits, st: State) {
    && |st.excerpts| <= l.files && st.byteCount <= l.bytes
    && st.filesRead <= l.candidateFiles && st.bytesRead <= l.candidateBytes
  }

  /** A chain fits without landing on the budget exactly when admission would take each of its files whole. */
  lemma {:induction false} TakenExactly(codec: Codec, l: Limits, prefix: string, st: State, rels: seq<string>,
                                        sizes: map<string, nat>, cache: Disk, disk: Disk)
    requires AsListed(rels, sizes, cache, disk) && RoomLeft(l, st)
    ensures TakenWhole(codec, l, prefix, st, rels, cache, disk) <==>
      ChainFits(l, st, sizes, cache, rels) && !LandsOnBudget(l, st, sizes, Uncached(rels, cache))
    decreases |rels|
  {
    if rels != [] {
      var p, rest := rels[0], rels[1..];
      Members(rels);
      ListedFirst(rels, sizes, cache);
      assert rels == [p] + rest;
      WholeTurn(codec, l, prefix, st, p, sizes[p], cache, disk);
      var one := AdmitOne(codec, l, prefix, st, p, cache, disk);
      ListedPositive(Uncached(rest, cache), sizes);
      if |one.excerpts| > |st.excerpts| && one.excerpts[|st.excerpts|].complete {
        TakenExactly(codec, l, prefix, one, rest, sizes, cache, disk);
        FitsStep(l, st, one, sizes, cache, rels);
        LandsStep(l, st, one, sizes, cache, rels);
      }
    }
  }

  /** The state after a whole turn. */
  predicate TookWhole(l: Limits, st: State, one: State, size: nat, kept: bool) {
    && size <= l.perFile && st.byteCount + size <= l.bytes && (!kept ==> st.bytesRead + size < l.candidateBytes)
    && |one.excerpts| == |st.excerpts| + 1 && one.byteCount == st.byteCount + size
    && one.filesRead == st.filesRead + (if kept then 0 else 1)
    && one.bytesRead == st.bytesRead + (if kept then 0 else size)
  }

  lemma FitsStep(l: Limits, st: State, one: State, sizes: map<string, nat>, cache: Disk, rels: seq<string>)
    requires rels != [] && rels[0] in rels && forall p {:trigger p in rels} :: p in rels ==> p in sizes && sizes[p] > 0
    requires TookWhole(l, st, one, sizes[rels[0]], rels[0] in cache)
    ensures ChainFits(l, st, sizes, cache, rels) <==> ChainFits(l, one, sizes, cache, rels[1..])
  {
    Members(rels);
    ListedFirst(rels, sizes, cache);
    EachStep(l, sizes, rels);
    var p, rest := rels[0], rels[1..];
    assert Listed(rels, sizes) == sizes[p] + Listed(rest, sizes);
    assert |Uncached(rels, cache)| == (if p in cache then 0 else 1) + |Uncached(rest, cache)|;
  }

  lemma EachStep(l: Limits, sizes: map<string, nat>, rels: seq<string>)
    requires rels != [] && rels[0] in sizes && sizes[rels[0]] <= l.perFile && sizes[rels[0]] <= l.bytes
    ensures EachFits(l, sizes, rels) <==> EachFits(l, sizes, rels[1..])
  {
    var rest := rels[1..];
    Members(rels);
    assert rels == [rels[0]] + rest;
    if EachFits(l, sizes, rest) {
      forall p {:trigger p in rels} | p in rels
        ensures p in sizes && sizes[p] <= l.perFile && sizes[p] <= MaxRead(l) - 1 {
        if p != rels[0] { assert p in rest; }
      }
    }
  }

  lemma LandsStep(l: Limits, st: State, one: State, sizes: map<string, nat>, cache: Disk, rels: seq<string>)
    requires rels != [] && rels[0] in rels && forall p {:trigger p in rels} :: p in rels ==> p in sizes && sizes[p] > 0
    requires TookWhole(l, st, one, sizes[rels[0]], rels[0] in cache)
    ensures LandsOnBudget(l, st, sizes, Uncached(rels, cache)) <==>
      LandsOnBudget(l, one, sizes, Uncached(rels[1..], cache))
  {
    Members(rels);
    ListedFirst(rels, sizes, cache);
  }

  /** So a chain fits exactly when admission would take it whole with one byte more to read. */
  lemma FitsExactly(codec: Codec, l: Limits, prefix: string, st: State, rels: seq<string>, sizes: map<string, nat>,
                    cache: Disk, disk: Disk)
    requires AsListed(rels, sizes, cache, disk) && RoomLeft(l, st)
    ensures ChainFits(l, st, sizes, cache, rels) <==>
      TakenWhole(codec, l.(candidateBytes := l.candidateBytes + 1), prefix, st, rels, cache, disk)
  {
    TakenExactly(codec, l.(candidateBytes := l.candidateBytes + 1), prefix, st, rels, sizes, cache, disk);
  }

  lemma AllInSplits(prefix: string, rels: seq<string>, to: State)
    requires rels != []
    ensures AllIn(prefix, rels, to) <==> prefix + rels[0] in PathsOf(to.excerpts) && AllIn(prefix, rels[1..], to)
  {
    Members(rels);
    assert rels == [rels[0]] + rels[1..];
  }

  lemma OthersStillOut(prefix: string, st: State, one: State, p: string, rest: seq<string>)
    requires p !in rest && PathsOf(one.excerpts) <= PathsOf(st.excerpts) + {prefix + p}
    requires forall q :: q in rest ==> prefix + q !in PathsOf(st.excerpts)
    ensures forall q :: q in rest ==> prefix + q !in PathsOf(one.excerpts)
  {
    forall q | q in rest ensures prefix + q !in PathsOf(one.excerpts) {
      assert (prefix + q)[|prefix|..] == q && (prefix + p)[|prefix|..] == p;
    }
  }

  lemma NotInLater(prefix: string, p: string, rest: seq<string>)
    requires p !in rest
    ensures forall i :: 0 <= i < |rest| ==> prefix + rest[i] != prefix + p
  {
    forall i | 0 <= i < |rest| ensures prefix + rest[i] != prefix + p {
      assert (prefix + rest[i])[|prefix|..] == rest[i] && (prefix + p)[|prefix|..] == p;
    }
  }

  // What an excerpt's `complete` flag is worth.

  /** The cached bytes are the file, or exactly one sentinel read of it. */
  predicate Faithful(l: Limits, cached: Bytes, content: Bytes) { cached == content[..Least(MaxRead(l), |content|)] }

  /** Over a file that does not change and a faithful cache, the flag says exactly whether the excerpt is the
      whole file; a partial excerpt is a prefix of it. */
  lemma CompleteMeansWhole(codec: Codec, l: Limits, prefix: string, st: State, rel: string, cache: Disk, disk: Disk)
    requires rel in disk && (rel in cache ==> Faithful(l, cache[rel], disk[rel]))
    ensures var to := AdmitOne(codec, l, prefix, st, rel, cache, disk);
      |to.excerpts| > |st.excerpts| ==>
        var e := to.excerpts[|st.excerpts|];
        e.text <= disk[rel] && (e.complete <==> e.text == disk[rel])
  {
  }

  /** A cache entry made with a smaller limit k misleads exactly when the file is larger than k: the excerpt is
      then flagged complete although the file goes on. */
  lemma ShortEntryMisleads(codec: Codec, l: Limits, prefix: string, st: State, rel: string, content: Bytes, k: nat)
    requires |st.excerpts| < l.files && k > 0
    ensures var entry := content[..Least(Least(k, MaxRead(l)), |content|)];
      var to := Admit(codec, l, prefix, st, rel, Some(entry), None);
      |to.excerpts| > |st.excerpts| ==>
        (to.excerpts[|st.excerpts|].complete && to.excerpts[|st.excerpts|].text != content <==>
          k < MaxRead(l) && k < |content|)
  {
  }
}

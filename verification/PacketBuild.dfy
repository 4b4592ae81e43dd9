/** Building one packet (src/ptest/agent_assessment.py:1649-1679, 1777-1849, 1024-1064, 1455-1576, 2277-2503):
every reader draws on one ledger, and admission, chain selection and trimming share one state. */
module PacketBuild {
  import opened Basics
  import opened Utf8
  import opened Admission
  import opened PacketLog
  import opened PacketPool
  import opened ProjectionBounds

  const LOCK_PROBE_LIMIT: nat := 8192

  type Chain = seq<string>

  /** Every path of every selected chain is in the packet. */
  ghost predicate Backed(prefix: string, chains: seq<Chain>, excerpts: seq<Excerpt>) {
    forall i :: 0 <= i < |chains| ==> Within(prefix, chains[i], excerpts)
  }

  ghost predicate Within(prefix: string, chain: Chain, excerpts: seq<Excerpt>) {
    forall p :: p in chain ==> prefix + p in PathsOf(excerpts)
  }

  lemma WithinMore(prefix: string, chain: Chain, was: seq<Excerpt>, now: seq<Excerpt>)
    requires Within(prefix, chain, was) && PathsOf(was) <= PathsOf(now)
    ensures Within(prefix, chain, now)
  {
  }

  lemma BackedMore(prefix: string, chains: seq<Chain>, was: seq<Excerpt>, now: seq<Excerpt>)
    requires Backed(prefix, chains, was) && PathsOf(was) <= PathsOf(now)
    ensures Backed(prefix, chains, now)
  {
    forall i | 0 <= i < |chains| ensures Within(prefix, chains[i], now) { WithinMore(prefix, chains[i], was, now); }
  }

  /** The ledger has been charged at least what was really opened and read. */
  predicate Charged(st: State, filesTouched: nat, bytesPulled: nat) {
    filesTouched <= st.filesRead && bytesPulled <= st.bytesRead
  }

  ghost predicate CacheFaithful(l: Limits, cache: Disk, disk: Disk) {
    forall p :: p in cache ==> p in disk && Faithful(l, cache[p], disk[p])
  }

  /** The admission state, and what else outlives a step of building one packet. */
  class Builder {
    const codec: Codec
    const limits: Limits
    const prefix: string
    /** The files, and whether they stay as they are while the packet is built. */
    const disk: Disk
    const steady: bool
    var excerpts: seq<Excerpt>
    var paths: map<string, string>
    var byteCount: nat
    var truncated: nat
    var skipped: nat
    var candidateFilesRead: nat
    var candidateBytesRead: int
    /** Bytes kept from context collection and ranking. */
    var cache: Disk
    /** The chains selected so far, per checklist item. */
    var selected: seq<seq<Chain>>
    /** What completing a chain comes to, at each attempt. */
    const completion: (nat, Chain) -> Option<Chain>
    /** The chains offered to admission so far, and how many. */
    ghost var tries: seq<Try>
    var attempts: nat
    /** What the operating system was really asked for. */
    var filesTouched: nat
    var bytesPulled: nat
    /** Every candidate given to admission, and what the projection of a static packet added to the counters. */
    ghost var log: seq<Given>
    ghost var projected: (nat, nat)

    function Value(): State
      reads this`excerpts, this`paths, this`byteCount, this`truncated, this`skipped, this`candidateFilesRead,
        this`candidateBytesRead
    {
      State(excerpts, paths, byteCount, truncated, skipped, candidateFilesRead, candidateBytesRead)
    }

    ghost predicate Consistent()
      reads this`excerpts, this`paths, this`byteCount, this`truncated, this`skipped, this`candidateFilesRead,
        this`candidateBytesRead
      reads this`filesTouched, this`bytesPulled, this`log, this`projected
    {
      && Positive(limits) && Sound(codec, limits, Value()) && DistinctPaths(excerpts)
      && Charged(Value(), filesTouched, bytesPulled) && Balanced(prefix, Value(), log, projected)
    }

    /** Every try so far is explained. */
    ghost predicate Explained(sizes: map<string, nat>)
      reads this`tries, this`attempts
    {
      attempts == |tries| && TriesOk(limits, prefix, steady, sizes, disk, completion, tries)
    }

    constructor (codec: Codec, limits: Limits, prefix: string, disk: Disk, steady: bool,
                 completion: (nat, Chain) -> Option<Chain>, items: nat)
      requires Positive(limits)
      ensures |selected| == items && (forall i :: 0 <= i < items ==> selected[i] == [])
      ensures Consistent() && Value() == State([], map[], 0, 0, 0, 0, 0) && cache == map[] && log == []
        && projected == (0, 0)
      ensures this.codec == codec && this.limits == limits && this.prefix == prefix && this.disk == disk
        && this.steady == steady
      ensures this.completion == completion && tries == [] && attempts == 0
    {
      this.codec, this.limits, this.prefix, this.disk, this.steady, this.completion := codec, limits, prefix, disk,
        steady, completion;
      excerpts, paths, byteCount, truncated, skipped := [], map[], 0, 0, 0;
      candidateFilesRead, candidateBytesRead, cache, filesTouched, bytesPulled := 0, 0, map[], 0, 0;
      selected, tries, attempts, log, projected := seq(items, _ => []), [], 0, [], (0, 0);
    }

    /** `read_regular`: at most `limit` bytes; a failing call may have read up to that much. */
    method ReadRegular(rel: string, limit: nat) returns (r: Option<Bytes>)
      modifies this`filesTouched, this`bytesPulled
      ensures filesTouched == old(filesTouched) + 1 && old(bytesPulled) <= bytesPulled <= old(bytesPulled) + limit
      ensures r.Some? ==> |r.value| <= limit && bytesPulled == old(bytesPulled) + |r.value|
      ensures steady ==> r == Reply(disk, rel, limit)
    {
      var pulled: int := *;
      filesTouched := filesTouched + 1;
      if steady {
        r := Reply(disk, rel, limit);
      } else {
        r := *;
        if r.Some? && |r.value| > limit { r := None; }
      }
      bytesPulled := bytesPulled + if r.Some? then |r.value| else if 0 <= pulled <= limit then pulled else limit;
    }

    // The readers.

    /** What a reader other than admission leaves alone. */
    twostate predicate OnlyLedger() reads this {
      && excerpts == old(excerpts) && paths == old(paths) && byteCount == old(byteCount)
      && truncated == old(truncated) && skipped == old(skipped)
      && old(candidateFilesRead) <= candidateFilesRead && old(candidateBytesRead) <= candidateBytesRead
    }

    /** The context reader: one bounded read per inventoried path, kept in the cache. */
    method Reader(rel: string, limit: nat, inventoried: bool) returns (r: Option<Bytes>)
      requires Consistent() && limit > 0
      modifies this`candidateFilesRead, this`candidateBytesRead, this`cache, this`filesTouched, this`bytesPulled
      ensures Consistent() && OnlyLedger()
      ensures r.Some? ==> rel in cache && cache[rel] == r.value
      ensures r.Some? && rel !in old(cache) ==>
        && cache == old(cache)[rel := r.value]
        && Value() ==
          old(Value()).(filesRead := old(candidateFilesRead) + 1, bytesRead := old(candidateBytesRead) + |r.value|)
      ensures forall p :: p in old(cache) ==> p in cache && cache[p] == old(cache)[p]
      ensures steady && limit >= MaxRead(limits) && old(CacheFaithful(limits, cache, disk)) ==>
        CacheFaithful(limits, cache, disk)
      ensures rel in old(cache) ==> r == Some(old(cache)[rel]) && Value() == old(Value())
      ensures steady && rel !in old(cache) ==>
        r == if inventoried && ReadsThrough(old(Value()), rel, limit)
          then Some(disk[rel][..Least(Least(limit, MaxRead(limits)), |disk[rel]|)]) else None
    {
      if rel in cache { return Some(cache[rel]); }
      if !inventoried { return None; }
      if candidateFilesRead >= limits.candidateFiles || candidateBytesRead >= limits.candidateBytes { return None; }
      r := ReadAhead(rel, limit);
      if r.Some? { cache := cache[rel := r.value]; }
    }

    /** The bounded read itself; a failed one keeps its reservation. */
    method ReadAhead(rel: string, limit: nat) returns (r: Option<Bytes>)
      requires Consistent() && limit > 0 && !Exhausted(limits, Value())
      modifies this`candidateFilesRead, this`candidateBytesRead, this`filesTouched, this`bytesPulled
      ensures Consistent() && OnlyLedger() && (r.Some? ==> |r.value| <= Least(limit, MaxRead(limits)))
      ensures r.Some? ==>
        Value() ==
          old(Value()).(filesRead := old(candidateFilesRead) + 1, bytesRead := old(candidateBytesRead) + |r.value|)
      ensures steady ==>
        r == if ReadsThrough(old(Value()), rel, limit)
          then Some(disk[rel][..Least(Least(limit, MaxRead(limits)), |disk[rel]|)]) else None
    {
      var remaining: nat := limits.candidateBytes - candidateBytesRead;
      var wanted := Least(limit, MaxRead(limits));
      var requested := Least(wanted, remaining);
      candidateFilesRead := candidateFilesRead + 1;
      candidateBytesRead := candidateBytesRead + requested;
      var raw := ReadRegular(rel, requested);
      if raw.None? { return None; }
      candidateBytesRead := candidateBytesRead - (requested - |raw.value|);
      if requested < wanted && |raw.value| == requested { return None; }
      return raw;
    }

    /** The budget has room for the whole read, or the file ends before what is left of it. */
    ghost predicate ReadsThrough(st: State, rel: string, limit: nat) {
      && !Exhausted(limits, st) && rel in disk
      && (limits.candidateBytes - st.bytesRead >= Least(limit, MaxRead(limits))
        || |disk[rel]| < limits.candidateBytes - st.bytesRead)
    }

    /** `_candidate_text_pool`, over candidates in ranking order. Only complete files of the listed size are kept;
        over unchanging files exactly those the ledger has room for. */
    method CandidateTextPool(candidates: seq<Candidate>) returns (texts: map<string, Bytes>)
      requires Consistent()
      modifies this`candidateFilesRead, this`candidateBytesRead, this`cache, this`filesTouched, this`bytesPulled
      ensures Consistent() && OnlyLedger()
      ensures forall p :: p in old(cache) ==> p in cache && cache[p] == old(cache)[p]
      ensures AllRankable(candidates, texts)
      ensures steady ==> texts == PoolOf(limits, old(Value()), old(cache), disk, candidates)
      ensures steady && AsOnDisk(disk, candidates) && old(CacheFaithful(limits, cache, disk)) ==>
        CacheFaithful(limits, cache, disk)
    {
      texts := map[];
      var i := 0;
      var stop := false;
      ghost var whole := PoolOf(limits, Value(), cache, disk, candidates);
      assert candidates[0..] == candidates && texts + whole == whole;
      while !stop && i < |candidates|
        invariant 0 <= i <= |candidates| && Consistent() && OnlyLedger() && AllRankable(candidates, texts)
        invariant forall p :: p in old(cache) ==> p in cache && cache[p] == old(cache)[p]
        invariant steady ==> whole == texts + Left(candidates, i, stop)
        invariant steady && AsOnDisk(disk, candidates) && old(CacheFaithful(limits, cache, disk)) ==>
          CacheFaithful(limits, cache, disk)
        decreases |candidates| - i, !stop
      {
        stop, texts := PoolTurn(candidates, i, texts);
        if !stop { i := i + 1; }
      }
      assert texts + map[] == texts;
    }

    /** One turn of the pool. */
    method PoolTurn(candidates: seq<Candidate>, i: nat, texts: map<string, Bytes>)
      returns (stop: bool, more: map<string, Bytes>)
      requires Consistent() && i < |candidates| && AllRankable(candidates, texts)
      modifies this`candidateFilesRead, this`candidateBytesRead, this`cache, this`filesTouched, this`bytesPulled
      ensures Consistent() && OnlyLedger() && AllRankable(candidates, more)
      ensures forall p :: p in old(cache) ==> p in cache && cache[p] == old(cache)[p]
      ensures steady ==>
        texts + old(Left(candidates, i, false)) == more + Left(candidates, if stop then i else i + 1, stop)
      ensures steady && AsOnDisk(disk, candidates) && old(CacheFaithful(limits, cache, disk)) ==>
        CacheFaithful(limits, cache, disk)
    {
      PoolStep(limits, Value(), cache, disk, candidates, texts, i);
      var raw;
      stop, raw := PoolRead(candidates, i);
      more := texts;
      if raw.Some? && 0 !in raw.value && Valid(raw.value) {
        assert Rankable(candidates, candidates[i].0, raw.value);
        more := texts[candidates[i].0 := raw.value];
      }
    }

    /** What the candidates from the i-th on will bring. */
    ghost function Left(candidates: seq<Candidate>, i: nat, stop: bool): map<string, Bytes>
      requires i <= |candidates|
      reads this`excerpts, this`paths, this`byteCount, this`truncated, this`skipped
      reads this`candidateFilesRead, this`candidateBytesRead, this`cache
    {
      if stop then map[] else PoolOf(limits, Value(), cache, disk, candidates[i..])
    }

    ghost predicate AllRankable(candidates: seq<Candidate>, texts: map<string, Bytes>) reads this`cache {
      forall p :: p in texts ==> p in cache && texts[p] == cache[p] && Rankable(candidates, p, texts[p])
    }

    ghost predicate Rankable(candidates: seq<Candidate>, p: string, text: Bytes) {
      && Valid(text) && 0 !in text && |text| <= limits.perFile
      && exists i :: 0 <= i < |candidates| && candidates[i] == (p, |text|)
    }

    /** One candidate of the pool: its complete bytes, if they could be had. */
    method PoolRead(candidates: seq<Candidate>, i: nat) returns (stop: bool, r: Option<Bytes>)
      requires Consistent() && i < |candidates|
      modifies this`candidateFilesRead, this`candidateBytesRead, this`cache, this`filesTouched, this`bytesPulled
      ensures Consistent() && OnlyLedger() && (stop ==> r.None?)
      ensures forall p :: p in old(cache) ==> p in cache && cache[p] == old(cache)[p]
      ensures var (rel, size) := candidates[i];
        r.Some? ==> rel in cache && cache[rel] == r.value && |r.value| == size && size <= limits.perFile
      ensures stop <==> old(Stops(limits, Value(), cache, candidates[i]))
      ensures steady ==> r == old(PoolReply(limits, Value(), cache, disk, candidates[i]))
      ensures steady ==> Value() == old(PoolCharge(limits, Value(), cache, disk, candidates[i]))
      ensures steady ==> cache == old(PoolCache(limits, Value(), cache, disk, candidates[i]))
      ensures steady && AsOnDisk(disk, candidates) && old(CacheFaithful(limits, cache, disk)) ==>
        CacheFaithful(limits, cache, disk)
    {
      var (rel, size) := candidates[i];
      stop := false;
      if size > limits.perFile { return false, None; }
      if rel in cache {
        var kept := cache[rel];
        return false, if |kept| != size || |kept| >= MaxRead(limits) then None else Some(kept);
      }
      if candidateFilesRead >= limits.candidateFiles || candidateBytesRead >= limits.candidateBytes {
        return true, None;
      }
      r := PoolFetch(rel, size);
      if r.Some? { cache := cache[rel := r.value]; }
    }

    /** The bounded read of a candidate; a failed one keeps its reservation. */
    method PoolFetch(rel: string, size: nat) returns (r: Option<Bytes>)
      requires Consistent() && size <= limits.perFile && rel !in cache && !Exhausted(limits, Value())
      modifies this`candidateFilesRead, this`candidateBytesRead, this`filesTouched, this`bytesPulled
      ensures Consistent() && OnlyLedger() && (r.Some? ==> |r.value| == size && size < MaxRead(limits))
      ensures steady ==> r == old(PoolReply(limits, Value(), cache, disk, (rel, size)))
      ensures steady ==> Value() == old(PoolCharge(limits, Value(), cache, disk, (rel, size)))
    {
      var _, raw := ReserveAndRead(rel);
      if raw.None? || |raw.value| != size || |raw.value| >= MaxRead(limits) { return None; }
      return raw;
    }

    /** `_probe_lock`: whether the lock file is text, at one bounded read's charge. */
    method ProbeLock(name: string) returns (locked: bool)
      requires Consistent()
      modifies this`candidateFilesRead, this`candidateBytesRead, this`filesTouched, this`bytesPulled
      ensures Consistent() && OnlyLedger()
      ensures old(Exhausted(limits, Value())) ==> !locked && Value() == old(Value())
      ensures steady && !old(Exhausted(limits, Value())) ==>
        (locked <==> LockText(limits.candidateBytes - old(candidateBytesRead), name))
    {
      var remaining := limits.candidateBytes - candidateBytesRead;
      if candidateFilesRead >= limits.candidateFiles || remaining <= 0 { return false; }
      var readLimit := Least(LOCK_PROBE_LIMIT + 1, remaining);
      candidateFilesRead := candidateFilesRead + 1;
      candidateBytesRead := candidateBytesRead + readLimit;
      var raw := ReadRegular(name, readLimit);
      if raw.None? { return false; }
      candidateBytesRead := candidateBytesRead - (readLimit - |raw.value|);
      if readLimit < LOCK_PROBE_LIMIT + 1 && |raw.value| == readLimit { return false; }
      return 0 !in raw.value && Valid(raw.value);
    }

    /** The probed prefix is text, and is the whole probe or the whole file. */
    ghost predicate LockText(remaining: int, name: string) {
      && name in disk && (remaining > LOCK_PROBE_LIMIT || |disk[name]| < remaining)
      && var head := disk[name][..Least(LOCK_PROBE_LIMIT + 1, |disk[name]|)]; 0 !in head && Valid(head)
    }

    // Admission.

    /** The checks on bytes in hand. */
    method PlaceBytes(rel: string, raw: Bytes)
      modifies this`excerpts, this`paths, this`byteCount, this`truncated, this`skipped
      ensures Value() == Place(codec, limits, prefix, old(Value()), rel, raw)
    {
      var chunk, cut := Truncate(raw, limits.perFile);
      assert chunk == Chunk(raw, limits.perFile);
      if cut && raw != [] && chunk == [] {
        truncated := truncated + 1;
      } else if chunk == [] {
        skipped := skipped + 1;
      } else if byteCount + |chunk| > limits.bytes {
        truncated := truncated + 1;
      } else if 0 in chunk {
        skipped := skipped + 1;
      } else if !Valid(chunk) {
        skipped := skipped + 1;
      } else {
        if cut { truncated := truncated + 1; }
        var excerpt := NewExcerpt(codec, prefix, rel, chunk, cut);
        excerpts := excerpts + [excerpt];
        if BaseName(rel) !in paths { paths := paths[BaseName(rel) := excerpt.path]; }
        byteCount := byteCount + |chunk|;
      }
    }

    /** `_admit_candidate`. It never asks to stop. */
    method AdmitCandidate(rel: string) returns (go: bool, ghost reply: Option<Bytes>, ghost fate: Fate)
      requires Consistent() && prefix + rel !in PathsOf(excerpts)
      modifies this`excerpts, this`paths, this`byteCount, this`truncated, this`skipped, this`log
      modifies this`candidateFilesRead, this`candidateBytesRead, this`filesTouched, this`bytesPulled
      ensures go && Consistent()
      ensures Counted(old(Value()), Value(), fate, prefix, rel) && log == old(log) + [Given(rel, fate, Kept)]
      ensures Judged(codec, limits, prefix, old(Value()), rel, Lookup(cache, rel), reply, fate, Value())
      ensures Bounded(limits, old(Value()), Lookup(cache, rel), reply)
      ensures Value() == Admit(codec, limits, prefix, old(Value()), rel, Lookup(cache, rel), reply)
      ensures steady ==> Value() == AdmitOne(codec, limits, prefix, old(Value()), rel, cache, disk)
    {
      ghost var st := Value();
      go := true;
      reply := Decide(rel);
      fate := AdmitKeeps(codec, limits, prefix, st, rel, Lookup(cache, rel), reply, log, projected);
      FateDecided(codec, limits, prefix, st, rel, Lookup(cache, rel), reply, fate);
      log := log + [Given(rel, fate, Kept)];
    }

    method Decide(rel: string) returns (ghost reply: Option<Bytes>)
      requires Charged(Value(), filesTouched, bytesPulled)
      modifies this`excerpts, this`paths, this`byteCount, this`truncated, this`skipped
      modifies this`candidateFilesRead, this`candidateBytesRead, this`filesTouched, this`bytesPulled
      ensures Charged(Value(), filesTouched, bytesPulled)
      ensures Bounded(limits, old(Value()), Lookup(cache, rel), reply)
      ensures Value() == Admit(codec, limits, prefix, old(Value()), rel, Lookup(cache, rel), reply)
      ensures steady && Opens(limits, old(Value()), Lookup(cache, rel)) ==>
        reply == Reply(disk, rel, ReadLimit(limits, old(Value())))
    {
      reply := None;
      if |excerpts| >= limits.files {
        truncated := truncated + 1;
      } else if rel in cache && |cache[rel]| <= MaxRead(limits) {
        PlaceBytes(rel, cache[rel]);
      } else if candidateFilesRead >= limits.candidateFiles || candidateBytesRead >= limits.candidateBytes {
        truncated := truncated + 1;
      } else {
        reply := AdmitFresh(rel);
      }
    }

    /** The branch that opens the file. */
    method AdmitFresh(rel: string) returns (reply: Option<Bytes>)
      requires Opens(limits, Value(), Lookup(cache, rel)) && Charged(Value(), filesTouched, bytesPulled)
      modifies this`excerpts, this`paths, this`byteCount, this`truncated, this`skipped
      modifies this`candidateFilesRead, this`candidateBytesRead, this`filesTouched, this`bytesPulled
      ensures Bounded(limits, old(Value()), Lookup(cache, rel), reply)
      ensures Value() == Admit(codec, limits, prefix, old(Value()), rel, Lookup(cache, rel), reply)
      ensures steady ==> reply == Reply(disk, rel, ReadLimit(limits, old(Value())))
      ensures Charged(Value(), filesTouched, bytesPulled)
    {
      ghost var st := Value();
      var readLimit;
      readLimit, reply := ReserveAndRead(rel);
      if reply.None? {
        skipped := skipped + 1;
        AdmitByFailedRead(codec, limits, prefix, st, rel, Lookup(cache, rel));
      } else {
        ghost var settled := Value();
        AdmitByRead(codec, limits, prefix, st, rel, Lookup(cache, rel), reply.value);
        Finish(rel, readLimit, reply.value);
        FinishedLedger(codec, limits, prefix, settled, rel, readLimit, reply.value);
      }
    }

    /** Reserves the most the read could take before opening, and settles afterwards; a failed read keeps its
        reservation. */
    method ReserveAndRead(rel: string) returns (readLimit: nat, reply: Option<Bytes>)
      requires !Exhausted(limits, Value()) && Charged(Value(), filesTouched, bytesPulled)
      modifies this`candidateFilesRead, this`candidateBytesRead, this`filesTouched, this`bytesPulled
      ensures readLimit == ReadLimit(limits, old(Value())) && (reply.Some? ==> |reply.value| <= readLimit)
      ensures Value() == old(Value()).(filesRead := old(candidateFilesRead) + 1,
        bytesRead := old(candidateBytesRead) + if reply.Some? then |reply.value| else readLimit)
      ensures steady ==> reply == Reply(disk, rel, readLimit)
      ensures Charged(Value(), filesTouched, bytesPulled)
    {
      var remaining: nat := limits.candidateBytes - candidateBytesRead;
      readLimit := Least(MaxRead(limits), remaining);
      candidateFilesRead := candidateFilesRead + 1;
      candidateBytesRead := candidateBytesRead + readLimit;
      reply := ReadRegular(rel, readLimit);
      if reply.Some? { candidateBytesRead := candidateBytesRead - (readLimit - |reply.value|); }
    }

    /** The end of a fresh read: a prefix cut by the budget is not admitted. */
    method Finish(rel: string, readLimit: nat, raw: Bytes)
      modifies this`excerpts, this`paths, this`byteCount, this`truncated, this`skipped
      ensures Value() == Finished(codec, limits, prefix, old(Value()), rel, readLimit, raw)
    {
      if readLimit < MaxRead(limits) && |raw| == readLimit {
        truncated := truncated + 1;
        return;
      }
      PlaceBytes(rel, raw);
    }

    /** Admits a list of new, distinct paths in order. */
    method AdmitList(rels: seq<string>)
      requires Consistent() && NoRepeats(rels) && NoneIn(prefix, rels, excerpts)
      modifies this`excerpts, this`paths, this`byteCount, this`truncated, this`skipped, this`log
      modifies this`candidateFilesRead, this`candidateBytesRead, this`filesTouched, this`bytesPulled
      ensures Consistent() && Progress(prefix, old(Value()), Value(), rels) && Gave(old(log), log, rels)
      ensures steady ==> Value() == AdmitAll(codec, limits, prefix, old(Value()), rels, cache, disk)
    {
      ghost var st, was := Value(), log;
      var i := 0;
      ListStart(codec, limits, prefix, steady, st, was, rels, cache, disk);
      while i < |rels|
        invariant 0 <= i <= |rels| && Consistent()
        invariant Halfway(codec, limits, prefix, steady, st, was, Value(), log, rels, i, cache, disk)
      {
        AdmitNext(rels, i, st, was);
        i := i + 1;
      }
      ListEnd(codec, limits, prefix, steady, st, was, Value(), log, rels, cache, disk);
    }

    method AdmitNext(rels: seq<string>, i: nat, ghost st: State, ghost was: seq<Given>)
      requires Consistent() && i < |rels| && NoRepeats(rels) && NoneIn(prefix, rels, st.excerpts)
      requires Halfway(codec, limits, prefix, steady, st, was, Value(), log, rels, i, cache, disk)
      modifies this`excerpts, this`paths, this`byteCount, this`truncated, this`skipped, this`log
      modifies this`candidateFilesRead, this`candidateBytesRead, this`filesTouched, this`bytesPulled
      ensures Consistent() && Halfway(codec, limits, prefix, steady, st, was, Value(), log, rels, i + 1, cache, disk)
    {
      ghost var before, logged := Value(), log;
      NotYet(prefix, rels, i, st, before);
      var _, reply, fate := AdmitCandidate(rels[i]);
      ListStep(codec, limits, prefix, steady, st, was, before, logged, rels, i, cache, disk, reply, fate);
    }

    // Chains.

    /** Follows the support edges of a caller. How is not modelled; what it does to the state is reading support
        files through the pool, and the chain it returns is the given completion, which starts with the same caller. */
    method CompleteChain(n: nat, chain: Chain, sizes: map<string, nat>) returns (r: Option<Chain>)
      requires Consistent() && chain != []
      modifies this`candidateFilesRead, this`candidateBytesRead, this`cache, this`filesTouched, this`bytesPulled
      ensures Consistent() && OnlyLedger()
      ensures r == Usable(completion(n, chain), chain)
      ensures steady && SizesHold(sizes) && old(CacheFaithful(limits, cache, disk)) ==>
        CacheFaithful(limits, cache, disk)
    {
      var rounds: int := *;
      var i := 0;
      while i < rounds
        invariant Consistent() && OnlyLedger()
        invariant steady && SizesHold(sizes) && old(CacheFaithful(limits, cache, disk)) ==>
          CacheFaithful(limits, cache, disk)
      {
        var rel: string := *;
        if rel in sizes && sizes[rel] <= limits.perFile && sizes[rel] <= MaxRead(limits) - 1 {
          var _ := CandidateTextPool([(rel, sizes[rel])]);
        }
        i := i + 1;
      }
      r := Usable(completion(n, chain), chain);
    }

    /** The inventory's sizes are the files' sizes. */
    ghost predicate SizesHold(sizes: map<string, nat>) { forall p :: p in sizes ==> p in disk && |disk[p]| == sizes[p] }

    /** `admit_chain`: the whole chain, or nothing. The try that is recorded says why. */
    method AdmitChain(item: nat, chain: Chain, sizes: map<string, nat>) returns (r: bool, ghost t: Try)
      requires Explained(sizes)
      requires Consistent() && item < |selected| && chain != []
      modifies this
      ensures Consistent() && projected == old(projected) && Explained(sizes)
      ensures tries == old(tries) + [t] && Offered(tries) == Offered(old(tries)) + t.given && log == old(log) + t.given
      ensures Records(t, item, chain, old(Value()), old(cache), r)
      ensures t.has == cache && (!r && t.given == [] ==> t.mid == Value())
      ensures r ==> t.final.Some? && selected == old(selected)[item := old(selected)[item] + [t.final.value]]
      ensures Taken(old(selected), selected, item, chain[0], prefix, old(excerpts), excerpts, r)
      ensures !r ==> paths == old(paths) && byteCount == old(byteCount)
      ensures steady && SizesHold(sizes) && old(CacheFaithful(limits, cache, disk)) ==>
        CacheFaithful(limits, cache, disk)
    {
      ghost var before := excerpts;
      var final;
      r, final, t := OfferChain(item, chain, sizes);
      ChainTaken(selected, item, chain[0], final, prefix, before, excerpts, r);
      Record(t, sizes, item, final, r);
    }

    method Record(ghost t: Try, ghost sizes: map<string, nat>, item: nat, chain: Chain, kept: bool)
      requires Explained(sizes) && item < |selected|
        && TriesOk(limits, prefix, steady, sizes, disk, completion, tries + [t])
      modifies this`tries, this`attempts, this`selected
      ensures Explained(sizes) && tries == old(tries) + [t]
      ensures selected == if kept then old(selected)[item := old(selected)[item] + [chain]] else old(selected)
    {
      tries, attempts := tries + [t], attempts + 1;
      if kept { selected := selected[item := selected[item] + [chain]]; }
    }

    method OfferChain(item: nat, chain: Chain, sizes: map<string, nat>) returns (r: bool, final: Chain, ghost t: Try)
      requires Consistent() && chain != [] && Explained(sizes)
      modifies this`excerpts, this`paths, this`byteCount, this`truncated, this`skipped, this`log, this`cache
      modifies this`candidateFilesRead, this`candidateBytesRead, this`filesTouched, this`bytesPulled
      ensures Consistent() && log == old(log) + t.given
      ensures TriesOk(limits, prefix, steady, sizes, disk, completion, tries + [t])
        && Offered(tries + [t]) == Offered(tries) + t.given
      ensures Records(t, item, chain, old(Value()), old(cache), r) && (r ==> t.final == Some(final))
      ensures t.has == cache && (!r && t.given == [] ==> t.mid == Value())
      ensures if r then StartsWith(final, chain[0]) && Extended(prefix, final, old(excerpts), excerpts)
        else excerpts == old(excerpts) && paths == old(paths) && byteCount == old(byteCount)
      ensures steady && SizesHold(sizes) && old(CacheFaithful(limits, cache, disk)) ==>
        CacheFaithful(limits, cache, disk)
    {
      var found;
      found, t := CompleteIfFits(item, chain, sizes);
      r, final, t := GiveChain(found, sizes, t);
    }

    /** A chain that fits is completed. */
    method CompleteIfFits(item: nat, chain: Chain, sizes: map<string, nat>) returns (found: Option<Chain>, ghost t: Try)
      requires Consistent() && chain != []
      modifies this`candidateFilesRead, this`candidateBytesRead, this`cache, this`filesTouched, this`bytesPulled
      ensures Consistent() && OnlyLedger() && Records(t, item, chain, old(Value()), old(cache), false) && t.given == []
      ensures t.final == Usable(completion(attempts, chain), chain) && t.mid == Value() && t.has == cache
      ensures found == if FirstFits(limits, prefix, sizes, t) then t.final else None
      ensures steady && SizesHold(sizes) && old(CacheFaithful(limits, cache, disk)) ==>
        CacheFaithful(limits, cache, disk)
    {
      t := Try(item, chain, Value(), cache, Usable(completion(attempts, chain), chain), Value(), cache, [], false);
      found := None;
      if ChainFits(limits, Value(), sizes, cache, Additions(prefix, chain, PathsOf(excerpts))) {
        found := CompleteChain(attempts, chain, sizes);
        t := t.(mid := Value(), has := cache);
      }
    }

    /** A completed chain is given to admission if it still fits. */
    method GiveChain(found: Option<Chain>, sizes: map<string, nat>, ghost offer: Try)
      returns (r: bool, final: Chain, ghost t: Try)
      requires Consistent() && Explained(sizes) && offer.chain != [] && !offer.kept && offer.given == []
      requires offer.final == Usable(completion(attempts, offer.chain), offer.chain)
      requires offer.mid == Value() && offer.has == cache && offer.mid.excerpts == offer.before.excerpts
      requires found == if FirstFits(limits, prefix, sizes, offer) then offer.final else None
      modifies this`excerpts, this`paths, this`byteCount, this`truncated, this`skipped, this`log
      modifies this`candidateFilesRead, this`candidateBytesRead, this`filesTouched, this`bytesPulled
      ensures Consistent() && log == old(log) + t.given
      ensures TriesOk(limits, prefix, steady, sizes, disk, completion, tries + [t])
        && Offered(tries + [t]) == Offered(tries) + t.given
      ensures Records(t, offer.item, offer.chain, offer.before, offer.had, r) && (r ==> t.final == Some(final))
      ensures t.has == cache && (!r && t.given == [] ==> t.mid == Value())
      ensures if r then StartsWith(final, offer.chain[0]) && Extended(prefix, final, old(excerpts), excerpts)
        else excerpts == old(excerpts) && paths == old(paths) && byteCount == old(byteCount)
    {
      r, final, t := false, [], offer;
      if found.Some? && ChainFits(limits, Value(), sizes, cache, Additions(prefix, found.value, PathsOf(excerpts))) {
        ghost var given;
        final := found.value;
        r, given := AdmitFitting(final, sizes);
        t := offer.(given := given, kept := r);
        OneMoreTry(limits, prefix, steady, sizes, disk, completion, tries, t);
      } else {
        NotGiven(limits, prefix, steady, sizes, disk, completion, tries, t);
      }
    }

    /** Admits the additions of a chain that fits and rolls back unless all of it is in. */
    method AdmitFitting(chain: Chain, sizes: map<string, nat>) returns (r: bool, ghost given: seq<Given>)
      requires Consistent() && NoRepeats(chain)
      modifies this`excerpts, this`paths, this`byteCount, this`truncated, this`skipped, this`log
      modifies this`candidateFilesRead, this`candidateBytesRead, this`filesTouched, this`bytesPulled
      ensures Consistent() && log == old(log) + given
      ensures GivenOk(limits, prefix, steady, sizes, disk, old(Value()), chain, cache, given, r,
        if r then Kept else Withdrawn)
      ensures if r then Extended(prefix, chain, old(excerpts), excerpts)
        else excerpts == old(excerpts) && paths == old(paths) && byteCount == old(byteCount)
      ensures steady ==>
        CountersOf(Value()) ==
        CountersOf(AdmitAll(codec, limits, prefix, old(Value()), Additions(prefix, chain, old(PathsOf(excerpts))),
        cache, disk))
    {
      ghost var st, logged := Value(), log;
      var oldCount, oldPaths, oldBytes := |excerpts|, paths, byteCount;
      r, given := AdmitAdditions(chain, sizes);
      if !r {
        RollBack(oldCount, oldPaths, oldBytes, st, logged, given);
        StillGiven(limits, prefix, steady, sizes, disk, st, chain, cache, given, r);
        given := Withdraw(given);
      }
    }

    /** Admission of what the packet still lacks of a chain; whether all of it is in afterwards. */
    method AdmitAdditions(chain: Chain, ghost sizes: map<string, nat>) returns (whole: bool, ghost given: seq<Given>)
      requires Consistent() && NoRepeats(chain)
      modifies this`excerpts, this`paths, this`byteCount, this`truncated, this`skipped, this`log
      modifies this`candidateFilesRead, this`candidateBytesRead, this`filesTouched, this`bytesPulled
      ensures Consistent() && old(excerpts) <= excerpts && log == old(log) + given
      ensures GivenOk(limits, prefix, steady, sizes, disk, old(Value()), chain, cache, given, whole, Kept)
      ensures whole ==> Extended(prefix, chain, old(excerpts), excerpts)
      ensures steady ==>
        Value() == AdmitAll(codec, limits, prefix, old(Value()), Additions(prefix, chain, old(PathsOf(excerpts))),
        cache, disk)
    {
      ghost var st, logged := Value(), log;
      var additions := Additions(prefix, chain, PathsOf(excerpts));
      AdditionsDistinct(prefix, chain, PathsOf(excerpts));
      AdditionsNew(prefix, chain, excerpts);
      AdmitList(additions);
      AdditionsGiven(codec, limits, prefix, steady, sizes, disk, st, logged, Value(), log, chain, cache, projected);
      given := log[|logged|..];
      whole := forall p :: p in chain ==> prefix + p in PathsOf(excerpts);
    }

    method RollBack(oldCount: nat, oldPaths: map<string, string>, oldBytes: nat, ghost st: State,
                    ghost logged: seq<Given>, ghost given: seq<Given>)
      requires Consistent() && Sound(codec, limits, st) && DistinctPaths(st.excerpts) && st.excerpts <= excerpts
      requires oldCount == |st.excerpts| && oldPaths == st.paths && oldBytes == st.byteCount
      requires Balanced(prefix, st, logged, projected) && log == logged + given
        && (forall i :: 0 <= i < |given| ==> given[i].now == Kept)
      modifies this`excerpts, this`paths, this`byteCount, this`log
      ensures Consistent() && excerpts == st.excerpts && paths == st.paths && byteCount == st.byteCount
      ensures log == logged + Withdraw(given) && CountersOf(Value()) == CountersOf(old(Value()))
    {
      assert excerpts[..oldCount] == st.excerpts;
      BalancedBack(prefix, st, logged, Value(), given, projected);
      log := logged + Withdraw(given);
      excerpts, paths, byteCount := excerpts[..oldCount], oldPaths, oldBytes;
    }

    // The whole packet.

    /** Gives each item its first chain, then each item its second. */
    method SelectChains(chains: seq<seq<Chain>>, sizes: map<string, nat>, ghost core: seq<string>,
                        ghost base: seq<Given>)
      requires log == base + Offered(tries) && Explained(sizes)
      requires Consistent() && |chains| == |selected| && NonEmpty(chains)
        && Selection(prefix, core, selected, excerpts, 0)
      modifies this
      ensures Consistent() && |selected| == |chains| && Selection(prefix, core, selected, excerpts, 2)
      ensures projected == old(projected) && log == base + Offered(tries)
      ensures Explained(sizes)
      ensures forall k :: 0 <= k < |chains| ==> Served(k, chains[k], 2)
    {
      var wanted := 1;
      while wanted <= 2
        invariant 1 <= wanted <= 3
        invariant Consistent() && |selected| == |chains| && Selection(prefix, core, selected, excerpts, wanted - 1)
        invariant projected == old(projected) && log == base + Offered(tries) && Explained(sizes)
        invariant forall k :: 0 <= k < |chains| ==> Served(k, chains[k], wanted - 1)
      {
        var item := 0;
        SelectionRoom(prefix, core, selected, excerpts, wanted - 1, wanted);
        while item < |chains|
          invariant 0 <= item <= |chains|
          invariant Consistent() && |selected| == |chains| && Selection(prefix, core, selected, excerpts, wanted)
          invariant projected == old(projected) && log == base + Offered(tries) && Explained(sizes)
          invariant forall k :: 0 <= k < |chains| ==> Served(k, chains[k], if k < item then wanted else wanted - 1)
        {
          SelectOne(item, chains[item], sizes, core, wanted, base);
          item := item + 1;
        }
        wanted := wanted + 1;
      }
    }

    /** The item has as many chains as wanted, or each of its chains comes from a caller it has or was tried in vain. */
    ghost predicate Served(item: nat, chains: seq<Chain>, wanted: nat) reads this {
      item < |selected| && (|selected[item]| >= wanted ||
        forall k ::
          0 <= k < |chains| && chains[k] != [] ==>
          chains[k][0] in Callers(selected[item]) || InVain(tries, item, chains[k]))
    }

    /** One more chain for one item, from a caller it does not have yet. */
    method SelectOne(item: nat, chains: seq<Chain>, sizes: map<string, nat>, ghost core: seq<string>, wanted: nat,
                     ghost base: seq<Given>)
      requires log == base + Offered(tries) && Explained(sizes)
      requires Consistent() && item < |selected| && (forall j :: 0 <= j < |chains| ==> chains[j] != [])
      requires Selection(prefix, core, selected, excerpts, wanted) && wanted > 0 && Served(item, chains, wanted - 1)
      modifies this
      ensures Consistent() && |selected| == |old(selected)| && Selection(prefix, core, selected, excerpts, wanted)
      ensures projected == old(projected) && old(tries) <= tries && log == base + Offered(tries)
      ensures Explained(sizes)
      ensures Served(item, chains, wanted)
        && forall k :: 0 <= k < |selected| && k != item ==> selected[k] == old(selected)[k]
    {
      var accepted := Callers(selected[item]);
      CallersCount(selected[item]);
      if |accepted| >= wanted { return; }
      var i := 0;
      while i < |chains|
        invariant 0 <= i <= |chains|
        invariant Consistent() && selected == old(selected) && Selection(prefix, core, selected, excerpts, wanted)
        invariant projected == old(projected) && old(tries) <= tries && log == base + Offered(tries)
        invariant Explained(sizes)
        invariant forall k :: 0 <= k < i ==> chains[k][0] in accepted || InVain(tries, item, chains[k])
      {
        if chains[i][0] !in accepted {
          ghost var earlier := tries;
          var admitted := SelectNext(item, chains[i], sizes, core, wanted, base);
          InVainStays(earlier, tries, item, chains);
          if admitted {
            InVainStays(old(tries), tries, item, chains);
            return;
          }
        }
        i := i + 1;
      }
    }

    /** One chain tried for an item that lacks its caller. */
    method SelectNext(item: nat, chain: Chain, sizes: map<string, nat>, ghost core: seq<string>, wanted: nat,
                      ghost base: seq<Given>) returns (admitted: bool)
      requires log == base + Offered(tries) && Explained(sizes)
      requires Consistent() && item < |selected| && chain != [] && Selection(prefix, core, selected, excerpts, wanted)
      requires chain[0] !in Callers(selected[item]) && |selected[item]| < wanted
      modifies this
      ensures Consistent() && projected == old(projected) && old(tries) <= tries && log == base + Offered(tries)
      ensures Explained(sizes)
      ensures Selection(prefix, core, selected, excerpts, wanted)
      ensures if admitted then OneMore(old(selected), selected, item)
        else selected == old(selected) && InVain(tries, item, chain)
    {
      ghost var before, was := excerpts, selected;
      admitted := TryNext(item, chain, sizes, base);
      SelectionTakes(prefix, core, was, selected, item, chain[0], before, excerpts, wanted, admitted);
    }

    /** One chain offered to admission, and what that adds to the account. */
    method TryNext(item: nat, chain: Chain, sizes: map<string, nat>, ghost base: seq<Given>) returns (admitted: bool)
      requires log == base + Offered(tries) && Explained(sizes)
      requires Consistent() && item < |selected| && chain != []
      modifies this
      ensures Consistent() && projected == old(projected) && old(tries) <= tries && log == base + Offered(tries)
      ensures Explained(sizes)
      ensures Taken(old(selected), selected, item, chain[0], prefix, old(excerpts), excerpts, admitted)
      ensures !admitted ==> InVain(tries, item, chain)
    {
      ghost var earlier := tries;
      ghost var t;
      admitted, t := AdmitChain(item, chain, sizes);
      assert log == base + (Offered(earlier) + t.given);
      if !admitted { VainNow(tries, t); }
    }

    /** A third chain for an item, if another row already brought all its files. */
    method SelectAlternatives(chains: seq<seq<Chain>>, ghost core: seq<string>)
      requires Consistent() && |chains| == |selected| && NonEmpty(chains) && Owned(prefix, selected, excerpts, 2)
      modifies this`selected
      ensures Consistent() && |selected| == |chains| && Owned(prefix, selected, excerpts, 3)
      ensures AllAlternated(prefix, chains, excerpts, old(selected), selected)
    {
      var item := 0;
      while item < |chains|
        invariant 0 <= item <= |chains|
        invariant Consistent() && |selected| == |chains| && Owned(prefix, selected, excerpts, 3)
        invariant forall k :: 0 <= k < |chains| ==>
          if k < item then Alternated(prefix, chains[k], excerpts, old(selected)[k], selected[k])
          else selected[k] == old(selected)[k]
      {
        SelectAlternative(item, chains[item]);
        item := item + 1;
      }
    }

    /** One item's turn: the first of its chains from a new caller that is wholly there, if it has too few. */
    method SelectAlternative(item: nat, chains: seq<Chain>)
      requires Consistent() && item < |selected| && Owned(prefix, selected, excerpts, 3)
      requires forall i :: 0 <= i < |chains| ==> chains[i] != []
      modifies this`selected
      ensures Consistent() && |selected| == |old(selected)| && Owned(prefix, selected, excerpts, 3)
      ensures Alternated(prefix, chains, excerpts, old(selected)[item], selected[item])
      ensures forall k :: 0 <= k < |selected| && k != item ==> selected[k] == old(selected)[k]
    {
      var callers := Callers(selected[item]);
      CallersCount(selected[item]);
      if |callers| >= 3 { return; }
      ghost var had := selected[item];
      forall j | 0 <= j < |chains|
        ensures Alternative(prefix, chains[j], excerpts, had) <==>
          chains[j][0] !in callers && Within(prefix, chains[j], excerpts)
      {
        CallerIs(had, chains[j][0]);
      }
      var i := 0;
      while i < |chains|
        && !(chains[i][0] !in callers && forall p :: p in chains[i] ==> prefix + p in PathsOf(excerpts))
        invariant 0 <= i <= |chains|
        invariant forall j :: 0 <= j < i ==> !Alternative(prefix, chains[j], excerpts, had)
      {
        i := i + 1;
      }
      if i < |chains| {
        assert FirstAlternative(prefix, chains, excerpts, had, i);
        OwnedAdds(prefix, selected, item, chains[i], excerpts, 3);
        selected := selected[item := selected[item] + [chains[i]]];
      }
    }

    /** Drops trailing excerpts until the packet is within the prompt cap or empty: the longest prefix that
        fits, with the counts it then reports. It ends within the cap exactly when some prefix is. */
    method Trim(packetSize: (seq<Excerpt>, nat, nat) -> nat)
      requires Consistent()
      modifies this`excerpts, this`byteCount, this`truncated, this`log
      ensures Consistent() && SameGiven(old(log), log)
      ensures LeftOver(packetSize, limits.prompt, old(excerpts), old(truncated), excerpts, truncated)
      ensures excerpts != [] ==> packetSize(excerpts, byteCount, truncated) <= limits.prompt
      ensures packetSize(excerpts, byteCount, truncated) <= limits.prompt <==>
        SomeFits(packetSize, limits.prompt, old(excerpts), old(truncated))
    {
      ghost var all, was := excerpts, truncated;
      while excerpts != [] && packetSize(excerpts, byteCount, truncated) > limits.prompt
        invariant Consistent() && SameGiven(old(log), log)
          && LeftOver(packetSize, limits.prompt, all, was, excerpts, truncated)
        decreases |excerpts|
      {
        LeftOverStep(packetSize, limits.prompt, all, was, excerpts, truncated);
        DropOne();
      }
      LongestFits(packetSize, limits.prompt, all, was, excerpts, truncated);
    }

    method DropOne()
      requires Consistent() && excerpts != []
      modifies this`excerpts, this`byteCount, this`truncated, this`log
      ensures Consistent() && excerpts == old(excerpts)[..|old(excerpts)| - 1] && truncated == old(truncated) + 1
      ensures SameGiven(old(log), log)
    {
      DropKeeps(codec, limits, prefix, Value(), log, projected);
      var dropped := excerpts[|excerpts| - 1];
      excerpts, byteCount, truncated := excerpts[..|excerpts| - 1], byteCount - |dropped.text|, truncated + 1;
      log := DropLast(log);
    }

    /** The projection of a static packet: only the two counters move, by what the projection of the sizes
        says, and to where admitting every candidate would have moved them. */
    method ProjectRest(rels: seq<string>, sizes: seq<nat>) returns (admitted: nat)
      requires Consistent() && |sizes| == |rels| && projected == (0, 0)
      modifies this`truncated, this`skipped, this`projected
      ensures Consistent() && projected == (skipped - old(skipped), truncated - old(truncated))
      ensures var t := old(TallyOf(Value())); var p := ProjectedAll(limits, t, sizes);
        admitted == p.files - t.files && skipped == p.skipped && truncated == p.truncated
      ensures steady && AllPlain(rels, cache, disk) && sizes == Sizes(rels, disk) ==>
        Unbinding(limits, old(Value()), sizes) && AllCertain(limits, old(TallyOf(Value())), 0, sizes) ==>
        var to := AdmitAll(codec, limits, prefix, old(Value()), rels, cache, disk);
        admitted == |to.excerpts| - |excerpts| && skipped == to.skipped && truncated == to.truncated
    {
      ghost var st := Value();
      ProjectionBalances(limits, TallyOf(Value()), sizes);
      admitted, skipped, truncated := ProjectStaticAdmission(limits, TallyOf(Value()), sizes);
      projected := (skipped - st.skipped, truncated - st.truncated);
      if AllPlain(rels, cache, disk) && sizes == Sizes(rels, disk) && Unbinding(limits, st, sizes)
        && AllCertain(limits, TallyOf(st), 0, sizes) {
        CertainMeansAgreed(codec, limits, prefix, st, rels, cache, disk, TallyOf(st), 0);
      }
    }

    method ReadContext(wanted: seq<(string, nat, bool)>)
      requires Consistent() && forall i :: 0 <= i < |wanted| ==> wanted[i].1 > 0
      modifies this`candidateFilesRead, this`candidateBytesRead, this`cache, this`filesTouched, this`bytesPulled
      ensures Consistent() && OnlyLedger()
      ensures steady && LimitsReach(limits, wanted) && old(CacheFaithful(limits, cache, disk)) ==>
        CacheFaithful(limits, cache, disk)
      ensures forall p :: p in old(cache) ==> p in cache && cache[p] == old(cache)[p]
      ensures steady ==> ContextRead(limits, disk, wanted, |wanted|, cache, Value())
    {
      for i := 0 to |wanted|
        invariant Consistent() && OnlyLedger()
        invariant steady && LimitsReach(limits, wanted) && old(CacheFaithful(limits, cache, disk)) ==>
          CacheFaithful(limits, cache, disk)
        invariant forall p :: p in old(cache) ==> p in cache && cache[p] == old(cache)[p]
        invariant steady ==> ContextRead(limits, disk, wanted, i, cache, Value())
      {
        var _ := Reader(wanted[i].0, wanted[i].1, wanted[i].2);
      }
    }

    method ProbeLocks(names: seq<string>) returns (locked: seq<bool>)
      requires Consistent()
      modifies this`candidateFilesRead, this`candidateBytesRead, this`filesTouched, this`bytesPulled
      ensures Consistent() && OnlyLedger() && |locked| == |names|
      ensures steady ==> forall i :: 0 <= i < |names| ==> LockTold(limits, disk, names[i], locked[i], Value())
    {
      locked := [];
      for i := 0 to |names|
        invariant Consistent() && OnlyLedger() && |locked| == i
        invariant steady ==> forall k :: 0 <= k < i ==> LockTold(limits, disk, names[k], locked[k], Value())
      {
        var one := ProbeLock(names[i]);
        locked := locked + [one];
      }
    }

    /** `_build_one_packet` from its readers to its chain record. Which files are core, which callers and chains
        an item has, and how large a packet body is, come from outside. */
    method BuildFull(wanted: seq<(string, nat, bool)>, pool: seq<(string, nat)>, core: seq<string>,
                     chains: seq<seq<Chain>>, rest: seq<string>, sizes: map<string, nat>, locks: seq<string>,
                     packetSize: (seq<Excerpt>, nat, nat) -> nat)
      returns (record: seq<seq<Chain>>, texts: map<string, Bytes>, locked: seq<bool>, ghost m: Milestones)
      requires Consistent() && log == [] && tries == [] && attempts == 0 && projected == (0, 0)
        && |selected| == |chains| && (forall k :: 0 <= k < |chains| ==> selected[k] == [])
      requires NonEmpty(chains) && NoRepeats(core) && NoRepeats(rest)
        && forall i :: 0 <= i < |wanted| ==> wanted[i].1 > 0
      modifies this
      ensures Consistent() && projected == (0, 0) && |locked| == |locks|
      ensures steady ==> ContextRead(limits, disk, wanted, |wanted|, m.context, m.ledger)
      ensures steady ==> texts == PoolOf(limits, m.ledger, m.context, disk, pool)
      ensures steady ==> forall i :: 0 <= i < |locks| ==> LockTold(limits, disk, locks[i], locked[i], Value())
      ensures EveryoneGiven(m.given, core, m.offered, Unprotected(rest, core, m.chosen)) && SameGiven(m.given, log)
      ensures m.offered == Offered(tries) && Explained(sizes)
      ensures |selected| == |chains| && forall k :: 0 <= k < |chains| ==> Served(k, chains[k], 2)
      ensures AllAlternated(prefix, chains, m.full.excerpts, m.chosen, selected)
      ensures Balanced(prefix, m.full, m.given, (0, 0))
      ensures LeftOver(packetSize, limits.prompt, m.full.excerpts, m.full.truncated, excerpts, truncated)
      ensures packetSize(excerpts, byteCount, truncated) <= limits.prompt <==>
        SomeFits(packetSize, limits.prompt, m.full.excerpts, m.full.truncated)
      ensures excerpts != [] ==> packetSize(excerpts, byteCount, truncated) <= limits.prompt
      ensures KeepsWhole(prefix, selected, excerpts, record) && Owned(prefix, record, excerpts, 3)
      ensures |excerpts| + skipped + truncated + Count(m.offered, withdrawals) ==
        |core| + |m.offered| + |Unprotected(rest, core, m.chosen)| + Count(log, cuts)
    {
      ghost var context, ledger;
      texts, context, ledger := ReadFirst(wanted, pool);
      ghost var chosen, offered := AdmitEverything(core, chains, rest, sizes);
      m := Milestones(context, ledger, chosen, offered, Value(), log);
      record, locked := Shorten(locks, packetSize, core, offered, Unprotected(rest, core, chosen));
    }

    /** Everything that is read before admission: the context, and the texts that candidates are ranked by. */
    method ReadFirst(wanted: seq<(string, nat, bool)>, pool: seq<(string, nat)>)
      returns (texts: map<string, Bytes>, ghost context: Disk, ghost ledger: State)
      requires Consistent() && forall i :: 0 <= i < |wanted| ==> wanted[i].1 > 0
      modifies this`candidateFilesRead, this`candidateBytesRead, this`cache, this`filesTouched, this`bytesPulled
      ensures Consistent() && OnlyLedger()
      ensures steady ==> ContextRead(limits, disk, wanted, |wanted|, context, ledger)
      ensures steady ==> texts == PoolOf(limits, ledger, context, disk, pool)
    {
      ReadContext(wanted);
      context, ledger := cache, Value();
      texts := CandidateTextPool(pool);
    }

    /** The lock files and the prompt cap. */
    method CloseUp(locks: seq<string>, packetSize: (seq<Excerpt>, nat, nat) -> nat) returns (locked: seq<bool>)
      requires Consistent()
      modifies this`candidateFilesRead, this`candidateBytesRead, this`filesTouched, this`bytesPulled
      modifies this`excerpts, this`byteCount, this`truncated, this`log
      ensures Consistent() && SameGiven(old(log), log) && |locked| == |locks|
      ensures steady ==> forall i :: 0 <= i < |locks| ==> LockTold(limits, disk, locks[i], locked[i], Value())
      ensures LeftOver(packetSize, limits.prompt, old(excerpts), old(truncated), excerpts, truncated)
      ensures packetSize(excerpts, byteCount, truncated) <= limits.prompt <==>
        SomeFits(packetSize, limits.prompt, old(excerpts), old(truncated))
      ensures excerpts != [] ==> packetSize(excerpts, byteCount, truncated) <= limits.prompt
    {
      locked := ProbeLocks(locks);
      Trim(packetSize);
    }

    /** The lock files, the prompt cap and the record of chains still whole. */
    method Shorten(locks: seq<string>, packetSize: (seq<Excerpt>, nat, nat) -> nat, ghost core: seq<string>,
                   ghost offered: seq<Given>, ghost late: seq<string>)
      returns (record: seq<seq<Chain>>, locked: seq<bool>)
      requires Consistent() && projected == (0, 0) && Owned(prefix, selected, excerpts, 3)
        && EveryoneGiven(log, core, offered, late)
      modifies this`candidateFilesRead, this`candidateBytesRead, this`filesTouched, this`bytesPulled
      modifies this`excerpts, this`byteCount, this`truncated, this`log
      ensures Consistent() && SameGiven(old(log), log)
      ensures LeftOver(packetSize, limits.prompt, old(excerpts), old(truncated), excerpts, truncated)
      ensures packetSize(excerpts, byteCount, truncated) <= limits.prompt <==>
        SomeFits(packetSize, limits.prompt, old(excerpts), old(truncated))
      ensures excerpts != [] ==> packetSize(excerpts, byteCount, truncated) <= limits.prompt
      ensures KeepsWhole(prefix, selected, excerpts, record) && |locked| == |locks|
      ensures |record| == |selected| && Owned(prefix, record, excerpts, 3) && EveryoneGiven(log, core, offered, late)
      ensures |excerpts| + skipped + truncated + Count(offered, withdrawals) ==
        |core| + |offered| + |late| + Count(log, cuts)
      ensures steady ==> forall i :: 0 <= i < |locks| ==> LockTold(limits, disk, locks[i], locked[i], Value())
    {
      ghost var given := log;
      locked := CloseUp(locks, packetSize);
      record := Recorded(prefix, selected, excerpts);
      RecordOwned(prefix, selected, excerpts, 3);
      RecordKeeps(prefix, selected, excerpts);
      SameGivenCounts(given, log);
      EveryoneReported(prefix, Value(), log, core, offered, late);
    }

    /** Core files, then chains, then the rest, then the alternatives they bring along. */
    method AdmitEverything(core: seq<string>, chains: seq<seq<Chain>>, rest: seq<string>, sizes: map<string, nat>)
      returns (ghost chosen: seq<seq<Chain>>, ghost offered: seq<Given>)
      requires Consistent() && log == [] && tries == [] && attempts == 0 && |selected| == |chains|
        && (forall k :: 0 <= k < |chains| ==> selected[k] == [])
      requires NonEmpty(chains) && NoRepeats(core) && NoRepeats(rest)
      modifies this
      ensures Consistent() && projected == old(projected) && |selected| == |chains|
        && Owned(prefix, selected, excerpts, 3)
      ensures EveryoneGiven(log, core, offered, Unprotected(rest, core, chosen))
      ensures AllAlternated(prefix, chains, excerpts, chosen, selected)
      ensures offered == Offered(tries) && Explained(sizes)
      ensures forall k :: 0 <= k < |chains| ==> Served(k, chains[k], 2)
    {
      NothingStands(prefix, Value(), projected);
      AdmitList(core);
      ghost var first := log;
      SelectionStarts(prefix, core, selected, excerpts);
      SelectChains(chains, sizes, core, first);
      chosen, offered := selected, Offered(tries);
      AdmitRest(rest, core, first, offered);
      SelectAlternatives(chains, core);
    }

    /** Every remaining file that no selected chain needed. */
    method AdmitRest(rest: seq<string>, core: seq<string>, ghost first: seq<Given>, ghost offered: seq<Given>)
      requires Gave([], first, core) && log == first + offered
      requires Consistent() && NoRepeats(rest) && Selection(prefix, core, selected, excerpts, 2)
      modifies this`excerpts, this`paths, this`byteCount, this`truncated, this`skipped, this`log
      modifies this`candidateFilesRead, this`candidateBytesRead, this`filesTouched, this`bytesPulled
      ensures Consistent() && Owned(prefix, selected, excerpts, 2)
      ensures EveryoneGiven(log, core, offered, Unprotected(rest, core, selected))
    {
      var late := Unprotected(rest, core, selected);
      LateIsNew(prefix, core, selected, excerpts, late);
      ghost var before := excerpts;
      ghost var second := log;
      AdmitList(late);
      assert second[|first|..] == offered;
      JoinedLog(first, second, log, core, late);
      OwnedMore(prefix, selected, before, excerpts, 2);
    }

    /** The static packet: core and marker files, then the projection. */
    method BuildStatic(wanted: seq<(string, nat, bool)>, core: seq<string>, markers: seq<string>, rest: seq<string>,
                       sizes: seq<nat>, locks: seq<string>, packetSize: (seq<Excerpt>, nat, nat) -> nat)
      returns (admitted: nat, locked: seq<bool>, ghost base: Tally, ghost m: Milestones)
      requires Consistent() && log == [] && projected == (0, 0) && NoRepeats(core + markers) && |sizes| == |rest|
      requires forall i :: 0 <= i < |wanted| ==> wanted[i].1 > 0
      modifies this
      ensures Consistent() && Rels(log) == core + markers && Count(log, withdrawals) == 0
      ensures steady ==> ContextRead(limits, disk, wanted, |wanted|, m.context, m.ledger)
      ensures |locked| == |locks|
      ensures steady ==> forall i :: 0 <= i < |locks| ==> LockTold(limits, disk, locks[i], locked[i], Value())
      ensures Shown(m.full.excerpts) == Standing(prefix, m.given) && SameGiven(m.given, log)
      ensures LeftOver(packetSize, limits.prompt, m.full.excerpts, m.full.truncated, excerpts, truncated)
      ensures excerpts != [] ==> packetSize(excerpts, byteCount, truncated) <= limits.prompt
      ensures base.files == Count(log, admits) && base.skipped == Count(log, skips)
        && base.truncated == Count(log, truncations)
      ensures var p := ProjectedAll(limits, base, sizes);
        admitted == p.files - base.files && skipped == p.skipped && truncated == p.truncated + Count(log, drops)
      ensures |excerpts| + admitted + skipped + truncated ==
        |core| + |markers| + |rest| + Count(log, cuts) + ProjectedCuts(limits, base, sizes)
    {
      ReadContext(wanted);
      m := Milestones(cache, Value(), [], [], Value(), log);
      AdmitStatic(core, markers);
      ghost var given := log;
      base := TallyOf(Value());
      admitted := ProjectRest(rest, sizes);
      m := m.(full := Value(), given := log);
      locked := CloseUp(locks, packetSize);
      SameGivenCounts(given, log);
      ReportsAll(prefix, Value(), log, projected);
      assert |Rels(log)| == |core| + |markers|;
      ProjectionBalances(limits, base, sizes);
    }

    /** Core files, then dependency markers; nothing is withdrawn, so what is admitted is in the packet. */
    method AdmitStatic(core: seq<string>, markers: seq<string>)
      requires Consistent() && log == [] && NoRepeats(core + markers)
      modifies this`excerpts, this`paths, this`byteCount, this`truncated, this`skipped, this`log
      modifies this`candidateFilesRead, this`candidateBytesRead, this`filesTouched, this`bytesPulled
      ensures Consistent() && Rels(log) == core + markers
      ensures Count(log, withdrawals) == 0 == Count(log, drops) && Count(log, admits) == |excerpts|
    {
      FirstOfDistinct(core, markers);
      NothingStands(prefix, Value(), projected);
      AdmitList(core);
      ghost var first := log;
      MarkersAreNew(prefix, core, markers, excerpts);
      AdmitList(markers);
      GaveTwice(prefix, first, log, core, markers);
    }
  }

  // Why a chain was kept or not.

  /** One chain offered for one item: the state and cache at the first check, what completing it came to, the state
      and cache at the second check, the files given to admission, and whether the chain was kept. */
  datatype Try = Try(item: nat, chain: Chain, before: State, had: Disk, final: Option<Chain>, mid: State, has: Disk,
    given: seq<Given>, kept: bool)

  /** What rolling a chain back leaves as it is. */
  function CountersOf(st: State): (nat, nat, nat, int) { (st.truncated, st.skipped, st.filesRead, st.bytesRead) }

  predicate StartsWith(chain: Chain, caller: string) { chain != [] && chain[0] == caller }

  /** A completion counts only if it starts with the same caller and repeats no file. */
  function Usable(c: Option<Chain>, chain: Chain): Option<Chain> {
    if c.Some? && chain != [] && c.value != [] && c.value[0] == chain[0] && NoRepeats(c.value) then c else None
  }

  predicate Records(t: Try, item: nat, chain: Chain, before: State, had: Disk, kept: bool) {
    t.item == item && t.chain == chain && t.before == before && t.had == had && t.kept == kept
  }

  predicate AllAdmitted(given: seq<Given>) { forall i :: 0 <= i < |given| ==> given[i].fate.Admitted? }

  predicate FirstFits(l: Limits, prefix: string, sizes: map<string, nat>, t: Try) {
    ChainFits(l, t.before, sizes, t.had, Additions(prefix, t.chain, PathsOf(t.before.excerpts)))
  }

  predicate ThenFits(l: Limits, prefix: string, sizes: map<string, nat>, t: Try) {
    t.final.Some? && ChainFits(l, t.mid, sizes, t.has, Additions(prefix, t.final.value, PathsOf(t.mid.excerpts)))
  }

  /** A chain is given to admission exactly when it fits, can be completed, and still fits; and it is kept exactly
      when every file it then lacks is admitted: over listed, unchanging files, when its reads do not end exactly
      on the byte budget. */
  ghost predicate TryOk(l: Limits, prefix: string, steady: bool, sizes: map<string, nat>, disk: Disk,
                        completion: (nat, Chain) -> Option<Chain>, n: nat, t: Try) {
    && t.final == Usable(completion(n, t.chain), t.chain) && t.mid.excerpts == t.before.excerpts
    && if FirstFits(l, prefix, sizes, t) && ThenFits(l, prefix, sizes, t) then
         GivenOk(l, prefix, steady, sizes, disk, t.mid, t.final.value, t.has, t.given, t.kept,
           if t.kept then Kept else Withdrawn)
       else !t.kept && t.given == []
  }

  /** What is missing of a chain was given, in order, and the chain kept exactly when all of that was admitted. */
  ghost predicate GivenOk(l: Limits, prefix: string, steady: bool, sizes: map<string, nat>, disk: Disk, st: State,
                          chain: Chain, cache: Disk, given: seq<Given>, kept: bool, ending: Now) {
    && Rels(given) == Additions(prefix, chain, PathsOf(st.excerpts))
    && (forall i :: 0 <= i < |given| ==> given[i].now == ending)
    && (kept <==> AllAdmitted(given))
    && Decided(l, prefix, steady, st, chain, sizes, cache, disk, kept)
  }

  ghost predicate TriesOk(l: Limits, prefix: string, steady: bool, sizes: map<string, nat>, disk: Disk,
                          completion: (nat, Chain) -> Option<Chain>, tries: seq<Try>) {
    forall n {:trigger TryOk(l, prefix, steady, sizes, disk, completion, n, tries[n])} :: 0 <= n < |tries| ==>
      TryOk(l, prefix, steady, sizes, disk, completion, n, tries[n])
  }

  /** This chain was tried for this item and not kept. */
  ghost predicate InVain(tries: seq<Try>, item: nat, chain: Chain) {
    exists n :: 0 <= n < |tries| && tries[n].item == item && tries[n].chain == chain && !tries[n].kept
  }

  lemma StillGiven(l: Limits, prefix: string, steady: bool, sizes: map<string, nat>, disk: Disk, st: State,
                   chain: Chain, cache: Disk, given: seq<Given>, kept: bool)
    requires GivenOk(l, prefix, steady, sizes, disk, st, chain, cache, given, kept, Kept)
    ensures GivenOk(l, prefix, steady, sizes, disk, st, chain, cache, Withdraw(given), kept, Withdrawn)
  {
    assert Rels(Withdraw(given)) == Rels(given);
    forall i | 0 <= i < |given| ensures Withdraw(given)[i].fate == given[i].fate {}
  }

  lemma VainNow(tries: seq<Try>, t: Try)
    requires tries != [] && tries[|tries| - 1] == t && !t.kept
    ensures InVain(tries, t.item, t.chain)
  {
  }

  /** All files the tries have given to admission, in order. */
  function Offered(tries: seq<Try>): seq<Given> {
    if tries == [] then [] else Offered(tries[..|tries| - 1]) + tries[|tries| - 1].given
  }

  lemma NotGiven(l: Limits, prefix: string, steady: bool, sizes: map<string, nat>, disk: Disk,
                 completion: (nat, Chain) -> Option<Chain>, tries: seq<Try>, t: Try)
    requires TriesOk(l, prefix, steady, sizes, disk, completion, tries)
    requires t.final == Usable(completion(|tries|, t.chain), t.chain) && t.mid.excerpts == t.before.excerpts && !t.kept
      && t.given == []
    requires !FirstFits(l, prefix, sizes, t) || !ThenFits(l, prefix, sizes, t)
    ensures TriesOk(l, prefix, steady, sizes, disk, completion, tries + [t])
      && Offered(tries + [t]) == Offered(tries) + t.given
  {
    OneMoreTry(l, prefix, steady, sizes, disk, completion, tries, t);
  }

  lemma OneMoreTry(l: Limits, prefix: string, steady: bool, sizes: map<string, nat>, disk: Disk,
                   completion: (nat, Chain) -> Option<Chain>, tries: seq<Try>, t: Try)
    requires TriesOk(l, prefix, steady, sizes, disk, completion, tries)
    requires TryOk(l, prefix, steady, sizes, disk, completion, |tries|, t)
    ensures TriesOk(l, prefix, steady, sizes, disk, completion, tries + [t])
    ensures Offered(tries + [t]) == Offered(tries) + t.given
  {
    OfferedMore(tries, t);
    var now := tries + [t];
    forall n | 0 <= n < |now| ensures TryOk(l, prefix, steady, sizes, disk, completion, n, now[n]) {
      if n < |tries| {
        assert now[n] == tries[n];
        EarlierTry(l, prefix, steady, sizes, disk, completion, tries, n);
      } else {
        assert n == |tries| && now[n] == t;
      }
    }
  }

  lemma OfferedMore(tries: seq<Try>, t: Try)
    ensures Offered(tries + [t]) == Offered(tries) + t.given
  {
    assert (tries + [t])[..|tries|] == tries;
  }

  lemma EarlierTry(l: Limits, prefix: string, steady: bool, sizes: map<string, nat>, disk: Disk,
                   completion: (nat, Chain) -> Option<Chain>, tries: seq<Try>, n: nat)
    requires TriesOk(l, prefix, steady, sizes, disk, completion, tries) && n < |tries|
    ensures TryOk(l, prefix, steady, sizes, disk, completion, n, tries[n])
  {
  }

  lemma InVainStays(was: seq<Try>, now: seq<Try>, item: nat, chains: seq<Chain>)
    requires was <= now
    ensures forall k :: 0 <= k < |chains| && InVain(was, item, chains[k]) ==> InVain(now, item, chains[k])
  {
    forall k | 0 <= k < |chains| && InVain(was, item, chains[k]) ensures InVain(now, item, chains[k]) {
      var n :| 0 <= n < |was| && was[n].item == item && was[n].chain == chains[k] && !was[n].kept;
      assert now[n] == was[n];
    }
  }

  /** All of the files given are in the packet exactly when each was admitted. */
  lemma WholeWhenAdmitted(prefix: string, st: State, was: seq<Given>, to: State, now: seq<Given>, rels: seq<string>,
                          projected: (nat, nat))
    requires Balanced(prefix, st, was, projected) && Balanced(prefix, to, now, projected) && Gave(was, now, rels)
    requires NoRepeats(rels) && NoneIn(prefix, rels, st.excerpts)
    ensures Within(prefix, rels, to.excerpts) <==> AllAdmitted(now[|was|..])
  {
    var added := now[|was|..];
    forall i | 0 <= i < |rels| ensures prefix + rels[i] in PathsOf(to.excerpts) <==> added[i].fate.Admitted? {
      ShownWhenAdmitted(prefix, st, was, to, now, rels, projected, i);
    }
    if Within(prefix, rels, to.excerpts) {
      forall i | 0 <= i < |added| ensures added[i].fate.Admitted? { assert rels[i] in rels; }
    }
    if AllAdmitted(added) {
      forall p | p in rels ensures prefix + p in PathsOf(to.excerpts) {
        var i :| 0 <= i < |rels| && rels[i] == p;
      }
    }
  }

  /** The whole chain is in, and only its files were added. */
  ghost predicate Extended(prefix: string, chain: Chain, was: seq<Excerpt>, now: seq<Excerpt>) {
    Within(prefix, chain, now) && was <= now && PathsOf(was) <= PathsOf(now) <= PathsOf(was) + Prefixed(prefix, chain)
  }

  /** A chain with this caller was recorded, and all of it is in the packet. */
  ghost predicate ChainAdded(was: seq<seq<Chain>>, now: seq<seq<Chain>>, item: nat, caller: string, prefix: string,
                             before: seq<Excerpt>, after: seq<Excerpt>) {
    && item < |was| == |now| && |now[item]| == |was[item]| + 1
    && var chain := now[item][|was[item]|];
      now == was[item := was[item] + [chain]] && chain != [] && chain[0] == caller
        && Extended(prefix, chain, before, after)
  }

  /** A chain was added with its files, or neither selection nor packet changed. */
  ghost predicate Taken(was: seq<seq<Chain>>, now: seq<seq<Chain>>, item: nat, caller: string, prefix: string,
                        before: seq<Excerpt>, after: seq<Excerpt>, admitted: bool) {
    if admitted then ChainAdded(was, now, item, caller, prefix, before, after) else now == was && after == before
  }

  lemma ChainTaken(was: seq<seq<Chain>>, item: nat, caller: string, chain: Chain, prefix: string, before: seq<Excerpt>,
                   after: seq<Excerpt>, admitted: bool)
    requires item < |was| && if admitted then StartsWith(chain, caller) && Extended(prefix, chain, before, after)
      else after == before
    ensures Taken(was, if admitted then was[item := was[item] + [chain]] else was, item, caller, prefix, before, after,
      admitted)
  {
  }

  /** Only this item's chains changed: one was added. */
  ghost predicate OneMore(was: seq<seq<Chain>>, now: seq<seq<Chain>>, item: nat) {
    && item < |was| == |now| && |now[item]| == |was[item]| + 1 && Callers(was[item]) <= Callers(now[item])
    && forall k :: 0 <= k < |was| && k != item ==> now[k] == was[k]
  }

  lemma SelectionTakes(prefix: string, core: seq<string>, was: seq<seq<Chain>>, now: seq<seq<Chain>>, item: nat,
                       caller: string, before: seq<Excerpt>, after: seq<Excerpt>, cap: nat, admitted: bool)
    requires Selection(prefix, core, was, before, cap) && item < |was|
    requires Taken(was, now, item, caller, prefix, before, after, admitted)
    requires caller !in Callers(was[item]) && |was[item]| < cap
    ensures Selection(prefix, core, now, after, cap) && if admitted then OneMore(was, now, item) else now == was
  {
    if admitted {
      SelectionAdds(prefix, core, was, now, item, caller, before, after, cap);
      CallersMore(was[item], now[item][|was[item]|]);
    }
  }

  /** `chain_fits` holds and the additions are nonempty readable texts of the listed sizes. */
  ghost predicate FitsAsListed(l: Limits, prefix: string, st: State, chain: Chain, sizes: map<string, nat>, cache: Disk,
                               disk: Disk) {
    var additions := Additions(prefix, chain, PathsOf(st.excerpts));
    ChainFits(l, st, sizes, cache, additions) && AsListed(additions, sizes, cache, disk)
  }

  /** The reads the chain needs end precisely on the byte budget. */
  ghost predicate Lands(l: Limits, prefix: string, st: State, chain: Chain, sizes: map<string, nat>, cache: Disk) {
    var unread := Uncached(Additions(prefix, chain, PathsOf(st.excerpts)), cache);
    (forall p :: p in unread ==> p in sizes) && LandsOnBudget(l, st, sizes, unread)
  }

  /** Over listed, unchanging files a chain that fits is kept exactly when its reads do not end on the budget. */
  ghost predicate Decided(l: Limits, prefix: string, steady: bool, st: State, chain: Chain, sizes: map<string, nat>,
                          cache: Disk, disk: Disk, kept: bool) {
    steady && FitsAsListed(l, prefix, st, chain, sizes, cache, disk) ==>
      (kept <==> !Lands(l, prefix, st, chain, sizes, cache))
  }

  /** A chain that fits is admitted whole unless its reads end precisely on the byte budget. */
  lemma WholeUnlessOnBudget(codec: Codec, l: Limits, prefix: string, st: State, chain: Chain, sizes: map<string, nat>,
                            cache: Disk, disk: Disk)
    requires NoRepeats(chain)
    ensures FitsAsListed(l, prefix, st, chain, sizes, cache, disk) ==>
      var to := AdmitAll(codec, l, prefix, st, Additions(prefix, chain, PathsOf(st.excerpts)), cache, disk);
      (Within(prefix, chain, to.excerpts) <==> !Lands(l, prefix, st, chain, sizes, cache))
  {
    var additions := Additions(prefix, chain, PathsOf(st.excerpts));
    AdditionsDistinct(prefix, chain, PathsOf(st.excerpts));
    AdmitAllPaths(codec, l, prefix, st, additions, cache, disk);
    AdditionsComplete(prefix, chain, st.excerpts, AdmitAll(codec, l, prefix, st, additions, cache, disk).excerpts);
    if FitsAsListed(l, prefix, st, chain, sizes, cache, disk) {
      FittingChainAdmitted(codec, l, prefix, st, additions, sizes, cache, disk);
    }
  }

  /** What giving the additions of a chain to admission shows. */
  lemma AdditionsGiven(codec: Codec, l: Limits, prefix: string, steady: bool, sizes: map<string, nat>, disk: Disk,
                       st: State, was: seq<Given>, to: State, now: seq<Given>, chain: Chain, cache: Disk,
                       projected: (nat, nat))
    requires NoRepeats(chain) && Balanced(prefix, st, was, projected) && Balanced(prefix, to, now, projected)
    requires var additions := Additions(prefix, chain, PathsOf(st.excerpts));
      && Gave(was, now, additions) && Progress(prefix, st, to, additions)
      && (steady ==> to == AdmitAll(codec, l, prefix, st, additions, cache, disk))
    ensures var whole := Within(prefix, chain, to.excerpts);
      && now == was + now[|was|..]
        && GivenOk(l, prefix, steady, sizes, disk, st, chain, cache, now[|was|..], whole, Kept)
      && (whole ==> Extended(prefix, chain, st.excerpts, to.excerpts))
  {
    var additions := Additions(prefix, chain, PathsOf(st.excerpts));
    AdditionsDistinct(prefix, chain, PathsOf(st.excerpts));
    AdditionsNew(prefix, chain, st.excerpts);
    AdditionsComplete(prefix, chain, st.excerpts, to.excerpts);
    WholeWhenAdmitted(prefix, st, was, to, now, additions, projected);
    GaveKept(was, now, additions);
    DecidedBy(codec, l, prefix, steady, sizes, disk, st, to, chain, cache);
  }

  lemma GaveKept(was: seq<Given>, now: seq<Given>, rels: seq<string>)
    requires Gave(was, now, rels)
    ensures now == was + now[|was|..] && forall i :: 0 <= i < |now[|was|..]| ==> now[|was|..][i].now == Kept
  {
    forall i | 0 <= i < |now[|was|..]| ensures now[|was|..][i].now == Kept { assert now[|was| + i] == now[|was|..][i]; }
  }

  lemma DecidedBy(codec: Codec, l: Limits, prefix: string, steady: bool, sizes: map<string, nat>, disk: Disk, st: State,
                  to: State, chain: Chain, cache: Disk)
    requires NoRepeats(chain)
    requires steady ==>
      to == AdmitAll(codec, l, prefix, st, Additions(prefix, chain, PathsOf(st.excerpts)), cache, disk)
    ensures Decided(l, prefix, steady, st, chain, sizes, cache, disk, Within(prefix, chain, to.excerpts))
  {
    if steady { WholeUnlessOnBudget(codec, l, prefix, st, chain, sizes, cache, disk); }
  }

  lemma AdditionsNew(prefix: string, chain: Chain, excerpts: seq<Excerpt>)
    ensures NoneIn(prefix, Additions(prefix, chain, PathsOf(excerpts)), excerpts)
  {
    var additions := Additions(prefix, chain, PathsOf(excerpts));
    forall i | 0 <= i < |additions| ensures prefix + additions[i] !in PathsOf(excerpts) {
      assert additions[i] in additions;
    }
  }

  /** The chain is in exactly when its additions are, and its additions name no file outside the chain. */
  lemma AdditionsComplete(prefix: string, chain: Chain, was: seq<Excerpt>, now: seq<Excerpt>)
    requires PathsOf(was) <= PathsOf(now)
    ensures var additions := Additions(prefix, chain, PathsOf(was));
      && (Within(prefix, chain, now) <==> Within(prefix, additions, now))
      && Prefixed(prefix, additions) <= Prefixed(prefix, chain)
  {
    var additions := Additions(prefix, chain, PathsOf(was));
    forall p | p in Prefixed(prefix, additions) ensures p in Prefixed(prefix, chain) {
      var i :| 0 <= i < |additions| && prefix + additions[i] == p;
      assert additions[i] in additions;
      var j :| 0 <= j < |chain| && chain[j] == additions[i];
      assert prefix + chain[j] == p;
    }
  }

  function Finished(codec: Codec, l: Limits, prefix: string, settled: State, rel: string, limit: nat,
                    raw: Bytes): State {
    if limit < MaxRead(l) && |raw| == limit then settled.(truncated := settled.truncated + 1)
    else Place(codec, l, prefix, settled, rel, raw)
  }

  /** What one candidate keeps: the caps, distinct paths and the account. */
  lemma AdmitKeeps(codec: Codec, l: Limits, prefix: string, st: State, rel: string, cached: Option<Bytes>,
                   reply: Option<Bytes>, log: seq<Given>, projected: (nat, nat)) returns (fate: Fate)
    requires Sound(codec, l, st) && Bounded(l, st, cached, reply) && Balanced(prefix, st, log, projected)
    requires DistinctPaths(st.excerpts) && prefix + rel !in PathsOf(st.excerpts)
    ensures var to := Admit(codec, l, prefix, st, rel, cached, reply);
      && Sound(codec, l, to) && DistinctPaths(to.excerpts)
      && Counted(st, to, fate, prefix, rel) && Balanced(prefix, to, log + [Given(rel, fate, Kept)], projected)
  {
    AdmitSound(codec, l, prefix, st, rel, cached, reply);
    AdmitPaths(codec, l, prefix, st, rel, cached, reply);
    fate := ExactlyOneFate(codec, l, prefix, st, rel, cached, reply);
    BalancedStep(prefix, st, log, projected, Admit(codec, l, prefix, st, rel, cached, reply), fate, rel);
  }

  /** What dropping the last excerpt keeps. */
  lemma DropKeeps(codec: Codec, l: Limits, prefix: string, st: State, log: seq<Given>, projected: (nat, nat))
    requires Sound(codec, l, st) && DistinctPaths(st.excerpts) && Balanced(prefix, st, log, projected)
      && st.excerpts != []
    ensures var n := |st.excerpts| - 1;
      st.byteCount >= |st.excerpts[n].text| &&
      var to :=
        st.(excerpts := st.excerpts[..n], byteCount := st.byteCount - |st.excerpts[n].text|,
        truncated := st.truncated + 1);
      Sound(codec, l, to) && DistinctPaths(to.excerpts) && Balanced(prefix, to, DropLast(log), projected)
  {
    var n := |st.excerpts| - 1;
    FirstDistinct(st.excerpts, n);
    BalancedDrop(prefix, st, log, projected, st.byteCount - |st.excerpts[n].text|);
  }

  lemma AdmitByRead(codec: Codec, l: Limits, prefix: string, st: State, rel: string, cached: Option<Bytes>, raw: Bytes)
    requires Opens(l, st, cached)
    ensures Admit(codec, l, prefix, st, rel, cached, Some(raw)) ==
      Finished(codec, l, prefix, st.(filesRead := st.filesRead + 1, bytesRead := st.bytesRead + |raw|), rel,
        ReadLimit(l, st), raw)
  {
  }

  lemma AdmitByFailedRead(codec: Codec, l: Limits, prefix: string, st: State, rel: string, cached: Option<Bytes>)
    requires Opens(l, st, cached)
    ensures Admit(codec, l, prefix, st, rel, cached, None) ==
      st.(filesRead := st.filesRead + 1, bytesRead := st.bytesRead + ReadLimit(l, st), skipped := st.skipped + 1)
  {
  }

  lemma FinishedLedger(codec: Codec, l: Limits, prefix: string, settled: State, rel: string, limit: nat, raw: Bytes)
    ensures var to := Finished(codec, l, prefix, settled, rel, limit, raw);
      to.filesRead == settled.filesRead && to.bytesRead == settled.bytesRead
  {
  }

  ghost predicate NoneIn(prefix: string, rels: seq<string>, excerpts: seq<Excerpt>) {
    forall i :: 0 <= i < |rels| ==> prefix + rels[i] !in PathsOf(excerpts)
  }

  /** What giving these candidates to admission did to the packet: excerpts were only added, only of these files. */
  ghost predicate Progress(prefix: string, was: State, now: State, rels: seq<string>) {
    && was.excerpts <= now.excerpts
    && PathsOf(was.excerpts) <= PathsOf(now.excerpts) <= PathsOf(was.excerpts) + Prefixed(prefix, rels)
    && (now.excerpts == was.excerpts ==> now.paths == was.paths && now.byteCount == was.byteCount)
  }

  lemma NotYet(prefix: string, rels: seq<string>, i: nat, was: State, now: State)
    requires i < |rels| && NoRepeats(rels) && Progress(prefix, was, now, rels[..i])
      && NoneIn(prefix, rels, was.excerpts)
    ensures prefix + rels[i] !in PathsOf(now.excerpts)
  {
    forall j | 0 <= j < i ensures prefix + rels[..i][j] != prefix + rels[i] {
      assert (prefix + rels[j])[|prefix|..] == rels[j] && (prefix + rels[i])[|prefix|..] == rels[i];
    }
  }

  lemma ProgressStep(codec: Codec, l: Limits, prefix: string, st: State, before: State, rels: seq<string>, i: nat,
                     cached: Option<Bytes>, reply: Option<Bytes>)
    requires i < |rels| && Progress(prefix, st, before, rels[..i])
    ensures Progress(prefix, st, Admit(codec, l, prefix, before, rels[i], cached, reply), rels[..i + 1])
  {
    AdmitPaths(codec, l, prefix, before, rels[i], cached, reply);
    var fate := ExactlyOneFate(codec, l, prefix, before, rels[i], cached, reply);
    PrefixedMore(prefix, rels, i);
  }

  /** How far a list of candidates has come. */
  ghost predicate Halfway(codec: Codec, l: Limits, prefix: string, steady: bool, st: State, was: seq<Given>, to: State,
                          now: seq<Given>, rels: seq<string>, i: nat, cache: Disk, disk: Disk)
  {
    && i <= |rels| && Progress(prefix, st, to, rels[..i]) && Gave(was, now, rels[..i])
    && (steady ==>
      AdmitAll(codec, l, prefix, st, rels, cache, disk) == AdmitAll(codec, l, prefix, to, rels[i..], cache, disk))
  }

  lemma ListStart(codec: Codec, l: Limits, prefix: string, steady: bool, st: State, was: seq<Given>, rels: seq<string>,
                  cache: Disk, disk: Disk)
    ensures Halfway(codec, l, prefix, steady, st, was, st, was, rels, 0, cache, disk)
  {
    assert rels[0..] == rels && rels[..0] == [];
  }

  lemma ListEnd(codec: Codec, l: Limits, prefix: string, steady: bool, st: State, was: seq<Given>, to: State,
                now: seq<Given>, rels: seq<string>, cache: Disk, disk: Disk)
    requires Halfway(codec, l, prefix, steady, st, was, to, now, rels, |rels|, cache, disk)
    ensures Progress(prefix, st, to, rels) && Gave(was, now, rels)
    ensures steady ==> to == AdmitAll(codec, l, prefix, st, rels, cache, disk)
  {
    assert rels[..|rels|] == rels && rels[|rels|..] == [];
  }

  lemma ListStep(codec: Codec, l: Limits, prefix: string, steady: bool, st: State, was: seq<Given>, to: State,
                 now: seq<Given>, rels: seq<string>, i: nat, cache: Disk, disk: Disk, reply: Option<Bytes>, fate: Fate)
    requires i < |rels| && Halfway(codec, l, prefix, steady, st, was, to, now, rels, i, cache, disk)
    requires steady ==>
      Admit(codec, l, prefix, to, rels[i], Lookup(cache, rels[i]), reply) ==
      AdmitOne(codec, l, prefix, to, rels[i], cache, disk)
    ensures Halfway(codec, l, prefix, steady, st, was,
      Admit(codec, l, prefix, to, rels[i], Lookup(cache, rels[i]), reply),
      now + [Given(rels[i], fate, Kept)], rels, i + 1, cache, disk)
  {
    ProgressStep(codec, l, prefix, st, to, rels, i, Lookup(cache, rels[i]), reply);
    GaveStep(was, now, rels, i, fate);
    assert rels[i..][1..] == rels[i + 1..];
  }

  ghost function Prefixed(prefix: string, rels: seq<string>): set<string> {
    set i | 0 <= i < |rels| :: prefix + rels[i]
  }

  lemma PrefixedMore(prefix: string, rels: seq<string>, i: nat)
    requires i < |rels|
    ensures Prefixed(prefix, rels[..i + 1]) == Prefixed(prefix, rels[..i]) + {prefix + rels[i]}
  {
    assert rels[..i + 1][i] == rels[i];
    forall p | p in Prefixed(prefix, rels[..i]) ensures p in Prefixed(prefix, rels[..i + 1]) {
      var j :| 0 <= j < |rels[..i]| && prefix + rels[..i][j] == p;
      assert rels[..i + 1][j] == rels[..i][j];
    }
  }

  /** The chain comes from a new caller and is wholly in the packet. */
  ghost predicate Alternative(prefix: string, chain: Chain, excerpts: seq<Excerpt>, had: seq<Chain>) {
    && chain != [] && (forall j :: 0 <= j < |had| && had[j] != [] ==> had[j][0] != chain[0])
    && Within(prefix, chain, excerpts)
  }

  /** An item with fewer than three chains gets the first alternative there is, and nothing else changes. */
  ghost predicate Alternated(prefix: string, chains: seq<Chain>, excerpts: seq<Excerpt>, was: seq<Chain>,
                             now: seq<Chain>) {
    if |was| < 3 && exists i :: 0 <= i < |chains| && Alternative(prefix, chains[i], excerpts, was)
    then exists i :: 0 <= i < |chains| && FirstAlternative(prefix, chains, excerpts, was, i) && now == was + [chains[i]]
    else now == was
  }

  ghost predicate FirstAlternative(prefix: string, chains: seq<Chain>, excerpts: seq<Excerpt>, was: seq<Chain>, i: nat)
    requires i < |chains|
  {
    Alternative(prefix, chains[i], excerpts, was)
      && forall j :: 0 <= j < i ==> !Alternative(prefix, chains[j], excerpts, was)
  }

  ghost predicate AllAlternated(prefix: string, chains: seq<seq<Chain>>, excerpts: seq<Excerpt>, was: seq<seq<Chain>>,
                                now: seq<seq<Chain>>) {
    && |was| == |now| == |chains|
    && forall k :: 0 <= k < |chains| ==> Alternated(prefix, chains[k], excerpts, was[k], now[k])
  }

  lemma CallerIs(chains: seq<Chain>, caller: string)
    ensures caller in Callers(chains) <==> exists j :: 0 <= j < |chains| && chains[j] != [] && chains[j][0] == caller
  {
  }

  /** The chains still wholly there, and no others. */
  ghost predicate KeepsWhole(prefix: string, selected: seq<seq<Chain>>, excerpts: seq<Excerpt>,
                             record: seq<seq<Chain>>) {
    && |record| == |selected|
    && forall k, c {:trigger c in record[k]} :: 0 <= k < |record| ==>
      (c in record[k] <==> c in selected[k] && Within(prefix, c, excerpts))
  }

  /** Places in the building of a packet: the cache and the ledger after the context was read, the chains chosen and
      the files given for them, and the packet and the account before the prompt cap. */
  datatype Milestones = Milestones(context: Disk, ledger: State, chosen: seq<seq<Chain>>, offered: seq<Given>,
    full: State, given: seq<Given>)

  ghost predicate TooBig(packetSize: (seq<Excerpt>, nat, nat) -> nat, cap: nat, all: seq<Excerpt>, truncated: nat,
                         k: nat) {
    k <= |all| && packetSize(all[..k], TotalBytes(all[..k]), truncated + |all| - k) > cap
  }

  /** Some prefix of the excerpts, with what it then reports, is within the cap. */
  ghost predicate SomeFits(packetSize: (seq<Excerpt>, nat, nat) -> nat, cap: nat, all: seq<Excerpt>, truncated: nat) {
    exists k :: 0 <= k <= |all| && !TooBig(packetSize, cap, all, truncated, k)
  }

  /** A prefix is left, no longer one fits, and what is dropped is counted. */
  ghost predicate LeftOver(packetSize: (seq<Excerpt>, nat, nat) -> nat, cap: nat, all: seq<Excerpt>, was: nat,
                           left: seq<Excerpt>, truncated: nat) {
    && |left| <= |all| && left == all[..|left|] && truncated == was + |all| - |left|
    && forall k :: |left| < k <= |all| ==> TooBig(packetSize, cap, all, was, k)
  }

  lemma LeftOverStep(packetSize: (seq<Excerpt>, nat, nat) -> nat, cap: nat, all: seq<Excerpt>, was: nat,
                     left: seq<Excerpt>, truncated: nat)
    requires LeftOver(packetSize, cap, all, was, left, truncated)
    requires left != [] && packetSize(left, TotalBytes(left), truncated) > cap
    ensures LeftOver(packetSize, cap, all, was, left[..|left| - 1], truncated + 1)
  {
    assert left[..|left| - 1] == all[..|left| - 1];
  }

  lemma LongestFits(packetSize: (seq<Excerpt>, nat, nat) -> nat, cap: nat, all: seq<Excerpt>, was: nat,
                    left: seq<Excerpt>, truncated: nat)
    requires LeftOver(packetSize, cap, all, was, left, truncated)
    requires left != [] ==> packetSize(left, TotalBytes(left), truncated) <= cap
    ensures SomeFits(packetSize, cap, all, was) <==> packetSize(left, TotalBytes(left), truncated) <= cap
  {
    assert !TooBig(packetSize, cap, all, was, |left|) <==> packetSize(left, TotalBytes(left), truncated) <= cap;
  }

  // What chain selection keeps.

  predicate NonEmpty(chains: seq<seq<Chain>>) {
    forall i, j :: 0 <= i < |chains| && 0 <= j < |chains[i]| ==> chains[i][j] != []
  }

  function Callers(chains: seq<Chain>): set<string> { set i | 0 <= i < |chains| && chains[i] != [] :: chains[i][0] }

  /** Nonempty chains with different callers. */
  ghost predicate Distinct(chains: seq<Chain>) {
    && (forall i :: 0 <= i < |chains| ==> chains[i] != [])
    && forall i, j :: 0 <= i < j < |chains| ==> chains[i][0] != chains[j][0]
  }

  lemma CallersMore(chains: seq<Chain>, chain: Chain)
    requires chain != []
    ensures Callers(chains + [chain]) == Callers(chains) + {chain[0]}
  {
    var all := chains + [chain];
    assert all[|chains|] == chain;
    forall c | c in Callers(chains) ensures c in Callers(all) {
      var i :| 0 <= i < |chains| && chains[i] != [] && chains[i][0] == c;
      assert all[i] == chains[i];
    }
  }

  lemma {:induction false} CallersCount(chains: seq<Chain>)
    requires Distinct(chains)
    ensures |Callers(chains)| == |chains|
  {
    if chains != [] {
      var rest, last := chains[..|chains| - 1], chains[|chains| - 1];
      CallersCount(rest);
      CallersMore(rest, last);
      assert chains == rest + [last];
    }
  }

  /** Each item's chains come from different callers, at most `cap` of them, and lie wholly in the packet. */
  ghost predicate Owned(prefix: string, selected: seq<seq<Chain>>, excerpts: seq<Excerpt>, cap: nat) {
    forall k ::
      0 <= k < |selected| ==> Distinct(selected[k]) && |selected[k]| <= cap && Backed(prefix, selected[k], excerpts)
  }

  ghost predicate Owed(prefix: string, core: seq<string>, selected: seq<seq<Chain>>, path: string) {
    path in Prefixed(prefix, core)
      || exists k, j :: 0 <= k < |selected| && 0 <= j < |selected[k]| && path in Prefixed(prefix, selected[k][j])
  }

  /** And the packet holds nothing but core files and files of selected chains. */
  ghost predicate Selection(prefix: string, core: seq<string>, selected: seq<seq<Chain>>, excerpts: seq<Excerpt>,
                            cap: nat) {
    Owned(prefix, selected, excerpts, cap) && forall q :: q in PathsOf(excerpts) ==> Owed(prefix, core, selected, q)
  }

  lemma SelectionRoom(prefix: string, core: seq<string>, selected: seq<seq<Chain>>, excerpts: seq<Excerpt>, cap: nat,
                      more: nat)
    requires Selection(prefix, core, selected, excerpts, cap) && cap <= more
    ensures Selection(prefix, core, selected, excerpts, more)
  {
  }

  lemma OwnedAdds(prefix: string, selected: seq<seq<Chain>>, item: nat, chain: Chain, excerpts: seq<Excerpt>, cap: nat)
    requires Owned(prefix, selected, excerpts, cap) && item < |selected| && |selected[item]| < cap
    requires chain != [] && chain[0] !in Callers(selected[item]) && Within(prefix, chain, excerpts)
    ensures Owned(prefix, selected[item := selected[item] + [chain]], excerpts, cap)
  {
    var chains := selected[item] + [chain];
    forall i | 0 <= i < |selected[item]| ensures chains[i][0] != chain[0] {
      assert selected[item][i][0] in Callers(selected[item]);
    }
  }

  lemma OwedStill(prefix: string, core: seq<string>, selected: seq<seq<Chain>>, item: nat, chain: Chain, path: string)
    requires item < |selected|
    requires Owed(prefix, core, selected, path) || path in Prefixed(prefix, chain)
    ensures Owed(prefix, core, selected[item := selected[item] + [chain]], path)
  {
    var now := selected[item := selected[item] + [chain]];
    if path in Prefixed(prefix, chain) {
      assert now[item][|selected[item]|] == chain;
    } else if path !in Prefixed(prefix, core) {
      var k, j :| 0 <= k < |selected| && 0 <= j < |selected[k]| && path in Prefixed(prefix, selected[k][j]);
      assert now[k][j] == selected[k][j];
    }
  }

  lemma OwnedMore(prefix: string, selected: seq<seq<Chain>>, was: seq<Excerpt>, now: seq<Excerpt>, cap: nat)
    requires Owned(prefix, selected, was, cap) && PathsOf(was) <= PathsOf(now)
    ensures Owned(prefix, selected, now, cap)
  {
    forall k | 0 <= k < |selected| ensures Backed(prefix, selected[k], now) {
      BackedMore(prefix, selected[k], was, now);
    }
  }

  lemma SelectionAdds(prefix: string, core: seq<string>, was: seq<seq<Chain>>, now: seq<seq<Chain>>, item: nat,
                      caller: string, before: seq<Excerpt>, after: seq<Excerpt>, cap: nat)
    requires Selection(prefix, core, was, before, cap) && ChainAdded(was, now, item, caller, prefix, before, after)
    requires caller !in Callers(was[item]) && |was[item]| < cap
    ensures Selection(prefix, core, now, after, cap)
  {
    var chain := now[item][|was[item]|];
    OwnedMore(prefix, was, before, after, cap);
    OwnedAdds(prefix, was, item, chain, after, cap);
    forall q | q in PathsOf(after) ensures Owed(prefix, core, now, q) { OwedStill(prefix, core, was, item, chain, q); }
  }

  // Joining the phases.

  /** The ledger cannot grant a whole read of this size. */
  predicate NearlySpent(l: Limits, st: State, size: nat) {
    st.filesRead >= l.candidateFiles || l.candidateBytes - st.bytesRead < size
  }

  /** Each of the first n inventoried paths is in the cache, unless there is no such file or the ledger ran short. */
  ghost predicate ContextRead(l: Limits, disk: Disk, wanted: seq<(string, nat, bool)>, n: nat, cache: Disk, st: State) {
    forall i :: 0 <= i < n <= |wanted| && wanted[i].2 && wanted[i].0 in disk ==>
      wanted[i].0 in cache || NearlySpent(l, st, MaxRead(l))
  }

  /** A lock that is told to be locked begins with text, and one that is not does not or the ledger ran short. */
  ghost predicate LockTold(l: Limits, disk: Disk, name: string, locked: bool, st: State) {
    var text := name in disk && IsText(disk[name][..Least(LOCK_PROBE_LIMIT + 1, |disk[name]|)]);
    (locked ==> text) && (text && !locked ==> NearlySpent(l, st, LOCK_PROBE_LIMIT + 1))
  }

  /** No reader asked for less than one sentinel read. */
  predicate LimitsReach(l: Limits, wanted: seq<(string, nat, bool)>) {
    forall i :: 0 <= i < |wanted| ==> wanted[i].1 >= MaxRead(l)
  }

  lemma SelectionStarts(prefix: string, core: seq<string>, selected: seq<seq<Chain>>, excerpts: seq<Excerpt>)
    requires (forall k :: 0 <= k < |selected| ==> selected[k] == []) && PathsOf(excerpts) <= Prefixed(prefix, core)
    ensures Selection(prefix, core, selected, excerpts, 0)
  {
  }

  function Protected(core: seq<string>, selected: seq<seq<Chain>>): set<string> {
    (set p | p in core) + set k, j, i | 0 <= k < |selected| && 0 <= j < |selected[k]| && 0 <= i < |selected[k][j]| ::
      selected[k][j][i]
  }

  function Unprotected(rest: seq<string>, core: seq<string>, selected: seq<seq<Chain>>): (r: seq<string>)
    requires NoRepeats(rest)
    ensures NoRepeats(r) && forall p :: p in r <==> p in rest && p !in Protected(core, selected)
  {
    if rest == [] then []
    else
      var others := Unprotected(rest[1..], core, selected);
      assert rest[0] !in rest[1..];
      if rest[0] in Protected(core, selected) then others else [rest[0]] + others
  }

  /** File by file, in order. */
  lemma {:induction false} UnprotectedSplit(a: seq<string>, b: seq<string>, core: seq<string>,
                                            selected: seq<seq<Chain>>)
    requires NoRepeats(a + b) && NoRepeats(a) && NoRepeats(b)
    ensures Unprotected(a + b, core, selected) == Unprotected(a, core, selected) + Unprotected(b, core, selected)
  {
    if a == [] {
      assert a + b == b;
    } else {
      var all, head := a + b, if a[0] in Protected(core, selected) then [] else [a[0]];
      assert all[1..] == a[1..] + b && all[0] == a[0];
      forall i, j | 0 <= i < j < |all[1..]| ensures all[1..][i] != all[1..][j] { assert all[i + 1] != all[j + 1]; }
      UnprotectedSplit(a[1..], b, core, selected);
      Regroup(head, Unprotected(a[1..], core, selected), Unprotected(b, core, selected));
    }
  }

  lemma OwedIsProtected(prefix: string, core: seq<string>, selected: seq<seq<Chain>>, p: string)
    requires Owed(prefix, core, selected, prefix + p)
    ensures p in Protected(core, selected)
  {
    if prefix + p in Prefixed(prefix, core) {
      var i :| 0 <= i < |core| && prefix + core[i] == prefix + p;
      assert (prefix + core[i])[|prefix|..] == core[i] && (prefix + p)[|prefix|..] == p;
    } else {
      var k, j :| 0 <= k < |selected| && 0 <= j < |selected[k]| && prefix + p in Prefixed(prefix, selected[k][j]);
      var i :| 0 <= i < |selected[k][j]| && prefix + selected[k][j][i] == prefix + p;
      assert (prefix + selected[k][j][i])[|prefix|..] == selected[k][j][i] && (prefix + p)[|prefix|..] == p;
    }
  }

  lemma LateIsNew(prefix: string, core: seq<string>, selected: seq<seq<Chain>>, excerpts: seq<Excerpt>,
                  late: seq<string>)
    requires forall q :: q in PathsOf(excerpts) ==> Owed(prefix, core, selected, q)
    requires forall p :: p in late ==> p !in Protected(core, selected)
    ensures NoneIn(prefix, late, excerpts)
  {
    forall i | 0 <= i < |late| ensures prefix + late[i] !in PathsOf(excerpts) {
      assert late[i] in late;
      if prefix + late[i] in PathsOf(excerpts) { OwedIsProtected(prefix, core, selected, late[i]); }
    }
  }

  lemma FirstOfDistinct(core: seq<string>, markers: seq<string>)
    requires NoRepeats(core + markers)
    ensures NoRepeats(core) && NoRepeats(markers)
  {
    forall i, j | 0 <= i < j < |core| ensures core[i] != core[j] { assert (core + markers)[i] != (core + markers)[j]; }
    forall i, j | 0 <= i < j < |markers| ensures markers[i] != markers[j] {
      assert (core + markers)[|core| + i] != (core + markers)[|core| + j];
    }
  }

  lemma MarkersAreNew(prefix: string, core: seq<string>, markers: seq<string>, excerpts: seq<Excerpt>)
    requires NoRepeats(core + markers) && PathsOf(excerpts) <= Prefixed(prefix, core)
    ensures NoneIn(prefix, markers, excerpts)
  {
    forall i, j | 0 <= i < |markers| && 0 <= j < |core| ensures prefix + core[j] != prefix + markers[i] {
      assert (core + markers)[j] == core[j] && (core + markers)[|core| + i] == markers[i];
      assert (prefix + core[j])[|prefix|..] == core[j] && (prefix + markers[i])[|prefix|..] == markers[i];
    }
  }

  /** The chains still wholly in the packet after trimming. */
  function Recorded(prefix: string, selected: seq<seq<Chain>>, excerpts: seq<Excerpt>): (r: seq<seq<Chain>>)
    ensures |r| == |selected|
  {
    seq(|selected|, k requires 0 <= k < |selected| => Complete(prefix, selected[k], excerpts))
  }

  function Complete(prefix: string, chains: seq<Chain>, excerpts: seq<Excerpt>): seq<Chain> {
    if chains == [] then []
    else
      var last := chains[|chains| - 1];
      Complete(prefix, chains[..|chains| - 1], excerpts)
        + if forall p :: p in last ==> prefix + p in PathsOf(excerpts) then [last] else []
  }

  /** Chain by chain, in order. */
  lemma {:induction false} CompleteSplit(prefix: string, a: seq<Chain>, b: seq<Chain>, excerpts: seq<Excerpt>)
    ensures Complete(prefix, a + b, excerpts) == Complete(prefix, a, excerpts) + Complete(prefix, b, excerpts)
    decreases |b|
  {
    if b == [] {
      assert a + b == a;
    } else {
      var n := |b| - 1;
      var tail := if Within(prefix, b[n], excerpts) then [b[n]] else [];
      assert (a + b)[..|a + b| - 1] == a + b[..n] && (a + b)[|a + b| - 1] == b[n];
      CompleteSplit(prefix, a, b[..n], excerpts);
      Regroup(Complete(prefix, a, excerpts), Complete(prefix, b[..n], excerpts), tail);
    }
  }

  lemma CompleteOne(prefix: string, c: Chain, excerpts: seq<Excerpt>)
    ensures Complete(prefix, [c], excerpts) == if Within(prefix, c, excerpts) then [c] else []
  {
    assert [c][..0] == [];
  }

  lemma {:induction false} CompleteBacked(prefix: string, chains: seq<Chain>, excerpts: seq<Excerpt>)
    ensures Backed(prefix, Complete(prefix, chains, excerpts), excerpts)
    ensures |Complete(prefix, chains, excerpts)| <= |chains|
  {
    if chains != [] { CompleteBacked(prefix, chains[..|chains| - 1], excerpts); }
  }

  /** Trimming the record drops exactly the chains that are no longer whole. */
  lemma {:induction false} CompleteKeeps(prefix: string, chains: seq<Chain>, excerpts: seq<Excerpt>, c: Chain)
    ensures c in Complete(prefix, chains, excerpts) <==> c in chains && Within(prefix, c, excerpts)
  {
    if chains != [] {
      var rest, last := chains[..|chains| - 1], chains[|chains| - 1];
      CompleteKeeps(prefix, rest, excerpts, c);
      assert chains == rest + [last];
    }
  }

  lemma RecordKeeps(prefix: string, selected: seq<seq<Chain>>, excerpts: seq<Excerpt>)
    ensures KeepsWhole(prefix, selected, excerpts, Recorded(prefix, selected, excerpts))
  {
    var record := Recorded(prefix, selected, excerpts);
    forall k, c {:trigger c in record[k]} | 0 <= k < |record|
      ensures c in record[k] <==> c in selected[k] && Within(prefix, c, excerpts)
    {
      CompleteKeeps(prefix, selected[k], excerpts, c);
    }
  }

  lemma {:induction false} CompleteDistinct(prefix: string, chains: seq<Chain>, excerpts: seq<Excerpt>)
    requires Distinct(chains)
    ensures Distinct(Complete(prefix, chains, excerpts))
  {
    if chains != [] {
      var rest, last := chains[..|chains| - 1], chains[|chains| - 1];
      CompleteDistinct(prefix, rest, excerpts);
      var kept := Complete(prefix, rest, excerpts);
      forall i | 0 <= i < |kept| ensures kept[i][0] != last[0] {
        CompleteKeeps(prefix, rest, excerpts, kept[i]);
        var j :| 0 <= j < |rest| && rest[j] == kept[i];
        assert chains[j][0] != chains[|rest|][0];
      }
    }
  }

  lemma RecordOwned(prefix: string, selected: seq<seq<Chain>>, excerpts: seq<Excerpt>, cap: nat)
    requires forall k :: 0 <= k < |selected| ==> Distinct(selected[k]) && |selected[k]| <= cap
    ensures Owned(prefix, Recorded(prefix, selected, excerpts), excerpts, cap)
  {
    forall k | 0 <= k < |selected|
      ensures Distinct(Complete(prefix, selected[k], excerpts)) && |Complete(prefix, selected[k], excerpts)| <= cap
        && Backed(prefix, Complete(prefix, selected[k], excerpts), excerpts) {
      CompleteDistinct(prefix, selected[k], excerpts);
      CompleteBacked(prefix, selected[k], excerpts);
    }
  }
}

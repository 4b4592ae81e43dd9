/** When the projection of a static packet can be relied on (src/ptest/agent_assessment.py:1421-1452), told from the
listed sizes before anything is read. */
module ProjectionBounds {
  import opened Basics
  import opened Utf8
  import opened Admission

  /** After k files that were cut, the projection's answer for a file of this size holds whatever the files contain:
      it is not within three bytes a cut file of the byte cap, and does not admit what can never be admitted. */
  predicate Certain(l: Limits, t: Tally, k: nat, size: nat) {
    t.files >= l.files || size == 0 ||
    if size > l.perFile && (l.perFile <= 3 || l.perFile > l.bytes) then t.bytes + l.perFile > l.bytes
    else
      || t.bytes + Least(size, l.perFile) <= l.bytes
      || t.bytes + Least(size, l.perFile) > l.bytes + 3 * CutsWith(l, t, k, size)
  }

  /** The files cut so far, this one included when it is larger than the cap. */
  function CutsWith(l: Limits, t: Tally, k: nat, size: nat): nat { k + if size > l.perFile then 1 else 0 }

  /** The files cut after the projection of this one. */
  function CutsAfter(l: Limits, t: Tally, k: nat, size: nat): nat {
    k + if size > l.perFile && Projected(l, t, size).files > t.files then 1 else 0
  }

  predicate AllCertain(l: Limits, t: Tally, k: nat, sizes: seq<nat>)
    decreases |sizes|
  {
    sizes == [] ||
    (Certain(l, t, k, sizes[0])
      && AllCertain(l, Projected(l, t, sizes[0]), CutsAfter(l, t, k, sizes[0]), sizes[1..]))
  }

  lemma NeverAdmitted(l: Limits, byteCount: nat, content: Bytes)
    requires Valid(content) && |content| > l.perFile && (l.perFile <= 3 || l.perFile > l.bytes)
    ensures !ReallyFits(l, byteCount, content)
  {
    CutLength(l, content);
  }

  lemma CertainOne(codec: Codec, l: Limits, prefix: string, st: State, rel: string, cache: Disk, disk: Disk, t: Tally,
                   k: nat)
    requires Positive(l) && Plain(rel, cache, disk) && Close(TallyOf(st), t, k) && Certain(l, t, k, |disk[rel]|)
    requires st.filesRead < l.candidateFiles && st.bytesRead + MaxRead(l) <= l.candidateBytes
    ensures var to := AdmitOne(codec, l, prefix, st, rel, cache, disk);
      Close(TallyOf(to), Projected(l, t, |disk[rel]|), CutsAfter(l, t, k, |disk[rel]|))
  {
    var content := disk[rel];
    if |st.excerpts| < l.files {
      AdmitCounts(codec, l, prefix, st, rel, cache, disk);
      if |content| > l.perFile {
        CutLength(l, content);
        if l.perFile <= 3 || l.perFile > l.bytes { NeverAdmitted(l, st.byteCount, content); }
      }
    }
  }

  /** Where the listed sizes leave no doubt the projection follows admission after every file, whatever the files
      contain, and its byte estimate is at most three bytes too high for each file it cuts. */
  lemma {:induction false} CertainMeansAgreed(codec: Codec, l: Limits, prefix: string, st: State, rels: seq<string>,
                                              cache: Disk, disk: Disk, t: Tally, k: nat)
    requires Positive(l) && AllPlain(rels, cache, disk) && Close(TallyOf(st), t, k)
    requires Unbinding(l, st, Sizes(rels, disk)) && AllCertain(l, t, k, Sizes(rels, disk))
    ensures AgreeAlong(codec, l, prefix, st, rels, cache, disk, t)
    ensures Close(TallyOf(AdmitAll(codec, l, prefix, st, rels, cache, disk)), ProjectedAll(l, t, Sizes(rels, disk)),
      k + ProjectedCuts(l, t, Sizes(rels, disk)))
    decreases |rels|
  {
    if rels != [] {
      var sizes := Sizes(rels, disk);
      Members(rels);
      assert Plain(rels[0], cache, disk);
      CertainOne(codec, l, prefix, st, rels[0], cache, disk, t, k);
      LedgerStep(codec, l, prefix, st, rels[0], cache, disk);
      CertainMeansAgreed(codec, l, prefix, AdmitOne(codec, l, prefix, st, rels[0], cache, disk), rels[1..], cache, disk,
        Projected(l, t, sizes[0]), CutsAfter(l, t, k, sizes[0]));
    }
  }

  // The condition cannot be relaxed.

  predicate Ascii(b: Bytes) { forall i :: 0 <= i < |b| ==> b[i] < 0x80 }

  /** What admission holds is exactly three bytes less for each file cut. */
  predicate ExactlyBelow(actual: Tally, projected: Tally, k: nat) {
    SameCounts(actual, projected) && actual.bytes + 3 * k == projected.bytes
  }

  lemma AsciiKept(l: Limits, content: Bytes)
    requires Ascii(content) && Positive(l)
    ensures KeptBytes(l, content) ==
      if |content| <= l.perFile then |content| else if l.perFile <= 3 then 0 else l.perFile - 3
    ensures Valid(content)
  {
    AsciiValid(content);
    if |content| > l.perFile {
      CutLength(l, content);
      if l.perFile > 3 { AsciiLosesThree(content[..l.perFile]); }
    }
  }

  lemma AsciiOne(codec: Codec, l: Limits, prefix: string, st: State, rel: string, cache: Disk, disk: Disk, t: Tally,
                 k: nat)
    requires Positive(l) && Plain(rel, cache, disk) && Ascii(disk[rel]) && ExactlyBelow(TallyOf(st), t, k)
    requires st.filesRead < l.candidateFiles && st.bytesRead + MaxRead(l) <= l.candidateBytes
    ensures var to, now := AdmitOne(codec, l, prefix, st, rel, cache, disk), Projected(l, t, |disk[rel]|);
      && (SameCounts(TallyOf(to), now) <==> Certain(l, t, k, |disk[rel]|))
      && (SameCounts(TallyOf(to), now) ==> ExactlyBelow(TallyOf(to), now, CutsAfter(l, t, k, |disk[rel]|)))
  {
    AsciiKept(l, disk[rel]);
    StepAgrees(codec, l, prefix, st, rel, cache, disk, t);
    if |st.excerpts| < l.files { AdmitCounts(codec, l, prefix, st, rel, cache, disk); }
  }

  /** Over ASCII files the projection follows admission after every file exactly when the listed sizes leave no
      doubt. */
  lemma {:induction false} AsciiDecides(codec: Codec, l: Limits, prefix: string, st: State, rels: seq<string>,
                                        cache: Disk, disk: Disk, t: Tally, k: nat)
    requires Positive(l) && AllPlain(rels, cache, disk) && (forall p :: p in rels ==> Ascii(disk[p]))
    requires ExactlyBelow(TallyOf(st), t, k) && Unbinding(l, st, Sizes(rels, disk))
    ensures AgreeAlong(codec, l, prefix, st, rels, cache, disk, t) <==> AllCertain(l, t, k, Sizes(rels, disk))
    decreases |rels|
  {
    if rels != [] {
      var sizes := Sizes(rels, disk);
      Members(rels);
      assert Plain(rels[0], cache, disk) && Ascii(disk[rels[0]]);
      AsciiOne(codec, l, prefix, st, rels[0], cache, disk, t, k);
      LedgerStep(codec, l, prefix, st, rels[0], cache, disk);
      var to := AdmitOne(codec, l, prefix, st, rels[0], cache, disk);
      if SameCounts(TallyOf(to), Projected(l, t, sizes[0])) {
        AsciiDecides(codec, l, prefix, to, rels[1..], cache, disk, Projected(l, t, sizes[0]),
          CutsAfter(l, t, k, sizes[0]));
      }
    }
  }

  /** Files that all fit the byte cap together leave no doubt, unless one is larger than a cap under which nothing
      can be cut. */
  lemma {:induction false} EnoughRoom(l: Limits, t: Tally, k: nat, sizes: seq<nat>)
    requires t.bytes + Sum(sizes) <= l.bytes
      && (l.perFile > 3 || forall i :: 0 <= i < |sizes| ==> sizes[i] <= l.perFile)
    ensures AllCertain(l, t, k, sizes)
    decreases |sizes|
  {
    if sizes != [] {
      assert forall i :: 0 <= i < |sizes[1..]| ==> sizes[1..][i] == sizes[i + 1];
      EnoughRoom(l, Projected(l, t, sizes[0]), CutsAfter(l, t, k, sizes[0]), sizes[1..]);
    }
  }

  /** Nor do files none of which is larger than the per-file cap. */
  lemma {:induction false} NoneCut(l: Limits, t: Tally, sizes: seq<nat>)
    requires forall i :: 0 <= i < |sizes| ==> sizes[i] <= l.perFile
    ensures AllCertain(l, t, 0, sizes)
    decreases |sizes|
  {
    if sizes != [] {
      assert forall i :: 0 <= i < |sizes[1..]| ==> sizes[1..][i] == sizes[i + 1];
      NoneCut(l, Projected(l, t, sizes[0]), sizes[1..]);
    }
  }
}

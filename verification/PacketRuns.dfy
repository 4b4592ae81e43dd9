/** Runs of the packet builder on which a promise does not hold (src/ptest/agent_assessment.py:1649-1679,
1476-1576, 2277-2360, 2466-2484). */
module PacketRuns {
  import opened Basics
  import opened Utf8
  import opened Admission
  import opened PacketLog
  import opened PacketBuild

  const ONE: Bytes := [65]
  const THREE: Bytes := [65, 65, 65]

  lemma Letters()
    ensures Valid(ONE) && Valid(THREE[..2]) && 0 !in ONE && 0 !in THREE[..2]
  {
    assert ONE[1..] == [] && THREE[..2][1..] == ONE;
  }

  function SameChain(n: nat, chain: Chain): Option<Chain> { Some(chain) }

  const TIGHT: Limits := Limits(9, 9, 4, 9, 9, 2)
  const ROOMY: Limits := Limits(9, 9, 4, 9, 9, 9)
  const PAIR: Disk := map["a" := ONE, "b" := ONE]
  const SIZES: map<string, nat> := map["a" := 1, "b" := 1]
  const EMPTY: State := State([], map[], 0, 0, 0, 0, 0)

  lemma PairLists()
    ensures PathsOf(EMPTY.excerpts) == {} && Additions("", ["a", "b"], {}) == ["a", "b"]
    ensures Uncached(["a", "b"], map[]) == ["a", "b"] && Listed(["a", "b"], SIZES) == 2
  {
    assert ["a", "b"][1..] == ["b"] && ["b"][1..] == [];
    assert Additions("", ["b"], {}) == ["b"] && Uncached(["b"], map[]) == ["b"] && Listed(["b"], SIZES) == 1;
  }

  /** Two files of one byte fit a budget of two bytes, and land on it. */
  lemma PairLands()
    ensures FitsAsListed(TIGHT, "", EMPTY, ["a", "b"], SIZES, map[], PAIR)
      && Lands(TIGHT, "", EMPTY, ["a", "b"], SIZES, map[])
  {
    Letters();
    PairLists();
  }

  /** The first is admitted, and the second is not. */
  lemma PairCounts(codec: Codec)
    ensures CountersOf(AdmitAll(codec, TIGHT, "", EMPTY, ["a", "b"], map[], PAIR)) == (1, 0, 2, 2)
  {
    Letters();
    FittingOne(codec, TIGHT, "", EMPTY, "a", 1, map[], PAIR);
    var one := AdmitOne(codec, TIGHT, "", EMPTY, "a", map[], PAIR);
    assert one.excerpts != [] && one.truncated == 0 && one.skipped == 0;
    assert ReadLimit(TIGHT, one) == 1 && ONE[..1] == ONE;
    var two := AdmitOne(codec, TIGHT, "", one, "b", map[], PAIR);
    assert ["a", "b"][1..] == ["b"] && ["b"][1..] == [];
    assert AdmitAll(codec, TIGHT, "", one, ["b"], map[], PAIR) == two;
  }

  /** A chain that fits is not kept, because its reads end on the budget; the packet is empty again, and the
      counters are not what they were. */
  method FittingChainIsTakenBack(codec: Codec) returns (b: Builder, kept: bool)
    ensures b.Consistent() && b.steady && b.limits == TIGHT && b.disk == PAIR && b.prefix == ""
    ensures FitsAsListed(TIGHT, "", EMPTY, ["a", "b"], SIZES, map[], PAIR)
    ensures !kept && b.Value() == State([], map[], 0, 1, 0, 2, 2)
  {
    b := new Builder(codec, TIGHT, "", PAIR, true, SameChain, 1);
    PairLists();
    PairLands();
    PairCounts(codec);
    ghost var given;
    kept, given := b.AdmitFitting(["a", "b"], SIZES);
  }

  lemma ShortIsPlaced(codec: Codec, disk: Disk)
    ensures var l := ROOMY;
      var to := AdmitOne(codec, l, "", State([], map[], 0, 0, 0, 1, 2), "a", map["a" := THREE[..2]], disk);
      |to.excerpts| == 1 && to.excerpts[0].path == "a" && to.excerpts[0].complete && to.excerpts[0].text == THREE[..2]
  {
    Letters();
  }

  /** A file of three bytes, read for context with a limit of two, is shown as two bytes and said to be complete. */
  method ShortEntryIsShownComplete(codec: Codec) returns (b: Builder)
    ensures b.Consistent() && b.steady && b.disk == map["a" := THREE] && |b.excerpts| == 1
    ensures b.excerpts[0].path == "a" && b.excerpts[0].complete && b.excerpts[0].text == THREE[..2]
  {
    b := new Builder(codec, ROOMY, "", map["a" := THREE], true, SameChain, 1);
    ReadShort(b);
    ShortIsPlaced(codec, b.disk);
    var _, _, _ := b.AdmitCandidate("a");
  }

  method ReadShort(b: Builder)
    requires b.Consistent() && b.steady && b.disk == map["a" := THREE] && b.limits == ROOMY
    requires b.Value() == EMPTY && b.cache == map[]
    modifies b
    ensures b.Consistent() && b.Value() == State([], map[], 0, 0, 0, 1, 2) && b.cache == map["a" := THREE[..2]]
    ensures b.log == old(b.log) && b.projected == old(b.projected)
  {
    var _ := b.Reader("a", 2, true);
  }

  lemma OneIsPlaced(codec: Codec)
    ensures var l := ROOMY;
      var to := AdmitOne(codec, l, "", EMPTY, "a", map[], map["a" := ONE]);
      |to.excerpts| == 1 && to.truncated == 0
  {
    Letters();
    FittingOne(codec, ROOMY, "", EMPTY, "a", 1, map[], map["a" := ONE]);
  }

  /** The number of excerpts beyond a fixed part of ten bytes. */
  function FixedPart(excerpts: seq<Excerpt>, byteCount: nat, truncated: nat): nat { 10 + |excerpts| }

  /** A packet whose fixed part is beyond the cap: everything is dropped, and it is still beyond the cap. */
  method EmptyPacketIsTooLarge(codec: Codec) returns (b: Builder)
    ensures b.Consistent() && b.limits.prompt == 9 && b.excerpts == [] && b.truncated == 1
    ensures FixedPart(b.excerpts, b.byteCount, b.truncated) > b.limits.prompt
  {
    b := new Builder(codec, ROOMY, "", map["a" := ONE], true, SameChain, 1);
    OneIsPlaced(codec);
    var _, _, _ := b.AdmitCandidate("a");
    b.Trim(FixedPart);
  }
}

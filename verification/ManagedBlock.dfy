/** The managed instruction block (`_block`, `block_variant` and the two text edits of `apply`, in
src/ptest/agent_rules.py). Texts are sequences of characters. */
module ManagedBlock {

  import opened Basics

  datatype Variant = Base | Policy

  /** What an instruction file holds: no block, one well-formed block, or something else. */
  datatype Reading = Malformed | Unmanaged | Managed(variant: Variant)

  const START := "<!-- ptest-agent-rules:start -->"
  const END := "<!-- ptest-agent-rules:end -->"

  function Reference(name: string): string {
    if name == "AGENTS.md" then "Before running or changing tests, " + "read `docs/ptest-agent.md`."
    else "@docs/ptest-agent.md"
  }

  function PolicyReference(name: string): string {
    if name == "AGENTS.md" then "Before writing or changing tests, " + "read `docs/ptest-test-policy.md`."
    else "@docs/ptest-test-policy.md"
  }

  /** The lines between the markers. */
  function Inner(name: string, variant: Variant): string {
    match variant
    case Base => "\n" + Reference(name) + "\n"
    case Policy => "\n" + Reference(name) + "\n" + PolicyReference(name) + "\n"
  }

  /** The block from marker to marker. */
  function Section(name: string, variant: Variant): string { START + Inner(name, variant) + END }

  function Block(name: string, variant: Variant): string { Section(name, variant) + "\n" }

  predicate Occurs(text: string, m: string, i: int) {
    0 <= i <= |text| - |m| && text[i..i + |m|] == m
  }

  /** Occurrences found left to right without overlap. */
  function Count(text: string, m: string): nat
    requires |m| > 0
  {
    if |text| < |m| then 0
    else if text[..|m|] == m then 1 + Count(text[|m|..], m)
    else Count(text[1..], m)
  }

  /** The first occurrence at or after `from`. */
  function Find(text: string, m: string, from: nat): (r: Option<nat>)
    requires |m| > 0
    ensures r.Some? ==>
      from <= r.value && Occurs(text, m, r.value) && forall i :: from <= i < r.value ==> !Occurs(text, m, i)
    ensures r.None? ==> forall i :: from <= i ==> !Occurs(text, m, i)
    decreases |text| - from
  {
    if from + |m| > |text| then None
    else if text[from..from + |m|] == m then Some(from)
    else Find(text, m, from + 1)
  }

  function BlockVariant(text: string, name: string): Reading {
    var starts, ends := Count(text, START), Count(text, END);
    if starts != ends || starts > 1 then Malformed
    else if starts == 0 then Unmanaged
    else Located(text, name, START, END)
  }

  /** The section from the first start marker to the first end marker behind it. */
  function Located(text: string, name: string, start: string, end: string): (r: Reading)
    requires |start| > 0 && |end| > 0
    ensures r.Managed? ==> var from := Find(text, start, 0);
      from.Some? && var upto := Find(text, end, from.value);
      upto.Some? && text[from.value..upto.value + |end|] == Section(name, r.variant)
  {
    var from := Find(text, start, 0);
    if from.None? then Malformed
    else
      var upto := Find(text, end, from.value);
      if upto.None? then Malformed else SectionRead(text[from.value..upto.value + |end|], name)
  }

  /** Which of the two sections this is. */
  function SectionRead(section: string, name: string): (r: Reading)
    ensures r.Managed? ==> section == Section(name, r.variant)
  {
    if section == Section(name, Base) then Managed(Base)
    else if section == Section(name, Policy) then Managed(Policy)
    else Malformed
  }

  /** Without trailing newlines. */
  function StripNewlines(text: string): (r: string)
    ensures r <= text && forall i :: |r| <= i < |text| ==> text[i] == '\n'
    ensures r != "" ==> r[|r| - 1] != '\n'
  {
    if text != "" && text[|text| - 1] == '\n' then StripNewlines(text[..|text| - 1]) else text
  }

  function Append(text: string, name: string, variant: Variant): string {
    StripNewlines(text) + "\n\n" + Block(name, variant)
  }

  /** The text with its block replaced, when it has both markers. */
  function Upgrade(text: string, name: string): string {
    var begin := Find(text, START, 0);
    if begin.None? then text
    else
      var end := Find(text, END, begin.value);
      if end.None? then text
      else text[..begin.value] + Section(name, Policy) + text[end.value + |END|..]
  }

  /** What `apply` writes to an existing instruction file; None leaves the file alone. */
  function Reconcile(text: string, name: string, policy: bool): (r: Option<string>)
    requires BlockVariant(text, name) != Malformed
  {
    var reading := BlockVariant(text, name);
    if policy && reading == Managed(Base) then Some(Upgrade(text, name))
    else if reading == Unmanaged then Some(Append(text, name, if policy then Policy else Base))
    else None
  }

  // Markers start with the only '<' they hold and never span a line, so no two occurrences overlap.

  predicate Marker(m: string) {
    |m| > 1 && m[0] == '<' && (forall i :: 1 <= i < |m| ==> m[i] != '<') && forall i :: 0 <= i < |m| ==> m[i] != '\n'
  }

  ghost predicate Absent(text: string, m: string) { forall i :: !Occurs(text, m, i) }

  ghost predicate OnlyAt(text: string, m: string, at: int) {
    Occurs(text, m, at) && forall i :: Occurs(text, m, i) ==> i == at
  }

  lemma OccursShift(text: string, m: string, k: nat, i: int)
    requires k <= |text| && i >= 0
    ensures Occurs(text[k..], m, i) <==> Occurs(text, m, k + i)
  {
    if k + i <= |text| - |m| { assert text[k..][i..i + |m|] == text[k + i..k + i + |m|]; }
  }

  lemma {:induction false} CountAbsent(text: string, m: string)
    requires |m| > 0
    ensures Count(text, m) == 0 <==> Absent(text, m)
    decreases |text|
  {
    if |text| >= |m| {
      assert text[0..|m|] == text[..|m|];
      if text[..|m|] == m {
        assert Occurs(text, m, 0);
      } else {
        CountAbsent(text[1..], m);
        forall i | i >= 0 ensures Occurs(text[1..], m, i) <==> Occurs(text, m, 1 + i) { OccursShift(text, m, 1, i); }
        assert !Occurs(text, m, 0);
        if Absent(text[1..], m) {
          forall i ensures !Occurs(text, m, i) { if i >= 1 { assert !Occurs(text[1..], m, i - 1); } }
        } else {
          var j :| Occurs(text[1..], m, j);
          assert Occurs(text, m, 1 + j);
        }
      }
    }
  }

  lemma NoOverlap(text: string, m: string, i: int, j: int)
    requires Marker(m) && Occurs(text, m, i) && Occurs(text, m, j) && i < j
    ensures i + |m| <= j
  {
    assert text[j] == text[j..j + |m|][0];
    forall k | 0 <= k < |m| ensures text[i + k] == m[k] { assert text[i..i + |m|][k] == m[k]; }
  }

  lemma {:induction false} CountSingle(text: string, m: string)
    requires Marker(m)
    ensures Count(text, m) == 1 <==> exists i :: OnlyAt(text, m, i)
    ensures Count(text, m) == 1 <==> Find(text, m, 0).Some? && OnlyAt(text, m, Find(text, m, 0).value)
    decreases |text|
  {
    if |text| < |m| {
    } else if text[..|m|] == m {
      assert text[0..|m|] == m && Occurs(text, m, 0);
      CountAbsent(text[|m|..], m);
      if Absent(text[|m|..], m) {
        forall i | Occurs(text, m, i) ensures i == 0 {
          if i > 0 { NoOverlap(text, m, 0, i); OccursShift(text, m, |m|, i - |m|); }
        }
        assert OnlyAt(text, m, 0);
      } else {
        var j :| Occurs(text[|m|..], m, j);
        OccursShift(text, m, |m|, j);
      }
    } else {
      CountSingle(text[1..], m);
      assert text[0..|m|] == text[..|m|] && !Occurs(text, m, 0);
      forall i | i >= 0 ensures Occurs(text[1..], m, i) <==> Occurs(text, m, 1 + i) { OccursShift(text, m, 1, i); }
      if i :| OnlyAt(text[1..], m, i) {
        assert Occurs(text, m, 1 + i);
        forall j | Occurs(text, m, j) ensures j == 1 + i { assert Occurs(text[1..], m, j - 1); }
        assert OnlyAt(text, m, 1 + i);
      }
      if i :| OnlyAt(text, m, i) {
        assert Occurs(text[1..], m, i - 1);
        forall j | Occurs(text[1..], m, j) ensures j == i - 1 { assert Occurs(text, m, 1 + j); }
        assert OnlyAt(text[1..], m, i - 1);
      }
    }
  }

  // The shape of a section: a marker at each end and no other '<'.

  lemma ReferencePlain(name: string)
    ensures '<' !in Reference(name)
  {
    assert '<' !in "Before running or changing tests, ";
    assert '<' !in "read `docs/ptest-agent.md`.";
    assert '<' !in "@docs/ptest-agent.md";
  }

  lemma PolicyReferencePlain(name: string)
    ensures '<' !in PolicyReference(name)
  {
    assert '<' !in "Before writing or changing tests, ";
    assert '<' !in "read `docs/ptest-test-policy.md`.";
    assert '<' !in "@docs/ptest-test-policy.md";
  }

  lemma InnerPlain(name: string, variant: Variant)
    ensures '<' !in Inner(name, variant)
  {
    ReferencePlain(name);
    PolicyReferencePlain(name);
  }

  lemma MarkersAreMarkers()
    ensures Marker(START) && Marker(END)
    ensures |START| == 32 && |END| == 30 && START[25] != END[25]
  {
  }

  /** A string framed by two markers, with no other '<'. */
  ghost predicate FramedBy(s: string, open: string, close: string) {
    && |s| >= |open| + |close| && s[..|open|] == open && s[|s| - |close|..] == close
    && forall i :: 0 <= i < |s| && s[i] == '<' ==> i == 0 || i == |s| - |close|
  }

  ghost predicate Framed(s: string) { FramedBy(s, START, END) }

  lemma MarkersFrame(open: string, inner: string, close: string)
    requires Marker(open) && Marker(close) && '<' !in inner
    ensures FramedBy(open + inner + close, open, close)
  {
    var s := open + inner + close;
    assert s[..|open|] == open && s[|s| - |close|..] == close;
    forall i | 0 <= i < |open| ensures s[i] == open[i] {}
    forall i | |open| <= i < |s| - |close| ensures s[i] != '<' { assert s[i] == inner[i - |open|]; }
    forall i | |s| - |close| <= i < |s| ensures s[i] == close[i - (|s| - |close|)] {}
  }

  lemma SectionFramed(name: string, variant: Variant)
    ensures Framed(Section(name, variant))
  {
    MarkersAreMarkers();
    InnerPlain(name, variant);
    MarkersFrame(START, Inner(name, variant), END);
  }

  lemma OccursLeft(a: string, b: string, m: string, i: int)
    requires Occurs(a + b, m, i) && i + |m| <= |a|
    ensures Occurs(a, m, i)
  {
    assert a[i..i + |m|] == (a + b)[i..i + |m|];
  }

  lemma OccursRight(a: string, b: string, m: string, i: int)
    requires Occurs(a + b, m, i) && i >= |a|
    ensures Occurs(b, m, i - |a|)
  {
    assert b[i - |a|..i - |a| + |m|] == (a + b)[i..i + |m|];
  }

  lemma OnlyOpening(text: string, m: string, i: int)
    requires Marker(m) && Occurs(text, m, i)
    ensures text[i] == '<' && forall k :: i < k < i + |m| ==> text[k] != '<'
  {
    assert text[i] == text[i..i + |m|][0];
    forall k | i < k < i + |m| ensures text[k] != '<' { assert text[k] == text[i..i + |m|][k - i]; }
  }

  lemma NotBoth(text: string, i: int)
    ensures !(Occurs(text, START, i) && Occurs(text, END, i))
  {
    MarkersAreMarkers();
    if Occurs(text, START, i) { assert text[i + 25] == text[i..i + |START|][25]; }
    if Occurs(text, END, i) { assert text[i + 25] == text[i..i + |END|][25]; }
  }

  /** No marker reaches across the start or the end of a framed string: every occurrence lies before
      it, after it, or begins at one of its two '<'. */
  lemma NoStraddle(a: string, s: string, b: string, m: string, i: int)
    requires Marker(m) && Framed(s) && Occurs(a + s + b, m, i)
    ensures Occurs(a, m, i) || i == |a| || i == |a| + |s| - |END| || Occurs(b, m, i - |a| - |s|)
  {
    var text := a + s + b;
    OnlyOpening(text, m, i);
    if i < |a| {
      assert text[|a|] == s[0] == s[..|START|][0];
      assert text == a + (s + b);
      OccursLeft(a, s + b, m, i);
    } else if i < |a| + |s| {
      assert text[i] == s[i - |a|];
    } else {
      OccursRight(a + s, b, m, i);
    }
  }

  /** A text without markers of its own around one framed string holds exactly one marker pair. */
  lemma OnePair(a: string, s: string, b: string)
    requires Framed(s) && Absent(a, START) && Absent(a, END) && Absent(b, START) && Absent(b, END)
    ensures OnlyAt(a + s + b, START, |a|) && OnlyAt(a + s + b, END, |a| + |s| - |END|)
  {
    MarkersAreMarkers();
    var text := a + s + b;
    var tail := |a| + |s| - |END|;
    assert text[|a|..|a| + |START|] == s[..|START|];
    assert text[tail..tail + |END|] == s[|s| - |END|..];
    forall i | Occurs(text, START, i) ensures i == |a| {
      NoStraddle(a, s, b, START, i);
      NotBoth(text, i);
    }
    forall i | Occurs(text, END, i) ensures i == tail {
      NoStraddle(a, s, b, END, i);
      NotBoth(text, i);
    }
  }

  lemma PairReads(text: string, name: string, begin: nat, end: nat)
    requires OnlyAt(text, START, begin) && OnlyAt(text, END, end) && begin <= end
    ensures Find(text, START, 0) == Some(begin) && Find(text, END, begin) == Some(end)
    ensures Count(text, START) == 1 == Count(text, END)
  {
    MarkersAreMarkers();
    CountSingle(text, START);
    CountSingle(text, END);
  }

  lemma SingleMarkers(text: string, name: string)
    requires BlockVariant(text, name).Managed?
    ensures var begin := Find(text, START, 0);
            begin.Some? && OnlyAt(text, START, begin.value)
            && var end := Find(text, END, begin.value); end.Some? && OnlyAt(text, END, end.value)
  {
    MarkersAreMarkers();
    CountSingle(text, START);
    CountSingle(text, END);
  }

  lemma BeforeAbsent(text: string, m: string, at: int, k: nat)
    requires |m| > 0 && OnlyAt(text, m, at) && k <= at
    ensures Absent(text[..k], m)
  {
    forall i ensures !Occurs(text[..k], m, i) {
      if 0 <= i <= k - |m| {
        assert text[..k][i..i + |m|] == text[i..i + |m|];
        assert Occurs(text[..k], m, i) ==> Occurs(text, m, i);
      }
    }
  }

  lemma AfterAbsent(text: string, m: string, at: int, k: nat)
    requires OnlyAt(text, m, at) && at < k <= |text|
    ensures Absent(text[k..], m)
  {
    forall i ensures !Occurs(text[k..], m, i) {
      if 0 <= i { OccursShift(text, m, k, i); }
    }
  }

  lemma CutAround(text: string, begin: nat, end: nat)
    requires OnlyAt(text, START, begin) && OnlyAt(text, END, end) && begin <= end
    ensures text == text[..begin] + text[begin..end + |END|] + text[end + |END|..]
    ensures Absent(text[..begin], START) && Absent(text[..begin], END)
    ensures Absent(text[end + |END|..], START) && Absent(text[end + |END|..], END)
  {
    BeforeAbsent(text, START, begin, begin);
    BeforeAbsent(text, END, end, begin);
    AfterAbsent(text, START, begin, end + |END|);
    AfterAbsent(text, END, end, end + |END|);
  }

  /** A managed text is some text without markers, the section, and some text without markers. */
  lemma ManagedSplits(text: string, name: string) returns (begin: nat, end: nat)
    requires BlockVariant(text, name).Managed?
    ensures Find(text, START, 0) == Some(begin) && Find(text, END, begin) == Some(end) && begin <= end
      && end + |END| <= |text|
    ensures text == text[..begin] + Section(name, BlockVariant(text, name).variant) + text[end + |END|..]
    ensures Absent(text[..begin], START) && Absent(text[..begin], END)
    ensures Absent(text[end + |END|..], START) && Absent(text[end + |END|..], END)
  {
    SingleMarkers(text, name);
    begin := Find(text, START, 0).value;
    end := Find(text, END, begin).value;
    assert BlockVariant(text, name) == Located(text, name, START, END);
    CutAround(text, begin, end);
  }

  /** Around a framed section the classifier reads exactly that section's variant. */
  lemma SplicedReads(a: string, b: string, name: string, variant: Variant)
    requires Absent(a, START) && Absent(a, END) && Absent(b, START) && Absent(b, END)
    ensures BlockVariant(a + Section(name, variant) + b, name) == Managed(variant)
  {
    var s := Section(name, variant);
    var text := a + s + b;
    SectionFramed(name, variant);
    OnePair(a, s, b);
    PairReads(text, name, |a|, |a| + |s| - |END|);
    assert text[|a|..|a| + |s|] == s;
    VariantsDiffer(name);
  }

  lemma VariantsDiffer(name: string)
    ensures Section(name, Base) != Section(name, Policy)
  {
    assert |PolicyReference(name)| > 0;
  }

  lemma NewlinesAddNone(text: string, kept: string, m: string)
    requires Marker(m) && Absent(text, m) && kept <= text
    ensures Absent(kept + "\n\n", m)
  {
    var a := kept + "\n\n";
    forall i ensures !Occurs(a, m, i) {
      if 0 <= i && i + |m| <= |kept| {
        assert text[i..i + |m|] == a[i..i + |m|];
        assert !Occurs(text, m, i);
      } else if 0 <= i <= |a| - |m| {
        assert a[i..i + |m|][|m| - 1] == '\n';
      }
    }
  }

  /** From here on the text is newlines, and the character before is none. */
  ghost predicate NewlinesFrom(text: string, k: nat) {
    k <= |text| && (forall i :: k <= i < |text| ==> text[i] == '\n') && (k > 0 ==> text[k - 1] != '\n')
  }

  /** The whole text but its trailing newlines, an empty line, and the block. */
  ghost predicate Appended(text: string, edited: string, name: string, variant: Variant) {
    exists k: nat :: NewlinesFrom(text, k) && edited == text[..k] + "\n\n" + Block(name, variant)
  }

  lemma AppendKeeps(text: string, name: string, variant: Variant)
    ensures Appended(text, Append(text, name, variant), name, variant)
  {
    var k := |StripNewlines(text)|;
    assert text[..k] == StripNewlines(text) && NewlinesFrom(text, k);
  }

  /** Appending to a text with no markers keeps it, whatever it ends with, and gives the requested variant. */
  lemma AppendReads(text: string, name: string, variant: Variant)
    requires BlockVariant(text, name) == Unmanaged
    ensures BlockVariant(Append(text, name, variant), name) == Managed(variant)
    ensures Appended(text, Append(text, name, variant), name, variant)
  {
    AppendKeeps(text, name, variant);
    MarkersAreMarkers();
    CountAbsent(text, START);
    CountAbsent(text, END);
    var a := StripNewlines(text) + "\n\n";
    NewlinesAddNone(text, StripNewlines(text), START);
    NewlinesAddNone(text, StripNewlines(text), END);
    assert |"\n"| == 1;
    SplicedReads(a, "\n", name, variant);
    assert Append(text, name, variant) == a + Section(name, variant) + "\n";
  }

  /** Upgrading keeps every character outside the block and turns it into the policy block. */
  lemma UpgradeReads(text: string, name: string) returns (a: string, b: string)
    requires BlockVariant(text, name) == Managed(Base)
    ensures text == a + Section(name, Base) + b && Upgrade(text, name) == a + Section(name, Policy) + b
    ensures Plain(a) && Plain(b)
    ensures BlockVariant(Upgrade(text, name), name) == Managed(Policy)
  {
    var begin, end := ManagedSplits(text, name);
    a, b := text[..begin], text[end + |END|..];
    SplicedReads(a, b, name, Policy);
  }

  // What the classifier and the edits mean, without either.

  ghost predicate Plain(text: string) { Absent(text, START) && Absent(text, END) }

  /** The text is this section between two parts without markers. */
  ghost predicate Holds(text: string, name: string, variant: Variant, a: string, b: string) {
    text == a + Section(name, variant) + b && Plain(a) && Plain(b)
  }

  ghost predicate HasBlock(text: string, name: string, variant: Variant) {
    exists a, b :: Holds(text, name, variant, a, b)
  }

  /** The three readings: no marker anywhere, one of the two sections between parts without markers, or neither. */
  lemma ReadingMeans(text: string, name: string)
    ensures BlockVariant(text, name) == Unmanaged <==> Plain(text)
    ensures forall variant :: BlockVariant(text, name) == Managed(variant) <==> HasBlock(text, name, variant)
  {
    UnmanagedMeans(text, name);
    forall variant ensures BlockVariant(text, name) == Managed(variant) <==> HasBlock(text, name, variant) {
      if BlockVariant(text, name) == Managed(variant) { ManagedHolds(text, name, variant); }
      if HasBlock(text, name, variant) {
        var a, b :| Holds(text, name, variant, a, b);
        SplicedReads(a, b, name, variant);
      }
    }
  }

  lemma UnmanagedMeans(text: string, name: string)
    ensures BlockVariant(text, name) == Unmanaged <==> Plain(text)
  {
    CountAbsent(text, START);
    CountAbsent(text, END);
  }

  lemma ManagedHolds(text: string, name: string, variant: Variant)
    requires BlockVariant(text, name) == Managed(variant)
    ensures HasBlock(text, name, variant)
  {
    var begin, end := ManagedSplits(text, name);
    SplitHolds(text, name, variant, text[..begin], text[end + |END|..]);
  }

  lemma SplitHolds(text: string, name: string, variant: Variant, a: string, b: string)
    requires text == a + Section(name, variant) + b
    requires Absent(a, START) && Absent(a, END) && Absent(b, START) && Absent(b, END)
    ensures HasBlock(text, name, variant)
  {
    assert Holds(text, name, variant, a, b);
  }

  /** An edit: the block appended to a text without one, or the policy block in place of the base block. */
  ghost predicate Edited(text: string, edited: string, name: string, policy: bool) {
    if Plain(text) then Appended(text, edited, name, if policy then Policy else Base)
    else
      policy && exists a, b :: Holds(text, name, Base, a, b) && edited == a + Section(name, Policy) + b
  }

  /** A readable text is edited unless it has the wanted block, and the edit keeps everything around the block. */
  lemma ReconcileEdits(text: string, name: string, policy: bool)
    requires Plain(text) || HasBlock(text, name, Base) || HasBlock(text, name, Policy)
    ensures BlockVariant(text, name) != Malformed
    ensures Reconcile(text, name, policy).None? <==>
      HasBlock(text, name, Policy) || (!policy && HasBlock(text, name, Base))
    ensures Reconcile(text, name, policy).Some? ==> Edited(text, Reconcile(text, name, policy).value, name, policy)
  {
    ReadingMeans(text, name);
    if BlockVariant(text, name) == Unmanaged {
      AppendReads(text, name, if policy then Policy else Base);
    } else if policy && BlockVariant(text, name) == Managed(Base) {
      var a, b := UpgradeReads(text, name);
    }
  }

  /** After one reconciliation the file holds the wanted block and a second one leaves it alone. */
  lemma ReconcileSettles(text: string, name: string, policy: bool)
    requires BlockVariant(text, name) != Malformed
    ensures var settled := match Reconcile(text, name, policy) case Some(t) => t case None => text;
            && BlockVariant(settled, name).Managed?
            && (policy ==> BlockVariant(settled, name) == Managed(Policy))
            && (BlockVariant(text, name).Managed? && !policy ==> settled == text)
            && Reconcile(settled, name, policy) == None
  {
    if policy && BlockVariant(text, name) == Managed(Base) {
      var _, _ := UpgradeReads(text, name);
    } else if BlockVariant(text, name) == Unmanaged {
      AppendReads(text, name, if policy then Policy else Base);
    }
  }

  // Edits add no carriage return and little length.

  lemma {:induction false} SectionHasNoReturn(name: string, variant: Variant)
    ensures '\r' !in Section(name, variant)
  {
    ReferenceHasNoReturn(name);
    PolicyReferenceHasNoReturn(name);
    assert '\r' !in START && '\r' !in END;
  }

  lemma ReferenceHasNoReturn(name: string)
    ensures '\r' !in Reference(name)
  {
    assert '\r' !in "Before running or changing tests, ";
    assert '\r' !in "read `docs/ptest-agent.md`.";
    assert '\r' !in "@docs/ptest-agent.md";
  }

  lemma PolicyReferenceHasNoReturn(name: string)
    ensures '\r' !in PolicyReference(name)
  {
    assert '\r' !in "Before writing or changing tests, ";
    assert '\r' !in "read `docs/ptest-test-policy.md`.";
    assert '\r' !in "@docs/ptest-test-policy.md";
  }

  lemma ReconcileHasNoReturn(text: string, name: string, policy: bool)
    requires BlockVariant(text, name) != Malformed && '\r' !in text
    ensures Reconcile(text, name, policy).Some? ==> '\r' !in Reconcile(text, name, policy).value
  {
    SectionHasNoReturn(name, if policy then Policy else Base);
    if policy && BlockVariant(text, name) == Managed(Base) {
      var a, b := UpgradeReads(text, name);
      assert forall c :: c in a || c in b ==> c in text;
    } else if BlockVariant(text, name) == Unmanaged {
      assert forall c :: c in StripNewlines(text) ==> c in text;
    }
  }

  lemma BlockIsShort(name: string, variant: Variant)
    ensures |Block(name, variant)| <= 1000
  {
  }

  lemma TooShortForMarker(s: string, m: string)
    requires |s| < |m|
    ensures Absent(s, m)
  {
  }

  /** A file holding nothing but the block reads as that block's variant. */
  lemma BlockReads(name: string, variant: Variant)
    ensures BlockVariant(Block(name, variant), name) == Managed(variant)
  {
    MarkersAreMarkers();
    TooShortForMarker("", START);
    TooShortForMarker("", END);
    TooShortForMarker("\n", START);
    TooShortForMarker("\n", END);
    SplicedReads("", "\n", name, variant);
    EmptyLeft(Section(name, variant), "\n");
  }

  lemma EmptyLeft(s: string, t: string)
    ensures "" + s + t == s + t
  {
  }
}

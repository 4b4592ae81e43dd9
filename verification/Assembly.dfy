/** Assembling one child's assessment from model replies (src/ptest/agent_assessment.py:3186-3226,
3229-3298, 3368-3378, 3404-3427, 3502-3717). Replies are arbitrary bytes. */
module Assembly {
  import opened Basics
  import opened Utf8
  import opened Admission

  datatype Status = Satisfied | Gap | NotApplicable | Unknown
  datatype Citation = Citation(path: string, startLine: int, endLine: int, digest: string)
  datatype Row = Row(id: string, status: Status, rationale: string, evidence: seq<Citation>, title: string)
  datatype Finding = Finding(id: string, summary: string, change: string, recipe: Option<string>,
    evidence: seq<Citation>)
  datatype Entry = Entry(id: string, title: string, recipe: Option<string>)
  datatype Score = Score(satisfied: nat, applicable: nat, percent: nat)

  /** A span of an admitted file that a request offers as evidence. */
  datatype SourceUnit = SourceUnit(path: string, startLine: int, endLine: int, digest: string, text: string)

  datatype Packet = Packet(digest: string, scope: string, declaration: string, excerpts: seq<Excerpt>)
  datatype Answer = Answer(status: Status, reason: string, evidencePaths: seq<string>, findingSummary: string,
    findingChange: string)
  datatype Plan = Skip(reason: string) | Answered(answer: Answer) | Ask
  datatype Review = Review(
    itemId: string, scope: string, plan: Plan, excerptPaths: seq<string>,
    sourceIds: seq<(SourceUnit, string)>, selectedIds: seq<string>, followup: bool)
  datatype Reply = Payload(bytes: Bytes) | Failure(reason: string) | Absent

  /** A reply that is a JSON object with exactly the expected keys. A list that is no list is None; a list
      element that is no source ID is None. */
  datatype FindingPart = FindingPart(summary: string, change: string, evidence: Option<seq<Option<string>>>)
  datatype FindingField = NoFinding | BadFinding | SomeFinding(part: FindingPart)
  datatype Document = Document(status: Option<Status>, rationale: string, evidence: Option<seq<Option<string>>>,
    finding: FindingField)

  /** What the assembler takes from elsewhere. */
  datatype Rules = Rules(
    parse: Bytes -> Option<Document>,
    prose: string -> Option<string>,
    ownPrefix: string -> bool,
    specific: string -> bool,
    privateFields: (Document, set<string>, set<string>, set<string>, bool) -> bool,
    split: Bytes -> seq<string>,
    sourceId: (string, string, SourceUnit) -> string,
    excluded: (string, string) -> bool,
    manifest: (string, string) -> bool,
    configFile: string -> bool,
    addoptsFile: string -> bool,
    tomlSection: string -> Option<string>,
    layout: string -> AddoptsRules,
    catalog: map<string, Entry>)

  /** How one configuration file's lines are read for its addopts entry. */
  datatype AddoptsRules = AddoptsRules(
    sections: Option<seq<Option<string>>>,
    header: string -> Option<string>,
    key: string -> bool,
    depth: string -> int,
    continues: string -> bool)

  const EVIDENCE_MAX: nat := 16
  const FAILED_PREFIX := "Review failed: "
  const ANSWER_PREFIX := "Answered by ptest: "

  /** The excerpt a path stands for: the last one of that path. */
  function Known(excerpts: seq<Excerpt>, path: string): (r: Option<Excerpt>)
    ensures r.Some? ==> r.value in excerpts && r.value.path == path && LastOf(excerpts, r.value)
    ensures r.None? ==> forall e :: e in excerpts ==> e.path != path
  {
    if excerpts == [] then None
    else
      var last := excerpts[|excerpts| - 1];
      if last.path == path then
        assert LastAt(excerpts, last, |excerpts| - 1);
        Some(last)
      else
        var r := Known(excerpts[..|excerpts| - 1], path);
        KnownBefore(excerpts, r, path);
        r
  }

  lemma KnownBefore(excerpts: seq<Excerpt>, r: Option<Excerpt>, path: string)
    requires excerpts != [] && excerpts[|excerpts| - 1].path != path
    requires var rest := excerpts[..|excerpts| - 1];
      if r.Some? then r.value in rest && r.value.path == path && LastOf(rest, r.value)
      else forall e :: e in rest ==> e.path != path
    ensures if r.Some? then r.value in excerpts && LastOf(excerpts, r.value) else forall e ::
      e in excerpts ==> e.path != path
  {
    var rest := excerpts[..|excerpts| - 1];
    assert excerpts == rest + [excerpts[|excerpts| - 1]];
    if r.Some? {
      var k :| LastAt(rest, r.value, k);
      assert LastAt(excerpts, r.value, k);
    }
  }

  /** No later excerpt has its path. */
  ghost predicate LastOf(excerpts: seq<Excerpt>, e: Excerpt) { exists k :: LastAt(excerpts, e, k) }

  ghost predicate LastAt(excerpts: seq<Excerpt>, e: Excerpt, k: int) {
    0 <= k < |excerpts| && excerpts[k] == e && forall j :: k < j < |excerpts| ==> excerpts[j].path != e.path
  }

  /** There is one such excerpt for a path, and Known finds it. */
  lemma KnownIsLast(excerpts: seq<Excerpt>, e: Excerpt)
    requires LastOf(excerpts, e)
    ensures Known(excerpts, e.path) == Some(e)
  {
    var k :| LastAt(excerpts, e, k);
    assert excerpts[k] in excerpts;
    var m :| LastAt(excerpts, Known(excerpts, e.path).value, m);
  }

  /** The citation lies inside an admitted excerpt and carries its identity. */
  ghost predicate Cites(packet: Packet, c: Citation) {
    exists i :: 0 <= i < |packet.excerpts| && CitesExcerpt(packet.excerpts[i], c)
  }

  predicate CitesExcerpt(e: Excerpt, c: Citation) {
    c.path == e.path && c.digest == e.digest && e.startLine <= c.startLine <= c.endLine <= e.endLine
  }

  ghost predicate AllCite(packet: Packet, cs: seq<Citation>) { forall i :: 0 <= i < |cs| ==> Cites(packet, cs[i]) }

  /** Excerpts span as many lines as their text has, from line one on, and at least one. */
  predicate Fit(split: Bytes -> seq<string>, e: Excerpt) {
    e.startLine >= 1 && e.endLine == e.startLine - 1 + if |split(e.text)| == 0 then 1 else |split(e.text)|
  }

  ghost predicate FitPacket(rules: Rules, packet: Packet) { forall e :: e in packet.excerpts ==> Fit(rules.split, e) }

  /** What admission makes is fit, when it counts the lines the assembler splits. */
  lemma AdmittedFit(codec: Codec, l: Limits, st: State, split: Bytes -> seq<string>, i: nat)
    requires Sound(codec, l, st) && i < |st.excerpts|
    requires forall b :: codec.lines(b) == |split(b)|
    ensures Fit(split, st.excerpts[i])
  {
    assert GoodExcerpt(codec, l, st.excerpts[i]);
  }

  // Binding source IDs.

  function Join(lines: seq<string>): string { if lines == [] then "" else lines[0] + Join(lines[1..]) }

  lemma {:induction false} JoinSplits(a: seq<string>, b: seq<string>)
    ensures Join(a + b) == Join(a) + Join(b)
    ensures |a| == 1 ==> Join(a) == a[0]
  {
    if a == [] {
      assert a + b == b;
    } else {
      JoinSplits(a[1..], b);
      assert (a + b)[1..] == a[1..] + b;
    }
  }

  /** A slice that stops at the ends of the list. */
  function Slice(lines: seq<string>, lo: int, hi: int): seq<string> {
    var a := if lo < 0 then 0 else if lo > |lines| then |lines| else lo;
    var b := if hi < a then a else if hi > |lines| then |lines| else hi;
    lines[a..b]
  }

  /** The unit is an original span of a complete admitted excerpt. */
  predicate Genuine(split: Bytes -> seq<string>, excerpt: Option<Excerpt>, unit: SourceUnit) {
    && excerpt.Some? && excerpt.value.complete && excerpt.value.digest == unit.digest
    && excerpt.value.startLine <= unit.startLine <= unit.endLine <= excerpt.value.endLine
    && Join(Slice(split(excerpt.value.text), unit.startLine - excerpt.value.startLine,
      unit.endLine - excerpt.value.startLine + 1)) == unit.text
  }

  function UnitOf(ids: seq<(SourceUnit, string)>, id: string): (r: Option<SourceUnit>)
    ensures r.Some? ==> NamedBy(ids, r.value, id)
    ensures r.None? ==> forall i :: 0 <= i < |ids| ==> ids[i].1 != id
  {
    if ids == [] then None
    else if ids[|ids| - 1].1 == id then
      assert NamedAt(ids, ids[|ids| - 1].0, id, |ids| - 1);
      Some(ids[|ids| - 1].0)
    else
      var r := UnitOf(ids[..|ids| - 1], id);
      NamedBefore(ids, r, id);
      r
  }

  lemma NamedBefore(ids: seq<(SourceUnit, string)>, r: Option<SourceUnit>, id: string)
    requires ids != [] && ids[|ids| - 1].1 != id
    requires var rest := ids[..|ids| - 1];
      if r.Some? then NamedBy(rest, r.value, id) else forall i :: 0 <= i < |rest| ==> rest[i].1 != id
    ensures if r.Some? then NamedBy(ids, r.value, id) else forall i :: 0 <= i < |ids| ==> ids[i].1 != id
  {
    var rest := ids[..|ids| - 1];
    forall i | 0 <= i < |rest| ensures ids[i] == rest[i] {}
    if r.Some? {
      var k :| NamedAt(rest, r.value, id, k);
      assert NamedAt(ids, r.value, id, k);
    }
  }

  /** The last unit offered under this identifier. */
  ghost predicate NamedBy(ids: seq<(SourceUnit, string)>, unit: SourceUnit, id: string) {
    exists k :: NamedAt(ids, unit, id, k)
  }

  ghost predicate NamedAt(ids: seq<(SourceUnit, string)>, unit: SourceUnit, id: string, k: int) {
    0 <= k < |ids| && ids[k] == (unit, id) && forall j :: k < j < |ids| ==> ids[j].1 != id
  }

  function Within(packet: Packet, review: Review, path: string): Option<Excerpt> {
    if path in review.excerptPaths then Known(packet.excerpts, path) else None
  }

  /** One cited identifier is acceptable. */
  predicate Offered(rules: Rules, packet: Packet, review: Review, item: Option<string>) {
    && item.Some? && item.value in review.selectedIds
    && var unit := UnitOf(review.sourceIds, item.value);
      unit.Some? && Genuine(rules.split, Within(packet, review, unit.value.path), unit.value)
  }

  predicate Bindable(rules: Rules, packet: Packet, review: Review, items: Option<seq<Option<string>>>) {
    && items.Some? && |items.value| <= EVIDENCE_MAX
    && (forall i :: 0 <= i < |items.value| ==> Offered(rules, packet, review, items.value[i]))
    && forall i, j {:trigger Different(items.value, i, j)} ::
      0 <= i < j < |items.value| ==> Different(items.value, i, j)
  }

  predicate Different(items: seq<Option<string>>, i: nat, j: nat)
    requires i < j < |items|
  {
    items[i] != items[j]
  }

  function CitationFor(packet: Packet, review: Review, unit: SourceUnit): Citation {
    var e := Within(packet, review, unit.path);
    Citation(unit.path, unit.startLine, unit.endLine, if e.Some? then e.value.digest else "")
  }

  function Bound(rules: Rules, packet: Packet, review: Review, items: seq<Option<string>>): (r: seq<Citation>)
    requires forall i :: 0 <= i < |items| ==> Offered(rules, packet, review, items[i])
    ensures |r| == |items|
  {
    seq(|items|, i requires 0 <= i < |items| =>
      assert Offered(rules, packet, review, items[i]);
      CitationFor(packet, review, UnitOf(review.sourceIds, items[i].value).value))
  }

  /** One identifier: its citation, if it was offered for this review and names a genuine span. */
  method BindOne(rules: Rules, packet: Packet, review: Review, item: Option<string>) returns (r: Option<Citation>)
    ensures r.Some? <==> Offered(rules, packet, review, item)
    ensures r.Some? ==> r.value == CitationFor(packet, review, UnitOf(review.sourceIds, item.value).value)
  {
    if item.None? || item.value !in review.selectedIds { return None; }
    var unit := UnitOf(review.sourceIds, item.value);
    if unit.None? { return None; }
    var excerpt := Within(packet, review, unit.value.path);
    if !Genuine(rules.split, excerpt, unit.value) { return None; }
    return Some(CitationFor(packet, review, unit.value));
  }

  /** This citation is that of an acceptable identifier. */
  predicate CitedBy(rules: Rules, packet: Packet, review: Review, item: Option<string>, c: Citation) {
    Offered(rules, packet, review, item) && c == CitationFor(packet, review, UnitOf(review.sourceIds, item.value).value)
  }

  /** Different identifiers, each with its citation. */
  predicate AllCited(rules: Rules, packet: Packet, review: Review, items: seq<Option<string>>,
                     citations: seq<Citation>) {
    && |items| == |citations|
      && (forall i :: 0 <= i < |items| ==> CitedBy(rules, packet, review, items[i], citations[i]))
    && forall i, j {:trigger Different(items, i, j)} :: 0 <= i < j < |items| ==> Different(items, i, j)
  }

  lemma OneMoreCited(rules: Rules, packet: Packet, review: Review, items: seq<Option<string>>, citations: seq<Citation>,
                     item: Option<string>, c: Citation)
    requires AllCited(rules, packet, review, items, citations) && item !in items
      && CitedBy(rules, packet, review, item, c)
    ensures AllCited(rules, packet, review, items + [item], citations + [c])
  {
    var all := items + [item];
    forall i, j | 0 <= i < j < |all| ensures Different(all, i, j) {
      if j < |items| { assert Different(items, i, j); } else { assert all[i] in items; }
    }
  }

  lemma RepeatedIsUnbindable(rules: Rules, packet: Packet, review: Review, items: seq<Option<string>>, position: nat)
    requires position < |items| && items[position] in items[..position]
    ensures !Bindable(rules, packet, review, Some(items))
  {
    var k :| 0 <= k < position && items[k] == items[position];
    assert !Different(items, k, position);
  }

  lemma CitedIsBound(rules: Rules, packet: Packet, review: Review, items: seq<Option<string>>, citations: seq<Citation>)
    requires AllCited(rules, packet, review, items, citations) && |items| <= EVIDENCE_MAX
    ensures Bindable(rules, packet, review, Some(items)) && citations == Bound(rules, packet, review, items)
  {
    forall i | 0 <= i < |items| ensures Offered(rules, packet, review, items[i]) {
      assert CitedBy(rules, packet, review, items[i], citations[i]);
    }
  }

  /** `_bind_source_ids`: citations for all the identifiers in order, or rejection. */
  method BindSourceIds(rules: Rules, packet: Packet, review: Review, items: Option<seq<Option<string>>>)
    returns (r: Option<seq<Citation>>)
    ensures r == if Bindable(rules, packet, review, items) then Some(Bound(rules, packet, review, items.value))
      else None
  {
    if items.None? || |items.value| > EVIDENCE_MAX { return None; }
    var identifiers: seq<Option<string>>, citations: seq<Citation> := [], [];
    for position := 0 to |items.value|
      invariant identifiers == items.value[..position] && AllCited(rules, packet, review, identifiers, citations)
    {
      var item := items.value[position];
      if item in identifiers {
        RepeatedIsUnbindable(rules, packet, review, items.value, position);
        return None;
      }
      var citation := BindOne(rules, packet, review, item);
      if citation.None? { return None; }
      OneMoreCited(rules, packet, review, identifiers, citations, item, citation.value);
      identifiers := identifiers + [item];
      citations := citations + [citation.value];
    }
    assert identifiers == items.value;
    CitedIsBound(rules, packet, review, items.value, citations);
    return Some(citations);
  }

  /** The unit quotes this excerpt: the lines it names, in full, of a complete file it names by its digest. */
  predicate Quotes(split: Bytes -> seq<string>, e: Excerpt, unit: SourceUnit) {
    var n := |split(e.text)|;
    var lo, hi := unit.startLine - e.startLine, unit.endLine - e.startLine + 1;
    && e.path == unit.path && e.complete && e.digest == unit.digest
    && e.startLine <= unit.startLine <= unit.endLine <= e.endLine
    && unit.text == Join(if hi <= n then split(e.text)[lo..hi] else if lo <= n then split(e.text)[lo..] else [])
  }

  lemma GenuineQuotes(split: Bytes -> seq<string>, e: Excerpt, unit: SourceUnit)
    requires e.path == unit.path
    ensures Genuine(split, Some(e), unit) <==> Quotes(split, e, unit)
  {
    var n := |split(e.text)|;
    var lo, hi := unit.startLine - e.startLine, unit.endLine - e.startLine + 1;
    if 0 <= lo <= n < hi { assert split(e.text)[lo..] == split(e.text)[lo..n]; }
  }

  /** The citation stands for the identifier: it was selected for the review, names a unit that quotes the admitted
      excerpt of its path, and the citation gives that unit's lines and that excerpt's digest. */
  ghost predicate StandsFor(rules: Rules, packet: Packet, review: Review, item: Option<string>, c: Citation) {
    && item.Some? && item.value in review.selectedIds
    && exists unit, e ::
         && NamedBy(review.sourceIds, unit, item.value) && unit.path in review.excerptPaths
         && LastOf(packet.excerpts, e) && Quotes(rules.split, e, unit)
         && c == Citation(unit.path, unit.startLine, unit.endLine, e.digest)
  }

  lemma NamedIsUnit(ids: seq<(SourceUnit, string)>, unit: SourceUnit, id: string)
    requires NamedBy(ids, unit, id)
    ensures UnitOf(ids, id) == Some(unit)
  {
    var k :| NamedAt(ids, unit, id, k);
    var m :| NamedAt(ids, UnitOf(ids, id).value, id, m);
  }

  lemma CitedMeans(rules: Rules, packet: Packet, review: Review, item: Option<string>, c: Citation)
    ensures CitedBy(rules, packet, review, item, c) <==> StandsFor(rules, packet, review, item, c)
  {
    if CitedBy(rules, packet, review, item, c) {
      var unit := UnitOf(review.sourceIds, item.value).value;
      var e := Within(packet, review, unit.path).value;
      GenuineQuotes(rules.split, e, unit);
      assert NamedBy(review.sourceIds, unit, item.value) && LastOf(packet.excerpts, e) && Quotes(rules.split, e, unit);
    }
    if StandsFor(rules, packet, review, item, c) {
      var unit, e :| NamedBy(review.sourceIds, unit, item.value) && unit.path in review.excerptPaths
        && LastOf(packet.excerpts, e) && Quotes(rules.split, e, unit)
        && c == Citation(unit.path, unit.startLine, unit.endLine, e.digest);
      NamedIsUnit(review.sourceIds, unit, item.value);
      KnownIsLast(packet.excerpts, e);
      GenuineQuotes(rules.split, e, unit);
    }
  }

  /** A citation for every item, in order. */
  ghost predicate AllStand(rules: Rules, packet: Packet, review: Review, items: seq<Option<string>>,
                           cs: seq<Citation>) {
    |cs| == |items| && forall i :: 0 <= i < |items| ==> StandsFor(rules, packet, review, items[i], cs[i])
  }

  /** A list of at most sixteen different identifiers, each with its citation. */
  ghost predicate CanStand(rules: Rules, packet: Packet, review: Review, items: seq<Option<string>>) {
    && |items| <= 16 && (forall i :: 0 <= i < |items| ==> items[i] !in items[..i])
    && exists cs :: AllStand(rules, packet, review, items, cs)
  }

  /** Exactly such a list can be bound, and the citations are those. */
  lemma BoundStand(rules: Rules, packet: Packet, review: Review, items: Option<seq<Option<string>>>)
    ensures Bindable(rules, packet, review, items) <==>
      items.Some? && CanStand(rules, packet, review, items.value)
    ensures Bindable(rules, packet, review, items) ==>
      AllStand(rules, packet, review, items.value, Bound(rules, packet, review, items.value))
  {
    if Bindable(rules, packet, review, items) {
      BindableStands(rules, packet, review, items.value);
    } else if items.Some? && CanStand(rules, packet, review, items.value) {
      StandingBinds(rules, packet, review, items.value);
    }
  }

  lemma BindableStands(rules: Rules, packet: Packet, review: Review, items: seq<Option<string>>)
    requires Bindable(rules, packet, review, Some(items))
    ensures CanStand(rules, packet, review, items)
    ensures AllStand(rules, packet, review, items, Bound(rules, packet, review, items))
  {
    var cs := Bound(rules, packet, review, items);
    forall i | 0 <= i < |items| ensures StandsFor(rules, packet, review, items[i], cs[i]) {
      CitedMeans(rules, packet, review, items[i], cs[i]);
    }
    assert AllStand(rules, packet, review, items, cs);
    forall i | 0 <= i < |items| ensures items[i] !in items[..i] {
      if items[i] in items[..i] { RepeatedIsUnbindable(rules, packet, review, items, i); }
    }
  }

  lemma StandingBinds(rules: Rules, packet: Packet, review: Review, items: seq<Option<string>>)
    requires CanStand(rules, packet, review, items)
    ensures Bindable(rules, packet, review, Some(items))
  {
    var cs :| AllStand(rules, packet, review, items, cs);
    forall i | 0 <= i < |items| ensures Offered(rules, packet, review, items[i]) {
      CitedMeans(rules, packet, review, items[i], cs[i]);
    }
    forall i, j | 0 <= i < j < |items| ensures Different(items, i, j) { assert items[..j][i] == items[i]; }
  }

  /** Every citation that stands for an identifier is an original span of a complete admitted excerpt. */
  lemma BoundCites(rules: Rules, packet: Packet, review: Review, items: seq<Option<string>>, cs: seq<Citation>)
    requires AllStand(rules, packet, review, items, cs)
    ensures AllCite(packet, cs)
  {
    forall i | 0 <= i < |cs| ensures Cites(packet, cs[i]) {
      assert StandsFor(rules, packet, review, items[i], cs[i]);
      var unit, e :| NamedBy(review.sourceIds, unit, items[i].value) && LastOf(packet.excerpts, e)
        && Quotes(rules.split, e, unit) && cs[i] == Citation(unit.path, unit.startLine, unit.endLine, e.digest);
      var k :| 0 <= k < |packet.excerpts| && packet.excerpts[k] == e;
      assert CitesExcerpt(packet.excerpts[k], cs[i]);
    }
  }

  // The lines of a configuration file that a deterministic answer cites.

  datatype Span = Span(start: int, end: int)

  /** The name of a child of this section. */
  function DotPrefixed(section: string, name: string): (r: bool)
    ensures r <==> |name| > |section| && name[..|section|] == section && name[|section|] == '.'
  {
    section + "." <= name
  }

  /** A header of another section than this one and its children. */
  predicate Foreign(tomlSection: string -> Option<string>, section: string, line: string) {
    tomlSection(line).Some? && tomlSection(line).value != section && !DotPrefixed(section, tomlSection(line).value)
  }

  /** `_config_section_span`: from the section's header to just before the next foreign header. */
  method ConfigSectionSpan(tomlSection: string -> Option<string>, lines: seq<string>, section: string)
    returns (r: Option<Span>)
    ensures r.None? <==> forall i :: 0 <= i < |lines| ==> tomlSection(lines[i]) != Some(section)
    ensures r.Some? ==> IsSectionSpan(tomlSection, lines, section, r.value)
  {
    var start := 0;
    for index := 1 to |lines| + 1
      invariant 0 <= start < index
      invariant start == 0 ==> forall i :: 0 <= i < index - 1 ==> tomlSection(lines[i]) != Some(section)
      invariant start > 0 ==>
        && tomlSection(lines[start - 1]) == Some(section)
        && forall i :: 0 <= i < start - 1 ==> tomlSection(lines[i]) != Some(section)
      invariant start > 0 ==> forall i :: start <= i < index - 1 ==> !Foreign(tomlSection, section, lines[i])
    {
      var name := tomlSection(lines[index - 1]);
      if name.Some? {
        if start == 0 {
          if name.value == section { start := index; }
        } else if name.value != section && !DotPrefixed(section, name.value) {
          return Some(Span(start, index - 1));
        }
      }
    }
    if start == 0 { return None; }
    return Some(Span(start, if |lines| == 0 then 1 else |lines|));
  }

  ghost predicate IsSectionSpan(tomlSection: string -> Option<string>, lines: seq<string>, section: string, s: Span) {
    && 1 <= s.start <= s.end <= |lines| && tomlSection(lines[s.start - 1]) == Some(section)
    && (forall i :: 0 <= i < s.start - 1 ==> tomlSection(lines[i]) != Some(section))
    && (forall i :: s.start <= i < s.end ==> !Foreign(tomlSection, section, lines[i]))
    && (s.end < |lines| ==> Foreign(tomlSection, section, lines[s.end]))
  }

  /** Whether line i is under a section that decides addopts: the last header before it says. */
  function Deciding(rules: AddoptsRules, lines: seq<string>, i: nat): bool
    requires i <= |lines|
  {
    if i == 0 then rules.sections.None? || None in rules.sections.value
    else if rules.header(lines[i - 1]).Some? && rules.sections.Some?
    then rules.header(lines[i - 1]) in rules.sections.value
    else Deciding(rules, lines, i - 1)
  }

  predicate Starts(rules: AddoptsRules, lines: seq<string>, i: nat)
    requires i < |lines|
  {
    rules.header(lines[i]).None? && Deciding(rules, lines, i) && rules.key(lines[i])
  }

  function DepthOver(depth: string -> int, lines: seq<string>, from: nat, to: nat): int
    requires from <= to <= |lines|
  {
    if from == to then 0 else DepthOver(depth, lines, from, to - 1) + depth(lines[to - 1])
  }

  /** The entry can end after line n (counted from one): brackets are balanced and no continuation follows. */
  predicate Closes(rules: AddoptsRules, lines: seq<string>, start: nat, n: nat)
    requires 1 <= start <= n <= |lines|
  {
    DepthOver(rules.depth, lines, start - 1, n) <= 0 && !rules.continues(if n < |lines| then lines[n] else "")
  }

  ghost predicate IsAddoptsSpan(rules: AddoptsRules, lines: seq<string>, s: Span) {
    && 1 <= s.start <= s.end <= |lines| && Starts(rules, lines, s.start - 1)
    && (forall i :: 0 <= i < s.start - 1 ==> !Starts(rules, lines, i))
    && (forall n :: s.start <= n < s.end ==> !Closes(rules, lines, s.start, n))
    && (s.end < |lines| ==> Closes(rules, lines, s.start, s.end))
  }

  /** `_addopts_span`: from the first deciding entry through its continuation lines and open brackets. */
  method AddoptsSpan(rules: AddoptsRules, lines: seq<string>) returns (r: Option<Span>)
    ensures r.None? <==> forall i :: 0 <= i < |lines| ==> !Starts(rules, lines, i)
    ensures r.Some? ==> IsAddoptsSpan(rules, lines, r.value)
  {
    var inScope := rules.sections.None? || None in rules.sections.value;
    var index := 0;
    var found := false;
    while index < |lines| && !found
      invariant 0 <= index <= |lines|
      invariant found ==> index < |lines| && Starts(rules, lines, index)
      invariant !found ==> inScope == Deciding(rules, lines, index)
      invariant forall i :: 0 <= i < index ==> !Starts(rules, lines, i)
      decreases |lines| - index, !found
    {
      var header := rules.header(lines[index]);
      if header.Some? {
        if rules.sections.Some? { inScope := header in rules.sections.value; }
        index := index + 1;
      } else if inScope && rules.key(lines[index]) {
        found := true;
      } else {
        index := index + 1;
      }
    }
    if !found { return None; }
    var start := index + 1;
    var depth, end := rules.depth(lines[index]), start;
    while !(depth <= 0 && !rules.continues(if end < |lines| then lines[end] else "")) && end < |lines|
      invariant start <= end <= |lines| && depth == DepthOver(rules.depth, lines, start - 1, end)
      invariant forall n :: start <= n < end ==> !Closes(rules, lines, start, n)
    {
      depth := depth + rules.depth(lines[end]);
      end := end + 1;
    }
    return Some(Span(start, end));
  }

  // Answers that need no model.

  /** The section a deterministic item cites in the child's own configuration. */
  function SectionFor(entry: Entry, status: Status): Option<string> {
    if entry.id == "SELECT-001" && status == NotApplicable then Some("runner")
    else if entry.id == "SELECT-001" then Some("selection")
    else if entry.id == "PARALLEL-001" then Some("runner")
    else None
  }

  datatype Reading = Section(name: string) | Addopts | Whole

  function ReadingOf(rules: Rules, entry: Entry, status: Status, path: string): Reading {
    if SectionFor(entry, status).Some? && rules.configFile(path) then Section(SectionFor(entry, status).value)
    else if entry.id == "PARALLEL-001" && rules.addoptsFile(path) then Addopts
    else Whole
  }

  /** Which lines a deterministic answer rests on. */
  lemma ReadingTable(rules: Rules, entry: Entry, status: Status, path: string)
    ensures ReadingOf(rules, entry, status, path) == Section("selection") <==>
      rules.configFile(path) && entry.id == "SELECT-001" && status != NotApplicable
    ensures ReadingOf(rules, entry, status, path) == Section("runner") <==>
      rules.configFile(path) && ((entry.id == "SELECT-001" && status == NotApplicable) || entry.id == "PARALLEL-001")
    ensures ReadingOf(rules, entry, status, path) == Addopts <==>
      entry.id == "PARALLEL-001" && !rules.configFile(path) && rules.addoptsFile(path)
    ensures ReadingOf(rules, entry, status, path) != Whole ==>
      entry.id in {"SELECT-001", "PARALLEL-001"} && (rules.configFile(path) || rules.addoptsFile(path))
  {
  }

  /** The citation names exactly the lines the answer rests on: the section, the entry, or the whole excerpt
      when there is none. */
  ghost predicate Narrowed(rules: Rules, entry: Entry, status: Status, e: Excerpt, c: Citation) {
    var lines := rules.split(e.text);
    var s := Span(c.startLine - e.startLine + 1, c.endLine - e.startLine + 1);
    var whole := c.startLine == e.startLine && c.endLine == e.endLine;
    && c.path == e.path && c.digest == e.digest
    && match ReadingOf(rules, entry, status, e.path)
       case Whole => whole
       case Section(name) =>
         if forall i :: 0 <= i < |lines| ==> rules.tomlSection(lines[i]) != Some(name) then whole
         else IsSectionSpan(rules.tomlSection, lines, name, s)
       case Addopts =>
         if forall i :: 0 <= i < |lines| ==> !Starts(rules.layout(e.path), lines, i) then whole
         else IsAddoptsSpan(rules.layout(e.path), lines, s)
  }

  /** A narrowed citation never leaves its excerpt. */
  lemma NarrowedCites(rules: Rules, entry: Entry, status: Status, e: Excerpt, c: Citation)
    requires Fit(rules.split, e) && Narrowed(rules, entry, status, e, c)
    ensures CitesExcerpt(e, c) && 1 <= c.startLine
  {
  }

  method Narrow(rules: Rules, entry: Entry, status: Status, e: Excerpt) returns (c: Citation)
    ensures Narrowed(rules, entry, status, e, c)
  {
    var lines := rules.split(e.text);
    var start, end := e.startLine, e.endLine;
    var reading := ReadingOf(rules, entry, status, e.path);
    var span := None;
    if reading.Section? {
      span := ConfigSectionSpan(rules.tomlSection, lines, reading.name);
    } else if reading.Addopts? {
      span := AddoptsSpan(rules.layout(e.path), lines);
    }
    if span.Some? { start, end := span.value.start + e.startLine - 1, span.value.end + e.startLine - 1; }
    c := Citation(e.path, start, end, e.digest);
  }

  /** Citations for the leading paths that are in the packet. */
  ghost predicate Answers(rules: Rules, packet: Packet, entry: Entry, answer: Answer, cs: seq<Citation>,
                          missing: bool) {
    && |cs| <= |answer.evidencePaths|
    && (forall i ::
      0 <= i < |cs| ==>
      Known(packet.excerpts, answer.evidencePaths[i]).Some?
      && Narrowed(rules, entry, answer.status, Known(packet.excerpts, answer.evidencePaths[i]).value, cs[i]))
    && if missing then |cs| < |answer.evidencePaths| && Known(packet.excerpts, answer.evidencePaths[|cs|]).None?
       else |cs| == |answer.evidencePaths|
  }

  predicate Uncitable(answer: Answer, cs: seq<Citation>, missing: bool) {
    answer.status != Unknown && (missing || cs == [])
  }

  /** `_answer_child_row`. */
  method AnswerChildRow(rules: Rules, packet: Packet, entry: Entry, answer: Answer)
    returns (row: Row, finding: Option<Finding>, ghost cs: seq<Citation>, ghost missing: bool)
    ensures Answers(rules, packet, entry, answer, cs, missing)
    ensures AnswerOk(entry, answer, cs, missing, row, finding)
  {
    var citations: seq<Citation> := [];
    var lost := false;
    var i := 0;
    while i < |answer.evidencePaths| && !lost
      invariant 0 <= i <= |answer.evidencePaths| && |citations| == i
      invariant !lost ==>
        forall k ::
        0 <= k < i ==>
        Known(packet.excerpts, answer.evidencePaths[k]).Some?
        && Narrowed(rules, entry, answer.status, Known(packet.excerpts, answer.evidencePaths[k]).value, citations[k])
      invariant lost ==> Answers(rules, packet, entry, answer, citations, true)
      decreases |answer.evidencePaths| - i, !lost
    {
      var excerpt := Known(packet.excerpts, answer.evidencePaths[i]);
      if excerpt.None? {
        lost := true;
      } else {
        var c := Narrow(rules, entry, answer.status, excerpt.value);
        citations := citations + [c];
        i := i + 1;
      }
    }
    cs, missing := citations, lost;
    if answer.status != Unknown && (lost || citations == []) {
      row := Row(entry.id, Unknown, ANSWER_PREFIX + answer.reason + " (the ptest config is not in the review evidence)",
        [], entry.title);
      return row, None, cs, missing;
    }
    row := Row(entry.id, answer.status, ANSWER_PREFIX + answer.reason, citations, entry.title);
    finding := if answer.status == Gap
      then Some(Finding(entry.id, answer.findingSummary, answer.findingChange, None, citations)) else None;
  }

  function Manifests(rules: Rules, packet: Packet, excerpts: seq<Excerpt>): seq<Citation> {
    if excerpts == [] then []
    else
      var e := excerpts[|excerpts| - 1];
      Manifests(rules, packet, excerpts[..|excerpts| - 1])
      + if rules.manifest(e.path, packet.declaration) then [Citation(e.path, e.startLine, e.endLine, e.digest)] else []
  }

  predicate WholeCited(e: Excerpt, c: Citation) { c == Citation(e.path, e.startLine, e.endLine, e.digest) }

  /** The citations are the manifests among the excerpts, whole and in order: the k-th is the one at places[k]. */
  ghost predicate ListsManifests(rules: Rules, packet: Packet, excerpts: seq<Excerpt>, cs: seq<Citation>,
                                 places: seq<int>) {
    && |places| == |cs|
    && (forall i, j {:trigger places[i], places[j]} :: 0 <= i < j < |places| ==> places[i] < places[j])
    && (forall k :: 0 <= k < |excerpts| ==> (rules.manifest(excerpts[k].path, packet.declaration) <==> k in places))
    && forall i :: 0 <= i < |places| ==>
      0 <= places[i] < |excerpts| && WholeCited(excerpts[places[i]], cs[i])
  }

  lemma {:induction false} ManifestsListed(rules: Rules, packet: Packet, excerpts: seq<Excerpt>)
    returns (places: seq<int>)
    ensures ListsManifests(rules, packet, excerpts, Manifests(rules, packet, excerpts), places)
  {
    if excerpts == [] {
      places := [];
    } else {
      var n := |excerpts| - 1;
      var before := ManifestsListed(rules, packet, excerpts[..n]);
      places := before + if rules.manifest(excerpts[n].path, packet.declaration) then [n] else [];
      assert forall k :: 0 <= k < n ==> (k in places <==> k in before) && excerpts[..n][k] == excerpts[k];
    }
  }

  function SkipRow(rules: Rules, packet: Packet, entry: Entry, reason: string): Row {
    Row(entry.id, NotApplicable, reason, Manifests(rules, packet, packet.excerpts), entry.title)
  }

  // Model replies.

  function Ids(review: Review): set<string> { set i | 0 <= i < |review.sourceIds| :: review.sourceIds[i].1 }

  function Selected(review: Review): set<string> { set id | id in review.selectedIds }

  /** The document meets every requirement on a reply. */
  predicate Acceptable(rules: Rules, packet: Packet, review: Review, d: Document) {
    && d.status.Some? && rules.prose(d.rationale).Some? && !rules.ownPrefix(rules.prose(d.rationale).value)
    && Bindable(rules, packet, review, d.evidence)
    && (d.status.value == NotApplicable ==> rules.specific(rules.prose(d.rationale).value))
    && (if d.status.value == Gap then
          && d.finding.SomeFinding? && rules.prose(d.finding.part.summary).Some?
            && rules.prose(d.finding.part.change).Some?
          && Bindable(rules, packet, review, d.finding.part.evidence) && d.finding.part.evidence.value != []
        else d.finding.NoFinding?)
    && rules.privateFields(d, Ids(review), Ids(review) - Selected(review), Selected(review), review.followup)
  }

  /** Row and finding of an acceptable reply. */
  ghost predicate Accepted(rules: Rules, packet: Packet, review: Review, entry: Entry, d: Document, row: Row,
                           finding: Option<Finding>)
    requires Acceptable(rules, packet, review, d)
  {
    && row.id == entry.id && row.title == entry.title && row.status == d.status.value
    && row.rationale == rules.prose(d.rationale).value
    && AllStand(rules, packet, review, d.evidence.value, row.evidence)
    && (finding.Some? <==> row.status == Gap)
    && (finding.Some? ==>
         && finding.value.id == entry.id && finding.value.recipe == entry.recipe
         && finding.value.summary == rules.prose(d.finding.part.summary).value
         && finding.value.change == rules.prose(d.finding.part.change).value
         && AllStand(rules, packet, review, d.finding.part.evidence.value, finding.value.evidence))
  }

  function FailedRow(entry: Entry, reason: string): Row {
    Row(entry.id, Unknown, FAILED_PREFIX + reason, [], entry.title)
  }

  /** The row of a reply that failed or was refused. */
  predicate Failed(entry: Entry, reason: string, row: Row) {
    && row.id == entry.id && row.title == entry.title && row.status == Unknown && row.evidence == []
    && row.rationale == "Review failed: " + reason
  }

  /** `_validate_one_row`. */
  method ValidateOneRow(rules: Rules, packet: Packet, review: Review, entry: Entry, bytes: Bytes)
    returns (r: Option<(Row, Option<Finding>)>)
    ensures r.Some? <==> rules.parse(bytes).Some? && Acceptable(rules, packet, review, rules.parse(bytes).value)
    ensures r.Some? ==> Accepted(rules, packet, review, entry, rules.parse(bytes).value, r.value.0, r.value.1)
  {
    if rules.parse(bytes).None? { return None; }
    var d := rules.parse(bytes).value;
    if d.status.None? || rules.prose(d.rationale).None? { return None; }
    var rationale := rules.prose(d.rationale).value;
    if rules.ownPrefix(rationale) { return None; }
    var evidence := BindSourceIds(rules, packet, review, d.evidence);
    if evidence.None? || (d.status.value == NotApplicable && !rules.specific(rationale)) { return None; }
    BoundStand(rules, packet, review, d.evidence);
    var finding := None;
    if d.status.value == Gap {
      if !d.finding.SomeFinding? { return None; }
      var summary, change := rules.prose(d.finding.part.summary), rules.prose(d.finding.part.change);
      if summary.None? || change.None? { return None; }
      var cited := BindSourceIds(rules, packet, review, d.finding.part.evidence);
      if cited.None? || cited.value == [] { return None; }
      BoundStand(rules, packet, review, d.finding.part.evidence);
      finding := Some(Finding(entry.id, summary.value, change.value, entry.recipe, cited.value));
    } else if !d.finding.NoFinding? {
      return None;
    }
    if !rules.privateFields(d, Ids(review), Ids(review) - Selected(review), Selected(review), review.followup) {
      return None;
    }
    return Some((Row(entry.id, d.status.value, rationale, evidence.value, entry.title), finding));
  }

  // The whole child.

  /** The review was planned from this packet and nothing in it has gone stale. */
  ghost predicate Fresh(rules: Rules, packet: Packet, review: Review) {
    && review.scope == packet.scope
    && (forall p :: p in review.excerptPaths ==> Known(packet.excerpts, p).Some?)
    && (forall i :: 0 <= i < |review.sourceIds| ==> FreshUnit(rules, packet, review, review.sourceIds[i]))
    && (forall i, j :: 0 <= i < j < |review.sourceIds| ==> review.sourceIds[i].1 != review.sourceIds[j].1)
    && (forall id :: id in review.selectedIds ==> id in Ids(review))
  }

  predicate FreshUnit(rules: Rules, packet: Packet, review: Review, pair: (SourceUnit, string)) {
    && Genuine(rules.split, Known(packet.excerpts, pair.0.path), pair.0)
    && pair.1 == rules.sourceId(packet.digest, review.itemId, pair.0)
    && !rules.excluded(pair.0.path, packet.declaration)
  }

  /** The pair names lines of the admitted file as they are there now, under the identifier of this packet. */
  ghost predicate CurrentUnit(rules: Rules, packet: Packet, review: Review, pair: (SourceUnit, string)) {
    && pair.1 == rules.sourceId(packet.digest, review.itemId, pair.0)
    && !rules.excluded(pair.0.path, packet.declaration)
    && exists e :: LastOf(packet.excerpts, e) && Quotes(rules.split, e, pair.0)
  }

  lemma FreshMeans(rules: Rules, packet: Packet, review: Review)
    ensures Fresh(rules, packet, review) <==>
      && review.scope == packet.scope
      && (forall p :: p in review.excerptPaths ==> exists e :: e in packet.excerpts && e.path == p)
      && (forall i :: 0 <= i < |review.sourceIds| ==> CurrentUnit(rules, packet, review, review.sourceIds[i]))
      && (forall i, j :: 0 <= i < j < |review.sourceIds| ==> review.sourceIds[i].1 != review.sourceIds[j].1)
      && (forall id :: id in review.selectedIds ==> exists unit :: (unit, id) in review.sourceIds)
  {
    forall p ensures Known(packet.excerpts, p).Some? <==> exists e :: e in packet.excerpts && e.path == p {}
    forall i | 0 <= i < |review.sourceIds|
      ensures FreshUnit(rules, packet, review, review.sourceIds[i]) <==>
        CurrentUnit(rules, packet, review, review.sourceIds[i])
    {
      FreshUnitMeans(rules, packet, review, review.sourceIds[i]);
    }
    forall id ensures id in Ids(review) <==> exists unit :: (unit, id) in review.sourceIds {
      if unit :| (unit, id) in review.sourceIds {
        var i :| 0 <= i < |review.sourceIds| && review.sourceIds[i] == (unit, id);
      }
      if id in Ids(review) {
        var i :| 0 <= i < |review.sourceIds| && review.sourceIds[i].1 == id;
        assert (review.sourceIds[i].0, id) in review.sourceIds;
      }
    }
  }

  lemma FreshUnitMeans(rules: Rules, packet: Packet, review: Review, pair: (SourceUnit, string))
    ensures FreshUnit(rules, packet, review, pair) <==> CurrentUnit(rules, packet, review, pair)
  {
    var known := Known(packet.excerpts, pair.0.path);
    if known.Some? { GenuineQuotes(rules.split, known.value, pair.0); }
    if e :| LastOf(packet.excerpts, e) && Quotes(rules.split, e, pair.0) { KnownIsLast(packet.excerpts, e); }
  }

  method CheckReview(rules: Rules, packet: Packet, review: Review) returns (ok: bool)
    ensures ok <==> Fresh(rules, packet, review)
  {
    if review.scope != packet.scope || exists p :: p in review.excerptPaths && Known(packet.excerpts, p).None? {
      return false;
    }
    var expected: set<string> := {};
    for i := 0 to |review.sourceIds|
      invariant expected == set k | 0 <= k < i :: review.sourceIds[k].1
      invariant forall k :: 0 <= k < i ==> FreshUnit(rules, packet, review, review.sourceIds[k])
      invariant forall k, m :: 0 <= k < m < i ==> review.sourceIds[k].1 != review.sourceIds[m].1
    {
      var pair := review.sourceIds[i];
      if !FreshUnit(rules, packet, review, pair) { return false; }
      if pair.1 in expected {
        var k :| 0 <= k < i && review.sourceIds[k].1 == pair.1;
        assert review.sourceIds[k].1 == review.sourceIds[i].1;
        return false;
      }
      expected := expected + {pair.1};
    }
    assert expected == Ids(review);
    return forall id :: id in review.selectedIds ==> id in expected;
  }

  /** Replies come for planned requests and for nothing else. */
  predicate Matching(plan: Plan, reply: Reply) { plan.Ask? <==> !reply.Absent? }

  ghost predicate Aligned(rules: Rules, packet: Packet, reviews: seq<Review>, replies: seq<Reply>) {
    && |reviews| == |replies|
    && forall i ::
      0 <= i < |reviews| ==>
      && reviews[i].itemId in rules.catalog && Fresh(rules, packet, reviews[i])
      && (replies[i].Absent? <==> !reviews[i].plan.Ask?)
  }

  /** What one review's row and finding must be. */
  ghost predicate RowOk(rules: Rules, packet: Packet, review: Review, reply: Reply, row: Row, finding: Option<Finding>)
    requires review.itemId in rules.catalog
  {
    var entry := rules.catalog[review.itemId];
    match review.plan
    case Answered(answer) =>
      exists cs, missing ::
        Answers(rules, packet, entry, answer, cs, missing) && AnswerOk(entry, answer, cs, missing, row, finding)
    case Skip(reason) => Skipped(rules, packet, entry, reason, row) && finding == None
    case Ask => ReplyOk(rules, packet, review, entry, reply, row, finding)
  }

  /** The row of a review that needed no reply: the manifests speak for it. */
  ghost predicate Skipped(rules: Rules, packet: Packet, entry: Entry, reason: string, row: Row) {
    && row.id == entry.id && row.title == entry.title && row.status == NotApplicable && row.rationale == reason
    && exists places :: ListsManifests(rules, packet, packet.excerpts, row.evidence, places)
  }

  predicate AnswerOk(entry: Entry, answer: Answer, cs: seq<Citation>, missing: bool, row: Row,
                     finding: Option<Finding>) {
    && row.id == entry.id && row.title == entry.title
    && (if Uncitable(answer, cs, missing) then
          row.status == Unknown && row.evidence == [] && row.rationale ==
            "Answered by ptest: " + answer.reason + " (the ptest config is not in the review evidence)"
        else
          row.status == answer.status && row.evidence == cs && row.rationale == "Answered by ptest: " + answer.reason)
    && (if row.status == Gap then finding ==
      Some(Finding(entry.id, answer.findingSummary, answer.findingChange, None, cs)) else finding == None)
  }

  ghost predicate ReplyOk(rules: Rules, packet: Packet, review: Review, entry: Entry, reply: Reply, row: Row,
                          finding: Option<Finding>) {
    match reply
    case Absent => false
    case Failure(reason) => Failed(entry, reason, row) && finding == None
    case Payload(bytes) =>
      var d := rules.parse(bytes);
      if d.Some? && Acceptable(rules, packet, review, d.value)
      then Accepted(rules, packet, review, entry, d.value, row, finding)
      else Failed(entry, "invalid reply", row) && finding == None
  }

  lemma ManifestsCite(rules: Rules, packet: Packet, cs: seq<Citation>, places: seq<int>)
    requires FitPacket(rules, packet) && ListsManifests(rules, packet, packet.excerpts, cs, places)
    ensures AllCite(packet, cs)
  {
    forall i | 0 <= i < |cs| ensures Cites(packet, cs[i]) {
      assert packet.excerpts[places[i]] in packet.excerpts;
      assert CitesExcerpt(packet.excerpts[places[i]], cs[i]);
    }
  }

  lemma AnswersCite(rules: Rules, packet: Packet, entry: Entry, answer: Answer, cs: seq<Citation>, missing: bool)
    requires FitPacket(rules, packet) && Answers(rules, packet, entry, answer, cs, missing)
    ensures AllCite(packet, cs)
  {
    forall i | 0 <= i < |cs| ensures Cites(packet, cs[i]) {
      var e := Known(packet.excerpts, answer.evidencePaths[i]).value;
      NarrowedCites(rules, entry, answer.status, e, cs[i]);
      var k :| 0 <= k < |packet.excerpts| && packet.excerpts[k] == e;
      assert CitesExcerpt(packet.excerpts[k], cs[i]);
    }
  }

  /** Whatever the reply: the row is the review's own, it has a finding exactly when it is a gap, the finding
      has evidence, and every citation lies inside an admitted excerpt and carries its hash. */
  lemma RowCites(rules: Rules, packet: Packet, review: Review, reply: Reply, row: Row, finding: Option<Finding>)
    requires FitPacket(rules, packet) && review.itemId in rules.catalog
      && RowOk(rules, packet, review, reply, row, finding)
    ensures row.id == rules.catalog[review.itemId].id && AllCite(packet, row.evidence)
    ensures finding.Some? <==> row.status == Gap
    ensures finding.Some? ==>
      finding.value.id == row.id && finding.value.evidence != [] && AllCite(packet, finding.value.evidence)
  {
    var entry := rules.catalog[review.itemId];
    match review.plan
    case Answered(answer) =>
      var cs, missing :| Answers(rules, packet, entry, answer, cs, missing)
        && AnswerOk(entry, answer, cs, missing, row, finding);
      AnswersCite(rules, packet, entry, answer, cs, missing);
    case Skip(reason) =>
      var places :| ListsManifests(rules, packet, packet.excerpts, row.evidence, places);
      ManifestsCite(rules, packet, row.evidence, places);
    case Ask =>
      if reply.Payload? && rules.parse(reply.bytes).Some?
        && Acceptable(rules, packet, review, rules.parse(reply.bytes).value) {
        var d := rules.parse(reply.bytes).value;
        BoundCites(rules, packet, review, d.evidence.value, row.evidence);
        if d.status.value == Gap {
          BoundCites(rules, packet, review, d.finding.part.evidence.value, finding.value.evidence);
        }
      }
  }

  function CountOf(rows: seq<Row>, status: Status): (n: nat)
    ensures n <= |rows|
  {
    if rows == [] then 0 else CountOf(rows[..|rows| - 1], status) + if rows[|rows| - 1].status == status then 1 else 0
  }

  function With(rows: seq<Row>, status: Status): set<int> { set i | 0 <= i < |rows| && rows[i].status == status }

  lemma {:induction false} CountIs(rows: seq<Row>, status: Status)
    ensures CountOf(rows, status) == |With(rows, status)|
  {
    if rows != [] {
      var n := |rows| - 1;
      CountIs(rows[..n], status);
      assert With(rows, status) == With(rows[..n], status) + if rows[n].status == status then {n} else {};
    }
  }

  function Applicable(rows: seq<Row>): nat { |rows| - CountOf(rows, NotApplicable) }

  /** The rows that are not excused. */
  function ApplicableRows(rows: seq<Row>): set<int> { set i | 0 <= i < |rows| && rows[i].status != NotApplicable }

  lemma ApplicableIs(rows: seq<Row>)
    ensures Applicable(rows) == |ApplicableRows(rows)|
  {
    CountIs(rows, NotApplicable);
    assert ApplicableRows(rows) !! With(rows, NotApplicable)
      && ApplicableRows(rows) + With(rows, NotApplicable) == Below(|rows|);
  }

  function Below(n: nat): (r: set<int>)
    ensures |r| == n && forall i :: i in r <==> 0 <= i < n
  {
    if n == 0 then {} else Below(n - 1) + {n - 1}
  }

  /** The floor score over applicable rows. */
  function ScoreOf(rows: seq<Row>): Option<Score> {
    var applicable, satisfied := Applicable(rows), CountOf(rows, Satisfied);
    if applicable == 0 then None else Some(Score(satisfied, applicable, 100 * satisfied / applicable))
  }

  /** What a score says of the rows: how many are satisfied, out of how many that apply, and the floor of the
      percentage. */
  ghost predicate Scores(rows: seq<Row>, score: Option<Score>) {
    var applicable := set i | 0 <= i < |rows| && rows[i].status != NotApplicable;
    var satisfied := set i | 0 <= i < |rows| && rows[i].status == Satisfied;
    match score
    case None => applicable == {}
    case Some(s) =>
      && s.applicable == |applicable| > 0 && s.satisfied == |satisfied|
      && s.percent * |applicable| <= 100 * |satisfied| < (s.percent + 1) * |applicable|
  }

  lemma ScoreCounts(rows: seq<Row>)
    ensures Scores(rows, ScoreOf(rows))
  {
    CountIs(rows, Satisfied);
    ApplicableIs(rows);
    if Applicable(rows) > 0 { FloorFacts(100 * CountOf(rows, Satisfied), Applicable(rows)); }
  }

  lemma ScoreBounds(rows: seq<Row>, score: Score)
    requires Scores(rows, Some(score))
    ensures score.satisfied <= score.applicable && score.percent <= 100
    ensures score.percent == 100 <==> score.satisfied == score.applicable
    ensures score.percent == 100 <==> forall i :: 0 <= i < |rows| ==> rows[i].status in {Satisfied, NotApplicable}
  {
    var a, b := With(rows, Satisfied), ApplicableRows(rows);
    assert b == a + (b - a);
    PercentFacts(score.percent, |a|, |b|);
    if a == b {
      forall i | 0 <= i < |rows| ensures rows[i].status in {Satisfied, NotApplicable} {
        assert i in b <==> i in a;
      }
    } else {
      var i :| i in b - a;
      assert rows[i].status !in {Satisfied, NotApplicable};
    }
  }

  lemma PercentFacts(percent: nat, a: nat, b: nat)
    requires a <= b && b > 0 && percent * b <= 100 * a < (percent + 1) * b
    ensures percent <= 100 && (percent == 100 <==> a == b)
  {
    assert percent > 100 ==> percent * b >= 101 * b;
    assert percent < 100 ==> (percent + 1) * b <= 100 * b;
  }

  lemma FloorFacts(a: nat, b: nat)
    requires b > 0
    ensures a / b * b <= a < (a / b + 1) * b
    ensures a <= 100 * b ==> a / b <= 100
  {
    assert a == a / b * b + a % b;
  }

  datatype Outcome = Assembled(rows: seq<Row>, findings: seq<Finding>, score: Option<Score>) | BadInput | Stale

  /** The findings are the parts that are there, in order: the k-th is the one at places[k]. */
  ghost predicate InOrder(parts: seq<Option<Finding>>, findings: seq<Finding>, places: seq<int>) {
    && |places| == |findings|
    && (forall i, j {:trigger places[i], places[j]} :: 0 <= i < j < |places| ==> places[i] < places[j])
    && (forall k :: 0 <= k < |parts| ==> (parts[k].Some? <==> k in places))
    && forall i :: 0 <= i < |places| ==> 0 <= places[i] < |parts| && parts[places[i]] == Some(findings[i])
  }

  /** Rows and findings for the first n reviews: `parts` holds the finding of each row, if it has one. */
  ghost predicate Built(rules: Rules, packet: Packet, reviews: seq<Review>, replies: seq<Reply>, rows: seq<Row>,
                        findings: seq<Finding>, parts: seq<Option<Finding>>, places: seq<int>) {
    && |parts| == |rows| <= |reviews| == |replies|
    && (forall i :: 0 <= i < |rows| ==> RowDone(rules, packet, reviews[i], replies[i], rows[i], parts[i]))
    && InOrder(parts, findings, places)
  }

  ghost predicate RowDone(rules: Rules, packet: Packet, review: Review, reply: Reply, row: Row,
                          finding: Option<Finding>) {
    review.itemId in rules.catalog && Matching(review.plan, reply) && RowOk(rules, packet, review, reply, row, finding)
  }

  /** Every citation lies inside an admitted excerpt, and every finding has one and is that of its gap row. */
  ghost predicate Evidenced(packet: Packet, rows: seq<Row>, findings: seq<Finding>, places: seq<int>) {
    && |places| == |findings|
    && (forall i :: 0 <= i < |rows| ==> AllCite(packet, rows[i].evidence))
    && (forall k :: 0 <= k < |rows| ==> (rows[k].status == Gap <==> k in places))
    && forall i :: 0 <= i < |findings| ==>
      0 <= places[i] < |rows| && findings[i].id == rows[places[i]].id
        && findings[i].evidence != [] && AllCite(packet, findings[i].evidence)
  }

  /** Over admitted excerpts everything built has its evidence. */
  lemma BuiltEvidenced(rules: Rules, packet: Packet, reviews: seq<Review>, replies: seq<Reply>, rows: seq<Row>,
                       findings: seq<Finding>, parts: seq<Option<Finding>>, places: seq<int>)
    requires FitPacket(rules, packet) && Built(rules, packet, reviews, replies, rows, findings, parts, places)
    ensures Evidenced(packet, rows, findings, places)
  {
    forall i | 0 <= i < |rows|
      ensures AllCite(packet, rows[i].evidence) && (rows[i].status == Gap <==> i in places)
      ensures parts[i].Some? ==>
        parts[i].value.id == rows[i].id && parts[i].value.evidence != [] && AllCite(packet, parts[i].value.evidence)
    {
      assert RowDone(rules, packet, reviews[i], replies[i], rows[i], parts[i]);
      RowCites(rules, packet, reviews[i], replies[i], rows[i], parts[i]);
    }
  }

  lemma BuiltStep(rules: Rules, packet: Packet, reviews: seq<Review>, replies: seq<Reply>, rows: seq<Row>,
                  findings: seq<Finding>, parts: seq<Option<Finding>>, places: seq<int>, row: Row,
                  finding: Option<Finding>)
    requires Built(rules, packet, reviews, replies, rows, findings, parts, places) && |rows| < |reviews|
    requires RowDone(rules, packet, reviews[|rows|], replies[|rows|], row, finding)
    ensures Built(rules, packet, reviews, replies, rows + [row],
      if finding.Some? then findings + [finding.value] else findings, parts + [finding],
      if finding.Some? then places + [|rows|] else places)
  {
    InOrderStep(parts, findings, places, finding);
    var now, there := rows + [row], parts + [finding];
    forall i | 0 <= i < |now| ensures RowDone(rules, packet, reviews[i], replies[i], now[i], there[i]) {
      if i < |rows| { assert now[i] == rows[i] && there[i] == parts[i]; }
    }
  }

  lemma InOrderStep(parts: seq<Option<Finding>>, findings: seq<Finding>, places: seq<int>, finding: Option<Finding>)
    requires InOrder(parts, findings, places)
    ensures InOrder(parts + [finding], if finding.Some? then findings + [finding.value] else findings,
      if finding.Some? then places + [|parts|] else places)
  {
    if finding.Some? {
      var more := places + [|parts|];
      assert forall k :: k in more <==> k in places || k == |parts|;
    }
  }

  method RowFor(rules: Rules, packet: Packet, review: Review, reply: Reply) returns (row: Row, finding: Option<Finding>)
    requires review.itemId in rules.catalog && Matching(review.plan, reply)
    ensures RowOk(rules, packet, review, reply, row, finding)
  {
    var entry := rules.catalog[review.itemId];
    match review.plan {
      case Answered(answer) =>
        ghost var cs, missing;
        row, finding, cs, missing := AnswerChildRow(rules, packet, entry, answer);
        assert AnswerOk(entry, answer, cs, missing, row, finding);
      case Skip(reason) =>
        row, finding := SkipRow(rules, packet, entry, reason), None;
        var places := ManifestsListed(rules, packet, packet.excerpts);
      case Ask =>
        if reply.Failure? {
          row, finding := FailedRow(entry, reply.reason), None;
        } else {
          var valid := ValidateOneRow(rules, packet, review, entry, reply.bytes);
          if valid.Some? {
            row, finding := valid.value.0, valid.value.1;
          } else {
            row, finding := FailedRow(entry, "invalid reply"), None;
          }
        }
    }
  }

  /** Whether a review ends as not applicable: skipped, answered so with every named file in the packet, or
      so by an acceptable reply. */
  predicate NotApplies(rules: Rules, packet: Packet, review: Review, reply: Reply) {
    match review.plan
    case Skip(_) => true
    case Answered(answer) =>
      && answer.status == NotApplicable && answer.evidencePaths != []
      && forall i :: 0 <= i < |answer.evidencePaths| ==> Known(packet.excerpts, answer.evidencePaths[i]).Some?
    case Ask =>
      && reply.Payload? && rules.parse(reply.bytes).Some?
      && Acceptable(rules, packet, review, rules.parse(reply.bytes).value)
      && rules.parse(reply.bytes).value.status == Some(NotApplicable)
  }

  /** The reviews that end as applicable. */
  function ApplicableReviews(rules: Rules, packet: Packet, reviews: seq<Review>, replies: seq<Reply>): set<int>
    requires |reviews| == |replies|
  {
    set i | 0 <= i < |reviews| && !NotApplies(rules, packet, reviews[i], replies[i])
  }

  /** The row of a review is not applicable exactly when the review ends so. */
  lemma RowApplies(rules: Rules, packet: Packet, review: Review, reply: Reply, row: Row, finding: Option<Finding>)
    requires review.itemId in rules.catalog && RowOk(rules, packet, review, reply, row, finding)
    ensures row.status == NotApplicable <==> NotApplies(rules, packet, review, reply)
  {
    if review.plan.Answered? {
      var answer := review.plan.answer;
      var cs, missing :| Answers(rules, packet, rules.catalog[review.itemId], answer, cs, missing)
        && AnswerOk(rules.catalog[review.itemId], answer, cs, missing, row, finding);
    }
  }

  lemma RowsApply(rules: Rules, packet: Packet, reviews: seq<Review>, replies: seq<Reply>, rows: seq<Row>,
                  findings: seq<Finding>, parts: seq<Option<Finding>>, places: seq<int>)
    requires Built(rules, packet, reviews, replies, rows, findings, parts, places) && |rows| == |reviews|
    ensures Applicable(rows) == |ApplicableReviews(rules, packet, reviews, replies)|
  {
    ApplicableIs(rows);
    forall i | 0 <= i < |rows|
      ensures rows[i].status == NotApplicable <==> NotApplies(rules, packet, reviews[i], replies[i])
    {
      assert RowDone(rules, packet, reviews[i], replies[i], rows[i], parts[i]);
      RowApplies(rules, packet, reviews[i], replies[i], rows[i], parts[i]);
    }
    assert ApplicableRows(rows) == ApplicableReviews(rules, packet, reviews, replies);
  }

  /** What the rows of all reviews come to. */
  lemma RowsFinish(rules: Rules, packet: Packet, reviews: seq<Review>, replies: seq<Reply>, rows: seq<Row>,
                   findings: seq<Finding>, parts: seq<Option<Finding>>, places: seq<int>)
    requires Built(rules, packet, reviews, replies, rows, findings, parts, places) && |rows| == |reviews|
    ensures Applicable(rows) == |ApplicableReviews(rules, packet, reviews, replies)|
    ensures FitPacket(rules, packet) ==> Evidenced(packet, rows, findings, places)
    ensures Scores(rows, ScoreOf(rows))
  {
    RowsApply(rules, packet, reviews, replies, rows, findings, parts, places);
    if FitPacket(rules, packet) {
      BuiltEvidenced(rules, packet, reviews, replies, rows, findings, parts, places);
    }
    ScoreCounts(rows);
  }

  /** The first review that is not fine is one of a checklist item that has gone stale. */
  ghost predicate GoesStale(rules: Rules, packet: Packet, reviews: seq<Review>, i: nat) {
    && i < |reviews| && reviews[i].itemId in rules.catalog && !Fresh(rules, packet, reviews[i])
    && forall k :: 0 <= k < i ==> reviews[k].itemId in rules.catalog && Fresh(rules, packet, reviews[k])
  }

  /** The reviews in order, up to the first that is not fine. */
  method CheckReviews(rules: Rules, packet: Packet, reviews: seq<Review>) returns (r: Option<Outcome>)
    ensures r.None? <==>
      forall k :: 0 <= k < |reviews| ==> reviews[k].itemId in rules.catalog && Fresh(rules, packet, reviews[k])
    ensures r.Some? ==> r.value == Stale || r.value == BadInput
    ensures r == Some(Stale) <==> exists i :: GoesStale(rules, packet, reviews, i)
  {
    for i := 0 to |reviews|
      invariant forall k :: 0 <= k < i ==> reviews[k].itemId in rules.catalog && Fresh(rules, packet, reviews[k])
    {
      if reviews[i].itemId !in rules.catalog { return Some(BadInput); }
      var current := CheckReview(rules, packet, reviews[i]);
      if !current {
        assert GoesStale(rules, packet, reviews, i);
        return Some(Stale);
      }
    }
    return None;
  }

  /** One row per review, unless some reply does not fit its plan. */
  method BuildRows(rules: Rules, packet: Packet, reviews: seq<Review>, replies: seq<Reply>)
    returns (ok: bool, rows: seq<Row>, findings: seq<Finding>, ghost parts: seq<Option<Finding>>,
             ghost places: seq<int>)
    requires |reviews| == |replies| && forall i :: 0 <= i < |reviews| ==> reviews[i].itemId in rules.catalog
    ensures ok <==> forall i :: 0 <= i < |reviews| ==> Matching(reviews[i].plan, replies[i])
    ensures ok ==> |rows| == |reviews| && Built(rules, packet, reviews, replies, rows, findings, parts, places)
  {
    rows, findings, parts, places := [], [], [], [];
    for i := 0 to |reviews|
      invariant |rows| == i && Built(rules, packet, reviews, replies, rows, findings, parts, places)
      invariant forall k :: 0 <= k < i ==> Matching(reviews[k].plan, replies[k])
    {
      if !Matching(reviews[i].plan, replies[i]) { return false, rows, findings, parts, places; }
      var row, finding := RowFor(rules, packet, reviews[i], replies[i]);
      BuiltStep(rules, packet, reviews, replies, rows, findings, parts, places, row, finding);
      if finding.Some? { places := places + [|rows|]; }
      rows, parts := rows + [row], parts + [finding];
      findings := if finding.Some? then findings + [finding.value] else findings;
    }
    ok := true;
  }

  /** `assemble_child`. It succeeds exactly on aligned, fresh input of which no more reviews are applicable than
      the checklist has items; then every reply, whatever its bytes, becomes one row. */
  method AssembleChild(rules: Rules, packet: Packet, reviews: seq<Review>, replies: seq<Reply>)
    returns (r: Outcome, ghost parts: seq<Option<Finding>>, ghost places: seq<int>)
    ensures r.Assembled? <==>
      Aligned(rules, packet, reviews, replies)
        && |ApplicableReviews(rules, packet, reviews, replies)| <= |rules.catalog|
    ensures r.Assembled? ==>
      |r.rows| == |reviews| && Built(rules, packet, reviews, replies, r.rows, r.findings, parts, places)
      && (FitPacket(rules, packet) ==> Evidenced(packet, r.rows, r.findings, places))
    ensures r.Assembled? ==> Scores(r.rows, r.score)
    ensures r.Stale? <==> |reviews| == |replies| && exists i :: GoesStale(rules, packet, reviews, i)
  {
    parts, places := [], [];
    if |reviews| != |replies| { return BadInput, parts, places; }
    var trouble := CheckReviews(rules, packet, reviews);
    if trouble.Some? { return trouble.value, parts, places; }
    var ok, rows, findings;
    ok, rows, findings, parts, places := BuildRows(rules, packet, reviews, replies);
    if !ok { return BadInput, parts, places; }
    RowsFinish(rules, packet, reviews, replies, rows, findings, parts, places);
    if Applicable(rows) > |rules.catalog| { return BadInput, parts, places; }
    r := Assembled(rows, findings, ScoreOf(rows));
  }

  /** Two reviews of the only checklist item, both failed: aligned and fresh, and yet not assembled. */
  method RepeatedItemIsRefused(rules: Rules, packet: Packet, id: string, reason: string) returns (r: Outcome)
    requires rules.catalog.Keys == {id}
    ensures var review := Review(id, packet.scope, Ask, [], [], [], false);
      Aligned(rules, packet, [review, review], [Failure(reason), Failure(reason)])
    ensures !r.Assembled?
  {
    var review := Review(id, packet.scope, Ask, [], [], [], false);
    var reviews, replies := [review, review], [Failure(reason), Failure(reason)];
    assert |rules.catalog| == |rules.catalog.Keys| == 1;
    assert ApplicableReviews(rules, packet, reviews, replies) == {0, 1};
    ghost var parts, places;
    r, parts, places := AssembleChild(rules, packet, reviews, replies);
  }
}

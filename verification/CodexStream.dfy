/** The Codex event-stream automaton (`_normalize_codex` in src/ptest/agent_providers.py).

JSON decoding is outside the model: a nonblank output line arrives as `NotJson` or as the part of
the decoded value the automaton looks at. A decoded text is a sequence of code points: JSON escapes can
put a lone surrogate into it, which no UTF-8 encoder accepts. */
module CodexStream {

  import opened Basics
  import opened Utf8

  type CodePoint = c: int | 0 <= c < 0x110000
  type Text = seq<CodePoint>

  predicate Surrogate(c: CodePoint) { 0xD800 <= c < 0xE000 }

  predicate Encodable(text: Text) { forall i :: 0 <= i < |text| ==> !Surrogate(text[i]) }

  function Scalars(text: Text): seq<Scalar>
    requires Encodable(text)
  {
    seq(|text|, i requires 0 <= i < |text| => text[i])
  }

  /** `Item(kind, text)`: a decoded item object with a string type; `text` is None unless a string. */
  datatype Item = NoItem | Item(kind: string, text: Option<Text>)

  datatype Line = NotJson | NotEvent | Event(kind: string, item: Item)

  /** `Raised`: the encoder's error, which nothing on this path catches. */
  datatype Verdict = Accepted(message: Bytes) | Rejected(error: string) | Raised

  const INVALID := "invalid-assessment"
  const FAILED := "provider-failed"
  const TOOL := "tool-attempt"

  const STARTED := "turn.started"
  const COMPLETED := "turn.completed"
  const MESSAGE := "agent_message"

  const ALLOWED_EVENTS: set<string> := {
    "thread.started", "turn.started", "item.started", "item.updated", "item.completed", "turn.completed"
  }
  const ITEM_EVENTS: set<string> := {"item.started", "item.updated", "item.completed"}
  const FAILURE_EVENTS: set<string> := {"turn.failed", "error"}
  const ALLOWED_ITEMS: set<string> := {"agent_message", "reasoning", "error"}

  predicate IsKind(line: Line, kind: string) { line.Event? && line.kind == kind }

  /** A completed agent message. */
  predicate Carries(line: Line) {
    line.Event? && line.kind == "item.completed" && line.item.Item? && line.item.kind == MESSAGE
  }

  predicate ItemOk(line: Line)
    requires line.Event?
  {
    line.kind in ITEM_EVENTS ==>
      line.item.Item? && line.item.kind in ALLOWED_ITEMS && (Carries(line) ==> line.item.text.Some?)
  }

  /** Line k is acceptable where it stands: allowed, not after the turn completed, and not a second start. */
  ghost predicate FitsAt(lines: seq<Line>, k: nat)
    requires k < |lines|
  {
    && lines[k].Event? && lines[k].kind in ALLOWED_EVENTS && ItemOk(lines[k])
    && (forall i :: 0 <= i < k ==> !IsKind(lines[i], COMPLETED))
    && (lines[k].kind == STARTED ==> forall i :: 0 <= i < k ==> !IsKind(lines[i], STARTED))
  }

  /** Every event and item type is allowed, at most one turn starts, exactly one turn completes and it
      is the last event, every completed message has text, and the last one is nonempty. */
  ghost predicate GoodStream(lines: seq<Line>) {
    && (forall k :: 0 <= k < |lines| ==> lines[k].Event? && lines[k].kind in ALLOWED_EVENTS && ItemOk(lines[k]))
    && TurnShape(lines)
    && exists k: nat :: IsLastMessage(lines, k) && lines[k].item.text.value != []
  }

  /** k is the last completed agent message, and it has text. */
  ghost predicate IsLastMessage(lines: seq<Line>, k: nat) {
    && k < |lines| && Carries(lines[k]) && lines[k].item.text.Some?
    && forall i :: k < i < |lines| ==> !Carries(lines[i])
  }

  /** The error of the first line that does not fit. */
  ghost function ReasonAt(lines: seq<Line>, k: nat): string
    requires k < |lines|
  {
    if lines[k].Event? && lines[k].kind in FAILURE_EVENTS then FAILED
    else if && lines[k].Event? && lines[k].kind in ITEM_EVENTS && lines[k].item.Item?
            && lines[k].item.kind !in ALLOWED_ITEMS && (forall i :: 0 <= i < k ==> !IsKind(lines[i], COMPLETED))
              then TOOL
    else INVALID
  }

  ghost predicate FirstMisfit(lines: seq<Line>, k: nat) {
    k < |lines| && !FitsAt(lines, k) && forall i :: 0 <= i < k ==> FitsAt(lines, i)
  }

  /** No two lines start a turn, and the completion is the last line. */
  ghost predicate TurnShape(lines: seq<Line>) {
    && (forall i, k :: 0 <= i < k < |lines| ==> !(IsKind(lines[i], STARTED) && IsKind(lines[k], STARTED)))
    && lines != [] && IsKind(lines[|lines| - 1], COMPLETED)
    && (forall k :: 0 <= k < |lines| - 1 ==> !IsKind(lines[k], COMPLETED))
  }

  lemma FitsGiveShape(lines: seq<Line>)
    requires forall k :: 0 <= k < |lines| ==> FitsAt(lines, k)
    requires exists k :: 0 <= k < |lines| && IsKind(lines[k], COMPLETED)
    ensures TurnShape(lines)
  {
    var c :| 0 <= c < |lines| && IsKind(lines[c], COMPLETED);
    assert FitsAt(lines, |lines| - 1);
    assert c == |lines| - 1;
    forall i, k | 0 <= i < k < |lines|
      ensures !(IsKind(lines[i], STARTED) && IsKind(lines[k], STARTED))
    {
      assert FitsAt(lines, k);
    }
  }

  lemma ShapeGivesFits(lines: seq<Line>, k: nat)
    requires TurnShape(lines) && k < |lines|
    requires lines[k].Event? && lines[k].kind in ALLOWED_EVENTS && ItemOk(lines[k])
    ensures FitsAt(lines, k)
  {
    forall i | 0 <= i < k ensures lines[k].kind == STARTED ==> !IsKind(lines[i], STARTED) {
      assert !(IsKind(lines[i], STARTED) && IsKind(lines[k], STARTED));
    }
  }

  /** A stream is good exactly when every line fits, a turn completed and the last message is nonempty. */
  lemma GoodMeansFits(lines: seq<Line>)
    ensures GoodStream(lines) <==>
      && (forall k :: 0 <= k < |lines| ==> FitsAt(lines, k))
      && (exists k :: 0 <= k < |lines| && IsKind(lines[k], COMPLETED))
      && (exists k: nat :: IsLastMessage(lines, k) && lines[k].item.text.value != [])
  {
    if (forall k :: 0 <= k < |lines| ==> FitsAt(lines, k))
      && exists k :: 0 <= k < |lines| && IsKind(lines[k], COMPLETED) {
      FitsGiveShape(lines);
      forall k | 0 <= k < |lines|
        ensures lines[k].Event? && lines[k].kind in ALLOWED_EVENTS && ItemOk(lines[k])
      {
        assert FitsAt(lines, k);
      }
    }
    if GoodStream(lines) {
      forall k | 0 <= k < |lines| ensures FitsAt(lines, k) { ShapeGivesFits(lines, k); }
    }
  }

  /** There is only one first misfit, and a stream with one is not good. */
  lemma MisfitDecides(lines: seq<Line>, n: nat)
    requires FirstMisfit(lines, n)
    ensures !GoodStream(lines)
    ensures forall k: nat :: FirstMisfit(lines, k) ==> k == n
  {
    GoodMeansFits(lines);
  }

  /** A good stream has one last message. */
  lemma OneLastMessage(lines: seq<Line>, j: nat, k: nat)
    requires IsLastMessage(lines, j) && IsLastMessage(lines, k)
    ensures j == k
  {
  }

  /** Accepts a good stream whose last message can be encoded, with that message's UTF-8 bytes; raises exactly on
      a good stream whose last message holds a surrogate; rejects every other stream, and the first misfit names
      the error. Lines that are not JSON are refused before any event is looked at. */
  method NormalizeCodex(lines: seq<Line>) returns (verdict: Verdict)
    ensures verdict.Rejected? <==> !GoodStream(lines)
    ensures verdict.Accepted? <==>
      GoodStream(lines) && exists k: nat :: IsLastMessage(lines, k) && Encodable(lines[k].item.text.value)
    ensures verdict.Raised? <==>
      GoodStream(lines) && exists k: nat :: IsLastMessage(lines, k) && !Encodable(lines[k].item.text.value)
    ensures verdict.Accepted? ==> forall k: nat :: IsLastMessage(lines, k) ==>
      Encodable(lines[k].item.text.value) && verdict.message == Encode(Scalars(lines[k].item.text.value))
    ensures NotJson in lines ==> verdict == Rejected(INVALID)
    ensures NotJson !in lines ==> forall k: nat :: FirstMisfit(lines, k) ==> verdict == Rejected(ReasonAt(lines, k))
    ensures verdict.Rejected? && (forall k :: 0 <= k < |lines| ==> FitsAt(lines, k)) ==> verdict.error == INVALID
  {
    GoodMeansFits(lines);
    if NotJson in lines { return Rejected(INVALID); }
    var completedTurns := 0;
    var started := false;
    var lastMessage: Option<Text> := None;
    ghost var last := 0;
    for n := 0 to |lines|
      invariant forall i :: 0 <= i < n ==> FitsAt(lines, i)
      invariant completedTurns > 0 <==> exists i :: 0 <= i < n && IsKind(lines[i], COMPLETED)
      invariant completedTurns <= 1
      invariant started <==> exists i :: 0 <= i < n && IsKind(lines[i], STARTED)
      invariant lastMessage.None? ==> forall i :: 0 <= i < n ==> !Carries(lines[i])
      invariant lastMessage.Some? ==>
        last < n && IsLastMessage(lines[..n], last) && lines[last].item.text == lastMessage
    {
      var event := lines[n];
      if !FitsAt(lines, n) { MisfitDecides(lines, n); }
      if !event.Event? {
        return Rejected(INVALID);
      }
      if event.kind in FAILURE_EVENTS {
        return Rejected(FAILED);
      }
      if event.kind !in ALLOWED_EVENTS {
        return Rejected(INVALID);
      }
      if completedTurns > 0 {
        return Rejected(INVALID);
      }
      if event.kind == STARTED {
        if started {
          return Rejected(INVALID);
        }
        started := true;
      } else if event.kind == COMPLETED {
        completedTurns := completedTurns + 1;
      } else if event.kind in ITEM_EVENTS {
        if event.item.NoItem? {
          return Rejected(INVALID);
        }
        if event.item.kind !in ALLOWED_ITEMS {
          return Rejected(TOOL);
        }
        if event.kind == "item.completed" && event.item.kind == MESSAGE {
          if event.item.text.None? {
            return Rejected(INVALID);
          }
          lastMessage := event.item.text;
          last := n;
        }
      }
    }
    assert lines[..|lines|] == lines;
    if completedTurns != 1 {
      return Rejected(INVALID);
    }
    if lastMessage.None? || lastMessage.value == [] {
      return Rejected(INVALID);
    }
    assert IsLastMessage(lines, last);
    forall k: nat | IsLastMessage(lines, k) ensures k == last { OneLastMessage(lines, k, last); }
    if !Encodable(lastMessage.value) { return Raised; }
    return Accepted(Encode(Scalars(lastMessage.value)));
  }

  /** Such a stream exists: one message consisting of a lone surrogate. */
  method SurrogateRaises() returns (lines: seq<Line>, verdict: Verdict)
    ensures GoodStream(lines) && verdict == Raised
  {
    lines := [Event("item.completed", Item(MESSAGE, Some([0xD800]))), Event(COMPLETED, NoItem)];
    assert IsLastMessage(lines, 0) && !Encodable([0xD800]) by { assert Surrogate([0xD800][0]); }
    verdict := NormalizeCodex(lines);
  }
}

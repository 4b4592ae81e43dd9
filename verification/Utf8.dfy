/** UTF-8 as section 3 of RFC 3629 defines it, and cutting a byte string without splitting a character
(src/ptest/agent_assessment.py:649-660). */
module Utf8 {
  import opened Basics

  type Byte = b: int | 0 <= b < 256
  type Bytes = seq<Byte>

  /** A Unicode scalar value: any code point but the surrogates. */
  type Scalar = c: int | 0 <= c < 0x110000 && !(0xD800 <= c < 0xE000)

  predicate Tail(b: Byte) { 0x80 <= b < 0xC0 }

  /** The second byte's range after a three- or four-byte lead, which rules out overlong forms, surrogates
      and values beyond the last code point. */
  predicate Second(lead: Byte, b: Byte) {
    Tail(b) && (lead == 0xE0 ==> b >= 0xA0) && (lead == 0xED ==> b < 0xA0) && (lead == 0xF0 ==> b >= 0x90)
      && (lead == 0xF4 ==> b < 0x90)
  }

  function Width(lead: Byte): nat {
    if lead < 0x80 then 1
    else if 0xC2 <= lead < 0xE0 then 2
    else if 0xE0 <= lead < 0xF0 then 3
    else if 0xF0 <= lead < 0xF5 then 4
    else 0
  }

  /** The length of the well-formed sequence b starts with; 0 if there is none. */
  function HeadLength(b: Bytes): (n: nat)
    ensures n <= |b| && n <= 4
  {
    if b == [] then 0
    else
      var n := Width(b[0]);
      if n > |b| then 0
      else if n >= 2 && !Second(b[0], b[1]) then 0
      else if n >= 3 && !Tail(b[2]) then 0
      else if n == 4 && !Tail(b[3]) then 0
      else n
  }

  /** What a strict decoder accepts. */
  predicate Valid(b: Bytes) {
    b == [] || (HeadLength(b) > 0 && Valid(b[HeadLength(b)..]))
  }

  // The definition by bit distribution.

  function EncodeScalar(c: Scalar): (b: Bytes)
    ensures 1 <= |b| <= 4
  {
    if c < 0x80 then [c]
    else if c < 0x800 then [0xC0 + c / 64, 0x80 + c % 64]
    else if c < 0x10000 then [0xE0 + c / 4096, 0x80 + c / 64 % 64, 0x80 + c % 64]
    else [0xF0 + c / 262144, 0x80 + c / 4096 % 64, 0x80 + c / 64 % 64, 0x80 + c % 64]
  }

  function Encode(text: seq<Scalar>): Bytes {
    if text == [] then [] else EncodeScalar(text[0]) + Encode(text[1..])
  }

  lemma EncodedHead(c: Scalar, rest: Bytes)
    ensures HeadLength(EncodeScalar(c) + rest) == |EncodeScalar(c)|
  {
    if 0x800 <= c < 0x10000 {
      assert c / 4096 == 0 ==> c / 64 % 64 >= 32;
      assert c / 4096 == 13 ==> c / 64 % 64 < 32;
    } else if c >= 0x10000 {
      assert c / 262144 == 0 ==> c / 4096 % 64 >= 16;
      assert c / 262144 == 4 ==> c / 4096 % 64 < 16;
    }
  }

  /** Every encoded text is accepted. */
  lemma {:induction false} EncodedIsValid(text: seq<Scalar>)
    ensures Valid(Encode(text))
  {
    if text != [] {
      var head, rest := EncodeScalar(text[0]), Encode(text[1..]);
      EncodedHead(text[0], rest);
      EncodedIsValid(text[1..]);
      assert (head + rest)[|head|..] == rest;
    }
  }

  lemma HeadDecodes(b: Bytes) returns (c: Scalar)
    requires HeadLength(b) > 0
    ensures EncodeScalar(c) == b[..HeadLength(b)]
  {
    var n := HeadLength(b);
    var w: int := b[0];
    if n == 1 {
      c := w;
    } else if n == 2 {
      var x: int := b[1];
      c := (w - 0xC0) * 64 + (x - 0x80);
    } else if n == 3 {
      var x: int, y: int := b[1], b[2];
      ThreeBytes(w, x, y);
      c := (w - 0xE0) * 4096 + (x - 0x80) * 64 + (y - 0x80);
    } else {
      var x: int, y: int, z: int := b[1], b[2], b[3];
      FourBytes(w, x, y, z);
      c := (w - 0xF0) * 262144 + (x - 0x80) * 4096 + (y - 0x80) * 64 + (z - 0x80);
    }
  }

  /** The code point of a well-formed sequence: the lead's low bits, then six from each byte behind it. */
  function CodePointAt(b: Bytes): int
    requires HeadLength(b) > 0
  {
    var w: int := b[0];
    match HeadLength(b)
    case 1 => w
    case 2 => (w - 0xC0) * 64 + (b[1] - 0x80)
    case 3 => ((w - 0xE0) * 64 + (b[1] - 0x80)) * 64 + (b[2] - 0x80)
    case _ => (((w - 0xF0) * 64 + (b[1] - 0x80)) * 64 + (b[2] - 0x80)) * 64 + (b[3] - 0x80)
  }

  function Decode(b: Bytes): seq<int>
    requires Valid(b)
  {
    if b == [] then [] else [CodePointAt(b)] + Decode(b[HeadLength(b)..])
  }

  lemma Digits(c: nat)
    ensures c == c / 64 * 64 + c % 64
    ensures c / 64 == c / 4096 * 64 + c / 64 % 64
    ensures c / 4096 == c / 262144 * 64 + c / 4096 % 64
  {
    assert c / 64 / 64 == c / 4096 && c / 4096 / 64 == c / 262144;
  }

  lemma ScalarDecodes(c: Scalar, rest: Bytes)
    ensures HeadLength(EncodeScalar(c) + rest) > 0 && CodePointAt(EncodeScalar(c) + rest) == c
  {
    EncodedHead(c, rest);
    Digits(c);
    var head := EncodeScalar(c);
    var b := head + rest;
    assert forall i :: 0 <= i < |head| ==> b[i] == head[i];
  }

  /** Decoding an encoded text gives the text back. */
  lemma {:induction false} DecodeEncode(text: seq<Scalar>)
    ensures Valid(Encode(text)) && Decode(Encode(text)) == text
  {
    EncodedIsValid(text);
    if text != [] {
      var head, rest := EncodeScalar(text[0]), Encode(text[1..]);
      EncodedHead(text[0], rest);
      ScalarDecodes(text[0], rest);
      DecodeEncode(text[1..]);
      assert (head + rest)[|head|..] == rest;
    }
  }

  lemma ThreeBytes(x: int, y: int, z: int)
    requires 0xE0 <= x < 0xF0 && 0x80 <= y < 0xC0 && 0x80 <= z < 0xC0
    ensures var c := (x - 0xE0) * 4096 + (y - 0x80) * 64 + (z - 0x80);
      c / 4096 == x - 0xE0 && c / 64 % 64 == y - 0x80 && c % 64 == z - 0x80
  {
    var c := (x - 0xE0) * 4096 + (y - 0x80) * 64 + (z - 0x80);
    assert c / 64 == (x - 0xE0) * 64 + (y - 0x80);
  }

  lemma FourBytes(w: int, x: int, y: int, z: int)
    requires 0xF0 <= w < 0xF5 && 0x80 <= x < 0xC0 && 0x80 <= y < 0xC0 && 0x80 <= z < 0xC0
    ensures var c := (w - 0xF0) * 262144 + (x - 0x80) * 4096 + (y - 0x80) * 64 + (z - 0x80);
      c / 262144 == w - 0xF0 && c / 4096 % 64 == x - 0x80 && c / 64 % 64 == y - 0x80 && c % 64 == z - 0x80
  {
    var c := (w - 0xF0) * 262144 + (x - 0x80) * 4096 + (y - 0x80) * 64 + (z - 0x80);
    assert c / 64 == (w - 0xF0) * 4096 + (x - 0x80) * 64 + (y - 0x80);
    assert c / 4096 == (w - 0xF0) * 64 + (x - 0x80);
  }

  /** Every accepted string is the encoding of some text, so decoding and encoding again gives it back. */
  lemma {:induction false} ValidIsEncoded(b: Bytes) returns (text: seq<Scalar>)
    requires Valid(b)
    ensures Encode(text) == b
  {
    if b == [] {
      text := [];
    } else {
      var n := HeadLength(b);
      var c := HeadDecodes(b);
      var rest := ValidIsEncoded(b[n..]);
      text := [c] + rest;
      assert text[1..] == rest;
      assert b == b[..n] + b[n..];
    }
  }

  // Cutting.

  lemma HeadExtends(b: Bytes, c: Bytes)
    requires HeadLength(b) > 0
    ensures HeadLength(b + c) == HeadLength(b)
  {
    assert forall i :: 0 <= i < |b| ==> (b + c)[i] == b[i];
  }

  lemma HeadThenRest(b: Bytes, n: nat)
    requires n == HeadLength(b) > 0 && Valid(b[n..])
    ensures Valid(b)
  {
  }

  lemma {:induction false} Joined(b: Bytes, c: Bytes)
    requires Valid(b) && Valid(c)
    ensures Valid(b + c)
  {
    if b == [] {
      assert b + c == c;
    } else {
      var n := HeadLength(b);
      Joined(b[n..], c);
      HeadExtends(b, c);
      assert (b + c)[n..] == b[n..] + c;
      HeadThenRest(b + c, n);
    }
  }

  lemma HeadAlone(b: Bytes)
    requires HeadLength(b) > 0
    ensures Valid(b[..HeadLength(b)])
  {
    var n := HeadLength(b);
    assert HeadLength(b[..n]) == n;
  }

  /** A character boundary lies at most three bytes before any position in a valid string. */
  lemma {:induction false} BoundaryNear(v: Bytes, i: nat) returns (tail: nat)
    requires Valid(v) && i <= |v|
    ensures tail <= 3 && tail <= i && Valid(v[..i - tail])
  {
    if v == [] || i < HeadLength(v) {
      tail := i;
    } else {
      var n := HeadLength(v);
      tail := BoundaryNear(v[n..], i - n);
      var more := i - n - tail;
      HeadAlone(v);
      Joined(v[..n], v[n..][..more]);
      SliceJoins(v, n, more);
    }
  }

  lemma SliceJoins(v: Bytes, n: nat, more: nat)
    requires n + more <= |v|
    ensures v[..n] + v[n..][..more] == v[..n + more]
  {
  }

  ghost predicate BeginsValid(b: Bytes) { exists v: Bytes :: Valid(v) && b <= v }

  function Least(a: nat, b: nat): nat { if a < b then a else b }

  /** `_truncate_to_valid_utf8`: tries to drop three bytes, then two, one and none. */
  method Truncate(raw: Bytes, cap: nat) returns (chunk: Bytes, cut: bool)
    ensures cut <==> |raw| > cap
    ensures !cut ==> chunk == raw
    ensures cut ==> chunk == Shortened(raw[..cap])
  {
    if |raw| <= cap { return raw, false; }
    var head := raw[..cap];
    var tail := Least(3, |head|);
    while tail >= 0
      invariant -1 <= tail <= Least(3, |head|)
      invariant forall t :: tail < t <= 3 ==> !ValidLess(head, t)
    {
      if Valid(head[..|head| - tail]) {
        ShortenedIs(head, tail);
        return head[..|head| - tail], true;
      }
      tail := tail - 1;
    }
    NothingValid(head);
    return [], true;
  }

  /** The shortest valid string left after dropping at most three bytes; nothing if there is none. */
  function Shortened(head: Bytes): Bytes {
    if |head| >= 3 && Valid(head[..|head| - 3]) then head[..|head| - 3]
    else if |head| >= 2 && Valid(head[..|head| - 2]) then head[..|head| - 2]
    else if |head| >= 1 && Valid(head[..|head| - 1]) then head[..|head| - 1]
    else if Valid(head) then head
    else []
  }

  /** Dropping the last t bytes leaves a valid string. */
  predicate ValidLess(head: Bytes, t: int) { 0 <= t <= |head| && Valid(head[..|head| - t]) }

  lemma ShortenedIs(head: Bytes, tail: nat)
    requires tail <= 3 && ValidLess(head, tail)
    requires forall t :: tail < t <= 3 ==> !ValidLess(head, t)
    ensures Shortened(head) == head[..|head| - tail]
  {
    assert head[..|head|] == head;
    assert tail < 3 ==> !ValidLess(head, 3);
    assert tail < 2 ==> !ValidLess(head, 2);
    assert tail < 1 ==> !ValidLess(head, 1);
  }

  lemma NothingValid(head: Bytes)
    requires forall t :: 0 <= t <= 3 ==> !ValidLess(head, t)
    ensures Shortened(head) == []
  {
    assert head[..|head|] == head;
    assert !ValidLess(head, 3) && !ValidLess(head, 2) && !ValidLess(head, 1) && !ValidLess(head, 0);
  }

  /** The result is always valid and a prefix; it is never more than three bytes short when the input begins
      a valid string. */
  lemma ShortenedFacts(head: Bytes)
    ensures Valid(Shortened(head)) && Shortened(head) <= head
    ensures BeginsValid(head) ==> |head| - 3 <= |Shortened(head)|
  {
    if BeginsValid(head) {
      var v: Bytes :| Valid(v) && head <= v;
      var tail := BoundaryNear(v, |head|);
      assert v[..|head| - tail] == head[..|head| - tail];
      assert head[..|head|] == head;
    }
  }

  lemma ShortenedShortest(head: Bytes, t: nat)
    requires t <= 3 && ValidLess(head, t)
    ensures |Shortened(head)| <= |head| - t
  {
    assert head[..|head|] == head;
  }

  /** What follows whole characters is valid by itself. */
  lemma {:induction false} AfterText(text: seq<Scalar>, rest: Bytes)
    ensures Valid(Encode(text) + rest) <==> Valid(rest)
  {
    if text == [] {
      assert Encode(text) + rest == rest;
    } else {
      var head, more := EncodeScalar(text[0]), Encode(text[1..]) + rest;
      assert Encode(text) + rest == head + more;
      EncodedHead(text[0], more);
      assert (head + more)[|head|..] == more;
      AfterText(text[1..], rest);
    }
  }

  lemma {:induction false} EncodeJoins(a: seq<Scalar>, b: seq<Scalar>)
    ensures Encode(a + b) == Encode(a) + Encode(b)
  {
    if a == [] {
      assert a + b == b;
    } else {
      assert (a + b)[1..] == a[1..] + b;
      EncodeJoins(a[1..], b);
    }
  }

  lemma EncodeOne(c: Scalar)
    ensures Encode([c]) == EncodeScalar(c)
  {
    assert [c][1..] == [];
  }

  lemma EncodeLast(front: seq<Scalar>, last: Scalar)
    ensures Encode(front + [last]) == Encode(front) + EncodeScalar(last)
  {
    EncodeJoins(front, [last]);
    EncodeOne(last);
  }

  lemma HeadOfPrefix(b: Bytes, m: nat)
    requires m <= |b|
    ensures HeadLength(b[..m]) > 0 ==> HeadLength(b) == HeadLength(b[..m])
  {
    if HeadLength(b[..m]) > 0 {
      HeadExtends(b[..m], b[m..]);
      assert b[..m] + b[m..] == b;
    }
  }

  /** A character that is not whole is not valid. */
  lemma PartIsInvalid(c: Scalar, k: nat)
    requires 0 < k < |EncodeScalar(c)|
    ensures !Valid(EncodeScalar(c)[..k])
  {
    EncodedHead(c, []);
    assert EncodeScalar(c) + [] == EncodeScalar(c);
    HeadOfPrefix(EncodeScalar(c), k);
  }

  /** Bytes that begin a character without completing it. */
  ghost predicate Partial(p: Bytes) { HeadLength(p) == 0 && BeginsValid(p) }

  lemma PartialFacts(p: Bytes)
    requires Partial(p)
    ensures |p| <= 3 && forall m :: 0 < m <= |p| ==> !Valid(p[..m])
  {
    forall m | 0 < m <= |p| ensures !Valid(p[..m]) { HeadOfPrefix(p, m); }
    var v: Bytes :| Valid(v) && p <= v;
    var n := HeadLength(v);
    var m := Least(n, |p|);
    assert v[..m] == p[..m];
    HeadOfPrefix(p, m);
    if v != [] { HeadAloneLength(v); }
  }

  lemma HeadAloneLength(b: Bytes)
    requires HeadLength(b) > 0
    ensures HeadLength(b[..HeadLength(b)]) == HeadLength(b)
  {
  }

  lemma RestBegins(head: Bytes)
    requires BeginsValid(head) && HeadLength(head) > 0
    ensures BeginsValid(head[HeadLength(head)..])
  {
    var v: Bytes :| Valid(v) && head <= v;
    assert v == head + v[|head|..];
    HeadExtends(head, v[|head|..]);
    assert Valid(v[HeadLength(head)..]) && head[HeadLength(head)..] <= v[HeadLength(head)..];
  }

  /** Whatever begins a valid string is whole characters and a part of one. */
  lemma {:induction false} SplitHead(head: Bytes) returns (text: seq<Scalar>, part: Bytes)
    requires BeginsValid(head)
    ensures head == Encode(text) + part && Partial(part)
  {
    var n := HeadLength(head);
    if n == 0 {
      text, part := [], head;
    } else {
      var c := HeadDecodes(head);
      RestBegins(head);
      var more;
      more, part := SplitHead(head[n..]);
      text := [c] + more;
      EncodeFirst(c, more);
      assert head == EncodeScalar(c) + (Encode(more) + part);
    }
  }

  lemma EncodeFirst(c: Scalar, more: seq<Scalar>)
    ensures Encode([c] + more) == EncodeScalar(c) + Encode(more)
  {
    assert ([c] + more)[1..] == more;
  }

  /** The string that is cut is some whole characters and a part of one; the characters are its longest valid
      prefix. The result is that prefix exactly when the last character and the part are together longer than
      three bytes; otherwise whole characters are lost. */
  lemma LongestIff(text: seq<Scalar>, part: Bytes)
    requires Partial(part)
    ensures var head := Encode(text) + part;
      && (forall k :: |Encode(text)| < k <= |head| ==> !Valid(head[..k]))
      && (Shortened(head) == Encode(text) <==> text == [] || |EncodeScalar(text[|text| - 1])| + |part| > 3)
  {
    var whole := Encode(text);
    var head := whole + part;
    PartialFacts(part);
    forall k | |whole| < k <= |head| ensures !Valid(head[..k]) {
      assert head[..k] == whole + part[..k - |whole|];
      AfterText(text, part[..k - |whole|]);
    }
    EncodedIsValid(text);
    assert head[..|head| - |part|] == whole;
    if text == [] {
      ShortenedIs(head, |part|);
    } else {
      assert text == text[..|text| - 1] + [text[|text| - 1]];
      LastCharacter(text[..|text| - 1], text[|text| - 1], part);
    }
  }

  lemma LastCharacter(front: seq<Scalar>, last: Scalar, part: Bytes)
    requires |part| <= 3
    ensures var whole := Encode(front + [last]);
      Shortened(whole + part) == whole <==> |EncodeScalar(last)| + |part| > 3
  {
    var whole, c := Encode(front + [last]), EncodeScalar(last);
    var head := whole + part;
    EncodeLast(front, last);
    EncodedIsValid(front + [last]);
    assert head[..|head| - |part|] == whole;
    if |c| + |part| <= 3 {
      EncodedIsValid(front);
      assert head[..|head| - (|c| + |part|)] == Encode(front);
      ShortenedShortest(head, |c| + |part|);
    } else {
      forall t | |part| < t <= 3 ensures !ValidLess(head, t) { InsideLast(front, last, part, t); }
      ShortenedIs(head, |part|);
    }
  }

  lemma InsideLast(front: seq<Scalar>, last: Scalar, part: Bytes, t: nat)
    requires |part| < t < |EncodeScalar(last)| + |part|
    ensures !ValidLess(Encode(front + [last]) + part, t)
  {
    var c, k := EncodeScalar(last), |EncodeScalar(last)| + |part| - t;
    var head := Encode(front + [last]) + part;
    EncodeLast(front, last);
    assert head[..|head| - t] == Encode(front) + c[..k];
    AfterText(front, c[..k]);
    PartIsInvalid(last, k);
  }

  lemma {:induction false} AsciiValid(b: Bytes)
    requires forall i :: 0 <= i < |b| ==> b[i] < 0x80
    ensures Valid(b)
  {
    if b != [] { AsciiValid(b[1..]); }
  }

  /** An ASCII text over the cap always loses three valid bytes. */
  lemma AsciiLosesThree(head: Bytes)
    requires |head| >= 3 && forall i :: 0 <= i < |head| ==> head[i] < 0x80
    ensures Shortened(head) == head[..|head| - 3] && Valid(head)
  {
    AsciiValid(head);
    AsciiValid(head[..|head| - 3]);
  }
}

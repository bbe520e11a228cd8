/** What the first pass drops, code point by code point, byte by byte and escape by escape. */
module RedactRunes {
  import opened Bytes
  import opened RedactInvisible
  import opened RedactReport
  import opened RedactScan

  // ---- UTF-8, section 3 of RFC 3629

  predicate Scalar(r: nat) {
    r <= 0x10FFFF && !(0xD800 <= r <= 0xDFFF)
  }

  function Utf8(r: nat): bytes
    requires Scalar(r)
  {
    if r < 0x80 then [r]
    else if r < 0x800 then [0xC0 + r / 0x40, 0x80 + r % 0x40]
    else if r < 0x10000 then [0xE0 + r / 0x1000, 0x80 + r / 0x40 % 0x40, 0x80 + r % 0x40]
    else [0xF0 + r / 0x40000, 0x80 + r / 0x1000 % 0x40, 0x80 + r / 0x40 % 0x40, 0x80 + r % 0x40]
  }

  lemma ShortRunesDecode(r: nat, s: bytes)
    requires Scalar(r) && r < 0x800 && Utf8(r) <= s
    ensures RuneLen(s) == |Utf8(r)| && RuneAt(s) == r
  {
    assert forall i :: 0 <= i < |Utf8(r)| ==> s[i] == Utf8(r)[i];
    assert r == r / 0x40 * 0x40 + r % 0x40;
  }

  lemma ThreeBytesDecode(r: nat, s: bytes)
    requires Scalar(r) && 0x800 <= r < 0x10000 && Utf8(r) <= s
    ensures RuneLen(s) == 3 && RuneAt(s) == r
  {
    var a, b, c := r / 0x1000, r / 0x40 % 0x40, r % 0x40;
    assert r == a * 0x1000 + b * 0x40 + c;
    assert forall i :: 0 <= i < 3 ==> s[i] == Utf8(r)[i];
    assert a == 0 ==> b >= 0x20;
    assert a == 0xD ==> b <= 0x1F;
  }

  lemma FourBytesDecode(r: nat, s: bytes)
    requires Scalar(r) && 0x10000 <= r && Utf8(r) <= s
    ensures s != [] && RuneLen(s) == 4 && RuneAt(s) == r
  {
    hide RuneLen, RuneAt;
    var q1 := r / 0x40;
    var q2 := q1 / 0x40;
    var a, b, c, d := q2 / 0x40, q2 % 0x40, q1 % 0x40, r % 0x40;
    SixesTwice(r);
    assert q2 == a * 0x40 + b && q1 == q2 * 0x40 + c && r == q1 * 0x40 + d;
    assert Utf8(r) == [0xF0 + a, 0x80 + b, 0x80 + c, 0x80 + d];
    assert forall i :: 0 <= i < 4 ==> s[i] == Utf8(r)[i];
    FourAreARune(s, a, b, c, d);
  }

  lemma FourAreARune(s: bytes, a: nat, b: nat, c: nat, d: nat)
    requires |s| >= 4 && a <= 4 && b < 0x40 && c < 0x40 && d < 0x40 && (a == 0 ==> b >= 0x10) && (a == 4 ==> b <= 0x0F)
    requires s[0] == 0xF0 + a && s[1] == 0x80 + b && s[2] == 0x80 + c && s[3] == 0x80 + d
    ensures RuneLen(s) == 4 && RuneAt(s) == ((a * 0x40 + b) * 0x40 + c) * 0x40 + d
  {}

  /** What is encoded is decoded. */
  lemma RunesDecode(r: nat, s: bytes)
    requires Scalar(r) && Utf8(r) <= s
    ensures s != [] && RuneLen(s) == |Utf8(r)| && RuneAt(s) == r
  {
    if r < 0x800 { ShortRunesDecode(r, s); }
    else if r < 0x10000 { ThreeBytesDecode(r, s); }
    else { FourBytesDecode(r, s); }
  }

  /** And what is decoded was encoded. */
  lemma DecodedIsRune(s: bytes)
    requires s != [] && RuneLen(s) > 0
    ensures Scalar(RuneAt(s)) && Utf8(RuneAt(s)) <= s
  {
    var n, r := RuneLen(s), RuneAt(s);
    if n == 2 {
      assert r / 0x40 == s[0] - 0xC0 && r % 0x40 == s[1] - 0x80;
    } else if n == 3 {
      DecodedThree(s);
    } else if n == 4 {
      DecodedFour(s);
    }
  }

  lemma DecodedThree(s: bytes)
    requires s != [] && RuneLen(s) == 3
    ensures Scalar(RuneAt(s)) && Utf8(RuneAt(s)) <= s
  {
    var r := RuneAt(s);
    var a, b, c: nat := s[0] - 0xE0, s[1] - 0x80, s[2] - 0x80;
    var q := a * 0x40 + b;
    assert r == q * 0x40 + c;
    assert (a == 0 ==> b >= 0x20) && (a == 0xD ==> b <= 0x1F) && a <= 0xF && b < 0x40 && c < 0x40;
    assert s == [0xE0 + a, 0x80 + b, 0x80 + c] + s[3..];
    hide RuneLen, RuneAt;
    Sixes(q, c);
    Sixes(a, b);
    SixesTwice(r);
  }

  lemma Sixes(q: nat, d: nat)
    requires d < 0x40
    ensures (q * 0x40 + d) / 0x40 == q && (q * 0x40 + d) % 0x40 == d
  {}

  lemma SixesTwice(r: nat)
    ensures r / 0x1000 == r / 0x40 / 0x40 && r / 0x40000 == r / 0x40 / 0x40 / 0x40
  {}

  lemma DecodedFour(s: bytes)
    requires s != [] && RuneLen(s) == 4
    ensures Scalar(RuneAt(s)) && Utf8(RuneAt(s)) <= s
  {
    var r := RuneAt(s);
    var a, b, c, d: nat := s[0] - 0xF0, s[1] - 0x80, s[2] - 0x80, s[3] - 0x80;
    var q2 := a * 0x40 + b;
    var q1 := q2 * 0x40 + c;
    assert r == q1 * 0x40 + d;
    assert (a == 0 ==> b >= 0x10) && (a == 4 ==> b <= 0x0F) && a <= 4;
    assert 0x10000 <= r <= 0x10FFFF && s == [0xF0 + a, 0x80 + b, 0x80 + c, 0x80 + d] + s[4..];
    hide RuneLen, RuneAt;
    Sixes(q1, d);
    Sixes(q2, c);
    Sixes(a, b);
    SixesTwice(r);
  }

  // ---- one token

  /** Scanning t and then the rest: t is kept or not, adds these removed runes and so many bad bytes. */
  predicate Reads(t: bytes, rest: bytes, kept: bool, removed: seq<nat>, bad: nat) {
    Visible(t + rest) == (if kept then t else []) + Visible(rest) &&
    Removed(t + rest) == removed + Removed(rest) &&
    BadCount(t + rest) == bad + BadCount(rest)
  }

  lemma OneToken(t: bytes, rest: bytes)
    requires t != [] && Size(Next(t + rest)) == |t|
    ensures var k := Next(t + rest); Reads(t, rest, k.Keep?, if k.Hidden? then [k.rune] else [], if k.Bad? then 1 else 0)
  {
    hide Next;
    var s := t + rest;
    assert s[|t|..] == rest && s[..|t|] == t;
  }

  /** The code points that go: controls but tab, newline and carriage return, and the listed ones that
      render as nothing. The zero-width joiners stay. */
  predicate Dropped(r: nat) {
    (r < 0x20 && r != 0x09 && r != 0x0A && r != 0x0D) || r == 0x7F ||
    r == 0x200B || r == 0x200E || r == 0x200F || 0x202A <= r <= 0x202E ||
    0x2060 <= r <= 0x2064 || 0x2066 <= r <= 0x2069 || r == 0xFEFF || 0xE0000 <= r <= 0xE007F
  }

  /** Every code point but the escape is dropped and reported exactly when it is one of those, and
      otherwise kept as it was written. */
  lemma RunesAreDroppedExactly(r: nat, rest: bytes)
    requires Scalar(r) && r != 0x1B
    ensures Reads(Utf8(r), rest, !Dropped(r), if Dropped(r) then [r] else [], 0)
  {
    hide RuneLen, RuneAt, Utf8, Reads;
    RuneIsSomething(r);
    RunesDecode(r, Utf8(r) + rest);
    OneToken(Utf8(r), rest);
  }

  lemma RuneIsSomething(r: nat)
    requires Scalar(r)
    ensures Utf8(r) != []
  {}

  /** A byte is dropped and counted as broken exactly when no code point is encoded from it on. */
  lemma BrokenBytesAreDropped(b: byte, rest: bytes)
    requires forall r :: Scalar(r) ==> !(Utf8(r) <= [b] + rest)
    ensures Reads([b], rest, false, [], 1)
  {
    hide RuneLen, RuneAt, Utf8, Reads;
    var s := [b] + rest;
    if RuneLen(s) > 0 {
      DecodedIsRune(s);
      assert false;
    }
    OneToken([b], rest);
  }

  // ---- terminal escapes

  lemma {:induction false} LineEndInTwo(a: bytes, b: bytes)
    requires OneLine(a)
    ensures LineEnd(a + b) == |a| + LineEnd(b)
  {
    if a == [] {
      assert a + b == b;
    } else {
      LineEndInTwo(a[1..], b);
      assert (a + b)[1..] == a[1..] + b;
    }
  }

  predicate Final(b: byte) {
    0x40 <= b <= 0x7E
  }

  lemma {:induction false} CsiStops(s: bytes, i: nat, j: nat, end: nat)
    requires i <= j <= end <= |s| && (forall k :: i <= k < j ==> !Final(s[k])) && (j < end ==> Final(s[j]))
    ensures CsiEnd(s, i, end) == if j < end then j + 1 else end
    decreases j - i
  {
    if i < j {
      CsiStops(s, i + 1, j, end);
    }
  }

  /** Not the bell, and not the start of a string terminator. */
  predicate Goes(s: bytes, k: nat, end: nat)
    requires k < end <= |s|
  {
    s[k] != 0x07 && !(s[k] == 0x1B && k + 1 < end && s[k + 1] == 0x5C)
  }

  lemma {:induction false} OscStops(s: bytes, i: nat, j: nat, end: nat)
    requires i <= j <= end <= |s| && (forall k :: i <= k < j ==> Goes(s, k, end)) && (j < end ==> !Goes(s, j, end))
    ensures OscEnd(s, i, end) == if j == end then end else if s[j] == 0x07 then j + 1 else j + 2
    decreases j - i
  {
    if i < j {
      assert Goes(s, i, end);
      OscStops(s, i + 1, j, end);
    }
  }

  lemma EscapeIsOneToken(t: bytes, rest: bytes)
    requires t != [] && t[0] == ESC && EscapeLen(t + rest) == |t|
    ensures Reads(t, rest, false, [0x1B], 0)
  {
    hide EscapeLen, Reads;
    OneToken(t, rest);
  }

  /** The rest of the line ends here. */
  predicate AtLineEnd(rest: bytes) {
    rest == [] || rest[0] == 0x0A
  }

  /** ESC [ goes with all that follows up to and with the first byte in 0x40-0x7E, or to the end of its
      line if there is none. */
  lemma CsiIsDropped(params: bytes, final: bytes, rest: bytes)
    requires OneLine(params) && forall k :: 0 <= k < |params| ==> !Final(params[k])
    requires (|final| == 1 && Final(final[0])) || (final == [] && AtLineEnd(rest))
    ensures Reads([0x1B, 0x5B] + params + final, rest, false, [0x1B], 0)
  {
    hide Reads, CsiEnd, LineEnd;
    var t := [0x1B, 0x5B] + params + final;
    var s := t + rest;
    assert NEWLINE !in t;
    LineEndInTwo(t, rest);
    LineEndAt(rest);
    assert s[1] == 0x5B && s[0] == ESC;
    assert forall k :: 0 <= k < |params| ==> s[2 + k] == params[k];
    assert final != [] ==> s[2 + |params|] == final[0];
    CsiStops(s, 2, 2 + |params|, LineEnd(s));
    EscapeIsOneToken(t, rest);
  }

  lemma LineEndAt(rest: bytes)
    ensures AtLineEnd(rest) ==> LineEnd(rest) == 0
  {}

  /** ESC ] goes with all that follows up to and with the bell or the string terminator, or to the end
      of its line if there is neither. */
  lemma OscIsDropped(body: bytes, stop: bytes, rest: bytes)
    requires OneLine(body) && 0x07 !in body && forall k :: 0 <= k < |body| - 1 ==> !(body[k] == 0x1B && body[k + 1] == 0x5C)
    requires stop == [0x07] || stop == [0x1B, 0x5C] || (stop == [] && AtLineEnd(rest))
    ensures Reads([0x1B, 0x5D] + body + stop, rest, false, [0x1B], 0)
  {
    hide Reads, OscEnd, LineEnd;
    var t := [0x1B, 0x5D] + body + stop;
    var s := t + rest;
    assert NEWLINE !in t;
    LineEndInTwo(t, rest);
    LineEndAt(rest);
    assert s[1] == 0x5D && s[0] == ESC;
    var j, end := 2 + |body|, LineEnd(s);
    assert forall k :: 0 <= k < |body| ==> s[2 + k] == body[k];
    assert forall k :: 0 <= k < |stop| ==> s[j + k] == stop[k];
    forall k | 2 <= k < j ensures Goes(s, k, end) {
      assert s[k] == body[k - 2];
      if k + 1 < j { assert s[k + 1] == body[k - 1]; }
    }
    OscStops(s, 2, j, end);
    EscapeIsOneToken(t, rest);
  }

  /** Any other escape goes with the one byte behind it, or alone at the end of a line. */
  lemma ShortEscapeIsDropped(b: byte, rest: bytes)
    ensures b != 0x5B && b != 0x5D && b != 0x0A ==> Reads([0x1B, b], rest, false, [0x1B], 0)
    ensures AtLineEnd(rest) ==> Reads([0x1B], rest, false, [0x1B], 0)
  {
    hide Reads, LineEnd;
    if b != 0x5B && b != 0x5D && b != 0x0A {
      LineEndInTwo([0x1B, b], rest);
      EscapeIsOneToken([0x1B, b], rest);
    }
    if AtLineEnd(rest) {
      LineEndInTwo([0x1B], rest);
      LineEndAt(rest);
      EscapeIsOneToken([0x1B], rest);
    }
  }

  // ---- the report of a line

  predicate Reported(hits: seq<Hit>, line: nat, reason: Reason) {
    exists h :: h in hits && h.line == line && h.reason == reason
  }

  lemma ReportedInTwo(a: seq<Hit>, b: seq<Hit>, line: nat, reason: Reason)
    ensures Reported(a + b, line, reason) <==> Reported(a, line, reason) || Reported(b, line, reason)
  {
    if Reported(a, line, reason) {
      var h :| h in a && h.line == line && h.reason == reason;
      assert h in a + b;
    }
    if Reported(b, line, reason) {
      var h :| h in b && h.line == line && h.reason == reason;
      assert h in a + b;
    }
  }

  lemma TallyReports(field: bytes, line: nat, at: nat, removed: seq<nat>, bad: nat)
    ensures Reported(Tally(field, line, removed, bad), at, InvisibleText) <==> at == line && removed != []
    ensures Reported(Tally(field, line, removed, bad), at, Malformed) <==> at == line && bad > 0
  {
    hide NamePoints, CountBad;
    var t := Tally(field, line, removed, bad);
    if removed != [] { assert t[0] in t && t[0].reason == InvisibleText; }
    if bad > 0 { assert t[|t| - 1] in t && t[|t| - 1].reason == Malformed; }
  }

  lemma LaterIsNotReported(field: bytes, lines: seq<bytes>, k: nat, line: nat, reason: Reason)
    requires k >= 1 && line < k
    ensures !Reported(HitsByLine(field, lines, k), line, reason)
  {
    hide HitsByLine, Plain, Benign;
    HitsArePlaced(field, lines, k);
  }

  lemma {:induction false} ByLineReports(field: bytes, lines: seq<bytes>, k: nat, i: nat)
    requires i < |lines| && k >= 1
    ensures Reported(HitsByLine(field, lines, k), k + i, InvisibleText) <==> Removed(lines[i]) != []
    ensures Reported(HitsByLine(field, lines, k), k + i, Malformed) <==> BadCount(lines[i]) > 0
  {
    hide Removed, BadCount, Reported, Tally;
    var first := Tally(field, k, Removed(lines[0]), BadCount(lines[0]));
    var rest := HitsByLine(field, lines[1..], k + 1);
    ReportedInTwo(first, rest, k + i, InvisibleText);
    ReportedInTwo(first, rest, k + i, Malformed);
    TallyReports(field, k, k + i, Removed(lines[0]), BadCount(lines[0]));
    if i > 0 {
      ByLineReports(field, lines[1..], k + 1, i - 1);
    } else {
      LaterIsNotReported(field, lines[1..], k + 1, k, InvisibleText);
      LaterIsNotReported(field, lines[1..], k + 1, k, Malformed);
    }
  }

  /** Before anything is cut, a line of the original is reported as invisible text exactly when a code
      point on it was dropped, and as malformed exactly when a byte of it was. */
  lemma LinesAreReportedExactly(field: bytes, text: bytes, i: nat)
    requires i < |Lines(text)|
    ensures Reported(HitsByLine(field, Lines(text), 1), i + 1, InvisibleText) <==> Removed(Lines(text)[i]) != []
    ensures Reported(HitsByLine(field, Lines(text), 1), i + 1, Malformed) <==> BadCount(Lines(text)[i]) > 0
  {
    hide HitsByLine, Removed, BadCount, Lines;
    ByLineReports(field, Lines(text), 1, i);
  }
}

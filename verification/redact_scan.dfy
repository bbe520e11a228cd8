/** The first pass as the code runs it, one index over the bytes with per-line tallies, and its
    report. */
module RedactScan {
  import opened Basics
  import opened Bytes
  import opened RedactInvisible
  import opened RedactReport

  /** What one line lost. */
  function Removed(s: bytes): seq<nat> {
    if s == [] then []
    else
      var t := Next(s);
      (if t.Hidden? then [t.rune] else []) + Removed(s[Size(t)..])
  }

  function BadCount(s: bytes): nat {
    if s == [] then 0 else (if Next(s).Bad? then 1 else 0) + BadCount(s[Size(Next(s))..])
  }

  /** flush: at most one hit of each kind for a line. */
  function Tally(field: bytes, line: nat, removed: seq<nat>, bad: nat): seq<Hit> {
    (if removed != [] then [Hit(field, line, line, InvisibleText, false, NamePoints(removed))] else []) +
    (if bad > 0 then [Hit(field, line, line, Malformed, false, CountBad(bad))] else [])
  }

  /** The report, line by line of the original, numbered from k. */
  function HitsByLine(field: bytes, lines: seq<bytes>, k: nat): seq<Hit> {
    if lines == [] then []
    else Tally(field, k, Removed(lines[0]), BadCount(lines[0])) + HitsByLine(field, lines[1..], k + 1)
  }

  /** The report from the middle of a scan. */
  function HitsFrom(field: bytes, line: nat, removed: seq<nat>, bad: nat, s: bytes): seq<Hit>
    decreases |s|
  {
    if s == [] then Tally(field, line, removed, bad)
    else
      var t := Next(s);
      if t.Bad? then HitsFrom(field, line, removed, bad + 1, s[1..])
      else if t.Hidden? then HitsFrom(field, line, removed + [t.rune], bad, s[t.len..])
      else if s[0] == NEWLINE then Tally(field, line, removed, bad) + HitsFrom(field, line + 1, [], 0, s[1..])
      else HitsFrom(field, line, removed, bad, s[t.len..])
  }

  lemma {:induction false} HitsOfOneLine(field: bytes, line: nat, removed: seq<nat>, bad: nat, l: bytes)
    requires OneLine(l)
    ensures HitsFrom(field, line, removed, bad, l) == Tally(field, line, removed + Removed(l), bad + BadCount(l))
    decreases |l|
  {
    hide Tally, Next;
    if l == [] {
      assert removed + Removed(l) == removed;
    } else {
      var t := Next(l);
      var rest := l[Size(t)..];
      if t.Hidden? {
        HitsOfOneLine(field, line, removed + [t.rune], bad, rest);
        assert removed + [t.rune] + Removed(rest) == removed + Removed(l);
      } else {
        HitsOfOneLine(field, line, removed, if t.Bad? then bad + 1 else bad, rest);
        assert Removed(l) == Removed(rest);
      }
    }
  }

  lemma {:induction false} HitsAtNewline(field: bytes, line: nat, removed: seq<nat>, bad: nat, l: bytes, r: bytes)
    requires OneLine(l)
    ensures HitsFrom(field, line, removed, bad, l + [NEWLINE] + r) ==
            Tally(field, line, removed + Removed(l), bad + BadCount(l)) + HitsFrom(field, line + 1, [], 0, r)
    decreases |l|
  {
    hide Tally, Next;
    var s := l + [NEWLINE] + r;
    if l == [] {
      NewlineIsKept(s);
      assert removed + Removed(l) == removed;
      assert s[1..] == r;
    } else {
      TokenLocalToLine(l, r);
      var t := Next(l);
      var rest := l[Size(t)..];
      LineSlices(l, r, Size(t));
      if t.Hidden? {
        HitsAtNewline(field, line, removed + [t.rune], bad, rest, r);
        assert removed + [t.rune] + Removed(rest) == removed + Removed(l);
      } else {
        HitsAtNewline(field, line, removed, if t.Bad? then bad + 1 else bad, rest, r);
        assert Removed(l) == Removed(rest);
      }
    }
  }

  lemma {:induction false} HitsAreByLine(field: bytes, line: nat, s: bytes)
    ensures HitsFrom(field, line, [], 0, s) == HitsByLine(field, Lines(s), line)
    decreases |s|
  {
    hide Tally, HitsFrom, Removed, BadCount, Lines;
    if NEWLINE in s {
      var l, r := FirstLine(s);
      HitsAtNewline(field, line, [], 0, l, r);
      LinesAtNewline(l, r);
      HitsAreByLine(field, line + 1, r);
      assert [] + Removed(l) == Removed(l);
      assert ([l] + Lines(r))[1..] == Lines(r);
    } else {
      HitsOfOneLine(field, line, [], 0, s);
      LinesOfOneLine(s);
      assert [] + Removed(s) == Removed(s);
      assert HitsByLine(field, [s], line) == Tally(field, line, Removed(s), BadCount(s)) + [];
    }
  }

  method StripInvisible(field: bytes, text: bytes) returns (cleaned: bytes, hits: seq<Hit>)
    ensures cleaned == Visible(text)
    ensures hits == HitsByLine(field, Lines(text), 1)
  {
    hide Tally, Next, RuneLen, RuneAt, Invisible, Visible, HitsFrom, HitsByLine, Lines, AllVisible, ValidUtf8, HasInvisible;
    FastPathIsExact(text);
    AllVisibleIsFixed(text);
    NoHitsExactlyWhenVisible(field, text);
    if ValidUtf8(text) && !HasInvisible(text) {
      return text, [];
    }
    cleaned, hits := [], [];
    var line, removed, bad, i := 1, [], 0, 0;
    assert text[0..] == text;
    while i < |text|
      invariant 0 <= i <= |text|
      invariant cleaned + Visible(text[i..]) == Visible(text)
      invariant hits + HitsFrom(field, line, removed, bad, text[i..]) == HitsFrom(field, 1, [], 0, text)
    {
      var rest := text[i..];
      var n := RuneLen(rest);
      var size := 1;
      TokenCases(rest);
      VisibleStep(rest);
      HitsStep(field, line, removed, bad, rest);
      if n == 0 {
        bad := bad + 1;
      } else if RuneAt(rest) == ESC {
        removed := removed + [ESC];
        size := EscapeLength(rest);
      } else if Invisible(RuneAt(rest)) {
        removed := removed + [RuneAt(rest)];
        size := n;
      } else {
        Reassociate(cleaned, rest[..n], Visible(rest[n..]));
        if rest[0] == NEWLINE {
          Reassociate(hits, Tally(field, line, removed, bad), HitsFrom(field, line + 1, [], 0, rest[n..]));
          hits := hits + Tally(field, line, removed, bad);
          removed, bad := [], 0;
          line := line + 1;
        }
        cleaned := cleaned + rest[..n];
        size := n;
      }
      assert rest[size..] == text[i + size..];
      i := i + size;
    }
    ScanEnds(field, line, removed, bad);
    hits := hits + Tally(field, line, removed, bad);
    HitsAreByLine(field, 1, text);
  }

  lemma ScanEnds(field: bytes, line: nat, removed: seq<nat>, bad: nat)
    ensures Visible([]) == []
    ensures HitsFrom(field, line, removed, bad, []) == Tally(field, line, removed, bad)
  {}

  lemma VisibleStep(s: bytes)
    requires s != []
    ensures Visible(s) == (if Next(s).Keep? then s[..Next(s).len] else []) + Visible(s[Size(Next(s))..])
  {}

  lemma HitsStep(field: bytes, line: nat, removed: seq<nat>, bad: nat, s: bytes)
    requires s != []
    ensures var t := Next(s);
            HitsFrom(field, line, removed, bad, s) ==
            if t.Bad? then HitsFrom(field, line, removed, bad + 1, s[1..])
            else if t.Hidden? then HitsFrom(field, line, removed + [t.rune], bad, s[t.len..])
            else if s[0] == NEWLINE then Tally(field, line, removed, bad) + HitsFrom(field, line + 1, [], 0, s[1..])
            else HitsFrom(field, line, removed, bad, s[t.len..])
  {}

  /** The switch in the scanning loop, as Next states it. */
  lemma TokenCases(s: bytes)
    requires s != []
    ensures RuneLen(s) == 0 ==> Next(s) == Bad
    ensures RuneLen(s) > 0 && RuneAt(s) == ESC ==> s[0] == ESC && Next(s) == Hidden(ESC, EscapeLen(s))
    ensures RuneLen(s) > 0 && RuneAt(s) != ESC && Invisible(RuneAt(s)) ==> Next(s) == Hidden(RuneAt(s), RuneLen(s))
    ensures RuneLen(s) > 0 && RuneAt(s) != ESC && !Invisible(RuneAt(s)) ==> Next(s) == Keep(RuneLen(s))
    ensures s[0] == NEWLINE ==> RuneLen(s) == 1
  {}

  // ---- the report is in step with the text

  lemma {:induction false} NothingRemovedFromVisible(s: bytes)
    ensures AllVisible(s) <==> Removed(s) == [] && BadCount(s) == 0
  {
    hide Next;
    if s != [] {
      NothingRemovedFromVisible(s[Size(Next(s))..]);
    }
  }

  predicate EachAllVisible(lines: seq<bytes>) {
    forall i :: 0 <= i < |lines| ==> AllVisible(lines[i])
  }

  lemma {:induction false} NoHitsByLine(field: bytes, lines: seq<bytes>, k: nat)
    ensures HitsByLine(field, lines, k) == [] <==> EachAllVisible(lines)
  {
    if lines != [] {
      NothingRemovedFromVisible(lines[0]);
      NoHitsByLine(field, lines[1..], k + 1);
      assert EachAllVisible(lines) <==> AllVisible(lines[0]) && EachAllVisible(lines[1..]) by {
        if AllVisible(lines[0]) && EachAllVisible(lines[1..]) {
          forall i | 0 <= i < |lines| ensures AllVisible(lines[i]) {
            assert i > 0 ==> lines[i] == lines[1..][i - 1];
          }
        }
      }
    }
  }

  lemma {:induction false} EachVisibleAt(lines: seq<bytes>, i: nat)
    requires i < |lines|
    ensures EachVisible(lines)[i] == Visible(lines[i])
  {
    if i > 0 {
      EachVisibleAt(lines[1..], i - 1);
    }
  }

  lemma AllVisibleByLine(s: bytes)
    ensures AllVisible(s) <==> EachAllVisible(Lines(s))
  {
    AllVisibleIsFixed(s);
    VisibleByLine(s);
    var lines := Lines(s);
    if AllVisible(s) {
      forall i | 0 <= i < |lines| ensures AllVisible(lines[i]) {
        EachVisibleAt(lines, i);
        AllVisibleIsFixed(lines[i]);
      }
    } else if EachAllVisible(lines) {
      forall i | 0 <= i < |lines| ensures EachVisible(lines)[i] == lines[i] {
        EachVisibleAt(lines, i);
        AllVisibleIsFixed(lines[i]);
      }
      assert EachVisible(lines) == lines;
      UnlinesOfLines(s);
      UnlinesOfLines(Visible(s));
    }
  }

  /** A hit is reported exactly when the pass had something to drop. */
  lemma NoHitsExactlyWhenVisible(field: bytes, s: bytes)
    ensures HitsByLine(field, Lines(s), 1) == [] <==> AllVisible(s)
  {
    NoHitsByLine(field, Lines(s), 1);
    AllVisibleByLine(s);
  }

  lemma TallyIsPlaced(field: bytes, line: nat, removed: seq<nat>, bad: nat)
    requires line >= 1
    ensures WellPlaced(Tally(field, line, removed, bad), line)
    ensures forall i :: 0 <= i < |Tally(field, line, removed, bad)| ==>
              (var h := Tally(field, line, removed, bad)[i];
               h.line == h.through == line && h.field == field && !h.inName && Plain(h.matched))
    ensures Tally(field, line, removed, bad) == [] <==> removed == [] && bad == 0
  {
    hide NamePoints, CountBad;
  }

  lemma PlacedInTurn(a: seq<Hit>, b: seq<Hit>, m: nat, n: nat)
    requires WellPlaced(a, m) && WellPlaced(b, n) && m <= n
    requires forall i :: 0 <= i < |b| ==> m <= b[i].line
    ensures WellPlaced(a + b, n)
  {}

  /** Hits come in line order, each on the line of the original it names. */
  lemma {:induction false} HitsArePlaced(field: bytes, lines: seq<bytes>, k: nat)
    requires k >= 1
    ensures WellPlaced(HitsByLine(field, lines, k), k + |lines| - 1)
    ensures forall i :: 0 <= i < |HitsByLine(field, lines, k)| ==>
              var h := HitsByLine(field, lines, k)[i];
              k <= h.line == h.through && h.field == field && !h.inName && Plain(h.matched)
  {
    hide Tally, Next, Plain;
    if lines != [] {
      var removed, bad := Removed(lines[0]), BadCount(lines[0]);
      TallyIsPlaced(field, k, removed, bad);
      HitsArePlaced(field, lines[1..], k + 1);
      PlacedInTurn(Tally(field, k, removed, bad), HitsByLine(field, lines[1..], k + 1), k, k + |lines| - 1);
    }
  }
}

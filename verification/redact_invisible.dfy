/** The first pass of redaction: a byte scanner that drops what renders as nothing, whole terminal
    escapes, and every byte that is not UTF-8. */
module RedactInvisible {
  import opened Basics
  import opened Bytes

  // ---- UTF-8, sections 3 and 4 of RFC 3629

  predicate Cont(b: byte) {
    0x80 <= b <= 0xBF
  }

  /** utf8.DecodeRuneInString's size for a valid sequence at the start of s, 0 for none. */
  function RuneLen(s: bytes): (n: nat)
    requires s != []
    ensures n <= |s|
  {
    var b := s[0];
    if b < 0x80 then 1
    else if 0xC2 <= b <= 0xDF then if |s| >= 2 && Cont(s[1]) then 2 else 0
    else if 0xE0 <= b <= 0xEF then
      if |s| >= 3 && Cont(s[1]) && Cont(s[2]) && (b == 0xE0 ==> s[1] >= 0xA0) && (b == 0xED ==> s[1] <= 0x9F)
      then 3 else 0
    else if 0xF0 <= b <= 0xF4 then
      if |s| >= 4 && Cont(s[1]) && Cont(s[2]) && Cont(s[3]) && (b == 0xF0 ==> s[1] >= 0x90) && (b == 0xF4 ==> s[1] <= 0x8F)
      then 4 else 0
    else 0
  }

  function Payload(b: int): int {
    b - 0x80
  }

  /** The code point of the valid sequence at the start of s. */
  function RuneAt(s: bytes): (r: nat)
    requires s != [] && RuneLen(s) > 0
    ensures (r < 0x80 <==> s[0] < 0x80) && (r < 0x80 ==> r == s[0])
  {
    var n := RuneLen(s);
    var b: int := s[0];
    if n == 1 then b
    else if n == 2 then (b - 0xC0) * 0x40 + Payload(s[1])
    else if n == 3 then (b - 0xE0) * 0x1000 + Payload(s[1]) * 0x40 + Payload(s[2])
    else (b - 0xF0) * 0x40000 + Payload(s[1]) * 0x1000 + Payload(s[2]) * 0x40 + Payload(s[3])
  }

  predicate Invisible(r: nat) {
    if r == 0x09 || r == 0x0A || r == 0x0D then false
    else if r == 0x200C || r == 0x200D then false
    else r < 0x20 || r == 0x7F || r == 0x200B || r == 0x200E || r == 0x200F ||
         0x202A <= r <= 0x202E || 0x2060 <= r <= 0x2064 || 0x2066 <= r <= 0x2069 ||
         r == 0xFEFF || 0xE0000 <= r <= 0xE007F
  }

  // ---- terminal escapes

  const ESC: byte := 0x1B

  /** Up to the newline or the end. */
  function LineEnd(s: bytes): (n: nat)
    ensures n <= |s|
    ensures forall i :: 0 <= i < n ==> s[i] != NEWLINE
    ensures n < |s| ==> s[n] == NEWLINE
  {
    if s == [] || s[0] == NEWLINE then 0 else 1 + LineEnd(s[1..])
  }

  /** From i, through the first byte in 0x40-0x7E. */
  function CsiEnd(s: bytes, i: nat, end: nat): (n: nat)
    requires i <= end <= |s|
    ensures i <= n <= end
    decreases end - i
  {
    if i == end then end else if 0x40 <= s[i] <= 0x7E then i + 1 else CsiEnd(s, i + 1, end)
  }

  /** From i, through BEL or the string terminator. */
  function OscEnd(s: bytes, i: nat, end: nat): (n: nat)
    requires i <= end <= |s|
    ensures i <= n <= end
    decreases end - i
  {
    if i == end then end
    else if s[i] == 0x07 then i + 1
    else if s[i] == ESC && i + 1 < end && s[i + 1] == 0x5C then i + 2
    else OscEnd(s, i + 1, end)
  }

  function EscapeLen(s: bytes): (n: nat)
    requires s != [] && s[0] == ESC
    ensures 1 <= n <= LineEnd(s)
  {
    var end := LineEnd(s);
    if end < 2 then end
    else if s[1] == 0x5B then CsiEnd(s, 2, end)
    else if s[1] == 0x5D then OscEnd(s, 2, end)
    else 2
  }

  method EscapeLength(s: bytes) returns (n: nat)
    requires s != [] && s[0] == ESC
    ensures n == EscapeLen(s)
  {
    var end := LineEnd(s);
    if end < 2 { return end; }
    if s[1] == 0x5B {
      var i := 2;
      while i < end
        invariant 2 <= i <= end && CsiEnd(s, 2, end) == CsiEnd(s, i, end)
      {
        if 0x40 <= s[i] <= 0x7E { return i + 1; }
        i := i + 1;
      }
      return end;
    }
    if s[1] == 0x5D {
      var i := 2;
      while i < end
        invariant 2 <= i <= end && OscEnd(s, 2, end) == OscEnd(s, i, end)
      {
        if s[i] == 0x07 { return i + 1; }
        if s[i] == ESC && i + 1 < end && s[i + 1] == 0x5C { return i + 2; }
        i := i + 1;
      }
      return end;
    }
    n := 2;
  }

  // ---- one step of the scanner

  datatype Token = Bad | Hidden(rune: nat, len: nat) | Keep(len: nat)

  function Size(t: Token): nat {
    if t.Bad? then 1 else t.len
  }

  function Next(s: bytes): (t: Token)
    requires s != []
    ensures 1 <= Size(t) <= |s|
    ensures !t.Keep? ==> NEWLINE !in s[..Size(t)]
    ensures t.Keep? && s[0] == NEWLINE ==> t == Keep(1)
    ensures t.Keep? && s[0] != NEWLINE ==> NEWLINE !in s[..Size(t)]
  {
    var n := RuneLen(s);
    if n == 0 then Bad
    else if RuneAt(s) == ESC then Hidden(ESC, EscapeLen(s))
    else if Invisible(RuneAt(s)) then Hidden(RuneAt(s), n)
    else Keep(n)
  }

  /** What is left of a text. */
  function Visible(s: bytes): (v: bytes)
    ensures |v| <= |s|
  {
    if s == [] then []
    else
      var t := Next(s);
      (if t.Keep? then s[..t.len] else []) + Visible(s[Size(t)..])
  }

  /** Valid UTF-8 without an invisible rune: nothing for this pass to do. */
  predicate AllVisible(s: bytes) {
    s == [] || (Next(s).Keep? && AllVisible(s[Next(s).len..]))
  }

  // ---- locality: a token depends only on its own line, a kept rune only on itself

  lemma {:induction false} LineEndLocal(l: bytes, r: bytes)
    requires OneLine(l)
    ensures LineEnd(l) == |l| == LineEnd(l + [NEWLINE] + r)
  {
    if l != [] {
      LineEndLocal(l[1..], r);
      assert (l + [NEWLINE] + r)[1..] == l[1..] + [NEWLINE] + r;
    }
  }

  lemma {:induction false} CsiLocal(s: bytes, t: bytes, i: nat, end: nat)
    requires i <= end <= |s| && end <= |t| && s[..end] == t[..end]
    ensures CsiEnd(s, i, end) == CsiEnd(t, i, end)
    decreases end - i
  {
    if i < end {
      assert s[i] == s[..end][i] == t[i];
      CsiLocal(s, t, i + 1, end);
    }
  }

  lemma {:induction false} OscLocal(s: bytes, t: bytes, i: nat, end: nat)
    requires i <= end <= |s| && end <= |t| && s[..end] == t[..end]
    ensures OscEnd(s, i, end) == OscEnd(t, i, end)
    decreases end - i
  {
    if i < end {
      assert s[i] == s[..end][i] == t[i];
      assert i + 1 < end ==> s[i + 1] == s[..end][i + 1] == t[i + 1];
      OscLocal(s, t, i + 1, end);
    }
  }

  lemma RuneLocalToLine(l: bytes, r: bytes)
    requires l != [] && OneLine(l)
    ensures RuneLen(l + [NEWLINE] + r) == RuneLen(l)
    ensures RuneLen(l) > 0 ==> RuneAt(l + [NEWLINE] + r) == RuneAt(l)
  {
    var s := l + [NEWLINE] + r;
    assert forall i :: 0 <= i < |l| ==> s[i] == l[i];
    assert s[|l|] == NEWLINE;
  }

  lemma TokenLocalToLine(l: bytes, r: bytes)
    requires l != [] && OneLine(l)
    ensures Next(l + [NEWLINE] + r) == Next(l)
  {
    var s := l + [NEWLINE] + r;
    RuneLocalToLine(l, r);
    LineEndLocal(l, r);
    assert s[..|l|] == l == l[..|l|];
    if s[0] == ESC && |l| >= 2 {
      CsiLocal(s, l, 2, |l|);
      OscLocal(s, l, 2, |l|);
    }
  }

  lemma KeptRuneIsLocal(s: bytes, rest: bytes)
    requires s != [] && Next(s).Keep?
    ensures s[..Next(s).len] + rest != [] && Next(s[..Next(s).len] + rest) == Next(s)
  {
    var n := Next(s).len;
    var t := s[..n] + rest;
    assert forall i :: 0 <= i < n ==> t[i] == s[i];
    assert RuneLen(t) == RuneLen(s) && RuneAt(t) == RuneAt(s);
  }

  // ---- one pass is enough

  /** The output has nothing left to drop: no removal can close two runes up into a third. */
  lemma {:induction false} VisibleIsAllVisible(s: bytes)
    ensures AllVisible(Visible(s))
  {
    hide Next;
    if s != [] {
      var t := Next(s);
      var rest := Visible(s[Size(t)..]);
      VisibleIsAllVisible(s[Size(t)..]);
      if t.Keep? {
        KeptRuneIsLocal(s, rest);
        assert Visible(s)[t.len..] == rest;
      } else {
        assert Visible(s) == rest;
      }
    }
  }

  lemma KeptFirst(s: bytes)
    requires s != [] && Next(s).Keep?
    ensures var n := Next(s).len;
            Visible(s) == s[..n] + Visible(s[n..]) && (AllVisible(s) <==> AllVisible(s[n..])) && s == s[..n] + s[n..]
  {
    hide Next;
  }

  lemma {:induction false} AllVisibleIsFixed(s: bytes)
    ensures AllVisible(s) <==> Visible(s) == s
    ensures !AllVisible(s) ==> |Visible(s)| < |s|
  {
    hide Next;
    if s != [] {
      var t := Next(s);
      AllVisibleIsFixed(s[Size(t)..]);
      if t.Keep? {
        KeptFirst(s);
        SamePrefix(s[..t.len], Visible(s[t.len..]), s[t.len..]);
        hide Visible, AllVisible;
      }
    }
  }

  /** utf8.ValidString and strings.ContainsFunc(text, invisible), the test that skips the scan. */
  predicate ValidUtf8(s: bytes) {
    s == [] || (RuneLen(s) > 0 && ValidUtf8(s[RuneLen(s)..]))
  }

  predicate HasInvisible(s: bytes) {
    s != [] &&
    (if RuneLen(s) == 0 then HasInvisible(s[1..])
     else Invisible(RuneAt(s)) || HasInvisible(s[RuneLen(s)..]))
  }

  lemma {:induction false} FastPathIsExact(s: bytes)
    ensures ValidUtf8(s) && !HasInvisible(s) <==> AllVisible(s)
  {
    if s != [] && RuneLen(s) > 0 {
      assert Invisible(ESC);
      FastPathIsExact(s[RuneLen(s)..]);
    }
  }

  // ---- lines

  lemma NewlineIsKept(s: bytes)
    requires s != [] && s[0] == NEWLINE
    ensures Next(s) == Keep(1)
  {}

  lemma LineSlices(l: bytes, r: bytes, n: nat)
    requires n <= |l|
    ensures (l + [NEWLINE] + r)[..n] == l[..n] && (l + [NEWLINE] + r)[n..] == l[n..] + [NEWLINE] + r
  {}

  function Kept(s: bytes): bytes
    requires s != []
  {
    if Next(s).Keep? then s[..Next(s).len] else []
  }

  lemma VisibleFirst(s: bytes)
    requires s != []
    ensures Visible(s) == Kept(s) + Visible(s[Size(Next(s))..])
  {
    hide Next;
  }

  lemma VisibleNewline(r: bytes)
    ensures Visible([NEWLINE] + r) == [NEWLINE] + Visible(r)
  {
    var s := [NEWLINE] + r;
    NewlineIsKept(s);
    hide Next;
    assert s[..1] == [NEWLINE] && s[1..] == r;
  }

  /** Cleaning a text is cleaning its lines: whatever escapes or broken UTF-8 it holds, a newline is
      never eaten and never part of anything else. */
  lemma {:induction false} VisibleAtNewline(l: bytes, r: bytes)
    requires OneLine(l)
    ensures Visible(l + [NEWLINE] + r) == Visible(l) + [NEWLINE] + Visible(r)
  {
    if l == [] {
      assert l + [NEWLINE] + r == [NEWLINE] + r && Visible(l) + [NEWLINE] == [NEWLINE];
      VisibleNewline(r);
    } else {
      var n := Size(Next(l));
      var s, rest := l + [NEWLINE] + r, l[n..];
      hide Next, Visible;
      TokenLocalToLine(l, r);
      VisibleFirst(l);
      VisibleFirst(s);
      LineSlices(l, r, n);
      VisibleAtNewline(rest, r);
      Reassociate(Kept(l), Visible(rest), [NEWLINE]);
      Reassociate(Kept(l), Visible(rest) + [NEWLINE], Visible(r));
    }
  }

  lemma {:induction false} VisibleOneLine(l: bytes)
    requires OneLine(l)
    ensures OneLine(Visible(l))
  {
    hide Next;
    if l != [] {
      VisibleOneLine(l[Size(Next(l))..]);
    }
  }

  function EachVisible(lines: seq<bytes>): (out: seq<bytes>)
    ensures |out| == |lines|
  {
    if lines == [] then [] else [Visible(lines[0])] + EachVisible(lines[1..])
  }

  lemma {:induction false} VisibleByLine(s: bytes)
    ensures Lines(Visible(s)) == EachVisible(Lines(s))
    decreases |s|
  {
    if NEWLINE in s {
      var l, r := FirstLine(s);
      VisibleAtNewline(l, r);
      VisibleOneLine(l);
      LinesAtNewline(l, r);
      LinesAtNewline(Visible(l), Visible(r));
      VisibleByLine(r);
    } else {
      LinesOfOneLine(s);
      VisibleOneLine(s);
      LinesOfOneLine(Visible(s));
      assert EachVisible([s]) == [Visible(s)];
    }
  }

  // ---- subsequences

  predicate Subsequence(a: bytes, b: bytes) {
    a == [] || (b != [] && ((a[0] == b[0] && Subsequence(a[1..], b[1..])) || Subsequence(a, b[1..])))
  }

  lemma {:induction false} SubsequenceAfter(a: bytes, p: bytes, b: bytes)
    requires Subsequence(a, b)
    ensures Subsequence(a, p + b)
  {
    if p == [] {
      assert p + b == b;
    } else {
      SubsequenceAfter(a, p[1..], b);
      assert (p + b)[1..] == p[1..] + b;
    }
  }

  lemma {:induction false} SubsequenceBehind(p: bytes, a: bytes, b: bytes)
    requires Subsequence(a, b)
    ensures Subsequence(p + a, p + b)
  {
    if p == [] {
      assert p + a == a && p + b == b;
    } else {
      SubsequenceBehind(p[1..], a, b);
      assert (p + a)[1..] == p[1..] + a && (p + b)[1..] == p[1..] + b;
    }
  }

  lemma {:induction false} SubsequencePrefix(a: bytes, n: nat, b: bytes)
    requires n <= |a| && Subsequence(a, b)
    ensures Subsequence(a[..n], b)
    decreases |b|
  {
    if n > 0 {
      if a[0] == b[0] && Subsequence(a[1..], b[1..]) {
        SubsequencePrefix(a[1..], n - 1, b[1..]);
        assert a[..n][1..] == a[1..][..n - 1];
      } else {
        SubsequencePrefix(a, n, b[1..]);
      }
    }
  }

  lemma {:induction false} VisibleIsSubsequence(s: bytes)
    ensures Subsequence(Visible(s), s)
  {
    hide Next;
    if s != [] {
      var t := Next(s);
      VisibleIsSubsequence(s[Size(t)..]);
      assert s == s[..Size(t)] + s[Size(t)..];
      if t.Keep? {
        SubsequenceBehind(s[..t.len], Visible(s[t.len..]), s[t.len..]);
      } else {
        SubsequenceAfter(Visible(s[Size(t)..]), s[..Size(t)], s[Size(t)..]);
        assert Visible(s) == Visible(s[Size(t)..]);
      }
    }
  }
}

/** What a removal is reported as, and why the report itself is nothing to redact. */
module RedactReport {
  import opened Bytes

  datatype Reason = ControlToken | InvisibleText | Malformed

  /** line and through are 1-based and inclusive in the original value. */
  datatype Hit = Hit(field: bytes, line: nat, through: nat, reason: Reason, inName: bool, matched: bytes)

  /** Printable ASCII and carriage return, without the bytes every marker starts with. A bracket
      marker may hold a carriage return, which the report keeps. */
  predicate Benign(m: bytes) {
    forall i :: 0 <= i < |m| ==>
      (0x20 <= m[i] <= 0x7E || m[i] == 0x0D) && m[i] != 0x3C && m[i] != 0x5B
  }

  const RETURN: byte := 0x0D

  /** Printable ASCII as the report is documented to be. */
  predicate Printable(m: bytes) {
    forall i :: 0 <= i < |m| ==> 0x20 <= m[i] <= 0x7E
  }

  /** Benign and printable. */
  predicate Plain(m: bytes) {
    forall i :: 0 <= i < |m| ==> 0x20 <= m[i] <= 0x7E && m[i] != 0x3C && m[i] != 0x5B
  }

  lemma PlainConcat(a: bytes, b: bytes)
    requires Plain(a) && Plain(b)
    ensures Plain(a + b)
  {}

  lemma BenignConcat(a: bytes, b: bytes)
    requires Benign(a) && Benign(b)
    ensures Benign(a + b)
  {}

  /** Of what may be reported, the carriage return alone is not printable. */
  lemma PrintableExactlyWithoutReturn(m: bytes)
    requires Benign(m)
    ensures Printable(m) <==> RETURN !in m
  {}

  // ---- numbers

  function Digit(d: nat): byte
    requires d < 16
  {
    if d < 10 then 0x30 + d else 0x41 + (d - 10)
  }

  lemma DecimalIsPlain(n: nat)
    ensures Plain(Decimal(n))
  {
    assert forall i :: 0 <= i < |Decimal(n)| ==> IsDigit(Decimal(n)[i]);
  }

  function Hex(n: nat): (s: bytes)
    ensures Plain(s)
  {
    if n < 16 then [Digit(n)] else Hex(n / 16) + [Digit(n % 16)]
  }

  /** %U: at least four hexadecimal digits. */
  function CodePoint(n: nat): (s: bytes)
    ensures Plain(s)
  {
    var h := Hex(n);
    var pad := if |h| < 4 then seq(4 - |h|, _ => 0x30) else [];
    PlainConcat(pad, h);
    Ascii("U+") + (pad + h)
  }

  // ---- removed runes

  function ControlLabel(r: nat): (s: bytes)
    ensures Plain(s)
  {
    if r == 0x1B then Ascii("terminal escape") else Ascii("control character")
  }

  function DirectionLabel(r: nat): (s: bytes)
    ensures Plain(s)
  {
    if r == 0x200B then Ascii("zero-width space")
    else if r == 0x200E || r == 0x200F then Ascii("directional mark")
    else Ascii("bidi override")
  }

  function OperatorLabel(r: nat): (s: bytes)
    ensures Plain(s)
  {
    if r <= 0x2064 then Ascii("invisible operator") else Ascii("bidi isolate")
  }

  function BlockLabel(r: nat): (s: bytes)
    ensures Plain(s)
  {
    if r == 0xFEFF then Ascii("byte order mark")
    else if 0xE0000 <= r <= 0xE007F then Ascii("tag character")
    else Ascii("invisible")
  }

  /** label, in the four ranges of its switch. */
  function Label(r: nat): (s: bytes)
    ensures Plain(s)
  {
    if r < 0x20 || r == 0x7F then ControlLabel(r)
    else if r == 0x200B || r == 0x200E || r == 0x200F || 0x202A <= r <= 0x202E then DirectionLabel(r)
    else if 0x2060 <= r <= 0x2064 || 0x2066 <= r <= 0x2069 then OperatorLabel(r)
    else BlockLabel(r)
  }

  /** Duplicates dropped, first occurrences kept in order. */
  function Distinct<T(==)>(s: seq<T>): seq<T> {
    if s == [] then []
    else
      var d := Distinct(s[..|s| - 1]);
      if s[|s| - 1] in d then d else d + [s[|s| - 1]]
  }

  function NameEach(rs: seq<nat>): (out: seq<bytes>)
    ensures forall i :: 0 <= i < |out| ==> Plain(out[i])
  {
    if rs == [] then []
    else
      var name := CodePoint(rs[0]) + Ascii(" (") + Label(rs[0]) + Ascii(")");
      assert Plain(name) by {
        PlainConcat(CodePoint(rs[0]), Ascii(" ("));
        PlainConcat(CodePoint(rs[0]) + Ascii(" ("), Label(rs[0]));
      }
      [name] + NameEach(rs[1..])
  }

  function JoinWith(parts: seq<bytes>, sep: bytes): bytes {
    if parts == [] then []
    else if |parts| == 1 then parts[0]
    else parts[0] + sep + JoinWith(parts[1..], sep)
  }

  lemma {:induction false} BenignJoin(parts: seq<bytes>, sep: bytes)
    requires Benign(sep) && forall i :: 0 <= i < |parts| ==> Benign(parts[i])
    ensures Benign(JoinWith(parts, sep))
  {
    if |parts| > 1 {
      BenignJoin(parts[1..], sep);
      BenignConcat(parts[0] + sep, JoinWith(parts[1..], sep));
    }
  }

  /** A joined list holds a carriage return exactly when one of its parts does. */
  lemma {:induction false} ReturnInJoin(parts: seq<bytes>, sep: bytes)
    requires RETURN !in sep
    ensures RETURN in JoinWith(parts, sep) <==> exists i :: 0 <= i < |parts| && RETURN in parts[i]
  {
    if |parts| > 1 {
      var rest := parts[1..];
      ReturnInJoin(rest, sep);
      assert RETURN in JoinWith(parts, sep) <==> RETURN in parts[0] || RETURN in JoinWith(rest, sep);
      assert forall i :: 0 < i < |parts| ==> parts[i] == rest[i - 1];
      if i :| 0 <= i < |rest| && RETURN in rest[i] {
        assert RETURN in parts[i + 1];
      }
    }
  }

  /** At most max of the list, and dots for the rest. */
  function Abridge(parts: seq<bytes>, max: nat): seq<bytes> {
    if |parts| <= max then parts else parts[..max] + [Ascii("...")]
  }

  lemma {:induction false} PlainJoin(parts: seq<bytes>, sep: bytes)
    requires Plain(sep) && forall i :: 0 <= i < |parts| ==> Plain(parts[i])
    ensures Plain(JoinWith(parts, sep))
  {
    if |parts| > 1 {
      PlainJoin(parts[1..], sep);
      PlainConcat(parts[0] + sep, JoinWith(parts[1..], sep));
    }
  }

  lemma AbridgedIsPlain(parts: seq<bytes>, max: nat, sep: bytes)
    requires Plain(sep) && forall i :: 0 <= i < |parts| ==> Plain(parts[i])
    ensures Plain(JoinWith(Abridge(parts, max), sep))
  {
    assert Plain(Ascii("..."));
    hide Plain, Ascii;
    PlainJoin(Abridge(parts, max), sep);
  }

  /** namePoints. */
  function NamePoints(rs: seq<nat>): (s: bytes)
    ensures Plain(s)
  {
    AbridgedIsPlain(NameEach(Distinct(rs)), 8, Ascii(", "));
    JoinWith(Abridge(NameEach(Distinct(rs)), 8), Ascii(", "))
  }

  function CountBad(bad: nat): (s: bytes)
    ensures Plain(s)
  {
    DecimalIsPlain(bad);
    PlainConcat(Decimal(bad), Ascii(" byte(s) that are not valid UTF-8"));
    Decimal(bad) + Ascii(" byte(s) that are not valid UTF-8")
  }

  // ---- markers

  /** summarise: distinct names, at most six. */
  function Summarise(names: seq<bytes>): bytes {
    JoinWith(Abridge(Distinct(names), 6), Ascii(" "))
  }

  lemma {:induction false} DistinctMembers<T>(s: seq<T>)
    ensures forall x :: x in Distinct(s) <==> x in s
  {
    if s != [] {
      DistinctMembers(s[..|s| - 1]);
      assert s == s[..|s| - 1] + [s[|s| - 1]];
    }
  }

  lemma SummaryIsBenign(names: seq<bytes>)
    requires forall i :: 0 <= i < |names| ==> Benign(names[i])
    ensures Benign(Summarise(names))
  {
    DistinctMembers(names);
    var parts := Abridge(Distinct(names), 6);
    forall i | 0 <= i < |parts| ensures Benign(parts[i]) {
      assert i < |Distinct(names)| ==> Distinct(names)[i] in names;
    }
    BenignJoin(parts, Ascii(" "));
  }

  // ---- capping

  const MAX_HITS := 16

  /** One hit for all that is past the cap. */
  function Remainder(rest: seq<Hit>): Hit
    requires rest != []
  {
    Hit(rest[0].field, rest[0].line, rest[|rest| - 1].through, rest[0].reason, false,
        Ascii("and ") + Decimal(|rest|) + Ascii(" more, not itemised"))
  }

  /** capHits. */
  function CapHits(hits: seq<Hit>): seq<Hit> {
    if |hits| <= MAX_HITS then hits else hits[..MAX_HITS - 1] + [Remainder(hits[MAX_HITS - 1..])]
  }

  /** Hits as they are found: line by line, each within a text of so many lines, reported benignly. */
  predicate WellPlaced(hits: seq<Hit>, lines: nat) {
    (forall i :: 0 <= i < |hits| ==> 1 <= hits[i].line <= hits[i].through <= lines && Benign(hits[i].matched)) &&
    (forall i, j :: 0 <= i < j < |hits| ==> hits[i].line <= hits[j].line && hits[i].through <= hits[j].through)
  }

  lemma PlacedTail(hits: seq<Hit>, lines: nat)
    requires hits != [] && WellPlaced(hits, lines)
    ensures WellPlaced(hits[1..], lines)
    ensures 1 <= hits[0].line <= hits[0].through <= lines && Benign(hits[0].matched)
    ensures forall h :: h in hits[1..] ==> hits[0].line <= h.line && hits[0].through <= h.through
  {}

  lemma PlacedCons(h: Hit, hits: seq<Hit>, lines: nat)
    requires WellPlaced(hits, lines) && 1 <= h.line <= h.through <= lines && Benign(h.matched)
    requires forall x :: x in hits ==> h.line <= x.line && h.through <= x.through
    ensures WellPlaced([h] + hits, lines)
  {}

  lemma PlacedSnoc(hits: seq<Hit>, h: Hit, lines: nat)
    requires WellPlaced(hits, lines) && 1 <= h.line <= h.through <= lines && Benign(h.matched)
    requires forall x :: x in hits ==> x.line <= h.line && x.through <= h.through
    ensures WellPlaced(hits + [h], lines)
  {
    hide Benign;
  }

  lemma PlacedInBounds(hits: seq<Hit>, lines: nat)
    requires WellPlaced(hits, lines)
    ensures forall h :: h in hits ==> 1 <= h.line <= h.through <= lines
  {}

  predicate Covers(hits: seq<Hit>, line: nat) {
    exists k :: 0 <= k < |hits| && hits[k].line <= line <= hits[k].through
  }

  lemma RemainderIsPlaced(hits: seq<Hit>, lines: nat, from: nat)
    requires WellPlaced(hits, lines) && from < |hits|
    ensures var h := Remainder(hits[from..]);
            Benign(h.matched) && h.line == hits[from].line && h.through == hits[|hits| - 1].through
  {
    hide WellPlaced;
    var n := |hits[from..]|;
    DecimalIsPlain(n);
    BenignConcat(Ascii("and "), Decimal(n));
    BenignConcat(Ascii("and ") + Decimal(n), Ascii(" more, not itemised"));
  }

  lemma PlacedFront(hits: seq<Hit>, lines: nat, n: nat)
    requires WellPlaced(hits, lines) && n < |hits|
    ensures WellPlaced(hits[..n], lines)
    ensures forall x :: x in hits[..n] ==> x.line <= hits[n].line && x.through <= hits[|hits| - 1].through
  {
    hide Benign;
  }

  /** Capping keeps every hit in place and every line that was reported covered. */
  lemma CapKeepsPlaces(hits: seq<Hit>, lines: nat)
    requires WellPlaced(hits, lines)
    ensures WellPlaced(CapHits(hits), lines) && |CapHits(hits)| <= MAX_HITS
    ensures CapHits(hits) == [] <==> hits == []
    ensures forall i :: 0 <= i < |hits| ==> Covers(CapHits(hits), hits[i].line)
  {
    hide Benign, Remainder;
    var c, from := CapHits(hits), MAX_HITS - 1;
    if |hits| > MAX_HITS {
      RemainderIsPlaced(hits, lines, from);
      PlacedFront(hits, lines, from);
      PlacedSnoc(hits[..from], Remainder(hits[from..]), lines);
    }
    CapCovers(hits, lines);
  }

  lemma CapCovers(hits: seq<Hit>, lines: nat)
    requires WellPlaced(hits, lines)
    ensures forall i :: 0 <= i < |hits| ==> Covers(CapHits(hits), hits[i].line)
  {
    hide Benign, Remainder;
    var c, from := CapHits(hits), MAX_HITS - 1;
    if |hits| > MAX_HITS {
      RemainderIsPlaced(hits, lines, from);
    }
    forall i | 0 <= i < |hits|
      ensures Covers(c, hits[i].line)
    {
      var k := if i < from || |hits| <= MAX_HITS then i else from;
      assert c[k].line <= hits[i].line <= c[k].through;
    }
  }
}

/** What the second pass reports and where it cuts, in terms of the markers' texts. */
module RedactCut {
  import opened Basics
  import opened Bytes
  import opened RedactInvisible
  import opened RedactReport
  import opened RedactScan
  import opened RedactMarkers
  import opened RedactGrammar
  import opened Redact

  // ---- names

  /** An angle marker's name in lower case, with U+2581 as an underscore. */
  function Folded(name: bytes): bytes {
    if name == [] then []
    else if Block(name) then [0x5F] + Folded(name[3..])
    else [if 0x41 <= name[0] <= 0x5A then name[0] + 0x20 else name[0]] + Folded(name[1..])
  }

  /** What is left of the space inside a bracket: not spaces or tabs. */
  function Odd(s: bytes): bytes {
    if s == [] then [] else (if s[0] == 0x20 || s[0] == 0x09 then [] else [s[0]]) + Odd(s[1..])
  }

  /** What a marker is reported as. */
  function Called(x: Shape): bytes {
    match x
    case AngleShape(_, _, name, _, _, _) => Folded(name)
    case TurnShape(_, word, _) => if |word| == 13 then Ascii("start_of_turn") else Ascii("end_of_turn")
    case BracketShape(doubled, before, slash, between, _, after) =>
      Odd(before) + slash + Odd(between) + Ascii(if doubled then "SYS" else "INST") + Odd(after)
  }

  /** The first character of a name, and the rest. */
  lemma FirstOfUnits(s: bytes, i: nat, name: bytes, n: nat) returns (u: nat)
    requires Lies(s, i, name) && Named(name, n) && n > 0
    ensures 0 < u <= |name| && UnitLen(s, i) == u && Lies(s, i + u, name[u..]) && Named(name[u..], n - 1)
    ensures Folded(name) == [if u == 1 then Lower(s[i]) else UNDERSCORE] + Folded(name[u..])
  {
    assert s[i] == s[i..i + |name|][0] == name[0];
    if Single(name) && Named(name[1..], n - 1) {
      u := 1;
      assert s[i + 1..i + 1 + |name[1..]|] == name[1..];
    } else {
      u := 3;
      assert s[i + 1] == s[i..i + |name|][1] && s[i + 2] == s[i..i + |name|][2];
      assert s[i + 3..i + 3 + |name[3..]|] == name[3..];
    }
    hide Named;
  }

  lemma {:induction false} AngleNameIsFolded(s: bytes, i: nat, name: bytes, n: nat, max: nat)
    requires Lies(s, i, name) && Named(name, n) && n <= max
    ensures i + |name| <= |s| && AngleName(s, i, i + |name|, max) == Folded(name)
    decreases n
  {
    LiesWithin(s, i, name);
    if n > 0 {
      hide Lies, Named, Folded, UnitLen;
      var u := FirstOfUnits(s, i, name, n);
      AngleNameIsFolded(s, i + u, name[u..], n - 1, max - 1);
    }
  }

  lemma {:induction false} LowerAllAt(w: bytes)
    ensures |LowerAll(w)| == |w| && forall k :: 0 <= k < |w| ==> LowerAll(w)[k] == Lower(w[k])
  {
    if w != [] {
      LowerAllAt(w[1..]);
    }
  }

  lemma LowerOfFolded(w: bytes, word: string)
    requires Folds(w, word) && (word == "start_of_turn" || word == "end_of_turn")
    ensures LowerAll(w) == Ascii(word)
  {
    LowerAllAt(w);
    forall k | 0 <= k < |w| ensures LowerAll(w)[k] == Ascii(word)[k] {
      assert 'a' <= word[k] <= 'z' || word[k] == '_';
    }
  }

  lemma {:induction false} BracketNameInTwo(a: bytes, b: bytes)
    ensures BracketName(a + b) == BracketName(a) + BracketName(b)
  {
    if a == [] {
      assert a + b == b;
    } else {
      BracketNameInTwo(a[1..], b);
      BracketNameFirst(a);
      BracketNameFirst(a + b);
      hide BracketName;
      assert (a + b)[1..] == a[1..] + b;
      Reassociate(NameByte(a[0]), BracketName(a[1..]), BracketName(b));
    }
  }

  function NameByte(b: byte): bytes {
    if b == OPEN || b == CLOSE || b == LT || b == GT || b == 0x20 || b == 0x09 then [] else [Upper(b)]
  }

  lemma BracketNameFirst(s: bytes)
    requires s != []
    ensures BracketName(s) == NameByte(s[0]) + BracketName(s[1..])
  {}

  lemma {:induction false} BracketNameOfSpaces(s: bytes)
    requires Spaces(s)
    ensures BracketName(s) == Odd(s)
  {
    if s != [] {
      BracketNameOfSpaces(s[1..]);
    }
  }

  lemma {:induction false} BracketNameOfLetters(w: bytes)
    requires forall k :: 0 <= k < |w| ==> Letter(w[k])
    ensures |BracketName(w)| == |w| && forall k :: 0 <= k < |w| ==> BracketName(w)[k] == Upper(w[k])
  {
    if w != [] {
      BracketNameOfLetters(w[1..]);
    }
  }

  lemma BracketNameOfWord(w: bytes)
    ensures Folds(w, "inst") ==> BracketName(w) == Ascii("INST")
    ensures Folds(w, "sys") ==> BracketName(w) == Ascii("SYS")
  {
    if Folds(w, "inst") || Folds(w, "sys") {
      FoldedLetters(w);
      BracketNameOfLetters(w);
    }
  }

  lemma FoldedLetters(w: bytes)
    requires Folds(w, "inst") || Folds(w, "sys")
    ensures forall k :: 0 <= k < |w| ==> Letter(w[k])
  {}

  lemma BracketNameOfEnds()
    ensures BracketName([0x5B]) == [] && BracketName([0x5D]) == [] && BracketName([0x3C, 0x3C]) == [] && BracketName([0x3E, 0x3E]) == []
    ensures BracketName([0x2F]) == [0x2F] && BracketName([]) == []
  {
    assert [0x3C, 0x3C][1..] == [0x3C] && [0x3E, 0x3E][1..] == [0x3E];
  }

  lemma BracketNameOfText(x: Shape)
    requires x.BracketShape? && IsMarker(x)
    ensures BracketName(Text(x)) == Called(x)
  {
    hide BracketName, Spaces, Folds, Odd, Ascii;
    var open: bytes := if x.doubled then [0x3C, 0x3C] else [0x5B];
    var close: bytes := if x.doubled then [0x3E, 0x3E] else [0x5D];
    var a, b, c, d, e := x.before, x.slash, x.between, x.word, x.after;
    BracketNameInTwo(open + a + b + c + d + e, close);
    BracketNameInTwo(open + a + b + c + d, e);
    BracketNameInTwo(open + a + b + c, d);
    BracketNameInTwo(open + a + b, c);
    BracketNameInTwo(open + a, b);
    BracketNameInTwo(open, a);
    BracketNameOfEnds();
    BracketNameOfSpaces(a);
    BracketNameOfSpaces(c);
    BracketNameOfSpaces(e);
    BracketNameOfWord(d);
    assert [] + Odd(a) == Odd(a);
  }

  /** The name reported for a match is the marker's. */
  lemma NamedAsCalled(s: bytes, i: nat, x: Shape)
    requires IsMarker(x) && Lies(s, i, Text(x))
    ensures i < |s| && MatchAt(KindOf(x), s, i).Match? && NameOf(KindOf(x), s, MatchAt(KindOf(x), s, i)) == Called(x)
  {
    hide MatchAt, Lies, Named, Spaces, Pipe, Folds, Called, AngleName, LowerAll, BracketName;
    TextMatches(s, i, x);
    LiesWithin(s, i, Text(x));
    match x
    case AngleShape(open, before, name, size, after, close) =>
      PiecesOf(s, i, [0x3C], open, before, name, after, close, [0x3E]);
      AngleNameIsFolded(s, i + 1 + |open| + |before|, name, size, 32);
      CalledAngle(x);
    case TurnShape(before, word, after) =>
      Pieces5(s, i, [0x3C], before, word, after, [0x3E]);
      Slice(s, i + 1 + |before|, word);
      LowerOfTurn(word);
      CalledTurn(x);
    case BracketShape(_, _, _, _, _, _) =>
      Slice(s, i, Text(x));
      BracketNameOfText(x);
  }

  lemma LowerOfTurn(w: bytes)
    requires Folds(w, "start_of_turn") || Folds(w, "end_of_turn")
    ensures LowerAll(w) == if |w| == 13 then Ascii("start_of_turn") else Ascii("end_of_turn")
  {
    hide LowerAll, Ascii;
    if Folds(w, "start_of_turn") { LowerOfFolded(w, "start_of_turn"); } else { LowerOfFolded(w, "end_of_turn"); }
  }

  lemma CalledAngle(x: Shape)
    requires x.AngleShape?
    ensures Called(x) == Folded(x.name)
  {}

  lemma CalledTurn(x: Shape)
    requires x.TurnShape?
    ensures Called(x) == if |x.word| == 13 then Ascii("start_of_turn") else Ascii("end_of_turn")
  {}

  lemma Slice(s: bytes, i: nat, t: bytes)
    requires Lies(s, i, t)
    ensures i + |t| <= |s| && s[i..i + |t|] == t
  {}

  // ---- the markers of a line

  /** The report of a line is exactly its markers: every text that is one, by its name and its place,
      and nothing else. */
  lemma LineMarkersAreExactlyTheTexts(line: bytes)
    ensures forall i: nat, x :: IsMarker(x) && Lies(line, i, Text(x)) ==> RedactMarkers.Marker(Called(x), i) in LineMarkers(line)
    ensures forall m :: m in LineMarkers(line) ==> exists x :: IsMarker(x) && Lies(line, m.at, Text(x)) && Called(x) == m.name
  {
    hide IsMarker, Lies, Text, MatchAt, NameOf, FindAll, SortMarkers, Called, Marked, LineMarkers;
    LineMarkersAreTheMatches(line);
    var ms := LineMarkers(line);
    forall i: nat, x | IsMarker(x) && Lies(line, i, Text(x)) ensures RedactMarkers.Marker(Called(x), i) in ms {
      NamedAsCalled(line, i, x);
      FindsAll(KindOf(x), line, 0, i);
      FoundIsReported(line, KindOf(x), RedactMarkers.Marker(Called(x), i));
    }
    forall m | m in ms ensures exists x :: IsMarker(x) && Lies(line, m.at, Text(x)) && Called(x) == m.name {
      var kind: Kind :| m in FindAll(kind, line, 0);
      FoundWhereMatched(kind, line, 0);
      var x := MatchIsText(kind, line, m.at);
      NamedAsCalled(line, m.at, x);
    }
  }

  lemma FoundIsReported(line: bytes, kind: Kind, m: RedactMarkers.Marker)
    requires m in FindAll(kind, line, 0)
    ensures m in LineMarkers(line)
  {
    hide FindAll, SortMarkers;
    SortKeeps(Unsorted(line));
    assert m in Unsorted(line) by {
      match kind case Angle => case Turn => case Bracket =>
    }
    assert m in multiset(Unsorted(line));
    assert m in multiset(LineMarkers(line));
  }

  // ---- the cut

  ghost predicate FirstHolding(lines: seq<bytes>, f: nat) {
    f < |lines| && HoldsMarker(lines[f]) && forall j :: 0 <= j < f ==> !HoldsMarker(lines[j])
  }

  lemma {:induction false} FirstMarkedIsFirstHolding(lines: seq<bytes>)
    ensures FirstMarked(lines) < |lines| ==> FirstHolding(lines, FirstMarked(lines))
    ensures FirstMarked(lines) == |lines| ==> forall j :: 0 <= j < |lines| ==> !HoldsMarker(lines[j])
  {
    hide LineMarkers, HoldsMarker, FirstMarked;
    forall j | 0 <= j < |lines| ensures LineMarkers(lines[j]) != [] <==> HoldsMarker(lines[j]) {
      MarkedExactlyWhenItHoldsAMarker(lines[j]);
    }
  }

  /** A value in which no visible line holds a marker is only cleaned of what is invisible, and nothing
      is reported as a control token. In any other everything goes from the first visible line that
      holds one, and the report covers those lines to the end as a control token. */
  lemma ValueIsCutExactly(field: bytes, text: bytes)
    ensures var seen := Lines(Visible(text));
            (forall j :: 0 <= j < |seen| ==> !HoldsMarker(seen[j])) ==>
              Clean(text) == Visible(text) && forall h :: h in Report(field, text) ==> h.reason != ControlToken
    ensures var seen := Lines(Visible(text));
            forall f: nat :: FirstHolding(seen, f) ==>
              Clean(text) == Unlines(seen[..f]) &&
              (exists h :: h in AllHits(field, text) && h.reason == ControlToken && h.line == f + 1 && h.through == |Lines(text)|) &&
              forall line :: f < line <= |Lines(text)| ==> Covers(Report(field, text), line)
  {
    hide LineMarkers, HoldsMarker, FirstMarked, Visible, Lines, Report, AllHits;
    var seen := Lines(Visible(text));
    FirstMarkedIsFirstHolding(seen);
    SameLineCount(text);
    var first := FirstMarked(seen);
    if first == |seen| {
      UncutIsWhole(Visible(text));
      NoControlToken(field, text);
    } else {
      forall f: nat | FirstHolding(seen, f) ensures f == first {
        assert !(f < first) && !(first < f);
      }
      CutIsReported(field, text);
    }
  }

  lemma {:induction false} ByLineIsNoControlToken(field: bytes, lines: seq<bytes>, k: nat)
    ensures forall h :: h in HitsByLine(field, lines, k) ==> h.reason != ControlToken
  {
    if lines != [] {
      ByLineIsNoControlToken(field, lines[1..], k + 1);
    }
  }

  lemma NoControlToken(field: bytes, text: bytes)
    requires !HasMarkedLine(Visible(text))
    ensures forall h :: h in Report(field, text) ==> h.reason != ControlToken
  {
    hide HitsByLine, Visible, HasMarkedLine;
    ByLineIsNoControlToken(field, Lines(text), 1);
    var hits := AllHits(field, text);
    if |hits| > MAX_HITS {
      assert hits[MAX_HITS - 1..][0] in hits;
    }
  }

  lemma CutIsReported(field: bytes, text: bytes)
    requires HasMarkedLine(Visible(text))
    ensures var first := FirstMarked(Lines(Visible(text)));
            (exists h :: h in AllHits(field, text) && h.reason == ControlToken && h.line == first + 1 && h.through == |Lines(text)|) &&
            forall line :: first < line <= |Lines(text)| ==> Covers(Report(field, text), line)
  {
    hide Visible, Lines, FirstMarked, HitsByLine, Summarise, AllNames, Outside, Benign, SortHits;
    AllHitsArePlaced(field, text);
    SameLineCount(text);
    var hits := AllHits(field, text);
    var cut := CutHit(field, Visible(text));
    assert hits[|hits| - 1] == cut && cut in hits;
    LastIsCovered(hits, |Lines(text)|);
  }

  lemma LastIsCovered(hits: seq<Hit>, lines: nat)
    requires WellPlaced(hits, lines) && hits != []
    ensures forall line :: hits[|hits| - 1].line <= line <= hits[|hits| - 1].through ==> Covers(CapHits(hits), line)
  {
    hide Benign;
    var c, last := CapHits(hits), hits[|hits| - 1];
    var at := if |hits| <= MAX_HITS then |hits| - 1 else MAX_HITS - 1;
    assert c[at].line <= last.line && last.through == c[at].through by {
      if |hits| > MAX_HITS {
        var rest := hits[MAX_HITS - 1..];
        assert rest[|rest| - 1] == last && rest[0] == hits[MAX_HITS - 1];
      }
    }
  }

  /** Up to sixteen hits are all reported; past that, fifteen and one that stands for the rest, from the
      first of them to the last. */
  lemma ReportIsCappedAtSixteen(field: bytes, text: bytes)
    ensures var all, shown := AllHits(field, text), Report(field, text);
            if |all| <= 16 then shown == all
            else
              |shown| == 16 && shown[..15] == all[..15] && shown[15].line == all[15].line &&
              shown[15].through == all[|all| - 1].through && shown[15].reason == all[15].reason && !shown[15].inName &&
              shown[15].matched == Ascii("and ") + Decimal(|all| - 15) + Ascii(" more, not itemised")
  {
    hide AllHits, Ascii, Decimal;
  }

  /** What each kind of dropped code point is called in a report. */
  lemma LabelsOfTheDropped(r: nat)
    ensures r == 0x1B ==> Label(r) == Ascii("terminal escape")
    ensures (r < 0x20 && r != 0x1B) || r == 0x7F ==> Label(r) == Ascii("control character")
    ensures r == 0x200B ==> Label(r) == Ascii("zero-width space")
    ensures r == 0x200E || r == 0x200F ==> Label(r) == Ascii("directional mark")
    ensures 0x202A <= r <= 0x202E ==> Label(r) == Ascii("bidi override")
    ensures 0x2060 <= r <= 0x2064 ==> Label(r) == Ascii("invisible operator")
    ensures 0x2066 <= r <= 0x2069 ==> Label(r) == Ascii("bidi isolate")
    ensures r == 0xFEFF ==> Label(r) == Ascii("byte order mark")
    ensures 0xE0000 <= r <= 0xE007F ==> Label(r) == Ascii("tag character")
  {
    hide Ascii;
  }

  function Without<T(==)>(s: seq<T>, x: T): seq<T> {
    if s == [] then [] else (if s[0] == x then [] else [s[0]]) + Without(s[1..], x)
  }

  lemma {:induction false} WithoutNext<T>(s: seq<T>, y: T, x: T)
    ensures Without(s + [y], x) == Without(s, x) + if y == x then [] else [y]
  {
    if s == [] {
      assert [] + [y] == [y] && [y][1..] == [];
    } else {
      WithoutNext(s[1..], y, x);
      assert (s + [y])[1..] == s[1..] + [y];
    }
  }

  /** A list of names is shown with each name where it first occurs, and never again. */
  lemma {:induction false} DistinctKeepsTheFirsts<T>(x: T, s: seq<T>)
    ensures Distinct([x] + s) == [x] + Without(Distinct(s), x)
  {
    hide Distinct, Without;
    if s == [] {
      DistinctOfOne(x);
      assert [x] + s == [x];
    } else {
      var n, y := |s| - 1, s[|s| - 1];
      var p := s[..n];
      DistinctKeepsTheFirsts(x, p);
      DistinctNext([x] + p, y);
      DistinctNext(p, y);
      assert s == p + [y] && [x] + s == [x] + p + [y];
      WithoutNext(Distinct(p), y, x);
      WithoutMembers(Distinct(p), x);
      assert y in [x] + Without(Distinct(p), x) <==> y == x || y in Distinct(p);
      assert Without(Distinct(p), x) + [] == Without(Distinct(p), x);
      Reassociate([x], Without(Distinct(p), x), [y]);
    }
  }

  lemma DistinctOfOne<T>(x: T)
    ensures Distinct([x]) == [x] && Distinct<T>([]) == [] && Without([], x) == []
  {
    assert [x][..0] == [];
  }

  lemma DistinctNext<T>(s: seq<T>, y: T)
    ensures Distinct(s + [y]) == if y in Distinct(s) then Distinct(s) else Distinct(s) + [y]
  {
    assert (s + [y])[..|s|] == s;
  }

  lemma {:induction false} WithoutMembers<T>(s: seq<T>, x: T)
    ensures forall y :: y in Without(s, x) <==> y in s && y != x
  {
    if s != [] {
      WithoutMembers(s[1..], x);
    }
  }

  /** The number that upper-case hexadecimal digits spell. */
  function Spelled(s: bytes): nat {
    if s == [] then 0
    else
      var d := s[|s| - 1];
      16 * Spelled(s[..|s| - 1]) + if 0x30 <= d <= 0x39 then d - 0x30 else if 0x41 <= d <= 0x46 then d - 0x37 else 0
  }

  predicate HexDigits(s: bytes) {
    forall i :: 0 <= i < |s| ==> 0x30 <= s[i] <= 0x39 || 0x41 <= s[i] <= 0x46
  }

  lemma {:induction false} HexSpells(n: nat)
    ensures HexDigits(Hex(n)) && Spelled(Hex(n)) == n
  {
    var s := Hex(n);
    if n < 16 {
      assert s[..0] == [];
    } else {
      HexSpells(n / 16);
      assert s[..|s| - 1] == Hex(n / 16);
    }
  }

  lemma {:induction false} ZerosSpellNothing(k: nat, s: bytes)
    requires HexDigits(s)
    ensures Spelled(seq(k, _ => 0x30) + s) == Spelled(s) && HexDigits(seq(k, _ => 0x30) + s)
    decreases |s|, k
  {
    var z: bytes := seq(k, _ => 0x30);
    if s != [] {
      ZerosSpellNothing(k, s[..|s| - 1]);
      assert (z + s)[..|z + s| - 1] == z + s[..|s| - 1];
    } else if k > 0 {
      ZerosSpellNothing(k - 1, []);
      assert (z + s)[..k - 1] == seq(k - 1, _ => 0x30) + [];
    }
  }

  /** A code point is written U+ and its number, in at least four upper-case hexadecimal digits. */
  lemma CodePointsAreSpelled(n: nat)
    ensures var s := CodePoint(n);
            |s| >= 6 && s[..2] == Ascii("U+") && HexDigits(s[2..]) && Spelled(s[2..]) == n && (|s| > 6 ==> s[2] != 0x30)
  {
    hide Ascii, Plain, Spelled, HexDigits;
    var h := Hex(n);
    var k := if |h| < 4 then 4 - |h| else 0;
    var pad: bytes := seq(k, _ => 0x30);
    HexSpells(n);
    HexStartsWell(n);
    ZerosSpellNothing(k, h);
    assert CodePoint(n) == Ascii("U+") + (pad + h);
    assert CodePoint(n)[2..] == pad + h;
  }

  lemma {:induction false} HexStartsWell(n: nat)
    ensures Hex(n) != [] && (|Hex(n)| > 1 ==> Hex(n)[0] != 0x30)
  {
    if n >= 16 {
      HexStartsWell(n / 16);
      if n / 16 < 16 { assert Hex(n / 16) == [Digit(n / 16)]; }
    }
  }

  /** What was dropped from a line is named once each, in order, at most eight by name. */
  lemma DroppedAreNamed(rs: seq<nat>)
    ensures var names := NameEach(Distinct(rs));
            NamePoints(rs) == JoinWith(if |names| <= 8 then names else names[..8] + [Ascii("...")], Ascii(", "))
    ensures forall k :: 0 <= k < |Distinct(rs)| ==>
              |NameEach(Distinct(rs))| == |Distinct(rs)| &&
              NameEach(Distinct(rs))[k] == CodePoint(Distinct(rs)[k]) + Ascii(" (") + Label(Distinct(rs)[k]) + Ascii(")")
  {
    hide Ascii, CodePoint, Label, Distinct, JoinWith;
    NamesAt(Distinct(rs));
  }

  lemma {:induction false} NamesAt(rs: seq<nat>)
    ensures |NameEach(rs)| == |rs|
    ensures forall k :: 0 <= k < |rs| ==> NameEach(rs)[k] == CodePoint(rs[k]) + Ascii(" (") + Label(rs[k]) + Ascii(")")
  {
    hide Ascii, CodePoint, Label;
    if rs != [] {
      NamesAt(rs[1..]);
    }
  }

  // ---- the order of the report

  /** Not after, in the order of names. */
  predicate NotAfter(a: bytes, b: bytes) {
    !Less(b, a)
  }

  predicate InFieldOrder(hits: seq<Hit>) {
    forall i, j :: 0 <= i < j < |hits| && !hits[i].inName && !hits[j].inName ==> NotAfter(hits[i].field, hits[j].field)
  }

  lemma {:induction false} HitsOverInOrder(data: Form, keys: seq<bytes>)
    requires Ascending(keys) && forall i :: 0 <= i < |keys| ==> keys[i] in data
    ensures InFieldOrder(HitsOver(data, keys))
    ensures forall h :: h in HitsOver(data, keys) && !h.inName ==> h.field in keys
  {
    hide Less, FieldHits, Ascending;
    if keys != [] {
      Tail(keys);
      HitsOverInOrder(data, keys[1..]);
      FieldHitsNameIt(data, keys[0]);
      LessIsTotal(keys[0], keys[0]);
      forall k | k in keys[1..] ensures NotAfter(keys[0], k) {
        LessIsTotal(keys[0], k);
      }
      InOrderInTwo(FieldHits(data, keys[0]), HitsOver(data, keys[1..]), keys[0]);
    }
  }

  lemma InOrderInTwo(a: seq<Hit>, b: seq<Hit>, k: bytes)
    requires (forall h :: h in a && !h.inName ==> h.field == k) && InFieldOrder(b) && NotAfter(k, k)
    requires forall h :: h in b && !h.inName ==> NotAfter(k, h.field)
    ensures InFieldOrder(a + b)
  {
    hide NotAfter;
  }

  lemma FieldHitsNameIt(data: Form, k: bytes)
    requires k in data
    ensures forall h :: h in FieldHits(data, k) && !h.inName ==> h.field == k
  {
    hide Report, PointsInto;
    if NameKept(k) {
      HitsNameTheirField(k, data[k]);
    } else {
      HitsNameTheirField([], k);
      InNamePoints(Report([], k), data);
    }
  }

  /** A submission's hits come in the order of its field names. */
  lemma FormHitsInFieldOrder(data: Form)
    ensures InFieldOrder(FormHits(data))
  {
    hide InFieldOrder, HitsOver;
    KeysInForm(data);
    HitsOverInOrder(data, Sorted(data.Keys));
  }

  /** So a submission with a marker on a visible line of some value is reported. */
  lemma AMarkedFormIsReported(data: Form, k: bytes, j: nat)
    requires k in data && j < |Lines(Visible(data[k]))| && HoldsMarker(Lines(Visible(data[k]))[j])
    ensures FormHits(data) != []
  {
    hide LineMarkers, HoldsMarker, Visible, Lines, FormHits, FirstMarked, Report, AllVisible;
    HitsExactlyWhenSomethingIsLeft(data);
    FirstMarkedIsFirstHolding(Lines(Visible(data[k])));
    AllVisibleIsFixed(data[k]);
    assert HasMarkedLine(Visible(data[k]));
    assert !NothingLeft(data[k]);
  }
}

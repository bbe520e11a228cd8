/** The second pass: chat-template markers, matched as the three expressions match them, and the cut
    from the first one to the end of the value. */
module RedactMarkers {
  import opened Bytes
  import opened RedactInvisible
  import opened RedactReport

  const LT: byte := 0x3C
  const GT: byte := 0x3E
  const OPEN: byte := 0x5B
  const CLOSE: byte := 0x5D
  const SLASH: byte := 0x2F
  const UNDERSCORE: byte := 0x5F

  const START_OF_TURN: bytes := Ascii("start_of_turn")
  const END_OF_TURN: bytes := Ascii("end_of_turn")
  const INST: bytes := Ascii("inst")
  const SYS: bytes := Ascii("sys")

  /** A match: where it ends, and where the name in it is. */
  datatype Match = NoMatch | Match(from: nat, to: nat, end: nat)

  predicate IsSpace(b: byte) {
    b == 0x09 || b == 0x0A || b == 0x0C || b == 0x0D || b == 0x20
  }

  predicate IsLetter(b: byte) {
    0x41 <= b <= 0x5A || 0x61 <= b <= 0x7A
  }

  predicate IsNameByte(b: byte) {
    IsLetter(b) || IsDigit(b) || b == UNDERSCORE
  }

  function Upper(b: byte): byte {
    if 0x61 <= b <= 0x7A then b - 0x20 else b
  }

  /** \s*, which no following atom can begin with, so taking all of it is the only match. */
  function SkipSpace(s: bytes, i: nat): (j: nat)
    requires i <= |s|
    ensures i <= j <= |s|
    ensures forall k :: i <= k < j ==> IsSpace(s[k])
    decreases |s| - i
  {
    if i < |s| && IsSpace(s[i]) then SkipSpace(s, i + 1) else i
  }

  predicate At(s: bytes, i: nat, b: byte) {
    i < |s| && s[i] == b
  }

  /** Either pipe, U+007C or U+FF5C. */
  function PipeLen(s: bytes, i: nat): (n: nat)
    ensures n > 0 ==> i + n <= |s| && (s[i] == 0x7C || s[i] == 0xEF)
  {
    if At(s, i, 0x7C) then 1
    else if At(s, i, 0xEF) && At(s, i + 1, 0xBD) && At(s, i + 2, 0x9C) then 3
    else 0
  }

  /** One character of an angle marker's name: a word character or U+2581. */
  function UnitLen(s: bytes, i: nat): (n: nat)
    ensures n > 0 ==> i + n <= |s|
  {
    if i < |s| && IsNameByte(s[i]) then 1
    else if At(s, i, 0xE2) && At(s, i + 1, 0x96) && At(s, i + 2, 0x81) then 3
    else 0
  }

  function NameEnd(s: bytes, i: nat, max: nat): (j: nat)
    requires i <= |s|
    ensures i <= j <= |s|
    decreases max
  {
    if max > 0 && UnitLen(s, i) > 0 then NameEnd(s, i + UnitLen(s, i), max - 1) else i
  }

  /** <[|]\s*name{1,32}\s*[|]> */
  function AngleAt(s: bytes, i: nat): (m: Match)
    requires i < |s|
    ensures m.Match? ==> i < m.from < m.to < m.end <= |s| && s[i] == LT && m.to == NameEnd(s, m.from, 32)
    ensures m.Match? ==> At(s, i + 1, 0x7C) || At(s, i + 1, 0xEF)
  {
    if s[i] != LT || PipeLen(s, i + 1) == 0 then NoMatch
    else
      var from := SkipSpace(s, i + 1 + PipeLen(s, i + 1));
      var to := NameEnd(s, from, 32);
      var after := SkipSpace(s, to);
      var pipe := PipeLen(s, after);
      if from < to && pipe > 0 && At(s, after + pipe, GT) then Match(from, to, after + pipe + 1) else NoMatch
  }

  /** A word in either ASCII case, as asciiFold spells it. */
  predicate WordAt(s: bytes, i: nat, word: bytes) {
    i + |word| <= |s| && forall k :: 0 <= k < |word| ==> Lower(s[i + k]) == word[k]
  }

  /** <\s*(start_of_turn|end_of_turn)\s*> */
  function TurnAt(s: bytes, i: nat): (m: Match)
    requires i < |s|
    ensures m.Match? ==> i < m.from < m.to < m.end <= |s| && s[i] == LT
    ensures m.Match? ==> (WordAt(s, m.from, START_OF_TURN) && m.to == m.from + |START_OF_TURN|) ||
                         (WordAt(s, m.from, END_OF_TURN) && m.to == m.from + |END_OF_TURN|)
    ensures m.Match? ==> IsSpace(s[i + 1]) || IsLetter(s[i + 1])
  {
    if s[i] != LT then NoMatch
    else
      var from := SkipSpace(s, i + 1);
      var to := if WordAt(s, from, START_OF_TURN) then from + |START_OF_TURN|
                else if WordAt(s, from, END_OF_TURN) then from + |END_OF_TURN| else from;
      var after := SkipSpace(s, to);
      if from < to && At(s, after, GT) then
        FirstOfWord(s, from);
        Match(from, to, after + 1)
      else NoMatch
  }

  lemma FirstOfWord(s: bytes, i: nat)
    requires WordAt(s, i, START_OF_TURN) || WordAt(s, i, END_OF_TURN)
    ensures IsLetter(s[i])
  {
    assert START_OF_TURN[0] == 0x73 && END_OF_TURN[0] == 0x65;
    assert Lower(s[i + 0]) == 0x73 || Lower(s[i + 0]) == 0x65;
  }

  /** \s*\/?\s*word\s* from i; where it ends, or nothing. */
  function InnerEnd(s: bytes, i: nat, word: bytes): (m: Match)
    requires i <= |s|
    ensures m.Match? ==> i <= m.from <= m.to <= m.end <= |s|
  {
    var a := SkipSpace(s, i);
    var b := if At(s, a, SLASH) then SkipSpace(s, a + 1) else a;
    if WordAt(s, b, word) then Match(b, b + |word|, SkipSpace(s, b + |word|)) else NoMatch
  }

  /** \[\s*\/?\s*INST\s*\]|<<\s*\/?\s*SYS\s*>> */
  function BracketAt(s: bytes, i: nat): (m: Match)
    requires i < |s|
    ensures m.Match? ==> m.from == i < m.end == m.to <= |s|
    ensures m.Match? ==> s[i] == OPEN || (s[i] == LT && At(s, i + 1, LT))
  {
    if s[i] == OPEN then
      var m := InnerEnd(s, i + 1, INST);
      if m.Match? && At(s, m.end, CLOSE) then Match(i, m.end + 1, m.end + 1) else NoMatch
    else if s[i] == LT && At(s, i + 1, LT) then
      var m := InnerEnd(s, i + 2, SYS);
      if m.Match? && At(s, m.end, GT) && At(s, m.end + 1, GT) then Match(i, m.end + 2, m.end + 2) else NoMatch
    else NoMatch
  }

  datatype Kind = Angle | Turn | Bracket

  function MatchAt(kind: Kind, s: bytes, i: nat): (m: Match)
    requires i < |s|
    ensures m.Match? ==> i <= m.from <= m.to <= m.end <= |s| && i < m.end
  {
    match kind
    case Angle => AngleAt(s, i)
    case Turn => TurnAt(s, i)
    case Bracket => BracketAt(s, i)
  }

  /** No two expressions match at one place, so the order by position is an order. */
  lemma KindsDisagree(s: bytes, i: nat, a: Kind, b: Kind)
    requires i < |s| && MatchAt(a, s, i).Match? && MatchAt(b, s, i).Match?
    ensures a == b
  {
    hide AngleAt, TurnAt, BracketAt, PipeLen, SkipSpace, WordAt, NameEnd;
  }

  // ---- names

  /** Lower case, with U+2581 folded to an underscore. */
  function AngleName(s: bytes, i: nat, to: nat, max: nat): bytes
    requires i <= to <= |s|
    decreases max
  {
    var n := UnitLen(s, i);
    if max == 0 || n == 0 || i + n > to then []
    else [if n == 1 then Lower(s[i]) else UNDERSCORE] + AngleName(s, i + n, to, max - 1)
  }

  function LowerAll(s: bytes): bytes {
    if s == [] then [] else [Lower(s[0])] + LowerAll(s[1..])
  }

  /** The marker without brackets, spaces and tabs, in upper case. */
  function BracketName(s: bytes): bytes {
    if s == [] then []
    else
      (if s[0] == OPEN || s[0] == CLOSE || s[0] == LT || s[0] == GT || s[0] == 0x20 || s[0] == 0x09 then []
       else [Upper(s[0])]) + BracketName(s[1..])
  }

  function NameOf(kind: Kind, s: bytes, m: Match): bytes
    requires m.Match? && m.from <= m.to <= |s|
  {
    match kind
    case Angle => AngleName(s, m.from, m.to, 32)
    case Turn => LowerAll(s[m.from..m.to])
    case Bracket => BracketName(s[m.from..m.to])
  }

  lemma {:induction false} AngleNameIsBenign(s: bytes, i: nat, to: nat, max: nat)
    requires i <= to <= |s|
    ensures Benign(AngleName(s, i, to, max))
    decreases max
  {
    var n := UnitLen(s, i);
    if max > 0 && n > 0 && i + n <= to {
      AngleNameIsBenign(s, i + n, to, max - 1);
    }
  }

  lemma {:induction false} LowerAllIsBenign(s: bytes)
    requires forall i :: 0 <= i < |s| ==> IsNameByte(s[i])
    ensures Benign(LowerAll(s))
  {
    if s != [] {
      LowerAllIsBenign(s[1..]);
    }
  }

  /** What a bracket marker is made of, on a line the first pass has cleaned. */
  predicate BracketByte(b: byte) {
    b == OPEN || b == CLOSE || b == LT || b == GT || b == SLASH || IsLetter(b) || (IsSpace(b) && b != 0x0A && b != 0x0C)
  }

  lemma {:induction false} BracketNameIsBenign(s: bytes)
    requires forall i :: 0 <= i < |s| ==> BracketByte(s[i])
    ensures Benign(BracketName(s))
  {
    if s != [] {
      BracketNameIsBenign(s[1..]);
    }
  }

  lemma {:induction false} VisibleBytes(s: bytes)
    requires AllVisible(s)
    ensures forall i :: 0 <= i < |s| ==> s[i] != 0x0C
  {
    if s != [] {
      var n := Next(s).len;
      VisibleBytes(s[n..]);
      FirstRuneBytes(s);
      forall i | 0 <= i < |s| ensures s[i] != 0x0C {
        assert i >= n ==> s[i] == s[n..][i - n];
      }
    }
  }

  lemma FirstRuneBytes(s: bytes)
    requires s != [] && Next(s).Keep?
    ensures forall i :: 0 <= i < Next(s).len ==> s[i] != 0x0C
  {}

  lemma WordLetters(s: bytes, i: nat, word: bytes)
    requires WordAt(s, i, word) && forall k :: 0 <= k < |word| ==> 0x61 <= word[k] <= 0x7A || word[k] == UNDERSCORE
    ensures forall k :: i <= k < i + |word| ==> IsNameByte(s[k]) && (s[k] != UNDERSCORE ==> IsLetter(s[k]))
  {
    forall k | i <= k < i + |word|
      ensures IsNameByte(s[k]) && (s[k] != UNDERSCORE ==> IsLetter(s[k]))
    {
      assert Lower(s[i + (k - i)]) == word[k - i];
    }
  }

  lemma PlainWords()
    ensures forall k :: 0 <= k < |INST| ==> 0x61 <= INST[k] <= 0x7A
    ensures forall k :: 0 <= k < |SYS| ==> 0x61 <= SYS[k] <= 0x7A
  {}

  lemma TurnWords()
    ensures forall k :: 0 <= k < |START_OF_TURN| ==> 0x61 <= START_OF_TURN[k] <= 0x7A || START_OF_TURN[k] == UNDERSCORE
    ensures forall k :: 0 <= k < |END_OF_TURN| ==> 0x61 <= END_OF_TURN[k] <= 0x7A || END_OF_TURN[k] == UNDERSCORE
  {}

  lemma InnerBytes(s: bytes, i: nat, word: bytes)
    requires i <= |s| && InnerEnd(s, i, word).Match?
    requires forall k :: 0 <= k < |word| ==> 0x61 <= word[k] <= 0x7A
    ensures forall k :: i <= k < InnerEnd(s, i, word).end ==> IsSpace(s[k]) || s[k] == SLASH || IsLetter(s[k])
  {
    var m := InnerEnd(s, i, word);
    var a := SkipSpace(s, i);
    forall k | m.from <= k < m.to ensures IsLetter(s[k]) {
      assert Lower(s[m.from + (k - m.from)]) == word[k - m.from];
    }
  }

  lemma TurnNameIsBenign(s: bytes, i: nat)
    requires i < |s| && TurnAt(s, i).Match?
    ensures Benign(NameOf(Turn, s, TurnAt(s, i)))
  {
    hide WordAt;
    var m := TurnAt(s, i);
    TurnWords();
    WordLetters(s, m.from, if WordAt(s, m.from, START_OF_TURN) && m.to == m.from + |START_OF_TURN| then START_OF_TURN else END_OF_TURN);
    LowerAllIsBenign(s[m.from..m.to]);
  }

  lemma BracketMarkerBytes(s: bytes, i: nat)
    requires i < |s| && BracketAt(s, i).Match?
    ensures forall k :: i <= k < BracketAt(s, i).end ==>
              s[k] == OPEN || s[k] == CLOSE || s[k] == LT || s[k] == GT || s[k] == SLASH || IsLetter(s[k]) || IsSpace(s[k])
  {
    hide WordAt, InnerEnd, IsLetter, IsSpace;
    PlainWords();
    if s[i] == OPEN {
      InnerBytes(s, i + 1, INST);
    } else {
      InnerBytes(s, i + 2, SYS);
    }
  }

  lemma BracketMarkerIsBenign(s: bytes, i: nat)
    requires i < |s| && BracketAt(s, i).Match? && AllVisible(s) && OneLine(s)
    ensures Benign(NameOf(Bracket, s, BracketAt(s, i)))
  {
    hide AllVisible, BracketAt, IsLetter, IsSpace, Benign, BracketName;
    var m := BracketAt(s, i);
    VisibleBytes(s);
    BracketMarkerBytes(s, i);
    BracketNameIsBenign(s[m.from..m.to]);
  }

  /** A name says nothing that could be a marker or be hidden. */
  lemma NameIsBenign(kind: Kind, s: bytes, i: nat)
    requires i < |s| && MatchAt(kind, s, i).Match? && AllVisible(s) && OneLine(s)
    ensures Benign(NameOf(kind, s, MatchAt(kind, s, i)))
  {
    hide NameOf, AngleAt, TurnAt, BracketAt, AllVisible;
    match kind
    case Angle => AngleMarkerIsBenign(s, i);
    case Turn => TurnNameIsBenign(s, i);
    case Bracket => BracketMarkerIsBenign(s, i);
  }

  lemma AngleMarkerIsBenign(s: bytes, i: nat)
    requires i < |s| && AngleAt(s, i).Match?
    ensures Benign(NameOf(Angle, s, AngleAt(s, i)))
  {
    hide AngleAt;
    AngleNameIsBenign(s, AngleAt(s, i).from, AngleAt(s, i).to, 32);
  }

  // ---- all the markers of a line

  datatype Marker = Marker(name: bytes, at: nat)

  /** FindAll: leftmost first, each search resuming where the last match ended. */
  function FindAll(kind: Kind, s: bytes, i: nat): (ms: seq<Marker>)
    requires i <= |s|
    decreases |s| - i
  {
    if i == |s| then []
    else
      var m := MatchAt(kind, s, i);
      if m.Match? then [Marker(NameOf(kind, s, m), i)] + FindAll(kind, s, m.end) else FindAll(kind, s, i + 1)
  }

  function InsertMarker(m: Marker, ms: seq<Marker>): seq<Marker> {
    if ms == [] || m.at <= ms[0].at then [m] + ms else [ms[0]] + InsertMarker(m, ms[1..])
  }

  function SortMarkers(ms: seq<Marker>): seq<Marker> {
    if ms == [] then [] else InsertMarker(ms[0], SortMarkers(ms[1..]))
  }

  function Unsorted(line: bytes): seq<Marker> {
    FindAll(Angle, line, 0) + FindAll(Turn, line, 0) + FindAll(Bracket, line, 0)
  }

  /** lineMarkers. */
  function LineMarkers(line: bytes): seq<Marker> {
    SortMarkers(Unsorted(line))
  }

  /** A line carries a marker: some expression matches somewhere on it. */
  predicate Marked(line: bytes) {
    exists kind: Kind, i :: 0 <= i < |line| && MatchAt(kind, line, i).Match?
  }

  lemma {:induction false} FoundWhereMatched(kind: Kind, s: bytes, i: nat)
    requires i <= |s|
    ensures forall k :: 0 <= k < |FindAll(kind, s, i)| ==>
              var f := FindAll(kind, s, i)[k];
              i <= f.at < |s| && MatchAt(kind, s, f.at).Match? && f.name == NameOf(kind, s, MatchAt(kind, s, f.at))
    ensures forall j, k :: 0 <= j < k < |FindAll(kind, s, i)| ==> FindAll(kind, s, i)[j].at < FindAll(kind, s, i)[k].at
    ensures FindAll(kind, s, i) == [] ==> forall k :: i <= k < |s| ==> !MatchAt(kind, s, k).Match?
    decreases |s| - i
  {
    hide MatchAt, NameOf;
    if i < |s| {
      var m := MatchAt(kind, s, i);
      var next := if m.Match? then m.end else i + 1;
      FoundWhereMatched(kind, s, next);
      if m.Match? {
        assert FindAll(kind, s, i) == [Marker(NameOf(kind, s, m), i)] + FindAll(kind, s, next);
      }
    }
  }

  lemma {:induction false} InsertKeeps(m: Marker, ms: seq<Marker>)
    ensures multiset(InsertMarker(m, ms)) == multiset(ms) + multiset{m}
  {
    if ms != [] && m.at > ms[0].at {
      InsertKeeps(m, ms[1..]);
      assert ms == [ms[0]] + ms[1..];
    }
  }

  lemma {:induction false} SortKeeps(ms: seq<Marker>)
    ensures multiset(SortMarkers(ms)) == multiset(ms)
  {
    if ms != [] {
      SortKeeps(ms[1..]);
      InsertKeeps(ms[0], SortMarkers(ms[1..]));
      assert ms == [ms[0]] + ms[1..];
    }
  }

  /** Strictly: no two at one place. */
  predicate InOrder(ms: seq<Marker>) {
    forall j, k :: 0 <= j < k < |ms| ==> ms[j].at < ms[k].at
  }

  predicate Apart(ms: seq<Marker>) {
    forall j, k :: 0 <= j < k < |ms| ==> ms[j].at != ms[k].at
  }

  lemma {:induction false} InsertInOrder(m: Marker, ms: seq<Marker>)
    requires InOrder(ms) && forall x :: x in ms ==> x.at != m.at
    ensures InOrder(InsertMarker(m, ms))
  {
    if ms != [] && m.at > ms[0].at {
      InsertInOrder(m, ms[1..]);
      InsertKeeps(m, ms[1..]);
      var t := InsertMarker(m, ms[1..]);
      forall k | 0 <= k < |t| ensures ms[0].at < t[k].at {
        assert t[k] in multiset(t);
        assert t[k] == m || t[k] in ms[1..];
      }
    }
  }

  lemma {:induction false} SortInOrder(ms: seq<Marker>)
    requires Apart(ms)
    ensures InOrder(SortMarkers(ms))
  {
    if ms != [] {
      SortInOrder(ms[1..]);
      SortKeeps(ms[1..]);
      var t := SortMarkers(ms[1..]);
      forall x | x in t ensures x.at != ms[0].at {
        assert x in multiset(t);
        assert x in ms[1..];
      }
      InsertInOrder(ms[0], t);
    }
  }

  lemma ApartConcat(a: seq<Marker>, b: seq<Marker>)
    requires Apart(a) && Apart(b) && forall x, y :: x in a && y in b ==> x.at != y.at
    ensures Apart(a + b)
  {}

  lemma FoundApart(line: bytes, a: Kind, b: Kind)
    requires a != b
    ensures forall x, y :: x in FindAll(a, line, 0) && y in FindAll(b, line, 0) ==> x.at != y.at
  {
    hide MatchAt, NameOf, FindAll;
    FoundWhereMatched(a, line, 0);
    FoundWhereMatched(b, line, 0);
    forall x, y | x in FindAll(a, line, 0) && y in FindAll(b, line, 0) ensures x.at != y.at {
      if x.at == y.at { KindsDisagree(line, x.at, a, b); }
    }
  }

  /** The matches of the three expressions are all at different places. */
  lemma UnsortedIsApart(line: bytes)
    ensures Apart(Unsorted(line))
  {
    var a, t, b := FindAll(Angle, line, 0), FindAll(Turn, line, 0), FindAll(Bracket, line, 0);
    FoundWhereMatched(Angle, line, 0);
    FoundWhereMatched(Turn, line, 0);
    FoundWhereMatched(Bracket, line, 0);
    hide FindAll, MatchAt, NameOf;
    FoundApart(line, Angle, Turn);
    FoundApart(line, Angle, Bracket);
    FoundApart(line, Turn, Bracket);
    ApartConcat(a, t);
    ApartConcat(a + t, b);
  }

  predicate Ordered(ms: seq<Marker>) {
    forall j, k :: 0 <= j < k < |ms| ==> ms[j].at <= ms[k].at
  }

  /** A list whose places all differ can be sorted in one way only, stable or not. */
  lemma {:induction false} OneOrder(ms: seq<Marker>, ts: seq<Marker>)
    requires InOrder(ms) && Ordered(ts) && multiset(ms) == multiset(ts)
    ensures ms == ts
  {
    SameLength(ms, ts);
    if ms != [] {
      SameFirst(ms, ts);
      TailMembers(ms);
      TailMembers(ts);
      var m, rest, rest' := ms[0], ms[1..], ts[1..];
      assert InOrder(rest) && Ordered(rest');
      hide InOrder, Ordered;
      OneOrder(rest, rest');
      assert ms == [m] + rest && ts == [m] + rest';
    }
  }

  lemma SameLength(ms: seq<Marker>, ts: seq<Marker>)
    requires multiset(ms) == multiset(ts)
    ensures |ms| == |ts|
  {
    assert |ms| == |multiset(ms)| && |ts| == |multiset(ts)|;
  }

  lemma SameFirst(ms: seq<Marker>, ts: seq<Marker>)
    requires ms != [] && ts != [] && InOrder(ms) && Ordered(ts) && multiset(ms) == multiset(ts)
    ensures ms[0] == ts[0]
  {
    SameMembers(ms, ts);
    assert ms[0] in ts && ts[0] in ms;
  }

  lemma SameMembers(ms: seq<Marker>, ts: seq<Marker>)
    requires multiset(ms) == multiset(ts)
    ensures forall m :: m in ms <==> m in ts
  {
    assert forall m :: m in ms <==> m in multiset(ms);
    assert forall m :: m in ts <==> m in multiset(ts);
  }

  lemma TailMembers(ms: seq<Marker>)
    requires ms != []
    ensures multiset(ms[1..]) == multiset(ms) - multiset{ms[0]}
  {
    assert ms == [ms[0]] + ms[1..];
  }

  predicate FoundBySome(m: Marker, line: bytes) {
    exists kind: Kind :: m in FindAll(kind, line, 0)
  }

  lemma FoundExactlyWhenMatched(kind: Kind, line: bytes)
    ensures FindAll(kind, line, 0) == [] <==> forall i :: 0 <= i < |line| ==> !MatchAt(kind, line, i).Match?
  {
    hide MatchAt, NameOf, FindAll;
    FoundWhereMatched(kind, line, 0);
    var found := FindAll(kind, line, 0);
    if found != [] {
      assert MatchAt(kind, line, found[0].at).Match?;
    }
  }

  lemma NothingFoundExactlyWhenUnmarked(line: bytes)
    ensures Unsorted(line) == [] <==> !Marked(line)
  {
    hide MatchAt, NameOf, FindAll;
    FoundExactlyWhenMatched(Angle, line);
    FoundExactlyWhenMatched(Turn, line);
    FoundExactlyWhenMatched(Bracket, line);
    var u := Unsorted(line);
    assert u == [] <==> FindAll(Angle, line, 0) == [] && FindAll(Turn, line, 0) == [] && FindAll(Bracket, line, 0) == [];
    if Marked(line) {
      var kind: Kind, i :| 0 <= i < |line| && MatchAt(kind, line, i).Match?;
      match kind case Angle => case Turn => case Bracket =>
    }
  }

  lemma UnsortedIsFound(line: bytes)
    ensures forall m :: m in Unsorted(line) ==> FoundBySome(m, line)
  {
    hide FindAll;
    var a, t, b := FindAll(Angle, line, 0), FindAll(Turn, line, 0), FindAll(Bracket, line, 0);
    assert Unsorted(line) == a + t + b;
    forall m | m in Unsorted(line) ensures FoundBySome(m, line) {
      assert m in a || m in t || m in b;
    }
  }

  /** The report of a line is every match the expressions find, each further on than the one before;
      it is empty exactly when nothing matches anywhere. */
  lemma LineMarkersAreTheMatches(line: bytes)
    ensures LineMarkers(line) == [] <==> !Marked(line)
    ensures InOrder(LineMarkers(line))
    ensures multiset(LineMarkers(line)) == multiset(Unsorted(line))
    ensures forall m :: m in LineMarkers(line) ==> FoundBySome(m, line)
  {
    hide MatchAt, NameOf, FindAll, Unsorted, SortMarkers, Marked, FoundBySome;
    NothingFoundExactlyWhenUnmarked(line);
    UnsortedIsFound(line);
    SortKeeps(Unsorted(line));
    UnsortedIsApart(line);
    SortInOrder(Unsorted(line));
    var ms := LineMarkers(line);
    assert |ms| == |multiset(ms)| == |Unsorted(line)|;
    forall m | m in ms ensures FoundBySome(m, line) {
      assert m in multiset(ms);
      assert m in Unsorted(line);
    }
  }

  /** So whatever order an unstable sort by position leaves the matches in, it is this one. */
  lemma LineMarkersHaveOneOrder(line: bytes, sorted: seq<Marker>)
    requires Ordered(sorted) && multiset(sorted) == multiset(Unsorted(line))
    ensures sorted == LineMarkers(line)
  {
    hide Unsorted, LineMarkers, InOrder, Ordered;
    LineMarkersAreTheMatches(line);
    OneOrder(LineMarkers(line), sorted);
  }

  lemma LineNamesAreBenign(line: bytes)
    requires AllVisible(line) && OneLine(line)
    ensures forall k :: 0 <= k < |LineMarkers(line)| ==> Benign(LineMarkers(line)[k].name)
  {
    hide MatchAt, NameOf, FindAll, AllVisible, LineMarkers, Benign, Marked;
    LineMarkersAreTheMatches(line);
    var ms := LineMarkers(line);
    forall k | 0 <= k < |ms| ensures Benign(ms[k].name) {
      assert FoundBySome(ms[k], line);
      var kind: Kind :| ms[k] in FindAll(kind, line, 0);
      FoundWhereMatched(kind, line, 0);
      NameIsBenign(kind, line, ms[k].at);
    }
  }

  // ---- the cut

  /** The index of the first marked line, or the number of lines. */
  function FirstMarked(lines: seq<bytes>): (n: nat)
    ensures n <= |lines|
    ensures forall i :: 0 <= i < n ==> LineMarkers(lines[i]) == []
    ensures n < |lines| ==> LineMarkers(lines[n]) != []
  {
    if lines == [] || LineMarkers(lines[0]) != [] then 0 else 1 + FirstMarked(lines[1..])
  }

  function Names(ms: seq<Marker>): (out: seq<bytes>)
    ensures |out| == |ms| && forall i :: 0 <= i < |ms| ==> out[i] == ms[i].name
  {
    seq(|ms|, i requires 0 <= i < |ms| => ms[i].name)
  }

  function AllNames(lines: seq<bytes>): seq<bytes> {
    if lines == [] then [] else Names(LineMarkers(lines[0])) + AllNames(lines[1..])
  }

  /** What the cut leaves, and its one hit: from the first marked line to the end, always. */
  function Cut(text: bytes): bytes {
    var lines := Lines(text);
    var first := FirstMarked(lines);
    if first == |lines| then text else Unlines(lines[..first])
  }

  function CutHit(field: bytes, text: bytes): Hit {
    var lines := Lines(text);
    Hit(field, FirstMarked(lines) + 1, |lines|, ControlToken, false, Summarise(AllNames(lines)))
  }

  predicate HasMarkedLine(text: bytes) {
    FirstMarked(Lines(text)) < |Lines(text)|
  }

  lemma {:induction false} OneMoreLine(lines: seq<bytes>, i: nat)
    requires i < |lines|
    ensures var rest, ms := lines[i..], LineMarkers(lines[i]);
            FirstMarked(rest) == (if ms != [] then 0 else 1 + FirstMarked(lines[i + 1..])) &&
            AllNames(rest) == Names(ms) + AllNames(lines[i + 1..])
  {
    hide LineMarkers, Names;
    assert lines[i..][1..] == lines[i + 1..];
  }

  method StripForgedTurn(field: bytes, text: bytes) returns (cleaned: bytes, forged: bool, hit: Hit)
    ensures forged <==> HasMarkedLine(text)
    ensures cleaned == Cut(text)
    ensures forged ==> hit == CutHit(field, text)
  {
    hide LineMarkers, FirstMarked, AllNames, Unlines, Lines, Names, Summarise;
    var lines := Lines(text);
    var first, found := -1, [];
    hit := Hit(field, 0, 0, ControlToken, false, []);
    assert lines[0..] == lines;
    for i := 0 to |lines|
      invariant -1 <= first < i
      invariant first < 0 ==> FirstMarked(lines) == i + FirstMarked(lines[i..])
      invariant first >= 0 ==> FirstMarked(lines) == first
      invariant found + AllNames(lines[i..]) == AllNames(lines)
    {
      var ms := LineMarkers(lines[i]);
      OneMoreLine(lines, i);
      if ms != [] {
        if first < 0 {
          first := i;
        }
        found := found + Names(ms);
      } else {
        assert Names(ms) == [];
      }
    }
    assert lines[|lines|..] == [];
    NoMoreLines();
    assert found + [] == found;
    if first < 0 { return text, false, hit; }
    var end := |lines| - 1;
    cleaned := Unlines(lines[..first] + lines[end + 1..]);
    assert lines[..first] + lines[end + 1..] == lines[..first];
    forged := true;
    hit := Hit(field, first + 1, end + 1, ControlToken, false, Summarise(found));
  }

  lemma NoMoreLines()
    ensures FirstMarked([]) == 0 && AllNames([]) == []
  {}

  lemma {:induction false} AllNamesAreBenign(lines: seq<bytes>)
    requires forall i :: 0 <= i < |lines| ==> AllVisible(lines[i]) && OneLine(lines[i])
    ensures forall k :: 0 <= k < |AllNames(lines)| ==> Benign(AllNames(lines)[k])
  {
    hide LineMarkers, AllVisible, OneLine, Benign;
    if lines != [] {
      LineNamesAreBenign(lines[0]);
      AllNamesAreBenign(lines[1..]);
    }
  }

  /** The lines before the cut, and nothing after it. */
  lemma {:induction false} CutHasNoMarkedLine(text: bytes)
    ensures !HasMarkedLine(Cut(text))
    ensures HasMarkedLine(text) ==> |Cut(text)| < |text|
    ensures Cut(text) <= text
    ensures FirstMarked(Lines(text)) > 0 ==> Lines(Cut(text)) == Lines(text)[..FirstMarked(Lines(text))]
  {
    hide LineMarkers, Lines;
    var lines := Lines(text);
    var first := FirstMarked(lines);
    UnlinesOfLines(text);
    if first < |lines| {
      UnlinesPrefix(lines, first);
      if first == 0 {
        EmptyLineIsUnmarked();
        assert lines[..0] == [];
        FirstMarkedLineIsNotEmpty(lines);
      } else {
        LinesOfUnlines(lines[..first]);
        FirstMarkedOfPrefix(lines, first);
      }
    } else {
      assert lines[..first] == lines;
    }
  }

  lemma EmptyLineIsUnmarked()
    ensures LineMarkers([]) == [] && Lines([]) == [[]] && FirstMarked([[]]) == 1
  {}

  lemma FirstMarkedLineIsNotEmpty(lines: seq<bytes>)
    requires FirstMarked(lines) < |lines|
    ensures lines[FirstMarked(lines)] != []
  {
    EmptyLineIsUnmarked();
  }

  lemma {:induction false} FirstMarkedOfPrefix(lines: seq<bytes>, n: nat)
    requires n <= FirstMarked(lines)
    ensures FirstMarked(lines[..n]) == n
  {
    hide LineMarkers;
    assert forall i :: 0 <= i < n ==> lines[..n][i] == lines[i];
  }

  lemma {:induction false} UnlinesPrefix(lines: seq<bytes>, n: nat)
    requires n <= |lines|
    ensures Unlines(lines[..n]) <= Unlines(lines)
    ensures 0 < n < |lines| ==> |Unlines(lines[..n])| < |Unlines(lines)|
    ensures n == 0 < |lines| && lines[0] != [] ==> |Unlines(lines[..n])| < |Unlines(lines)|
  {
    if n == |lines| {
      assert lines[..n] == lines;
    } else if n > 1 {
      UnlinesPrefix(lines[1..], n - 1);
      assert lines[..n][1..] == lines[1..][..n - 1];
    }
  }
}

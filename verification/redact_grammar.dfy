/** What a marker looks like, byte by byte, and that the matching finds exactly such texts. */
module RedactGrammar {
  import opened Bytes
  import opened RedactMarkers

  /** \s */
  predicate Space(b: byte) {
    b == 0x09 || b == 0x0A || b == 0x0C || b == 0x0D || b == 0x20
  }

  predicate Spaces(s: bytes) {
    forall i :: 0 <= i < |s| ==> Space(s[i])
  }

  /** U+007C or U+FF5C. */
  predicate Pipe(p: bytes) {
    p == [0x7C] || p == [0xEF, 0xBD, 0x9C]
  }

  predicate Letter(b: byte) {
    0x41 <= b <= 0x5A || 0x61 <= b <= 0x7A
  }

  predicate Numeral(b: byte) {
    0x30 <= b <= 0x39
  }

  predicate Single(s: bytes) {
    s != [] && (Letter(s[0]) || Numeral(s[0]) || s[0] == 0x5F)
  }

  /** U+2581 */
  predicate Block(s: bytes) {
    |s| >= 3 && s[0] == 0xE2 && s[1] == 0x96 && s[2] == 0x81
  }

  /** n characters, each an ASCII letter, digit or underscore, or U+2581. */
  predicate Named(s: bytes, n: nat) {
    if n == 0 then s == []
    else (Single(s) && Named(s[1..], n - 1)) || (Block(s) && Named(s[3..], n - 1))
  }

  /** A word of lower-case ASCII with its letters in either case. */
  predicate Folds(w: bytes, word: string) {
    |w| == |word| &&
    forall k :: 0 <= k < |w| ==> w[k] == word[k] as int || ('a' <= word[k] <= 'z' && w[k] == word[k] as int - 32)
  }

  /** The parts of a marker. */
  datatype Shape =
    | AngleShape(open: bytes, before: bytes, name: bytes, size: nat, after: bytes, close: bytes)
    | TurnShape(before: bytes, word: bytes, after: bytes)
    | BracketShape(doubled: bool, before: bytes, slash: bytes, between: bytes, word: bytes, after: bytes)

  predicate IsMarker(x: Shape) {
    match x
    case AngleShape(open, before, name, size, after, close) =>
      Pipe(open) && Spaces(before) && 1 <= size <= 32 && Named(name, size) && Spaces(after) && Pipe(close)
    case TurnShape(before, word, after) =>
      Spaces(before) && (Folds(word, "start_of_turn") || Folds(word, "end_of_turn")) && Spaces(after)
    case BracketShape(doubled, before, slash, between, word, after) =>
      Spaces(before) && (slash == [] || slash == [0x2F]) && Spaces(between) && Spaces(after) &&
      Folds(word, if doubled then "sys" else "inst")
  }

  function Text(x: Shape): bytes {
    match x
    case AngleShape(open, before, name, _, after, close) => [0x3C] + open + before + name + after + close + [0x3E]
    case TurnShape(before, word, after) => [0x3C] + before + word + after + [0x3E]
    case BracketShape(doubled, before, slash, between, word, after) =>
      (if doubled then [0x3C, 0x3C] else [0x5B]) + before + slash + between + word + after +
      (if doubled then [0x3E, 0x3E] else [0x5D])
  }

  function KindOf(x: Shape): Kind {
    match x
    case AngleShape(_, _, _, _, _, _) => Angle
    case TurnShape(_, _, _) => Turn
    case BracketShape(_, _, _, _, _, _) => Bracket
  }

  /** The text t lies at index i. */
  predicate Lies(s: bytes, i: nat, t: bytes) {
    i + |t| <= |s| && s[i..i + |t|] == t
  }

  lemma LiesInTwo(s: bytes, i: nat, a: bytes, b: bytes)
    ensures Lies(s, i, a + b) <==> Lies(s, i, a) && Lies(s, i + |a|, b)
  {
    if Lies(s, i, a + b) {
      assert s[i..i + |a|] == (a + b)[..|a|];
      assert s[i + |a|..i + |a| + |b|] == (a + b)[|a|..];
    }
    if Lies(s, i, a) && Lies(s, i + |a|, b) {
      assert s[i..i + |a + b|] == s[i..i + |a|] + s[i + |a|..i + |a| + |b|];
    }
  }

  lemma LiesAsByte(s: bytes, i: nat, b: byte)
    ensures Lies(s, i, [b]) <==> At(s, i, b)
  {
    if At(s, i, b) { assert s[i..i + 1] == [b]; }
    if Lies(s, i, [b]) { assert s[i] == s[i..i + 1][0]; }
  }

  // ---- the pieces

  lemma {:induction false} SkipsSpaces(s: bytes, i: nat, a: bytes)
    requires Lies(s, i, a) && Spaces(a) && (i + |a| < |s| ==> !Space(s[i + |a|]))
    ensures i + |a| <= |s| && SkipSpace(s, i) == i + |a|
    decreases |a|
  {
    if a != [] {
      assert s[i] == a[0];
      assert s[i + 1..i + 1 + |a[1..]|] == a[1..];
      SkipsSpaces(s, i + 1, a[1..]);
    }
  }

  lemma SkippedAreSpaces(s: bytes, i: nat)
    requires i <= |s|
    ensures Spaces(s[i..SkipSpace(s, i)]) && Lies(s, i, s[i..SkipSpace(s, i)])
  {}

  lemma PipeLies(s: bytes, i: nat)
    ensures PipeLen(s, i) > 0 <==> exists p :: Pipe(p) && Lies(s, i, p)
    ensures forall p :: Pipe(p) && Lies(s, i, p) ==> PipeLen(s, i) == |p|
    ensures PipeLen(s, i) > 0 ==> Pipe(s[i..i + PipeLen(s, i)])
  {
    forall p | Pipe(p) && Lies(s, i, p) ensures PipeLen(s, i) == |p| {
      assert s[i] == p[0];
      if |p| == 3 {
        assert s[i + 1] == s[i..i + 3][1] && s[i + 2] == s[i..i + 3][2];
      }
    }
    var n := PipeLen(s, i);
    if n > 0 {
      if n == 1 { assert s[i..i + n] == [0x7C]; } else { assert s[i..i + n] == [0xEF, 0xBD, 0x9C]; }
      assert Pipe(s[i..i + n]) && Lies(s, i, s[i..i + n]);
    }
  }

  lemma {:induction false} NameIsRead(s: bytes, i: nat, name: bytes, n: nat, max: nat)
    requires Lies(s, i, name) && Named(name, n) && n <= max && UnitLen(s, i + |name|) == 0
    ensures i + |name| <= |s| && NameEnd(s, i, max) == i + |name|
    decreases n
  {
    if n > 0 {
      assert s[i] == s[i..i + |name|][0] == name[0];
      if Single(name) && Named(name[1..], n - 1) {
        assert s[i + 1..i + 1 + |name[1..]|] == name[1..];
        NameIsRead(s, i + 1, name[1..], n - 1, max - 1);
      } else {
        assert s[i + 1] == s[i..i + |name|][1] && s[i + 2] == s[i..i + |name|][2];
        assert s[i + 3..i + 3 + |name[3..]|] == name[3..];
        NameIsRead(s, i + 3, name[3..], n - 1, max - 1);
      }
    }
  }

  lemma {:induction false} ReadIsNamed(s: bytes, i: nat, max: nat) returns (n: nat)
    requires i <= |s|
    ensures n <= max && Named(s[i..NameEnd(s, i, max)], n) && (n == 0 <==> NameEnd(s, i, max) == i)
    decreases max
  {
    n := 0;
    if max > 0 && UnitLen(s, i) > 0 {
      var u := UnitLen(s, i);
      var end := NameEnd(s, i, max);
      n := ReadIsNamed(s, i + u, max - 1);
      assert s[i..end][u..] == s[i + u..end];
      n := n + 1;
    }
  }

  lemma WordLies(s: bytes, i: nat, word: string, b: bytes)
    requires b == Ascii(word) && forall k :: 0 <= k < |word| ==> 'a' <= word[k] <= 'z' || word[k] == '_'
    ensures WordAt(s, i, b) <==> i + |word| <= |s| && Folds(s[i..i + |word|], word)
  {
    if i + |word| <= |s| {
      var w := s[i..i + |word|];
      forall k | 0 <= k < |word|
        ensures Lower(s[i + k]) == b[k] <==> w[k] == word[k] as int || ('a' <= word[k] <= 'z' && w[k] == word[k] as int - 32)
      {
        assert w[k] == s[i + k] && b[k] == word[k] as int;
      }
    }
  }

  // ---- the three expressions

  lemma FirstOfName(name: bytes, n: nat)
    requires Named(name, n) && n > 0
    ensures name != [] && !Space(name[0])
  {}

  lemma PiecesOf(s: bytes, i: nat, a: bytes, b: bytes, c: bytes, d: bytes, e: bytes, f: bytes, g: bytes)
    requires Lies(s, i, a + b + c + d + e + f + g)
    ensures Lies(s, i, a) && Lies(s, i + |a|, b) && Lies(s, i + |a| + |b|, c) && Lies(s, i + |a| + |b| + |c|, d)
    ensures Lies(s, i + |a| + |b| + |c| + |d|, e) && Lies(s, i + |a| + |b| + |c| + |d| + |e|, f)
    ensures Lies(s, i + |a| + |b| + |c| + |d| + |e| + |f|, g)
  {
    LiesInTwo(s, i, a + b + c + d + e + f, g);
    LiesInTwo(s, i, a + b + c + d + e, f);
    LiesInTwo(s, i, a + b + c + d, e);
    LiesInTwo(s, i, a + b + c, d);
    LiesInTwo(s, i, a + b, c);
    LiesInTwo(s, i, a, b);
  }

  lemma Assembled(s: bytes, i: nat, a: bytes, b: bytes, c: bytes, d: bytes, e: bytes, f: bytes, g: bytes)
    requires Lies(s, i, a) && Lies(s, i + |a|, b) && Lies(s, i + |a| + |b|, c) && Lies(s, i + |a| + |b| + |c|, d)
    requires Lies(s, i + |a| + |b| + |c| + |d|, e) && Lies(s, i + |a| + |b| + |c| + |d| + |e|, f)
    requires Lies(s, i + |a| + |b| + |c| + |d| + |e| + |f|, g)
    ensures Lies(s, i, a + b + c + d + e + f + g)
  {
    LiesInTwo(s, i, a + b + c + d + e + f, g);
    LiesInTwo(s, i, a + b + c + d + e, f);
    LiesInTwo(s, i, a + b + c + d, e);
    LiesInTwo(s, i, a + b + c, d);
    LiesInTwo(s, i, a + b, c);
    LiesInTwo(s, i, a, b);
  }

  lemma FirstOf(s: bytes, i: nat, a: bytes)
    requires Lies(s, i, a) && a != []
    ensures i < |s| && s[i] == a[0]
  {}

  /** After spaces or the first byte of what follows. */
  lemma NextByte(s: bytes, i: nat, a: bytes, b: bytes)
    requires Lies(s, i, a) && Lies(s, i + |a|, b) && b != []
    ensures i < |s| && s[i] == if a != [] then a[0] else b[0]
  {
    if a != [] { FirstOf(s, i, a); } else { FirstOf(s, i, b); }
  }

  /** AngleAt, told where each of its steps ends. */
  lemma AngleSteps(s: bytes, i: nat, p1: nat, p2: nat, p3: nat, p4: nat, p5: nat)
    requires At(s, i, 0x3C) && PipeLen(s, i + 1) > 0 && p1 == i + 1 + PipeLen(s, i + 1) && p1 <= |s| && SkipSpace(s, p1) == p2
    requires NameEnd(s, p2, 32) == p3 && p2 < p3 && SkipSpace(s, p3) == p4 && PipeLen(s, p4) > 0 && p5 == p4 + PipeLen(s, p4)
    requires At(s, p5, 0x3E)
    ensures AngleAt(s, i) == Match(p2, p3, p5 + 1)
  {
    hide PipeLen, SkipSpace, NameEnd;
  }

  lemma AngleTextMatches(s: bytes, i: nat, x: Shape)
    requires x.AngleShape? && IsMarker(x) && Lies(s, i, Text(x)) && i < |s|
    ensures AngleAt(s, i) == Match(i + 1 + |x.open| + |x.before|, i + 1 + |x.open| + |x.before| + |x.name|, i + |Text(x)|)
  {
    hide Lies, PipeLen, SkipSpace, NameEnd, Named, Spaces, AngleAt, Pipe, At;
    PiecesOf(s, i, [0x3C], x.open, x.before, x.name, x.after, x.close, [0x3E]);
    AnglePieces(s, i, x);
  }

  lemma AnglePieces(s: bytes, i: nat, x: Shape)
    requires x.AngleShape? && IsMarker(x) && i < |s|
    requires Lies(s, i, [0x3C]) && Lies(s, i + 1, x.open) && Lies(s, i + 1 + |x.open|, x.before)
    requires Lies(s, i + 1 + |x.open| + |x.before|, x.name) && Lies(s, i + 1 + |x.open| + |x.before| + |x.name|, x.after)
    requires Lies(s, i + 1 + |x.open| + |x.before| + |x.name| + |x.after|, x.close)
    requires Lies(s, i + 1 + |x.open| + |x.before| + |x.name| + |x.after| + |x.close|, [0x3E])
    ensures var p1 := i + 1 + |x.open|; var p2 := p1 + |x.before|; var p3 := p2 + |x.name|; var p5 := p3 + |x.after| + |x.close|;
            AngleAt(s, i) == Match(p2, p3, p5 + 1)
  {
    hide Lies, PipeLen, SkipSpace, NameEnd, Named, Spaces, AngleAt, Pipe, At;
    var p1 := i + 1 + |x.open|;
    var p2 := p1 + |x.before|;
    var p3 := p2 + |x.name|;
    var p4 := p3 + |x.after|;
    LiesAsByte(s, i, 0x3C);
    LiesAsByte(s, p4 + |x.close|, 0x3E);
    PipeAt(s, i + 1, x.open);
    PipeAt(s, p4, x.close);
    AngleSpaces(s, p1, x);
    AngleSteps(s, i, p1, p2, p3, p4, p4 + |x.close|);
  }

  lemma LiesWithin(s: bytes, i: nat, a: bytes)
    requires Lies(s, i, a)
    ensures i + |a| <= |s|
  {}

  lemma PipeAt(s: bytes, i: nat, p: bytes)
    requires Pipe(p) && Lies(s, i, p)
    ensures PipeLen(s, i) == |p| > 0 && i + |p| <= |s|
  {
    PipeLies(s, i);
  }

  lemma AngleSpaces(s: bytes, p1: nat, x: Shape)
    requires x.AngleShape? && IsMarker(x) && Lies(s, p1, x.before) && Lies(s, p1 + |x.before|, x.name)
    requires Lies(s, p1 + |x.before| + |x.name|, x.after) && Lies(s, p1 + |x.before| + |x.name| + |x.after|, x.close)
    ensures x.name != [] && SkipSpace(s, p1) == p1 + |x.before| <= |s|
    ensures NameEnd(s, p1 + |x.before|, 32) == p1 + |x.before| + |x.name| <= |s|
    ensures SkipSpace(s, p1 + |x.before| + |x.name|) == p1 + |x.before| + |x.name| + |x.after|
  {
    hide SkipSpace, NameEnd, Named, Spaces, Lies, UnitLen;
    LiesWithin(s, p1, x.before);
    LiesWithin(s, p1 + |x.before|, x.name);
    var p2 := p1 + |x.before|;
    var p3 := p2 + |x.name|;
    FirstOfName(x.name, x.size);
    FirstOf(s, p2, x.name);
    SkipsSpaces(s, p1, x.before);
    NextByte(s, p3, x.after, x.close);
    NotAUnit(s, p3, x.after, x.close);
    NameIsRead(s, p2, x.name, x.size, 32);
    FirstOf(s, p3 + |x.after|, x.close);
    SkipsSpaces(s, p3, x.after);
  }

  lemma NotAUnit(s: bytes, i: nat, after: bytes, close: bytes)
    requires i < |s| && s[i] == (if after != [] then after[0] else if close != [] then close[0] else 0x7C) && Spaces(after) && Pipe(close)
    ensures UnitLen(s, i) == 0
  {}

  lemma AngleParts(s: bytes, i: nat)
    requires i < |s| && AngleAt(s, i).Match?
    ensures var m, p := AngleAt(s, i), PipeLen(s, i + 1);
            At(s, i, 0x3C) && p > 0 && i + 1 + p <= |s| && m.from == SkipSpace(s, i + 1 + p) && m.to == NameEnd(s, m.from, 32) > m.from &&
            PipeLen(s, SkipSpace(s, m.to)) > 0 && At(s, SkipSpace(s, m.to) + PipeLen(s, SkipSpace(s, m.to)), 0x3E)
  {}

  lemma PipePiece(s: bytes, i: nat)
    requires PipeLen(s, i) > 0
    ensures i + PipeLen(s, i) <= |s| && Pipe(s[i..i + PipeLen(s, i)]) && Lies(s, i, s[i..i + PipeLen(s, i)])
  {
    PipeLies(s, i);
  }

  lemma Piece(s: bytes, i: nat, j: nat)
    requires i <= j <= |s|
    ensures Lies(s, i, s[i..j]) && |s[i..j]| == j - i
  {}

  lemma AngleMatchIsText(s: bytes, i: nat) returns (x: Shape)
    requires i < |s| && AngleAt(s, i).Match?
    ensures x.AngleShape? && IsMarker(x) && Lies(s, i, Text(x))
  {
    hide AngleAt, PipeLen, SkipSpace, NameEnd, Named, Spaces, Lies, At, Pipe;
    AngleParts(s, i);
    var m := AngleAt(s, i);
    var a := i + 1;
    var b := a + PipeLen(s, a);
    var d := SkipSpace(s, m.to);
    var e := d + PipeLen(s, d);
    PipePiece(s, a);
    SkippedAreSpaces(s, b);
    var n := ReadIsNamed(s, m.from, 32);
    Piece(s, m.from, m.to);
    SkippedAreSpaces(s, m.to);
    PipePiece(s, d);
    LiesAsByte(s, i, 0x3C);
    LiesAsByte(s, e, 0x3E);
    x := AngleShape(s[a..b], s[b..m.from], s[m.from..m.to], n, s[m.to..d], s[d..e]);
    Assembled(s, i, [0x3C], x.open, x.before, x.name, x.after, x.close, [0x3E]);
  }

  lemma FoldsIsWord(s: bytes, i: nat, w: bytes)
    requires Lies(s, i, w)
    ensures Folds(w, "start_of_turn") ==> WordAt(s, i, START_OF_TURN) && |w| == |START_OF_TURN|
    ensures Folds(w, "end_of_turn") ==> WordAt(s, i, END_OF_TURN) && |w| == |END_OF_TURN|
    ensures Folds(w, "inst") ==> WordAt(s, i, INST) && |w| == |INST|
    ensures Folds(w, "sys") ==> WordAt(s, i, SYS) && |w| == |SYS|
  {
    hide WordAt;
    WordLies(s, i, "start_of_turn", START_OF_TURN);
    WordLies(s, i, "end_of_turn", END_OF_TURN);
    WordLies(s, i, "inst", INST);
    WordLies(s, i, "sys", SYS);
  }

  lemma WordFolds(s: bytes, i: nat)
    ensures WordAt(s, i, START_OF_TURN) ==> i + 13 <= |s| && |START_OF_TURN| == 13 && Folds(s[i..i + 13], "start_of_turn")
    ensures WordAt(s, i, END_OF_TURN) ==> i + 11 <= |s| && |END_OF_TURN| == 11 && Folds(s[i..i + 11], "end_of_turn")
    ensures WordAt(s, i, INST) ==> i + 4 <= |s| && |INST| == 4 && Folds(s[i..i + 4], "inst")
    ensures WordAt(s, i, SYS) ==> i + 3 <= |s| && |SYS| == 3 && Folds(s[i..i + 3], "sys")
  {
    hide WordAt, Folds;
    WordLies(s, i, "start_of_turn", START_OF_TURN);
    WordLies(s, i, "end_of_turn", END_OF_TURN);
    WordLies(s, i, "inst", INST);
    WordLies(s, i, "sys", SYS);
  }

  lemma FirstOfFolded(w: bytes)
    requires Folds(w, "start_of_turn") || Folds(w, "end_of_turn") || Folds(w, "inst") || Folds(w, "sys")
    ensures w != [] && !Space(w[0]) && w[0] != 0x2F && Letter(w[0])
    ensures Folds(w, "start_of_turn") ==> w[0] == 0x73 || w[0] == 0x53
    ensures Folds(w, "end_of_turn") ==> w[0] == 0x65 || w[0] == 0x45
  {}

  lemma WordsStartApart(s: bytes, i: nat, w: bytes)
    requires Lies(s, i, w) && Folds(w, "end_of_turn")
    ensures !WordAt(s, i, START_OF_TURN)
  {
    FirstOfFolded(w);
    FirstOf(s, i, w);
    if WordAt(s, i, START_OF_TURN) {
      WordFolds(s, i);
      FirstOfFolded(s[i..i + 13]);
    }
  }

  /** TurnAt, told where each of its steps ends. */
  lemma TurnSteps(s: bytes, i: nat, p1: nat, p2: nat, p3: nat)
    requires At(s, i, 0x3C) && SkipSpace(s, i + 1) == p1 && p2 <= |s| && SkipSpace(s, p2) == p3 && At(s, p3, 0x3E)
    requires if WordAt(s, p1, START_OF_TURN) then p2 == p1 + |START_OF_TURN| else WordAt(s, p1, END_OF_TURN) && p2 == p1 + |END_OF_TURN|
    ensures TurnAt(s, i) == Match(p1, p2, p3 + 1)
  {
    hide SkipSpace, WordAt;
    WordFolds(s, p1);
  }

  lemma TurnWordMatches(s: bytes, p: nat, w: bytes)
    requires Lies(s, p, w) && (Folds(w, "start_of_turn") || Folds(w, "end_of_turn"))
    ensures p + |w| <= |s| && w != [] && s[p] == w[0] && !Space(w[0])
    ensures if WordAt(s, p, START_OF_TURN) then |w| == |START_OF_TURN| else WordAt(s, p, END_OF_TURN) && |w| == |END_OF_TURN|
  {
    hide Folds, WordAt, Lies;
    LiesWithin(s, p, w);
    FirstOfFolded(w);
    FirstOf(s, p, w);
    FoldsIsWord(s, p, w);
    if Folds(w, "end_of_turn") { WordsStartApart(s, p, w); }
  }

  lemma TurnTextMatches(s: bytes, i: nat, x: Shape)
    requires x.TurnShape? && IsMarker(x) && Lies(s, i, Text(x)) && i < |s|
    ensures TurnAt(s, i) == Match(i + 1 + |x.before|, i + 1 + |x.before| + |x.word|, i + |Text(x)|)
  {
    hide Lies, SkipSpace, Spaces, Folds, WordAt, TurnAt, At;
    Pieces5(s, i, [0x3C], x.before, x.word, x.after, [0x3E]);
    var p1 := i + 1;
    var p2 := p1 + |x.before|;
    var p3 := p2 + |x.word|;
    LiesAsByte(s, i, 0x3C);
    TurnWordMatches(s, p2, x.word);
    SkipsSpaces(s, p1, x.before);
    LiesAsByte(s, p3 + |x.after|, 0x3E);
    LiesWithin(s, p3, x.after);
    NotSpaceAt(s, p3 + |x.after|, 0x3E);
    SkipsSpaces(s, p3, x.after);
    TurnSteps(s, i, p2, p3, p3 + |x.after|);
  }

  lemma NotSpaceAt(s: bytes, i: nat, b: byte)
    requires At(s, i, b) && !Space(b)
    ensures i < |s| && !Space(s[i])
  {}

  lemma Pieces5(s: bytes, i: nat, a: bytes, b: bytes, c: bytes, d: bytes, e: bytes)
    requires Lies(s, i, a + b + c + d + e)
    ensures Lies(s, i, a) && Lies(s, i + |a|, b) && Lies(s, i + |a| + |b|, c) && Lies(s, i + |a| + |b| + |c|, d)
    ensures Lies(s, i + |a| + |b| + |c| + |d|, e)
  {
    hide Lies;
    LiesInTwo(s, i, a + b + c + d, e);
    LiesInTwo(s, i, a + b + c, d);
    LiesInTwo(s, i, a + b, c);
    LiesInTwo(s, i, a, b);
  }

  lemma TurnParts(s: bytes, i: nat)
    requires i < |s| && TurnAt(s, i).Match?
    ensures var m := TurnAt(s, i);
            At(s, i, 0x3C) && m.from == SkipSpace(s, i + 1) && m.to <= |s| && At(s, SkipSpace(s, m.to), 0x3E) &&
            ((WordAt(s, m.from, START_OF_TURN) && m.to == m.from + |START_OF_TURN|) ||
             (WordAt(s, m.from, END_OF_TURN) && m.to == m.from + |END_OF_TURN|))
  {
    hide WordAt, SkipSpace;
  }

  lemma TurnWord(s: bytes, i: nat)
    requires i < |s| && TurnAt(s, i).Match?
    ensures var m := TurnAt(s, i); var w := s[m.from..m.to]; Folds(w, "start_of_turn") || Folds(w, "end_of_turn")
  {
    hide TurnAt, SkipSpace, Folds, WordAt, At;
    TurnParts(s, i);
    WordFolds(s, TurnAt(s, i).from);
  }

  lemma Assembled5(s: bytes, i: nat, a: bytes, b: bytes, c: bytes, d: bytes, e: bytes)
    requires Lies(s, i, a) && Lies(s, i + |a|, b) && Lies(s, i + |a| + |b|, c) && Lies(s, i + |a| + |b| + |c|, d)
    requires Lies(s, i + |a| + |b| + |c| + |d|, e)
    ensures Lies(s, i, a + b + c + d + e)
  {
    hide Lies;
    LiesInTwo(s, i, a + b + c + d, e);
    LiesInTwo(s, i, a + b + c, d);
    LiesInTwo(s, i, a + b, c);
    LiesInTwo(s, i, a, b);
  }

  lemma TurnMatchIsText(s: bytes, i: nat) returns (x: Shape)
    requires i < |s| && TurnAt(s, i).Match?
    ensures x.TurnShape? && IsMarker(x) && Lies(s, i, Text(x))
  {
    hide TurnAt, SkipSpace, Spaces, Folds, WordAt, Lies, At;
    TurnParts(s, i);
    TurnWord(s, i);
    var m := TurnAt(s, i);
    var a := i + 1;
    var d := SkipSpace(s, m.to);
    SkippedAreSpaces(s, a);
    Piece(s, m.from, m.to);
    SkippedAreSpaces(s, m.to);
    LiesAsByte(s, i, 0x3C);
    LiesAsByte(s, d, 0x3E);
    x := TurnShape(s[a..m.from], s[m.from..m.to], s[m.to..d]);
    Assembled5(s, i, [0x3C], x.before, x.word, x.after, [0x3E]);
  }

  /** \s*\/?\s*word\s* from p, up to q. */
  lemma InnerTextMatches(s: bytes, p: nat, x: Shape, word: bytes, close: byte)
    requires x.BracketShape? && IsMarker(x) && word == (if x.doubled then SYS else INST) && !Space(close)
    requires Lies(s, p, x.before) && Lies(s, p + |x.before|, x.slash) && Lies(s, p + |x.before| + |x.slash|, x.between)
    requires Lies(s, p + |x.before| + |x.slash| + |x.between|, x.word)
    requires Lies(s, p + |x.before| + |x.slash| + |x.between| + |x.word|, x.after)
    requires At(s, p + |x.before| + |x.slash| + |x.between| + |x.word| + |x.after|, close)
    ensures InnerEnd(s, p, word).Match?
    ensures InnerEnd(s, p, word).end == p + |x.before| + |x.slash| + |x.between| + |x.word| + |x.after|
  {
    hide Lies, SkipSpace, Spaces, Folds, WordAt, At, InnerEnd;
    var b := p + |x.before| + |x.slash| + |x.between|;
    var e := b + |x.word|;
    FirstOfFolded(x.word);
    FirstOf(s, b, x.word);
    FoldsIsWord(s, b, x.word);
    LiesWithin(s, e, x.after);
    NotSpaceAt(s, e + |x.after|, close);
    SkipsSpaces(s, e, x.after);
    ToTheWord(s, p, x);
    InnerSteps(s, p, b, word);
  }

  lemma InnerSteps(s: bytes, p: nat, b: nat, word: bytes)
    requires p <= |s| && WordAt(s, b, word)
    requires var a := SkipSpace(s, p); b == if At(s, a, 0x2F) then SkipSpace(s, a + 1) else a
    ensures InnerEnd(s, p, word) == Match(b, b + |word|, SkipSpace(s, b + |word|))
  {
    hide SkipSpace, WordAt;
  }

  lemma ToTheWord(s: bytes, p: nat, x: Shape)
    requires x.BracketShape? && IsMarker(x)
    requires Lies(s, p, x.before) && Lies(s, p + |x.before|, x.slash) && Lies(s, p + |x.before| + |x.slash|, x.between)
    requires Lies(s, p + |x.before| + |x.slash| + |x.between|, x.word)
    ensures p <= |s|
    ensures var a := SkipSpace(s, p);
            p + |x.before| + |x.slash| + |x.between| == if At(s, a, 0x2F) then SkipSpace(s, a + 1) else a
  {
    hide Lies, SkipSpace, Spaces, Folds;
    var b := p + |x.before| + |x.slash| + |x.between|;
    FirstOfFolded(x.word);
    FirstOf(s, b, x.word);
    LiesWithin(s, p, x.before);
    if x.slash == [] {
      LiesInTwo(s, p, x.before, x.between);
      BothSpaces(x.before, x.between);
      SkipsSpaces(s, p, x.before + x.between);
    } else {
      LiesAsByte(s, p + |x.before|, 0x2F);
      SkipsSpaces(s, p, x.before);
      SkipsSpaces(s, p + |x.before| + 1, x.between);
    }
  }

  lemma BothSpaces(a: bytes, b: bytes)
    requires Spaces(a) && Spaces(b)
    ensures Spaces(a + b)
  {}

  /** BracketAt, told where its inside ends. */
  lemma BracketSteps(s: bytes, i: nat, doubled: bool, q: nat)
    requires At(s, i, if doubled then 0x3C else 0x5B) && (doubled ==> At(s, i + 1, 0x3C) && At(s, q + 1, 0x3E))
    requires At(s, q, if doubled then 0x3E else 0x5D)
    requires InnerEnd(s, if doubled then i + 2 else i + 1, if doubled then SYS else INST).Match?
    requires InnerEnd(s, if doubled then i + 2 else i + 1, if doubled then SYS else INST).end == q
    ensures BracketAt(s, i).Match? && BracketAt(s, i).from == i && BracketAt(s, i).end == BracketAt(s, i).to
    ensures BracketAt(s, i).end == if doubled then q + 2 else q + 1
  {
    hide InnerEnd;
  }

  lemma BracketTextMatches(s: bytes, i: nat, x: Shape)
    requires x.BracketShape? && IsMarker(x) && Lies(s, i, Text(x)) && i < |s|
    ensures BracketAt(s, i) == Match(i, i + |Text(x)|, i + |Text(x)|)
  {
    hide Lies, Spaces, Folds, InnerEnd, BracketAt, At;
    var open: bytes := if x.doubled then [0x3C, 0x3C] else [0x5B];
    var close: bytes := if x.doubled then [0x3E, 0x3E] else [0x5D];
    PiecesOf(s, i, open, x.before, x.slash, x.between, x.word, x.after, close);
    var q := i + |open| + |x.before| + |x.slash| + |x.between| + |x.word| + |x.after|;
    Opening(s, i, x.doubled);
    Closing(s, q, x.doubled);
    InnerTextMatches(s, i + |open|, x, if x.doubled then SYS else INST, if x.doubled then 0x3E else 0x5D);
    BracketSteps(s, i, x.doubled, q);
  }

  lemma Opening(s: bytes, i: nat, doubled: bool)
    ensures Lies(s, i, if doubled then [0x3C, 0x3C] else [0x5B]) <==>
            At(s, i, if doubled then 0x3C else 0x5B) && (doubled ==> At(s, i + 1, 0x3C))
  {
    Twice(s, i, 0x3C);
    LiesAsByte(s, i, 0x5B);
  }

  lemma Closing(s: bytes, i: nat, doubled: bool)
    ensures Lies(s, i, if doubled then [0x3E, 0x3E] else [0x5D]) <==>
            At(s, i, if doubled then 0x3E else 0x5D) && (doubled ==> At(s, i + 1, 0x3E))
  {
    Twice(s, i, 0x3E);
    LiesAsByte(s, i, 0x5D);
  }

  lemma Twice(s: bytes, i: nat, b: byte)
    ensures Lies(s, i, [b, b]) <==> At(s, i, b) && At(s, i + 1, b)
  {
    assert [b, b] == [b] + [b];
    LiesInTwo(s, i, [b], [b]);
    LiesAsByte(s, i, b);
    LiesAsByte(s, i + 1, b);
  }

  lemma BracketParts(s: bytes, i: nat) returns (doubled: bool, q: nat)
    requires i < |s| && BracketAt(s, i).Match?
    ensures At(s, i, if doubled then 0x3C else 0x5B) && (doubled ==> At(s, i + 1, 0x3C) && At(s, q + 1, 0x3E))
    ensures At(s, q, if doubled then 0x3E else 0x5D)
    ensures var m := InnerEnd(s, if doubled then i + 2 else i + 1, if doubled then SYS else INST); m.Match? && m.end == q
  {
    hide InnerEnd;
    doubled := s[i] != 0x5B;
    q := InnerEnd(s, if doubled then i + 2 else i + 1, if doubled then SYS else INST).end;
  }

  lemma InnerParts(s: bytes, p: nat, word: bytes) returns (a: nat, c: nat, b: nat)
    requires p <= |s| && InnerEnd(s, p, word).Match?
    ensures a == SkipSpace(s, p) && c == (if At(s, a, 0x2F) then a + 1 else a) <= |s| && b == SkipSpace(s, c)
    ensures WordAt(s, b, word) && b + |word| <= |s| && InnerEnd(s, p, word).end == SkipSpace(s, b + |word|)
  {
    hide WordAt;
    a := SkipSpace(s, p);
    c := if At(s, a, 0x2F) then a + 1 else a;
    NothingMoreToSkip(s, p);
    hide SkipSpace;
    b := SkipSpace(s, c);
  }

  lemma SlashPiece(s: bytes, a: nat, c: nat)
    requires a <= |s| && c == if At(s, a, 0x2F) then a + 1 else a
    ensures c <= |s| && (s[a..c] == [] || s[a..c] == [0x2F]) && Lies(s, a, s[a..c]) && |s[a..c]| == c - a
  {
    if At(s, a, 0x2F) { assert s[a..a + 1] == [0x2F]; }
  }

  lemma BracketWord(s: bytes, b: nat, doubled: bool) returns (e: nat)
    requires WordAt(s, b, if doubled then SYS else INST)
    ensures b <= e <= |s| && e == b + |if doubled then SYS else INST| && Folds(s[b..e], if doubled then "sys" else "inst")
  {
    hide WordAt, Folds;
    WordFolds(s, b);
    e := if doubled then b + 3 else b + 4;
  }

  lemma BracketMatchIsText(s: bytes, i: nat) returns (x: Shape)
    requires i < |s| && BracketAt(s, i).Match?
    ensures x.BracketShape? && IsMarker(x) && Lies(s, i, Text(x))
  {
    hide SkipSpace, Spaces, Folds, WordAt, BracketAt, InnerEnd, Lies, At;
    var doubled, q := BracketParts(s, i);
    Opening(s, i, doubled);
    Closing(s, q, doubled);
    var open: bytes := if doubled then [0x3C, 0x3C] else [0x5B];
    var close: bytes := if doubled then [0x3E, 0x3E] else [0x5D];
    LiesWithin(s, i, open);
    var p := i + |open|;
    var inner := BracketInside(s, p, q, doubled);
    x := inner;
    Assembled(s, i, open, x.before, x.slash, x.between, x.word, x.after, close);
  }

  lemma BracketInside(s: bytes, p: nat, q: nat, doubled: bool) returns (x: Shape)
    requires p <= |s| && var m := InnerEnd(s, p, if doubled then SYS else INST); m.Match? && m.end == q
    ensures x.BracketShape? && IsMarker(x) && x.doubled == doubled
    ensures Lies(s, p, x.before) && Lies(s, p + |x.before|, x.slash) && Lies(s, p + |x.before| + |x.slash|, x.between)
    ensures Lies(s, p + |x.before| + |x.slash| + |x.between|, x.word)
    ensures Lies(s, p + |x.before| + |x.slash| + |x.between| + |x.word|, x.after)
    ensures q == p + |x.before| + |x.slash| + |x.between| + |x.word| + |x.after|
  {
    hide SkipSpace, Spaces, Folds, WordAt, InnerEnd, Lies, At;
    var a, c, b := InnerParts(s, p, if doubled then SYS else INST);
    SkippedAreSpaces(s, p);
    SlashPiece(s, a, c);
    SkippedAreSpaces(s, c);
    var e := BracketWord(s, b, doubled);
    Piece(s, b, e);
    SkippedAreSpaces(s, e);
    x := BracketShape(doubled, s[p..a], s[a..c], s[c..b], s[b..e], s[e..q]);
  }

  lemma NothingMoreToSkip(s: bytes, i: nat)
    requires i <= |s|
    ensures SkipSpace(s, SkipSpace(s, i)) == SkipSpace(s, i)
    decreases |s| - i
  {}

  // ---- exactly the markers

  /** A marker's text matches, and ends where it ends. */
  lemma TextMatches(s: bytes, i: nat, x: Shape)
    requires IsMarker(x) && Lies(s, i, Text(x))
    ensures i < |s| && MatchAt(KindOf(x), s, i).Match? && MatchAt(KindOf(x), s, i).end == i + |Text(x)|
    ensures x.AngleShape? ==> MatchAt(KindOf(x), s, i).from == i + 1 + |x.open| + |x.before| && MatchAt(KindOf(x), s, i).to == i + 1 + |x.open| + |x.before| + |x.name|
    ensures x.TurnShape? ==> MatchAt(KindOf(x), s, i).from == i + 1 + |x.before| && MatchAt(KindOf(x), s, i).to == i + 1 + |x.before| + |x.word|
    ensures x.BracketShape? ==> MatchAt(KindOf(x), s, i).from == i && MatchAt(KindOf(x), s, i).to == i + |Text(x)|
  {
    hide IsMarker, AngleAt, TurnAt, BracketAt;
    match x
    case AngleShape(_, _, _, _, _, _) => AngleTextMatches(s, i, x);
    case TurnShape(_, _, _) => TurnTextMatches(s, i, x);
    case BracketShape(_, _, _, _, _, _) => BracketTextMatches(s, i, x);
  }

  lemma MatchIsText(kind: Kind, s: bytes, i: nat) returns (x: Shape)
    requires i < |s| && MatchAt(kind, s, i).Match?
    ensures IsMarker(x) && KindOf(x) == kind && Lies(s, i, Text(x))
  {
    hide IsMarker, AngleAt, TurnAt, BracketAt, Text, Lies;
    match kind
    case Angle => x := AngleMatchIsText(s, i);
    case Turn => x := TurnMatchIsText(s, i);
    case Bracket => x := BracketMatchIsText(s, i);
  }

  ghost predicate StartsMarker(kind: Kind, s: bytes, i: nat) {
    exists x :: IsMarker(x) && KindOf(x) == kind && Lies(s, i, Text(x))
  }

  /** Each of the three expressions matches at an index exactly when a marker's text lies there, with
      anything behind it. */
  lemma MatchesExactlyTheMarkers(kind: Kind, s: bytes, i: nat)
    requires i < |s|
    ensures MatchAt(kind, s, i).Match? <==> StartsMarker(kind, s, i)
  {
    hide IsMarker, Lies, Text, MatchAt;
    if MatchAt(kind, s, i).Match? {
      var x := MatchIsText(kind, s, i);
    }
    if StartsMarker(kind, s, i) {
      var x :| IsMarker(x) && KindOf(x) == kind && Lies(s, i, Text(x));
      TextMatches(s, i, x);
    }
  }

  ghost predicate HoldsMarker(s: bytes) {
    exists i: nat, x :: IsMarker(x) && Lies(s, i, Text(x))
  }

  /** A line is marked exactly when a marker's text is somewhere on it. */
  lemma MarkedExactlyWhenItHoldsAMarker(line: bytes)
    ensures LineMarkers(line) != [] <==> HoldsMarker(line)
  {
    hide IsMarker, Lies, Text, MatchAt, LineMarkers;
    LineMarkersAreTheMatches(line);
    if Marked(line) {
      var kind: Kind, i :| 0 <= i < |line| && MatchAt(kind, line, i).Match?;
      var x := MatchIsText(kind, line, i);
    }
    if HoldsMarker(line) {
      var i: nat, x :| IsMarker(x) && Lies(line, i, Text(x));
      TextMatches(line, i, x);
    }
  }

  // ---- none is passed over

  lemma {:induction false} NamedBytes(s: bytes, n: nat)
    requires Named(s, n)
    ensures forall k :: 0 <= k < |s| ==> s[k] != 0x3C && s[k] != 0x5B
    decreases n
  {
    if n > 0 {
      var u := if Single(s) && Named(s[1..], n - 1) then 1 else 3;
      NamedBytes(s[u..], n - 1);
      forall k | 0 <= k < |s| ensures s[k] != 0x3C && s[k] != 0x5B {
        assert k >= u ==> s[k] == s[u..][k - u];
      }
    }
  }

  lemma FoldedBytes(w: bytes)
    requires Folds(w, "start_of_turn") || Folds(w, "end_of_turn") || Folds(w, "inst") || Folds(w, "sys")
    ensures forall k :: 0 <= k < |w| ==> Letter(w[k]) || w[k] == 0x5F
  {}

  predicate NoOpener(s: bytes) {
    forall k :: 0 <= k < |s| ==> s[k] != 0x3C && s[k] != 0x5B
  }

  lemma NoOpenerInTwo(a: bytes, b: bytes)
    requires NoOpener(a) && NoOpener(b)
    ensures NoOpener(a + b)
  {}

  lemma PiecesOpenNothing(s: bytes)
    ensures Spaces(s) || Pipe(s) ==> NoOpener(s)
    ensures NoOpener([]) && NoOpener([0x2F]) && NoOpener([0x3E]) && NoOpener([0x5D]) && NoOpener([0x3E, 0x3E])
  {}

  lemma AllOpenNothing(a: bytes, b: bytes, c: bytes, d: bytes, e: bytes, f: bytes)
    requires NoOpener(a) && NoOpener(b) && NoOpener(c) && NoOpener(d) && NoOpener(e) && NoOpener(f)
    ensures NoOpener(a + b + c + d + e + f)
  {
    hide NoOpener;
    NoOpenerInTwo(a, b);
    NoOpenerInTwo(a + b, c);
    NoOpenerInTwo(a + b + c, d);
    NoOpenerInTwo(a + b + c + d, e);
    NoOpenerInTwo(a + b + c + d + e, f);
  }

  lemma Behind(open: bytes, a: bytes, b: bytes, c: bytes, d: bytes, e: bytes, f: bytes)
    ensures (open + a + b + c + d + e + f)[|open|..] == a + b + c + d + e + f
  {
    assert open + a + b + c + d + e + f == open + (a + b + c + d + e + f);
  }

  /** Behind its opening, a marker has nothing another could begin with. */
  lemma InsideIsNoOpener(x: Shape)
    requires IsMarker(x)
    ensures |Text(x)| >= 2 && NoOpener(Text(x)[if x.BracketShape? && x.doubled then 2 else 1..])
  {
    hide Named, Spaces, Pipe, Folds, NoOpener;
    match x
    case AngleShape(open, before, name, size, after, close) =>
      NameOpensNothing(name, size);
      PiecesOpenNothing(open);
      PiecesOpenNothing(before);
      PiecesOpenNothing(after);
      PiecesOpenNothing(close);
      AllOpenNothing(open, before, name, after, close, [0x3E]);
      Behind([0x3C], open, before, name, after, close, [0x3E]);
    case TurnShape(before, word, after) =>
      WordOpensNothing(word);
      PiecesOpenNothing(before);
      PiecesOpenNothing(after);
      AllOpenNothing([], [], before, word, after, [0x3E]);
      Behind([0x3C], [], [], before, word, after, [0x3E]);
      assert Text(x) == [0x3C] + [] + [] + before + word + after + [0x3E];
    case BracketShape(doubled, before, slash, between, word, after) =>
      var open: bytes := if doubled then [0x3C, 0x3C] else [0x5B];
      var close: bytes := if doubled then [0x3E, 0x3E] else [0x5D];
      WordOpensNothing(word);
      PiecesOpenNothing(before);
      PiecesOpenNothing(between);
      PiecesOpenNothing(after);
      AllOpenNothing(before, slash, between, word, after, close);
      Behind(open, before, slash, between, word, after, close);
      assert Text(x) == open + before + slash + between + word + after + close;
  }

  lemma NameOpensNothing(name: bytes, n: nat)
    requires Named(name, n)
    ensures NoOpener(name)
  {
    NamedBytes(name, n);
  }

  lemma WordOpensNothing(w: bytes)
    requires Folds(w, "start_of_turn") || Folds(w, "end_of_turn") || Folds(w, "inst") || Folds(w, "sys")
    ensures NoOpener(w)
  {
    FoldedBytes(w);
  }

  lemma OpenersOf(x: Shape)
    requires IsMarker(x)
    ensures |Text(x)| > 1 && Text(x)[0] == if x.BracketShape? && !x.doubled then 0x5B else 0x3C
    ensures x.BracketShape? && x.doubled ==> Text(x)[1] == 0x3C && |Text(x)| > 2
  {
    hide Named, Spaces, Folds, Pipe;
  }

  lemma NoMatchInside(kind: Kind, s: bytes, i: nat, k: nat)
    requires i < k < |s| && MatchAt(kind, s, i).Match? && k < MatchAt(kind, s, i).end
    ensures !MatchAt(kind, s, k).Match?
  {
    hide IsMarker, MatchAt, Text, Lies;
    var x := MatchIsText(kind, s, i);
    TextMatches(s, i, x);
    InsideIsNoOpener(x);
    OpenersOf(x);
    LiesAt(s, i, Text(x), k - i);
    if k + 1 < i + |Text(x)| { LiesAt(s, i, Text(x), k + 1 - i); }
    if MatchAt(kind, s, k).Match? {
      var y := MatchIsText(kind, s, k);
      OpenersOf(y);
      LiesAt(s, k, Text(y), 0);
      LiesAt(s, k, Text(y), 1);
      OpenedInside(x, k - i, y);
      assert false;
    }
  }

  lemma LiesAt(s: bytes, i: nat, t: bytes, k: nat)
    requires Lies(s, i, t) && k < |t|
    ensures i + k < |s| && s[i + k] == t[k]
  {}

  /** No place inside a marker but its first reads like the first two bytes of one of its kind. */
  lemma OpenedInside(x: Shape, k: nat, y: Shape)
    requires IsMarker(x) && IsMarker(y) && KindOf(x) == KindOf(y) && 0 < k < |Text(x)| && |Text(y)| > 1
    ensures Text(x)[k] != Text(y)[0] || (k + 1 < |Text(x)| && Text(x)[k + 1] != Text(y)[1])
  {
    hide IsMarker, Text;
    InsideIsNoOpener(x);
    OpenersOf(x);
    OpenersOf(y);
    var d := if x.BracketShape? && x.doubled then 2 else 1;
    var inside := Text(x)[d..];
    assert k >= d ==> inside[k - d] == Text(x)[k];
    assert d == 2 ==> inside[0] == Text(x)[2];
  }

  lemma {:induction false} FindsAll(kind: Kind, s: bytes, i: nat, k: nat)
    requires i <= k < |s| && MatchAt(kind, s, k).Match?
    ensures RedactMarkers.Marker(NameOf(kind, s, MatchAt(kind, s, k)), k) in FindAll(kind, s, i)
    decreases |s| - i
  {
    hide MatchAt, NameOf;
    var m := MatchAt(kind, s, i);
    if i < k {
      if m.Match? {
        if k < m.end { NoMatchInside(kind, s, i, k); }
        FindsAll(kind, s, m.end, k);
      } else {
        FindsAll(kind, s, i + 1, k);
      }
    }
  }
}

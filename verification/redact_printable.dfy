/** When a report is printable ASCII, as Hit.Matched is documented to be: always, but for a bracket
    marker that spans a carriage return and is itemised. */
module RedactPrintable {
  import opened Bytes
  import opened RedactInvisible
  import opened RedactReport
  import opened RedactScan
  import opened RedactMarkers
  import opened Redact

  // ---- which names hold a carriage return

  /** A bracket marker at i with a carriage return between its brackets. */
  predicate SpansReturn(line: bytes, i: nat) {
    i < |line| && BracketAt(line, i).Match? && RETURN in line[i..BracketAt(line, i).end]
  }

  lemma {:induction false} NoReturnInAngleName(s: bytes, i: nat, to: nat, max: nat)
    requires i <= to <= |s|
    ensures RETURN !in AngleName(s, i, to, max)
    decreases max
  {
    var n := UnitLen(s, i);
    if max > 0 && n > 0 && i + n <= to {
      NoReturnInAngleName(s, i + n, to, max - 1);
    }
  }

  lemma {:induction false} NoReturnInLowerAll(s: bytes)
    requires forall i :: 0 <= i < |s| ==> IsNameByte(s[i])
    ensures RETURN !in LowerAll(s)
  {
    if s != [] {
      NoReturnInLowerAll(s[1..]);
    }
  }

  lemma {:induction false} ReturnInBracketName(s: bytes)
    ensures RETURN in BracketName(s) <==> RETURN in s
  {
    if s != [] {
      ReturnInBracketName(s[1..]);
      assert s == [s[0]] + s[1..];
    }
  }

  lemma NoReturnInTurnName(s: bytes, i: nat)
    requires i < |s| && TurnAt(s, i).Match?
    ensures RETURN !in NameOf(Turn, s, TurnAt(s, i))
  {
    hide WordAt;
    var m := TurnAt(s, i);
    TurnWords();
    WordLetters(s, m.from, if WordAt(s, m.from, START_OF_TURN) && m.to == m.from + |START_OF_TURN| then START_OF_TURN else END_OF_TURN);
    NoReturnInLowerAll(s[m.from..m.to]);
  }

  lemma ReturnInName(kind: Kind, s: bytes, i: nat)
    requires i < |s| && MatchAt(kind, s, i).Match?
    ensures RETURN in NameOf(kind, s, MatchAt(kind, s, i)) <==> kind == Bracket && SpansReturn(s, i)
  {
    hide AngleAt, TurnAt, BracketAt, AngleName, BracketName;
    var m := MatchAt(kind, s, i);
    match kind
    case Angle => NoReturnInAngleName(s, m.from, m.to, 32);
    case Turn => NoReturnInTurnName(s, i);
    case Bracket => ReturnInBracketName(s[m.from..m.to]);
  }

  /** A marker's name holds a carriage return exactly when the marker is such a bracket marker. */
  lemma ReturnInMarker(line: bytes, m: Marker)
    requires m in LineMarkers(line)
    ensures RETURN in m.name <==> SpansReturn(line, m.at)
  {
    hide MatchAt, NameOf, FindAll, LineMarkers, Marked, BracketAt;
    LineMarkersAreTheMatches(line);
    assert FoundBySome(m, line);
    var kind: Kind :| m in FindAll(kind, line, 0);
    FoundWhereMatched(kind, line, 0);
    ReturnInName(kind, line, m.at);
    if SpansReturn(line, m.at) {
      BracketMatches(line, m.at);
      KindsDisagree(line, m.at, kind, Bracket);
    }
  }

  lemma BracketMatches(line: bytes, i: nat)
    requires i < |line|
    ensures MatchAt(Bracket, line, i) == BracketAt(line, i)
  {}

  // ---- which names are reported

  /** The names a summary spells out: the first six that differ. */
  function Itemised(text: bytes): seq<bytes> {
    var names := Distinct(AllNames(Lines(text)));
    if |names| <= 6 then names else names[..6]
  }

  predicate ReportsReturn(text: bytes) {
    exists i, m :: 0 <= i < |Lines(text)| && m in LineMarkers(Lines(text)[i]) &&
                   SpansReturn(Lines(text)[i], m.at) && m.name in Itemised(text)
  }

  lemma {:induction false} WhereNamed(lines: seq<bytes>, name: bytes) returns (i: nat, m: Marker)
    requires name in AllNames(lines)
    ensures i < |lines| && m in LineMarkers(lines[i]) && m.name == name
  {
    hide LineMarkers;
    var ms := LineMarkers(lines[0]);
    if name in Names(ms) {
      var k :| 0 <= k < |ms| && Names(ms)[k] == name;
      i, m := 0, ms[k];
    } else {
      i, m := WhereNamed(lines[1..], name);
      i := i + 1;
    }
  }

  lemma ReturnInItemised(text: bytes)
    ensures RETURN in Summarise(AllNames(Lines(text))) <==>
            exists k :: 0 <= k < |Itemised(text)| && RETURN in Itemised(text)[k]
  {
    hide AllNames, Distinct, JoinWith, Lines;
    var parts := Abridge(Distinct(AllNames(Lines(text))), 6);
    assert RETURN !in Ascii(" ") && RETURN !in Ascii("...");
    ReturnInJoin(parts, Ascii(" "));
    var items := Itemised(text);
    assert parts == items || parts == items + [Ascii("...")];
    if i :| 0 <= i < |parts| && RETURN in parts[i] {
      assert i < |items| && items[i] == parts[i];
    }
    if k :| 0 <= k < |items| && RETURN in items[k] {
      assert parts[k] == items[k];
    }
  }

  lemma ItemisedIsNamed(text: bytes)
    ensures forall name :: name in Itemised(text) ==> name in AllNames(Lines(text))
  {
    hide AllNames, Lines;
    DistinctMembers(AllNames(Lines(text)));
  }

  lemma SummaryReportsReturn(text: bytes)
    ensures RETURN in Summarise(AllNames(Lines(text))) <==> ReportsReturn(text)
  {
    hide AllNames, Lines, LineMarkers, SpansReturn, Summarise, Itemised;
    ReturnInItemised(text);
    ItemisedIsNamed(text);
    var items, lines := Itemised(text), Lines(text);
    if k :| 0 <= k < |items| && RETURN in items[k] {
      assert items[k] in items;
      var i, m := WhereNamed(lines, items[k]);
      ReturnInMarker(lines[i], m);
    }
    if i, m :| 0 <= i < |lines| && m in LineMarkers(lines[i]) && SpansReturn(lines[i], m.at) && m.name in items {
      ReturnInMarker(lines[i], m);
      var k :| 0 <= k < |items| && items[k] == m.name;
    }
  }

  // ---- the report

  lemma PlainIsPrintable(m: bytes)
    ensures Plain(m) ==> Printable(m)
  {}

  lemma RemainderIsPlain(rest: seq<Hit>)
    requires rest != []
    ensures Plain(Remainder(rest).matched)
  {
    DecimalIsPlain(|rest|);
    PlainConcat(Ascii("and "), Decimal(|rest|));
    PlainConcat(Ascii("and ") + Decimal(|rest|), Ascii(" more, not itemised"));
  }

  predicate AllPlain(hits: seq<Hit>) {
    forall h :: h in hits ==> Plain(h.matched)
  }

  lemma InvisibleHitsArePlain(field: bytes, text: bytes)
    ensures AllPlain(HitsByLine(field, Lines(text), 1))
    ensures AllPlain(Outside(HitsByLine(field, Lines(text), 1), CutHit(field, Visible(text))))
  {
    hide HitsByLine, Lines, Plain, CutHit, Visible, WellPlaced;
    HitsArePlaced(field, Lines(text), 1);
    OutsideIsWithin(HitsByLine(field, Lines(text), 1), CutHit(field, Visible(text)));
  }

  /** Past the cap only the first fifteen hits are kept, so a last one is only counted. */
  lemma CappedIsPlain(hits: seq<Hit>, n: nat)
    requires |hits| > MAX_HITS && n < |hits| <= n + 1 && AllPlain(hits[..n])
    ensures AllPlain(CapHits(hits))
  {
    hide Plain, Remainder;
    RemainderIsPlain(hits[MAX_HITS - 1..]);
    assert hits[..MAX_HITS - 1] == hits[..n][..MAX_HITS - 1];
  }

  lemma UncutReportIsPlain(field: bytes, text: bytes)
    requires !HasMarkedLine(Visible(text))
    ensures AllPlain(Report(field, text))
  {
    hide HasMarkedLine, Visible, HitsByLine, Lines, Plain, Remainder, CutHit;
    InvisibleHitsArePlain(field, text);
    var hits := AllHits(field, text);
    if |hits| > MAX_HITS {
      RemainderIsPlain(hits[MAX_HITS - 1..]);
    }
  }

  /** Every matched text of a report is printable ASCII exactly unless a bracket marker spanning a
      carriage return is among the six names spelled out, and the hit that spells them is not lost in
      the remainder of more than sixteen. */
  lemma ReportIsPrintableExactlyWhen(field: bytes, text: bytes)
    ensures (forall h :: h in Report(field, text) ==> Printable(h.matched)) <==>
            !(HasMarkedLine(Visible(text)) && |AllHits(field, text)| <= MAX_HITS && ReportsReturn(Visible(text)))
  {
    hide HasMarkedLine, Visible, HitsByLine, Lines, Plain, Printable, Remainder, ReportsReturn, AllNames, Summarise, WellPlaced, AllVisible, Benign;
    var seen := Visible(text);
    forall h: Hit ensures Plain(h.matched) ==> Printable(h.matched) { PlainIsPrintable(h.matched); }
    if HasMarkedLine(seen) {
      var cut := CutHit(field, seen);
      var before := Outside(HitsByLine(field, Lines(text), 1), cut);
      var hits := AllHits(field, text);
      AllHitsArePlaced(field, text);
      InvisibleHitsArePlain(field, text);
      assert hits == before + [cut];
      if |hits| > MAX_HITS {
        assert hits[..|before|] == before;
        CappedIsPlain(hits, |before|);
      } else {
        VisibleIsAllVisible(text);
        CutHitIsBenign(field, seen);
        PrintableExactlyWithoutReturn(cut.matched);
        SummaryReportsReturn(seen);
        assert cut in hits;
      }
    } else {
      UncutReportIsPlain(field, text);
    }
  }

  // ---- and one that is not

  /** "[\rinst]" */
  const BROKEN_INST: bytes := [0x5B, 0x0D, 0x69, 0x6E, 0x73, 0x74, 0x5D]

  lemma BrokenInstMatches()
    ensures BracketAt(BROKEN_INST, 0) == Match(0, 7, 7)
    ensures forall i :: 0 <= i < |BROKEN_INST| ==> BROKEN_INST[i] != LT
  {
    var s := BROKEN_INST;
    assert SkipSpace(s, 2) == 2 && SkipSpace(s, 1) == 2;
    assert WordAt(s, 2, INST);
    assert SkipSpace(s, 6) == 6;
  }

  lemma BrokenInstIsVisible()
    ensures AllVisible(BROKEN_INST) && OneLine(BROKEN_INST)
  {
    var s := BROKEN_INST;
    assert s[1..] == [0x0D, 0x69, 0x6E, 0x73, 0x74, 0x5D];
    BenignIsVisible(s[1..]);
    assert Next(s) == Keep(1);
  }

  lemma BrokenInstMarkers()
    ensures Unsorted(BROKEN_INST) == [Marker(NameOf(Bracket, BROKEN_INST, Match(0, 7, 7)), 0)]
  {
    var s := BROKEN_INST;
    BrokenInstMatches();
    FoundExactlyWhenMatched(Angle, s);
    FoundExactlyWhenMatched(Turn, s);
    assert FindAll(Bracket, s, 7) == [];
    assert MatchAt(Bracket, s, 0) == Match(0, 7, 7);
    hide NameOf, SkipSpace, WordAt;
    assert FindAll(Bracket, s, 0) == [Marker(NameOf(Bracket, s, Match(0, 7, 7)), 0)] + FindAll(Bracket, s, 7);
  }

  lemma OneMarkerLine(line: bytes, m: Marker)
    requires Unsorted(line) == [m]
    ensures LineMarkers(line) == [m] && FirstMarked([line]) == 0 && AllNames([line]) == [m.name]
    ensures Distinct([m.name]) == [m.name]
  {
    hide Unsorted;
    assert [m][1..] == [];
    assert [m.name][..0] == [];
    assert SortMarkers([m]) == InsertMarker(m, SortMarkers([m][1..]));
    hide LineMarkers;
    assert Names([m]) == [m.name];
    assert AllNames([line]) == Names([m]) + AllNames([line][1..]);
  }

  /** A visible text of one line with a marker is reported in one hit. */
  lemma OneHit(field: bytes, text: bytes)
    requires AllVisible(text) && HasMarkedLine(text)
    ensures Visible(text) == text && AllHits(field, text) == [CutHit(field, text)] == Report(field, text)
  {
    hide HasMarkedLine, Visible, Lines, AllVisible, CutHit, HitsByLine, WellPlaced;
    AllVisibleIsFixed(text);
    NoHitsExactlyWhenVisible(field, text);
    AllHitsArePlaced(field, text);
    assert [] + [CutHit(field, text)] == [CutHit(field, text)];
  }

  /** The comment on Hit.Matched fails on this value: its one hit spells a carriage return. */
  lemma ReturnIsReported(field: bytes)
    ensures Report(field, BROKEN_INST) == [CutHit(field, BROKEN_INST)]
    ensures RETURN in CutHit(field, BROKEN_INST).matched && !Printable(CutHit(field, BROKEN_INST).matched)
  {
    var s := BROKEN_INST;
    var m := Marker(NameOf(Bracket, s, Match(0, 7, 7)), 0);
    BrokenInstIsVisible();
    LinesOfOneLine(s);
    BrokenInstMarkers();
    BrokenInstMatches();
    assert s[0..7] == s && s[1] == RETURN;
    hide NameOf, BracketAt, Unsorted, AllVisible, Lines;
    OneMarkerLine(s, m);
    OneHit(field, s);
    hide LineMarkers, AllNames, Distinct, Summarise, Report;
    assert Itemised(s) == [m.name];
    assert SpansReturn(s, 0) && m in LineMarkers(Lines(s)[0]);
    SummaryReportsReturn(s);
  }
}

/** Redaction of one value and of a whole submission, and why one pass of it is enough. */
module Redact {
  import opened Basics
  import opened Bytes
  import opened RedactInvisible
  import opened RedactReport
  import opened RedactScan
  import opened RedactMarkers

  // ---- one value

  /** Invisible hits inside the cut region are not reported beside it. */
  function Outside(hits: seq<Hit>, region: Hit): seq<Hit> {
    if hits == [] then []
    else (if region.line <= hits[0].line <= region.through then [] else [hits[0]]) + Outside(hits[1..], region)
  }

  /** A stable sort by line. */
  function InsertHit(h: Hit, hits: seq<Hit>): seq<Hit> {
    if hits == [] || h.line <= hits[0].line then [h] + hits else [hits[0]] + InsertHit(h, hits[1..])
  }

  function SortHits(hits: seq<Hit>): seq<Hit> {
    if hits == [] then [] else InsertHit(hits[0], SortHits(hits[1..]))
  }

  /** What is left of a value. */
  function Clean(text: bytes): bytes {
    Cut(Visible(text))
  }

  /** Everything reported about a value, before capping. */
  function AllHits(field: bytes, text: bytes): seq<Hit> {
    var seen := Visible(text);
    var invisible := HitsByLine(field, Lines(text), 1);
    if HasMarkedLine(seen) then SortHits(Outside(invisible, CutHit(field, seen)) + [CutHit(field, seen)]) else invisible
  }

  function Report(field: bytes, text: bytes): seq<Hit> {
    CapHits(AllHits(field, text))
  }

  method Value(field: bytes, text: bytes) returns (cleaned: bytes, hits: seq<Hit>)
    ensures cleaned == Clean(text) && hits == Report(field, text)
  {
    hide Lines, CapHits, HasMarkedLine, CutHit, SortHits, HitsByLine, Outside, Visible;
    if text == [] {
      EmptyValue(field);
      return [], [];
    }
    var deobfuscated, invisible := StripInvisible(field, text);
    var forged, hit;
    cleaned, forged, hit := StripForgedTurn(field, deobfuscated);
    if !forged {
      return cleaned, CapHits(invisible);
    }
    hits := [];
    assert invisible[0..] == invisible;
    for i := 0 to |invisible|
      invariant hits + Outside(invisible[i..], hit) == Outside(invisible, hit)
    {
      OutsideFrom(invisible, hit, i);
      var h := invisible[i];
      if h.line < hit.line || h.line > hit.through {
        Reassociate(hits, [h], Outside(invisible[i + 1..], hit));
        hits := hits + [h];
      }
    }
    OutsideFrom(invisible, hit, |invisible|);
    assert hits == hits + [];
    hits := CapHits(SortHits(hits + [hit]));
  }

  lemma OutsideFrom(hits: seq<Hit>, region: Hit, i: nat)
    requires i <= |hits|
    ensures Outside(hits[i..], region) ==
            if i == |hits| then []
            else if region.line <= hits[i].line <= region.through then Outside(hits[i + 1..], region)
            else [hits[i]] + Outside(hits[i + 1..], region)
  {
    if i < |hits| {
      assert hits[i..][1..] == hits[i + 1..];
      assert [] + Outside(hits[i + 1..], region) == Outside(hits[i + 1..], region);
    }
  }

  lemma EmptyValue(field: bytes)
    ensures Clean([]) == [] && Report(field, []) == []
  {
    EmptyLineIsUnmarked();
    assert Lines([]) == [[]];
    assert Visible([]) == [];
    assert Removed([]) == [] && BadCount([]) == 0;
    assert Tally(field, 1, [], 0) == [];
    assert HitsByLine(field, [[]], 1) == [] + HitsByLine(field, [], 2);
  }

  // ---- the report is in place

  lemma {:induction false} SortOfPlaced(hits: seq<Hit>, lines: nat)
    requires WellPlaced(hits, lines)
    ensures SortHits(hits) == hits
  {
    hide WellPlaced, InsertHit;
    if hits != [] {
      PlacedTail(hits, lines);
      SortOfPlaced(hits[1..], lines);
      InsertFirst(hits);
    }
  }

  lemma InsertFirst(hits: seq<Hit>)
    requires hits != [] && forall h :: h in hits[1..] ==> hits[0].line <= h.line
    ensures InsertHit(hits[0], hits[1..]) == hits
  {
    assert hits == [hits[0]] + hits[1..];
    assert |hits| > 1 ==> hits[1..][0] in hits[1..];
  }

  lemma {:induction false} OutsideIsBefore(hits: seq<Hit>, region: Hit, lines: nat)
    requires WellPlaced(hits, lines) && region.through == lines
    ensures WellPlaced(Outside(hits, region), lines)
    ensures forall h :: h in Outside(hits, region) <==> h in hits && h.line < region.line
  {
    hide WellPlaced;
    if hits != [] {
      PlacedTail(hits, lines);
      OutsideIsBefore(hits[1..], region, lines);
      var o := Outside(hits[1..], region);
      PlacedCons(hits[0], o, lines);
      PlacedInBounds(hits, lines);
      assert hits == [hits[0]] + hits[1..];
      assert [] + o == o;
    }
  }

  lemma CutHitIsBenign(field: bytes, s: bytes)
    requires AllVisible(s)
    ensures Benign(CutHit(field, s).matched)
  {
    hide AllVisible, LineMarkers, AllNames, Summarise;
    AllVisibleByLine(s);
    AllNamesAreBenign(Lines(s));
    SummaryIsBenign(AllNames(Lines(s)));
  }

  lemma SameLineCount(text: bytes)
    ensures |Lines(Visible(text))| == |Lines(text)|
  {
    VisibleByLine(text);
  }

  /** Before capping: hits in line order, each within the original text and benign; and the cut, if
      there is one, last. */
  lemma AllHitsArePlaced(field: bytes, text: bytes)
    ensures WellPlaced(AllHits(field, text), |Lines(text)|)
    ensures var hits, s := HitsByLine(field, Lines(text), 1), Visible(text);
            HasMarkedLine(s) ==>
              AllHits(field, text) == Outside(hits, CutHit(field, s)) + [CutHit(field, s)]
  {
    hide Visible, HitsByLine, Lines, Outside, Summarise, AllNames, AllVisible, Benign, FirstMarked, WellPlaced, SortHits;
    var s := Visible(text);
    var n := |Lines(text)|;
    var invisible := HitsByLine(field, Lines(text), 1);
    HitsArePlaced(field, Lines(text), 1);
    SameLineCount(text);
    if HasMarkedLine(s) {
      var cut := CutHit(field, s);
      VisibleIsAllVisible(text);
      CutHitIsBenign(field, s);
      OutsideIsBefore(invisible, cut, n);
      PlacedSnoc(Outside(invisible, cut), cut, n);
      SortOfPlaced(Outside(invisible, cut) + [cut], n);
    }
  }

  /** Every hit names lines of the original: 1 <= line <= through <= number of lines, at most sixteen
      of them. */
  lemma HitsIndexTheOriginal(field: bytes, text: bytes)
    ensures WellPlaced(Report(field, text), |Lines(text)|) && |Report(field, text)| <= MAX_HITS
  {
    hide AllHits, Lines;
    AllHitsArePlaced(field, text);
    CapKeepsPlaces(AllHits(field, text), |Lines(text)|);
  }

  lemma HitsNameTheirField(field: bytes, text: bytes)
    ensures forall h :: h in Report(field, text) ==> h.field == field && !h.inName
  {
    hide Visible, HitsByLine, Lines, Outside, Summarise, AllNames, AllVisible, Benign, FirstMarked, WellPlaced, SortHits;
    var invisible := HitsByLine(field, Lines(text), 1);
    HitsArePlaced(field, Lines(text), 1);
    AllHitsArePlaced(field, text);
    var s := Visible(text);
    OutsideIsWithin(invisible, CutHit(field, s));
    var hits := AllHits(field, text);
    assert forall h :: h in hits ==> h in invisible || h == CutHit(field, s);
    assert forall h :: h in invisible ==> h.field == field && !h.inName;
    if |hits| > MAX_HITS {
      assert hits[MAX_HITS - 1..][0] in hits;
    }
  }

  lemma {:induction false} OutsideIsWithin(hits: seq<Hit>, region: Hit)
    ensures forall h :: h in Outside(hits, region) ==> h in hits
  {
    if hits != [] {
      OutsideIsWithin(hits[1..], region);
    }
  }

  // ---- one pass is enough

  predicate NothingLeft(text: bytes) {
    AllVisible(text) && !HasMarkedLine(text)
  }

  /** The report is empty exactly when there is nothing to redact. */
  lemma ReportedExactlyWhenRedacted(field: bytes, text: bytes)
    ensures Report(field, text) == [] <==> NothingLeft(text)
    ensures NothingLeft(text) <==> Clean(text) == text
    ensures !NothingLeft(text) ==> |Clean(text)| < |text|
  {
    hide Visible, HitsByLine, Lines, AllVisible, FirstMarked, CapHits, Outside, CutHit, WellPlaced, Cut;
    AllHitsArePlaced(field, text);
    CapKeepsPlaces(AllHits(field, text), |Lines(text)|);
    NoHitsExactlyWhenVisible(field, text);
    AllVisibleIsFixed(text);
    CutHasNoMarkedLine(Visible(text));
    UncutIsWhole(Visible(text));
  }

  lemma UncutIsWhole(text: bytes)
    ensures !HasMarkedLine(text) ==> Cut(text) == text
  {}

  lemma {:induction false} CutStaysVisible(s: bytes)
    requires AllVisible(s)
    ensures AllVisible(Cut(s))
  {
    hide AllVisible, FirstMarked, Lines;
    AllVisibleByLine(s);
    CutHasNoMarkedLine(s);
    var first := FirstMarked(Lines(s));
    UncutIsWhole(s);
    if HasMarkedLine(s) {
      if first == 0 {
        EmptyIsVisible();
        assert Lines(s)[..0] == [];
      } else {
        AllVisibleByLine(Cut(s));
      }
    }
  }

  lemma EmptyIsVisible()
    ensures AllVisible([])
  {}

  /** One pass suffices: the output is valid UTF-8 with no invisible rune and no marker on any line, a
      second pass changes and reports nothing, and nothing was added or reordered. */
  lemma OnePassSuffices(field: bytes, text: bytes)
    ensures NothingLeft(Clean(text))
    ensures Clean(Clean(text)) == Clean(text) && Report(field, Clean(text)) == []
    ensures Subsequence(Clean(text), text)
  {
    hide AllVisible, HasMarkedLine, Visible, Cut, Report, Subsequence;
    var s := Visible(text);
    VisibleIsAllVisible(text);
    CutStaysVisible(s);
    CutHasNoMarkedLine(s);
    ReportedExactlyWhenRedacted(field, Clean(text));
    VisibleIsSubsequence(text);
    SubsequencePrefix(s, |Cut(s)|, text);
    assert s[..|Cut(s)|] == Cut(s);
  }

  /** A line that no hit covers is in the output as it was. */
  lemma UnreportedLinesAreIntact(field: bytes, text: bytes, i: nat)
    requires i < |Lines(text)| && !Covers(Report(field, text), i + 1)
    ensures i < |Lines(Clean(text))| && Lines(Clean(text))[i] == Lines(text)[i]
  {
    hide AllVisible, Visible, Lines, FirstMarked, CapHits, Cut, WellPlaced, Covers, Summarise, AllNames, AllHits, HitsByLine;
    var s := Visible(text);
    SameLineCount(text);
    AllHitsArePlaced(field, text);
    UncappedUncovered(AllHits(field, text), |Lines(text)|, i + 1);
    UncoveredIsVisible(field, text, i);
    VisibleByLine(text);
    EachVisibleAt(Lines(text), i);
    CutHasNoMarkedLine(s);
    UncutIsWhole(s);
    AllVisibleIsFixed(Lines(text)[i]);
  }

  lemma UncoveredIsVisible(field: bytes, text: bytes, i: nat)
    requires i < |Lines(text)| && forall h :: h in AllHits(field, text) ==> !(h.line <= i + 1 <= h.through)
    ensures AllVisible(Lines(text)[i])
    ensures HasMarkedLine(Visible(text)) ==> i < FirstMarked(Lines(Visible(text)))
  {
    hide AllVisible, Visible, Lines, FirstMarked, HitsByLine, WellPlaced, Summarise, AllNames, Outside, SortHits;
    var s := Visible(text);
    var invisible := HitsByLine(field, Lines(text), 1);
    var hits := AllHits(field, text);
    SameLineCount(text);
    AllHitsArePlaced(field, text);
    HitsArePlaced(field, Lines(text), 1);
    if HasMarkedLine(s) {
      var cut := CutHit(field, s);
      OutsideIsBefore(invisible, cut, |Lines(text)|);
      assert cut in hits;
      forall h | h in invisible && h.line < cut.line ensures h in hits {
        assert h in Outside(invisible, cut);
      }
    }
    if !AllVisible(Lines(text)[i]) {
      var h := LossIsReported(field, Lines(text), 1, i);
    }
  }

  lemma UncappedUncovered(hits: seq<Hit>, lines: nat, line: nat)
    requires WellPlaced(hits, lines) && !Covers(CapHits(hits), line)
    ensures forall h :: h in hits ==> !(h.line <= line <= h.through)
  {
    hide Benign;
    var c := CapHits(hits);
    forall h | h in hits ensures !(h.line <= line <= h.through) {
      var i :| 0 <= i < |hits| && hits[i] == h;
      var k := if i < MAX_HITS - 1 || |hits| <= MAX_HITS then i else MAX_HITS - 1;
      if |hits| > MAX_HITS {
        var rest := hits[MAX_HITS - 1..];
        assert rest[|rest| - 1] == hits[|hits| - 1] && rest[0] == hits[MAX_HITS - 1];
      }
      assert c[k].line <= hits[i].line && hits[i].through <= c[k].through;
    }
  }

  /** A line that lost something has a hit. */
  lemma {:induction false} LossIsReported(field: bytes, lines: seq<bytes>, k: nat, i: nat) returns (h: Hit)
    requires k >= 1 && i < |lines| && !AllVisible(lines[i])
    ensures h in HitsByLine(field, lines, k) && h.line == k + i
  {
    hide Tally, AllVisible, Benign;
    var first := Tally(field, k, Removed(lines[0]), BadCount(lines[0]));
    assert HitsByLine(field, lines, k) == first + HitsByLine(field, lines[1..], k + 1);
    if i == 0 {
      TallyIsPlaced(field, k, Removed(lines[0]), BadCount(lines[0]));
      NothingRemovedFromVisible(lines[0]);
      h := first[0];
    } else {
      h := LossIsReported(field, lines[1..], k + 1, i - 1);
    }
  }

  lemma {:induction false} BenignIsVisible(m: bytes)
    requires Benign(m)
    ensures AllVisible(m)
  {
    if m != [] {
      BenignIsVisible(m[1..]);
      assert RuneLen(m) == 1 && RuneAt(m) == m[0];
    }
  }

  /** A report is itself nothing to redact, so it can travel with the text it describes. */
  lemma ReportsAreClean(field: bytes, text: bytes, h: Hit)
    requires h in Report(field, text)
    ensures NothingLeft(h.matched) && Clean(h.matched) == h.matched && Report(field, h.matched) == []
  {
    hide Report, AllVisible, Lines;
    HitsIndexTheOriginal(field, text);
    BenignIsClean(h.matched);
    ReportedExactlyWhenRedacted(field, h.matched);
  }

  lemma BenignIsClean(m: bytes)
    requires Benign(m)
    ensures NothingLeft(m)
  {
    hide AllVisible, LineMarkers, AngleAt, TurnAt, BracketAt;
    BenignIsVisible(m);
    LinesOfOneLine(m);
    LineMarkersAreTheMatches(m);
    assert !Marked(m);
    assert FirstMarked([m]) == 1;
  }

  // ---- a whole submission

  type Form = map<bytes, bytes>

  /** A field whose name carries a marker is dropped; its value is not looked at. */
  predicate NameKept(k: bytes) {
    Report([], k) == []
  }

  function Redacted(data: Form): Form {
    map k | k in data && NameKept(k) :: Clean(data[k])
  }

  function InName(hits: seq<Hit>): seq<Hit> {
    if hits == [] then [] else [hits[0].(inName := true, line := 1, through := 1)] + InName(hits[1..])
  }

  function FieldHits(data: Form, k: bytes): seq<Hit>
    requires k in data
  {
    if NameKept(k) then Report(k, data[k]) else InName(Report([], k))
  }

  function HitsOver(data: Form, keys: seq<bytes>): seq<Hit>
    requires forall i :: 0 <= i < |keys| ==> keys[i] in data
  {
    if keys == [] then [] else FieldHits(data, keys[0]) + HitsOver(data, keys[1..])
  }

  /** The whole report, field by field in name order. */
  ghost function FormHits(data: Form): seq<Hit> {
    KeysInForm(data);
    HitsOver(data, Sorted(data.Keys))
  }

  lemma KeysInForm(data: Form)
    ensures forall i :: 0 <= i < |Sorted(data.Keys)| ==> Sorted(data.Keys)[i] in data
  {
    Members(Sorted(data.Keys));
  }

  /** The loop over a name's hits. */
  method MarkInName(hits: seq<Hit>) returns (named: seq<Hit>)
    ensures named == InName(hits)
  {
    named := [];
    assert hits[0..] == hits;
    for j := 0 to |hits|
      invariant named + InName(hits[j..]) == InName(hits)
    {
      assert hits[j..][1..] == hits[j + 1..];
      named := named + [hits[j].(inName := true, line := 1, through := 1)];
    }
    assert named == InName(hits);
  }

  function RedactedOver(data: Form, keys: set<bytes>): Form
    requires keys <= data.Keys
  {
    map k | k in keys && NameKept(k) :: Clean(data[k])
  }

  lemma OneMoreField(data: Form, keys: set<bytes>, k: bytes)
    requires keys <= data.Keys && k in data
    ensures RedactedOver(data, keys + {k}) ==
            if NameKept(k) then RedactedOver(data, keys)[k := Clean(data[k])] else RedactedOver(data, keys)
  {
    hide Clean, Report;
  }

  method Fields(data: Form) returns (out: Form, hits: seq<Hit>)
    ensures out == Redacted(data) && hits == FormHits(data)
  {
    hide Report, Clean, InName, RedactedOver, HitsOver, NameKept, Redacted, Elements;
    var keys := SortKeys(data.Keys);
    KeysInForm(data);
    out, hits := map[], [];
    ghost var done: set<bytes> := {};
    assert keys[0..] == keys;
    NoFields(data);
    for i := 0 to |keys|
      invariant hits + HitsOver(data, keys[i..]) == HitsOver(data, keys)
      invariant done == Elements(keys[..i]) <= data.Keys && out == RedactedOver(data, done)
    {
      var k := keys[i];
      OneMoreField(data, done, k);
      OneMoreElement(keys, i);
      HitsFrom(data, keys, i);
      done := done + {k};
      var _, found := Value([], k);
      NameKeptExactlyWhen(k);
      if found != [] {
        found := MarkInName(found);
      } else {
        var cleaned;
        cleaned, found := Value(k, data[k]);
        out := out[k := cleaned];
      }
      Reassociate(hits, found, HitsOver(data, keys[i + 1..]));
      hits := hits + found;
    }
    NoHitsFrom(data, keys);
    AllFields(data);
  }

  lemma NameKeptExactlyWhen(k: bytes)
    ensures NameKept(k) <==> Report([], k) == []
  {}

  lemma HitsFrom(data: Form, keys: seq<bytes>, i: nat)
    requires i < |keys| && forall j :: 0 <= j < |keys| ==> keys[j] in data
    ensures HitsOver(data, keys[i..]) == FieldHits(data, keys[i]) + HitsOver(data, keys[i + 1..])
  {
    assert keys[i..][1..] == keys[i + 1..];
  }

  lemma NoHitsFrom(data: Form, keys: seq<bytes>)
    ensures HitsOver(data, keys[|keys|..]) == [] && keys[..|keys|] == keys
  {}

  lemma OneMoreElement(keys: seq<bytes>, i: nat)
    requires i < |keys|
    ensures Elements(keys[..i + 1]) == Elements(keys[..i]) + {keys[i]}
  {
    assert keys[..i + 1] == keys[..i] + [keys[i]];
  }

  lemma NoFields(data: Form)
    ensures Elements<bytes>([]) == {} && RedactedOver(data, {}) == map[]
  {}

  lemma AllFields(data: Form)
    ensures RedactedOver(data, data.Keys) == Redacted(data)
  {
    hide Clean, Report;
  }

  /** Any, which ranges the map in no particular order and stops at the first finding. */
  method Any(data: Form) returns (found: bool)
    ensures found <==> FormHits(data) != []
  {
    hide Report, Clean;
    var rest := data.Keys;
    while rest != {}
      invariant rest <= data.Keys
      invariant forall k :: k in data.Keys - rest ==> NameKept(k) && Report([], data[k]) == []
      decreases rest
    {
      var k :| k in rest;
      rest := rest - {k};
      var _, nameHits := Value([], k);
      if nameHits != [] {
        HitsExactlyWhenSomethingIsLeft(data);
        return true;
      }
      var _, valueHits := Value([], data[k]);
      if valueHits != [] {
        HitsExactlyWhenSomethingIsLeft(data);
        return true;
      }
    }
    HitsExactlyWhenSomethingIsLeft(data);
    found := false;
  }

  lemma {:induction false} NoHitsOver(data: Form, keys: seq<bytes>)
    requires forall i :: 0 <= i < |keys| ==> keys[i] in data
    ensures HitsOver(data, keys) == [] <==> forall i :: 0 <= i < |keys| ==> NameKept(keys[i]) && Report(keys[i], data[keys[i]]) == []
  {
    hide Report;
    if keys != [] {
      NoHitsOver(data, keys[1..]);
      assert forall i :: 0 < i < |keys| ==> keys[i] == keys[1..][i - 1];
      assert Report([], keys[0]) != [] ==> InName(Report([], keys[0])) != [];
    }
  }

  /** Where a hit of a submission points: at a name that was dropped and is not repeated, or at lines of the value it names
      as that value was submitted. */
  predicate PointsInto(h: Hit, data: Form) {
    if h.inName then h.field == [] && h.line == h.through == 1
    else h.field in data && NameKept(h.field) && 1 <= h.line <= h.through <= |Lines(data[h.field])|
  }

  lemma {:induction false} InNamePoints(hits: seq<Hit>, data: Form)
    requires forall h :: h in hits ==> h.field == []
    ensures forall h :: h in InName(hits) ==> h.inName && PointsInto(h, data)
  {
    if hits != [] {
      InNamePoints(hits[1..], data);
    }
  }

  lemma FieldHitsPointInto(data: Form, k: bytes)
    requires k in data
    ensures forall h :: h in FieldHits(data, k) ==> PointsInto(h, data)
  {
    hide Report, Lines, Benign;
    if NameKept(k) {
      HitsNameTheirField(k, data[k]);
      HitsIndexTheOriginal(k, data[k]);
      PlacedInBounds(Report(k, data[k]), |Lines(data[k])|);
    } else {
      HitsNameTheirField([], k);
      InNamePoints(Report([], k), data);
    }
  }

  lemma {:induction false} HitsOverPointInto(data: Form, keys: seq<bytes>)
    requires forall i :: 0 <= i < |keys| ==> keys[i] in data
    ensures forall h :: h in HitsOver(data, keys) ==> PointsInto(h, data)
  {
    hide FieldHits, PointsInto;
    if keys != [] {
      FieldHitsPointInto(data, keys[0]);
      HitsOverPointInto(data, keys[1..]);
    }
  }

  /** Every hit Fields reports about a value names a submitted field that was kept, and lines that its
      submitted value has: looking it up in the submission never finds it out of range. */
  lemma FormHitsPointIntoTheForm(data: Form)
    ensures forall h :: h in FormHits(data) ==> PointsInto(h, data)
  {
    hide PointsInto, HitsOver;
    KeysInForm(data);
    HitsOverPointInto(data, Sorted(data.Keys));
  }

  predicate FormClean(data: Form) {
    forall k :: k in data ==> NothingLeft(k) && NothingLeft(data[k])
  }

  /** Fields reports something exactly when some name or value has something to redact, whatever
      field the value is reported under. */
  lemma HitsExactlyWhenSomethingIsLeft(data: Form)
    ensures FormHits(data) == [] <==> FormClean(data)
    ensures FormClean(data) <==> forall k :: k in data ==> NameKept(k) && Report([], data[k]) == []
  {
    hide Report, NothingLeft;
    KeysInForm(data);
    var keys := Sorted(data.Keys);
    Members(keys);
    NoHitsOver(data, keys);
    forall k | k in data
      ensures NameKept(k) <==> NothingLeft(k)
      ensures Report(k, data[k]) == [] <==> NothingLeft(data[k])
      ensures Report([], data[k]) == [] <==> NothingLeft(data[k])
    {
      ReportedExactlyWhenRedacted([], k);
      ReportedExactlyWhenRedacted(k, data[k]);
      ReportedExactlyWhenRedacted([], data[k]);
    }
    if FormHits(data) == [] {
      forall k | k in data ensures NothingLeft(k) && NothingLeft(data[k]) {
        assert k in keys;
        var i :| 0 <= i < |keys| && keys[i] == k;
      }
    }
  }

  /** Redacting a submission again changes nothing and finds nothing, and a submission in which
      nothing is found comes back as it was. */
  lemma FieldsIsIdempotent(data: Form)
    ensures Redacted(Redacted(data)) == Redacted(data) && FormHits(Redacted(data)) == []
    ensures FormHits(data) == [] <==> Redacted(data) == data
  {
    hide Report, NothingLeft, Clean, FormHits;
    var out := Redacted(data);
    forall k | k in data
      ensures NameKept(k) <==> NothingLeft(k)
      ensures NothingLeft(Clean(data[k])) && Clean(Clean(data[k])) == Clean(data[k])
      ensures NothingLeft(data[k]) <==> Clean(data[k]) == data[k]
    {
      ReportedExactlyWhenRedacted([], k);
      ReportedExactlyWhenRedacted([], data[k]);
      OnePassSuffices([], data[k]);
    }
    HitsExactlyWhenSomethingIsLeft(data);
    HitsExactlyWhenSomethingIsLeft(out);
    if Redacted(data) == data {
      forall k | k in data ensures NothingLeft(k) && NothingLeft(data[k]) {
        assert k in out && out[k] == Clean(data[k]);
      }
    }
  }
}

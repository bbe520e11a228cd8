/** What the content score counts, mark by mark, and what the verdict shows for it. */
module ScreenContent {
  import opened Basics
  import opened Bytes
  import opened ScreenScore
  import opened ScreenMonotone
  import opened ScreenRules
  import opened Screen

  // ---- counting

  predicate Occurs(s: bytes, pat: bytes) {
    exists i :: 0 <= i <= |s| && pat <= s[i..]
  }

  /** Counting goes on behind the first occurrence, and ends where there is none. */
  lemma {:induction false} CountFromTheFirst(s: bytes, pat: bytes, i: nat)
    requires pat != [] && i <= |s| && pat <= s[i..] && forall j :: 0 <= j < i ==> !(pat <= s[j..])
    ensures Count(s, pat) == 1 + Count(s[i + |pat|..], pat)
    decreases i
  {
    if i == 0 {
      assert s[0..] == s;
    } else {
      assert s[0..] == s && !(pat <= s);
      assert s[1..][i - 1..] == s[i..];
      forall j | 0 <= j < i - 1 ensures !(pat <= s[1..][j..]) {
        assert s[1..][j..] == s[j + 1..];
      }
      CountFromTheFirst(s[1..], pat, i - 1);
      assert s[1..][i - 1 + |pat|..] == s[i + |pat|..];
    }
  }

  lemma {:induction false} CountsWhatOccurs(s: bytes, pat: bytes)
    requires pat != []
    ensures Count(s, pat) > 0 <==> Occurs(s, pat)
  {
    if |s| >= |pat| && !(pat <= s) {
      CountsWhatOccurs(s[1..], pat);
      if Occurs(s, pat) {
        var i :| 0 <= i <= |s| && pat <= s[i..];
        assert i > 0 by { assert s[0..] == s; }
        assert s[1..][i - 1..] == s[i..];
      }
      if Occurs(s[1..], pat) {
        var i :| 0 <= i <= |s| - 1 && pat <= s[1..][i..];
        assert s[1..][i..] == s[i + 1..];
      }
    } else if pat <= s {
      assert s[0..] == s;
    }
  }

  // ---- one field

  /** The spellings a form post has no use for. */
  predicate IsMarkup(m: bytes) {
    m == Ascii("[url=") || m == Ascii("[url]") || m == Ascii("[link]") || m == Ascii("<a href")
  }

  predicate IsSql(m: bytes) {
    m == Ascii("union select") || m == Ascii("extractvalue(") || m == Ascii("' or '1'='1") || m == Ascii("' or 1=1") ||
    m == Ascii("xp_cmdshell") || m == Ascii("waitfor delay") || m == Ascii("-- -")
  }

  predicate IsBuiltIn(kw: bytes) {
    kw == Ascii("casino") || kw == Ascii("viagra") || kw == Ascii("cialis") || kw == Ascii("backlinks") ||
    kw == Ascii("seo service") || kw == Ascii("binary options") || kw == Ascii("forex trading") ||
    kw == Ascii("forex signals") || kw == Ascii("crypto pump") || kw == Ascii("unsubscribe")
  }

  predicate IsNameField(k: bytes) {
    k == Ascii("name") || k == Ascii("fname") || k == Ascii("lname") || k == Ascii("firstname") || k == Ascii("lastname") ||
    k == Ascii("full_name")
  }

  lemma ListsAreSpelled(m: bytes)
    ensures m in MARKUP_MARKERS <==> IsMarkup(m)
    ensures m in SQL_MARKERS <==> IsSql(m)
    ensures m in SPAM_KEYWORDS <==> IsBuiltIn(m)
    ensures m in NAME_KEYS <==> IsNameField(m)
  {
    hide Ascii;
  }

  /** What a field can be held against, and how much each counts. */
  predicate Says(lib: Library, key: bytes, value: bytes, keywords: seq<bytes>, s: Signal) {
    var low := lib.lower(value);
    s.field == key &&
    match s.check
    case Markup => IsMarkup(s.text) && Occurs(low, s.text) && s.weight == 6 * Count(low, s.text)
    case Sql => IsSql(s.text) && Occurs(low, s.text) && s.weight == 6 * Count(low, s.text)
    case Keyword => s.text in keywords && Occurs(low, s.text) && s.weight == 5
    case UrlInName =>
      IsNameField(lib.lower(key)) && (Occurs(low, HTTP) || Occurs(low, WWW)) && s.text == lib.cut(value) && s.weight == 4
    case Gibberish => lib.gibberish(value).Some? && s.text == lib.cut(lib.gibberish(value).value) && s.weight == 3
    case _ => false
  }

  lemma {:induction false} MarkersSay(check: Check, key: bytes, low: bytes, markers: seq<bytes>, s: Signal)
    requires forall i :: 0 <= i < |markers| ==> markers[i] != []
    ensures s in MarkerSignals(check, key, low, markers) <==>
            s.check == check && s.field == key && s.text in markers && Count(low, s.text) > 0 && s.weight == 6 * Count(low, s.text)
  {
    hide Count;
    if markers != [] {
      MarkersSay(check, key, low, markers[..|markers| - 1], s);
      assert markers == markers[..|markers| - 1] + [markers[|markers| - 1]];
    }
  }

  lemma {:induction false} KeywordsSay(key: bytes, low: bytes, keywords: seq<bytes>, s: Signal)
    ensures s in KeywordSignals(key, low, keywords) <==>
            s.check == Keyword && s.field == key && s.text in keywords && Contains(low, s.text) && s.weight == 5
  {
    hide Contains;
    if keywords != [] {
      KeywordsSay(key, low, keywords[..|keywords| - 1], s);
      assert keywords == keywords[..|keywords| - 1] + [keywords[|keywords| - 1]];
    }
  }

  lemma MarkersAreNotEmpty()
    ensures forall m :: IsMarkup(m) || IsSql(m) ==> m != []
  {}

  /** A field's signals are exactly what can be said of it. */
  lemma FieldSignalsExactly(lib: Library, key: bytes, value: bytes, keywords: seq<bytes>, s: Signal)
    ensures s in FieldSignals(lib, key, value, keywords) <==> Says(lib, key, value, keywords, s)
  {
    hide MarkerSignals, KeywordSignals, Count, Ascii, IsMarkup, IsSql, IsBuiltIn, IsNameField, Contains, Occurs;
    var low := lib.lower(value);
    MarkersSay(Markup, key, low, MARKUP_MARKERS, s);
    MarkersSay(Sql, key, low, SQL_MARKERS, s);
    KeywordsSay(key, low, keywords, s);
    ListsAreSpelled(s.text);
    ListsAreSpelled(lib.lower(key));
    MarkersAreNotEmpty();
    if IsMarkup(s.text) || IsSql(s.text) { CountsWhatOccurs(low, s.text); }
    ContainsIsOccurs(low, s.text);
    ContainsIsOccurs(low, HTTP);
    ContainsIsOccurs(low, WWW);
  }

  lemma ContainsIsOccurs(s: bytes, pat: bytes)
    ensures Contains(s, pat) <==> Occurs(s, pat)
  {}

  // ---- how much a field adds

  /** How often the listed spellings occur, all together. */
  function MarkupCount(low: bytes): nat {
    Count(low, Ascii("[url=")) + Count(low, Ascii("[url]")) + Count(low, Ascii("[link]")) + Count(low, Ascii("<a href"))
  }

  function SqlCount(low: bytes): nat {
    Count(low, Ascii("union select")) + Count(low, Ascii("extractvalue(")) + Count(low, Ascii("' or '1'='1")) +
    Count(low, Ascii("' or 1=1")) + Count(low, Ascii("xp_cmdshell")) + Count(low, Ascii("waitfor delay")) + Count(low, Ascii("-- -"))
  }

  function Occurring(low: bytes, keywords: seq<bytes>): nat {
    if keywords == [] then 0
    else Occurring(low, keywords[1..]) + if Contains(low, keywords[0]) then 1 else 0
  }

  function CountAll(low: bytes, markers: seq<bytes>): nat
    requires forall i :: 0 <= i < |markers| ==> markers[i] != []
  {
    if markers == [] then 0 else CountAll(low, markers[..|markers| - 1]) + Count(low, markers[|markers| - 1])
  }

  lemma {:induction false} MarkerPoints(check: Check, key: bytes, low: bytes, markers: seq<bytes>)
    requires forall i :: 0 <= i < |markers| ==> markers[i] != []
    ensures Sum(MarkerSignals(check, key, low, markers)) == 6 * CountAll(low, markers)
  {
    hide Count, Sum;
    SumOfOne();
    NothingSums();
    if markers != [] {
      var rest, m := markers[..|markers| - 1], markers[|markers| - 1];
      MarkerPoints(check, key, low, rest);
      assert MarkerSignals(check, key, low, rest) + [] == MarkerSignals(check, key, low, rest);
    }
  }

  lemma {:induction false} CountAllSplits(low: bytes, a: seq<bytes>, m: bytes)
    requires m != [] && forall i :: 0 <= i < |a| ==> a[i] != []
    ensures CountAll(low, a + [m]) == CountAll(low, a) + Count(low, m)
  {
    hide Count;
    assert (a + [m])[..|a|] == a;
  }

  lemma MarkupPoints(key: bytes, low: bytes)
    ensures Sum(MarkerSignals(Markup, key, low, MARKUP_MARKERS)) == 6 * MarkupCount(low)
  {
    hide Count, Ascii, MarkerSignals, Sum, CountAll;
    MarkersAreNotEmpty();
    var a, b, c, d := Ascii("[url="), Ascii("[url]"), Ascii("[link]"), Ascii("<a href");
    NoMarkers(low);
    CountAllSplits(low, [], a);
    CountAllSplits(low, [a], b);
    CountAllSplits(low, [a, b], c);
    CountAllSplits(low, [a, b, c], d);
    assert [] + [a] == [a] && [a] + [b] == [a, b] && [a, b] + [c] == [a, b, c] && [a, b, c] + [d] == MARKUP_MARKERS;
    MarkerPoints(Markup, key, low, MARKUP_MARKERS);
  }

  lemma NoMarkers(low: bytes)
    ensures CountAll(low, []) == 0
  {}

  lemma SqlPoints(key: bytes, low: bytes)
    ensures Sum(MarkerSignals(Sql, key, low, SQL_MARKERS)) == 6 * SqlCount(low)
  {
    hide Count, Ascii, MarkerSignals, Sum, CountAll;
    MarkersAreNotEmpty();
    var a, b, c, d := Ascii("union select"), Ascii("extractvalue("), Ascii("' or '1'='1"), Ascii("' or 1=1");
    var e, f, g := Ascii("xp_cmdshell"), Ascii("waitfor delay"), Ascii("-- -");
    NoMarkers(low);
    CountAllSplits(low, [], a);
    CountAllSplits(low, [a], b);
    CountAllSplits(low, [a, b], c);
    CountAllSplits(low, [a, b, c], d);
    CountAllSplits(low, [a, b, c, d], e);
    CountAllSplits(low, [a, b, c, d, e], f);
    CountAllSplits(low, [a, b, c, d, e, f], g);
    assert [] + [a] == [a] && [a] + [b] == [a, b] && [a, b] + [c] == [a, b, c] && [a, b, c] + [d] == [a, b, c, d];
    assert [a, b, c, d] + [e] == [a, b, c, d, e] && [a, b, c, d, e] + [f] == [a, b, c, d, e, f];
    assert [a, b, c, d, e, f] + [g] == SQL_MARKERS;
    MarkerPoints(Sql, key, low, SQL_MARKERS);
  }

  lemma {:induction false} OccurringNext(low: bytes, a: seq<bytes>, kw: bytes)
    ensures Occurring(low, a + [kw]) == Occurring(low, a) + if Contains(low, kw) then 1 else 0
  {
    hide Contains;
    if a == [] {
      assert [] + [kw] == [kw] && [kw][1..] == [];
    } else {
      OccurringNext(low, a[1..], kw);
      assert (a + [kw])[1..] == a[1..] + [kw];
    }
  }

  lemma {:induction false} KeywordPoints(key: bytes, low: bytes, keywords: seq<bytes>)
    ensures Sum(KeywordSignals(key, low, keywords)) == 5 * Occurring(low, keywords)
  {
    hide Contains, Sum, Occurring;
    SumOfOne();
    if keywords == [] {
      NothingSums();
      NoneOccurs(low);
    } else {
      var rest, kw := keywords[..|keywords| - 1], keywords[|keywords| - 1];
      KeywordPoints(key, low, rest);
      OccurringNext(low, rest, kw);
      assert keywords == rest + [kw];
      assert KeywordSignals(key, low, rest) + [] == KeywordSignals(key, low, rest);
    }
  }

  lemma NoneOccurs(low: bytes)
    ensures Occurring(low, []) == 0
  {}

  /** What a field adds to the score: six for each marker, five for each keyword that occurs, four for a
      link in a name, three for gibberish. */
  function Points(lib: Library, key: bytes, value: bytes, keywords: seq<bytes>): int {
    var low := lib.lower(value);
    6 * MarkupCount(low) + 6 * SqlCount(low) + 5 * Occurring(low, keywords) +
    (if IsNameField(lib.lower(key)) && (Occurs(low, HTTP) || Occurs(low, WWW)) then 4 else 0) +
    (if lib.gibberish(value).Some? then 3 else 0)
  }

  lemma FieldPoints(lib: Library, key: bytes, value: bytes, keywords: seq<bytes>)
    ensures Sum(FieldSignals(lib, key, value, keywords)) == Points(lib, key, value, keywords)
  {
    hide MarkerSignals, KeywordSignals, Count, Ascii, Sum, MarkupCount, SqlCount, Occurring, Contains, Occurs, IsNameField;
    var low := lib.lower(value);
    var a := MarkerSignals(Markup, key, low, MARKUP_MARKERS);
    var b := MarkerSignals(Sql, key, low, SQL_MARKERS);
    var c := KeywordSignals(key, low, keywords);
    var d := UrlSignals(lib, key, value);
    var e := GibberishSignals(lib, key, value);
    SumConcat(a + b + c + d, e);
    SumConcat(a + b + c, d);
    SumConcat(a + b, c);
    SumConcat(a, b);
    MarkupPoints(key, low);
    SqlPoints(key, low);
    KeywordPoints(key, low, keywords);
    ListsAreSpelled(lib.lower(key));
    ContainsIsOccurs(low, HTTP);
    ContainsIsOccurs(low, WWW);
    AtMostOne(d);
    AtMostOne(e);
  }

  lemma AtMostOne(s: seq<Signal>)
    ensures s == [] ==> Sum(s) == 0
    ensures |s| == 1 ==> Sum(s) == s[0].weight
  {
    if |s| == 1 { assert s[..0] == []; }
  }

  function PointsOver(lib: Library, data: Form, keys: seq<bytes>, keywords: seq<bytes>): int
    requires forall i :: 0 <= i < |keys| ==> keys[i] in data
  {
    if keys == [] then 0
    else
      var k := keys[|keys| - 1];
      PointsOver(lib, data, keys[..|keys| - 1], keywords) + Points(lib, k, data[k], keywords)
  }

  lemma {:induction false} SumOver(lib: Library, data: Form, keys: seq<bytes>, keywords: seq<bytes>)
    requires forall i :: 0 <= i < |keys| ==> keys[i] in data
    ensures Sum(SignalsOver(lib, data, keys, keywords)) == PointsOver(lib, data, keys, keywords)
  {
    hide FieldSignals, Points, Sum;
    if keys == [] {
      NothingSums();
    } else {
      var n := |keys| - 1;
      SumOver(lib, data, keys[..n], keywords);
      FieldPoints(lib, keys[n], data[keys[n]], keywords);
      SumConcat(SignalsOver(lib, data, keys[..n], keywords), FieldSignals(lib, keys[n], data[keys[n]], keywords));
    }
  }

  /** The links of a form, field by field: http and www., those behind // counted once. */
  function LinkCount(lib: Library, data: Form, keys: seq<bytes>): int
    requires forall i :: 0 <= i < |keys| ==> keys[i] in data
  {
    if keys == [] then 0
    else
      var low := lib.lower(data[keys[|keys| - 1]]);
      LinkCount(lib, data, keys[..|keys| - 1]) + Count(low, Ascii("http")) + Count(low, Ascii("www.")) - Count(low, Ascii("//www."))
  }

  lemma LinksAreSpelled()
    ensures HTTP == Ascii("http") && WWW == Ascii("www.") && SLASHES_WWW == Ascii("//www.")
  {}

  lemma {:induction false} LinksCounted(lib: Library, data: Form, keys: seq<bytes>)
    requires forall i :: 0 <= i < |keys| ==> keys[i] in data
    ensures LinksOver(lib, data, keys) == LinkCount(lib, data, keys)
  {
    hide Count, Ascii;
    LinksAreSpelled();
    if keys != [] {
      LinksCounted(lib, data, keys[..|keys| - 1]);
    }
  }

  /** The score of a submission: what its fields add, and two for each link after the first. The keywords
      are the ten built in and the operator's. */
  lemma ScoreIsThePoints(lib: Library, data: Form, extra: seq<bytes>)
    ensures forall i :: 0 <= i < |Sorted(data.Keys)| ==> Sorted(data.Keys)[i] in data
    ensures var keys := Sorted(data.Keys);
            Score(lib, data, extra) ==
              PointsOver(lib, data, keys, SPAM_KEYWORDS + Added(lib, extra)) +
              (if LinkCount(lib, data, keys) > 1 then 2 * (LinkCount(lib, data, keys) - 1) else 0)
    ensures forall kw :: kw in SPAM_KEYWORDS + Added(lib, extra) <==>
              IsBuiltIn(kw) || exists i :: 0 <= i < |extra| && kw == lib.lower(lib.trim(extra[i])) && kw != []
  {
    hide SignalsOver, LinksOver, PointsOver, LinkCount, Sum, Added, Ascii, IsBuiltIn, IsMarkup, IsSql, IsNameField;
    KeysInForm(data);
    var keys, keywords := Sorted(data.Keys), SPAM_KEYWORDS + Added(lib, extra);
    SumOver(lib, data, keys, keywords);
    LinksCounted(lib, data, keys);
    SumOfLinks(LinksOver(lib, data, keys));
    SumConcat(SignalsOver(lib, data, keys, keywords), LinkSignals(LinksOver(lib, data, keys)));
    UsedKeywords(lib, extra);
  }

  lemma UsedKeywords(lib: Library, extra: seq<bytes>)
    ensures forall kw :: kw in SPAM_KEYWORDS + Added(lib, extra) <==>
              IsBuiltIn(kw) || exists i :: 0 <= i < |extra| && kw == lib.lower(lib.trim(extra[i])) && kw != []
  {
    hide Added, Ascii, IsBuiltIn, IsMarkup, IsSql, IsNameField;
    AddedIsTheSet(lib, extra);
    forall kw
      ensures kw in SPAM_KEYWORDS + Added(lib, extra) <==>
              IsBuiltIn(kw) || exists i :: 0 <= i < |extra| && kw == lib.lower(lib.trim(extra[i])) && kw != []
    {
      ListsAreSpelled(kw);
    }
  }

  // ---- what the verdict shows

  /** An allow rule leaves nothing to show; a block rule shows itself, at the threshold; and otherwise
      the content's signals are shown, and one more at the threshold exactly for a third visit. */
  lemma VerdictShows(lib: Library, net: Net, input: Input, repeated: bool)
    ensures var v, content := Judge(lib, net, input, repeated), Detail(lib, input.fields, BlockKeywords(net, input.rules));
            v.threshold == ClampThreshold(input.threshold) &&
            match MatchRule(net, input.rules, input.fields, input.ip)
            case None =>
              v.matched == None && content <= v.signals &&
              v.signals[|content|..] == if repeated then [Signal(RepeatIp, [], input.ip, v.threshold)] else []
            case Some(r) =>
              v.matched == Some(r.id) &&
              if r.kind == Allow then !v.hold && v.score == 0 && v.signals == []
              else v.hold && v.signals == [Signal(Blocked, [], r.value, v.threshold)]
  {
    hide MatchRule, Detail, BlockKeywords;
  }
}

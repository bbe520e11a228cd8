/** The content score: fields in name order, weights that add up, links that never count below zero. */
module ScreenScore {
  import opened Basics
  import opened Bytes

  /** What the scorer takes from elsewhere: Unicode lower-casing and trimming, the gibberish
      heuristic, and cutting a match to 200 runes. */
  datatype Library = Library(lower: bytes -> bytes, trim: bytes -> bytes, gibberish: bytes -> Option<bytes>, cut: bytes -> bytes)

  datatype Check = Markup | Sql | Keyword | Gibberish | UrlInName | ExtraLinks | RepeatIp | Blocked | Manual

  datatype Signal = Signal(check: Check, field: bytes, text: bytes, weight: int)

  const MARKUP_WEIGHT := 6
  const KEYWORD_WEIGHT := 5
  const URL_IN_NAME_WEIGHT := 4
  const EXTRA_LINK_WEIGHT := 2
  const GIBBERISH_WEIGHT := 3

  const SPAM_KEYWORDS: seq<bytes> :=
    [Ascii("casino"), Ascii("viagra"), Ascii("cialis"), Ascii("backlinks"), Ascii("seo service"),
     Ascii("binary options"), Ascii("forex trading"), Ascii("forex signals"), Ascii("crypto pump"), Ascii("unsubscribe")]

  const MARKUP_MARKERS: seq<bytes> := [Ascii("[url="), Ascii("[url]"), Ascii("[link]"), Ascii("<a href")]

  const SQL_MARKERS: seq<bytes> :=
    [Ascii("union select"), Ascii("extractvalue("), Ascii("' or '1'='1"), Ascii("' or 1=1"), Ascii("xp_cmdshell"),
     Ascii("waitfor delay"), Ascii("-- -")]

  const NAME_KEYS: set<bytes> :=
    {Ascii("name"), Ascii("fname"), Ascii("lname"), Ascii("firstname"), Ascii("lastname"), Ascii("full_name")}

  const HTTP: bytes := [0x68, 0x74, 0x74, 0x70]
  const WWW: bytes := [0x77, 0x77, 0x77, 0x2E]
  const SLASHES_WWW: bytes := [0x2F, 0x2F, 0x77, 0x77, 0x77, 0x2E]

  // ---- counting

  /** strings.Count for a pattern that is not empty: leftmost, not overlapping. */
  function Count(s: bytes, pat: bytes): nat
    requires pat != []
  {
    if |s| < |pat| then 0
    else if pat <= s then 1 + Count(s[|pat|..], pat)
    else Count(s[1..], pat)
  }

  predicate Contains(s: bytes, pat: bytes) {
    exists i :: 0 <= i <= |s| && pat <= s[i..]
  }

  predicate ContainsLink(lower: bytes) {
    Contains(lower, HTTP) || Contains(lower, WWW)
  }

  /** "//www." never occurs more often than "www.", so the link count never goes below zero. */
  lemma {:induction false} SlashesCountedOnce(s: bytes)
    ensures Count(s, SLASHES_WWW) <= Count(s, WWW)
  {
    if |s| < 4 {
    } else if SLASHES_WWW <= s {
      assert s[0] == 0x2F && s[1] == 0x2F && s[2] == 0x77 && s[3] == 0x77 && s[4] == 0x77 && s[5] == 0x2E;
      SkipNonW(s);
      SkipNonW(s[1..]);
      assert s[1..][1..] == s[2..] && WWW <= s[2..] && s[2..][4..] == s[6..];
      SlashesCountedOnce(s[6..]);
    } else if WWW <= s {
      assert s[0] == 0x77 && s[1] == 0x77 && s[2] == 0x77 && s[3] == 0x2E;
      SkipNonSlash(s);
      SkipNonSlash(s[1..]);
      SkipNonSlash(s[2..]);
      SkipNonSlash(s[3..]);
      assert s[1..][1..] == s[2..] && s[2..][1..] == s[3..] && s[3..][1..] == s[4..];
      SlashesCountedOnce(s[4..]);
    } else {
      SlashesCountedOnce(s[1..]);
      if |s| < 6 { assert |s[1..]| < 6; }
    }
  }

  lemma SkipNonSlash(s: bytes)
    requires s != [] && s[0] != 0x2F
    ensures Count(s, SLASHES_WWW) == Count(s[1..], SLASHES_WWW)
  {}

  lemma SkipNonW(s: bytes)
    requires s != [] && s[0] != 0x77
    ensures Count(s, WWW) == Count(s[1..], WWW)
  {}

  function Links(lower: bytes): (n: int) {
    Count(lower, HTTP) + Count(lower, WWW) - Count(lower, SLASHES_WWW)
  }

  lemma LinksAreNotNegative(lower: bytes)
    ensures Links(lower) >= 0
  {
    SlashesCountedOnce(lower);
  }

  // ---- keywords

  /** What an operator's keyword is compared as. */
  function Normal(lib: Library, kw: bytes): bytes {
    lib.lower(lib.trim(kw))
  }

  /** The operator's keywords that are new: not blank, not built in, not given before. */
  function Added(lib: Library, extra: seq<bytes>): (out: seq<bytes>) {
    if extra == [] then []
    else
      var before := Added(lib, extra[..|extra| - 1]);
      var kw := Normal(lib, extra[|extra| - 1]);
      if kw == [] || kw in SPAM_KEYWORDS || kw in before then before else before + [kw]
  }

  function AddedSet(lib: Library, extra: seq<bytes>): set<bytes> {
    set i | 0 <= i < |extra| && Normal(lib, extra[i]) != [] && Normal(lib, extra[i]) !in SPAM_KEYWORDS :: Normal(lib, extra[i])
  }

  lemma {:induction false} AddedIsTheSet(lib: Library, extra: seq<bytes>)
    ensures NoDuplicates(Added(lib, extra))
    ensures forall k :: k in Added(lib, extra) <==> k in AddedSet(lib, extra)
  {
    if extra != [] {
      var n := |extra| - 1;
      AddedIsTheSet(lib, extra[..n]);
      forall k ensures k in AddedSet(lib, extra) <==>
                       k in AddedSet(lib, extra[..n]) || (k == Normal(lib, extra[n]) && k != [] && k !in SPAM_KEYWORDS)
      {
        if k in AddedSet(lib, extra) {
          var i :| 0 <= i < |extra| && Normal(lib, extra[i]) == k;
          assert i < n ==> extra[..n][i] == extra[i];
        }
        if k in AddedSet(lib, extra[..n]) {
          var i :| 0 <= i < n && Normal(lib, extra[..n][i]) == k;
          assert extra[i] == extra[..n][i];
        }
      }
    }
  }

  method MergeKeywords(lib: Library, extra: seq<bytes>) returns (keywords: seq<bytes>)
    ensures keywords == SPAM_KEYWORDS + Added(lib, extra)
  {
    keywords := SPAM_KEYWORDS;
    var seen := set kw | kw in SPAM_KEYWORDS;
    for i := 0 to |extra|
      invariant keywords == SPAM_KEYWORDS + Added(lib, extra[..i])
      invariant forall kw :: kw in seen <==> kw in keywords
    {
      assert extra[..i + 1][..i] == extra[..i];
      var kw := Normal(lib, extra[i]);
      if kw == [] || kw in seen { continue; }
      seen := seen + {kw};
      keywords := keywords + [kw];
    }
    assert extra[..|extra|] == extra;
  }

  // ---- one field

  /** One signal per marker, carrying the weight of all its occurrences. */
  function MarkerSignals(check: Check, key: bytes, lower: bytes, markers: seq<bytes>): seq<Signal>
    requires forall i :: 0 <= i < |markers| ==> markers[i] != []
  {
    if markers == [] then []
    else
      var rest := markers[..|markers| - 1];
      var m := markers[|markers| - 1];
      MarkerSignals(check, key, lower, rest) +
      if Count(lower, m) > 0 then [Signal(check, key, m, MARKUP_WEIGHT * Count(lower, m))] else []
  }

  function KeywordSignals(key: bytes, lower: bytes, keywords: seq<bytes>): seq<Signal> {
    if keywords == [] then []
    else
      var kw := keywords[|keywords| - 1];
      KeywordSignals(key, lower, keywords[..|keywords| - 1]) +
      if Contains(lower, kw) then [Signal(Keyword, key, kw, KEYWORD_WEIGHT)] else []
  }

  function UrlSignals(lib: Library, key: bytes, value: bytes): seq<Signal> {
    if lib.lower(key) in NAME_KEYS && ContainsLink(lib.lower(value))
    then [Signal(UrlInName, key, lib.cut(value), URL_IN_NAME_WEIGHT)] else []
  }

  function GibberishSignals(lib: Library, key: bytes, value: bytes): seq<Signal> {
    if lib.gibberish(value).Some? then [Signal(Gibberish, key, lib.cut(lib.gibberish(value).value), GIBBERISH_WEIGHT)] else []
  }

  function FieldSignals(lib: Library, key: bytes, value: bytes, keywords: seq<bytes>): seq<Signal> {
    MarkerSignals(Markup, key, lib.lower(value), MARKUP_MARKERS) +
    MarkerSignals(Sql, key, lib.lower(value), SQL_MARKERS) +
    KeywordSignals(key, lib.lower(value), keywords) +
    UrlSignals(lib, key, value) +
    GibberishSignals(lib, key, value)
  }

  function Sum(signals: seq<Signal>): int {
    if signals == [] then 0 else Sum(signals[..|signals| - 1]) + signals[|signals| - 1].weight
  }

  predicate AllPositive(signals: seq<Signal>) {
    forall i :: 0 <= i < |signals| ==> signals[i].weight > 0
  }

  lemma {:induction false} SumConcat(a: seq<Signal>, b: seq<Signal>)
    ensures Sum(a + b) == Sum(a) + Sum(b)
  {
    if b == [] {
      assert a + b == a;
    } else {
      SumConcat(a, b[..|b| - 1]);
      assert (a + b)[..|a + b| - 1] == a + b[..|b| - 1];
    }
  }

  lemma {:induction false} SumOfPositive(a: seq<Signal>)
    requires AllPositive(a)
    ensures Sum(a) >= |a|
  {
    if a != [] {
      SumOfPositive(a[..|a| - 1]);
    }
  }

  /** One more signal adds its weight. */
  lemma SumOfOne()
    ensures forall a: seq<Signal>, s: Signal :: Sum(a + [s]) == Sum(a) + s.weight
  {
    forall a: seq<Signal>, s: Signal ensures Sum(a + [s]) == Sum(a) + s.weight {
      assert (a + [s])[..|a|] == a;
    }
  }

  lemma MarkersUpTo(check: Check, key: bytes, lower: bytes, markers: seq<bytes>, i: nat)
    requires i < |markers| && forall j :: 0 <= j < |markers| ==> markers[j] != []
    ensures MarkerSignals(check, key, lower, markers[..i + 1]) ==
            MarkerSignals(check, key, lower, markers[..i]) +
            if Count(lower, markers[i]) > 0 then [Signal(check, key, markers[i], MARKUP_WEIGHT * Count(lower, markers[i]))] else []
    ensures MarkerSignals(check, key, lower, markers[..i]) + [] == MarkerSignals(check, key, lower, markers[..i])
  {
    hide Count;
    assert markers[..i + 1][..i] == markers[..i];
  }

  lemma KeywordsUpTo(key: bytes, lower: bytes, keywords: seq<bytes>, i: nat)
    requires i < |keywords|
    ensures KeywordSignals(key, lower, keywords[..i + 1]) ==
            KeywordSignals(key, lower, keywords[..i]) +
            if Contains(lower, keywords[i]) then [Signal(Keyword, key, keywords[i], KEYWORD_WEIGHT)] else []
    ensures KeywordSignals(key, lower, keywords[..i]) + [] == KeywordSignals(key, lower, keywords[..i])
  {
    hide Contains;
    assert keywords[..i + 1][..i] == keywords[..i];
  }

  method ScanMarkers(check: Check, key: bytes, lower: bytes, markers: seq<bytes>, signals: seq<Signal>, score: int)
    returns (signals': seq<Signal>, score': int)
    requires score == Sum(signals) && forall i :: 0 <= i < |markers| ==> markers[i] != []
    ensures signals' == signals + MarkerSignals(check, key, lower, markers)
    ensures score' == Sum(signals')
  {
    assert signals + MarkerSignals(check, key, lower, markers[..0]) == signals;
    hide Count, MarkerSignals, Sum;
    signals', score' := signals, score;
    for i := 0 to |markers|
      invariant signals' == signals + MarkerSignals(check, key, lower, markers[..i])
      invariant score' == Sum(signals')
    {
      MarkersUpTo(check, key, lower, markers, i);
      var n := Count(lower, markers[i]);
      if n > 0 {
        var weight := MARKUP_WEIGHT * n;
        NextSignal(signals, MarkerSignals(check, key, lower, markers[..i]), Signal(check, key, markers[i], weight));
        score' := score' + weight;
        signals' := signals' + [Signal(check, key, markers[i], weight)];
      }
    }
    assert markers[..|markers|] == markers;
  }

  lemma NextSignal(before: seq<Signal>, more: seq<Signal>, s: Signal)
    ensures (before + more) + [s] == before + (more + [s])
    ensures Sum(before + more + [s]) == Sum(before + more) + s.weight
  {
    SumOfOne();
    Reassociate(before, more, [s]);
  }

  method ScanKeywords(key: bytes, lower: bytes, keywords: seq<bytes>, signals: seq<Signal>, score: int)
    returns (signals': seq<Signal>, score': int)
    requires score == Sum(signals)
    ensures signals' == signals + KeywordSignals(key, lower, keywords)
    ensures score' == Sum(signals')
  {
    assert signals + KeywordSignals(key, lower, keywords[..0]) == signals;
    hide Contains, KeywordSignals, Sum;
    signals', score' := signals, score;
    for i := 0 to |keywords|
      invariant signals' == signals + KeywordSignals(key, lower, keywords[..i])
      invariant score' == Sum(signals')
    {
      KeywordsUpTo(key, lower, keywords, i);
      if Contains(lower, keywords[i]) {
        NextSignal(signals, KeywordSignals(key, lower, keywords[..i]), Signal(Keyword, key, keywords[i], KEYWORD_WEIGHT));
        score' := score' + KEYWORD_WEIGHT;
        signals' := signals' + [Signal(Keyword, key, keywords[i], KEYWORD_WEIGHT)];
      }
    }
    assert keywords[..|keywords|] == keywords;
  }

  // ---- the whole submission

  type Form = map<bytes, bytes>

  function SignalsOver(lib: Library, data: Form, keys: seq<bytes>, keywords: seq<bytes>): seq<Signal>
    requires forall i :: 0 <= i < |keys| ==> keys[i] in data
  {
    if keys == [] then []
    else
      var k := keys[|keys| - 1];
      SignalsOver(lib, data, keys[..|keys| - 1], keywords) + FieldSignals(lib, k, data[k], keywords)
  }

  function LinksOver(lib: Library, data: Form, keys: seq<bytes>): int
    requires forall i :: 0 <= i < |keys| ==> keys[i] in data
  {
    if keys == [] then 0
    else LinksOver(lib, data, keys[..|keys| - 1]) + Links(lib.lower(data[keys[|keys| - 1]]))
  }

  function LinkSignals(links: int): seq<Signal> {
    if links > 1 then [Signal(ExtraLinks, [], [], EXTRA_LINK_WEIGHT * (links - 1))] else []
  }

  lemma KeysInForm(data: Form)
    ensures forall i :: 0 <= i < |Sorted(data.Keys)| ==> Sorted(data.Keys)[i] in data
  {
    Members(Sorted(data.Keys));
  }

  /** DetailWith, on the fields in name order. */
  ghost function Detail(lib: Library, data: Form, extra: seq<bytes>): seq<Signal> {
    KeysInForm(data);
    var keys := Sorted(data.Keys);
    SignalsOver(lib, data, keys, SPAM_KEYWORDS + Added(lib, extra)) + LinkSignals(LinksOver(lib, data, keys))
  }

  lemma FieldsUpTo(lib: Library, data: Form, keys: seq<bytes>, keywords: seq<bytes>, i: nat)
    requires i < |keys| && forall j :: 0 <= j < |keys| ==> keys[j] in data
    ensures SignalsOver(lib, data, keys[..i + 1], keywords) ==
            SignalsOver(lib, data, keys[..i], keywords) + FieldSignals(lib, keys[i], data[keys[i]], keywords)
    ensures LinksOver(lib, data, keys[..i + 1]) == LinksOver(lib, data, keys[..i]) + Links(lib.lower(data[keys[i]]))
  {
    hide FieldSignals, Links;
    assert keys[..i + 1][..i] == keys[..i];
  }

  lemma NoFieldsYet(lib: Library, data: Form, keys: seq<bytes>, keywords: seq<bytes>)
    ensures SignalsOver(lib, data, keys[..0], keywords) == [] && LinksOver(lib, data, keys[..0]) == 0
    ensures keys[..|keys|] == keys && Sum([]) == 0
  {}

  /** The map is ranged over in no particular order; sorting the keys is what makes the answer one. */
  method DetailWith(lib: Library, data: Form, extra: seq<bytes>) returns (score: int, signals: seq<Signal>)
    ensures signals == Detail(lib, data, extra)
    ensures score == Sum(signals)
  {
    hide FieldSignals, Links, Sum, Added, SignalsOver, LinksOver;
    var keywords := MergeKeywords(lib, extra);
    var keys := SortKeys(data.Keys);
    KeysInForm(data);
    NoFieldsYet(lib, data, keys, keywords);
    score, signals := 0, [];
    var links := 0;
    for i := 0 to |keys|
      invariant signals == SignalsOver(lib, data, keys[..i], keywords)
      invariant score == Sum(signals)
      invariant links == LinksOver(lib, data, keys[..i])
    {
      var key := keys[i];
      FieldsUpTo(lib, data, keys, keywords, i);
      var lower := lib.lower(data[key]);
      links := links + Links(lower);
      signals, score := ScanField(lib, key, data[key], keywords, signals, score);
    }
    if links > 1 {
      var weight := EXTRA_LINK_WEIGHT * (links - 1);
      var pileUp := Signal(ExtraLinks, [], [], weight);
      SumOfNext(signals, pileUp);
      score := score + weight;
      signals := signals + [pileUp];
    } else {
      assert signals + [] == signals;
    }
  }

  lemma SumOfNext(signals: seq<Signal>, s: Signal)
    ensures Sum(signals + [s]) == Sum(signals) + s.weight
  {
    SumOfOne();
  }

  method ScanField(lib: Library, key: bytes, value: bytes, keywords: seq<bytes>, signals: seq<Signal>, score: int)
    returns (signals': seq<Signal>, score': int)
    requires score == Sum(signals)
    ensures signals' == signals + FieldSignals(lib, key, value, keywords)
    ensures score' == Sum(signals')
  {
    hide MarkerSignals, KeywordSignals, Contains, ContainsLink, Sum;
    SumOfOne();
    var lower := lib.lower(value);
    signals', score' := ScanMarkers(Markup, key, lower, MARKUP_MARKERS, signals, score);
    signals', score' := ScanMarkers(Sql, key, lower, SQL_MARKERS, signals', score');
    signals', score' := ScanKeywords(key, lower, keywords, signals', score');
    if lib.lower(key) in NAME_KEYS && ContainsLink(lower) {
      score' := score' + URL_IN_NAME_WEIGHT;
      signals' := signals' + [Signal(UrlInName, key, lib.cut(value), URL_IN_NAME_WEIGHT)];
    }
    var token := lib.gibberish(value);
    if token.Some? {
      score' := score' + GIBBERISH_WEIGHT;
      signals' := signals' + [Signal(Gibberish, key, lib.cut(token.value), GIBBERISH_WEIGHT)];
    }
  }
}

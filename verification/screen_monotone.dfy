/** The score only ever grows: with another field, and with another keyword. */
module ScreenMonotone {
  import opened Basics
  import opened Bytes
  import opened ScreenScore

  ghost function Score(lib: Library, data: Form, extra: seq<bytes>): int {
    Sum(Detail(lib, data, extra))
  }

  // ---- every weight is positive

  lemma {:induction false} MarkerSignalsArePositive(check: Check, key: bytes, lower: bytes, markers: seq<bytes>)
    requires forall i :: 0 <= i < |markers| ==> markers[i] != []
    ensures AllPositive(MarkerSignals(check, key, lower, markers))
  {
    hide Count;
    if markers != [] {
      MarkerSignalsArePositive(check, key, lower, markers[..|markers| - 1]);
    }
  }

  lemma {:induction false} KeywordSignalsArePositive(key: bytes, lower: bytes, keywords: seq<bytes>)
    ensures AllPositive(KeywordSignals(key, lower, keywords))
  {
    hide Contains;
    if keywords != [] {
      KeywordSignalsArePositive(key, lower, keywords[..|keywords| - 1]);
    }
  }

  lemma FieldSignalsArePositive(lib: Library, key: bytes, value: bytes, keywords: seq<bytes>)
    ensures AllPositive(FieldSignals(lib, key, value, keywords))
    ensures Sum(FieldSignals(lib, key, value, keywords)) >= 0
  {
    hide MarkerSignals, KeywordSignals, Contains;
    MarkerSignalsArePositive(Markup, key, lib.lower(value), MARKUP_MARKERS);
    MarkerSignalsArePositive(Sql, key, lib.lower(value), SQL_MARKERS);
    KeywordSignalsArePositive(key, lib.lower(value), keywords);
    SumOfPositive(FieldSignals(lib, key, value, keywords));
  }

  lemma {:induction false} SignalsOverArePositive(lib: Library, data: Form, keys: seq<bytes>, keywords: seq<bytes>)
    requires forall i :: 0 <= i < |keys| ==> keys[i] in data
    ensures AllPositive(SignalsOver(lib, data, keys, keywords))
  {
    hide FieldSignals;
    if keys != [] {
      SignalsOverArePositive(lib, data, keys[..|keys| - 1], keywords);
      FieldSignalsArePositive(lib, keys[|keys| - 1], data[keys[|keys| - 1]], keywords);
    }
  }

  /** Every signal of a score has a positive weight, so a score above zero has a signal to show for
      it, and the links it counts are never below zero. */
  lemma DetailIsPositive(lib: Library, data: Form, extra: seq<bytes>)
    ensures AllPositive(Detail(lib, data, extra))
    ensures Score(lib, data, extra) >= |Detail(lib, data, extra)|
    ensures Score(lib, data, extra) > 0 ==> Detail(lib, data, extra) != []
  {
    hide SignalsOver, LinksOver;
    KeysInForm(data);
    SignalsOverArePositive(lib, data, Sorted(data.Keys), SPAM_KEYWORDS + Added(lib, extra));
    SumOfPositive(Detail(lib, data, extra));
  }

  // ---- another field

  lemma {:induction false} OverConcat(lib: Library, data: Form, a: seq<bytes>, b: seq<bytes>, keywords: seq<bytes>)
    requires forall i :: 0 <= i < |a| ==> a[i] in data
    requires forall i :: 0 <= i < |b| ==> b[i] in data
    ensures SignalsOver(lib, data, a + b, keywords) == SignalsOver(lib, data, a, keywords) + SignalsOver(lib, data, b, keywords)
    ensures LinksOver(lib, data, a + b) == LinksOver(lib, data, a) + LinksOver(lib, data, b)
  {
    hide FieldSignals, Links;
    if b == [] {
      assert a + b == a;
    } else {
      OverConcat(lib, data, a, b[..|b| - 1], keywords);
      assert (a + b)[..|a + b| - 1] == a + b[..|b| - 1];
    }
  }

  lemma {:induction false} OverSameFields(lib: Library, a: Form, b: Form, keys: seq<bytes>, keywords: seq<bytes>)
    requires forall i :: 0 <= i < |keys| ==> keys[i] in a && keys[i] in b && a[keys[i]] == b[keys[i]]
    ensures SignalsOver(lib, a, keys, keywords) == SignalsOver(lib, b, keys, keywords)
    ensures LinksOver(lib, a, keys) == LinksOver(lib, b, keys)
  {
    hide FieldSignals, Links;
    if keys != [] {
      OverSameFields(lib, a, b, keys[..|keys| - 1], keywords);
    }
  }

  lemma {:induction false} InsertSplits(k: bytes, s: seq<bytes>) returns (i: nat)
    ensures i <= |s| && Insert(k, s) == s[..i] + [k] + s[i..]
  {
    if s == [] || Less(k, s[0]) {
      i := 0;
    } else {
      i := InsertSplits(k, s[1..]);
      i := i + 1;
      assert s[..i] == [s[0]] + s[1..][..i - 1];
      assert s[i..] == s[1..][i - 1..];
    }
  }

  lemma OverOneField(lib: Library, data: Form, k: bytes, keywords: seq<bytes>)
    requires k in data
    ensures SignalsOver(lib, data, [k], keywords) == FieldSignals(lib, k, data[k], keywords)
    ensures LinksOver(lib, data, [k]) == Links(lib.lower(data[k]))
  {
    hide FieldSignals, Links;
    assert [k][..0] == [];
    assert SignalsOver(lib, data, [k], keywords) == [] + FieldSignals(lib, k, data[k], keywords);
  }

  /** A field in the middle of the order adds exactly its own signals and links. */
  lemma OverInsertion(lib: Library, data: Form, k: bytes, v: bytes, keywords: seq<bytes>)
    requires k !in data
    ensures forall i :: 0 <= i < |Sorted(data.Keys)| ==> Sorted(data.Keys)[i] in data
    ensures forall i :: 0 <= i < |Insert(k, Sorted(data.Keys))| ==> Insert(k, Sorted(data.Keys))[i] in data[k := v]
    ensures var s := Sorted(data.Keys); var more := data[k := v];
            Sum(SignalsOver(lib, more, Insert(k, s), keywords)) ==
              Sum(SignalsOver(lib, data, s, keywords)) + Sum(FieldSignals(lib, k, v, keywords)) &&
            LinksOver(lib, more, Insert(k, s)) == LinksOver(lib, data, s) + Links(lib.lower(v))
  {
    hide FieldSignals, Links, SignalsOver, LinksOver, Sum;
    var s, more := Sorted(data.Keys), data[k := v];
    KeysInForm(data);
    var i := InsertSplits(k, s);
    var a, b := s[..i], s[i..];
    assert s == a + b;
    OverConcat(lib, more, a + [k], b, keywords);
    OverConcat(lib, more, a, [k], keywords);
    OverConcat(lib, data, a, b, keywords);
    OverOneField(lib, more, k, keywords);
    OverSameFields(lib, data, more, a, keywords);
    OverSameFields(lib, data, more, b, keywords);
    SumConcat(SignalsOver(lib, more, a + [k], keywords), SignalsOver(lib, more, b, keywords));
    SumConcat(SignalsOver(lib, more, a, keywords), FieldSignals(lib, k, v, keywords));
    SumConcat(SignalsOver(lib, data, a, keywords), SignalsOver(lib, data, b, keywords));
  }

  lemma SumOfLinks(links: int)
    ensures Sum(LinkSignals(links)) == if links > 1 then EXTRA_LINK_WEIGHT * (links - 1) else 0
  {
    var s := LinkSignals(links);
    if links > 1 {
      assert s[..0] == [];
    }
  }

  /** Adding a form field never lowers the score. */
  lemma MoreFieldsScoreNoLess(lib: Library, data: Form, k: bytes, v: bytes, extra: seq<bytes>)
    requires k !in data
    ensures Score(lib, data[k := v], extra) >= Score(lib, data, extra)
  {
    hide FieldSignals, Links, SignalsOver, LinksOver, Sum, Added, LinkSignals;
    var keywords := SPAM_KEYWORDS + Added(lib, extra);
    var more := data[k := v];
    var s, t := Sorted(data.Keys), Sorted(more.Keys);
    KeysInForm(data);
    KeysInForm(more);
    assert more.Keys == data.Keys + {k};
    SortedWithOneMore(data.Keys, k);
    OverInsertion(lib, data, k, v, keywords);
    FieldSignalsArePositive(lib, k, v, keywords);
    LinksAreNotNegative(lib.lower(v));
    SumOfLinks(LinksOver(lib, data, s));
    SumOfLinks(LinksOver(lib, more, t));
    SumConcat(SignalsOver(lib, data, s, keywords), LinkSignals(LinksOver(lib, data, s)));
    SumConcat(SignalsOver(lib, more, t, keywords), LinkSignals(LinksOver(lib, more, t)));
  }

  // ---- another keyword

  function Matched(lower: bytes, keywords: set<bytes>): set<bytes> {
    set k | k in keywords && Contains(lower, k)
  }

  lemma OneMoreKeyword(key: bytes, lower: bytes, keywords: seq<bytes>)
    requires keywords != []
    ensures Sum(KeywordSignals(key, lower, keywords)) ==
            Sum(KeywordSignals(key, lower, keywords[..|keywords| - 1])) +
            if Contains(lower, keywords[|keywords| - 1]) then KEYWORD_WEIGHT else 0
  {
    hide Contains;
    SumOfOne();
    var before := KeywordSignals(key, lower, keywords[..|keywords| - 1]);
    assert before + [] == before;
  }

  lemma OneMoreMatched(lower: bytes, before: set<bytes>, kw: bytes)
    requires kw !in before
    ensures |Matched(lower, before + {kw})| == |Matched(lower, before)| + if Contains(lower, kw) then 1 else 0
  {
    hide Contains;
    if Contains(lower, kw) {
      assert Matched(lower, before + {kw}) == Matched(lower, before) + {kw};
    } else {
      assert Matched(lower, before + {kw}) == Matched(lower, before);
    }
  }

  lemma {:induction false} KeywordSum(key: bytes, lower: bytes, keywords: seq<bytes>)
    requires NoDuplicates(keywords)
    ensures Sum(KeywordSignals(key, lower, keywords)) == KEYWORD_WEIGHT * |Matched(lower, Elements(keywords))|
  {
    hide Contains, Sum, Matched;
    var all := Elements(keywords);
    if keywords == [] {
      NoKeywords(key, lower);
      assert all == {};
    } else {
      var n := |keywords| - 1;
      var before := Elements(keywords[..n]);
      KeywordSum(key, lower, keywords[..n]);
      assert all == before + {keywords[n]} && keywords[n] !in before;
      OneMoreKeyword(key, lower, keywords);
      OneMoreMatched(lower, before, keywords[n]);
    }
  }

  lemma NoKeywords(key: bytes, lower: bytes)
    ensures Sum(KeywordSignals(key, lower, [])) == 0 && Matched(lower, {}) == {}
  {}

  lemma {:induction false} KeywordSignalsConcat(key: bytes, lower: bytes, a: seq<bytes>, b: seq<bytes>)
    ensures KeywordSignals(key, lower, a + b) == KeywordSignals(key, lower, a) + KeywordSignals(key, lower, b)
  {
    hide Contains;
    if b == [] {
      assert a + b == a;
    } else {
      KeywordSignalsConcat(key, lower, a, b[..|b| - 1]);
      assert (a + b)[..|a + b| - 1] == a + b[..|b| - 1];
    }
  }

  lemma MoreKeywordsInField(lib: Library, key: bytes, value: bytes, a: seq<bytes>, b: seq<bytes>)
    requires AddedSet(lib, a) <= AddedSet(lib, b)
    ensures Sum(FieldSignals(lib, key, value, SPAM_KEYWORDS + Added(lib, a))) <=
            Sum(FieldSignals(lib, key, value, SPAM_KEYWORDS + Added(lib, b)))
  {
    hide MarkerSignals, KeywordSignals, UrlSignals, GibberishSignals, Added, AddedSet, Sum;
    var lower := lib.lower(value);
    AddedIsTheSet(lib, a);
    AddedIsTheSet(lib, b);
    KeywordSignalsConcat(key, lower, SPAM_KEYWORDS, Added(lib, a));
    KeywordSignalsConcat(key, lower, SPAM_KEYWORDS, Added(lib, b));
    KeywordSum(key, lower, Added(lib, a));
    KeywordSum(key, lower, Added(lib, b));
    SubsetSize(Matched(lower, Elements(Added(lib, a))), Matched(lower, Elements(Added(lib, b))));
    FieldSum(lib, key, value, SPAM_KEYWORDS + Added(lib, a));
    FieldSum(lib, key, value, SPAM_KEYWORDS + Added(lib, b));
    SumConcat(KeywordSignals(key, lower, SPAM_KEYWORDS), KeywordSignals(key, lower, Added(lib, a)));
    SumConcat(KeywordSignals(key, lower, SPAM_KEYWORDS), KeywordSignals(key, lower, Added(lib, b)));
  }

  lemma FieldSum(lib: Library, key: bytes, value: bytes, keywords: seq<bytes>)
    ensures Sum(FieldSignals(lib, key, value, keywords)) ==
            Sum(MarkerSignals(Markup, key, lib.lower(value), MARKUP_MARKERS)) +
            Sum(MarkerSignals(Sql, key, lib.lower(value), SQL_MARKERS)) +
            Sum(KeywordSignals(key, lib.lower(value), keywords)) +
            Sum(UrlSignals(lib, key, value)) + Sum(GibberishSignals(lib, key, value))
  {
    hide MarkerSignals, KeywordSignals, UrlSignals, GibberishSignals, Sum;
    var lower := lib.lower(value);
    var m, q, w := MarkerSignals(Markup, key, lower, MARKUP_MARKERS), MarkerSignals(Sql, key, lower, SQL_MARKERS),
                   KeywordSignals(key, lower, keywords);
    SumConcat(m, q);
    SumConcat(m + q, w);
    SumConcat(m + q + w, UrlSignals(lib, key, value));
    SumConcat(m + q + w + UrlSignals(lib, key, value), GibberishSignals(lib, key, value));
  }

  lemma {:induction false} MoreKeywordsOver(lib: Library, data: Form, keys: seq<bytes>, a: seq<bytes>, b: seq<bytes>)
    requires AddedSet(lib, a) <= AddedSet(lib, b)
    requires forall i :: 0 <= i < |keys| ==> keys[i] in data
    ensures Sum(SignalsOver(lib, data, keys, SPAM_KEYWORDS + Added(lib, a))) <=
            Sum(SignalsOver(lib, data, keys, SPAM_KEYWORDS + Added(lib, b)))
  {
    hide FieldSignals, Added, AddedSet, Sum;
    if keys != [] {
      var n := |keys| - 1;
      var k := keys[n];
      var ka, kb := SPAM_KEYWORDS + Added(lib, a), SPAM_KEYWORDS + Added(lib, b);
      MoreKeywordsOver(lib, data, keys[..n], a, b);
      MoreKeywordsInField(lib, k, data[k], a, b);
      SumConcat(SignalsOver(lib, data, keys[..n], ka), FieldSignals(lib, k, data[k], ka));
      SumConcat(SignalsOver(lib, data, keys[..n], kb), FieldSignals(lib, k, data[k], kb));
    }
  }

  /** More keywords never lower the score, in whatever order and however often they are given. */
  lemma MoreKeywordsScoreNoLess(lib: Library, data: Form, a: seq<bytes>, b: seq<bytes>)
    requires AddedSet(lib, a) <= AddedSet(lib, b)
    ensures Score(lib, data, a) <= Score(lib, data, b)
  {
    hide FieldSignals, Added, AddedSet, Sum, SignalsOver, LinksOver, LinkSignals;
    KeysInForm(data);
    var keys := Sorted(data.Keys);
    MoreKeywordsOver(lib, data, keys, a, b);
    var links := LinkSignals(LinksOver(lib, data, keys));
    SumConcat(SignalsOver(lib, data, keys, SPAM_KEYWORDS + Added(lib, a)), links);
    SumConcat(SignalsOver(lib, data, keys, SPAM_KEYWORDS + Added(lib, b)), links);
  }
}

/** One verdict per submission: an operator's rule first, the content score otherwise. */
module Screen {
  import opened Basics
  import opened Bytes
  import opened ScreenScore
  import opened ScreenMonotone
  import opened ScreenRules
  import opened ScreenRepeat

  const MIN_THRESHOLD := 1
  const MAX_THRESHOLD := 20
  const DEFAULT_THRESHOLD := 6

  /** Too low means unset, too high means as high as it goes. */
  function ClampThreshold(t: int): (r: int)
    ensures MIN_THRESHOLD <= r <= MAX_THRESHOLD
    ensures MIN_THRESHOLD <= t <= MAX_THRESHOLD <==> r == t
    ensures t < MIN_THRESHOLD ==> r == DEFAULT_THRESHOLD
    ensures t > MAX_THRESHOLD ==> r == MAX_THRESHOLD
  {
    if t < MIN_THRESHOLD then DEFAULT_THRESHOLD else if t > MAX_THRESHOLD then MAX_THRESHOLD else t
  }

  datatype Input = Input(form: bytes, fields: Form, ip: bytes, rules: seq<Rule>, threshold: int)

  datatype Verdict = Verdict(hold: bool, score: int, signals: seq<Signal>, threshold: int, matched: Option<bytes>)

  /** decide: the pure core, once it is known whether the sender keeps coming back. */
  ghost function Judge(lib: Library, net: Net, input: Input, repeated: bool): Verdict {
    var bar := ClampThreshold(input.threshold);
    match MatchRule(net, input.rules, input.fields, input.ip)
    case Some(r) =>
      if r.kind == Allow then Verdict(false, 0, [], bar, Some(r.id))
      else Verdict(true, bar, [Signal(Blocked, [], r.value, bar)], bar, Some(r.id))
    case None =>
      var signals := Detail(lib, input.fields, BlockKeywords(net, input.rules)) +
                     if repeated then [Signal(RepeatIp, [], input.ip, bar)] else [];
      Verdict(Sum(signals) >= bar, Sum(signals), signals, bar, None)
  }

  // ---- every verdict adds up

  predicate Coherent(v: Verdict) {
    MIN_THRESHOLD <= v.threshold <= MAX_THRESHOLD && v.score == Sum(v.signals) && AllPositive(v.signals) &&
    (v.hold <==> v.score >= v.threshold) && (v.hold ==> v.signals != [])
  }

  lemma OneSignalMore(signals: seq<Signal>, s: Signal)
    requires AllPositive(signals) && s.weight > 0
    ensures AllPositive(signals + [s]) && Sum(signals + [s]) == Sum(signals) + s.weight
  {
    SumOfOne();
  }

  lemma NothingSums()
    ensures Sum([]) == 0 && AllPositive([])
  {}

  lemma VerdictIsCoherent(lib: Library, net: Net, input: Input, repeated: bool)
    ensures Coherent(Judge(lib, net, input, repeated))
  {
    hide MatchRule, Detail, Sum, AllPositive, BlockKeywords;
    var bar := ClampThreshold(input.threshold);
    var signals := Detail(lib, input.fields, BlockKeywords(net, input.rules));
    DetailIsPositive(lib, input.fields, BlockKeywords(net, input.rules));
    NothingSums();
    match MatchRule(net, input.rules, input.fields, input.ip)
    case Some(r) =>
      var blocked := Signal(Blocked, [], r.value, bar);
      OneSignalMore([], blocked);
      assert [] + [blocked] == [blocked];
    case None =>
      OneSignalMore(signals, Signal(RepeatIp, [], input.ip, bar));
      assert signals + [] == signals;
  }

  // ---- exactly when

  predicate Allowed(net: Net, rules: seq<Rule>, fields: Form, ip: bytes) {
    exists r :: r in rules && Fires(net, r, Allow, SenderSet(net, fields), ip)
  }

  predicate Barred(net: Net, rules: seq<Rule>, fields: Form, ip: bytes) {
    exists r :: r in rules && Fires(net, r, Block, AddressSet(net, fields), ip)
  }

  lemma SomeRuleFires(net: Net, rules: seq<Rule>, kind: Kind, addrs: set<bytes>, ip: bytes)
    ensures FirstOf(net, rules, kind, addrs, ip).Some? <==> exists r :: r in rules && Fires(net, r, kind, addrs, ip)
    ensures FirstOf(net, rules, kind, addrs, ip).Some? ==> FirstOf(net, rules, kind, addrs, ip).value.kind == kind
  {
    hide Applies, FirstOf;
    FirstOfIsFirst(net, rules, kind, addrs, ip);
  }

  /** Held exactly when no allow rule speaks for the sender and a block rule, a third visit or the
      content speaks against the submission. */
  lemma HeldExactlyWhen(lib: Library, net: Net, input: Input, repeated: bool)
    ensures Judge(lib, net, input, repeated).hold <==>
            !Allowed(net, input.rules, input.fields, input.ip) &&
            (Barred(net, input.rules, input.fields, input.ip) || repeated ||
             Score(lib, input.fields, BlockKeywords(net, input.rules)) >= ClampThreshold(input.threshold))
  {
    hide Detail, FirstOf, Fires, SenderSet, AddressSet;
    SomeRuleFires(net, input.rules, Allow, SenderSet(net, input.fields), input.ip);
    SomeRuleFires(net, input.rules, Block, AddressSet(net, input.fields), input.ip);
    var signals := Detail(lib, input.fields, BlockKeywords(net, input.rules));
    DetailIsPositive(lib, input.fields, BlockKeywords(net, input.rules));
    SumOfOne();
    assert signals + [] == signals;
  }

  /** Only a rule that really fired is credited, and an allow rule before any block rule. */
  lemma MatchedRuleFired(lib: Library, net: Net, input: Input, repeated: bool)
    ensures match Judge(lib, net, input, repeated).matched
            case None => !Allowed(net, input.rules, input.fields, input.ip) && !Barred(net, input.rules, input.fields, input.ip)
            case Some(id) =>
              if Judge(lib, net, input, repeated).hold
              then exists r :: r in input.rules && r.id == id && Fires(net, r, Block, AddressSet(net, input.fields), input.ip)
              else exists r :: r in input.rules && r.id == id && Fires(net, r, Allow, SenderSet(net, input.fields), input.ip)
  {
    hide Detail, FirstOf, Applies, SenderSet, AddressSet, BlockKeywords;
    FirstOfIsFirst(net, input.rules, Allow, SenderSet(net, input.fields), input.ip);
    FirstOfIsFirst(net, input.rules, Block, AddressSet(net, input.fields), input.ip);
  }

  // ---- more rules

  /** b allows no more than a and blocks no less, in whatever order either lists its rules. */
  predicate Stricter(a: seq<Rule>, b: seq<Rule>) {
    (forall r :: r in b && r.kind == Allow ==> r in a) && (forall r :: r in a && r.kind == Block ==> r in b)
  }

  lemma StricterKeywords(lib: Library, net: Net, a: seq<Rule>, b: seq<Rule>)
    requires Stricter(a, b)
    ensures AddedSet(lib, BlockKeywords(net, a)) <= AddedSet(lib, BlockKeywords(net, b))
  {
    hide BlockKeywords, Normal;
    var ka, kb := BlockKeywords(net, a), BlockKeywords(net, b);
    forall kw | kw in ka ensures kw in kb {
      KeywordsAreBlockKeywords(net, a, kw);
      KeywordsAreBlockKeywords(net, b, kw);
    }
    forall k | k in AddedSet(lib, ka) ensures k in AddedSet(lib, kb) {
      var i :| 0 <= i < |ka| && Normal(lib, ka[i]) == k;
      assert ka[i] in ka;
      var j :| 0 <= j < |kb| && kb[j] == ka[i];
    }
  }

  /** Blocking more and allowing less never releases what was held. */
  lemma StricterRulesHoldNoLess(lib: Library, net: Net, input: Input, rules: seq<Rule>, repeated: bool)
    requires Stricter(input.rules, rules)
    ensures Judge(lib, net, input, repeated).hold ==> Judge(lib, net, input.(rules := rules), repeated).hold
  {
    hide Judge, Score, Applies, SenderSet, AddressSet, BlockKeywords, AddedSet;
    HeldExactlyWhen(lib, net, input, repeated);
    HeldExactlyWhen(lib, net, input.(rules := rules), repeated);
    StricterKeywords(lib, net, input.rules, rules);
    MoreKeywordsScoreNoLess(lib, input.fields, BlockKeywords(net, input.rules), BlockKeywords(net, rules));
  }

  function WithRule(rules: seq<Rule>, i: nat, r: Rule): seq<Rule>
    requires i <= |rules|
  {
    rules[..i] + [r] + rules[i..]
  }

  lemma InsertedRules(rules: seq<Rule>, i: nat, r: Rule)
    requires i <= |rules|
    ensures forall x :: x in WithRule(rules, i, r) <==> x in rules || x == r
  {
    assert rules == rules[..i] + rules[i..];
  }

  /** A block rule of any type, put anywhere in the list, never turns a held submission into an
      accepted one. */
  lemma BlockRuleNeverReleases(lib: Library, net: Net, input: Input, i: nat, r: Rule, repeated: bool)
    requires i <= |input.rules| && r.kind == Block
    ensures Judge(lib, net, input, repeated).hold ==>
              Judge(lib, net, input.(rules := WithRule(input.rules, i, r)), repeated).hold
  {
    hide Judge;
    InsertedRules(input.rules, i, r);
    StricterRulesHoldNoLess(lib, net, input, WithRule(input.rules, i, r), repeated);
  }

  /** An allow rule, put anywhere in the list, never turns an accepted submission into a held one. */
  lemma AllowRuleNeverHolds(lib: Library, net: Net, input: Input, i: nat, r: Rule, repeated: bool)
    requires i <= |input.rules| && r.kind == Allow
    ensures Judge(lib, net, input.(rules := WithRule(input.rules, i, r)), repeated).hold ==>
              Judge(lib, net, input, repeated).hold
  {
    hide Judge;
    InsertedRules(input.rules, i, r);
    var more := input.(rules := WithRule(input.rules, i, r));
    assert more.(rules := input.rules) == input;
    StricterRulesHoldNoLess(lib, net, more, input.rules, repeated);
  }

  // ---- more fields

  predicate FirstClaim(fields: Form, k: bytes) {
    Claims(fields) == {} && AsciiLower(k) == EMAIL
  }

  lemma SenderSetShrinks(net: Net, fields: Form, k: bytes, v: bytes)
    requires k !in fields && !FirstClaim(fields, k)
    ensures SenderSet(net, fields[k := v]) <= SenderSet(net, fields)
  {
    hide Canonical, AsciiLower;
    var more := fields[k := v];
    if AsciiLower(k) == EMAIL {
      var y :| y in Claims(fields);
      assert y in Claims(more) && k in Claims(more) && y != k;
      assert SenderSet(net, more) == {};
    } else {
      assert Claims(more) == Claims(fields);
      forall a | a in SenderSet(net, more) ensures a in SenderSet(net, fields) {
        var x :| x in more && Claims(more) == {x} && Canonical(net, more[x]) == Some(a);
        assert x in Claims(fields);
      }
    }
  }

  lemma AddressSetGrows(net: Net, fields: Form, k: bytes, v: bytes)
    requires k !in fields
    ensures AddressSet(net, fields) <= AddressSet(net, fields[k := v])
  {
    hide Canonical;
    var more := fields[k := v];
    forall a | a in AddressSet(net, fields) ensures a in AddressSet(net, more) {
      var x :| x in fields && Canonical(net, fields[x]) == Some(a);
      assert x in more && Canonical(net, more[x]) == Some(a);
    }
  }

  lemma FiresWithMoreAddresses(net: Net, r: Rule, kind: Kind, a: set<bytes>, b: set<bytes>, ip: bytes)
    requires a <= b && Fires(net, r, kind, a, ip)
    ensures Fires(net, r, kind, b, ip)
  {
    hide InDomain;
  }

  /** One more field, whatever it is called and whatever it says, releases a held submission only by
      an allow rule for the sender it names. */
  lemma FieldReleasesExactlyWhen(lib: Library, net: Net, input: Input, k: bytes, v: bytes, repeated: bool)
    requires k !in input.fields && Judge(lib, net, input, repeated).hold
    ensures Judge(lib, net, input.(fields := input.fields[k := v]), repeated).hold <==>
            !Allowed(net, input.rules, input.fields[k := v], input.ip)
  {
    hide Judge, Score, Fires, SenderSet, AddressSet, BlockKeywords;
    var more := input.fields[k := v];
    HeldExactlyWhen(lib, net, input, repeated);
    HeldExactlyWhen(lib, net, input.(fields := more), repeated);
    MoreFieldsScoreNoLess(lib, input.fields, k, v, BlockKeywords(net, input.rules));
    AddressSetGrows(net, input.fields, k, v);
    forall r | Fires(net, r, Block, AddressSet(net, input.fields), input.ip)
      ensures Fires(net, r, Block, AddressSet(net, more), input.ip)
    {
      FiresWithMoreAddresses(net, r, Block, AddressSet(net, input.fields), AddressSet(net, more), input.ip);
    }
  }

  /** So it never does unless it is the first field to claim to be the sender: mentioning an
      allowlisted address elsewhere, or twice, opens nothing. */
  lemma FieldNeverReleases(lib: Library, net: Net, input: Input, k: bytes, v: bytes, repeated: bool)
    requires k !in input.fields && !FirstClaim(input.fields, k)
    ensures Judge(lib, net, input, repeated).hold ==>
              Judge(lib, net, input.(fields := input.fields[k := v]), repeated).hold
  {
    hide Judge, Fires, SenderSet;
    if Judge(lib, net, input, repeated).hold {
      var more := input.fields[k := v];
      FieldReleasesExactlyWhen(lib, net, input, k, v, repeated);
      HeldExactlyWhen(lib, net, input, repeated);
      SenderSetShrinks(net, input.fields, k, v);
      forall r | Fires(net, r, Allow, SenderSet(net, more), input.ip)
        ensures Fires(net, r, Allow, SenderSet(net, input.fields), input.ip)
      {
        FiresWithMoreAddresses(net, r, Allow, SenderSet(net, more), SenderSet(net, input.fields), input.ip);
      }
    }
  }

  /** A parser that knows nothing: only the shape of an address decides. */
  const PLAIN_NET := Net(v => v, v => None, v => None, (r, v) => false)

  /** a@b.c */
  const SOMEONE: bytes := [0x61, AT, 0x62, DOT, 0x63]

  lemma SomeoneIsAnAddress()
    ensures Canonical(PLAIN_NET, SOMEONE) == Some(SOMEONE)
  {
    assert AsciiLower(SOMEONE) == SOMEONE;
    HostFollowsTheLastAt(SOMEONE, [0x62, DOT, 0x63]);
    assert SOMEONE[2..] == [0x62, DOT, 0x63];
    assert SOMEONE[..4] == [0x61, AT, 0x62, DOT] && SOMEONE[..4][..3] == [0x61, AT, 0x62];
    assert [0x61, AT, 0x62][..2] == [0x61, AT] && [0x61, AT][..1] == [0x61] && [0x61][..0] == [];
    assert CountByte([0x61], AT) == 0;
    assert CountByte([0x61, AT], AT) == 1;
    assert CountByte([0x61, AT, 0x62], AT) == 1;
    assert CountByte(SOMEONE[..4], AT) == 1;
    assert CountByte(SOMEONE, AT) == 1;
    hide Host, CountByte;
  }

  /** And it can: a third visit that names no sender is held, and with an email field that names an
      allowlisted one it is accepted. */
  lemma AFieldCanRelease(lib: Library)
    ensures var input := Input([], map[], [], [Rule([], Allow, Email, SOMEONE)], DEFAULT_THRESHOLD);
            Judge(lib, PLAIN_NET, input, true).hold &&
            !Judge(lib, PLAIN_NET, input.(fields := map[EMAIL := SOMEONE]), true).hold
  {
    hide Judge, Score, Canonical, BlockKeywords;
    var rule := Rule([], Allow, Email, SOMEONE);
    var input := Input([], map[], [], [rule], DEFAULT_THRESHOLD);
    var named := map[EMAIL := SOMEONE];
    HeldExactlyWhen(lib, PLAIN_NET, input, true);
    HeldExactlyWhen(lib, PLAIN_NET, input.(fields := named), true);
    SomeoneIsAnAddress();
    assert AsciiLower(EMAIL) == EMAIL;
    assert Claims(named) == {EMAIL};
    assert SOMEONE in SenderSet(PLAIN_NET, named);
    assert rule in [rule] && Fires(PLAIN_NET, rule, Allow, SenderSet(PLAIN_NET, named), []);
  }

  // ---- the screener

  class Screener {
    const lib: Library
    const net: Net
    const repeats: Tracker

    ghost predicate Valid()
      reads this, repeats
    {
      repeats.Valid()
    }

    constructor (lib: Library, net: Net, maxTracked: nat)
      requires maxTracked > 0
      ensures Valid() && fresh(repeats) && repeats.history == [] && repeats.maxEntries == maxTracked
      ensures this.lib == lib && this.net == net
    {
      this.lib, this.net := lib, net;
      repeats := new Tracker(maxTracked);
    }

    /** Every submission is counted, also one a rule decides; the ghost result is the tally's answer. */
    method Decide(input: Input) returns (v: Verdict, ghost repeated: bool)
      requires Valid()
      modifies repeats
      ensures Valid() && repeats.history == old(repeats.history) + [Key(input.form, input.ip)]
      ensures v == Judge(lib, net, input, repeated) && Coherent(v)
      ensures repeated ==> Times(repeats.history, Key(input.form, input.ip)) >= 3
      ensures |Elements(repeats.history)| <= repeats.maxEntries ==>
                (repeated <==> Times(repeats.history, Key(input.form, input.ip)) >= 3)
      ensures var at := Last(Insertions(repeats.history, repeats.maxEntries), repeats.maxEntries);
              forall i :: 0 <= i < |at| && repeats.history[at[i]] == Key(input.form, input.ip) ==>
                (repeated <==> Times(repeats.history[at[i]..], Key(input.form, input.ip)) >= 3)
    {
      hide Insertions, Last, Detail, MatchRule, BlockKeywords, Times, Elements, Sum, Coherent;
      SumOfOne();
      var bar := ClampThreshold(input.threshold);
      var seen := repeats.Seen(input.form, input.ip);
      repeated := seen;
      VerdictIsCoherent(lib, net, input, repeated);
      var found := Match(net, input.rules, input.fields, input.ip);
      if found.Some? && found.value.kind == Allow {
        v := Verdict(false, 0, [], bar, Some(found.value.id));
      } else if found.Some? && found.value.kind == Block {
        v := Verdict(true, bar, [Signal(Blocked, [], found.value.value, bar)], bar, Some(found.value.id));
      } else {
        MatchedKind(net, input);
        var keywords := Keywords(net, input.rules);
        var score, signals := DetailWith(lib, input.fields, keywords);
        assert signals + [] == signals;
        if seen {
          signals := signals + [Signal(RepeatIp, [], input.ip, bar)];
          score := score + bar;
        }
        v := Verdict(score >= bar, score, signals, bar, None);
      }
    }
  }

  lemma MatchedKind(net: Net, input: Input)
    ensures var found := MatchRule(net, input.rules, input.fields, input.ip);
            found.Some? ==> found.value.kind == Allow || found.value.kind == Block
  {
    hide FirstOf, SenderSet, AddressSet;
    SomeRuleFires(net, input.rules, Allow, SenderSet(net, input.fields), input.ip);
    SomeRuleFires(net, input.rules, Block, AddressSet(net, input.fields), input.ip);
  }
}

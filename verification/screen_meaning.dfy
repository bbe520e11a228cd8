/** What each type of rule and each content check means for a submission, in its own terms. */
module ScreenMeaning {
  import opened Basics
  import opened Bytes
  import opened ScreenScore
  import opened ScreenMonotone
  import opened ScreenRules
  import opened Screen

  // ---- addresses

  /** A byte string in lower-case ASCII, its ASCII letters folded. */
  predicate LowerOf(s: bytes, t: bytes) {
    |s| == |t| && forall i :: 0 <= i < |s| ==> t[i] == if 0x41 <= s[i] <= 0x5A then s[i] + 0x20 else s[i]
  }

  /** local@host, the host holding no @. */
  predicate Splits(a: bytes, host: bytes) {
    |host| < |a| && a[|a| - |host| - 1] == 0x40 && a[|a| - |host|..] == host && 0x40 !in host
  }

  /** Exactly one @, neither space, tab nor newline, and a dot behind the @. */
  ghost predicate IsAddress(a: bytes) {
    0x20 !in a && 0x09 !in a && 0x0A !in a &&
    exists i :: 0 <= i < |a| && a[i] == 0x40 && 0x40 !in a[..i] && 0x40 !in a[i + 1..] && 0x2E in a[i + 1..]
  }

  lemma Elsewhere(a: bytes, i: nat, j: nat)
    requires i < |a| && j < |a| && i != j && 0x40 !in a[..i] && 0x40 !in a[i + 1..]
    ensures a[j] != 0x40
  {
    assert if j < i then a[..i][j] == a[j] else a[i + 1..][j - i - 1] == a[j];
  }

  lemma {:induction false} CountsOne(s: bytes)
    ensures CountByte(s, 0x40) == 0 <==> 0x40 !in s
    ensures CountByte(s, 0x40) == 1 <==> exists i :: 0 <= i < |s| && s[i] == 0x40 && 0x40 !in s[..i] && 0x40 !in s[i + 1..]
  {
    if s != [] {
      var n := |s| - 1;
      var p := s[..n];
      CountsOne(p);
      assert s == p + [s[n]];
      if s[n] == 0x40 {
        assert s[n + 1..] == [];
        if CountByte(s, 0x40) == 1 { assert 0x40 !in s[..n]; }
        if i :| 0 <= i < |s| && s[i] == 0x40 && 0x40 !in s[..i] && 0x40 !in s[i + 1..] {
          forall j | 0 <= j < |s| && j != i ensures s[j] != 0x40 { Elsewhere(s, i, j); }
          assert i == n;
        }
      } else {
        forall i | 0 <= i < n
          ensures s[..i] == p[..i] && (0x40 in s[i + 1..] <==> 0x40 in p[i + 1..])
        {
          assert s[i + 1..] == p[i + 1..] + [s[n]];
        }
        if CountByte(s, 0x40) == 1 {
          var i :| 0 <= i < n && p[i] == 0x40 && 0x40 !in p[..i] && 0x40 !in p[i + 1..];
          assert s[i] == 0x40;
        }
        if i :| 0 <= i < |s| && s[i] == 0x40 && 0x40 !in s[..i] && 0x40 !in s[i + 1..] {
          assert p[i] == 0x40;
        }
      }
    }
  }

  lemma ShapedIsAddress(a: bytes)
    ensures Shaped(a) <==> IsAddress(a)
  {
    hide Host, CountByte;
    CountsOne(a);
    if CountByte(a, 0x40) == 1 {
      var i :| 0 <= i < |a| && a[i] == 0x40 && 0x40 !in a[..i] && 0x40 !in a[i + 1..];
      var h := a[i + 1..];
      assert |a| - |h| - 1 == i;
      HostFollowsTheLastAt(a, h);
      forall j | 0 <= j < |a| && j != i ensures a[j] != 0x40 { Elsewhere(a, i, j); }
    }
  }

  /** What the parser makes of a value comes first; the trimmed value itself is the fallback; nothing
      else is an address. */
  ghost predicate AddressOf(net: Net, v: bytes, a: bytes) {
    var t := net.trim(v);
    IsAddress(a) &&
    if net.parse(t).Some? && ParsesToAddress(net.parse(t).value) then LowerOf(net.parse(t).value, a) else LowerOf(t, a)
  }

  ghost predicate ParsesToAddress(p: bytes) {
    exists a :: LowerOf(p, a) && IsAddress(a)
  }

  lemma LowerIsOne(s: bytes)
    ensures LowerOf(s, AsciiLower(s)) && forall t :: LowerOf(s, t) ==> t == AsciiLower(s)
  {
    forall t | LowerOf(s, t) ensures t == AsciiLower(s) {
      assert forall i :: 0 <= i < |s| ==> t[i] == AsciiLower(s)[i];
    }
  }

  lemma CanonicalIsTheAddress(net: Net, v: bytes, a: bytes)
    ensures Canonical(net, v) == Some(a) <==> AddressOf(net, v, a)
  {
    hide Shaped, IsAddress, LowerOf, AsciiLower;
    var t := net.trim(v);
    LowerIsOne(t);
    ShapedIsAddress(AsciiLower(t));
    if net.parse(t).Some? {
      var p := net.parse(t).value;
      LowerIsOne(p);
      ShapedIsAddress(AsciiLower(p));
      assert ParsesToAddress(p) <==> Shaped(AsciiLower(p));
    }
  }

  /** The field called email, in any ASCII case. */
  predicate CalledEmail(k: bytes) {
    |k| == 5 && (k[0] == 0x65 || k[0] == 0x45) && (k[1] == 0x6D || k[1] == 0x4D) && (k[2] == 0x61 || k[2] == 0x41) &&
    (k[3] == 0x69 || k[3] == 0x49) && (k[4] == 0x6C || k[4] == 0x4C)
  }

  /** The address of the one field that claims to be the sender. */
  ghost predicate FromSender(net: Net, data: Form, a: bytes) {
    exists k :: k in data && CalledEmail(k) && (forall j :: j in data && CalledEmail(j) ==> j == k) && AddressOf(net, data[k], a)
  }

  ghost predicate FromAnyField(net: Net, data: Form, a: bytes) {
    exists k :: k in data && AddressOf(net, data[k], a)
  }

  lemma EmailIsSpelled(k: bytes)
    ensures AsciiLower(k) == EMAIL <==> CalledEmail(k)
  {
    if AsciiLower(k) == EMAIL {
      assert AsciiLower(k)[0] == 0x65 && AsciiLower(k)[1] == 0x6D && AsciiLower(k)[2] == 0x61 && AsciiLower(k)[3] == 0x69 && AsciiLower(k)[4] == 0x6C;
    }
  }

  lemma SenderSetIsTheSender(net: Net, data: Form, a: bytes)
    ensures a in SenderSet(net, data) <==> FromSender(net, data, a)
  {
    hide Canonical, AddressOf, AsciiLower, CalledEmail;
    forall k | k in data
      ensures k in Claims(data) <==> CalledEmail(k)
      ensures Canonical(net, data[k]) == Some(a) <==> AddressOf(net, data[k], a)
    {
      EmailIsSpelled(k);
      CanonicalIsTheAddress(net, data[k], a);
    }
    if a in SenderSet(net, data) {
      var k :| k in data && Claims(data) == {k} && Canonical(net, data[k]) == Some(a);
      assert k in Claims(data);
      forall j | j in data && CalledEmail(j) ensures j == k { assert j in Claims(data); }
    }
    if FromSender(net, data, a) {
      var k :| k in data && CalledEmail(k) && (forall j :: j in data && CalledEmail(j) ==> j == k) && AddressOf(net, data[k], a);
      assert Claims(data) == {k};
    }
  }

  lemma AddressSetIsAnyField(net: Net, data: Form, a: bytes)
    ensures a in AddressSet(net, data) <==> FromAnyField(net, data, a)
  {
    hide Canonical, AddressOf;
    forall k | k in data ensures Canonical(net, data[k]) == Some(a) <==> AddressOf(net, data[k], a) {
      CanonicalIsTheAddress(net, data[k], a);
    }
    if a in AddressSet(net, data) {
      var k :| k in data && Canonical(net, data[k]) == Some(a);
    }
    if FromAnyField(net, data, a) {
      var k :| k in data && AddressOf(net, data[k], a);
      assert Canonical(net, data[k]) == Some(a);
    }
  }

  // ---- the types of rules

  /** What an email, domain, IP or range rule says of a submission: allow rules look at the sender only,
      block rules at every field. */
  ghost predicate Speaks(net: Net, r: Rule, data: Form, ip: bytes) {
    match r.kindOf
    case Email => if r.kind == Allow then FromSender(net, data, r.value) else FromAnyField(net, data, r.value)
    case Domain =>
      exists a, host :: (if r.kind == Allow then FromSender(net, data, a) else FromAnyField(net, data, a)) && Splits(a, host) && InOrBelow(host, r.value)
    case Ip => ip != [] && net.ip(ip).Some? && net.ip(ip).value == r.value
    case Cidr => ip != [] && net.ip(ip).Some? && net.inRange(r.value, ip)
    case KeywordType => false
    case OtherType => false
  }

  /** The domain itself, or anything that ends in a dot and it. */
  ghost predicate InOrBelow(host: bytes, domain: bytes) {
    host == domain || exists sub :: host == sub + [0x2E] + domain
  }

  lemma InDomainMeans(a: bytes, domain: bytes)
    ensures InDomain(a, domain) <==> exists host :: Splits(a, host) && InOrBelow(host, domain)
  {
    forall h ensures Host(a) == Some(h) <==> Splits(a, h) {
      HostFollowsTheLastAt(a, h);
    }
    hide Host, Splits;
    if InDomain(a, domain) {
      var host := Host(a).value;
      assert Splits(a, host);
      EndsBelow(host, domain);
    }
    if host :| Splits(a, host) && InOrBelow(host, domain) {
      EndsBelow(host, domain);
    }
  }

  lemma EndsBelow(host: bytes, domain: bytes)
    ensures (|host| > |domain| && host[|host| - |domain| - 1..] == [DOT] + domain) <==> exists sub :: host == sub + [0x2E] + domain
  {
    if |host| > |domain| && host[|host| - |domain| - 1..] == [DOT] + domain {
      var sub := host[..|host| - |domain| - 1];
      assert host == sub + host[|host| - |domain| - 1..];
      assert host == sub + [0x2E] + domain;
    }
    if sub :| host == sub + [0x2E] + domain {
      assert host[|sub|..] == [0x2E] + domain;
    }
  }

  lemma FiringIsSpeaking(net: Net, r: Rule, data: Form, ip: bytes)
    ensures Fires(net, r, Allow, SenderSet(net, data), ip) <==> r.kind == Allow && Speaks(net, r, data, ip)
    ensures Fires(net, r, Block, AddressSet(net, data), ip) <==> r.kind == Block && Speaks(net, r, data, ip)
  {
    hide SenderSet, AddressSet, FromSender, FromAnyField, InDomain, Splits, InOrBelow;
    forall a
      ensures a in SenderSet(net, data) <==> FromSender(net, data, a)
      ensures a in AddressSet(net, data) <==> FromAnyField(net, data, a)
    {
      SenderSetIsTheSender(net, data, a);
      AddressSetIsAnyField(net, data, a);
    }
    if r.kindOf == Domain {
      forall a ensures InDomain(a, r.value) <==> exists host :: Splits(a, host) && InOrBelow(host, r.value) {
        InDomainMeans(a, r.value);
      }
    }
  }

  /** The rule credited is the first of its kind that speaks, an allow rule before any block rule; none
      is credited exactly when none speaks. */
  lemma CreditedRuleSpeaks(net: Net, rules: seq<Rule>, data: Form, ip: bytes)
    ensures match MatchRule(net, rules, data, ip)
            case None => forall q :: q in rules && (q.kind == Allow || q.kind == Block) ==> !Speaks(net, q, data, ip)
            case Some(r) =>
              exists i :: 0 <= i < |rules| && rules[i] == r && (r.kind == Allow || r.kind == Block) && Speaks(net, r, data, ip) &&
                (forall j :: 0 <= j < i && rules[j].kind == r.kind ==> !Speaks(net, rules[j], data, ip)) &&
                (r.kind == Block ==> forall q :: q in rules && q.kind == Allow ==> !Speaks(net, q, data, ip))
  {
    hide Speaks, Fires, SenderSet, AddressSet, FirstOf;
    forall q
      ensures Fires(net, q, Allow, SenderSet(net, data), ip) <==> q.kind == Allow && Speaks(net, q, data, ip)
      ensures Fires(net, q, Block, AddressSet(net, data), ip) <==> q.kind == Block && Speaks(net, q, data, ip)
    {
      FiringIsSpeaking(net, q, data, ip);
    }
    FirstOfPlace(net, rules, Allow, SenderSet(net, data), ip);
    FirstOfPlace(net, rules, Block, AddressSet(net, data), ip);
  }

  lemma {:induction false} FirstOfPlace(net: Net, rules: seq<Rule>, kind: Kind, addrs: set<bytes>, ip: bytes)
    ensures match FirstOf(net, rules, kind, addrs, ip)
            case None => forall q :: q in rules ==> !Fires(net, q, kind, addrs, ip)
            case Some(r) => exists i :: 0 <= i < |rules| && rules[i] == r && Fires(net, r, kind, addrs, ip) &&
                                        forall j :: 0 <= j < i ==> !Fires(net, rules[j], kind, addrs, ip)
  {
    hide Fires;
    if rules != [] && !Fires(net, rules[0], kind, addrs, ip) {
      FirstOfPlace(net, rules[1..], kind, addrs, ip);
      match FirstOf(net, rules[1..], kind, addrs, ip)
      case None => assert rules == [rules[0]] + rules[1..];
      case Some(r) =>
        var i :| 0 <= i < |rules| - 1 && rules[1..][i] == r && Fires(net, r, kind, addrs, ip) &&
                 forall j :: 0 <= j < i ==> !Fires(net, rules[1..][j], kind, addrs, ip);
        assert rules[i + 1] == r;
        assert forall j :: 0 < j < i + 1 ==> rules[j] == rules[1..][j - 1];
    } else if rules != [] {
      assert rules[0] == FirstOf(net, rules, kind, addrs, ip).value;
    }
  }

  /** Held exactly when no allow rule speaks for the sender and a block rule, a third visit or the
      content speaks against the submission. */
  lemma HeldExactlyWhenSpokenAgainst(lib: Library, net: Net, input: Input, repeated: bool)
    ensures Judge(lib, net, input, repeated).hold <==>
            (forall q :: q in input.rules && q.kind == Allow ==> !Speaks(net, q, input.fields, input.ip)) &&
            ((exists q :: q in input.rules && q.kind == Block && Speaks(net, q, input.fields, input.ip)) || repeated ||
             Score(lib, input.fields, BlockKeywords(net, input.rules)) >= ClampThreshold(input.threshold))
  {
    hide Judge, Speaks, Fires, SenderSet, AddressSet, Score, BlockKeywords;
    HeldExactlyWhen(lib, net, input, repeated);
    forall q
      ensures Fires(net, q, Allow, SenderSet(net, input.fields), input.ip) <==> q.kind == Allow && Speaks(net, q, input.fields, input.ip)
      ensures Fires(net, q, Block, AddressSet(net, input.fields), input.ip) <==> q.kind == Block && Speaks(net, q, input.fields, input.ip)
    {
      FiringIsSpeaking(net, q, input.fields, input.ip);
    }
  }

  /** With no allow rule that speaks for the sender, a block rule of each type holds exactly what it is
      written for. */
  lemma BlockRulesHold(lib: Library, net: Net, input: Input, r: Rule, a: bytes, host: bytes, repeated: bool)
    requires r in input.rules && r.kind == Block
    requires forall q :: q in input.rules && q.kind == Allow ==> !Speaks(net, q, input.fields, input.ip)
    ensures r.kindOf == Cidr && input.ip != [] && net.ip(input.ip).Some? && net.inRange(r.value, input.ip) ==> Judge(lib, net, input, repeated).hold
    ensures r.kindOf == Ip && input.ip != [] && net.ip(input.ip) == Some(r.value) ==> Judge(lib, net, input, repeated).hold
    ensures r.kindOf == Email && FromAnyField(net, input.fields, r.value) ==> Judge(lib, net, input, repeated).hold
    ensures r.kindOf == Domain && FromAnyField(net, input.fields, a) && Splits(a, host) && InOrBelow(host, r.value) ==>
              Judge(lib, net, input, repeated).hold
  {
    hide Judge, Score, BlockKeywords, FromAnyField, FromSender, Splits, InOrBelow;
    HeldExactlyWhenSpokenAgainst(lib, net, input, repeated);
  }

  /** And no rule is credited beyond that: not one for a range or an IP when the submission's is blank,
      unparsed or another, nor one for an address or a domain that no field it looks at holds. */
  lemma CreditedRuleMeansIt(net: Net, rules: seq<Rule>, data: Form, ip: bytes)
    ensures match MatchRule(net, rules, data, ip)
            case None => true
            case Some(r) =>
              r in rules && (r.kind == Allow || r.kind == Block) &&
              (r.kindOf == Cidr ==> ip != [] && net.ip(ip).Some? && net.inRange(r.value, ip)) &&
              (r.kindOf == Ip ==> ip != [] && net.ip(ip) == Some(r.value)) &&
              (r.kindOf == Email ==> FromAnyField(net, data, r.value) && (r.kind == Allow ==> FromSender(net, data, r.value))) &&
              (r.kindOf == Domain ==> exists a, host :: FromAnyField(net, data, a) && Splits(a, host) && InOrBelow(host, r.value) &&
                                                        (r.kind == Allow ==> FromSender(net, data, a))) &&
              r.kindOf != KeywordType && r.kindOf != OtherType
  {
    hide FromAnyField, FromSender, Splits, InOrBelow, MatchRule;
    CreditedRuleSpeaks(net, rules, data, ip);
    forall a | FromSender(net, data, a) ensures FromAnyField(net, data, a) {
      SenderIsAnyField(net, data, a);
    }
  }

  lemma SenderIsAnyField(net: Net, data: Form, a: bytes)
    requires FromSender(net, data, a)
    ensures FromAnyField(net, data, a)
  {
    hide AddressOf, CalledEmail;
  }
}

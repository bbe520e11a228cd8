/** Senders, addresses and the operator's rules: allow before block, allow on the sender only. */
module ScreenRules {
  import opened Basics
  import opened Bytes
  import opened ScreenScore

  /** What matching takes from elsewhere: trimming, net/mail's parser, and net's parsers. */
  datatype Net = Net(trim: bytes -> bytes, parse: bytes -> Option<bytes>, ip: bytes -> Option<bytes>, inRange: (bytes, bytes) -> bool)

  datatype Kind = Allow | Block | OtherKind

  datatype Type = Email | Domain | Ip | Cidr | KeywordType | OtherType

  datatype Rule = Rule(id: bytes, kind: Kind, kindOf: Type, value: bytes)

  const AT: byte := 0x40
  const DOT: byte := 0x2E
  const EMAIL: bytes := [0x65, 0x6D, 0x61, 0x69, 0x6C]

  // ---- addresses

  function AsciiLower(s: bytes): (t: bytes)
    ensures |t| == |s| && forall i :: 0 <= i < |s| ==> t[i] == Lower(s[i])
  {
    seq(|s|, i requires 0 <= i < |s| => Lower(s[i]))
  }

  /** ASCIILower rewrites a copy of the bytes in place. */
  method AsciiLowerInPlace(s: bytes) returns (t: bytes)
    ensures t == AsciiLower(s)
  {
    var b := new byte[|s|](i requires 0 <= i < |s| => s[i]);
    for i := 0 to b.Length
      invariant b.Length == |s| && (forall k :: 0 <= k < i ==> b[k] == Lower(s[k]))
      invariant forall k :: i <= k < |s| ==> b[k] == s[k]
    {
      if 0x41 <= b[i] <= 0x5A {
        b[i] := b[i] + 0x20;
      }
    }
    t := b[..];
  }

  function CountByte(s: bytes, b: byte): nat {
    if s == [] then 0 else CountByte(s[..|s| - 1], b) + if s[|s| - 1] == b then 1 else 0
  }

  /** What follows the last @, or nothing when there is none. */
  function Host(s: bytes): Option<bytes> {
    if s == [] then None
    else if s[|s| - 1] == AT then Some([])
    else
      match Host(s[..|s| - 1])
      case None => None
      case Some(h) => Some(h + [s[|s| - 1]])
  }

  /** Exactly one @, no space, and a dot in the host. */
  predicate Shaped(s: bytes) {
    CountByte(s, AT) == 1 && 0x20 !in s && 0x09 !in s && 0x0A !in s && Host(s).Some? && DOT in Host(s).value
  }

  /** The one form addresses are compared in: the parser first, the shape as a fallback. */
  function Canonical(net: Net, v: bytes): (a: Option<bytes>)
    ensures a.Some? ==> Shaped(a.value) && AsciiLower(a.value) == a.value
  {
    var t := net.trim(v);
    var parsed := net.parse(t);
    if parsed.Some? && Shaped(AsciiLower(parsed.value)) then Some(AsciiLower(parsed.value))
    else if Shaped(AsciiLower(t)) then Some(AsciiLower(t))
    else None
  }

  // ---- the sender

  /** The fields that claim to be the sender: EqualFold(k, "email"), none of whose letters has a
      non-ASCII fold. */
  function Claims(data: Form): set<bytes> {
    set k | k in data && AsciiLower(k) == EMAIL
  }

  datatype Sender = NoSender | One(raw: bytes) | Ambiguous

  method SenderAddress(data: Form) returns (sender: Sender)
    ensures sender == NoSender <==> Claims(data) == {}
    ensures forall k :: k in data && Claims(data) == {k} ==> sender == One(data[k])
    ensures sender.One? ==> exists k :: k in data && Claims(data) == {k} && sender.raw == data[k]
  {
    hide AsciiLower;
    var rest := data.Keys;
    var addr, found := [], 0;
    ghost var done: set<bytes> := {};
    while rest != {}
      invariant done == Claims(data) - rest && rest <= data.Keys && found == |done|
      invariant found == 1 ==> exists k :: k in data && done == {k} && addr == data[k]
      decreases rest
    {
      var k :| k in rest;
      OneFieldLess(data, rest, k);
      if AsciiLower(k) == EMAIL {
        found := found + 1;
        addr := data[k];
        done := done + {k};
        OneClaim(done, k);
      }
      rest := rest - {k};
    }
    NoneIsEmpty(done);
    sender := if found == 0 then NoSender else if found == 1 then One(addr) else Ambiguous;
  }

  lemma OneFieldLess(data: Form, rest: set<bytes>, k: bytes)
    requires rest <= data.Keys && k in rest
    ensures Claims(data) - (rest - {k}) == Claims(data) - rest + (if AsciiLower(k) == EMAIL then {k} else {})
    ensures k !in Claims(data) - rest
  {}

  lemma OneClaim(done: set<bytes>, k: bytes)
    requires k in done
    ensures |done| == 1 ==> done == {k}
  {
    NoneIsEmpty(done - {k});
  }

  lemma NoneIsEmpty(s: set<bytes>)
    ensures |s| == 0 <==> s == {}
  {}

  /** The sender's address, if there is exactly one sender and it has an address. */
  function SenderSet(net: Net, data: Form): set<bytes> {
    set k | k in data && Claims(data) == {k} && Canonical(net, data[k]).Some? :: Canonical(net, data[k]).value
  }

  /** Every address anywhere in a submission. */
  function AddressSet(net: Net, data: Form): set<bytes> {
    set k | k in data && Canonical(net, data[k]).Some? :: Canonical(net, data[k]).value
  }

  method SenderAddresses(net: Net, data: Form) returns (out: seq<bytes>)
    ensures forall a :: a in out <==> a in SenderSet(net, data)
  {
    var sender := SenderAddress(data);
    out := [];
    if sender.One? {
      var a := Canonical(net, sender.raw);
      if a.Some? {
        out := [a.value];
      }
    }
  }

  method AllAddresses(net: Net, data: Form) returns (out: seq<bytes>)
    ensures forall a :: a in out <==> a in AddressSet(net, data)
  {
    out := [];
    var rest := data.Keys;
    while rest != {}
      invariant rest <= data.Keys
      invariant forall a :: a in out <==> exists k :: k in data.Keys - rest && Canonical(net, data[k]) == Some(a)
      decreases rest
    {
      var k :| k in rest;
      rest := rest - {k};
      var a := Canonical(net, data[k]);
      if a.Some? {
        out := out + [a.value];
      }
    }
  }

  /** An allow rule's addresses are among a block rule's: nothing seen as a permission is unseen as a
      reason to hold. */
  lemma SenderIsAnAddress(net: Net, data: Form)
    ensures SenderSet(net, data) <= AddressSet(net, data)
  {}

  // ---- matching

  /** The host itself or a subdomain of it, anchored on a dot. */
  predicate InDomain(addr: bytes, domain: bytes) {
    match Host(addr)
    case None => false
    case Some(host) =>
      host == domain || (|host| > |domain| && host[|host| - |domain| - 1..] == [DOT] + domain)
  }

  /** Host finds what follows the last @ and nothing else. */
  lemma {:induction false} HostFollowsTheLastAt(s: bytes, h: bytes)
    ensures Host(s) == Some(h) <==> |h| < |s| && s[|s| - |h| - 1] == AT && s[|s| - |h|..] == h && AT !in h
  {
    if s != [] && s[|s| - 1] != AT {
      var n := |s| - 1;
      if h == [] {
        assert s[|s|..] == [];
      } else {
        var front := h[..|h| - 1];
        HostFollowsTheLastAt(s[..n], front);
        assert h == front + [h[|h| - 1]];
        if |h| < |s| {
          assert s[|s| - |h|..] == s[..n][|s| - |h|..] + [s[n]];
        }
      }
    }
  }

  /** A domain rule is anchored on a dot: another organisation's longer name does not match it. */
  lemma DomainIsAnchored(addr: bytes, prefix: bytes, domain: bytes)
    requires Host(addr) == Some(prefix + domain) && prefix != []
    ensures InDomain(addr, domain) <==> prefix[|prefix| - 1] == DOT
  {
    hide Host;
    var host := prefix + domain;
    assert host[|host| - |domain| - 1..] == [prefix[|prefix| - 1]] + domain;
    assert |host| > |domain|;
    assert ([prefix[|prefix| - 1]] + domain)[0] == prefix[|prefix| - 1] && ([DOT] + domain)[0] == DOT;
  }

  predicate Applies(net: Net, r: Rule, addrs: set<bytes>, ip: bytes) {
    match r.kindOf
    case Email => r.value in addrs
    case Domain => exists a :: a in addrs && InDomain(a, r.value)
    case Ip => ip != [] && net.ip(ip) == Some(r.value)
    case Cidr => ip != [] && net.ip(ip).Some? && net.inRange(r.value, ip)
    case KeywordType => false
    case OtherType => false
  }

  method Matches(net: Net, r: Rule, addrs: seq<bytes>, ip: bytes) returns (hit: bool)
    ensures hit <==> Applies(net, r, Elements(addrs), ip)
  {
    match r.kindOf
    case Email =>
      for i := 0 to |addrs|
        invariant r.value !in addrs[..i]
      {
        if addrs[i] == r.value { return true; }
      }
      return false;
    case Domain =>
      for i := 0 to |addrs|
        invariant forall j :: 0 <= j < i ==> !InDomain(addrs[j], r.value)
      {
        if InDomain(addrs[i], r.value) {
          assert addrs[i] in Elements(addrs);
          return true;
        }
      }
      return false;
    case Ip =>
      if ip == [] { return false; }
      var parsed := net.ip(ip);
      return parsed.Some? && parsed.value == r.value;
    case Cidr =>
      if ip == [] { return false; }
      var parsed := net.ip(ip);
      return parsed.Some? && net.inRange(r.value, ip);
    case KeywordType => return false;
    case OtherType => return false;
  }

  predicate Fires(net: Net, r: Rule, kind: Kind, addrs: set<bytes>, ip: bytes) {
    r.kind == kind && r.kindOf != KeywordType && Applies(net, r, addrs, ip)
  }

  /** The first rule of a kind that fires. */
  function FirstOf(net: Net, rules: seq<Rule>, kind: Kind, addrs: set<bytes>, ip: bytes): Option<Rule> {
    if rules == [] then None
    else if Fires(net, rules[0], kind, addrs, ip) then Some(rules[0])
    else FirstOf(net, rules[1..], kind, addrs, ip)
  }

  /** Allow rules see the sender only, block rules every field; allow wins. */
  function MatchRule(net: Net, rules: seq<Rule>, data: Form, ip: bytes): Option<Rule> {
    var allowed := FirstOf(net, rules, Allow, SenderSet(net, data), ip);
    if allowed.Some? then allowed else FirstOf(net, rules, Block, AddressSet(net, data), ip)
  }

  method FirstOfKind(net: Net, rules: seq<Rule>, kind: Kind, addrs: seq<bytes>, ip: bytes) returns (found: Option<Rule>)
    ensures found == FirstOf(net, rules, kind, Elements(addrs), ip)
  {
    assert rules[0..] == rules;
    for i := 0 to |rules|
      invariant FirstOf(net, rules, kind, Elements(addrs), ip) == FirstOf(net, rules[i..], kind, Elements(addrs), ip)
    {
      assert rules[i..][1..] == rules[i + 1..];
      if rules[i].kind != kind || rules[i].kindOf == KeywordType { continue; }
      var hit := Matches(net, rules[i], addrs, ip);
      if hit { return Some(rules[i]); }
    }
    found := None;
  }

  method Match(net: Net, rules: seq<Rule>, data: Form, ip: bytes) returns (found: Option<Rule>)
    ensures found == MatchRule(net, rules, data, ip)
  {
    var senderOnly := SenderAddresses(net, data);
    var anyField := AllAddresses(net, data);
    assert Elements(senderOnly) == SenderSet(net, data);
    assert Elements(anyField) == AddressSet(net, data);
    found := FirstOfKind(net, rules, Allow, senderOnly, ip);
    if found.None? {
      found := FirstOfKind(net, rules, Block, anyField, ip);
    }
  }

  /** Keywords: the block keywords that are not blank. */
  function BlockKeywords(net: Net, rules: seq<Rule>): seq<bytes> {
    if rules == [] then []
    else
      var r := rules[|rules| - 1];
      BlockKeywords(net, rules[..|rules| - 1]) +
      if r.kind == Block && r.kindOf == KeywordType && net.trim(r.value) != [] then [r.value] else []
  }

  method Keywords(net: Net, rules: seq<Rule>) returns (out: seq<bytes>)
    ensures out == BlockKeywords(net, rules)
  {
    out := [];
    for i := 0 to |rules|
      invariant out == BlockKeywords(net, rules[..i])
    {
      assert rules[..i + 1][..i] == rules[..i];
      var r := rules[i];
      if r.kind != Block || r.kindOf != KeywordType { continue; }
      if net.trim(r.value) == [] { continue; }
      out := out + [r.value];
    }
    assert rules[..|rules|] == rules;
  }

  // ---- which rules answer

  /** The answer is a rule of that kind that fires, with none that fires before it; there is one
      whenever any fires. */
  lemma {:induction false} FirstOfIsFirst(net: Net, rules: seq<Rule>, kind: Kind, addrs: set<bytes>, ip: bytes)
    ensures match FirstOf(net, rules, kind, addrs, ip)
            case Some(r) => (exists i :: 0 <= i < |rules| && rules[i] == r && Fires(net, r, kind, addrs, ip) &&
                                         forall j :: 0 <= j < i ==> !Fires(net, rules[j], kind, addrs, ip))
            case None => forall i :: 0 <= i < |rules| ==> !Fires(net, rules[i], kind, addrs, ip)
  {
    hide Fires;
    if rules != [] && !Fires(net, rules[0], kind, addrs, ip) {
      FirstOfIsFirst(net, rules[1..], kind, addrs, ip);
      match FirstOf(net, rules, kind, addrs, ip)
      case Some(r) =>
        var i :| 0 <= i < |rules| - 1 && rules[1..][i] == r && Fires(net, r, kind, addrs, ip) &&
                 forall j :: 0 <= j < i ==> !Fires(net, rules[1..][j], kind, addrs, ip);
        assert rules[i + 1] == r;
        forall j | 0 <= j < i + 1 ensures !Fires(net, rules[j], kind, addrs, ip) {
          if j > 0 { assert rules[1..][j - 1] == rules[j]; }
        }
      case None =>
        forall i | 0 <= i < |rules| ensures !Fires(net, rules[i], kind, addrs, ip) {
          if i > 0 { assert rules[1..][i - 1] == rules[i]; }
        }
    }
  }

  predicate IsBlockKeyword(net: Net, r: Rule, kw: bytes) {
    r.kind == Block && r.kindOf == KeywordType && net.trim(r.value) != [] && r.value == kw
  }

  lemma {:induction false} KeywordsAreBlockKeywords(net: Net, rules: seq<Rule>, kw: bytes)
    ensures kw in BlockKeywords(net, rules) <==> exists r :: r in rules && IsBlockKeyword(net, r, kw)
  {
    if rules != [] {
      var n := |rules| - 1;
      KeywordsAreBlockKeywords(net, rules[..n], kw);
      assert rules == rules[..n] + [rules[n]];
      assert forall r :: r in rules <==> r in rules[..n] || r == rules[n];
      var last := if IsBlockKeyword(net, rules[n], rules[n].value) then [rules[n].value] else [];
      assert BlockKeywords(net, rules) == BlockKeywords(net, rules[..n]) + last;
      assert kw in BlockKeywords(net, rules) <==> kw in BlockKeywords(net, rules[..n]) || kw in last;
      assert kw in last <==> IsBlockKeyword(net, rules[n], kw);
    }
  }
}

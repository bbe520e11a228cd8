/** Go strings: sequences of bytes, in the order that sorting them uses. */
module Bytes {
  import opened Basics

  type byte = x: int | 0 <= x < 256
  type bytes = seq<byte>

  const NEWLINE: byte := 0x0A

  function Code(c: char): byte {
    if c < '\U{0100}' then c as int else 0x3F
  }

  /** An ASCII literal. */
  function Ascii(s: string): (b: bytes)
    ensures |b| == |s|
    ensures forall i :: 0 <= i < |s| ==> b[i] == Code(s[i])
  {
    seq(|s|, i requires 0 <= i < |s| => Code(s[i]))
  }

  predicate IsDigit(b: byte) {
    0x30 <= b <= 0x39
  }

  /** A number in decimal. */
  function Decimal(n: nat): (s: bytes)
    ensures s != [] && forall i :: 0 <= i < |s| ==> IsDigit(s[i])
  {
    (if n < 10 then [] else Decimal(n / 10)) + [0x30 + n % 10]
  }

  /** ASCII letters only. */
  function Lower(b: byte): byte {
    if 0x41 <= b <= 0x5A then b + 0x20 else b
  }

  // ---- lines

  predicate OneLine(s: bytes) {
    NEWLINE !in s
  }

  /** strings.Split(s, "\n"). */
  function Lines(s: bytes): (lines: seq<bytes>)
    ensures |lines| >= 1
    ensures forall i :: 0 <= i < |lines| ==> OneLine(lines[i])
  {
    if s == [] then [[]]
    else
      var rest := Lines(s[1..]);
      if s[0] == NEWLINE then [[]] + rest else [[s[0]] + rest[0]] + rest[1..]
  }

  /** strings.Join(lines, "\n"). */
  function Unlines(lines: seq<bytes>): bytes {
    if lines == [] then []
    else if |lines| == 1 then lines[0]
    else lines[0] + [NEWLINE] + Unlines(lines[1..])
  }

  lemma {:induction false} LinesAtNewline(l: bytes, r: bytes)
    requires OneLine(l)
    ensures Lines(l + [NEWLINE] + r) == [l] + Lines(r)
  {
    var s := l + [NEWLINE] + r;
    if l == [] {
      assert s[1..] == r;
    } else {
      assert s[1..] == l[1..] + [NEWLINE] + r;
      LinesAtNewline(l[1..], r);
      assert [l[0]] + l[1..] == l;
    }
  }

  lemma {:induction false} LinesOfOneLine(l: bytes)
    requires OneLine(l)
    ensures Lines(l) == [l]
  {
    if l != [] {
      LinesOfOneLine(l[1..]);
      assert [l[0]] + l[1..] == l;
    }
  }

  lemma {:induction false} LinesOfUnlines(lines: seq<bytes>)
    requires lines != [] && forall i :: 0 <= i < |lines| ==> OneLine(lines[i])
    ensures Lines(Unlines(lines)) == lines
  {
    if |lines| == 1 {
      LinesOfOneLine(lines[0]);
    } else {
      LinesAtNewline(lines[0], Unlines(lines[1..]));
      LinesOfUnlines(lines[1..]);
    }
  }

  lemma {:induction false} UnlinesOfLines(s: bytes)
    ensures Unlines(Lines(s)) == s
  {
    if s != [] {
      var rest := Lines(s[1..]);
      UnlinesOfLines(s[1..]);
      if s[0] != NEWLINE {
        assert Lines(s)[1..] == rest[1..];
      } else {
        assert Lines(s)[1..] == rest;
      }
    }
  }

  /** The first line of a text and what follows it. */
  lemma {:induction false} FirstLine(s: bytes) returns (l: bytes, r: bytes)
    requires NEWLINE in s
    ensures OneLine(l) && s == l + [NEWLINE] + r
  {
    if s[0] == NEWLINE {
      l, r := [], s[1..];
    } else {
      l, r := FirstLine(s[1..]);
      l := [s[0]] + l;
    }
  }

  // ---- order

  /** The order of sort.Strings. */
  predicate Less(a: bytes, b: bytes) {
    b != [] && (a == [] || a[0] < b[0] || (a[0] == b[0] && Less(a[1..], b[1..])))
  }

  lemma {:induction false} LessIsTotal(a: bytes, b: bytes)
    ensures Less(a, b) || Less(b, a) || a == b
    ensures !(Less(a, b) && Less(b, a)) && !(Less(a, b) && a == b)
  {
    if a != [] && b != [] && a[0] == b[0] {
      LessIsTotal(a[1..], b[1..]);
      assert a == [a[0]] + a[1..] && b == [b[0]] + b[1..];
    }
  }

  lemma {:induction false} LessIsTransitive(a: bytes, b: bytes, c: bytes)
    requires Less(a, b) && Less(b, c)
    ensures Less(a, c)
  {
    if a != [] && a[0] == b[0] == c[0] {
      LessIsTransitive(a[1..], b[1..], c[1..]);
    }
  }

  predicate Ascending(s: seq<bytes>) {
    forall i, j :: 0 <= i < j < |s| ==> Less(s[i], s[j])
  }

  /** Insertion into an ascending list. */
  function Insert(k: bytes, s: seq<bytes>): seq<bytes> {
    if s == [] || Less(k, s[0]) then [k] + s else [s[0]] + Insert(k, s[1..])
  }

  lemma {:induction false} InsertAdds(k: bytes, s: seq<bytes>)
    ensures Elements(Insert(k, s)) == Elements(s) + {k} && |Insert(k, s)| == |s| + 1
  {
    hide Less;
    if s != [] {
      InsertAdds(k, s[1..]);
      assert s == [s[0]] + s[1..];
      Members(s[1..]);
      Members(Insert(k, s[1..]));
    }
  }

  lemma AscendingCons(h: bytes, t: seq<bytes>)
    requires Ascending(t) && forall x :: x in t ==> Less(h, x)
    ensures Ascending([h] + t)
  {
    hide Less;
  }

  lemma {:induction false} InsertAscends(k: bytes, s: seq<bytes>)
    requires Ascending(s) && k !in s
    ensures Ascending(Insert(k, s))
    ensures Elements(Insert(k, s)) == Elements(s) + {k} && |Insert(k, s)| == |s| + 1
  {
    hide Less;
    InsertAdds(k, s);
    if s != [] {
      Tail(s);
      if Less(k, s[0]) {
        forall x | x in s ensures Less(k, x) {
          if x != s[0] { LessIsTransitive(k, s[0], x); }
        }
        AscendingCons(k, s);
      } else {
        LessIsTotal(k, s[0]);
        InsertAscends(k, s[1..]);
        var t := Insert(k, s[1..]);
        forall x | x in t ensures Less(s[0], x) {
          Members(t);
          Members(s[1..]);
          assert x == k || x in s[1..];
        }
        AscendingCons(s[0], t);
      }
    }
  }

  /** The first of an ascending list is below the rest and not among it. */
  lemma Tail(s: seq<bytes>)
    requires Ascending(s) && s != []
    ensures Ascending(s[1..]) && Elements(s[1..]) == Elements(s) - {s[0]}
    ensures forall x :: x in s && x != s[0] ==> Less(s[0], x) && x in s[1..]
    ensures forall x :: x in s[1..] ==> Less(s[0], x)
  {
    LessIsTotal(s[0], s[0]);
    hide Less;
    assert s == [s[0]] + s[1..];
  }

  lemma NoElements(s: seq<bytes>)
    ensures Elements(s) == {} ==> s == []
  {
    if s != [] {
      assert s[0] in Elements(s);
    }
  }

  /** An ascending list is determined by what is on it, so sorting does not depend on the order a
      map was ranged over. */
  lemma {:induction false} AscendingIsUnique(s: seq<bytes>, t: seq<bytes>)
    requires Ascending(s) && Ascending(t) && Elements(s) == Elements(t)
    ensures s == t
  {
    NoElements(s);
    NoElements(t);
    if s != [] && t != [] {
      hide Less;
      Members(s);
      Members(t);
      Tail(s);
      Tail(t);
      LessIsTotal(s[0], t[0]);
      assert s[0] in t && t[0] in s;
      AscendingIsUnique(s[1..], t[1..]);
      assert s == [s[0]] + s[1..] && t == [t[0]] + t[1..];
    }
  }

  lemma {:induction false} AscendingExists(keys: set<bytes>) returns (s: seq<bytes>)
    ensures Ascending(s) && Elements(s) == keys && |s| == |keys|
  {
    if keys == {} {
      s := [];
    } else {
      var k :| k in keys;
      var t := AscendingExists(keys - {k});
      Members(t);
      InsertAscends(k, t);
      s := Insert(k, t);
    }
  }

  /** The keys of a map as the sorted list the code ranges over. */
  ghost function Sorted(keys: set<bytes>): (s: seq<bytes>)
    ensures Ascending(s) && Elements(s) == keys && |s| == |keys|
  {
    assert exists s :: Ascending(s) && Elements(s) == keys && |s| == |keys| by {
      var t := AscendingExists(keys);
    }
    var s :| Ascending(s) && Elements(s) == keys && |s| == |keys|;
    s
  }

  /** Collecting keys in whatever order they come and sorting them. */
  method SortKeys(keys: set<bytes>) returns (s: seq<bytes>)
    ensures s == Sorted(keys)
  {
    s := [];
    var rest := keys;
    while rest != {}
      invariant rest <= keys && Ascending(s) && Elements(s) == keys - rest
      decreases rest
    {
      var k :| k in rest;
      Members(s);
      InsertAscends(k, s);
      s := Insert(k, s);
      rest := rest - {k};
    }
    AscendingIsUnique(s, Sorted(keys));
  }

  lemma SortedWithOneMore(keys: set<bytes>, k: bytes)
    requires k !in keys
    ensures Sorted(keys + {k}) == Insert(k, Sorted(keys))
  {
    var s := Sorted(keys);
    Members(s);
    InsertAscends(k, s);
    AscendingIsUnique(Sorted(keys + {k}), Insert(k, s));
  }
}

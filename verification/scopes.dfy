/** The comma-separated list columns (scopes, form_ids) and how a form list is read back.

    The column format matters for one reason: an empty form_ids column means every form. The
    lemmas below say exactly when a list of forms is stored as that empty column, and that
    nothing which happens to a column afterwards can turn a bounded list into it. */
module Scopes {
  import opened Basics

  /** unicode.IsSpace, the class strings.TrimSpace removes. */
  predicate IsSpace(c: char) {
    c == '\t' || c == '\n' || c == '\U{0B}' || c == '\U{0C}' || c == '\r' || c == ' ' ||
    c == '\U{85}' || c == '\U{A0}' || c == '\U{1680}' || '\U{2000}' <= c <= '\U{200A}' ||
    c == '\U{2028}' || c == '\U{2029}' || c == '\U{202F}' || c == '\U{205F}' || c == '\U{3000}'
  }

  predicate Blank(s: string) {
    forall i :: 0 <= i < |s| ==> IsSpace(s[i])
  }

  function TrimLeft(s: string): string {
    if s != [] && IsSpace(s[0]) then TrimLeft(s[1..]) else s
  }

  function TrimRight(s: string): string {
    if s != [] && IsSpace(s[|s| - 1]) then TrimRight(s[..|s| - 1]) else s
  }

  function Trim(s: string): string {
    TrimRight(TrimLeft(s))
  }

  /** strings.Split(s, ","): always at least one part. */
  function Split(s: string): (parts: seq<string>)
    ensures |parts| >= 1
  {
    if s == [] then [[]]
    else
      var rest := Split(s[1..]);
      if s[0] == ',' then [[]] + rest else [[s[0]] + rest[0]] + rest[1..]
  }

  /** strings.Join(parts, ","). */
  function Join(parts: seq<string>): string {
    if parts == [] then []
    else if |parts| == 1 then parts[0]
    else parts[0] + "," + Join(parts[1..])
  }

  /** Trim every part and drop the blank ones. */
  function Compact(parts: seq<string>): seq<string> {
    if parts == [] then []
    else
      var p := Trim(parts[0]);
      (if p != [] then [p] else []) + Compact(parts[1..])
  }

  /** What a stored column stands for. */
  function Entries(column: string): seq<string> {
    Compact(Split(column))
  }

  /** How a list is stored. */
  function Column(list: seq<string>): string {
    Join(Entries(Join(list)))
  }

  lemma CompactFrom(parts: seq<string>, i: nat)
    requires i <= |parts|
    ensures Compact(parts[i..]) ==
            if i == |parts| then []
            else (if Trim(parts[i]) != [] then [Trim(parts[i])] else []) + Compact(parts[i + 1..])
  {
    hide Trim;
    if i < |parts| {
      assert parts[i..][1..] == parts[i + 1..];
    }
  }

  method SplitScopes(column: string) returns (out: seq<string>)
    ensures out == Entries(column)
  {
    hide Compact, Trim, Split;
    var parts := Split(column);
    out := [];
    assert parts[0..] == parts;
    for i := 0 to |parts|
      invariant out + Compact(parts[i..]) == Compact(parts)
    {
      CompactFrom(parts, i);
      var p := Trim(parts[i]);
      Reassociate(out, if p != [] then [p] else [], Compact(parts[i + 1..]));
      if p != [] {
        out := out + [p];
      } else {
        assert out + [] == out;
      }
    }
    CompactFrom(parts, |parts|);
    assert out + [] == out;
  }

  method JoinScopes(list: seq<string>) returns (column: string)
    ensures column == Column(list)
  {
    var entries := SplitScopes(Join(list));
    column := Join(entries);
  }

  /** A list entry that survives storage as itself. */
  predicate CleanEntry(entry: string) {
    entry != [] && ',' !in entry && !IsSpace(entry[0]) && !IsSpace(entry[|entry| - 1])
  }

  predicate AllClean(list: seq<string>) {
    forall i :: 0 <= i < |list| ==> CleanEntry(list[i])
  }

  // ---- trimming

  lemma {:induction false} TrimLeftShape(s: string)
    ensures TrimLeft(s) == [] || !IsSpace(TrimLeft(s)[0])
    ensures forall c :: c in TrimLeft(s) ==> c in s
    ensures TrimLeft(s) == [] <==> Blank(s)
  {
    if s != [] && IsSpace(s[0]) {
      TrimLeftShape(s[1..]);
      assert forall i :: 0 < i < |s| ==> s[i] == s[1..][i - 1];
    }
  }

  lemma {:induction false} TrimRightShape(s: string)
    ensures TrimRight(s) == [] || !IsSpace(TrimRight(s)[|TrimRight(s)| - 1])
    ensures TrimRight(s) <= s
    ensures TrimRight(s) == [] <==> Blank(s)
  {
    if s != [] && IsSpace(s[|s| - 1]) {
      TrimRightShape(s[..|s| - 1]);
      assert forall i :: 0 <= i < |s| - 1 ==> s[i] == s[..|s| - 1][i];
    }
  }

  lemma TrimShape(s: string)
    ensures Trim(s) == [] <==> Blank(s)
    ensures Trim(s) != [] ==> !IsSpace(Trim(s)[0]) && !IsSpace(Trim(s)[|Trim(s)| - 1])
    ensures forall c :: c in Trim(s) ==> c in s
  {
    TrimLeftShape(s);
    TrimRightShape(TrimLeft(s));
  }

  lemma TrimOfClean(s: string)
    requires CleanEntry(s)
    ensures Trim(s) == s
  {}

  // ---- splitting and joining

  lemma {:induction false} SplitParts(s: string)
    ensures forall i :: 0 <= i < |Split(s)| ==> ',' !in Split(s)[i]
    ensures forall i, c :: 0 <= i < |Split(s)| && c in Split(s)[i] ==> c in s
    ensures forall c :: c in s && c != ',' ==> exists i :: 0 <= i < |Split(s)| && c in Split(s)[i]
  {
    if s != [] {
      SplitParts(s[1..]);
      var rest := Split(s[1..]);
      forall i, c | 0 <= i < |Split(s)| && c in Split(s)[i]
        ensures c in s
      {
        var k := if s[0] == ',' then i - 1 else i;
        assert c == s[0] || (0 <= k < |rest| && c in rest[k] && c in s[1..]);
      }
      if s[0] == ',' {
        assert forall i :: 0 < i < |Split(s)| ==> Split(s)[i] == rest[i - 1];
        forall c | c in s && c != ','
          ensures exists i :: 0 <= i < |Split(s)| && c in Split(s)[i]
        {
          assert c in s[1..];
          var i :| 0 <= i < |rest| && c in rest[i];
          assert c in Split(s)[i + 1];
        }
      } else {
        assert forall i :: 0 < i < |Split(s)| ==> Split(s)[i] == rest[i];
        forall c | c in s && c != ','
          ensures exists i :: 0 <= i < |Split(s)| && c in Split(s)[i]
        {
          if c == s[0] {
            assert c in Split(s)[0];
          } else {
            assert c in s[1..];
            var i :| 0 <= i < |rest| && c in rest[i];
            assert c in Split(s)[i];
          }
        }
      }
    }
  }

  lemma {:induction false} SplitAtComma(a: string, b: string)
    requires ',' !in a
    ensures Split(a + "," + b) == [a] + Split(b)
  {
    var s := a + "," + b;
    if a == [] {
      assert s[1..] == b;
    } else {
      assert s[1..] == a[1..] + "," + b;
      SplitAtComma(a[1..], b);
      assert [a[0]] + a[1..] == a;
    }
  }

  lemma {:induction false} SplitWithoutComma(a: string)
    requires ',' !in a
    ensures Split(a) == [a]
  {
    if a != [] {
      SplitWithoutComma(a[1..]);
      assert [a[0]] + a[1..] == a;
    }
  }

  lemma {:induction false} SplitUndoesJoin(parts: seq<string>)
    requires parts != []
    requires forall i :: 0 <= i < |parts| ==> ',' !in parts[i]
    ensures Split(Join(parts)) == parts
  {
    if |parts| == 1 {
      SplitWithoutComma(parts[0]);
    } else {
      SplitAtComma(parts[0], Join(parts[1..]));
      SplitUndoesJoin(parts[1..]);
    }
  }

  lemma {:induction false} CompactShape(parts: seq<string>)
    requires forall i :: 0 <= i < |parts| ==> ',' !in parts[i]
    ensures AllClean(Compact(parts))
    ensures Compact(parts) == [] <==> forall i :: 0 <= i < |parts| ==> Blank(parts[i])
  {
    hide Trim, Blank, CleanEntry;
    if parts != [] {
      var p, rest := Trim(parts[0]), Compact(parts[1..]);
      CompactShape(parts[1..]);
      TrimIsClean(parts[0]);
      CleanCons(p, rest);
      assert [] + rest == rest;
      assert forall i :: 0 < i < |parts| ==> parts[i] == parts[1..][i - 1];
    }
  }

  lemma CleanCons(p: string, rest: seq<string>)
    requires AllClean(rest)
    ensures CleanEntry(p) ==> AllClean([p] + rest)
  {
    hide CleanEntry;
  }

  lemma TrimIsClean(s: string)
    requires ',' !in s
    ensures Trim(s) == [] <==> Blank(s)
    ensures Trim(s) != [] ==> CleanEntry(Trim(s))
  {
    TrimShape(s);
  }

  lemma {:induction false} CompactOfClean(parts: seq<string>)
    requires AllClean(parts)
    ensures Compact(parts) == parts
  {
    if parts != [] {
      TrimOfClean(parts[0]);
      CompactOfClean(parts[1..]);
    }
  }

  /** Reading a column always gives clean entries, and none only when the column holds nothing
      but commas and space. */
  lemma EntriesAreClean(column: string)
    ensures AllClean(Entries(column))
    ensures Entries(column) == [] <==> forall c :: c in column ==> c == ',' || IsSpace(c)
  {
    SplitParts(column);
    CompactShape(Split(column));
    var parts := Split(column);
    if Entries(column) == [] {
      forall c | c in column ensures c == ',' || IsSpace(c) {
        if c != ',' {
          var i :| 0 <= i < |parts| && c in parts[i];
          assert Blank(parts[i]);
        }
      }
    } else {
      var i :| 0 <= i < |parts| && !Blank(parts[i]);
      var k :| 0 <= k < |parts[i]| && !IsSpace(parts[i][k]);
      assert parts[i][k] in column;
    }
  }

  /** Storing a clean list and reading it back gives the same list. */
  lemma CleanListRoundTrip(list: seq<string>)
    requires AllClean(list)
    ensures Entries(Join(list)) == list
    ensures Column(list) == Join(list)
  {
    if list != [] {
      SplitUndoesJoin(list);
      CompactOfClean(list);
    }
  }

  /** A column as every write leaves it: splitting and joining it again changes nothing. */
  predicate Normal(column: string) {
    Join(Entries(column)) == column
  }

  /** Normalisation is a projection: whatever is written is normal, and a normal column survives
      being split and stored again, as minting an access token from a grant does. */
  lemma StoredColumnIsStable(list: seq<string>)
    ensures Normal(Column(list))
    ensures Entries(Column(list)) == Entries(Join(list))
    ensures Column(Entries(Column(list))) == Column(list)
  {
    EntriesAreClean(Join(list));
    CleanListRoundTrip(Entries(Join(list)));
  }

  lemma NormalColumnIsCopied(column: string)
    requires Normal(column)
    ensures Column(Entries(column)) == column
  {
    EntriesAreClean(column);
    CleanListRoundTrip(Entries(column));
  }

  // ---- reading a form list back

  datatype FormScope = FormScope(all: bool, ids: seq<string>) {
    predicate Allows(form: string) {
      all || form in ids
    }
  }

  method OnlyForms(ids: seq<string>) returns (scope: FormScope)
    ensures scope == FormScope(false, Compact(ids))
  {
    hide Compact, Trim;
    var out := [];
    assert ids[0..] == ids;
    for i := 0 to |ids|
      invariant out + Compact(ids[i..]) == Compact(ids)
    {
      CompactFrom(ids, i);
      var id := Trim(ids[i]);
      Reassociate(out, if id != [] then [id] else [], Compact(ids[i + 1..]));
      if id != [] {
        out := out + [id];
      } else {
        assert out + [] == out;
      }
    }
    CompactFrom(ids, |ids|);
    assert out + [] == out;
    scope := FormScope(false, out);
  }

  function ParseFormScope(stored: string): FormScope {
    if Trim(stored) == [] then FormScope(true, []) else FormScope(false, Entries(stored))
  }

  /** APIToken.Scope and OAuthGrant.Scope: the column is split on the way out of the database and
      joined again before it is read as a scope. */
  function ScopeOfColumn(column: string): FormScope {
    ParseFormScope(Join(Entries(column)))
  }

  /** Every entry of the list is only commas and space. */
  predicate NamesNothing(list: seq<string>) {
    forall i :: 0 <= i < |list| ==> forall c :: c in list[i] ==> c == ',' || IsSpace(c)
  }

  lemma {:induction false} JoinCharacters(list: seq<string>)
    ensures NamesNothing(list) <==> forall c :: c in Join(list) ==> c == ',' || IsSpace(c)
  {
    if |list| > 1 {
      JoinCharacters(list[1..]);
      assert forall i :: 0 < i < |list| ==> list[i] == list[1..][i - 1];
      if NamesNothing(list) {
        assert NamesNothing(list[1..]);
        forall c | c in Join(list) ensures c == ',' || IsSpace(c) {
          assert c in list[0] || c == ',' || c in Join(list[1..]);
        }
      } else {
        var i :| 0 <= i < |list| && !forall c :: c in list[i] ==> c == ',' || IsSpace(c);
        if i == 0 {
          assert forall c :: c in list[0] ==> c in Join(list);
        } else {
          assert list[1..][i - 1] == list[i];
          assert forall c :: c in Join(list[1..]) ==> c in Join(list);
        }
      }
    }
  }

  /** The one way a form list comes to mean every form, exactly: no entry names a form. A list
      that names anything is read back as those forms and no others, and a list of clean ids is
      read back as itself. */
  lemma ConsentedFormsReadBack(list: seq<string>, form: string)
    ensures ScopeOfColumn(Column(list)).all <==> NamesNothing(list)
    ensures ScopeOfColumn(Column(list)).Allows(form) <==>
            NamesNothing(list) || form in Entries(Join(list))
    ensures AllClean(list) && list != [] ==>
              (ScopeOfColumn(Column(list)).Allows(form) <==> form in list)
  {
    StoredColumnIsStable(list);
    JoinCharacters(list);
    EntriesAreClean(Join(list));
    var entries := Entries(Join(list));
    CleanListRoundTrip(entries);
    assert ScopeOfColumn(Column(list)) == ParseFormScope(Join(entries));
    TrimShape(Join(entries));
    if entries != [] {
      assert CleanEntry(entries[0]);
      assert entries[0][0] in Join(entries);
    }
    if AllClean(list) && list != [] {
      CleanListRoundTrip(list);
      assert list[0][0] in list[0];
    }
  }

  /** A list that is not empty and is still stored as "every form". */
  lemma BlankListReadsAsEveryForm(form: string)
    ensures [" ", ","] != [] && ScopeOfColumn(Column([" ", ","])).Allows(form)
  {
    ConsentedFormsReadBack([" ", ","], form);
  }
}

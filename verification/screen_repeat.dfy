/** The bounded tally of repeat submissions, against a count that never forgets. */
module ScreenRepeat {
  import opened Basics
  import opened Bytes

  /** formID + NUL + ip */
  function Key(form: bytes, ip: bytes): bytes {
    form + [0] + ip
  }

  function First(f: bytes): byte {
    if f == [] then 0 else f[0]
  }

  lemma FirstOfKey(f: bytes, i: bytes)
    ensures Key(f, i)[0] == First(f)
  {}

  lemma {:induction false} KeyIsInjective(f: bytes, i: bytes, g: bytes, j: bytes)
    requires 0 !in f && 0 !in g && Key(f, i) == Key(g, j)
    ensures f == g && i == j
  {
    if f != [] && g != [] {
      assert Key(f, i)[0] == f[0] && Key(g, j)[0] == g[0];
      assert Key(f, i)[1..] == Key(f[1..], i) && Key(g, j)[1..] == Key(g[1..], j);
      KeyIsInjective(f[1..], i, g[1..], j);
    } else {
      FirstOfKey(f, i);
      FirstOfKey(g, j);
      assert f == [] && g == [];
      assert Key(f, i)[1..] == i && Key(g, j)[1..] == j;
    }
  }

  /** How often a key was submitted. */
  function Times(history: seq<bytes>, key: bytes): nat {
    if history == [] then 0
    else Times(history[..|history| - 1], key) + if history[|history| - 1] == key then 1 else 0
  }

  lemma TimesOfNext(history: seq<bytes>, key: bytes, k: bytes)
    ensures Times(history + [key], k) == Times(history, k) + if k == key then 1 else 0
    ensures Elements(history + [key]) == Elements(history) + {key}
  {
    assert (history + [key])[..|history|] == history;
  }

  lemma {:induction false} TimesOfUnseen(history: seq<bytes>, key: bytes)
    ensures key !in history <==> Times(history, key) == 0
  {
    if history != [] {
      TimesOfUnseen(history[..|history| - 1], key);
      assert history == history[..|history| - 1] + [history[|history| - 1]];
    }
  }

  /** order and counts hold the same keys, each once and at most max of them; no count is more than
      the truth, and while no more keys were ever seen than fit, every count is the truth. */
  predicate Faithful(counts: map<bytes, nat>, order: seq<bytes>, history: seq<bytes>, max: nat) {
    NoDuplicates(order) && |order| <= max && counts.Keys == Elements(order) && |counts| == |order| &&
    (forall k :: k in counts ==> counts[k] <= Times(history, k)) &&
    (|Elements(history)| <= max ==> Exact(counts, history))
  }

  predicate Exact(counts: map<bytes, nat>, history: seq<bytes>) {
    counts.Keys == Elements(history) && forall k :: k in counts ==> counts[k] == Times(history, k)
  }

  lemma CountAgain(counts: map<bytes, nat>, order: seq<bytes>, history: seq<bytes>, max: nat, key: bytes)
    requires Faithful(counts, order, history, max) && key in counts
    ensures Faithful(counts[key := counts[key] + 1], order, history + [key], max)
  {
    hide Times;
    forall k ensures Times(history + [key], k) == Times(history, k) + if k == key then 1 else 0 {
      TimesOfNext(history, key, k);
    }
    TimesOfNext(history, key, key);
    FewerBefore(history, key);
    var next := counts[key := counts[key] + 1];
    assert next.Keys == counts.Keys;
    assert |next| == |next.Keys| == |counts.Keys|;
    if |Elements(history + [key])| <= max {
      assert key in Elements(history);
      assert Elements(history) + {key} == Elements(history);
    }
  }

  lemma CountFirst(counts: map<bytes, nat>, order: seq<bytes>, history: seq<bytes>, max: nat, key: bytes)
    requires Faithful(counts, order, history, max) && key !in counts && |order| < max
    ensures Faithful(counts[key := 1], order + [key], history + [key], max)
  {
    hide Times, Elements, NoDuplicates;
    Member(order, key);
    Member(history, key);
    forall k ensures Times(history + [key], k) == Times(history, k) + if k == key then 1 else 0 {
      TimesOfNext(history, key, k);
    }
    TimesOfNext(history, key, key);
    TimesOfUnseen(history, key);
    FewerBefore(history, key);
    NextOfOrder(order, key);
    var next := counts[key := 1];
    assert next.Keys == counts.Keys + {key};
    assert |next| == |next.Keys| == |counts.Keys| + 1;
  }

  /** When the tally is full of other keys, no exactness is owed any more once this key is added. */
  lemma CountWithEviction(counts: map<bytes, nat>, order: seq<bytes>, history: seq<bytes>, max: nat, key: bytes)
    requires Faithful(counts, order, history, max) && key !in counts && |order| == max > 0
    ensures Faithful((counts - {order[0]})[key := 1], order[1..] + [key], history + [key], max)
  {
    hide Times, Elements, NoDuplicates;
    Member(order, key);
    Member(order, order[0]);
    Member(order[1..], key);
    Member(history, key);
    forall k ensures Times(history + [key], k) == Times(history, k) + if k == key then 1 else 0 {
      TimesOfNext(history, key, k);
    }
    FewerBefore(history, key);
    if |Elements(history)| <= max {
      assert key !in history;
      assert |Elements(history)| == |counts.Keys| == max;
    }
    RestOfOrder(order);
    NextOfOrder(order[1..], key);
    var fewer := counts - {order[0]};
    assert order[0] in counts;
    assert fewer.Keys == counts.Keys - {order[0]};
    assert |fewer| == |fewer.Keys| == max - 1;
    var next := fewer[key := 1];
    assert next.Keys == fewer.Keys + {key};
    assert |next| == |next.Keys| == max;
  }

  // ---- past the cap

  /** The visits that found their key not held, by the history alone: a key is held from such a visit
      until max later ones. */
  function Insertions(history: seq<bytes>, max: nat): (at: seq<nat>)
    ensures forall i :: 0 <= i < |at| ==> at[i] < |history|
  {
    if history == [] then []
    else
      var n := |history| - 1;
      var before := Insertions(history[..n], max);
      if Holds(history[..n], Last(before, max), history[n]) then before else before + [n]
  }

  function Last(at: seq<nat>, max: nat): seq<nat> {
    if |at| <= max then at else at[|at| - max..]
  }

  predicate Holds(history: seq<bytes>, at: seq<nat>, key: bytes) {
    exists i :: 0 <= i < |at| && at[i] < |history| && history[at[i]] == key
  }

  /** The tally is the last max insertions, oldest first, and each count is the visits since its own. */
  predicate Recent(counts: map<bytes, nat>, order: seq<bytes>, history: seq<bytes>, max: nat) {
    var at := Last(Insertions(history, max), max);
    CountsFrom(counts, order, history, at)
  }

  lemma LaterVisit(history: seq<bytes>, key: bytes, at: nat)
    requires at < |history|
    ensures (history + [key])[at] == history[at]
    ensures forall k :: Times((history + [key])[at..], k) == Times(history[at..], k) + if k == key then 1 else 0
  {
    assert (history + [key])[at..] == history[at..] + [key];
    forall k { TimesOfNext(history[at..], key, k); }
  }

  lemma HeldIsInOrder(counts: map<bytes, nat>, order: seq<bytes>, history: seq<bytes>, max: nat, key: bytes)
    requires Recent(counts, order, history, max) && counts.Keys == Elements(order)
    ensures Holds(history, Last(Insertions(history, max), max), key) <==> key in counts
    ensures Insertions(history + [key], max) ==
            if key in counts then Insertions(history, max) else Insertions(history, max) + [|history|]
  {
    var at := Last(Insertions(history, max), max);
    Member(order, key);
    if i :| 0 <= i < |order| && order[i] == key { assert history[at[i]] == key; }
    if i :| 0 <= i < |at| && at[i] < |history| && history[at[i]] == key { assert order[i] == key; }
    assert (history + [key])[..|history|] == history;
  }

  lemma HeldVisit(counts: map<bytes, nat>, order: seq<bytes>, history: seq<bytes>, max: nat, key: bytes)
    requires Recent(counts, order, history, max) && counts.Keys == Elements(order) && NoDuplicates(order) && key in counts
    ensures Recent(counts[key := counts[key] + 1], order, history + [key], max)
  {
    HeldIsInOrder(counts, order, history, max, key);
    Counted(counts, order, history, Last(Insertions(history, max), max), key);
    hide Times, Insertions, Elements, Last, CountsFrom, NoDuplicates;
  }

  lemma Counted(counts: map<bytes, nat>, order: seq<bytes>, history: seq<bytes>, at: seq<nat>, key: bytes)
    requires CountsFrom(counts, order, history, at) && key in counts
    ensures CountsFrom(counts[key := counts[key] + 1], order, history + [key], at)
  {
    hide Times;
    forall i | 0 <= i < |order|
      ensures (history + [key])[at[i]] == order[i]
      ensures Times((history + [key])[at[i]..], order[i]) == counts[key := counts[key] + 1][order[i]]
    {
      LaterVisit(history, key, at[i]);
    }
  }

  lemma NewVisit(counts: map<bytes, nat>, order: seq<bytes>, history: seq<bytes>, max: nat, key: bytes)
    requires Recent(counts, order, history, max) && counts.Keys == Elements(order) && NoDuplicates(order)
    requires key !in counts && 0 < max && |order| <= max
    ensures |order| < max ==> Recent(counts[key := 1], order + [key], history + [key], max)
    ensures |order| == max ==> Recent((counts - {order[0]})[key := 1], order[1..] + [key], history + [key], max)
  {
    HeldIsInOrder(counts, order, history, max, key);
    Member(order, key);
    var at := Last(Insertions(history, max), max);
    LastGrows(Insertions(history, max), max, |history|);
    hide Times, Insertions, Elements, Last, CountsFrom, NoDuplicates;
    if |order| < max {
      Appended(counts, order, history, at, key);
    } else {
      Evicted(counts, order, history, at);
      Appended(counts - {order[0]}, order[1..], history, at[1..], key);
    }
  }

  lemma LastGrows(at: seq<nat>, max: nat, n: nat)
    requires max > 0
    ensures Last(at + [n], max) == (if |Last(at, max)| < max then Last(at, max) else Last(at, max)[1..]) + [n]
  {
    if |at| < max {
      assert Last(at + [n], max) == at + [n];
    } else {
      assert (at + [n])[|at| + 1 - max..] == at[|at| + 1 - max..] + [n];
      assert at[|at| - max..][1..] == at[|at| + 1 - max..];
    }
  }

  lemma Evicted(counts: map<bytes, nat>, order: seq<bytes>, history: seq<bytes>, at: seq<nat>)
    requires CountsFrom(counts, order, history, at) && NoDuplicates(order) && order != []
    ensures CountsFrom(counts - {order[0]}, order[1..], history, at[1..])
  {
    assert forall i :: 0 <= i < |order| - 1 ==> order[1..][i] == order[i + 1] && order[i + 1] != order[0] && at[1..][i] == at[i + 1];
    hide Times;
  }

  /** Recent, for given positions. */
  predicate CountsFrom(counts: map<bytes, nat>, order: seq<bytes>, history: seq<bytes>, at: seq<nat>) {
    |at| == |order| &&
    forall i :: 0 <= i < |order| ==>
      at[i] < |history| && order[i] == history[at[i]] && order[i] in counts &&
      counts[order[i]] == Times(history[at[i]..], order[i])
  }

  lemma Appended(counts: map<bytes, nat>, order: seq<bytes>, history: seq<bytes>, at: seq<nat>, key: bytes)
    requires CountsFrom(counts, order, history, at) && key !in order
    ensures CountsFrom(counts[key := 1], order + [key], history + [key], at + [|history|])
  {
    forall i | 0 <= i < |order| { LaterVisit(history, key, at[i]); }
    assert (history + [key])[|history|..] == [key];
    OneVisit(key);
    hide Times;
  }

  lemma OneVisit(key: bytes)
    ensures Times([key], key) == 1
  {
    assert [key][..0] == [];
  }

  class Tracker {
    var counts: map<bytes, nat>
    var order: seq<bytes>
    const maxEntries: nat
    /** Every submission so far, which the code does not keep. */
    ghost var history: seq<bytes>

    ghost predicate Valid()
      reads this
    {
      maxEntries > 0 && Faithful(counts, order, history, maxEntries) && Recent(counts, order, history, maxEntries)
    }

    constructor (maxEntries: nat)
      requires maxEntries > 0
      ensures Valid() && history == [] && this.maxEntries == maxEntries
    {
      counts, order, this.maxEntries, history := map[], [], maxEntries, [];
    }

    /** True only for a key that really came three times; exactly then while everything ever seen
        still fits. */
    method Seen(form: bytes, ip: bytes) returns (repeated: bool)
      requires Valid()
      modifies this
      ensures Valid() && history == old(history) + [Key(form, ip)]
      ensures repeated ==> Times(history, Key(form, ip)) >= 3
      ensures |Elements(history)| <= maxEntries ==> (repeated <==> Times(history, Key(form, ip)) >= 3)
      ensures var at := Last(Insertions(history, maxEntries), maxEntries);
              Holds(history, at, Key(form, ip)) &&
              forall i :: 0 <= i < |at| && history[at[i]] == Key(form, ip) ==>
                (repeated <==> Times(history[at[i]..], Key(form, ip)) >= 3)
    {
      hide Times, NoDuplicates, Elements, Insertions, Last;
      var key := Key(form, ip);
      if key in counts {
        HeldVisit(counts, order, history, maxEntries, key);
        CountAgain(counts, order, history, maxEntries, key);
      } else if |order| < maxEntries {
        NewVisit(counts, order, history, maxEntries, key);
        CountFirst(counts, order, history, maxEntries, key);
      } else {
        NewVisit(counts, order, history, maxEntries, key);
        CountWithEviction(counts, order, history, maxEntries, key);
      }
      if key !in counts {
        if |counts| >= maxEntries {
          var oldest := order[0];
          order := order[1..];
          counts := counts - {oldest};
        }
        order := order + [key];
      }
      counts := counts[key := (if key in counts then counts[key] else 0) + 1];
      history := history + [key];
      repeated := counts[key] >= 3;
      HeldIsInOrder(counts, order, history, maxEntries, key);
    }
  }

  lemma FewerBefore(history: seq<bytes>, key: bytes)
    ensures |Elements(history)| <= |Elements(history + [key])|
    ensures key !in history ==> |Elements(history + [key])| == |Elements(history)| + 1
  {
    TimesOfNext(history, key, key);
    if key in history {
      assert Elements(history) + {key} == Elements(history);
    }
  }

  lemma RestOfOrder(order: seq<bytes>)
    requires NoDuplicates(order) && order != []
    ensures NoDuplicates(order[1..]) && Elements(order[1..]) == Elements(order) - {order[0]}
  {
    forall k ensures k in Elements(order[1..]) <==> k in Elements(order) - {order[0]} {
      if k in order && k != order[0] {
        var i :| 0 <= i < |order| && order[i] == k;
        assert order[1..][i - 1] == k;
      }
      if k in order[1..] {
        var i :| 0 <= i < |order| - 1 && order[1..][i] == k;
        assert order[i + 1] == k;
      }
    }
  }

  lemma NextOfOrder(order: seq<bytes>, key: bytes)
    requires NoDuplicates(order) && key !in order
    ensures NoDuplicates(order + [key]) && Elements(order + [key]) == Elements(order) + {key}
  {}
}

/** The (sender, nonce) order in which the pool hands out transactions (src/core/mempool.cpp:169-176). */
module Ordering {
  import opened Common
  import opened Records
  import opened Ledger

  predicate KeyLess(a: Transaction, b: Transaction)
  {
    if a.sender != b.sender then LexLess(a.sender, b.sender) else a.nonce < b.nonce
  }

  lemma KeyLessTransitive(a: Transaction, b: Transaction, c: Transaction)
    requires KeyLess(a, b) && KeyLess(b, c)
    ensures KeyLess(a, c) && a != c
  {
    LexIrreflexive(a.sender);
    if a.sender != b.sender && b.sender != c.sender {
      LexTransitive(a.sender, b.sender, c.sender);
    }
  }

  ghost predicate SameKey(a: Transaction, b: Transaction)
  {
    a.sender == b.sender && a.nonce == b.nonce
  }

  /** No two transactions of the set share sender and nonce. */
  ghost predicate DistinctKeys(x: set<Transaction>)
  {
    forall a, b :: a in x && b in x && SameKey(a, b) ==> a == b
  }

  ghost predicate Sorted(s: seq<Transaction>)
  {
    forall i, j :: 0 <= i < j < |s| ==> KeyLess(s[i], s[j])
  }

  /** The sequence lists exactly the elements of the set, each once, in key order. */
  ghost predicate Lists(s: seq<Transaction>, x: set<Transaction>)
  {
    Sorted(s) && forall t :: t in s <==> t in x
  }

  lemma SortedHasNoRepeats(s: seq<Transaction>, i: nat, j: nat)
    requires Sorted(s) && i < j < |s|
    ensures s[i] != s[j]
  {
    LexIrreflexive(s[i].sender);
  }

  /** A set has only one listing: the result of sorting does not depend on the order of enumeration. */
  lemma {:induction false} ListingUnique(s: seq<Transaction>, t: seq<Transaction>, x: set<Transaction>)
    requires Lists(s, x) && Lists(t, x)
    ensures s == t
    decreases |s|
  {
    ListingSize(s, x);
    ListingSize(t, x);
    if s != [] {
      assert s[0] in x;
      var j :| 0 <= j < |t| && t[j] == s[0];
      assert t[0] in s;
      var i :| 0 <= i < |s| && s[i] == t[0];
      if i > 0 && j > 0 {
        KeyLessTransitive(s[0], s[i], s[0]);
      }
      ListsTail(s, x);
      ListsTail(t, x);
      ListingUnique(s[1..], t[1..], x - {s[0]});
      assert s == [s[0]] + s[1..] && t == [t[0]] + t[1..];
    }
  }

  lemma ListsTail(s: seq<Transaction>, x: set<Transaction>)
    requires Lists(s, x) && s != []
    ensures Lists(s[1..], x - {s[0]})
  {
    forall t ensures t in s[1..] <==> t in x - {s[0]} {
      if t in s[1..] {
        var i :| 0 <= i < |s[1..]| && s[1..][i] == t;
        SortedHasNoRepeats(s, 0, i + 1);
      }
      if t in x - {s[0]} {
        var i :| 0 <= i < |s| && s[i] == t;
        assert s[1..][i - 1] == t;
      }
    }
  }

  lemma {:induction false} ListingExists(x: set<Transaction>)
    requires DistinctKeys(x)
    ensures exists s :: Lists(s, x)
    decreases x
  {
    if x == {} {
      assert Lists([], x);
    } else {
      var t :| t in x;
      ListingExists(x - {t});
      var s :| Lists(s, x - {t});
      var r := InsertSorted(s, t);
      assert Lists(r, x);
    }
  }

  /** One insertion step of the sort. */
  function InsertSorted(s: seq<Transaction>, t: Transaction): (r: seq<Transaction>)
    requires Sorted(s)
    requires forall u :: u in s ==> !SameKey(u, t)
    ensures Sorted(r)
    ensures forall u :: u in r <==> u in s || u == t
  {
    if s == [] then [t]
    else if KeyLess(t, s[0]) then
      InsertedFirst(s, t);
      [t] + s
    else
      var r := InsertSorted(s[1..], t);
      InsertedLater(s, t, r);
      [s[0]] + r
  }

  lemma InsertedFirst(s: seq<Transaction>, t: Transaction)
    requires Sorted(s) && s != [] && KeyLess(t, s[0])
    ensures Sorted([t] + s)
  {
    forall j | 0 < j < |s| ensures KeyLess(t, s[j]) {
      KeyLessTransitive(t, s[0], s[j]);
    }
  }

  lemma InsertedLater(s: seq<Transaction>, t: Transaction, r: seq<Transaction>)
    requires Sorted(s) && s != [] && !KeyLess(t, s[0]) && !SameKey(s[0], t)
    requires Sorted(r) && forall u :: u in r <==> u in s[1..] || u == t
    ensures Sorted([s[0]] + r)
    ensures forall u :: u in [s[0]] + r <==> u in s || u == t
  {
    if s[0].sender != t.sender {
      LexTotal(s[0].sender, t.sender);
    }
    assert s == [s[0]] + s[1..];
    forall j | 0 <= j < |r| ensures KeyLess(s[0], r[j]) {
      assert r[j] in r;
      if r[j] != t {
        var i :| 0 <= i < |s[1..]| && s[1..][i] == r[j];
        assert s[i + 1] == r[j];
      }
    }
  }

  /** The set in key order; without distinct keys the result of the sort is not determined. */
  ghost function Order(x: set<Transaction>): (s: seq<Transaction>)
    ensures DistinctKeys(x) ==> Lists(s, x)
  {
    if DistinctKeys(x) then
      ListingExists(x);
      var s :| Lists(s, x);
      s
    else []
  }

  lemma OrderIs(x: set<Transaction>, s: seq<Transaction>)
    requires DistinctKeys(x) && Lists(s, x)
    ensures Order(x) == s
  {
    ListingUnique(Order(x), s, x);
  }

  /** std::sort by key, given distinct keys. */
  method SortByKey(txs: seq<Transaction>) returns (s: seq<Transaction>)
    requires DistinctKeys(Elems(txs))
    requires forall i, j :: 0 <= i < j < |txs| ==> txs[i] != txs[j]
    ensures s == Order(Elems(txs))
  {
    s := [];
    for i := 0 to |txs|
      invariant Lists(s, Elems(txs[..i]))
    {
      forall u | u in s ensures !SameKey(u, txs[i]) {
        assert u in Elems(txs[..i]);
        var j :| 0 <= j < i && txs[j] == u;
        assert txs[j] in Elems(txs) && txs[i] in Elems(txs);
      }
      assert txs[..i + 1] == txs[..i] + [txs[i]];
      s := InsertSorted(s, txs[i]);
    }
    assert txs[..|txs|] == txs;
    OrderIs(Elems(txs), s);
  }

  lemma {:induction false} ListingSize(s: seq<Transaction>, x: set<Transaction>)
    requires Lists(s, x)
    ensures |s| == |x|
    decreases |s|
  {
    if s == [] {
      assert x == {};
    } else {
      assert s[0] in x;
      ListsTail(s, x);
      ListingSize(s[1..], x - {s[0]});
    }
  }

  // ---------------------------------------------------------------- projections

  lemma {:induction false} ProjMembers(s: seq<Transaction>, a: Address)
    ensures forall t :: t in Proj(s, a) <==> t in s && t.sender == a
  {
    if s != [] {
      ProjMembers(s[..|s| - 1], a);
      assert s == s[..|s| - 1] + [s[|s| - 1]];
    }
  }

  lemma {:induction false} ProjConcat(s: seq<Transaction>, t: seq<Transaction>, a: Address)
    ensures Proj(s + t, a) == Proj(s, a) + Proj(t, a)
  {
    if t == [] {
      assert s + t == s;
    } else {
      assert (s + t)[..|s + t| - 1] == s + t[..|t| - 1];
      ProjConcat(s, t[..|t| - 1], a);
    }
  }

  lemma {:induction false} ProjSorted(s: seq<Transaction>, a: Address)
    requires Sorted(s)
    ensures Sorted(Proj(s, a))
  {
    if s != [] {
      var n := |s| - 1;
      var p := Proj(s[..n], a);
      ProjSorted(s[..n], a);
      ProjMembers(s[..n], a);
      forall i | 0 <= i < |p| ensures KeyLess(p[i], s[n]) {
        assert p[i] in p;
        var k :| 0 <= k < n && s[k] == p[i];
      }
    }
  }

  /** A sender's part of the pool is the listing of that sender's transactions. */
  lemma ProjLists(s: seq<Transaction>, x: set<Transaction>, a: Address)
    requires Lists(s, x)
    ensures Lists(Proj(s, a), set t | t in x && t.sender == a)
  {
    ProjSorted(s, a);
    ProjMembers(s, a);
  }

  lemma {:induction false} TotalConcat(s: seq<Transaction>, t: seq<Transaction>)
    ensures Total(s + t) == Total(s) + Total(t)
  {
    if t == [] {
      assert s + t == s;
    } else {
      assert (s + t)[..|s + t| - 1] == s + t[..|t| - 1];
      TotalConcat(s, t[..|t| - 1]);
    }
  }
}

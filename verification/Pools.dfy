/** The pending-transaction pool (src/core/mempool.cpp). */
module Pools {
  import opened Common
  import opened Records
  import opened Ledger
  import opened Ordering

  /** pending_, pendingNonces_ and pendingBalances_. */
  datatype Pool = Pool(
    pending: map<Hash, Transaction>,
    nonces: map<Address, U64>,
    balances: map<Address, U64>)

  const EMPTY: Pool := Pool(map[], map[], map[])

  function PendingNonce(s: Accounts, p: Pool, a: Address): U64
  {
    if a in p.nonces then p.nonces[a] else NonceOf(s, a)
  }

  function PendingBalance(s: Accounts, p: Pool, a: Address): U64
  {
    if a in p.balances then p.balances[a] else BalanceOf(s, a)
  }

  /** The five checks of addTransaction. */
  predicate Accepts(c: Suite, s: Accounts, p: Pool, tx: Transaction)
  {
    && VerifyTransaction(c, tx)
    && tx.hash !in p.pending
    && tx.sender in s
    && tx.nonce == PendingNonce(s, p, tx.sender)
    && tx.amount <= PendingBalance(s, p, tx.sender)
  }

  function Add(c: Suite, s: Accounts, p: Pool, tx: Transaction): Pool
  {
    if !Accepts(c, s, p, tx) then p
    else Pool(
      p.pending[tx.hash := tx],
      p.nonces[tx.sender := Plus(tx.nonce, 1)],
      p.balances[tx.sender := PendingBalance(s, p, tx.sender) - tx.amount])
  }

  function AddAll(c: Suite, s: Accounts, p: Pool, txs: seq<Transaction>): Pool
  {
    if txs == [] then p else Add(c, s, AddAll(c, s, p, txs[..|txs| - 1]), txs[|txs| - 1])
  }

  function Remove(p: Pool, txs: seq<Transaction>): Pool
  {
    Pool(p.pending - (set t | t in txs :: t.hash), p.nonces, p.balances)
  }

  /** Every entry verifies and is filed under its own hash. */
  ghost predicate Filed(c: Suite, p: Pool)
  {
    forall h :: h in p.pending ==> p.pending[h].hash == h && VerifyTransaction(c, p.pending[h])
  }

  /** A pool whose keys are distinct, as any part of a well-formed pool. */
  ghost predicate Sortable(c: Suite, p: Pool)
  {
    Filed(c, p) && DistinctKeys(p.pending.Values)
  }

  ghost function Selected(p: Pool, maxCount: nat): seq<Transaction>
  {
    var all := Order(p.pending.Values);
    if |all| > maxCount then all[..maxCount] else all
  }

  /** Clear everything, then add the saved transactions again in key order. */
  ghost function Revalidated(c: Suite, s: Accounts, p: Pool): Pool
  {
    AddAll(c, s, EMPTY, Order(p.pending.Values))
  }

  // ---------------------------------------------------------------- well-formed pools

  /** Consecutive nonces from `first`, total at most `funds`. */
  ghost predicate IsChain(txs: seq<Transaction>, first: int, funds: int)
  {
    && (forall i :: 0 <= i < |txs| ==> txs[i].nonce == first + i)
    && Total(txs) <= funds
  }

  /** The sender's transactions follow on from the confirmed state, and the sender can pay for them. */
  ghost predicate RunnableFor(s: Accounts, txs: seq<Transaction>, a: Address)
  {
    Proj(txs, a) != [] ==> a in s && IsChain(Proj(txs, a), s[a].nonce, s[a].balance)
  }

  ghost predicate Runnable(s: Accounts, txs: seq<Transaction>)
  {
    forall a: Address :: RunnableFor(s, txs, a)
  }

  /** pending_ holds exactly the listed transactions. */
  ghost predicate Holds(p: Pool, txs: seq<Transaction>)
  {
    && (forall h :: h in p.pending ==> p.pending[h].hash == h && p.pending[h] in txs)
    && (forall t :: t in txs ==> t.hash in p.pending && p.pending[t.hash] == t)
  }

  /** The sender's entries in the two indexes agree with the listed transactions. */
  ghost predicate IndexedFor(s: Accounts, p: Pool, txs: seq<Transaction>, a: Address)
  {
    && (a in p.nonces <==> Proj(txs, a) != [])
    && (a in p.balances <==> Proj(txs, a) != [])
    && (Proj(txs, a) != [] ==>
          && a in s
          && p.nonces[a] == s[a].nonce + |Proj(txs, a)|
          && p.balances[a] == s[a].balance - Total(Proj(txs, a)))
  }

  ghost predicate Indexed(s: Accounts, p: Pool, txs: seq<Transaction>)
  {
    forall a: Address :: IndexedFor(s, p, txs, a)
  }

  /** No pooled transaction carries the last 64-bit nonce. */
  ghost predicate NoncesBelowMax(p: Pool)
  {
    forall h :: h in p.pending ==> p.pending[h].nonce < MAX_U64
  }

  /** What the pool satisfies whenever the node's lock is free. */
  ghost predicate PoolOk(c: Suite, s: Accounts, p: Pool)
  {
    && Sortable(c, p)
    && NoncesBelowMax(p)
    && Runnable(s, Order(p.pending.Values))
    && Indexed(s, p, Order(p.pending.Values))
  }

  lemma HoldsValues(p: Pool, txs: seq<Transaction>)
    requires Holds(p, txs)
    ensures forall t :: t in txs <==> t in p.pending.Values
  {
  }

  /** Runnable transactions have distinct keys. */
  lemma RunnableDistinct(s: Accounts, txs: seq<Transaction>)
    requires Runnable(s, txs)
    ensures DistinctKeys(Elems(txs))
  {
    forall x, y | x in Elems(txs) && y in Elems(txs) && SameKey(x, y) ensures x == y {
      assert RunnableFor(s, txs, x.sender);
      ProjMembers(txs, x.sender);
      var p := Proj(txs, x.sender);
      assert x in p && y in p;
      var i :| 0 <= i < |p| && p[i] == x;
      var j :| 0 <= j < |p| && p[j] == y;
    }
  }

  lemma ChainSorted(txs: seq<Transaction>, a: Address, first: int, funds: int)
    requires IsChain(txs, first, funds)
    requires forall t :: t in txs ==> t.sender == a
    ensures Sorted(txs)
  {
    forall i, j | 0 <= i < j < |txs| ensures KeyLess(txs[i], txs[j]) {
      assert txs[i] in txs && txs[j] in txs;
    }
  }

  /** Sorting runnable transactions leaves each sender's sequence as it is. */
  lemma OrderKeepsProj(s: Accounts, txs: seq<Transaction>, a: Address)
    requires Runnable(s, txs) && DistinctKeys(Elems(txs))
    ensures Proj(Order(Elems(txs)), a) == Proj(txs, a)
  {
    var x := Elems(txs);
    ProjLists(Order(x), x, a);
    ProjMembers(txs, a);
    assert RunnableFor(s, txs, a);
    if Proj(txs, a) != [] {
      ChainSorted(Proj(txs, a), a, s[a].nonce, s[a].balance);
    }
    ListingUnique(Proj(Order(x), a), Proj(txs, a), set t | t in x && t.sender == a);
  }

  /** A pool that holds and indexes some runnable list is well formed. */
  lemma BuiltPoolOk(c: Suite, s: Accounts, p: Pool, txs: seq<Transaction>)
    requires Runnable(s, txs) && Holds(p, txs) && Indexed(s, p, txs)
    requires forall t :: t in txs ==> VerifyTransaction(c, t) && t.nonce < MAX_U64
    ensures PoolOk(c, s, p)
  {
    HoldsValues(p, txs);
    assert p.pending.Values == Elems(txs);
    RunnableDistinct(s, txs);
    forall a: Address
      ensures RunnableFor(s, Order(Elems(txs)), a) && IndexedFor(s, p, Order(Elems(txs)), a)
    {
      OrderKeepsProj(s, txs, a);
      assert RunnableFor(s, txs, a) && IndexedFor(s, p, txs, a);
    }
  }

  lemma SortableHolds(c: Suite, p: Pool)
    requires Sortable(c, p)
    ensures Holds(p, Order(p.pending.Values))
    ensures |Order(p.pending.Values)| == |p.pending|
  {
    ListingSize(Order(p.pending.Values), p.pending.Values);
    ValuesSize(p.pending);
  }

  lemma {:induction false} ValuesSize(pending: map<Hash, Transaction>)
    requires forall h :: h in pending ==> pending[h].hash == h
    ensures |pending.Values| == |pending|
    decreases |pending|
  {
    if pending == map[] {
      assert pending.Values == {};
    } else {
      var h :| h in pending;
      var rest := pending - {h};
      ValuesSize(rest);
      forall t | t in pending.Values ensures t in rest.Values + {pending[h]} {
        var k :| k in pending && pending[k] == t;
        assert k != h ==> k in rest && rest[k] == t;
      }
      assert pending.Values == rest.Values + {pending[h]};
    }
  }

  lemma AppendProj(txs: seq<Transaction>, tx: Transaction, a: Address)
    ensures Proj(txs + [tx], a) == Proj(txs, a) + if tx.sender == a then [tx] else []
    ensures Total(Proj(txs + [tx], a)) == Total(Proj(txs, a)) + if tx.sender == a then tx.amount else 0
  {
    assert (txs + [tx])[..|txs|] == txs;
    ProjStep(txs + [tx], a);
  }

  lemma AppendFor(c: Suite, s: Accounts, p: Pool, txs: seq<Transaction>, tx: Transaction, a: Address)
    requires RunnableFor(s, txs, a) && IndexedFor(s, p, txs, a)
    requires Accepts(c, s, p, tx) && tx.nonce < MAX_U64
    ensures RunnableFor(s, txs + [tx], a) && IndexedFor(s, Add(c, s, p, tx), txs + [tx], a)
  {
    hide VerifyTransaction, Proj, Total, IsChain;
    AppendProj(txs, tx, a);
    if tx.sender == a {
      var run := Proj(txs, a);
      assert a in s;
      assert PendingNonce(s, p, a) == s[a].nonce + |run|;
      if run == [] {
        EmptyChain(s[a].nonce, s[a].balance);
      }
      assert PendingBalance(s, p, a) == s[a].balance - Total(run);
      ChainNext(run, s[a].nonce, s[a].balance, tx);
    } else {
      assert Proj(txs, a) + [] == Proj(txs, a);
    }
  }

  lemma EmptyChain(first: int, funds: nat)
    ensures IsChain([], first, funds) && Total([]) == 0
  {
  }

  lemma ChainNext(run: seq<Transaction>, first: int, funds: int, tx: Transaction)
    requires IsChain(run, first, funds) && tx.nonce == first + |run| && tx.amount <= funds - Total(run)
    ensures IsChain(run + [tx], first, funds) && Total(run + [tx]) == Total(run) + tx.amount
  {
    assert (run + [tx])[..|run|] == run;
  }

  /** The list to which one more accepted transaction is appended stays runnable and indexed. */
  lemma AppendAccepted(c: Suite, s: Accounts, p: Pool, txs: seq<Transaction>, tx: Transaction)
    requires Runnable(s, txs) && Holds(p, txs) && Indexed(s, p, txs)
    requires Accepts(c, s, p, tx) && tx.nonce < MAX_U64
    ensures Runnable(s, txs + [tx]) && Holds(Add(c, s, p, tx), txs + [tx])
    ensures Indexed(s, Add(c, s, p, tx), txs + [tx])
  {
    forall a: Address
      ensures RunnableFor(s, txs + [tx], a) && IndexedFor(s, Add(c, s, p, tx), txs + [tx], a)
    {
      assert RunnableFor(s, txs, a) && IndexedFor(s, p, txs, a);
      AppendFor(c, s, p, txs, tx, a);
    }
  }

  /** addTransaction keeps the pool well formed; what it rejects, whatever its nonce, changes nothing. */
  lemma {:induction false} AddKeepsPoolOk(c: Suite, s: Accounts, p: Pool, tx: Transaction)
    requires PoolOk(c, s, p) && (Accepts(c, s, p, tx) ==> tx.nonce < MAX_U64)
    ensures PoolOk(c, s, Add(c, s, p, tx))
  {
    if Accepts(c, s, p, tx) {
      var txs := Order(p.pending.Values);
      SortableHolds(c, p);
      AppendAccepted(c, s, p, txs, tx);
      BuiltPoolOk(c, s, Add(c, s, p, tx), txs + [tx]);
    }
  }

  /** Exactly when an accepted transaction leaves the two indexes in agreement with the pool: unless it
      carries the last 64-bit nonce, after which the pending nonce wraps to 0. */
  lemma {:induction false} AddKeepsIndexesIff(c: Suite, s: Accounts, p: Pool, tx: Transaction)
    requires PoolOk(c, s, p) && Accepts(c, s, p, tx)
    ensures var q := Add(c, s, p, tx);
            Indexed(s, q, Order(q.pending.Values)) <==> tx.nonce < MAX_U64
  {
    hide Order, VerifyTransaction, PoolOk, Runnable;
    var q := Add(c, s, p, tx);
    if tx.nonce < MAX_U64 {
      AddKeepsPoolOk(c, s, p, tx);
      IndexedOfPoolOk(c, s, q);
    } else {
      assert q.nonces[tx.sender] == 0;
      assert !IndexedFor(s, q, Order(q.pending.Values), tx.sender);
    }
  }

  lemma IndexedOfPoolOk(c: Suite, s: Accounts, p: Pool)
    requires PoolOk(c, s, p)
    ensures Indexed(s, p, Order(p.pending.Values))
  {
    hide Indexed, Sortable, Runnable;
  }

  /** Past that bound selection fails too: after nonce 2^64 - 1 the pool wraps around to nonce 0,
      which sorts first, and the selection no longer applies. */
  lemma {:induction false} WrappedNonceBreaksSelection(c: Suite, s: Accounts, last: Transaction, first: Transaction)
    requires Accepts(c, s, EMPTY, last) && last.nonce == MAX_U64
    requires Accepts(c, s, Add(c, s, EMPTY, last), first) && first.sender == last.sender
    ensures first.nonce == 0
    ensures ApplyAll(s, Selected(Add(c, s, Add(c, s, EMPTY, last), first), 100)) == None
  {
    hide VerifyTransaction;
    var p := Add(c, s, Add(c, s, EMPTY, last), first);
    var txs := [first, last];
    assert p.pending == map[last.hash := last, first.hash := first];
    forall t ensures t in txs <==> t in p.pending.Values {
      assert last.hash in p.pending && first.hash in p.pending;
    }
    OrderIs(p.pending.Values, txs);
    FailedPrefix(s, txs, 1);
  }

  // ---------------------------------------------------------------- revalidation

  /** The transactions that clear-and-re-add keeps. */
  ghost function Keep(c: Suite, s: Accounts, txs: seq<Transaction>): seq<Transaction>
  {
    if txs == [] then []
    else
      var n := |txs| - 1;
      Keep(c, s, txs[..n]) + if Accepts(c, s, AddAll(c, s, EMPTY, txs[..n]), txs[n]) then [txs[n]] else []
  }

  ghost predicate Addable(c: Suite, txs: seq<Transaction>)
  {
    forall t :: t in txs ==> VerifyTransaction(c, t) && t.nonce < MAX_U64
  }

  lemma {:induction false} KeepWithin(c: Suite, s: Accounts, txs: seq<Transaction>)
    ensures forall t :: t in Keep(c, s, txs) ==> t in txs
  {
    if txs != [] {
      KeepWithin(c, s, txs[..|txs| - 1]);
      assert txs == txs[..|txs| - 1] + [txs[|txs| - 1]];
    }
  }

  lemma {:induction false} AddAllBuilds(c: Suite, s: Accounts, txs: seq<Transaction>)
    requires Addable(c, txs)
    ensures var kept, p := Keep(c, s, txs), AddAll(c, s, EMPTY, txs);
            Runnable(s, kept) && Holds(p, kept) && Indexed(s, p, kept)
  {
    if txs == [] {
      assert forall a: Address :: Proj([], a) == [];
    } else {
      var n := |txs| - 1;
      assert txs == txs[..n] + [txs[n]];
      AddAllBuilds(c, s, txs[..n]);
      var p := AddAll(c, s, EMPTY, txs[..n]);
      if Accepts(c, s, p, txs[n]) {
        AppendAccepted(c, s, p, Keep(c, s, txs[..n]), txs[n]);
      } else {
        assert Keep(c, s, txs) == Keep(c, s, txs[..n]);
      }
    }
  }

  /** revalidate establishes a well-formed pool, whatever the new state. */
  lemma {:induction false} RevalidateOk(c: Suite, s: Accounts, p: Pool)
    requires Sortable(c, p) && NoncesBelowMax(p)
    ensures PoolOk(c, s, Revalidated(c, s, p))
    ensures Holds(Revalidated(c, s, p), Keep(c, s, Order(p.pending.Values)))
  {
    var txs := Order(p.pending.Values);
    assert Addable(c, txs);
    AddAllBuilds(c, s, txs);
    KeepWithin(c, s, txs);
    BuiltPoolOk(c, s, Revalidated(c, s, p), Keep(c, s, txs));
  }

  /** Some transaction of the set has this sender and nonce. */
  ghost predicate HasSlot(x: set<Transaction>, a: Address, n: int)
  {
    exists t :: t in x && t.sender == a && t.nonce == n
  }

  ghost function AmountAt(x: set<Transaction>, a: Address, n: int): nat
  {
    if HasSlot(x, a, n) then
      var t :| t in x && t.sender == a && t.nonce == n;
      t.amount
    else 0
  }

  /** The amounts of a sender's `count` transactions with nonces from `first` on. */
  ghost function RunTotal(x: set<Transaction>, a: Address, first: int, count: nat): nat
  {
    if count == 0 then 0 else RunTotal(x, a, first, count - 1) + AmountAt(x, a, first + count - 1)
  }

  /** The longest affordable run: every nonce from the confirmed one up to this transaction's is present,
      and together they cost no more than the confirmed balance. */
  ghost predicate Keepable(s: Accounts, x: set<Transaction>, t: Transaction)
  {
    && t.sender in s
    && s[t.sender].nonce <= t.nonce
    && (forall n :: s[t.sender].nonce <= n <= t.nonce ==> HasSlot(x, t.sender, n))
    && RunTotal(x, t.sender, s[t.sender].nonce, t.nonce - s[t.sender].nonce + 1) <= s[t.sender].balance
  }

  lemma {:induction false} RunTotalGrows(x: set<Transaction>, a: Address, first: int, m: nat, n: nat)
    requires m <= n
    ensures RunTotal(x, a, first, m) <= RunTotal(x, a, first, n)
  {
    if m < n {
      RunTotalGrows(x, a, first, m, n - 1);
    }
  }

  lemma {:induction false} RunTotalOfChain(x: set<Transaction>, a: Address, first: int, run: seq<Transaction>)
    requires DistinctKeys(x)
    requires forall i :: 0 <= i < |run| ==> run[i] in x && run[i].sender == a && run[i].nonce == first + i
    ensures RunTotal(x, a, first, |run|) == Total(run)
    ensures forall n :: first <= n < first + |run| ==> HasSlot(x, a, n)
  {
    if run != [] {
      var k := |run| - 1;
      RunTotalOfChain(x, a, first, run[..k]);
      assert run[k] in x && run[k].sender == a && run[k].nonce == first + k;
      assert HasSlot(x, a, first + k);
    }
  }

  lemma RunNext(x: set<Transaction>, first: int, run: seq<Transaction>, t: Transaction)
    requires DistinctKeys(x) && t in x && t.nonce == first + |run|
    requires RunTotal(x, t.sender, first, |run|) == Total(run)
    ensures HasSlot(x, t.sender, t.nonce)
    ensures RunTotal(x, t.sender, first, |run| + 1) == Total(run) + t.amount
  {
    assert forall u :: u in x && u.sender == t.sender && u.nonce == t.nonce ==> SameKey(u, t);
  }

  /** The situation half-way through re-adding the sorted list `full` of the set `x`. */
  ghost predicate Midway(c: Suite, s: Accounts, x: set<Transaction>, full: seq<Transaction>, i: nat)
  {
    && Lists(full, x) && DistinctKeys(x) && Addable(c, full)
    && (forall t, u :: t in x && u in x && t.hash == u.hash ==> t == u)
    && i < |full|
    && forall k :: 0 <= k < i ==> (full[k] in Keep(c, s, full[..i]) <==> Keepable(s, x, full[k]))
  }

  /** A sender's kept run so far. */
  ghost function KeptRun(c: Suite, s: Accounts, full: seq<Transaction>, i: nat): seq<Transaction>
    requires i < |full|
  {
    Proj(Keep(c, s, full[..i]), full[i].sender)
  }

  /** The kept run consists of earlier, different transactions of the same sender. */
  lemma RunMembers(c: Suite, s: Accounts, x: set<Transaction>, full: seq<Transaction>, i: nat)
    requires Midway(c, s, x, full, i)
    ensures var t, run := full[i], KeptRun(c, s, full, i);
            forall k :: 0 <= k < |run| ==> run[k] in x && run[k].sender == t.sender && run[k] != t
  {
    var t, kept, run := full[i], Keep(c, s, full[..i]), KeptRun(c, s, full, i);
    KeepWithin(c, s, full[..i]);
    ProjMembers(kept, t.sender);
    forall k | 0 <= k < |run| ensures run[k] in x && run[k].sender == t.sender && run[k] != t {
      assert run[k] in run && run[k] in full[..i];
      var m :| 0 <= m < i && full[m] == run[k];
      SortedHasNoRepeats(full, m, i);
    }
  }

  lemma RunNonces(c: Suite, s: Accounts, x: set<Transaction>, full: seq<Transaction>, i: nat)
    requires Midway(c, s, x, full, i) && full[i].sender in s
    ensures var t, run := full[i], KeptRun(c, s, full, i);
            forall k :: 0 <= k < |run| ==> run[k].nonce == s[t.sender].nonce + k
  {
    AddAllBuilds(c, s, full[..i]);
    assert RunnableFor(s, Keep(c, s, full[..i]), full[i].sender);
  }

  /** What the pool built so far says about the next transaction. */
  lemma RunFacts(c: Suite, s: Accounts, x: set<Transaction>, full: seq<Transaction>, i: nat)
    requires Midway(c, s, x, full, i)
    ensures var t, run, p := full[i], KeptRun(c, s, full, i), AddAll(c, s, EMPTY, full[..i]);
            && t in x && t.hash !in p.pending && VerifyTransaction(c, t)
            && (t.sender in s ==>
                  && PendingNonce(s, p, t.sender) == s[t.sender].nonce + |run|
                  && PendingBalance(s, p, t.sender) == s[t.sender].balance - Total(run)
                  && RunTotal(x, t.sender, s[t.sender].nonce, |run|) == Total(run)
                  && forall n :: s[t.sender].nonce <= n < s[t.sender].nonce + |run| ==> HasSlot(x, t.sender, n))
  {
    var t, kept, run, p := full[i], Keep(c, s, full[..i]), KeptRun(c, s, full, i), AddAll(c, s, EMPTY, full[..i]);
    assert t in full;
    AddAllBuilds(c, s, full[..i]);
    KeepWithin(c, s, full[..i]);
    forall u | u in kept ensures u in x && u != t {
      var k :| 0 <= k < i && full[k] == u;
      SortedHasNoRepeats(full, k, i);
    }
    assert IndexedFor(s, p, kept, t.sender);
    if t.sender in s {
      RunMembers(c, s, x, full, i);
      RunNonces(c, s, x, full, i);
      RunTotalOfChain(x, t.sender, s[t.sender].nonce, run);
    }
  }

  lemma AcceptedIsKeepable(c: Suite, s: Accounts, x: set<Transaction>, full: seq<Transaction>, i: nat)
    requires Midway(c, s, x, full, i)
    requires Accepts(c, s, AddAll(c, s, EMPTY, full[..i]), full[i])
    ensures Keepable(s, x, full[i])
  {
    RunFacts(c, s, x, full, i);
    var t, run := full[i], KeptRun(c, s, full, i);
    RunNext(x, s[t.sender].nonce, run, t);
  }

  lemma KeepableEarlier(s: Accounts, x: set<Transaction>, t: Transaction, u: Transaction)
    requires Keepable(s, x, t) && u.sender == t.sender && s[t.sender].nonce <= u.nonce <= t.nonce
    ensures Keepable(s, x, u)
  {
    var first := s[t.sender].nonce;
    RunTotalGrows(x, t.sender, first, u.nonce - first + 1, t.nonce - first + 1);
  }

  /** A keepable transaction's nonce is not beyond the kept run: the run would have gone on. */
  lemma {:induction false} KeepableWithinRun(c: Suite, s: Accounts, x: set<Transaction>, full: seq<Transaction>, i: nat)
    requires Midway(c, s, x, full, i)
    requires Keepable(s, x, full[i])
    ensures full[i].nonce <= s[full[i].sender].nonce + |KeptRun(c, s, full, i)|
  {
    var t, run := full[i], KeptRun(c, s, full, i);
    var first := s[t.sender].nonce;
    if t.nonce > first + |run| {
      assert HasSlot(x, t.sender, first + |run|);
      var u :| u in x && u.sender == t.sender && u.nonce == first + |run|;
      KeepableEarlier(s, x, t, u);
      assert u in full;
      var k :| 0 <= k < |full| && full[k] == u;
      assert k < i;
      ProjMembers(Keep(c, s, full[..i]), t.sender);
      assert u in run;
      RunNonces(c, s, x, full, i);
    }
  }

  lemma NonceNotTaken(x: set<Transaction>, first: int, run: seq<Transaction>, t: Transaction)
    requires DistinctKeys(x) && t in x
    requires forall k :: 0 <= k < |run| ==>
               run[k] in x && run[k].sender == t.sender && run[k] != t && run[k].nonce == first + k
    ensures t.nonce < first || first + |run| <= t.nonce
  {
    if first <= t.nonce < first + |run| {
      assert SameKey(run[t.nonce - first], t);
    }
  }

  /** ... nor inside it: that nonce is taken. */
  lemma {:induction false} KeepableAtRunEnd(c: Suite, s: Accounts, x: set<Transaction>, full: seq<Transaction>, i: nat)
    requires Midway(c, s, x, full, i)
    requires Keepable(s, x, full[i])
    ensures full[i].nonce == s[full[i].sender].nonce + |KeptRun(c, s, full, i)|
  {
    KeepableWithinRun(c, s, x, full, i);
    RunMembers(c, s, x, full, i);
    RunNonces(c, s, x, full, i);
    assert full[i] in full;
    NonceNotTaken(x, s[full[i].sender].nonce, KeptRun(c, s, full, i), full[i]);
  }

  lemma NextIsAccepted(c: Suite, s: Accounts, p: Pool, x: set<Transaction>, run: seq<Transaction>, t: Transaction)
    requires VerifyTransaction(c, t) && t.hash !in p.pending
    requires DistinctKeys(x) && t in x && Keepable(s, x, t)
    requires t.nonce == s[t.sender].nonce + |run| == PendingNonce(s, p, t.sender)
    requires PendingBalance(s, p, t.sender) == s[t.sender].balance - Total(run)
    requires RunTotal(x, t.sender, s[t.sender].nonce, |run|) == Total(run)
    ensures Accepts(c, s, p, t)
  {
    RunNext(x, s[t.sender].nonce, run, t);
  }

  lemma {:induction false} KeepableIsAccepted(c: Suite, s: Accounts, x: set<Transaction>, full: seq<Transaction>,
                                              i: nat)
    requires Midway(c, s, x, full, i)
    requires Keepable(s, x, full[i])
    ensures Accepts(c, s, AddAll(c, s, EMPTY, full[..i]), full[i])
  {
    KeepableAtRunEnd(c, s, x, full, i);
    RunFacts(c, s, x, full, i);
    NextIsAccepted(c, s, AddAll(c, s, EMPTY, full[..i]), x, KeptRun(c, s, full, i), full[i]);
  }

  lemma {:induction false} KeepExact(c: Suite, s: Accounts, x: set<Transaction>, full: seq<Transaction>, i: nat)
    requires Lists(full, x) && DistinctKeys(x) && Addable(c, full) && i <= |full|
    requires forall t, u :: t in x && u in x && t.hash == u.hash ==> t == u
    ensures forall k :: 0 <= k < i ==> (full[k] in Keep(c, s, full[..i]) <==> Keepable(s, x, full[k]))
    decreases i
  {
    if i > 0 {
      var j := i - 1;
      KeepExact(c, s, x, full, j);
      assert full[..i][..j] == full[..j];
      if Accepts(c, s, AddAll(c, s, EMPTY, full[..j]), full[j]) {
        AcceptedIsKeepable(c, s, x, full, j);
      } else if Keepable(s, x, full[j]) {
        KeepableIsAccepted(c, s, x, full, j);
      }
      forall k | 0 <= k < j ensures full[k] != full[j] {
        SortedHasNoRepeats(full, k, j);
      }
      KeepWithin(c, s, full[..j]);
      assert full[j] !in Keep(c, s, full[..j]);
    }
  }

  /** revalidate is exact: it keeps, per sender, precisely the longest run of consecutive nonces from the
      confirmed nonce whose running total fits the confirmed balance. */
  lemma RevalidateExact(c: Suite, s: Accounts, p: Pool, h: Hash)
    requires Sortable(c, p) && NoncesBelowMax(p)
    ensures h in Revalidated(c, s, p).pending <==>
              h in p.pending && Keepable(s, p.pending.Values, p.pending[h])
    ensures h in Revalidated(c, s, p).pending ==> Revalidated(c, s, p).pending[h] == p.pending[h]
  {
    RevalidateOk(c, s, p);
    KeepWithin(c, s, Order(p.pending.Values));
    if h in p.pending {
      KeptIffKeepable(c, s, p, p.pending[h]);
    }
  }

  lemma {:induction false} KeptIffKeepable(c: Suite, s: Accounts, p: Pool, t: Transaction)
    requires Sortable(c, p) && NoncesBelowMax(p) && t in p.pending.Values
    ensures t in Keep(c, s, Order(p.pending.Values)) <==> Keepable(s, p.pending.Values, t)
  {
    var full := Order(p.pending.Values);
    assert Addable(c, full);
    KeepExact(c, s, p.pending.Values, full, |full|);
    assert full[..|full|] == full;
    assert t in full;
  }

  // ---------------------------------------------------------------- runnable lists apply

  lemma RunnableSplit(s: Accounts, xs: seq<Transaction>, ys: seq<Transaction>)
    requires Runnable(s, xs + ys)
    ensures Runnable(s, xs)
  {
    forall a: Address ensures RunnableFor(s, xs, a) {
      assert RunnableFor(s, xs + ys, a);
      ProjConcat(xs, ys, a);
      TotalConcat(Proj(xs, a), Proj(ys, a));
      if Proj(xs, a) != [] {
        ChainSplit(Proj(xs, a), Proj(ys, a), s[a].nonce, s[a].balance);
      }
    }
  }

  lemma {:induction false} ChainSplit(xs: seq<Transaction>, ys: seq<Transaction>, first: int, funds: int)
    requires IsChain(xs + ys, first, funds)
    ensures IsChain(xs, first, funds) && IsChain(ys, first + |xs|, funds - Total(xs))
  {
    TotalConcat(xs, ys);
    forall i | 0 <= i < |xs| ensures xs[i].nonce == first + i {
      assert (xs + ys)[i] == xs[i];
    }
    forall i | 0 <= i < |ys| ensures ys[i].nonce == first + |xs| + i {
      assert (xs + ys)[|xs| + i] == ys[i];
    }
  }

  /** Runnable transactions apply, whatever the order between senders. */
  lemma {:induction false} RunnableApplies(s: Accounts, txs: seq<Transaction>)
    requires Supply(s) <= MAX_U64 && Runnable(s, txs)
    ensures ApplyAll(s, txs).Some?
  {
    if txs != [] {
      var n := |txs| - 1;
      assert txs == txs[..n] + [txs[n]];
      RunnableSplit(s, txs[..n], [txs[n]]);
      RunnableApplies(s, txs[..n]);
      RunnableNext(s, txs[..n], txs[n]);
    }
  }

  lemma RunnableNext(s: Accounts, txs: seq<Transaction>, tx: Transaction)
    requires Supply(s) <= MAX_U64 && Runnable(s, txs + [tx]) && ApplyAll(s, txs).Some?
    ensures ValidateTransaction(ApplyAll(s, txs).value, tx)
  {
    var a := tx.sender;
    assert RunnableFor(s, txs + [tx], a);
    AppendProj(txs, tx, a);
    assert tx == (Proj(txs, a) + [tx])[|Proj(txs, a)|];
    BlockFlows(s, txs, a);
    BlockNonces(s, txs, a);
    CountedNoWrap(s[a].nonce, |Proj(txs, a)|);
  }

  /** After the first part has been applied, the rest is runnable on the new state. */
  lemma RunnableRest(s: Accounts, xs: seq<Transaction>, ys: seq<Transaction>)
    requires Supply(s) <= MAX_U64 && Runnable(s, xs + ys) && ApplyAll(s, xs).Some?
    ensures Runnable(ApplyAll(s, xs).value, ys)
  {
    var after := ApplyAll(s, xs).value;
    forall a: Address ensures RunnableFor(after, ys, a) {
      assert RunnableFor(s, xs + ys, a);
      ProjConcat(xs, ys, a);
      if Proj(ys, a) != [] {
        var p, q := Proj(xs, a), Proj(ys, a);
        ChainSplit(p, q, s[a].nonce, s[a].balance);
        BlockFlows(s, xs, a);
        BlockNonces(s, xs, a);
        assert q[0].nonce == s[a].nonce + |p|;
        CountedNoWrap(s[a].nonce, |p|);
      }
    }
  }

  ghost predicate DistinctHashes(txs: seq<Transaction>)
  {
    forall i, j :: 0 <= i < j < |txs| ==> txs[i].hash != txs[j].hash
  }

  /** Re-adding a runnable list drops nothing. */
  lemma {:induction false} RunnableAllKept(c: Suite, s: Accounts, txs: seq<Transaction>)
    requires Runnable(s, txs) && Addable(c, txs) && DistinctHashes(txs)
    ensures Keep(c, s, txs) == txs
  {
    if txs != [] {
      var n := |txs| - 1;
      assert txs == txs[..n] + [txs[n]];
      RunnableSplit(s, txs[..n], [txs[n]]);
      RunnableAllKept(c, s, txs[..n]);
      AddAllBuilds(c, s, txs[..n]);
      NextKept(c, s, AddAll(c, s, EMPTY, txs[..n]), txs[..n], txs[n]);
    }
  }

  lemma NextKept(c: Suite, s: Accounts, p: Pool, txs: seq<Transaction>, tx: Transaction)
    requires Runnable(s, txs + [tx]) && Holds(p, txs) && Indexed(s, p, txs)
    requires VerifyTransaction(c, tx) && DistinctHashes(txs + [tx])
    ensures Accepts(c, s, p, tx)
  {
    var a := tx.sender;
    assert RunnableFor(s, txs + [tx], a) && IndexedFor(s, p, txs, a);
    AppendProj(txs, tx, a);
    assert tx == (Proj(txs, a) + [tx])[|Proj(txs, a)|];
    forall i | 0 <= i < |txs| ensures txs[i].hash != tx.hash {
      assert (txs + [tx])[i].hash != (txs + [tx])[|txs|].hash;
    }
  }

  /** A pool is determined by the list it holds and indexes. */
  lemma SamePool(s: Accounts, p: Pool, q: Pool, txs: seq<Transaction>)
    requires Holds(p, txs) && Indexed(s, p, txs)
    requires Holds(q, txs) && Indexed(s, q, txs)
    ensures p == q
  {
    assert p.pending == q.pending;
    forall a: Address
      ensures a in p.nonces <==> a in q.nonces
      ensures a in p.balances <==> a in q.balances
      ensures a in p.nonces ==> p.nonces[a] == q.nonces[a]
      ensures a in p.balances ==> p.balances[a] == q.balances[a]
    {
      assert IndexedFor(s, p, txs, a) && IndexedFor(s, q, txs, a);
    }
    assert p.nonces == q.nonces && p.balances == q.balances;
  }

  lemma OrderHashes(c: Suite, p: Pool)
    requires Sortable(c, p)
    ensures DistinctHashes(Order(p.pending.Values))
  {
    var txs := Order(p.pending.Values);
    forall i, j | 0 <= i < j < |txs| ensures txs[i].hash != txs[j].hash {
      assert txs[i] in txs && txs[j] in txs;
      SortedHasNoRepeats(txs, i, j);
    }
  }

  /** On a well-formed pool revalidate changes nothing at all; so a second call drops none. */
  lemma RevalidateFixpoint(c: Suite, s: Accounts, p: Pool)
    requires PoolOk(c, s, p)
    ensures Revalidated(c, s, p) == p
  {
    var txs := Order(p.pending.Values);
    SortableHolds(c, p);
    OrderHashes(c, p);
    assert Addable(c, txs);
    RunnableAllKept(c, s, txs);
    AddAllBuilds(c, s, txs);
    SamePool(s, Revalidated(c, s, p), p, txs);
  }

  /** Selection applies to confirmed state, for any bound. */
  lemma SelectionApplies(c: Suite, s: Accounts, p: Pool, maxCount: nat)
    requires PoolOk(c, s, p) && Supply(s) <= MAX_U64
    ensures ApplyAll(s, Selected(p, maxCount)).Some?
    ensures forall t :: t in Selected(p, maxCount) ==> VerifyTransaction(c, t)
  {
    var all := Order(p.pending.Values);
    var k := |Selected(p, maxCount)|;
    assert all == Selected(p, maxCount) + all[k..];
    RunnableSplit(s, Selected(p, maxCount), all[k..]);
    RunnableApplies(s, Selected(p, maxCount));
    forall t | t in Selected(p, maxCount) ensures VerifyTransaction(c, t) {
      assert t in all;
    }
  }

  /** The pooled transactions that a block did not take. */
  ghost function Unselected(p: Pool, maxCount: nat): seq<Transaction>
  {
    Order(p.pending.Values)[|Selected(p, maxCount)|..]
  }

  lemma RemovePrefix(p: Pool, xs: seq<Transaction>, ys: seq<Transaction>)
    requires Holds(p, xs + ys) && DistinctHashes(xs + ys)
    ensures Holds(Remove(p, xs), ys)
  {
    var all := xs + ys;
    var left := Remove(p, xs).pending;
    forall t | t in ys ensures t.hash in left && left[t.hash] == t {
      var j :| 0 <= j < |ys| && ys[j] == t;
      assert all[|xs| + j] == t;
      forall i | 0 <= i < |xs| ensures xs[i].hash != t.hash {
        assert all[i].hash != all[|xs| + j].hash;
      }
      assert t in all;
    }
    forall h | h in left ensures left[h] in ys {
      assert p.pending[h] in all;
      assert forall i :: 0 <= i < |xs| ==> xs[i].hash != h;
    }
  }

  lemma SuffixSorted(xs: seq<Transaction>, ys: seq<Transaction>)
    requires Sorted(xs + ys)
    ensures Sorted(ys)
  {
    forall i, j | 0 <= i < j < |ys| ensures KeyLess(ys[i], ys[j]) {
      assert ys[i] == (xs + ys)[|xs| + i] && ys[j] == (xs + ys)[|xs| + j];
    }
  }

  lemma RemoveKeepsSortable(c: Suite, p: Pool, txs: seq<Transaction>)
    requires Sortable(c, p)
    ensures Sortable(c, Remove(p, txs))
    ensures NoncesBelowMax(p) ==> NoncesBelowMax(Remove(p, txs))
  {
  }

  lemma RemoveFirst(c: Suite, p: Pool, xs: seq<Transaction>, ys: seq<Transaction>)
    requires Sortable(c, p) && Order(p.pending.Values) == xs + ys
    ensures Sortable(c, Remove(p, xs)) && Holds(Remove(p, xs), ys)
    ensures Order(Remove(p, xs).pending.Values) == ys
  {
    OrderHashes(c, p);
    SortableHolds(c, p);
    RemovePrefix(p, xs, ys);
    RemoveKeepsSortable(c, p, xs);
    HoldsValues(Remove(p, xs), ys);
    SuffixSorted(xs, ys);
    OrderIs(Remove(p, xs).pending.Values, ys);
  }

  lemma RemoveSelected(c: Suite, s: Accounts, p: Pool, maxCount: nat)
    requires PoolOk(c, s, p)
    ensures var sel, rest := Selected(p, maxCount), Unselected(p, maxCount);
            && Order(p.pending.Values) == sel + rest
            && Sortable(c, Remove(p, sel))
            && Holds(Remove(p, sel), rest)
            && Order(Remove(p, sel).pending.Values) == rest
            && Addable(c, rest)
  {
    var sel, rest := Selected(p, maxCount), Unselected(p, maxCount);
    assert Order(p.pending.Values) == sel + rest;
    RemoveFirst(c, p, sel, rest);
    forall t | t in rest ensures VerifyTransaction(c, t) && t.nonce < MAX_U64 {
      assert t in sel + rest;
    }
  }

  /** Producing from one's own pool evicts nothing: afterwards the pool is exactly the unselected suffix,
      pending nonces of senders with leftovers are unchanged and their pending balances grow by exactly
      what the block credited them. */
  lemma OwnBlockEvictsNothing(c: Suite, s: Accounts, p: Pool, maxCount: nat)
    requires PoolOk(c, s, p) && Supply(s) <= MAX_U64
    ensures var sel, rest := Selected(p, maxCount), Unselected(p, maxCount);
            ApplyAll(s, sel).Some? && Sortable(c, Remove(p, sel)) &&
            var q := Revalidated(c, ApplyAll(s, sel).value, Remove(p, sel));
            && PoolOk(c, ApplyAll(s, sel).value, q)
            && q.pending == Remove(p, sel).pending
            && Order(q.pending.Values) == rest
            && |q.pending| == |p.pending| - |sel|
            && forall a: Address :: Carried(p, q, sel, rest, a)
  {
    var sel, rest := Selected(p, maxCount), Unselected(p, maxCount);
    SelectionApplies(c, s, p, maxCount);
    RemoveSelected(c, s, p, maxCount);
    var after := ApplyAll(s, sel).value;
    var q := Revalidated(c, after, Remove(p, sel));
    RunnableRest(s, sel, rest);
    OrderHashes(c, Remove(p, sel));
    RunnableAllKept(c, after, rest);
    AddAllBuilds(c, after, rest);
    BuiltPoolOk(c, after, q, rest);
    SameHolding(q, Remove(p, sel), rest);
    SortableHolds(c, q);
    SortableHolds(c, p);
    forall a: Address ensures Carried(p, q, sel, rest, a) {
      LeftoverIndex(c, s, after, p, q, sel, rest, a);
    }
  }

  lemma SameHolding(p: Pool, q: Pool, txs: seq<Transaction>)
    requires Holds(p, txs) && Holds(q, txs)
    ensures p.pending == q.pending
  {
  }

  /** How a block `sel` moves a sender's index entries when `rest` stays behind. */
  ghost predicate Carried(p: Pool, q: Pool, sel: seq<Transaction>, rest: seq<Transaction>, a: Address)
  {
    && (a in q.nonces <==> Proj(rest, a) != [])
    && (a in q.nonces ==>
          && a in p.nonces && q.nonces[a] == p.nonces[a]
          && a in q.balances && a in p.balances && q.balances[a] == p.balances[a] + Received(sel, a))
  }

  lemma LeftoverIndex(c: Suite, s: Accounts, after: Accounts, p: Pool, q: Pool,
                      sel: seq<Transaction>, rest: seq<Transaction>, a: Address)
    requires Supply(s) <= MAX_U64 && Runnable(s, sel + rest) && ApplyAll(s, sel) == Some(after)
    requires Indexed(s, p, sel + rest) && Indexed(after, q, rest)
    ensures Carried(p, q, sel, rest, a)
  {
    assert RunnableFor(s, sel + rest, a) && IndexedFor(s, p, sel + rest, a) && IndexedFor(after, q, rest, a);
    if Proj(rest, a) != [] {
      ProjConcat(sel, rest, a);
      ChainSplit(Proj(sel, a), Proj(rest, a), s[a].nonce, s[a].balance);
      TotalConcat(Proj(sel, a), Proj(rest, a));
      BlockFlows(s, sel, a);
      BlockNonces(s, sel, a);
      assert Proj(rest, a)[0].nonce == s[a].nonce + |Proj(sel, a)|;
      CountedNoWrap(s[a].nonce, |Proj(sel, a)|);
    }
  }

  /** Slots of a chain: exactly its nonces. */
  lemma ChainSlots(x: set<Transaction>, a: Address, first: int, run: seq<Transaction>, n: int)
    requires forall t :: t in run <==> t in x && t.sender == a
    requires forall i :: 0 <= i < |run| ==> run[i].nonce == first + i
    ensures HasSlot(x, a, n) <==> first <= n < first + |run|
  {
    if first <= n < first + |run| {
      assert run[n - first] in run;
    }
    if HasSlot(x, a, n) {
      var t :| t in x && t.sender == a && t.nonce == n;
      assert t in run;
    }
  }

  /** Index agreement, in the pool's own terms: a sender's pooled nonces are exactly those from the
      confirmed nonce up to (not including) the pending one, pooled amounts and pending balance add up to
      the confirmed balance, and index entries exist exactly for senders with pooled transactions. */
  lemma IndexAgreement(c: Suite, s: Accounts, p: Pool, a: Address, n: int)
    requires PoolOk(c, s, p)
    ensures HasSlot(p.pending.Values, a, n) <==> NonceOf(s, a) <= n < PendingNonce(s, p, a)
    ensures NonceOf(s, a) <= PendingNonce(s, p, a)
    ensures RunTotal(p.pending.Values, a, NonceOf(s, a), PendingNonce(s, p, a) - NonceOf(s, a))
            + PendingBalance(s, p, a) == BalanceOf(s, a)
    ensures a in p.nonces <==> exists t :: t in p.pending.Values && t.sender == a
    ensures a in p.balances <==> a in p.nonces
  {
    hide VerifyTransaction, AmountAt;
    var x := p.pending.Values;
    var run := Proj(Order(x), a);
    assert RunnableFor(s, Order(x), a) && IndexedFor(s, p, Order(x), a);
    ProjMembers(Order(x), a);
    forall i | 0 <= i < |run| ensures run[i] in x && run[i].sender == a && run[i].nonce == NonceOf(s, a) + i {
      assert run[i] in run;
    }
    RunTotalOfChain(x, a, NonceOf(s, a), run);
    ChainSlots(x, a, NonceOf(s, a), run, n);
    if run != [] {
      assert run[0] in x;
    }
  }

  /** What a selection is, spelled out: it has the size asked for and comes from the pool ... */
  lemma {:induction false} SelectionFromPool(c: Suite, p: Pool, maxCount: nat, i: nat)
    requires Sortable(c, p)
    ensures |Selected(p, maxCount)| == if |p.pending| > maxCount then maxCount else |p.pending|
    ensures i < |Selected(p, maxCount)| ==>
              var t := Selected(p, maxCount)[i];
              t.hash in p.pending && p.pending[t.hash] == t
  {
    hide VerifyTransaction, KeyLess, DistinctKeys;
    SortableHolds(c, p);
    if i < |Selected(p, maxCount)| {
      assert Selected(p, maxCount)[i] in Order(p.pending.Values);
    }
  }

  /** ... in order of sender address and then nonce, without repeats ... */
  lemma {:induction false} SelectionInOrder(c: Suite, p: Pool, maxCount: nat, i: nat, j: nat)
    requires Sortable(c, p) && i < j < |Selected(p, maxCount)|
    ensures var t, u := Selected(p, maxCount)[i], Selected(p, maxCount)[j];
            t != u && (LexLess(t.sender, u.sender) || (t.sender == u.sender && t.nonce < u.nonce))
  {
    hide VerifyTransaction, LexLess;
    var all := Order(p.pending.Values);
    SortableHolds(c, p);
    SortedHasNoRepeats(all, i, j);
    assert KeyLess(all[i], all[j]);
  }

  /** ... and everything it leaves comes after everything it takes. */
  lemma {:induction false} SelectionIsFirst(c: Suite, p: Pool, maxCount: nat, i: nat, h: Hash)
    requires Sortable(c, p) && i < |Selected(p, maxCount)|
    requires h in p.pending && p.pending[h] !in Selected(p, maxCount)
    ensures var t, u := Selected(p, maxCount)[i], p.pending[h];
            LexLess(t.sender, u.sender) || (t.sender == u.sender && t.nonce < u.nonce)
  {
    hide VerifyTransaction, LexLess;
    var all, txs := Order(p.pending.Values), Selected(p, maxCount);
    SortableHolds(c, p);
    assert forall k :: 0 <= k < |txs| ==> all[k] == txs[k] && all[k] in txs;
    assert p.pending[h] in all;
    var j :| 0 <= j < |all| && all[j] == p.pending[h];
    assert KeyLess(all[i], all[j]);
  }

  // ---------------------------------------------------------------- the pool object

  ghost predicate DrawnFrom(p: Pool, txs: seq<Transaction>)
  {
    forall h :: h in p.pending ==> p.pending[h].hash == h && p.pending[h] in txs
  }

  lemma {:induction false} AddAllWithin(c: Suite, s: Accounts, txs: seq<Transaction>)
    ensures DrawnFrom(AddAll(c, s, EMPTY, txs), txs)
  {
    if txs != [] {
      var n := |txs| - 1;
      AddAllWithin(c, s, txs[..n]);
      assert txs == txs[..n] + [txs[n]];
    }
  }

  /** revalidate never grows the pool. */
  lemma {:induction false} RevalidateShrinks(c: Suite, s: Accounts, p: Pool)
    requires Sortable(c, p)
    ensures Revalidated(c, s, p).pending.Keys <= p.pending.Keys
    ensures |Revalidated(c, s, p).pending| <= |p.pending|
  {
    AddAllWithin(c, s, Order(p.pending.Values));
    var kept, all := Revalidated(c, s, p).pending.Keys, p.pending.Keys;
    forall h | h in kept ensures h in all {
      var t := Revalidated(c, s, p).pending[h];
      assert t in Order(p.pending.Values);
      assert t in p.pending.Values;
    }
    assert all == kept + (all - kept);
  }

  class Mempool {
    const crypto: Suite
    const state: StateManager
    var pending: map<Hash, Transaction>
    var pendingNonces: map<Address, U64>
    var pendingBalances: map<Address, U64>

    function View(): Pool
      reads this
    {
      Pool(pending, pendingNonces, pendingBalances)
    }

    constructor (crypto: Suite, state: StateManager)
      ensures View() == EMPTY && this.crypto == crypto && this.state == state
    {
      this.crypto := crypto;
      this.state := state;
      pending, pendingNonces, pendingBalances := map[], map[], map[];
    }

    method AddTransaction(tx: Transaction) returns (ok: bool)
      modifies this
      ensures ok <==> Accepts(crypto, state.accounts, old(View()), tx)
      ensures View() == Add(crypto, state.accounts, old(View()), tx)
    {
      if !VerifyTransaction(crypto, tx) || tx.hash in pending || tx.sender !in state.accounts {
        return false;
      }
      var expected := if tx.sender in pendingNonces then pendingNonces[tx.sender]
                      else NonceOf(state.accounts, tx.sender);
      var available := if tx.sender in pendingBalances then pendingBalances[tx.sender]
                       else BalanceOf(state.accounts, tx.sender);
      if tx.nonce != expected || available < tx.amount {
        return false;
      }
      pendingNonces := pendingNonces[tx.sender := Plus(tx.nonce, 1)];
      pendingBalances := pendingBalances[tx.sender := available - tx.amount];
      pending := pending[tx.hash := tx];
      return true;
    }

    /** Iterating over the hash map: some order, not determined. */
    method Enumerate() returns (txs: seq<Transaction>)
      requires forall h :: h in pending ==> pending[h].hash == h
      ensures Elems(txs) == pending.Values
      ensures forall i, j :: 0 <= i < j < |txs| ==> txs[i] != txs[j]
      ensures |txs| == |pending|
    {
      txs := [];
      var rest := pending.Keys;
      while rest != {}
        invariant rest <= pending.Keys
        invariant forall t :: t in txs <==> t.hash in pending && t.hash !in rest && pending[t.hash] == t
        invariant forall i, j :: 0 <= i < j < |txs| ==> txs[i] != txs[j]
        invariant |txs| + |rest| == |pending|
        decreases rest
      {
        var h :| h in rest;
        rest := rest - {h};
        assert pending[h] !in txs;
        txs := txs + [pending[h]];
      }
    }

    /** The first transactions by sender address, byte by byte, and then by nonce. */
    method GetTransactionsForBlock(maxCount: nat) returns (txs: seq<Transaction>)
      requires Sortable(crypto, View())
      ensures txs == Selected(View(), maxCount)
      ensures |txs| == if |pending| > maxCount then maxCount else |pending|
      ensures forall i :: 0 <= i < |txs| ==> txs[i].hash in pending && pending[txs[i].hash] == txs[i]
      ensures forall i, j :: 0 <= i < j < |txs| ==>
                txs[i] != txs[j]
                && (LexLess(txs[i].sender, txs[j].sender)
                    || (txs[i].sender == txs[j].sender && txs[i].nonce < txs[j].nonce))
      ensures forall i, h :: 0 <= i < |txs| && h in pending && pending[h] !in txs ==>
                LexLess(txs[i].sender, pending[h].sender)
                || (txs[i].sender == pending[h].sender && txs[i].nonce < pending[h].nonce)
    {
      hide VerifyTransaction, LexLess;
      txs := Enumerate();
      txs := SortByKey(txs);
      if |txs| > maxCount {
        txs := txs[..maxCount];
      }
      SelectionFromPool(crypto, View(), maxCount, 0);
      forall i | 0 <= i < |txs| ensures txs[i].hash in pending && pending[txs[i].hash] == txs[i] {
        SelectionFromPool(crypto, View(), maxCount, i);
      }
      forall i, j | 0 <= i < j < |txs|
        ensures txs[i] != txs[j]
        ensures LexLess(txs[i].sender, txs[j].sender)
                || (txs[i].sender == txs[j].sender && txs[i].nonce < txs[j].nonce)
      {
        SelectionInOrder(crypto, View(), maxCount, i, j);
      }
      forall i, h | 0 <= i < |txs| && h in pending && pending[h] !in txs
        ensures LexLess(txs[i].sender, pending[h].sender)
                || (txs[i].sender == pending[h].sender && txs[i].nonce < pending[h].nonce)
      {
        SelectionIsFirst(crypto, View(), maxCount, i, h);
      }
    }

    method RemoveMinedTransactions(txs: seq<Transaction>)
      modifies this
      ensures View() == Remove(old(View()), txs)
    {
      for i := 0 to |txs|
        invariant View() == Remove(old(View()), txs[..i])
      {
        assert txs[..i + 1] == txs[..i] + [txs[i]];
        pending := pending - {txs[i].hash};
      }
      assert txs[..|txs|] == txs;
    }

    method Revalidate() returns (evicted: nat)
      requires Sortable(crypto, View())
      modifies this
      ensures View() == Revalidated(crypto, state.accounts, old(View()))
      ensures evicted == |old(pending)| - |pending|
    {
      ghost var before := View();
      var saved := Enumerate();
      var beforeCount := |saved|;
      pending, pendingNonces, pendingBalances := map[], map[], map[];
      saved := SortByKey(saved);
      for i := 0 to |saved|
        invariant View() == AddAll(crypto, state.accounts, EMPTY, saved[..i])
      {
        assert saved[..i + 1][..i] == saved[..i];
        var _ := AddTransaction(saved[i]);
      }
      assert saved[..|saved|] == saved;
      RevalidateShrinks(crypto, state.accounts, before);
      evicted := beforeCount - |pending|;
    }
  }
}

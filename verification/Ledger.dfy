/** Accounts, transfers and block application (src/core/state.cpp). */
module Ledger {
  import opened Common
  import opened Records

  datatype Account = Account(balance: U64, nonce: U64)

  type Accounts = map<Address, Account>

  function BalanceOf(s: Accounts, a: Address): U64
  {
    if a in s then s[a].balance else 0
  }

  function NonceOf(s: Accounts, a: Address): U64
  {
    if a in s then s[a].nonce else 0
  }

  function GenesisAccounts(allocations: map<Address, U64>): Accounts
  {
    map a | a in allocations :: Account(allocations[a], 0)
  }

  predicate ValidateTransaction(s: Accounts, tx: Transaction)
  {
    && tx.sender in s
    && s[tx.sender].balance >= tx.amount
    && tx.nonce == s[tx.sender].nonce
  }

  /** Debit the sender, then credit the recipient, who may be the sender or a new account. */
  function Transfer(s: Accounts, tx: Transaction): Accounts
    requires ValidateTransaction(s, tx)
  {
    var debited := s[tx.sender := Account(s[tx.sender].balance - tx.amount, Plus(s[tx.sender].nonce, 1))];
    debited[tx.recipient :=
      Account(Plus(BalanceOf(debited, tx.recipient), tx.amount), NonceOf(debited, tx.recipient))]
  }

  function ApplyAll(s: Accounts, txs: seq<Transaction>): Option<Accounts>
  {
    if txs == [] then Some(s)
    else
      var before := ApplyAll(s, txs[..|txs| - 1]);
      var tx := txs[|txs| - 1];
      if before.Some? && ValidateTransaction(before.value, tx) then Some(Transfer(before.value, tx)) else None
  }

  /** What applyBlock leaves behind: the new state, or the old one if some transaction fails. */
  function ApplyOrKeep(s: Accounts, txs: seq<Transaction>): Accounts
  {
    var after := ApplyAll(s, txs);
    if after.Some? then after.value else s
  }

  /** The state a chain determines. Genesis carries no transactions; failing blocks change nothing. */
  function Replay(s: Accounts, chain: seq<Block>): Accounts
  {
    if |chain| <= 1 then s
    else ApplyOrKeep(Replay(s, chain[..|chain| - 1]), chain[|chain| - 1].transactions)
  }

  /** Every block of the chain applies. */
  ghost predicate AllApply(s: Accounts, chain: seq<Block>)
  {
    forall k :: 1 <= k < |chain| ==> ApplyAll(Replay(s, chain[..k]), chain[k].transactions).Some?
  }

  class StateManager {
    var accounts: Accounts

    /** Every allocated address starts with its allocation and nonce 0, and there is no other account. */
    constructor (allocations: map<Address, U64>)
      ensures accounts == GenesisAccounts(allocations)
      ensures forall a: Address :: a in accounts <==> a in allocations
      ensures forall a: Address :: BalanceOf(accounts, a) == if a in allocations then allocations[a] else 0
      ensures forall a: Address :: NonceOf(accounts, a) == 0
    {
      var built: Accounts := map[];
      var rest := allocations.Keys;
      while rest != {}
        invariant rest <= allocations.Keys
        invariant built == map a | a in allocations && a !in rest :: Account(allocations[a], 0)
        decreases rest
      {
        var a :| a in rest;
        built := built[a := Account(allocations[a], 0)];
        rest := rest - {a};
      }
      accounts := built;
    }

    method ApplyBlock(block: Block) returns (ok: bool)
      modifies this
      ensures ok <==> ApplyAll(old(accounts), block.transactions).Some?
      ensures accounts == ApplyOrKeep(old(accounts), block.transactions)
    {
      var txs := block.transactions;
      var newState := accounts;
      for i := 0 to |txs|
        invariant accounts == old(accounts)
        invariant ApplyAll(accounts, txs[..i]) == Some(newState)
      {
        var tx := txs[i];
        assert txs[..i + 1][..i] == txs[..i];
        if tx.sender !in newState || newState[tx.sender].balance < tx.amount
           || tx.nonce != newState[tx.sender].nonce
        {
          FailedPrefix(accounts, txs, i + 1);
          return false;
        }
        var sender := newState[tx.sender];
        newState := newState[tx.sender := Account(sender.balance - tx.amount, Plus(sender.nonce, 1))];
        var credited := BalanceOf(newState, tx.recipient);
        newState := newState[tx.recipient :=
          Account(Plus(credited, tx.amount), NonceOf(newState, tx.recipient))];
      }
      assert txs[..|txs|] == txs;
      accounts := newState;
      return true;
    }
  }

  /** A failing prefix makes the whole block fail. */
  lemma {:induction false} FailedPrefix(s: Accounts, txs: seq<Transaction>, k: nat)
    requires k <= |txs| && ApplyAll(s, txs[..k]) == None
    ensures ApplyAll(s, txs) == None
    decreases |txs|
  {
    if k == |txs| {
      assert txs[..k] == txs;
    } else {
      assert txs[..|txs| - 1][..k] == txs[..k];
      FailedPrefix(s, txs[..|txs| - 1], k);
    }
  }

  ghost predicate ValidatesAt(s: Accounts, txs: seq<Transaction>, i: nat)
    requires i < |txs|
  {
    ApplyAll(s, txs[..i]).Some? && ValidateTransaction(ApplyAll(s, txs[..i]).value, txs[i])
  }

  /** applyBlock succeeds exactly when each transaction validates on the evolving state. */
  lemma {:induction false} AppliesIffEachValidates(s: Accounts, txs: seq<Transaction>)
    ensures ApplyAll(s, txs).Some? <==> forall i :: 0 <= i < |txs| ==> ValidatesAt(s, txs, i)
  {
    if txs != [] {
      var n := |txs| - 1;
      AppliesIffEachValidates(s, txs[..n]);
      forall i | 0 <= i < n ensures ValidatesAt(s, txs[..n], i) <==> ValidatesAt(s, txs, i) {
        assert txs[..n][..i] == txs[..i];
      }
      assert ApplyAll(s, txs).Some? <==> ValidatesAt(s, txs, n);
    }
  }

  // ---------------------------------------------------------------- flows per account

  /** The transactions of one sender, in order. */
  function Proj(txs: seq<Transaction>, a: Address): seq<Transaction>
  {
    if txs == [] then []
    else
      var tx := txs[|txs| - 1];
      Proj(txs[..|txs| - 1], a) + if tx.sender == a then [tx] else []
  }

  function Total(txs: seq<Transaction>): nat
  {
    if txs == [] then 0 else Total(txs[..|txs| - 1]) + txs[|txs| - 1].amount
  }

  function Received(txs: seq<Transaction>, a: Address): nat
  {
    if txs == [] then 0
    else
      var tx := txs[|txs| - 1];
      Received(txs[..|txs| - 1], a) + if tx.recipient == a then tx.amount else 0
  }

  /** Total supply. */
  ghost function Supply(s: Accounts): nat
  {
    if s == map[] then 0
    else
      var a :| a in s;
      s[a].balance + Supply(s - {a})
  }

  /** The sum of the genesis allocations. */
  ghost function AllocationSum(allocations: map<Address, U64>): nat
  {
    if allocations == map[] then 0
    else
      var a :| a in allocations;
      allocations[a] + AllocationSum(allocations - {a})
  }

  /** The genesis supply is exactly what was allocated. */
  lemma {:induction false} GenesisSupply(allocations: map<Address, U64>)
    ensures Supply(GenesisAccounts(allocations)) == AllocationSum(allocations)
    decreases |allocations|
  {
    if allocations == map[] {
      assert GenesisAccounts(allocations) == map[];
    } else {
      var a :| a in allocations && AllocationSum(allocations) == allocations[a] + AllocationSum(allocations - {a});
      GenesisSupply(allocations - {a});
      SupplyTake(GenesisAccounts(allocations), a);
      assert GenesisAccounts(allocations) - {a} == GenesisAccounts(allocations - {a});
    }
  }

  lemma {:induction false} SupplyTake(s: Accounts, a: Address)
    requires a in s
    ensures Supply(s) == s[a].balance + Supply(s - {a})
    decreases |s|
  {
    var x :| a in s && x in s && Supply(s) == s[x].balance + Supply(s - {x});
    if x != a {
      SupplyTake(s - {x}, a);
      SupplyTake(s - {a}, x);
      assert s - {x} - {a} == s - {a} - {x};
    }
  }

  lemma SupplyPut(s: Accounts, a: Address, acct: Account)
    ensures Supply(s[a := acct]) == Supply(s) - BalanceOf(s, a) + acct.balance
  {
    SupplyTake(s[a := acct], a);
    assert s[a := acct] - {a} == s - {a};
    if a in s {
      SupplyTake(s, a);
    } else {
      assert s - {a} == s;
    }
  }

  lemma BalanceWithinSupply(s: Accounts, a: Address)
    ensures BalanceOf(s, a) <= Supply(s)
  {
    if a in s {
      SupplyTake(s, a);
    }
  }

  /** One transfer: nothing wraps, supply is kept, balances move by exactly the amount. */
  lemma TransferFlows(s: Accounts, tx: Transaction, a: Address)
    requires Supply(s) <= MAX_U64 && ValidateTransaction(s, tx)
    ensures Supply(Transfer(s, tx)) == Supply(s)
    ensures BalanceOf(Transfer(s, tx), a) == BalanceOf(s, a)
              - (if a == tx.sender then tx.amount else 0) + (if a == tx.recipient then tx.amount else 0)
    ensures NonceOf(Transfer(s, tx), a) == if a == tx.sender then Plus(NonceOf(s, a), 1) else NonceOf(s, a)
    ensures Transfer(s, tx).Keys == s.Keys + {tx.recipient}
  {
    var debited := s[tx.sender := Account(s[tx.sender].balance - tx.amount, Plus(s[tx.sender].nonce, 1))];
    SupplyPut(s, tx.sender, debited[tx.sender]);
    BalanceWithinSupply(debited, tx.recipient);
    SupplyPut(debited, tx.recipient, Transfer(s, tx)[tx.recipient]);
  }

  /** A transaction created with given keys, recipient, amount and nonce is for exactly those: it validates
      exactly if the keys' own account can pay the amount and is at that nonce, and then moves the amount from
      that account to the recipient. */
  lemma CreatedTransactionPays(c: Suite, keys: KeyPair, recipient: Address, amount: U64, nonce: U64, now: U64,
                               s: Accounts, a: Address)
    requires Supply(s) <= MAX_U64
    ensures var tx := CreateTransaction(c, keys, recipient, amount, nonce, now);
            var payer := DeriveAddress(c, keys.publicKey);
            && (ValidateTransaction(s, tx) <==> payer in s && amount <= s[payer].balance && nonce == s[payer].nonce)
            && (ValidateTransaction(s, tx) ==>
                  BalanceOf(Transfer(s, tx), a)
                  == BalanceOf(s, a) - (if a == payer then amount else 0) + (if a == recipient then amount else 0))
  {
    hide Transfer;
    var tx := CreateTransaction(c, keys, recipient, amount, nonce, now);
    if ValidateTransaction(s, tx) {
      TransferFlows(s, tx, a);
    }
  }

  /** Exactly when a transfer conserves the supply: the recipient's credit has to fit in 64 bits. */
  lemma ConservesIffCreditFits(s: Accounts, tx: Transaction)
    requires ValidateTransaction(s, tx)
    ensures Supply(Transfer(s, tx)) == Supply(s)
            <==> tx.sender == tx.recipient || BalanceOf(s, tx.recipient) + tx.amount <= MAX_U64
  {
    var debited := s[tx.sender := Account(s[tx.sender].balance - tx.amount, Plus(s[tx.sender].nonce, 1))];
    SupplyPut(s, tx.sender, debited[tx.sender]);
    SupplyPut(debited, tx.recipient, Transfer(s, tx)[tx.recipient]);
  }

  lemma ProjStep(txs: seq<Transaction>, a: Address)
    requires txs != []
    ensures var n := |txs| - 1;
            && |Proj(txs, a)| == |Proj(txs[..n], a)| + (if txs[n].sender == a then 1 else 0)
            && Total(Proj(txs, a)) == Total(Proj(txs[..n], a)) + (if txs[n].sender == a then txs[n].amount else 0)
  {
    var n := |txs| - 1;
    if txs[n].sender == a {
      assert Proj(txs, a)[..|Proj(txs, a)| - 1] == Proj(txs[..n], a);
    } else {
      assert Proj(txs, a) == Proj(txs[..n], a);
    }
  }

  /** Conservation over a block: supply is constant, each balance changes by exactly received minus
      sent, and no credit wraps. */
  lemma {:induction false} BlockFlows(s: Accounts, txs: seq<Transaction>, a: Address)
    requires Supply(s) <= MAX_U64 && ApplyAll(s, txs).Some?
    ensures Supply(ApplyAll(s, txs).value) == Supply(s)
    ensures BalanceOf(ApplyAll(s, txs).value, a)
            == BalanceOf(s, a) + Received(txs, a) - Total(Proj(txs, a))
    ensures s.Keys <= ApplyAll(s, txs).value.Keys
  {
    if txs != [] {
      var n := |txs| - 1;
      BlockFlows(s, txs[..n], a);
      TransferFlows(ApplyAll(s, txs[..n]).value, txs[n], a);
      ProjStep(txs, a);
    }
  }

  /** ... and each nonce grows by the number of transactions sent. */
  lemma {:induction false} BlockNonces(s: Accounts, txs: seq<Transaction>, a: Address)
    requires Supply(s) <= MAX_U64 && ApplyAll(s, txs).Some?
    ensures NonceOf(ApplyAll(s, txs).value, a) == Counted(NonceOf(s, a), |Proj(txs, a)|)
  {
    if txs != [] {
      var n := |txs| - 1;
      BlockNonces(s, txs[..n], a);
      BlockFlows(s, txs[..n], a);
      TransferFlows(ApplyAll(s, txs[..n]).value, txs[n], a);
      ProjStep(txs, a);
    }
  }

  /** Over any chain, whatever its blocks: supply never changes. */
  lemma {:induction false} ReplaySupply(s: Accounts, chain: seq<Block>)
    requires Supply(s) <= MAX_U64
    ensures Supply(Replay(s, chain)) == Supply(s)
    ensures s.Keys <= Replay(s, chain).Keys
  {
    if |chain| > 1 {
      var n := |chain| - 1;
      ReplaySupply(s, chain[..n]);
      if ApplyAll(Replay(s, chain[..n]), chain[n].transactions).Some? {
        BlockFlows(Replay(s, chain[..n]), chain[n].transactions, ZeroAddress());
      }
    }
  }

  // ---------------------------------------------------------------- replay protection

  /** The transactions of the blocks that took effect, in chain order. */
  function Applied(s: Accounts, chain: seq<Block>): seq<Transaction>
  {
    if |chain| <= 1 then []
    else
      var n := |chain| - 1;
      Applied(s, chain[..n]) +
      if ApplyAll(Replay(s, chain[..n]), chain[n].transactions).Some? then chain[n].transactions else []
  }

  lemma {:induction false} ApplyConcat(s: Accounts, xs: seq<Transaction>, ys: seq<Transaction>)
    requires ApplyAll(s, xs).Some?
    ensures ApplyAll(s, xs + ys) == ApplyAll(ApplyAll(s, xs).value, ys)
  {
    if ys == [] {
      assert xs + ys == xs;
    } else {
      var n := |ys| - 1;
      ApplyConcat(s, xs, ys[..n]);
      assert (xs + ys)[..|xs + ys| - 1] == xs + ys[..n];
    }
  }

  /** Replaying a chain is applying, one after the other, the transactions that took effect. */
  lemma {:induction false} ReplayIsApplied(s: Accounts, chain: seq<Block>)
    ensures ApplyAll(s, Applied(s, chain)) == Some(Replay(s, chain))
  {
    if |chain| > 1 {
      var n := |chain| - 1;
      ReplayIsApplied(s, chain[..n]);
      if ApplyAll(Replay(s, chain[..n]), chain[n].transactions).Some? {
        ApplyConcat(s, Applied(s, chain[..n]), chain[n].transactions);
      } else {
        assert Applied(s, chain[..n]) + [] == Applied(s, chain[..n]);
      }
    }
  }

  /** The whole-chain law: after any chain, whatever its blocks, a balance is the genesis allocation plus all
      that was received minus all that was sent in the blocks that took effect. */
  lemma ChainBalances(allocations: map<Address, U64>, chain: seq<Block>, a: Address)
    requires AllocationSum(allocations) <= MAX_U64
    ensures var s := GenesisAccounts(allocations);
            var applied := Applied(s, chain);
            BalanceOf(Replay(s, chain), a)
            == (if a in allocations then allocations[a] else 0) + Received(applied, a) - Total(Proj(applied, a))
    ensures Supply(Replay(GenesisAccounts(allocations), chain)) == AllocationSum(allocations)
  {
    var s := GenesisAccounts(allocations);
    GenesisSupply(allocations);
    ReplayIsApplied(s, chain);
    BlockFlows(s, Applied(s, chain), a);
    ReplaySupply(s, chain);
  }

  /** In a run of transactions that applies, a sender's i-th transaction carries its i-th nonce. */
  lemma {:induction false} NoncesInOrder(s: Accounts, txs: seq<Transaction>, a: Address, i: nat)
    requires Supply(s) <= MAX_U64 && ApplyAll(s, txs).Some? && i < |Proj(txs, a)|
    ensures Proj(txs, a)[i].sender == a
    ensures Proj(txs, a)[i].nonce == Counted(NonceOf(s, a), i)
  {
    var n := |txs| - 1;
    if i < |Proj(txs[..n], a)| {
      NoncesInOrder(s, txs[..n], a, i);
    } else {
      BlockNonces(s, txs[..n], a);
    }
  }

  /** Replay protection over whole chains, whatever the blocks: the transactions that took effect for a
      sender carry the nonces 0, 1, 2, ... (modulo 2^64) in order, the account nonce is their number, and while that
      number fits in 64 bits no nonce occurs twice. */
  lemma ReplayProtection(allocations: map<Address, U64>, chain: seq<Block>, a: Address)
    requires Supply(GenesisAccounts(allocations)) <= MAX_U64
    ensures var s := GenesisAccounts(allocations);
            var sent := Proj(Applied(s, chain), a);
            && (forall i :: 0 <= i < |sent| ==> sent[i].sender == a && sent[i].nonce == Counted(0, i))
            && NonceOf(Replay(s, chain), a) == Counted(0, |sent|)
            && (|sent| <= WORD ==> forall i, j :: 0 <= i < j < |sent| ==> sent[i].nonce != sent[j].nonce)
  {
    var s := GenesisAccounts(allocations);
    var sent := Proj(Applied(s, chain), a);
    ReplayIsApplied(s, chain);
    forall i | 0 <= i < |sent| ensures sent[i].sender == a && sent[i].nonce == Counted(0, i) {
      NoncesInOrder(s, Applied(s, chain), a, i);
    }
    BlockNonces(s, Applied(s, chain), a);
    forall i | 0 <= i < |sent| && i < WORD ensures Counted(0, i) == i {
      CountedNoWrap(0, i);
    }
  }
}

/** How far nonces can get: no account's nonce exceeds the number of transactions that have come in. This
    is what keeps the 64-bit nonces of a run from wrapping around. */
module Nonces {
  import opened Common
  import opened Records
  import opened Ledger
  import opened Ordering
  import opened Pools
  import opened Chains
  import opened Stores
  import opened Nodes

  /** How many transactions of an account have taken effect in a chain. */
  function SentCount(g: Config, chain: seq<Block>, a: Address): nat
  {
    |Proj(Applied(GenesisAccounts(g.allocations), chain), a)|
  }

  ghost predicate ChainLow(g: Config, chain: seq<Block>, k: nat)
  {
    forall a: Address :: SentCount(g, chain, a) <= k
  }

  ghost predicate PoolLow(p: Pool, k: nat)
  {
    forall h :: h in p.pending ==> p.pending[h].nonce < k
  }

  /** No account has had more than k transactions, and no pooled nonce reaches k. */
  ghost predicate Low(g: Config, n: NodeState, k: nat)
  {
    ChainLow(g, n.chain, k) && PoolLow(n.pool, k)
  }

  lemma LowGrows(g: Config, n: NodeState, k: nat, m: nat)
    requires Low(g, n, k) && k <= m
    ensures Low(g, n, m)
  {
    hide SentCount;
    forall a: Address ensures SentCount(g, n.chain, a) <= m {
      assert SentCount(g, n.chain, a) <= k;
    }
  }

  lemma SentCountStep(g: Config, chain: seq<Block>, b: Block, a: Address)
    requires chain != []
    ensures SentCount(g, chain + [b], a)
            == SentCount(g, chain, a)
               + if ApplyAll(StateOf(g, chain), b.transactions).Some? then |Proj(b.transactions, a)| else 0
  {
    hide ApplyAll, Proj;
    var s := GenesisAccounts(g.allocations);
    assert (chain + [b])[..|chain|] == chain;
    if ApplyAll(StateOf(g, chain), b.transactions).Some? {
      ProjConcat(Applied(s, chain), b.transactions, a);
    } else {
      assert Applied(s, chain) + [] == Applied(s, chain);
    }
  }

  lemma {:induction false} SentCountGrows(g: Config, x: seq<Block>, y: seq<Block>, a: Address)
    requires x != [] && x <= y
    ensures SentCount(g, x, a) <= SentCount(g, y, a)
    decreases |y|
  {
    hide SentCount;
    if |x| < |y| {
      var n := |y| - 1;
      assert y == y[..n] + [y[n]];
      SentCountGrows(g, x, y[..n], a);
      SentCountStep(g, y[..n], y[n], a);
    } else {
      assert x == y;
    }
  }

  lemma PrefixLow(g: Config, x: seq<Block>, y: seq<Block>, k: nat)
    requires x != [] && x <= y && ChainLow(g, y, k)
    ensures ChainLow(g, x, k)
  {
    hide SentCount;
    forall a: Address ensures SentCount(g, x, a) <= k {
      SentCountGrows(g, x, y, a);
      assert SentCount(g, y, a) <= k;
    }
  }

  lemma GenesisLow(g: Config, k: nat)
    ensures ChainLow(g, [Genesis(g)], k)
  {
  }

  /** The confirmed nonce is the count, as long as the count fits in 64 bits. */
  lemma ConfirmedNonce(g: Config, chain: seq<Block>, a: Address)
    requires Supply(GenesisAccounts(g.allocations)) <= MAX_U64 && SentCount(g, chain, a) < WORD
    ensures NonceOf(StateOf(g, chain), a) == SentCount(g, chain, a)
  {
    var s := GenesisAccounts(g.allocations);
    ReplayIsApplied(s, chain);
    BlockNonces(s, Applied(s, chain), a);
    CountedNoWrap(0, SentCount(g, chain, a));
  }

  lemma PooledRun(c: Suite, s: Accounts, p: Pool, a: Address, i: nat, k: nat)
    requires PoolOk(c, s, p) && PoolLow(p, k) && i < |Proj(Order(p.pending.Values), a)|
    ensures a in s && Proj(Order(p.pending.Values), a)[i].nonce == s[a].nonce + i < k
  {
    hide VerifyTransaction;
    var run := Proj(Order(p.pending.Values), a);
    assert RunnableFor(s, Order(p.pending.Values), a);
    ProjMembers(Order(p.pending.Values), a);
    assert run[i] in run;
  }

  /** What the pool accepts carries at most the k-th nonce. */
  lemma AcceptedIsLow(g: Config, n: NodeState, tx: Transaction, k: nat)
    requires ConfigOk(g) && NodeOk(g, n) && Low(g, n, k) && k < WORD
    requires Accepts(g.crypto, n.accounts, n.pool, tx)
    ensures tx.nonce <= k
  {
    hide SentCount, VerifyTransaction, ValidChain, StateOf, DbHolds;
    var a, run := tx.sender, Proj(Order(n.pool.pending.Values), tx.sender);
    assert IndexedFor(n.accounts, n.pool, Order(n.pool.pending.Values), a);
    if a in n.pool.nonces {
      PooledRun(g.crypto, n.accounts, n.pool, a, |run| - 1, k);
    } else {
      assert SentCount(g, n.chain, a) <= k;
      ConfirmedNonce(g, n.chain, a);
    }
  }

  lemma LowFits(g: Config, n: NodeState, tx: Transaction, k: nat)
    requires ConfigOk(g) && NodeOk(g, n) && Low(g, n, k) && k < MAX_U64
    ensures NonceFits(g, n, tx)
  {
    hide ConfigOk, NodeOk, Low, Accepts;
    if Accepts(g.crypto, n.accounts, n.pool, tx) {
      AcceptedIsLow(g, n, tx, k);
    }
  }

  lemma SubmitLow(g: Config, n: NodeState, tx: Transaction, k: nat)
    requires ConfigOk(g) && NodeOk(g, n) && Low(g, n, k) && k < MAX_U64
    ensures PoolLow(Submit(g, n, tx).node.pool, k + 1)
  {
    hide ConfigOk, NodeOk, ChainLow, Accepts;
    if Accepts(g.crypto, n.accounts, n.pool, tx) {
      AcceptedIsLow(g, n, tx, k);
    }
  }

  // ---------------------------------------------------------------- accepted blocks

  /** A block only takes transactions out of the pool. */
  lemma AcceptPoolLow(g: Config, n: NodeState, b: Block, k: nat)
    requires NodeOk(g, n) && PoolLow(n.pool, k)
    ensures PoolLow(Accept(g, n, b).pool, k)
  {
    hide ValidChain, DbHolds, Runnable, Indexed, Revalidated, ApplyOrKeep, Sortable, NoncesBelowMax;
    var p := Remove(n.pool, b.transactions);
    var s := ApplyOrKeep(n.accounts, b.transactions);
    RemoveKeepsSortable(g.crypto, n.pool, b.transactions);
    forall h | h in Revalidated(g.crypto, s, p).pending ensures Revalidated(g.crypto, s, p).pending[h].nonce < k {
      RevalidateExact(g.crypto, s, p, h);
      assert h in n.pool.pending;
    }
  }

  lemma {:induction false} ProjFewer(txs: seq<Transaction>, a: Address)
    ensures |Proj(txs, a)| <= |txs|
  {
    if txs != [] {
      ProjFewer(txs[..|txs| - 1], a);
    }
  }

  lemma AcceptLow(g: Config, n: NodeState, b: Block, k: nat)
    requires NodeOk(g, n) && Low(g, n, k)
    ensures Low(g, Accept(g, n, b), k + |b.transactions|)
  {
    hide SentCount, NodeOk, Proj, ApplyAll;
    assert n.chain != [] by { NodeHasGenesis(g, n); }
    AcceptPoolLow(g, n, b, k);
    forall a: Address ensures SentCount(g, n.chain + [b], a) <= k + |b.transactions| {
      SentCountStep(g, n.chain, b, a);
      ProjFewer(b.transactions, a);
      assert SentCount(g, n.chain, a) <= k;
    }
  }

  /** How many transactions a message carries. */
  function Load(m: Message): nat
  {
    match m
    case NewTx(_) => 1
    case NewBlock(b) => |b.transactions|
    case Blocks(blocks) => BlocksLoad(blocks)
    case _ => 0
  }

  function BlocksLoad(blocks: seq<Block>): nat
  {
    if blocks == [] then 0 else |blocks[0].transactions| + BlocksLoad(blocks[1..])
  }

  lemma {:induction false} OnBlocksLow(g: Config, n: NodeState, blocks: seq<Block>, k: nat)
    requires NodeOk(g, n) && Low(g, n, k)
    ensures Low(g, OnBlocks(g, n, blocks), k + BlocksLoad(blocks))
    decreases |blocks|
  {
    hide NodeOk, Low, Takes, Accept;
    NodeHasGenesis(g, n);
    if blocks == [] {
    } else if blocks[0].index < |n.chain| {
      OnBlocksLow(g, n, blocks[1..], k);
      LowGrows(g, OnBlocks(g, n, blocks), k + BlocksLoad(blocks[1..]), k + BlocksLoad(blocks));
    } else if blocks[0].index == |n.chain| && Takes(g, n, blocks[0]) {
      AcceptKeepsOk(g, n, blocks[0]);
      AcceptLow(g, n, blocks[0], k);
      OnBlocksLow(g, Accept(g, n, blocks[0]), blocks[1..], k + |blocks[0].transactions|);
    } else {
      LowGrows(g, n, k, k + BlocksLoad(blocks));
    }
  }

  /** Handling a message raises the bound by at most the transactions it carries. */
  lemma HandleLow(g: Config, n: NodeState, m: Message, k: nat)
    requires ConfigOk(g) && NodeOk(g, n) && Low(g, n, k) && k < MAX_U64
    ensures Low(g, Handle(g, n, m).node, k + Load(m))
  {
    hide NodeOk, SentCount, Accepts, ConfigOk, Takes, Accept, PoolLow, ChainLow;
    NodeHasGenesis(g, n);
    match m
    case NewBlock(b) =>
      LowGrows(g, n, k, k + |b.transactions|);
      if b.index == |n.chain| && Takes(g, n, b) {
        AcceptLow(g, n, b, k);
      }
    case NewTx(tx) =>
      LowGrows(g, n, k, k + 1);
      SubmitLow(g, n, tx, k);
    case Blocks(blocks) => OnBlocksLow(g, n, blocks, k);
    case _ =>
  }

  lemma {:induction false} OnBlocksPoolLow(g: Config, n: NodeState, blocks: seq<Block>, k: nat)
    requires NodeOk(g, n) && PoolLow(n.pool, k)
    ensures PoolLow(OnBlocks(g, n, blocks).pool, k)
    decreases |blocks|
  {
    hide NodeOk, PoolLow, Takes, Accept;
    NodeHasGenesis(g, n);
    if blocks != [] {
      if blocks[0].index < |n.chain| {
        OnBlocksPoolLow(g, n, blocks[1..], k);
      } else if blocks[0].index == |n.chain| && Takes(g, n, blocks[0]) {
        AcceptKeepsOk(g, n, blocks[0]);
        AcceptPoolLow(g, n, blocks[0], k);
        OnBlocksPoolLow(g, Accept(g, n, blocks[0]), blocks[1..], k);
      }
    }
  }

  /** Whatever message is handled, pooled nonces rise by at most one. */
  lemma HandlePoolLow(g: Config, n: NodeState, m: Message, k: nat)
    requires ConfigOk(g) && NodeOk(g, n) && Low(g, n, k) && k < MAX_U64
    ensures PoolLow(Handle(g, n, m).node.pool, k + 1)
  {
    hide NodeOk, ChainLow, Accepts, ConfigOk, Takes, Accept;
    NodeHasGenesis(g, n);
    match m
    case NewBlock(b) =>
      if b.index == |n.chain| && Takes(g, n, b) {
        AcceptPoolLow(g, n, b, k);
      }
    case NewTx(tx) => SubmitLow(g, n, tx, k);
    case Blocks(blocks) => OnBlocksPoolLow(g, n, blocks, k);
    case _ =>
  }

  // ---------------------------------------------------------------- production

  lemma SelectedRun(g: Config, n: NodeState, a: Address, k: nat)
    requires ConfigOk(g) && NodeOk(g, n) && Low(g, n, k) && k < WORD
    ensures SentCount(g, n.chain, a) + |Proj(Selected(n.pool, BLOCK_LIMIT), a)| <= k
  {
    hide SentCount, ValidChain, DbHolds, Runnable, Indexed, Sortable, NoncesBelowMax, StateOf;
    var all, sel := Order(n.pool.pending.Values), Selected(n.pool, BLOCK_LIMIT);
    assert all == sel + all[|sel|..];
    ProjConcat(sel, all[|sel|..], a);
    var count := |Proj(sel, a)|;
    assert SentCount(g, n.chain, a) <= k;
    if count > 0 {
      PooledRun(g.crypto, n.accounts, n.pool, a, count - 1, k);
      ConfirmedNonce(g, n.chain, a);
    }
  }

  /** Production moves transactions from the pool to the chain and so keeps the bound. */
  lemma ProduceLow(g: Config, n: NodeState, now: U64, k: nat)
    requires ConfigOk(g) && NodeOk(g, n) && Low(g, n, k) && k < WORD
    ensures Low(g, Produce(g, n, now).node, k)
  {
    hide SentCount, NodeOk, Proj, ApplyAll, ConfigOk, Selected, Takes;
    NodeHasGenesis(g, n);
    var b := Draft(g, n, now);
    if OwnTurn(g, n) && Takes(g, n, b) {
      AcceptPoolLow(g, n, b, k);
      forall a: Address ensures SentCount(g, n.chain + [b], a) <= k {
        SentCountStep(g, n.chain, b, a);
        SelectedRun(g, n, a, k);
      }
    }
  }
}

/** The Node object: the handlers of src/net/node.cpp as methods on the chain, the ledger, the pool and
    the store, each tied to the step function that Nodes defines and proves things about. */
module NodeObjects {
  import opened Common
  import opened Records
  import opened Ledger
  import opened Pools
  import opened Chains
  import opened Stores
  import opened Nodes

  lemma AccountWritesStep(c: Suite, s: Accounts, txs: seq<Transaction>, i: nat)
    requires i < |txs|
    ensures AccountWrites(c, s, txs[..i + 1])
         == AccountWrites(c, s, txs[..i]) + AccountWrite(s, DeriveAddress(c, txs[i].senderPublicKey))
            + AccountWrite(s, txs[i].recipient)
  {
    assert txs[..i + 1][..i] == txs[..i];
  }

  lemma PoolIsSortable(g: Config, n: NodeState)
    requires NodeOk(g, n)
    ensures Sortable(g.crypto, n.pool)
  {
    hide Sortable;
  }

  lemma Regroup(x: seq<Write>, y: seq<Write>, z: seq<Write>, u: seq<Write>, v: seq<Write>)
    ensures x + (y + z) + u + v == x + (y + (z + u + v))
  {
  }

  class Node {
    const config: Config
    const blockchain: Blockchain
    const state: StateManager
    const mempool: Mempool
    const storage: Storage?

    ghost function Disk(): set<object>
    {
      if storage == null then {} else {storage}
    }

    ghost function View(): NodeState
      reads blockchain, state, mempool, Disk()
    {
      NodeState(blockchain.chain, state.accounts, mempool.View(), if storage == null then map[] else storage.db)
    }

    /** The writes that have reached the disk, in order. */
    ghost function Log(): seq<Write>
      reads Disk()
    {
      if storage == null then [] else storage.log
    }

    ghost predicate Wired()
      reads blockchain, Disk()
    {
      && blockchain.crypto == config.crypto
      && blockchain.consensus == Some(config.authorities)
      && blockchain.Valid()
      && mempool.crypto == config.crypto
      && mempool.state == state
      && (config.persistent <==> storage != null)
      && (storage != null ==> storage.Valid())
    }

    ghost predicate Valid()
      reads blockchain, state, mempool, Disk()
    {
      Wired() && NodeOk(config, View())
    }

    /** `disk` is the database of the data directory, if one is configured; it survives the process. */
    constructor (config: Config, disk: Storage?)
      requires ConfigOk(config) && (config.persistent <==> disk != null)
      requires disk != null ==> disk.Valid()
      ensures this.config == config && this.storage == disk && Wired()
      ensures fresh(blockchain) && fresh(state) && fresh(mempool)
      ensures View() == Boot(config, if disk == null then map[] else disk.db)
    {
      this.config, this.storage := config, disk;
      blockchain := new Blockchain(config.crypto, Some(config.authorities), config.genesisKeys);
      var ledger := new StateManager(config.allocations);
      state := ledger;
      mempool := new Mempool(config.crypto, ledger);
      new;
      if storage != null {
        RecoverFromStorage();
      }
    }

    method RecoverFromStorage()
      requires Wired() && storage != null
      requires View() == NodeState([Genesis(config)], GenesisAccounts(config.allocations), EMPTY, storage.db)
      modifies blockchain, state
      ensures Wired() && View() == Boot(config, storage.db)
    {
      hide VerifyBlock, ApplyAll, StoredBlock;
      var stored := storage.LoadChainHeight();
      if stored <= 1 {
        return;
      }
      ghost var goal := Recovered(config, storage.db, [Genesis(config)], GenesisAccounts(config.allocations), 1);
      var i := 1;
      while i < stored
        invariant Wired() && stored == StoredHeight(storage.db)
        invariant Recovered(config, storage.db, blockchain.chain, state.accounts, i) == goal
      {
        var b := storage.LoadBlock(i);
        if b == None {
          break;
        }
        var ok := blockchain.AddBlock(b.value);
        if !ok {
          break;
        }
        var _ := state.ApplyBlock(b.value);
        i := i + 1;
      }
    }

    /** Pool cleanup, then persistence, for a block just added and applied. */
    method AfterBlockAccepted(b: Block)
      requires Wired() && Sortable(config.crypto, mempool.View())
      modifies mempool, Disk()
      ensures Wired()
      ensures mempool.View()
              == Revalidated(config.crypto, state.accounts, Remove(old(mempool.View()), b.transactions))
      ensures storage != null ==>
                && storage.log == old(storage.log)
                                  + BlockWrites(config.crypto, state.accounts, |blockchain.chain|, b)
                && storage.db == Written(old(storage.db),
                                         BlockWrites(config.crypto, state.accounts, |blockchain.chain|, b))
    {
      hide Revalidated, Remove, Sortable, Written, BlockWrites;
      ghost var pool := mempool.View();
      mempool.RemoveMinedTransactions(b.transactions);
      RemoveKeepsSortable(config.crypto, pool, b.transactions);
      var _ := mempool.Revalidate();
      if storage != null {
        Persist(b);
      }
    }

    /** Block and hash first, then the height, then the accounts: the log says so. */
    method Persist(b: Block)
      requires Wired() && storage != null
      modifies storage
      ensures Wired()
      ensures storage.log
              == old(storage.log) + BlockWrites(config.crypto, state.accounts, |blockchain.chain|, b)
      ensures storage.db
              == Written(old(storage.db), BlockWrites(config.crypto, state.accounts, |blockchain.chain|, b))
    {
      hide BlockWrite, HeightWrite, AccountWrite, DeriveAddress, Written;
      ghost var before := storage.log;
      ghost var first := [BlockWrite(b), HeightWrite(|blockchain.chain|)];
      storage.SaveBlock(b);
      storage.SaveChainHeight(|blockchain.chain|);
      var txs := b.transactions;
      for i := 0 to |txs|
        invariant Wired()
        invariant storage.log == before + (first + AccountWrites(config.crypto, state.accounts, txs[..i]))
      {
        var sender := DeriveAddress(config.crypto, txs[i].senderPublicKey);
        SaveIfPresent(sender);
        SaveIfPresent(txs[i].recipient);
        AccountWritesStep(config.crypto, state.accounts, txs, i);
        Regroup(before, first, AccountWrites(config.crypto, state.accounts, txs[..i]),
                AccountWrite(state.accounts, sender), AccountWrite(state.accounts, txs[i].recipient));
      }
      assert txs[..|txs|] == txs;
      WrittenConcat(storage.start, before, BlockWrites(config.crypto, state.accounts, |blockchain.chain|, b));
    }

    method SaveIfPresent(a: Address)
      requires Wired() && storage != null
      modifies storage
      ensures Wired()
      ensures storage.log == old(storage.log) + AccountWrite(state.accounts, a)
    {
      if a in state.accounts {
        storage.SaveAccountState(a, state.accounts[a]);
      }
    }

    /** Add, apply, clean up, persist: what the four accepting handlers share. */
    method TryAccept(b: Block) returns (ok: bool)
      requires Valid()
      modifies blockchain, state, mempool, Disk()
      ensures Valid()
      ensures ok <==> Takes(config, old(View()), b)
      ensures View() == if ok then Accept(config, old(View()), b) else old(View())
      ensures Log() == old(Log()) + if ok then AcceptWrites(config, old(View()), b) else []
    {
      hide Revalidated, Remove, BlockWrites, ApplyOrKeep, ApplyAll, Acceptable, NodeOk, Sortable;
      ghost var n := View();
      PoolIsSortable(config, n);
      ok := blockchain.AddBlock(b);
      if !ok {
        return;
      }
      var _ := state.ApplyBlock(b);
      AfterBlockAccepted(b);
      assert View() == Accept(config, n, b);
      AcceptKeepsOk(config, n, b);
    }

    method ProduceBlock(now: U64) returns (ok: bool, forward: seq<Message>)
      requires Valid() && ConfigOk(config)
      modifies blockchain, state, mempool, Disk()
      ensures Valid()
      ensures View() == Produce(config, old(View()), now).node
      ensures Log() == old(Log()) + Produce(config, old(View()), now).writes
      ensures forward == Produce(config, old(View()), now).forward
      ensures ok <==> OwnTurn(config, old(View()))
    {
      hide Selected, Sortable, NodeOk, CreateBlock, Accept, Takes;
      ghost var n := View();
      PoolIsSortable(config, n);
      forward := [];
      if Producer(config.authorities, |blockchain.chain|) != NodeAddress(config) {
        return false, [];
      }
      var txs := mempool.GetTransactionsForBlock(BLOCK_LIMIT);
      var b := CreateBlock(config.crypto, config.keys, blockchain.chain[|blockchain.chain| - 1], txs, now);
      assert b == Draft(config, n, now);
      DraftIsTaken(config, n, now);
      ok := TryAccept(b);
      if ok {
        forward := [NewBlock(b)];
      }
    }

    method SubmitTransaction(tx: Transaction) returns (ok: bool, forward: seq<Message>)
      requires Valid() && NonceFits(config, View(), tx)
      modifies mempool
      ensures Valid()
      ensures View() == Submit(config, old(View()), tx).node
      ensures forward == Submit(config, old(View()), tx).forward
      ensures ok <==> Pools.Accepts(config.crypto, old(View()).accounts, old(View()).pool, tx)
    {
      SubmitKeepsOk(config, View(), tx);
      ok := mempool.AddTransaction(tx);
      forward := if ok then [NewTx(tx)] else [];
    }

    method OnNewTx(tx: Transaction) returns (forward: seq<Message>)
      requires Valid() && NonceFits(config, View(), tx)
      modifies mempool
      ensures Valid()
      ensures View() == Nodes.OnNewTx(config, old(View()), tx).node
      ensures forward == Nodes.OnNewTx(config, old(View()), tx).forward
    {
      if tx.hash in mempool.pending {
        return [];
      }
      var _, messages := SubmitTransaction(tx);
      return messages;
    }

    method OnNewBlock(b: Block) returns (reply: seq<Message>, forward: seq<Message>)
      requires Valid()
      modifies blockchain, state, mempool, Disk()
      ensures Valid()
      ensures View() == Nodes.OnNewBlock(config, old(View()), b).node
      ensures Log() == old(Log()) + Nodes.OnNewBlock(config, old(View()), b).writes
      ensures reply == Nodes.OnNewBlock(config, old(View()), b).reply
      ensures forward == Nodes.OnNewBlock(config, old(View()), b).forward
    {
      if b.index > |blockchain.chain| {
        return [GetBlocks(|blockchain.chain|)], [];
      }
      if b.index < |blockchain.chain| {
        return [], [];
      }
      var ok := TryAccept(b);
      return [], if ok then [NewBlock(b)] else [];
    }

    method OnGetBlocks(start: nat) returns (reply: seq<Message>)
      ensures reply == [Nodes.OnGetBlocks(View(), start)]
    {
      if start >= |blockchain.chain| {
        return [Blocks([])];
      }
      var blocks: seq<Block> := [];
      for i := start to |blockchain.chain|
        invariant blocks == blockchain.chain[start..i]
      {
        blocks := blocks + [blockchain.chain[i]];
      }
      assert blockchain.chain[start..|blockchain.chain|] == blockchain.chain[start..];
      return [Blocks(blocks)];
    }

    method OnBlocks(blocks: seq<Block>)
      requires Valid()
      modifies blockchain, state, mempool, Disk()
      ensures Valid()
      ensures View() == Nodes.OnBlocks(config, old(View()), blocks)
      ensures Log() == old(Log()) + OnBlocksWrites(config, old(View()), blocks)
    {
      hide Takes, Accept, AcceptWrites, NodeOk;
      ghost var goal := Nodes.OnBlocks(config, View(), blocks);
      ghost var total := Log() + OnBlocksWrites(config, View(), blocks);
      assert blocks[0..] == blocks;
      for i := 0 to |blocks|
        invariant Valid()
        invariant Nodes.OnBlocks(config, View(), blocks[i..]) == goal
        invariant Log() + OnBlocksWrites(config, View(), blocks[i..]) == total
      {
        assert blocks[i..][0] == blocks[i] && blocks[i..][1..] == blocks[i + 1..];
        if blocks[i].index < |blockchain.chain| {
          continue;
        }
        if blocks[i].index != |blockchain.chain| {
          return;
        }
        var ok := TryAccept(blocks[i]);
        if !ok {
          return;
        }
      }
    }

    method OnPeerConnected() returns (reply: seq<Message>)
      ensures reply == Nodes.OnPeerConnected(View()).reply
    {
      return [GetBlocks(|blockchain.chain|)];
    }

    method HandleMessage(m: Message) returns (reply: seq<Message>, forward: seq<Message>)
      requires Valid() && (m.NewTx? ==> NonceFits(config, View(), m.tx))
      modifies blockchain, state, mempool, Disk()
      ensures Valid()
      ensures View() == Handle(config, old(View()), m).node
      ensures Log() == old(Log()) + Handle(config, old(View()), m).writes
      ensures reply == Handle(config, old(View()), m).reply
      ensures forward == Handle(config, old(View()), m).forward
    {
      reply, forward := [], [];
      match m
      case Ping => reply := [Pong];
      case Pong =>
      case NewBlock(b) => reply, forward := OnNewBlock(b);
      case NewTx(tx) => forward := OnNewTx(tx);
      case GetBlocks(start) => reply := OnGetBlocks(start);
      case Blocks(blocks) => OnBlocks(blocks);
    }
  }
}

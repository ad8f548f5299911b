/** What nodes send, and what it achieves at the nodes that get it (src/net/node.cpp:134-495). */
module Gossip {
  import opened Common
  import opened Records
  import opened Ledger
  import opened Pools
  import opened Chains
  import opened Stores
  import opened Nodes
  import opened Nonces

  /** A configuration of another node of the same network. */
  predicate SameNetwork(g: Config, h: Config)
  {
    && h.authorities == g.authorities
    && h.allocations == g.allocations
    && h.genesisKeys == g.genesisKeys
  }

  /** Whatever node of the network had the chain `before` takes, by handling m alone, the chain and the accounts
      of `after`. */
  ghost predicate BringsPeersTo(g: Config, before: seq<Block>, after: NodeState, m: Message)
  {
    forall h: Config, peer: NodeState ::
      h.crypto == g.crypto && SameNetwork(g, h) && NodeOk(h, peer) && peer.chain == before ==>
        Reaches(h, peer, after, m)
  }

  ghost predicate Reaches(h: Config, peer: NodeState, after: NodeState, m: Message)
  {
    && Runs(h, peer)
    && Handle(h, peer, m).node.chain == after.chain
    && Handle(h, peer, m).node.accounts == after.accounts
  }

  lemma SameChainSameAccounts(g: Config, n: NodeState, h: Config, peer: NodeState)
    requires NodeOk(g, n) && NodeOk(h, peer) && SameNetwork(g, h) && peer.chain == n.chain
    ensures peer.accounts == n.accounts
  {
    hide PoolOk, LinkedAt, DbHolds;
  }

  /** A block that a node takes is taken by every peer with the same chain, to the same effect. */
  lemma BlockBringsPeers(g: Config, n: NodeState, b: Block)
    requires NodeOk(g, n) && Runs(g, n) && Takes(g, n, b)
    ensures BringsPeersTo(g, n.chain, Accept(g, n, b), NewBlock(b))
  {
    hide NodeOk, Acceptable, Revalidated, ApplyOrKeep, AcceptWrites, Written;
    forall h: Config, peer: NodeState
      | h.crypto == g.crypto && SameNetwork(g, h) && NodeOk(h, peer) && peer.chain == n.chain
      ensures Reaches(h, peer, Accept(g, n, b), NewBlock(b))
    {
      NodeHasGenesis(h, peer);
      SameChainSameAccounts(g, n, h, peer);
    }
  }

  /** Production reaches peers: on its turn a node adds one block - the next index, its selected transactions,
      the time given - and sends a message that makes every peer with the same chain take that block. */
  lemma ProductionReachesPeers(g: Config, n: NodeState, now: U64)
    requires ConfigOk(g) && NodeOk(g, n) && Runs(g, n) && OwnTurn(g, n)
    ensures var after := Produce(g, n, now).node;
            && |after.chain| == |n.chain| + 1 && after.chain[..|n.chain|] == n.chain
            && after.chain[|n.chain|].index == |n.chain|
            && after.chain[|n.chain|].transactions == Selected(n.pool, 100)
            && after.chain[|n.chain|].timestamp == now
            && exists m :: m in Produce(g, n, now).forward && BringsPeersTo(g, n.chain, after, m)
  {
    hide NodeOk, Selected, BringsPeersTo, Accept, Acceptable, ConfigOk;
    var b := Draft(g, n, now);
    ProduceSucceeds(g, n, now);
    DraftIsTaken(g, n, now);
    BlockBringsPeers(g, n, b);
    assert NewBlock(b) in Produce(g, n, now).forward;
  }

  /** A new block is passed on: whenever handling a NEW_BLOCK makes the chain grow, the node sends all others a
      message that makes every peer with the old chain take the block too. */
  lemma BlocksArePassedOn(g: Config, n: NodeState, b: Block)
    requires NodeOk(g, n) && Runs(g, n) && Handle(g, n, NewBlock(b)).node.chain != n.chain
    ensures var out := Handle(g, n, NewBlock(b));
            exists m :: m in out.forward && BringsPeersTo(g, n.chain, out.node, m)
  {
    hide NodeOk, BringsPeersTo, Accept, Acceptable;
    BlockBringsPeers(g, n, b);
    assert NewBlock(b) in Handle(g, n, NewBlock(b)).forward;
  }

  /** ... and conversely, the scheduled next block does make the chain grow, whoever sends it. */
  lemma NextBlockIsTaken(g: Config, n: NodeState, b: Block)
    requires NodeOk(g, n) && Runs(g, n) && ChainOk(g, n.chain + [b])
    ensures Handle(g, n, NewBlock(b)).node.chain == n.chain + [b]
  {
    hide PoolOk, DbHolds, VerifyBlock;
    NextExtends(g, n.chain + [b], |n.chain|);
    assert (n.chain + [b])[..|n.chain|] == n.chain;
    assert LinkedAt(g.crypto, n.chain + [b], |n.chain|);
  }

  /** Every peer with the same accounts and the same pool files the transaction by handling m. */
  ghost predicate BringsTransaction(g: Config, n: NodeState, tx: Transaction, m: Message)
  {
    forall h: Config, peer: NodeState ::
      h.crypto == g.crypto && Runs(h, peer) && peer.accounts == n.accounts && peer.pool == n.pool ==>
        tx.hash in Handle(h, peer, m).node.pool.pending && Handle(h, peer, m).node.pool.pending[tx.hash] == tx
  }

  lemma TransactionBringsPeers(g: Config, n: NodeState, tx: Transaction)
    requires Accepts(g.crypto, n.accounts, n.pool, tx)
    ensures BringsTransaction(g, n, tx, NewTx(tx))
  {
    hide VerifyTransaction;
  }

  /** A submitted transaction that enters the pool is sent to all peers. */
  lemma SubmissionsAreSent(g: Config, n: NodeState, tx: Transaction)
    requires Submit(g, n, tx).node.pool != n.pool
    ensures exists m :: m in Submit(g, n, tx).forward && BringsTransaction(g, n, tx, m)
  {
    hide BringsTransaction, Accepts;
    TransactionBringsPeers(g, n, tx);
    assert NewTx(tx) in Submit(g, n, tx).forward;
  }

  /** A peer's transaction that enters the pool is passed on to all others. */
  lemma TransactionsArePassedOn(g: Config, n: NodeState, tx: Transaction)
    requires Runs(g, n) && Handle(g, n, NewTx(tx)).node.pool != n.pool
    ensures exists m :: m in Handle(g, n, NewTx(tx)).forward && BringsTransaction(g, n, tx, m)
  {
    hide BringsTransaction, Accepts;
    TransactionBringsPeers(g, n, tx);
    assert NewTx(tx) in Handle(g, n, NewTx(tx)).forward;
  }

  // ---------------------------------------------------------------- requests and answers

  /** A request for blocks gets exactly one answer: the blocks from that index to the tip, in order. */
  lemma RequestsAreAnswered(h: Config, peer: NodeState, start: nat)
    requires Runs(h, peer)
    ensures Handle(h, peer, GetBlocks(start)).node == peer
    ensures exists blocks ::
              && Handle(h, peer, GetBlocks(start)).reply == [Blocks(blocks)]
              && |blocks| == (if start < |peer.chain| then |peer.chain| - start else 0)
              && forall i :: 0 <= i < |blocks| ==> blocks[i] == peer.chain[start + i]
  {
    hide OnBlocks, Nodes.OnNewBlock, Nodes.OnNewTx;
    var blocks := if start < |peer.chain| then peer.chain[start..] else [];
    assert Handle(h, peer, GetBlocks(start)).reply == [Blocks(blocks)];
  }

  lemma PingIsAnswered(g: Config, n: NodeState)
    requires Runs(g, n)
    ensures Pong in Handle(g, n, Ping).reply && Handle(g, n, Ping).node == n
    ensures Handle(g, n, Pong) == Outcome(n, [], [], [])
  {
  }

  /** A node that is behind catches up: on a block ahead of its height it sends a request such that the answer
      of any peer with a comparable chain brings it up to that peer. */
  lemma AheadRoundCatchesUp(g: Config, n: NodeState, h: Config, peer: NodeState, b: Block)
    requires NodeOk(g, n) && Runs(g, n) && Runs(h, peer)
    requires ChainOk(g, peer.chain) && Comparable(n.chain, peer.chain) && |n.chain| < b.index
    ensures exists request, answer ::
              && request in Handle(g, n, NewBlock(b)).reply
              && answer in Handle(h, peer, request).reply
              && peer.chain <= Handle(g, n, answer).node.chain
              && (|n.chain| <= |peer.chain| ==> Handle(g, n, answer).node.accounts == StateOf(g, peer.chain))
  {
    hide NodeOk, ChainOk, OnBlocks;
    var request, answer := GetBlocks(|n.chain|), Nodes.OnGetBlocks(peer, |n.chain|);
    assert request in Handle(g, n, NewBlock(b)).reply;
    assert answer in Handle(h, peer, request).reply;
    SyncRoundCatchesUp(g, n, peer, |n.chain|);
  }

  /** Connecting catches up: on a new session the node sends a request whose answer, given and handled at any
      later times, brings it up to the peer. */
  lemma ConnectingCatchesUp(g: Config, asked: NodeState, n: NodeState, h: Config, peer: NodeState)
    requires NodeOk(g, n) && Runs(g, n) && Runs(h, peer) && asked.chain <= n.chain
    requires ChainOk(g, peer.chain) && Comparable(n.chain, peer.chain)
    ensures exists request, answer ::
              && request in OnPeerConnected(asked).reply
              && answer in Handle(h, peer, request).reply
              && peer.chain <= Handle(g, n, answer).node.chain
  {
    hide NodeOk, ChainOk, OnBlocks;
    var request, answer := GetBlocks(|asked.chain|), Nodes.OnGetBlocks(peer, |asked.chain|);
    assert request in OnPeerConnected(asked).reply;
    assert answer in Handle(h, peer, request).reply;
    ConnectRoundCatchesUp(g, asked, n, h, peer, request, answer);
  }

  /** A BLOCKS message is handled up to the first block that leaves a gap or is rejected, and no further. */
  lemma {:induction false} BlocksStopAtTrouble(g: Config, n: NodeState, blocks: seq<Block>, k: nat)
    requires Runs(g, n) && k < |blocks|
    requires var m := OnBlocks(g, n, blocks[..k]);
             blocks[k].index > |m.chain| || (blocks[k].index == |m.chain| && !Takes(g, m, blocks[k]))
    ensures OnBlocks(g, n, blocks) == OnBlocks(g, n, blocks[..k])
    decreases |blocks|
  {
    hide Takes, Revalidated, AcceptWrites;
    if k > 0 {
      assert blocks[..k][0] == blocks[0] && blocks[..k][1..] == blocks[1..][..k - 1];
      if blocks[0].index < |n.chain| {
        BlocksStopAtTrouble(g, n, blocks[1..], k - 1);
      } else if blocks[0].index == |n.chain| && Takes(g, n, blocks[0]) {
        BlocksStopAtTrouble(g, Accept(g, n, blocks[0]), blocks[1..], k - 1);
      }
    }
  }
}

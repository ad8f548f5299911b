/** Runs in which peers send whatever they like: forged blocks, blocks whose transactions do not apply, two
    blocks for one index. Nodes may then disagree, but each stays consistent in itself. */
module AnyPeers {
  import opened Common
  import opened Records
  import opened Commitment
  import opened Ledger
  import opened Ordering
  import opened Pools
  import opened Chains
  import opened Stores
  import opened Nodes
  import opened Nonces
  import opened Network

  ghost predicate ConfigsOk(net: Net)
  {
    net.authorities != [] && forall i :: 0 <= i < |net.members| ==> ConfigOk(ConfigOf(net, i))
  }

  /** A step in which any message at all may arrive. */
  ghost function StepAny(net: Net, s: System, e: Event): System
  {
    if WellPlaced(net, s) && Possible(net, s, e) then After(net, s, e) else s
  }

  ghost function RunAny(net: Net, events: seq<Event>): System
    requires net.authorities != []
  {
    if events == [] then Start(net)
    else StepAny(net, RunAny(net, events[..|events| - 1]), events[|events| - 1])
  }

  /** How many transactions come in with an event. */
  function EventLoad(e: Event): nat
  {
    match e
    case Deliver(_, m) => Load(m)
    case DieDelivering(_, m, _) => Load(m)
    case Client(_, _) => 1
    case _ => 0
  }

  function TotalLoad(events: seq<Event>): nat
  {
    if events == [] then 0 else TotalLoad(events[..|events| - 1]) + EventLoad(events[|events| - 1])
  }

  ghost predicate NodesOk(net: Net, s: System, k: nat)
  {
    && WellPlaced(net, s)
    && AllLow(net, s, k)
    && forall i :: 0 <= i < |s.nodes| ==> NodeOk(ConfigOf(net, i), s.nodes[i])
  }

  lemma AnyEventLow(net: Net, s: System, e: Event, k: nat)
    requires WellPlaced(net, s) && Possible(net, s, e) && EventFits(net, s, e) && k < MAX_U64
    requires ConfigOk(ConfigOf(net, e.node)) && NodeOk(ConfigOf(net, e.node), s.nodes[e.node])
    requires Low(ConfigOf(net, e.node), s.nodes[e.node], k)
    ensures Low(ConfigOf(net, e.node), NodeAfter(net, s, e), k + EventLoad(e))
  {
    hide NodeOk, Handle, Submit, Produce, ConfigOk, ChainLow, PoolLow, Written, Recovered, NonceFits;
    var g, n := ConfigOf(net, e.node), s.nodes[e.node];
    EventKeepsNode(net, s, e);
    match e
    case Deliver(_, m) => HandleLow(g, n, m, k);
    case MakeBlock(_, now) => ProduceLow(g, n, now, k);
    case Client(_, tx) =>
      LowGrows(g, n, k, k + 1);
      SubmitKeepsChain(g, n, tx);
      SubmitLow(g, n, tx, k);
    case Connect(_) =>
    case _ => AnyDeathLow(net, s, e, k);
  }

  lemma AnyDeathLow(net: Net, s: System, e: Event, k: nat)
    requires WellPlaced(net, s) && Possible(net, s, e) && Dies(e) && k < MAX_U64
    requires ConfigOk(ConfigOf(net, e.node)) && NodeOk(ConfigOf(net, e.node), s.nodes[e.node])
    requires NodeOk(ConfigOf(net, e.node), NodeAfter(net, s, e))
    requires Low(ConfigOf(net, e.node), s.nodes[e.node], k)
    ensures Low(ConfigOf(net, e.node), NodeAfter(net, s, e), k + EventLoad(e))
  {
    hide NodeOk, Handle, Produce, ConfigOk, ChainLow, PoolLow, Written, Recovered;
    var g, n := ConfigOf(net, e.node), s.nodes[e.node];
    var r := NodeAfter(net, s, e);
    NodeHasGenesis(g, r);
    EmptyLow(k + EventLoad(e));
    match e
    case Restart(_) => RestartSame(g, n);
    case DieDelivering(_, m, j) =>
      HandleLow(g, n, m, k);
      CrashDuringHandle(g, n, m, j);
      PrefixLow(g, r.chain, Handle(g, n, m).node.chain, k + Load(m));
    case DieMaking(_, now, j) =>
      ProduceLow(g, n, now, k);
      DeathWhileMaking(g, n, now, j);
      PrefixLow(g, r.chain, Produce(g, n, now).node.chain, k);
  }

  lemma EmptyLow(k: nat)
    ensures PoolLow(EMPTY, k)
  {
  }

  lemma StepAnyKeepsNodes(net: Net, s: System, e: Event, k: nat)
    requires ConfigsOk(net) && NodesOk(net, s, k) && k < MAX_U64
    ensures NodesOk(net, StepAny(net, s, e), k + EventLoad(e))
    ensures |StepAny(net, s, e).nodes| == |s.nodes|
    ensures forall i :: 0 <= i < |s.nodes| ==> s.nodes[i].chain <= StepAny(net, s, e).nodes[i].chain
  {
    hide NodeOk, NodeAfter, SentBy, Low, OutcomeOf, ConfigOk, EventFits, EventLoad;
    var after := StepAny(net, s, e);
    if Possible(net, s, e) {
      LowEventFits(net, s, e, k);
      EventKeepsNode(net, s, e);
      AnyEventLow(net, s, e, k);
    }
    forall i | 0 <= i < |s.nodes|
      ensures Low(ConfigOf(net, i), after.nodes[i], k + EventLoad(e)) && NodeOk(ConfigOf(net, i), after.nodes[i])
      ensures after.nodes[i].chain != []
    {
      LowGrows(ConfigOf(net, i), s.nodes[i], k, k + EventLoad(e));
      NodeHasGenesis(ConfigOf(net, i), after.nodes[i]);
    }
  }

  lemma StartNodesOk(net: Net)
    requires ConfigsOk(net)
    ensures NodesOk(net, Start(net), 0)
  {
    hide PoolOk, VerifyBlock;
    var s := Start(net);
    forall i | 0 <= i < |s.nodes|
      ensures NodeOk(ConfigOf(net, i), s.nodes[i]) && Low(ConfigOf(net, i), s.nodes[i], 0)
      ensures s.nodes[i].chain != []
    {
      var g := ConfigOf(net, i);
      assert ConfigOk(g);
      GenesisIsValid(net.crypto, Some(net.authorities), net.genesisKeys);
      BootRestores(g, map[], [Genesis(g)]);
      GenesisLow(g, 0);
    }
  }

  /** Every node stays consistent in every run, whatever arrives, as long as fewer than 2^64 - 1 transactions
      come in. */
  lemma {:induction false} AnyRunKeepsNodes(net: Net, events: seq<Event>)
    requires ConfigsOk(net) && TotalLoad(events) < MAX_U64
    ensures NodesOk(net, RunAny(net, events), TotalLoad(events))
  {
    hide NodesOk, StepAny, EventLoad, ConfigOk;
    if events == [] {
      StartNodesOk(net);
    } else {
      var k := |events| - 1;
      AnyRunKeepsNodes(net, events[..k]);
      StepAnyKeepsNodes(net, RunAny(net, events[..k]), events[k], TotalLoad(events[..k]));
    }
  }

  /** Replay invariant over runs: in every reachable state of every node, even with arbitrary peer blocks, the
      chain validates from genesis and the accounts are the fold of applyBlock over it, failing blocks as
      no-ops; with storage, a restart at this point rebuilds exactly this chain and these accounts. */
  lemma {:induction false} ReachableStatesAreReplays(net: Net, events: seq<Event>, i: nat)
    requires ConfigsOk(net) && TotalLoad(events) < MAX_U64 && i < |net.members|
    ensures |RunAny(net, events).nodes| == |net.members|
    ensures var n := RunAny(net, events).nodes[i];
            && ValidChain(net.crypto, Some(net.authorities), n.chain)
            && n.chain[0] == CreateGenesisBlock(net.crypto, net.genesisKeys)
            && n.accounts == Replay(GenesisAccounts(net.allocations), n.chain)
            && PoolOk(net.crypto, n.accounts, n.pool)
            && (net.members[i].persistent ==>
                  Boot(ConfigOf(net, i), n.db) == NodeState(n.chain, n.accounts, EMPTY, n.db))
  {
    hide RunAny, PoolOk, VerifyBlock, Low, Boot;
    AnyRunKeepsNodes(net, events);
    var n := RunAny(net, events).nodes[i];
    assert NodeOk(ConfigOf(net, i), n);
    if net.members[i].persistent {
      BootRestores(ConfigOf(net, i), n.db, n.chain);
    }
  }

  /** ... and no continuation of the run takes a block back. */
  lemma {:induction false} AnyRunGrows(net: Net, events: seq<Event>, more: seq<Event>, i: nat)
    requires ConfigsOk(net) && TotalLoad(events + more) < MAX_U64 && i < |net.members|
    ensures |RunAny(net, events).nodes| == |RunAny(net, events + more).nodes| == |net.members|
    ensures RunAny(net, events).nodes[i].chain <= RunAny(net, events + more).nodes[i].chain
    decreases |more|
  {
    hide StepAny, EventLoad, ConfigOk, NodeOk, AllLow;
    var all := events + more;
    if more == [] {
      assert all == events;
      AnyRunKeepsNodes(net, events);
    } else {
      var k := |more| - 1;
      assert all[..|all| - 1] == events + more[..k];
      AnyRunGrows(net, events, more[..k], i);
      AnyRunKeepsNodes(net, events + more[..k]);
      StepAnyKeepsNodes(net, RunAny(net, events + more[..k]), more[k], TotalLoad(events + more[..k]));
    }
  }

  // ---------------------------------------------------------------- nothing without a signature

  /** The transaction's sender is the address of its public key, its hash is the digest of its signed text, and
      the signature verifies under that key. */
  ghost predicate SignedBySender(c: Suite, t: Transaction)
  {
    && t.sender == DeriveAddress(c, t.senderPublicKey)
    && t.hash == c.sha256(SignedText(c, t))
    && c.verify(t.hash, t.signature, t.senderPublicKey)
  }

  lemma VerifiedIsSigned(c: Suite, t: Transaction)
    requires VerifyTransaction(c, t)
    ensures SignedBySender(c, t)
  {
  }

  /** Every block after genesis, in every reachable chain: made by the authority whose turn its index is, hashed
      over its header, signed under that authority's key, and holding only transactions signed by their senders. */
  lemma {:induction false} BlocksAreSigned(net: Net, events: seq<Event>, i: nat, k: nat)
    requires ConfigsOk(net) && TotalLoad(events) < MAX_U64 && i < |net.members|
    requires |RunAny(net, events).nodes| == |net.members| && 1 <= k < |RunAny(net, events).nodes[i].chain|
    ensures var c, b := net.crypto, RunAny(net, events).nodes[i].chain[k];
            && b.index == k
            && b.validator == net.authorities[k % |net.authorities|]
            && b.validator == DeriveAddress(c, b.validatorPublicKey)
            && b.hash == c.sha256(HeaderText(c, b))
            && c.verify(b.hash, b.signature, b.validatorPublicKey)
            && forall t :: t in b.transactions ==> SignedBySender(c, t)
  {
    hide RunAny, PoolOk, SignedBySender, VerifyTransaction, VerifyEach;
    ReachableStatesAreReplays(net, events, i);
    var chain := RunAny(net, events).nodes[i].chain;
    assert LinkedAt(net.crypto, chain, k) && Scheduled(Some(net.authorities), chain[k]);
    VerifyEachMeans(net.crypto, chain[k].transactions);
    forall t | t in chain[k].transactions ensures SignedBySender(net.crypto, t) {
      VerifiedIsSigned(net.crypto, t);
    }
  }

  /** No debit without a signature: in every reachable state, even with arbitrary peers, a block that lowers an
      address's balance or moves its nonce holds a transaction of that address, signed under its key. */
  lemma {:induction false} NoDebitWithoutSignature(net: Net, events: seq<Event>, i: nat, k: nat, a: Address)
    requires ConfigsOk(net) && TotalLoad(events) < MAX_U64 && i < |net.members|
    requires |RunAny(net, events).nodes| == |net.members| && 1 <= k < |RunAny(net, events).nodes[i].chain|
    requires var s, chain := GenesisAccounts(net.allocations), RunAny(net, events).nodes[i].chain;
             || BalanceOf(Replay(s, chain[..k + 1]), a) < BalanceOf(Replay(s, chain[..k]), a)
             || NonceOf(Replay(s, chain[..k + 1]), a) != NonceOf(Replay(s, chain[..k]), a)
    ensures exists t :: t in RunAny(net, events).nodes[i].chain[k].transactions
                        && t.sender == a && SignedBySender(net.crypto, t)
  {
    hide RunAny, SignedBySender, ConfigOk, Replay;
    BlocksAreSigned(net, events, i, k);
    assert ConfigOk(ConfigOf(net, i));
    var chain := RunAny(net, events).nodes[i].chain;
    var s := GenesisAccounts(net.allocations);
    SupplyOfConfig(net, i);
    assert chain[..k + 1] == chain[..k] + [chain[k]];
    ReplayExtends(s, chain[..k], chain[k]);
    ReplaySupply(s, chain[..k]);
    var t := Debitor(Replay(s, chain[..k]), chain[k].transactions, a);
    assert t in chain[k].transactions && t.sender == a;
  }

  lemma SupplyOfConfig(net: Net, i: nat)
    requires i < |net.members| && ConfigOk(ConfigOf(net, i))
    ensures Supply(GenesisAccounts(net.allocations)) <= MAX_U64
  {
  }

  /** A block that lowers a balance or moves a nonce holds a transaction of that sender. */
  lemma Debitor(s: Accounts, txs: seq<Transaction>, a: Address) returns (t: Transaction)
    requires Supply(s) <= MAX_U64
    requires BalanceOf(ApplyOrKeep(s, txs), a) < BalanceOf(s, a) || NonceOf(ApplyOrKeep(s, txs), a) != NonceOf(s, a)
    ensures t in txs && t.sender == a
  {
    BlockFlows(s, txs, a);
    BlockNonces(s, txs, a);
    ProjMembers(txs, a);
    t := Proj(txs, a)[0];
    assert t in Proj(txs, a);
  }

  /** The same of every pooled transaction, which is filed under its own hash. */
  lemma {:induction false} PooledAreSigned(net: Net, events: seq<Event>, i: nat, h: Hash)
    requires ConfigsOk(net) && TotalLoad(events) < MAX_U64 && i < |net.members|
    requires |RunAny(net, events).nodes| == |net.members| && h in RunAny(net, events).nodes[i].pool.pending
    ensures RunAny(net, events).nodes[i].pool.pending[h].hash == h
    ensures SignedBySender(net.crypto, RunAny(net, events).nodes[i].pool.pending[h])
  {
    hide RunAny, ValidChain, Replay, VerifyTransaction, SignedBySender;
    ReachableStatesAreReplays(net, events, i);
    VerifiedIsSigned(net.crypto, RunAny(net, events).nodes[i].pool.pending[h]);
  }
}

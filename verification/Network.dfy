/** A network of honest nodes (src/net/node.cpp as a protocol). Messages may be reordered, duplicated or
    lost; processes may die after any storage write and restart from storage. */
module Network {
  import opened Common
  import opened Records
  import opened Ledger
  import opened Pools
  import opened Chains
  import opened Stores
  import opened Nodes
  import opened Nonces

  datatype Member = Member(keys: KeyPair, persistent: bool)

  /** What all nodes share, and who they are. */
  datatype Net = Net(
    crypto: Suite,
    authorities: seq<Address>,
    allocations: map<Address, U64>,
    genesisKeys: KeyPair,
    members: seq<Member>)

  function ConfigOf(net: Net, i: nat): Config
    requires i < |net.members|
  {
    Config(net.crypto, net.members[i].keys, net.authorities, net.allocations, net.genesisKeys,
           net.members[i].persistent)
  }

  /** Node i is the one scheduled for index k. */
  ghost predicate Owns(net: Net, i: nat, k: nat)
  {
    && net.authorities != []
    && i < |net.members|
    && NodeAddress(ConfigOf(net, i)) == Producer(net.authorities, k)
  }

  /** Matching keys, bounded supply, and no authority run by two nodes. */
  ghost predicate NetOk(net: Net)
  {
    && net.authorities != []
    && SignsFor(net.crypto, net.genesisKeys)
    && Supply(GenesisAccounts(net.allocations)) <= MAX_U64
    && (forall i :: 0 <= i < |net.members| ==> SignsFor(net.crypto, net.members[i].keys))
    && (forall i, j, k :: Owns(net, i, k) && Owns(net, j, k) ==> i == j)
  }

  /** The nodes between two steps, and every message sent so far. */
  datatype System = System(nodes: seq<NodeState>, sent: set<Message>)

  function BlocksIn(m: Message): seq<Block>
  {
    match m
    case NewBlock(b) => [b]
    case Blocks(blocks) => blocks
    case _ => []
  }

  ghost predicate Published(s: System, b: Block)
  {
    exists m :: m in s.sent && b in BlocksIn(m)
  }

  /** What can arrive: any message sent at any time, however often and in whatever order - and, from
      outside, anything at all as long as it carries no block that would verify under the scheduled
      authority's key and yet was never sent. */
  ghost predicate Deliverable(net: Net, s: System, m: Message)
    requires net.authorities != []
  {
    forall b :: b in BlocksIn(m) && Acceptable(net.crypto, Some(net.authorities), b) ==> Published(s, b)
  }

  datatype Event =
    | Deliver(node: nat, m: Message)
    | MakeBlock(node: nat, now: U64)
    | Client(node: nat, tx: Transaction)
    | Connect(node: nat)
    | Restart(node: nat)
    | DieDelivering(node: nat, m: Message, writes: nat)
    | DieMaking(node: nat, now: U64, writes: nat)

  ghost predicate WellPlaced(net: Net, s: System)
  {
    && net.authorities != []
    && |s.nodes| == |net.members|
    && forall i :: 0 <= i < |s.nodes| ==> s.nodes[i].chain != []
  }

  /** The outcome of the handler that the event runs, to its end. */
  ghost function OutcomeOf(net: Net, s: System, e: Event): Outcome
    requires WellPlaced(net, s) && e.node < |s.nodes|
  {
    var i := e.node;
    var g, n := ConfigOf(net, i), s.nodes[i];
    match e
    case Deliver(_, m) => Handle(g, n, m)
    case MakeBlock(_, now) => Produce(g, n, now)
    case Client(_, tx) => Submit(g, n, tx)
    case Connect(_) => OnPeerConnected(n)
    case Restart(_) => Outcome(n, [], [], [])
    case DieDelivering(_, m, _) => Handle(g, n, m)
    case DieMaking(_, now, _) => Produce(g, n, now)
  }

  /** What can happen at all: only nodes with storage restart, and a process dies after some of its writes. */
  ghost predicate Possible(net: Net, s: System, e: Event)
    requires WellPlaced(net, s)
  {
    && e.node < |s.nodes|
    && match e
       case Restart(i) => net.members[i].persistent
       case DieDelivering(i, _, j) => net.members[i].persistent && j <= |OutcomeOf(net, s, e).writes|
       case DieMaking(i, _, j) => net.members[i].persistent && j <= |OutcomeOf(net, s, e).writes|
       case _ => true
  }

  /** What can happen among honest nodes. */
  ghost predicate Enabled(net: Net, s: System, e: Event)
    requires WellPlaced(net, s)
  {
    Possible(net, s, e) && (e.Deliver? || e.DieDelivering? ==> Deliverable(net, s, e.m))
  }

  predicate Dies(e: Event)
  {
    e.Restart? || e.DieDelivering? || e.DieMaking?
  }

  /** The writes that reached the disk before the process died. */
  ghost function Survived(net: Net, s: System, e: Event): seq<Write>
    requires WellPlaced(net, s) && Possible(net, s, e) && Dies(e)
  {
    match e
    case Restart(_) => []
    case DieDelivering(_, _, j) => OutcomeOf(net, s, e).writes[..j]
    case DieMaking(_, _, j) => OutcomeOf(net, s, e).writes[..j]
  }

  /** The node afterwards: the handler's result, or what a new process rebuilds from the disk. */
  ghost function NodeAfter(net: Net, s: System, e: Event): NodeState
    requires WellPlaced(net, s) && Possible(net, s, e)
  {
    if Dies(e) then Boot(ConfigOf(net, e.node), Written(s.nodes[e.node].db, Survived(net, s, e)))
    else OutcomeOf(net, s, e).node
  }

  /** Broadcasts happen after the lock is released, so a process that dies inside a handler sends nothing. */
  ghost function SentBy(net: Net, s: System, e: Event): seq<Message>
    requires WellPlaced(net, s) && Possible(net, s, e)
  {
    if Dies(e) then [] else OutcomeOf(net, s, e).reply + OutcomeOf(net, s, e).forward
  }

  ghost function After(net: Net, s: System, e: Event): System
    requires WellPlaced(net, s) && Possible(net, s, e)
  {
    System(s.nodes[e.node := NodeAfter(net, s, e)], s.sent + (set m | m in SentBy(net, s, e)))
  }

  /** An event that cannot happen changes nothing. */
  ghost function Step(net: Net, s: System, e: Event): System
  {
    if WellPlaced(net, s) && Enabled(net, s, e) then After(net, s, e) else s
  }

  ghost function Start(net: Net): System
    requires net.authorities != []
  {
    System(seq(|net.members|, i requires 0 <= i < |net.members| => Boot(ConfigOf(net, i), map[])), {})
  }

  /** Anything that was ever sent can arrive, at any node and at any later time. */
  lemma SentIsDeliverable(net: Net, s: System, m: Message)
    requires net.authorities != [] && m in s.sent
    ensures Deliverable(net, s, m)
  {
    hide Acceptable;
    forall b | b in BlocksIn(m) ensures Published(s, b) {
    }
  }

  // ---------------------------------------------------------------- the invariant

  /** The block stands in its own producer's chain. */
  ghost predicate Backed(net: Net, nodes: seq<NodeState>, b: Block)
  {
    exists p :: 0 <= p < |nodes| && Owns(net, p, b.index) && b.index < |nodes[p].chain|
                && nodes[p].chain[b.index] == b
  }

  ghost predicate AllBacked(net: Net, nodes: seq<NodeState>, chain: seq<Block>)
  {
    forall k :: 1 <= k < |chain| ==> Backed(net, nodes, chain[k])
  }

  /** The chain is no longer than, and agrees with, some node's chain. */
  ghost predicate Within(nodes: seq<NodeState>, chain: seq<Block>)
  {
    exists p :: 0 <= p < |nodes| && chain <= nodes[p].chain
  }

  ghost predicate NoFork(nodes: seq<NodeState>)
  {
    forall i, j :: 0 <= i < |nodes| && 0 <= j < |nodes| ==> Comparable(nodes[i].chain, nodes[j].chain)
  }

  ghost predicate MemberOk(net: Net, nodes: seq<NodeState>, i: nat)
    requires |nodes| == |net.members| && i < |nodes|
  {
    && NodeOk(ConfigOf(net, i), nodes[i])
    && AllBacked(net, nodes, nodes[i].chain)
    && AllApply(GenesisAccounts(net.allocations), nodes[i].chain)
  }

  ghost predicate Inv(net: Net, s: System)
  {
    && WellPlaced(net, s)
    && (forall i :: 0 <= i < |s.nodes| ==> MemberOk(net, s.nodes, i))
    && NoFork(s.nodes)
    && (forall b :: Published(s, b) && b.index >= 1 ==> Backed(net, s.nodes, b))
  }

  lemma MemberConfigOk(net: Net, i: nat)
    requires NetOk(net) && i < |net.members|
    ensures ConfigOk(ConfigOf(net, i))
  {
  }

  lemma BackedGrows(net: Net, nodes: seq<NodeState>, q: nat, n: NodeState, b: Block)
    requires q < |nodes| && nodes[q].chain <= n.chain && Backed(net, nodes, b)
    ensures Backed(net, nodes[q := n], b)
  {
    var p :| 0 <= p < |nodes| && Owns(net, p, b.index) && b.index < |nodes[p].chain|
             && nodes[p].chain[b.index] == b;
    assert nodes[q := n][p].chain[b.index] == b;
  }

  lemma ApplyPrefix(s: Accounts, chain: seq<Block>, k: nat)
    requires AllApply(s, chain) && k <= |chain|
    ensures AllApply(s, chain[..k])
  {
    forall i | 1 <= i < k ensures ApplyAll(Replay(s, chain[..k][..i]), chain[..k][i].transactions).Some? {
      assert chain[..k][..i] == chain[..i];
    }
  }

  /** A chain within another inherits what the invariant says of it. */
  lemma {:induction false} WithinInherits(net: Net, s: System, chain: seq<Block>)
    requires Inv(net, s) && Within(s.nodes, chain)
    ensures AllBacked(net, s.nodes, chain)
    ensures AllApply(GenesisAccounts(net.allocations), chain)
    ensures forall j :: 0 <= j < |s.nodes| ==> Comparable(chain, s.nodes[j].chain)
  {
    hide NodeOk;
    var p :| 0 <= p < |s.nodes| && chain <= s.nodes[p].chain;
    assert MemberOk(net, s.nodes, p);
    assert chain == s.nodes[p].chain[..|chain|];
    ApplyPrefix(GenesisAccounts(net.allocations), s.nodes[p].chain, |chain|);
    forall k | 1 <= k < |chain| ensures Backed(net, s.nodes, chain[k]) {
      assert chain[k] == s.nodes[p].chain[k];
    }
    forall j | 0 <= j < |s.nodes| ensures Comparable(chain, s.nodes[j].chain) {
      assert Comparable(s.nodes[p].chain, s.nodes[j].chain);
    }
  }

  /** Replacing one node by one whose chain has grown, keeps the network free of forks if the new chain is
      comparable with the others' and its blocks are backed and apply. */
  lemma ReplaceNode(net: Net, s: System, q: nat, n: NodeState)
    requires Inv(net, s) && q < |s.nodes|
    requires NodeOk(ConfigOf(net, q), n) && s.nodes[q].chain <= n.chain
    requires AllBacked(net, s.nodes[q := n], n.chain)
    requires AllApply(GenesisAccounts(net.allocations), n.chain)
    requires forall j :: 0 <= j < |s.nodes| ==> Comparable(n.chain, s.nodes[j].chain)
    ensures Inv(net, System(s.nodes[q := n], s.sent))
  {
    hide NodeOk, AllApply;
    var after := s.nodes[q := n];
    forall i | 0 <= i < |after| ensures MemberOk(net, after, i) {
      assert MemberOk(net, s.nodes, i);
      if i != q {
        forall k | 1 <= k < |after[i].chain| ensures Backed(net, after, after[i].chain[k]) {
          BackedGrows(net, s.nodes, q, n, after[i].chain[k]);
        }
      }
    }
    forall b | Published(System(after, s.sent), b) && b.index >= 1 ensures Backed(net, after, b) {
      assert Published(s, b);
      BackedGrows(net, s.nodes, q, n, b);
    }
    assert n.chain != [];
  }

  lemma {:induction false} ReplaceWithin(net: Net, s: System, q: nat, n: NodeState)
    requires Inv(net, s) && q < |s.nodes|
    requires NodeOk(ConfigOf(net, q), n) && s.nodes[q].chain <= n.chain && Within(s.nodes, n.chain)
    ensures Inv(net, System(s.nodes[q := n], s.sent))
  {
    hide NodeOk, AllApply, Within;
    WithinInherits(net, s, n.chain);
    forall k | 1 <= k < |n.chain| ensures Backed(net, s.nodes[q := n], n.chain[k]) {
      BackedGrows(net, s.nodes, q, n, n.chain[k]);
    }
    ReplaceNode(net, s, q, n);
  }

  lemma SendBacked(net: Net, s: System, messages: seq<Message>)
    requires Inv(net, s)
    requires forall m, b :: m in messages && b in BlocksIn(m) && b.index >= 1 ==> Backed(net, s.nodes, b)
    ensures Inv(net, System(s.nodes, s.sent + (set m | m in messages)))
  {
    hide MemberOk;
    var after := System(s.nodes, s.sent + (set m | m in messages));
    forall b | Published(after, b) && b.index >= 1 ensures Backed(net, s.nodes, b) {
      var m :| m in after.sent && b in BlocksIn(m);
      assert m in s.sent ==> Published(s, b);
    }
  }

  // ---------------------------------------------------------------- delivery

  /** The key step: a block that a node accepts from the network stands in its producer's chain, which is
      longer; so the extended chain lies within the producer's. */
  lemma AcceptedWithin(net: Net, s: System, g: Config, n: NodeState, b: Block)
    requires Inv(net, s) && g.crypto == net.crypto && g.authorities == net.authorities
    requires n.chain != [] && Within(s.nodes, n.chain) && Takes(g, n, b) && Published(s, b)
    ensures Within(s.nodes, n.chain + [b])
  {
    hide MemberOk, VerifyBlock, NoFork, Comparable, Published, AllBacked, AllApply;
    WithinInherits(net, s, n.chain);
    assert Backed(net, s.nodes, b);
    var p :| 0 <= p < |s.nodes| && Owns(net, p, b.index) && b.index < |s.nodes[p].chain|
             && s.nodes[p].chain[b.index] == b;
    OneMore(n.chain, s.nodes[p].chain);
  }

  lemma OneMore(a: seq<Block>, b: seq<Block>)
    requires Comparable(a, b) && |a| < |b|
    ensures a + [b[|a|]] <= b
  {
  }

  lemma {:induction false} BlocksWithin(net: Net, s: System, g: Config, n: NodeState, blocks: seq<Block>)
    requires Inv(net, s) && g.crypto == net.crypto && g.authorities == net.authorities
    requires n.chain != [] && Within(s.nodes, n.chain)
    requires forall b :: b in blocks && Acceptable(g.crypto, Some(g.authorities), b) ==> Published(s, b)
    ensures Within(s.nodes, OnBlocks(g, n, blocks).chain)
    decreases |blocks|
  {
    hide MemberOk, NoFork, Within, VerifyBlock, Published;
    if blocks != [] {
      assert blocks == [blocks[0]] + blocks[1..];
      if blocks[0].index < |n.chain| {
        BlocksWithin(net, s, g, n, blocks[1..]);
      } else if blocks[0].index == |n.chain| && Takes(g, n, blocks[0]) {
        assert blocks[0] in blocks;
        AcceptedWithin(net, s, g, n, blocks[0]);
        BlocksWithin(net, s, g, Accept(g, n, blocks[0]), blocks[1..]);
      }
    }
  }

  /** Handling any deliverable message leaves the node's chain within some node's chain. */
  lemma HandleWithin(net: Net, s: System, q: nat, m: Message)
    requires Inv(net, s) && q < |s.nodes| && Deliverable(net, s, m)
    ensures Within(s.nodes, Handle(ConfigOf(net, q), s.nodes[q], m).node.chain)
  {
    hide MemberOk, NoFork, VerifyBlock, Published;
    var g, n := ConfigOf(net, q), s.nodes[q];
    assert Within(s.nodes, n.chain);
    match m
    case NewBlock(b) =>
      assert b in BlocksIn(m);
      if b.index == |n.chain| && Takes(g, n, b) {
        AcceptedWithin(net, s, g, n, b);
      }
    case Blocks(blocks) => BlocksWithin(net, s, g, n, blocks);
    case _ =>
  }

  ghost predicate StandsIn(chain: seq<Block>, b: Block)
  {
    exists k :: 0 <= k < |chain| && chain[k] == b
  }

  /** Every block a handler sends stands in the chain it leaves behind. */
  lemma SentFromChain(net: Net, s: System, q: nat, m: Message, r: Message, b: Block)
    requires Inv(net, s) && q < |s.nodes|
    requires r in Handle(ConfigOf(net, q), s.nodes[q], m).reply + Handle(ConfigOf(net, q), s.nodes[q], m).forward
    requires b in BlocksIn(r)
    ensures StandsIn(Handle(ConfigOf(net, q), s.nodes[q], m).node.chain, b)
  {
    hide VerifyBlock, MemberOk;
    var n := s.nodes[q];
    match m
    case NewBlock(x) =>
      if x.index == |n.chain| && Takes(ConfigOf(net, q), n, x) {
        assert (n.chain + [x])[|n.chain|] == b;
      }
    case GetBlocks(start) =>
      assert start < |n.chain|;
      var k :| 0 <= k < |n.chain[start..]| && n.chain[start..][k] == b;
      assert n.chain[start + k] == b;
    case _ =>
  }

  lemma DeliverReplaces(net: Net, s: System, q: nat, m: Message)
    requires NetOk(net) && Inv(net, s) && q < |s.nodes| && Deliverable(net, s, m)
    requires m.NewTx? ==> NonceFits(ConfigOf(net, q), s.nodes[q], m.tx)
    ensures NodeOk(ConfigOf(net, q), Handle(ConfigOf(net, q), s.nodes[q], m).node)
    ensures s.nodes[q].chain <= Handle(ConfigOf(net, q), s.nodes[q], m).node.chain
    ensures Inv(net, System(s.nodes[q := Handle(ConfigOf(net, q), s.nodes[q], m).node], s.sent))
  {
    hide NodeOk, AllApply, AllBacked, Handle, Within;
    assert MemberOk(net, s.nodes, q);
    HandleKeepsOk(ConfigOf(net, q), s.nodes[q], m);
    HandleWithin(net, s, q, m);
    ReplaceWithin(net, s, q, Handle(ConfigOf(net, q), s.nodes[q], m).node);
  }

  lemma DeliverKeepsInv(net: Net, s: System, q: nat, m: Message)
    requires NetOk(net) && Inv(net, s) && q < |s.nodes| && Deliverable(net, s, m)
    requires m.NewTx? ==> NonceFits(ConfigOf(net, q), s.nodes[q], m.tx)
    ensures Inv(net, Step(net, s, Deliver(q, m)))
  {
    hide MemberOk, NoFork, Deliverable, Handle, StandsIn, Published, Backed;
    DeliverReplaces(net, s, q, m);
    var out := Handle(ConfigOf(net, q), s.nodes[q], m);
    var mid := System(s.nodes[q := out.node], s.sent);
    forall r, b | r in out.reply + out.forward && b in BlocksIn(r) && b.index >= 1
      ensures Backed(net, mid.nodes, b)
    {
      SentFromChain(net, s, q, m, r, b);
      ChainBlockBacked(net, mid, q, b);
    }
    SendBacked(net, mid, out.reply + out.forward);
  }

  lemma ChainBlockBacked(net: Net, s: System, q: nat, b: Block)
    requires Inv(net, s) && q < |s.nodes| && b.index >= 1
    requires StandsIn(s.nodes[q].chain, b)
    ensures Backed(net, s.nodes, b)
  {
    hide VerifyBlock, PoolOk, AllApply, DbHolds;
    var k :| 0 <= k < |s.nodes[q].chain| && s.nodes[q].chain[k] == b;
    assert MemberOk(net, s.nodes, q);
    assert LinkedAt(net.crypto, s.nodes[q].chain, k);
  }

  // ---------------------------------------------------------------- production

  /** The owner of an index has its block if anybody has. */
  lemma OwnerHolds(net: Net, s: System, q: nat, i: nat, k: nat)
    requires NetOk(net) && Inv(net, s) && q < |s.nodes| && i < |s.nodes|
    requires Owns(net, q, k) && 1 <= k < |s.nodes[i].chain|
    ensures k < |s.nodes[q].chain|
  {
    hide VerifyBlock, PoolOk, AllApply, DbHolds;
    assert MemberOk(net, s.nodes, i);
    assert LinkedAt(net.crypto, s.nodes[i].chain, k);
    assert Backed(net, s.nodes, s.nodes[i].chain[k]);
  }

  /** So the owner of its own next index has the longest chain. */
  lemma OwnerIsAhead(net: Net, s: System, q: nat, i: nat)
    requires NetOk(net) && Inv(net, s) && q < |s.nodes| && i < |s.nodes|
    requires Owns(net, q, |s.nodes[q].chain|)
    ensures s.nodes[i].chain <= s.nodes[q].chain
  {
    hide MemberOk, NetOk;
    assert Comparable(s.nodes[i].chain, s.nodes[q].chain);
    if |s.nodes[i].chain| > |s.nodes[q].chain| {
      OwnerHolds(net, s, q, i, |s.nodes[q].chain|);
    }
  }

  lemma MakeKeepsInv(net: Net, s: System, q: nat, n: NodeState, b: Block)
    requires NetOk(net) && Inv(net, s) && q < |s.nodes|
    requires Owns(net, q, |s.nodes[q].chain|)
    requires NodeOk(ConfigOf(net, q), n) && n.chain == s.nodes[q].chain + [b] && b.index == |s.nodes[q].chain|
    requires ApplyAll(StateOf(ConfigOf(net, q), s.nodes[q].chain), b.transactions).Some?
    ensures Inv(net, System(s.nodes[q := n], s.sent)) && Backed(net, s.nodes[q := n], b)
  {
    hide NodeOk;
    var k := |s.nodes[q].chain|;
    var genesis := GenesisAccounts(net.allocations);
    assert MemberOk(net, s.nodes, q);
    assert s.nodes[q := n][q].chain[k] == b;
    forall i | 1 <= i < |n.chain| ensures Backed(net, s.nodes[q := n], n.chain[i]) {
      if i < k {
        BackedGrows(net, s.nodes, q, n, s.nodes[q].chain[i]);
      }
    }
    forall i | 1 <= i < |n.chain| ensures ApplyAll(Replay(genesis, n.chain[..i]), n.chain[i].transactions).Some? {
      assert n.chain[..i] == s.nodes[q].chain[..i];
      assert s.nodes[q].chain[..k] == s.nodes[q].chain;
    }
    forall j | 0 <= j < |s.nodes| ensures Comparable(n.chain, s.nodes[j].chain) {
      OwnerIsAhead(net, s, q, j);
    }
    ReplaceNode(net, s, q, n);
  }

  lemma {:induction false} MakeBlockKeepsInv(net: Net, s: System, q: nat, now: U64)
    requires NetOk(net) && Inv(net, s) && q < |s.nodes|
    ensures Inv(net, Step(net, s, MakeBlock(q, now)))
  {
    hide NodeOk, AllApply, AllBacked, NoFork, Draft, Takes, Accept, Published, Backed, ConfigOk, Step;
    var g, n := ConfigOf(net, q), s.nodes[q];
    assert MemberOk(net, s.nodes, q);
    MemberConfigOk(net, q);
    MakeBlockIs(net, s, q, now);
    var out := Produce(g, n, now);
    if OwnTurn(g, n) {
      DraftIsTaken(g, n, now);
      ProduceSucceeds(g, n, now);
      DraftIndex(g, n, now);
      AccountsAreReplay(g, n);
      MakeKeepsInv(net, s, q, out.node, Draft(g, n, now));
      SendBacked(net, System(s.nodes[q := out.node], s.sent), out.forward);
    } else {
      assert s.nodes[q := n] == s.nodes;
      SendBacked(net, s, out.forward);
    }
  }

  lemma MakeBlockIs(net: Net, s: System, q: nat, now: U64)
    requires WellPlaced(net, s) && q < |s.nodes|
    ensures var out := Produce(ConfigOf(net, q), s.nodes[q], now);
            Step(net, s, MakeBlock(q, now)) == System(s.nodes[q := out.node], s.sent + (set m | m in out.forward))
  {
    hide Draft, Takes, Accept;
    var out := Produce(ConfigOf(net, q), s.nodes[q], now);
    assert out.reply + out.forward == out.forward;
  }

  lemma DraftIndex(g: Config, n: NodeState, now: U64)
    requires Runs(g, n) && Takes(g, n, Draft(g, n, now))
    ensures Draft(g, n, now).index == |n.chain|
  {
  }

  lemma AccountsAreReplay(g: Config, n: NodeState)
    requires NodeOk(g, n)
    ensures n.accounts == StateOf(g, n.chain)
  {
  }

  lemma SelfWithin(s: System, q: nat)
    requires q < |s.nodes|
    ensures Within(s.nodes, s.nodes[q].chain)
  {
  }

  lemma ClientKeepsInv(net: Net, s: System, q: nat, tx: Transaction)
    requires NetOk(net) && Inv(net, s) && q < |s.nodes| && NonceFits(ConfigOf(net, q), s.nodes[q], tx)
    ensures Inv(net, Step(net, s, Client(q, tx)))
  {
    hide NodeOk, AllApply, AllBacked, NoFork, Accepts, Published, Within;
    var g, n := ConfigOf(net, q), s.nodes[q];
    assert MemberOk(net, s.nodes, q);
    SubmitKeepsOk(g, n, tx);
    var out := Submit(g, n, tx);
    SelfWithin(s, q);
    ReplaceWithin(net, s, q, out.node);
    SendBacked(net, System(s.nodes[q := out.node], s.sent), out.reply + out.forward);
  }

  lemma ConnectKeepsInv(net: Net, s: System, q: nat)
    requires NetOk(net) && Inv(net, s) && q < |s.nodes|
    ensures Inv(net, Step(net, s, Connect(q)))
  {
    hide MemberOk, NoFork, Published;
    assert s.nodes[q := s.nodes[q]] == s.nodes;
    SendBacked(net, s, [GetBlocks(|s.nodes[q].chain|)] + []);
  }

  lemma RebootKeepsInv(net: Net, s: System, q: nat, n: NodeState, messages: seq<Message>)
    requires NetOk(net) && Inv(net, s) && q < |s.nodes| && messages == []
    requires NodeOk(ConfigOf(net, q), n) && s.nodes[q].chain <= n.chain && Within(s.nodes, n.chain)
    ensures Inv(net, System(s.nodes[q := n], s.sent + (set m | m in messages)))
  {
    hide NodeOk, Within, Inv;
    ReplaceWithin(net, s, q, n);
    assert s.sent + (set m | m in messages) == s.sent;
  }

  lemma {:induction false} RestartKeepsInv(net: Net, s: System, q: nat)
    requires NetOk(net) && Inv(net, s) && q < |s.nodes| && net.members[q].persistent
    ensures Inv(net, Step(net, s, Restart(q)))
  {
    hide NoFork, AllApply, AllBacked, PoolOk, VerifyBlock, Within;
    assert MemberOk(net, s.nodes, q);
    BootRestores(ConfigOf(net, q), s.nodes[q].db, s.nodes[q].chain);
    SelfWithin(s, q);
    RebootKeepsInv(net, s, q, Boot(ConfigOf(net, q), Written(s.nodes[q].db, [])), []);
  }

  lemma WithinPrefix(nodes: seq<NodeState>, a: seq<Block>, b: seq<Block>)
    requires a <= b && Within(nodes, b)
    ensures Within(nodes, a)
  {
    var p :| 0 <= p < |nodes| && b <= nodes[p].chain;
    assert a <= nodes[p].chain;
  }

  lemma {:induction false} DieDeliveringKeepsInv(net: Net, s: System, e: Event)
    requires NetOk(net) && Inv(net, s) && e.DieDelivering? && Enabled(net, s, e)
    ensures Inv(net, Step(net, s, e))
  {
    hide NoFork, AllApply, AllBacked, NodeOk, Within, Handle, Boot, Written, Deliverable;
    var g, n := ConfigOf(net, e.node), s.nodes[e.node];
    assert MemberOk(net, s.nodes, e.node);
    CrashDuringHandle(g, n, e.m, e.writes);
    HandleWithin(net, s, e.node, e.m);
    var r := Boot(g, Written(n.db, Handle(g, n, e.m).writes[..e.writes]));
    WithinPrefix(s.nodes, r.chain, Handle(g, n, e.m).node.chain);
    RebootKeepsInv(net, s, e.node, r, []);
  }

  lemma DieMakingKeepsInv(net: Net, s: System, e: Event)
    requires NetOk(net) && Inv(net, s) && e.DieMaking? && Enabled(net, s, e)
    ensures Inv(net, Step(net, s, e))
  {
    hide NoFork, AllApply, AllBacked, NodeOk, Within, Boot, Written, Deliverable, Draft, Extends, AcceptWrites;
    var g, n := ConfigOf(net, e.node), s.nodes[e.node];
    assert MemberOk(net, s.nodes, e.node);
    MemberConfigOk(net, e.node);
    var r := Boot(g, Written(n.db, Produce(g, n, e.now).writes[..e.writes]));
    if OwnTurn(g, n) {
      var b := Draft(g, n, e.now);
      DraftIsTaken(g, n, e.now);
      DraftIndex(g, n, e.now);
      AccountsAreReplay(g, n);
      CrashRecovery(g, n, b, e.writes);
      if e.writes < 2 {
        SelfWithin(s, e.node);
        RebootKeepsInv(net, s, e.node, r, []);
      } else {
        MakeKeepsInv(net, s, e.node, r, b);
        SentNothing(s.sent);
      }
    } else {
      assert Produce(g, n, e.now).writes[..e.writes] == [];
      RestartSame(g, n);
      SelfWithin(s, e.node);
      RebootKeepsInv(net, s, e.node, r, []);
    }
  }

  lemma SentNothing(sent: set<Message>)
    ensures sent + (set m | m in []) == sent
  {
  }

  lemma RestartSame(g: Config, n: NodeState)
    requires g.persistent && NodeOk(g, n)
    ensures NodeOk(g, Boot(g, Written(n.db, []))) && Boot(g, Written(n.db, [])).chain == n.chain
  {
    hide PoolOk, VerifyBlock;
    BootRestores(g, n.db, n.chain);
  }

  // ---------------------------------------------------------------- one node, whatever arrives

  lemma SubmitKeepsChain(g: Config, n: NodeState, tx: Transaction)
    ensures Submit(g, n, tx).node.chain == n.chain
  {
    hide Accepts, Add;
  }

  /** The nonce hypothesis for an event: a transaction that the node takes does not use up the last nonce. */
  ghost predicate EventFits(net: Net, s: System, e: Event)
    requires WellPlaced(net, s) && e.node < |s.nodes|
  {
    && (e.Client? ==> NonceFits(ConfigOf(net, e.node), s.nodes[e.node], e.tx))
    && (e.Deliver? && e.m.NewTx? ==> NonceFits(ConfigOf(net, e.node), s.nodes[e.node], e.m.tx))
  }

  lemma DeathWhileMaking(g: Config, n: NodeState, now: U64, j: nat)
    requires ConfigOk(g) && g.persistent && NodeOk(g, n) && j <= |Produce(g, n, now).writes|
    ensures var r := Boot(g, Written(n.db, Produce(g, n, now).writes[..j]));
            NodeOk(g, r) && n.chain <= r.chain <= Produce(g, n, now).node.chain
  {
    hide NodeOk, Boot, Written, Draft, Extends, AcceptWrites, ConfigOk;
    NodeHasGenesis(g, n);
    if OwnTurn(g, n) {
      DraftIsTaken(g, n, now);
      CrashRecovery(g, n, Draft(g, n, now), j);
    } else {
      assert Produce(g, n, now).writes[..j] == [];
      RestartSame(g, n);
    }
  }

  /** No event takes a node out of its invariant, and none, not even a crash, takes a block away that was in
      the chain when the event began - whatever message it is that arrives. */
  lemma EventKeepsNode(net: Net, s: System, e: Event)
    requires WellPlaced(net, s) && Possible(net, s, e) && EventFits(net, s, e)
    requires ConfigOk(ConfigOf(net, e.node)) && NodeOk(ConfigOf(net, e.node), s.nodes[e.node])
    ensures NodeOk(ConfigOf(net, e.node), NodeAfter(net, s, e))
    ensures s.nodes[e.node].chain <= NodeAfter(net, s, e).chain
  {
    hide NodeOk, Handle, Boot, Written, Submit, ConfigOk, NonceFits, Draft;
    var g, n := ConfigOf(net, e.node), s.nodes[e.node];
    match e
    case Deliver(_, m) => HandleKeepsOk(g, n, m);
    case MakeBlock(_, now) => if OwnTurn(g, n) { ProduceSucceeds(g, n, now); }
    case Client(_, tx) =>
      SubmitKeepsOk(g, n, tx);
      SubmitKeepsChain(g, n, tx);
    case Connect(_) =>
    case Restart(_) => RestartSame(g, n);
    case DieDelivering(_, m, j) => CrashDuringHandle(g, n, m, j);
    case DieMaking(_, now, j) => DeathWhileMaking(g, n, now, j);
  }

  // ---------------------------------------------------------------- nonces

  ghost predicate AllLow(net: Net, s: System, k: nat)
    requires |s.nodes| == |net.members|
  {
    forall i :: 0 <= i < |s.nodes| ==> Low(ConfigOf(net, i), s.nodes[i], k)
  }

  lemma LowEventFits(net: Net, s: System, e: Event, k: nat)
    requires WellPlaced(net, s) && e.node < |s.nodes|
    requires ConfigOk(ConfigOf(net, e.node)) && NodeOk(ConfigOf(net, e.node), s.nodes[e.node])
    requires Low(ConfigOf(net, e.node), s.nodes[e.node], k) && k < MAX_U64
    ensures EventFits(net, s, e)
  {
    hide ConfigOk, NodeOk, Low, NonceFits;
    var g, n := ConfigOf(net, e.node), s.nodes[e.node];
    if e.Client? {
      LowFits(g, n, e.tx, k);
    } else if e.Deliver? && e.m.NewTx? {
      LowFits(g, n, e.m.tx, k);
    }
  }

  lemma WithinLow(net: Net, s: System, q: nat, chain: seq<Block>, k: nat)
    requires |s.nodes| == |net.members| && q < |s.nodes|
    requires AllLow(net, s, k) && chain != [] && Within(s.nodes, chain)
    ensures ChainLow(ConfigOf(net, q), chain, k)
  {
    var p :| 0 <= p < |s.nodes| && chain <= s.nodes[p].chain;
    assert Low(ConfigOf(net, p), s.nodes[p], k);
    PrefixLow(ConfigOf(net, p), chain, s.nodes[p].chain, k);
    forall a: Address ensures SentCount(ConfigOf(net, q), chain, a) <= k {
      assert SentCount(ConfigOf(net, p), chain, a) <= k;
    }
  }

  /** An event raises nonces by at most one: blocks that arrive only repeat what stands in some node's chain. */
  lemma EventLow(net: Net, s: System, e: Event, k: nat)
    requires NetOk(net) && Inv(net, s) && Enabled(net, s, e) && AllLow(net, s, k) && k < MAX_U64
    ensures Low(ConfigOf(net, e.node), NodeAfter(net, s, e), k + 1)
  {
    hide NoFork, AllApply, AllBacked, NodeOk, Within, Handle, Submit, Produce, ConfigOk, Deliverable, ChainLow,
      PoolLow, Written, Recovered;
    var g, n := ConfigOf(net, e.node), s.nodes[e.node];
    assert MemberOk(net, s.nodes, e.node) && Low(g, n, k);
    MemberConfigOk(net, e.node);
    LowEventFits(net, s, e, k);
    EventKeepsNode(net, s, e);
    LowGrows(g, n, k, k + 1);
    match e
    case Deliver(_, m) =>
      HandleWithin(net, s, e.node, m);
      WithinLow(net, s, e.node, Handle(g, n, m).node.chain, k);
      HandlePoolLow(g, n, m, k);
      ChainLowGrows(g, Handle(g, n, m).node.chain, k);
    case MakeBlock(_, now) =>
      ProduceLow(g, n, now, k);
      LowGrows(g, Produce(g, n, now).node, k, k + 1);
    case Client(_, tx) =>
      SubmitKeepsChain(g, n, tx);
      SubmitLow(g, n, tx, k);
    case Connect(_) =>
    case _ => DeathLow(net, s, e, k);
  }

  lemma ChainLowGrows(g: Config, chain: seq<Block>, k: nat)
    requires ChainLow(g, chain, k)
    ensures ChainLow(g, chain, k + 1)
  {
    hide SentCount;
    forall a: Address ensures SentCount(g, chain, a) <= k + 1 {
      assert SentCount(g, chain, a) <= k;
    }
  }

  /** After a restart the pool is empty and the chain is part of one that the bound holds for. */
  lemma DeathLow(net: Net, s: System, e: Event, k: nat)
    requires NetOk(net) && Inv(net, s) && Enabled(net, s, e) && AllLow(net, s, k) && k < MAX_U64 && Dies(e)
    ensures Low(ConfigOf(net, e.node), NodeAfter(net, s, e), k + 1)
  {
    hide NoFork, AllApply, AllBacked, NodeOk, Within, Handle, Produce, ConfigOk, Deliverable, ChainLow, Written,
      Recovered;
    var g, n := ConfigOf(net, e.node), s.nodes[e.node];
    assert MemberOk(net, s.nodes, e.node) && Low(g, n, k);
    MemberConfigOk(net, e.node);
    EventKeepsNode(net, s, e);
    var r := NodeAfter(net, s, e);
    NodeHasGenesis(g, r);
    match e {
      case Restart(_) => RestartSame(g, n);
      case DieDelivering(_, m, j) =>
        CrashDuringHandle(g, n, m, j);
        HandleWithin(net, s, e.node, m);
        WithinPrefix(s.nodes, r.chain, Handle(g, n, m).node.chain);
        WithinLow(net, s, e.node, r.chain, k);
      case DieMaking(_, now, j) =>
        DeathWhileMaking(g, n, now, j);
        ProduceLow(g, n, now, k);
        PrefixLow(g, r.chain, Produce(g, n, now).node.chain, k);
    }
    ChainLowGrows(g, r.chain, k);
  }

  lemma StepKeepsLow(net: Net, s: System, e: Event, k: nat)
    requires NetOk(net) && Inv(net, s) && AllLow(net, s, k) && k < MAX_U64
    ensures |Step(net, s, e).nodes| == |s.nodes| && AllLow(net, Step(net, s, e), k + 1)
  {
    hide MemberOk, NoFork, Backed, Published, NodeAfter, SentBy, Deliverable, Low, OutcomeOf;
    forall i | 0 <= i < |s.nodes| ensures Low(ConfigOf(net, i), Step(net, s, e).nodes[i], k + 1) {
      LowGrows(ConfigOf(net, i), s.nodes[i], k, k + 1);
      if Enabled(net, s, e) && e.node == i {
        EventLow(net, s, e, k);
      }
    }
  }

  // ---------------------------------------------------------------- every event

  /** Every event keeps the invariant. */
  lemma StepKeepsInv(net: Net, s: System, e: Event)
    requires NetOk(net) && Inv(net, s)
    requires e.node < |s.nodes| ==> EventFits(net, s, e)
    ensures Inv(net, Step(net, s, e))
  {
    hide MemberOk, NoFork, Backed, Published, NodeAfter, SentBy, Deliverable, NonceFits;
    if WellPlaced(net, s) && Enabled(net, s, e) {
      match e
      case Deliver(q, m) => DeliverKeepsInv(net, s, q, m);
      case MakeBlock(q, now) => MakeBlockKeepsInv(net, s, q, now);
      case Client(q, tx) => ClientKeepsInv(net, s, q, tx);
      case Connect(q) => ConnectKeepsInv(net, s, q);
      case Restart(q) => RestartKeepsInv(net, s, q);
      case DieDelivering(_, _, _) => DieDeliveringKeepsInv(net, s, e);
      case DieMaking(_, _, _) => DieMakingKeepsInv(net, s, e);
    }
  }

  lemma StartKeepsInv(net: Net)
    requires NetOk(net)
    ensures Inv(net, Start(net)) && AllLow(net, Start(net), 0)
  {
    hide PoolOk, VerifyBlock;
    var s := Start(net);
    forall i | 0 <= i < |s.nodes|
      ensures MemberOk(net, s.nodes, i) && Low(ConfigOf(net, i), s.nodes[i], 0)
      ensures s.nodes[i].chain == [CreateGenesisBlock(net.crypto, net.genesisKeys)]
    {
      var g := ConfigOf(net, i);
      GenesisIsValid(net.crypto, Some(net.authorities), net.genesisKeys);
      BootRestores(g, map[], [Genesis(g)]);
      GenesisLow(g, 0);
    }
  }

  // ---------------------------------------------------------------- runs

  /** The system after any sequence of events from the start. */
  ghost function Run(net: Net, events: seq<Event>): System
    requires net.authorities != []
  {
    if events == [] then Start(net) else Step(net, Run(net, events[..|events| - 1]), events[|events| - 1])
  }

  /** In a run of fewer than 2^64 events no nonce gets near 2^64: after k events none exceeds k. */
  lemma {:induction false} RunKeepsInv(net: Net, events: seq<Event>)
    requires NetOk(net) && |events| <= MAX_U64
    ensures Inv(net, Run(net, events)) && AllLow(net, Run(net, events), |events|)
  {
    hide Step, Start, MemberOk, NoFork, Backed, Published, Low, EventFits, ConfigOk;
    if events == [] {
      StartKeepsInv(net);
    } else {
      var k := |events| - 1;
      RunKeepsInv(net, events[..k]);
      FitsInRun(net, Run(net, events[..k]), events[k], k);
      StepKeepsInv(net, Run(net, events[..k]), events[k]);
      StepKeepsLow(net, Run(net, events[..k]), events[k], k);
    }
  }

  lemma FitsInRun(net: Net, s: System, e: Event, k: nat)
    requires NetOk(net) && Inv(net, s) && AllLow(net, s, k) && k < MAX_U64
    ensures e.node < |s.nodes| ==> EventFits(net, s, e)
  {
    hide NoFork, NodeOk, AllBacked, AllApply, Low, EventFits, ConfigOk;
    if e.node < |s.nodes| {
      assert MemberOk(net, s.nodes, e.node);
      MemberConfigOk(net, e.node);
      LowEventFits(net, s, e, k);
    }
  }

  /** No forks: in every run, the chains of any two nodes are prefix-comparable. */
  lemma {:induction false} NoForks(net: Net, events: seq<Event>, i: nat, j: nat)
    requires NetOk(net) && |events| <= MAX_U64 && i < |net.members| && j < |net.members|
    ensures |Run(net, events).nodes| == |net.members|
    ensures Comparable(Run(net, events).nodes[i].chain, Run(net, events).nodes[j].chain)
  {
    hide MemberOk, Run;
    RunKeepsInv(net, events);
  }

  /** In every run, whatever clients submit, applyBlock succeeds for every block on every node: the case
      of a chained block that changes nothing is unreachable. */
  lemma {:induction false} EveryBlockApplies(net: Net, events: seq<Event>, i: nat, k: nat)
    requires NetOk(net) && |events| <= MAX_U64 && i < |net.members|
    ensures |Run(net, events).nodes| == |net.members|
    ensures var chain := Run(net, events).nodes[i].chain;
            1 <= k < |chain| ==>
              ApplyAll(Replay(GenesisAccounts(net.allocations), chain[..k]), chain[k].transactions).Some?
  {
    hide NodeOk, AllBacked, NoFork, Run;
    RunKeepsInv(net, events);
    assert MemberOk(net, Run(net, events).nodes, i);
  }

  /** Nodes at equal height have the same blocks, and so equal balances and nonces. */
  lemma {:induction false} EqualHeightsEqualStates(net: Net, events: seq<Event>, i: nat, j: nat)
    requires NetOk(net) && |events| <= MAX_U64 && i < |net.members| && j < |net.members|
    ensures |Run(net, events).nodes| == |net.members|
    ensures var x, y := Run(net, events).nodes[i], Run(net, events).nodes[j];
            |x.chain| == |y.chain| ==> x.chain == y.chain && x.accounts == y.accounts
  {
    hide AllApply, AllBacked, PoolOk, VerifyBlock, Run;
    RunKeepsInv(net, events);
    NoForks(net, events, i, j);
    assert MemberOk(net, Run(net, events).nodes, i) && MemberOk(net, Run(net, events).nodes, j);
  }

  /** A block that was sent to anybody stands, from then on, in the chain of the node that made it: a block
      lost in a crash was never sent. */
  lemma SentBlocksSurvive(net: Net, events: seq<Event>, b: Block)
    requires NetOk(net) && |events| <= MAX_U64 && Published(Run(net, events), b) && b.index >= 1
    ensures Backed(net, Run(net, events).nodes, b)
  {
    hide MemberOk, NoFork, Run;
    RunKeepsInv(net, events);
  }

  lemma EventGrows(net: Net, s: System, e: Event, k: nat)
    requires NetOk(net) && Inv(net, s) && Enabled(net, s, e) && AllLow(net, s, k) && k < MAX_U64
    ensures s.nodes[e.node].chain <= NodeAfter(net, s, e).chain
  {
    hide NoFork, NodeOk, AllBacked, AllApply, Low, EventFits, ConfigOk, NodeAfter, Deliverable;
    assert MemberOk(net, s.nodes, e.node);
    MemberConfigOk(net, e.node);
    FitsInRun(net, s, e, k);
    EventKeepsNode(net, s, e);
  }

  lemma StepGrows(net: Net, s: System, e: Event, k: nat, i: nat)
    requires NetOk(net) && Inv(net, s) && AllLow(net, s, k) && k < MAX_U64 && i < |s.nodes|
    ensures |Step(net, s, e).nodes| == |s.nodes|
    ensures s.nodes[i].chain <= Step(net, s, e).nodes[i].chain
  {
    hide MemberOk, NoFork, Backed, Published, NodeAfter, SentBy, Deliverable, OutcomeOf;
    if Enabled(net, s, e) && e.node == i {
      EventGrows(net, s, e, k);
    }
  }

  /** Finality: what a node's chain holds after any run, it still holds, at the same index, after any
      continuation of that run. */
  lemma {:induction false} Finality(net: Net, events: seq<Event>, more: seq<Event>, i: nat)
    requires NetOk(net) && |events + more| <= MAX_U64 && i < |net.members|
    ensures |Run(net, events).nodes| == |Run(net, events + more).nodes| == |net.members|
    ensures Run(net, events).nodes[i].chain <= Run(net, events + more).nodes[i].chain
  {
    hide MemberOk, NoFork, Step, Start, Backed, Published;
    RunKeepsInv(net, events);
    if more == [] {
      assert events + more == events;
    } else {
      var k := |more| - 1;
      assert (events + more)[..|events + more| - 1] == events + more[..k];
      Finality(net, events, more[..k], i);
      RunKeepsInv(net, events + more[..k]);
      StepGrows(net, Run(net, events + more[..k]), more[k], |events| + k, i);
    }
  }
}

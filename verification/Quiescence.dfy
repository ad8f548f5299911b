/** With no new submissions, productions or connections, message handling comes to an end: every
    sequence of deliveries, each message delivered once, is finite (src/net/node.cpp:303-482). */
module Quiescence {
  import opened Common
  import opened Records
  import opened Pools
  import opened Chains
  import opened Nodes
  import opened Network

  datatype Envelope = Envelope(to: nat, sender: nat, m: Message)

  /** The nodes and the messages in flight. */
  datatype Flight = Flight(nodes: seq<NodeState>, bag: seq<Envelope>)

  function Addressed(sender: nat, targets: seq<nat>, m: Message): seq<Envelope>
  {
    if targets == [] then []
    else Addressed(sender, targets[..|targets| - 1], m) + [Envelope(targets[|targets| - 1], sender, m)]
  }

  /** Each message goes to each target. */
  function Copies(sender: nat, targets: seq<nat>, messages: seq<Message>): seq<Envelope>
  {
    if messages == [] then []
    else Copies(sender, targets, messages[..|messages| - 1]) + Addressed(sender, targets, messages[|messages| - 1])
  }

  ghost predicate Placed(net: Net, s: Flight)
  {
    && net.authorities != []
    && |s.nodes| == |net.members|
    && (forall i :: 0 <= i < |s.nodes| ==> s.nodes[i].chain != [])
    && (forall k :: 0 <= k < |s.bag| ==> s.bag[k].to < |s.nodes|)
  }

  /** What is in flight after message k has been handled and its node has answered the sender and passed
      things on to these targets (all sessions but the sender's). */
  ghost function Delivered(net: Net, s: Flight, k: nat, targets: seq<nat>): Flight
    requires Placed(net, s) && k < |s.bag|
  {
    var e := s.bag[k];
    var out := Handle(ConfigOf(net, e.to), s.nodes[e.to], e.m);
    Flight(s.nodes[e.to := out.node],
           s.bag[..k] + s.bag[k + 1..] + Copies(e.to, [e.sender], out.reply) + Copies(e.to, targets, out.forward))
  }

  /** One delivery; whom the node's sessions reach is arbitrary. */
  ghost predicate Delivers(net: Net, s: Flight, t: Flight)
  {
    && Placed(net, s)
    && Placed(net, t)
    && exists k, targets :: 0 <= k < |s.bag| && t == Delivered(net, s, k, targets)
  }

  // ---------------------------------------------------------------- the measure

  ghost function Sum(xs: seq<nat>): nat
  {
    if xs == [] then 0 else Sum(xs[..|xs| - 1]) + xs[|xs| - 1]
  }

  lemma {:induction false} SumUpdate(xs: seq<nat>, i: nat, x: nat)
    requires i < |xs|
    ensures Sum(xs[i := x]) == Sum(xs) - xs[i] + x
  {
    var n := |xs| - 1;
    if i < n {
      assert xs[i := x][..n] == xs[..n][i := x];
      SumUpdate(xs[..n], i, x);
    } else {
      assert xs[i := x][..n] == xs[..n];
    }
  }

  lemma {:induction false} SumConcat(xs: seq<nat>, ys: seq<nat>)
    ensures Sum(xs + ys) == Sum(xs) + Sum(ys)
  {
    if ys == [] {
      assert xs + ys == xs;
    } else {
      assert (xs + ys)[..|xs + ys| - 1] == xs + ys[..|ys| - 1];
      SumConcat(xs, ys[..|ys| - 1]);
    }
  }

  /** Blocks a node still lacks up to the height. */
  ghost function Lacking(n: NodeState, height: nat): nat
  {
    if |n.chain| <= height then height - |n.chain| else 0
  }

  ghost function Lack(nodes: seq<NodeState>, height: nat): seq<nat>
  {
    seq(|nodes|, i requires 0 <= i < |nodes| => Lacking(nodes[i], height))
  }

  /** Transactions of the universe that a node's pool does not hold. */
  ghost function Absent(nodes: seq<NodeState>, hashes: set<Hash>): seq<nat>
  {
    seq(|nodes|, i requires 0 <= i < |nodes| => |hashes - nodes[i].pool.pending.Keys|)
  }

  function Weight(m: Message): nat
  {
    match m
    case NewBlock(_) => 3
    case GetBlocks(_) => 2
    case Ping => 2
    case _ => 1
  }

  ghost function Weights(bag: seq<Envelope>): seq<nat>
  {
    seq(|bag|, i requires 0 <= i < |bag| => Weight(bag[i].m))
  }

  ghost function MissingHeight(s: Flight, height: nat): nat
  {
    Sum(Lack(s.nodes, height))
  }

  ghost function AbsentPairs(s: Flight, hashes: set<Hash>): nat
  {
    Sum(Absent(s.nodes, hashes))
  }

  ghost function InFlight(s: Flight): nat
  {
    Sum(Weights(s.bag))
  }

  ghost predicate Below(m: Message, height: nat, hashes: set<Hash>)
  {
    && (forall b :: b in BlocksIn(m) ==> b.index < height)
    && (m.NewTx? ==> m.tx.hash in hashes)
  }

  /** Nothing in the system exceeds this height or lies outside this set of transactions. */
  ghost predicate Bounded(s: Flight, height: nat, hashes: set<Hash>)
  {
    && (forall i :: 0 <= i < |s.nodes| ==> NodeBelow(s.nodes[i], height))
    && (forall k :: 0 <= k < |s.bag| ==> Below(s.bag[k].m, height, hashes))
  }

  ghost predicate NodeBelow(n: NodeState, height: nat)
  {
    |n.chain| <= height && forall i :: 0 <= i < |n.chain| ==> n.chain[i].index < height
  }

  // ---------------------------------------------------------------- one handler

  lemma {:induction false} OnBlocksBelow(g: Config, n: NodeState, blocks: seq<Block>, height: nat)
    requires Runs(g, n) && NodeBelow(n, height)
    requires forall b :: b in blocks ==> b.index < height
    ensures NodeBelow(OnBlocks(g, n, blocks), height)
    ensures OnBlocks(g, n, blocks) == n || |OnBlocks(g, n, blocks).chain| > |n.chain|
    decreases |blocks|
  {
    hide Acceptable, Revalidated;
    if blocks != [] {
      assert blocks == [blocks[0]] + blocks[1..];
      if blocks[0].index < |n.chain| {
        OnBlocksBelow(g, n, blocks[1..], height);
      } else if blocks[0].index == |n.chain| && Takes(g, n, blocks[0]) {
        OnBlocksBelow(g, Accept(g, n, blocks[0]), blocks[1..], height);
      }
    }
  }

  ghost predicate AllBelow(messages: seq<Message>, height: nat, hashes: set<Hash>)
  {
    forall m :: m in messages ==> Below(m, height, hashes)
  }

  /** A handler stays within the bounds, and either raises its chain, or takes a new transaction into its
      pool, or changes nothing and answers with something lighter than what it got. */
  ghost predicate Progress(n: NodeState, m: Message, out: Outcome, hashes: set<Hash>)
  {
    || |out.node.chain| > |n.chain|
    || (out.node.chain == n.chain
        && exists h: Hash :: h in hashes && h !in n.pool.pending
                             && out.node.pool.pending.Keys == n.pool.pending.Keys + {h})
    || (out.node == n && out.forward == [] && |out.reply| <= 1
        && (out.reply != [] ==> Weight(out.reply[0]) < Weight(m)))
  }

  lemma HandleBelow(g: Config, n: NodeState, m: Message, height: nat, hashes: set<Hash>)
    requires Runs(g, n) && NodeBelow(n, height) && Below(m, height, hashes)
    ensures NodeBelow(Handle(g, n, m).node, height)
    ensures AllBelow(Handle(g, n, m).reply, height, hashes) && AllBelow(Handle(g, n, m).forward, height, hashes)
  {
    hide Acceptable, Revalidated, Pools.Accepts;
    match m
    case NewBlock(b) => assert b in BlocksIn(m);
    case Blocks(blocks) => OnBlocksBelow(g, n, blocks, height);
    case GetBlocks(start) =>
      forall b | b in BlocksIn(OnGetBlocks(n, start)) ensures b.index < height {
        var k :| 0 <= k < |n.chain[start..]| && n.chain[start..][k] == b;
        assert n.chain[start + k] == b;
      }
    case _ =>
  }

  lemma HandleProgress(g: Config, n: NodeState, m: Message, height: nat, hashes: set<Hash>)
    requires Runs(g, n) && NodeBelow(n, height) && Below(m, height, hashes)
    ensures Progress(n, m, Handle(g, n, m), hashes)
  {
    hide Acceptable, Revalidated, VerifyTransaction;
    match m
    case Blocks(blocks) => OnBlocksBelow(g, n, blocks, height);
    case NewTx(tx) =>
      if tx.hash !in n.pool.pending && Pools.Accepts(g.crypto, n.accounts, n.pool, tx) {
        assert Submit(g, n, tx).node.pool.pending.Keys == n.pool.pending.Keys + {tx.hash};
      }
    case _ =>
  }

  // ---------------------------------------------------------------- one delivery

  lemma {:induction false} AddressedBelow(sender: nat, targets: seq<nat>, m: Message, height: nat, hashes: set<Hash>)
    requires Below(m, height, hashes)
    ensures forall e :: e in Addressed(sender, targets, m) ==> Below(e.m, height, hashes)
  {
    if targets != [] {
      AddressedBelow(sender, targets[..|targets| - 1], m, height, hashes);
    }
  }

  lemma {:induction false} CopiesBelow(sender: nat, targets: seq<nat>, messages: seq<Message>, height: nat,
                                       hashes: set<Hash>)
    requires AllBelow(messages, height, hashes)
    ensures forall e :: e in Copies(sender, targets, messages) ==> Below(e.m, height, hashes)
  {
    hide Below;
    if messages != [] {
      var n := |messages| - 1;
      assert messages == messages[..n] + [messages[n]];
      CopiesBelow(sender, targets, messages[..n], height, hashes);
      AddressedBelow(sender, targets, messages[n], height, hashes);
    }
  }

  lemma DeliveredBounded(net: Net, s: Flight, k: nat, targets: seq<nat>, height: nat, hashes: set<Hash>)
    requires Placed(net, s) && k < |s.bag| && Bounded(s, height, hashes)
    ensures Bounded(Delivered(net, s, k, targets), height, hashes)
  {
    hide Below, Handle, NodeBelow;
    var e := s.bag[k];
    var out := Handle(ConfigOf(net, e.to), s.nodes[e.to], e.m);
    assert NodeBelow(s.nodes[e.to], height) && Below(e.m, height, hashes);
    HandleBelow(ConfigOf(net, e.to), s.nodes[e.to], e.m, height, hashes);
    CopiesBelow(e.to, [e.sender], out.reply, height, hashes);
    CopiesBelow(e.to, targets, out.forward, height, hashes);
    var t := Delivered(net, s, k, targets);
    forall i | 0 <= i < |t.bag| ensures Below(t.bag[i].m, height, hashes) {
      var rest := s.bag[..k] + s.bag[k + 1..];
      var x, y := Copies(e.to, [e.sender], out.reply), Copies(e.to, targets, out.forward);
      assert t.bag == rest + x + y;
      if |rest| <= i < |rest| + |x| {
        assert t.bag[i] == x[i - |rest|];
      } else if |rest| + |x| <= i {
        assert t.bag[i] == y[i - |rest| - |x|];
      }
    }
  }

  /** The measure decreases lexicographically. */
  ghost predicate Smaller(s: Flight, t: Flight, height: nat, hashes: set<Hash>)
  {
    || MissingHeight(t, height) < MissingHeight(s, height)
    || (MissingHeight(t, height) == MissingHeight(s, height) && AbsentPairs(t, hashes) < AbsentPairs(s, hashes))
    || (MissingHeight(t, height) == MissingHeight(s, height) && AbsentPairs(t, hashes) == AbsentPairs(s, hashes)
        && InFlight(t) < InFlight(s))
  }

  lemma {:induction false} NodeChange(s: Flight, q: nat, n: NodeState, bag: seq<Envelope>, height: nat,
                                      hashes: set<Hash>)
    requires q < |s.nodes|
    ensures MissingHeight(Flight(s.nodes[q := n], bag), height)
            == MissingHeight(s, height) - Lacking(s.nodes[q], height) + Lacking(n, height)
    ensures AbsentPairs(Flight(s.nodes[q := n], bag), hashes)
            == AbsentPairs(s, hashes) - |hashes - s.nodes[q].pool.pending.Keys| + |hashes - n.pool.pending.Keys|
  {
    hide Sum;
    SumUpdate(Lack(s.nodes, height), q, Lacking(n, height));
    SumUpdate(Absent(s.nodes, hashes), q, |hashes - n.pool.pending.Keys|);
    assert Lack(s.nodes[q := n], height) == Lack(s.nodes, height)[q := Lacking(n, height)];
    assert Absent(s.nodes[q := n], hashes)
        == Absent(s.nodes, hashes)[q := |hashes - n.pool.pending.Keys|];
  }

  lemma BagConcat(xs: seq<Envelope>, ys: seq<Envelope>)
    ensures Sum(Weights(xs + ys)) == Sum(Weights(xs)) + Sum(Weights(ys))
  {
    assert Weights(xs + ys) == Weights(xs) + Weights(ys);
    SumConcat(Weights(xs), Weights(ys));
  }

  lemma BagSingle(e: Envelope)
    ensures Sum(Weights([e])) == Weight(e.m)
  {
    assert Weights([e]) == [Weight(e.m)];
    assert [Weight(e.m)][..0] == [];
  }

  /** Taking message k out of the bag and putting at most one lighter answer in. */
  lemma LighterBag(bag: seq<Envelope>, k: nat, answers: seq<Envelope>)
    requires k < |bag| && |answers| <= 1
    requires answers != [] ==> Weight(answers[0].m) < Weight(bag[k].m)
    ensures Sum(Weights(bag[..k] + bag[k + 1..] + answers)) < Sum(Weights(bag))
  {
    hide Weights, Sum;
    assert bag == bag[..k] + [bag[k]] + bag[k + 1..];
    BagConcat(bag[..k] + [bag[k]], bag[k + 1..]);
    BagConcat(bag[..k], [bag[k]]);
    BagSingle(bag[k]);
    BagConcat(bag[..k] + bag[k + 1..], answers);
    BagConcat(bag[..k], bag[k + 1..]);
    if answers == [] {
      BagEmpty();
    } else {
      assert answers == [answers[0]];
      BagSingle(answers[0]);
    }
  }

  lemma BagEmpty()
    ensures Sum(Weights([])) == 0
  {
    assert Weights([]) == [];
  }

  lemma ReplyCopies(sender: nat, target: nat, reply: seq<Message>)
    requires |reply| <= 1
    ensures |Copies(sender, [target], reply)| == |reply|
    ensures reply != [] ==> Copies(sender, [target], reply)[0].m == reply[0]
  {
    if reply != [] {
      assert reply[..0] == [] && [target][..0] == [];
      assert Addressed(sender, [target], reply[0]) == [Envelope(target, sender, reply[0])];
    }
  }

  lemma FewerAbsent(hashes: set<Hash>, before: set<Hash>, h: Hash)
    requires h in hashes && h !in before
    ensures |hashes - (before + {h})| < |hashes - before|
  {
    assert hashes - before == (hashes - (before + {h})) + {h};
  }

  lemma DeliveredSmaller(net: Net, s: Flight, k: nat, targets: seq<nat>, height: nat, hashes: set<Hash>)
    requires Placed(net, s) && k < |s.bag| && Bounded(s, height, hashes)
    ensures Smaller(s, Delivered(net, s, k, targets), height, hashes)
  {
    hide Handle, Below, Copies, Weights, Sum, Lack, Absent;
    var e := s.bag[k];
    var n := s.nodes[e.to];
    var out := Handle(ConfigOf(net, e.to), n, e.m);
    var t := Delivered(net, s, k, targets);
    assert NodeBelow(n, height) && Below(e.m, height, hashes);
    HandleBelow(ConfigOf(net, e.to), n, e.m, height, hashes);
    HandleProgress(ConfigOf(net, e.to), n, e.m, height, hashes);
    NodeChange(s, e.to, out.node, t.bag, height, hashes);
    if |out.node.chain| > |n.chain| {
    } else if out.node.chain == n.chain
              && exists h: Hash :: h in hashes && h !in n.pool.pending
                                   && out.node.pool.pending.Keys == n.pool.pending.Keys + {h} {
      var h: Hash :| h in hashes && h !in n.pool.pending
                     && out.node.pool.pending.Keys == n.pool.pending.Keys + {h};
      FewerAbsent(hashes, n.pool.pending.Keys, h);
    } else {
      AnswerIsLighter(s.bag, k, out, targets);
    }
  }

  /** A handler that forwards nothing and answers with at most one lighter message makes the bag lighter. */
  lemma AnswerIsLighter(bag: seq<Envelope>, k: nat, out: Outcome, targets: seq<nat>)
    requires k < |bag| && out.forward == [] && |out.reply| <= 1
    requires out.reply != [] ==> Weight(out.reply[0]) < Weight(bag[k].m)
    ensures Sum(Weights(bag[..k] + bag[k + 1..] + Copies(bag[k].to, [bag[k].sender], out.reply)
                        + Copies(bag[k].to, targets, out.forward))) < Sum(Weights(bag))
  {
    hide Weights, Sum, Weight, Copies;
    var answers := Copies(bag[k].to, [bag[k].sender], out.reply);
    ReplyCopies(bag[k].to, bag[k].sender, out.reply);
    LighterBag(bag, k, answers);
    NothingForwarded(bag[k].to, targets);
    assert bag[..k] + bag[k + 1..] + answers + [] == bag[..k] + bag[k + 1..] + answers;
  }

  lemma NothingForwarded(sender: nat, targets: seq<nat>)
    ensures Copies(sender, targets, []) == []
  {
  }

  // ---------------------------------------------------------------- bounds exist

  lemma {:induction false} BlocksBounded(blocks: seq<Block>) returns (height: nat)
    ensures forall b :: b in blocks ==> b.index < height
  {
    if blocks == [] {
      height := 0;
    } else {
      var n := |blocks| - 1;
      var h := BlocksBounded(blocks[..n]);
      assert blocks == blocks[..n] + [blocks[n]];
      height := if blocks[n].index < h then h else blocks[n].index + 1;
    }
  }

  lemma {:induction false} NodesBounded(nodes: seq<NodeState>) returns (height: nat)
    ensures forall i :: 0 <= i < |nodes| ==> NodeBelow(nodes[i], height)
  {
    if nodes == [] {
      height := 0;
    } else {
      var n := |nodes| - 1;
      var h := NodesBounded(nodes[..n]);
      var k := BlocksBounded(nodes[n].chain);
      height := h + k + |nodes[n].chain|;
      forall i | 0 <= i < |nodes| ensures NodeBelow(nodes[i], height) {
        assert i < n ==> NodeBelow(nodes[..n][i], h);
      }
    }
  }

  lemma {:induction false} BagBounded(bag: seq<Envelope>) returns (height: nat, hashes: set<Hash>)
    ensures forall k :: 0 <= k < |bag| ==> Below(bag[k].m, height, hashes)
  {
    if bag == [] {
      height, hashes := 0, {};
    } else {
      var n := |bag| - 1;
      var h, hs := BagBounded(bag[..n]);
      var k := BlocksBounded(BlocksIn(bag[n].m));
      height := h + k;
      hashes := hs + if bag[n].m.NewTx? then {bag[n].m.tx.hash} else {};
      forall i | 0 <= i < |bag| ensures Below(bag[i].m, height, hashes) {
        assert i < n ==> Below(bag[..n][i].m, h, hs);
      }
    }
  }

  lemma BoundsExist(s: Flight) returns (height: nat, hashes: set<Hash>)
    ensures Bounded(s, height, hashes)
  {
    var h := NodesBounded(s.nodes);
    var k, hs := BagBounded(s.bag);
    height, hashes := h + k, hs;
    forall i | 0 <= i < |s.nodes| ensures NodeBelow(s.nodes[i], height) {
      assert NodeBelow(s.nodes[i], h);
    }
    forall i | 0 <= i < |s.bag| ensures Below(s.bag[i].m, height, hashes) {
      assert Below(s.bag[i].m, k, hs);
    }
  }

  // ---------------------------------------------------------------- termination

  /** Every delivery makes the measure smaller and keeps its bounds. */
  lemma DeliveryDecreases(net: Net, s: Flight, t: Flight, height: nat, hashes: set<Hash>)
    requires Delivers(net, s, t) && Bounded(s, height, hashes)
    ensures Bounded(t, height, hashes) && Smaller(s, t, height, hashes)
  {
    hide Bounded, Smaller, Delivered, Placed;
    var k, targets :| 0 <= k < |s.bag| && t == Delivered(net, s, k, targets);
    DeliveredBounded(net, s, k, targets, height, hashes);
    DeliveredSmaller(net, s, k, targets, height, hashes);
  }

  /** From any point on, the deliveries stop. */
  lemma {:induction false} StopsAfter(net: Net, run: nat -> Flight, k: nat, height: nat, hashes: set<Hash>)
    requires Bounded(run(k), height, hashes)
    ensures exists j: nat :: j >= k && !Delivers(net, run(j), run(j + 1))
    decreases MissingHeight(run(k), height), AbsentPairs(run(k), hashes), InFlight(run(k))
  {
    hide Bounded, Delivers, MissingHeight, AbsentPairs, InFlight;
    if Delivers(net, run(k), run(k + 1)) {
      DeliveryDecreases(net, run(k), run(k + 1), height, hashes);
      StopsAfter(net, run, k + 1, height, hashes);
    }
  }

  /** Quiescence: there is no infinite sequence of deliveries, from any state whatever. */
  lemma DeliveriesEnd(net: Net, run: nat -> Flight)
    ensures exists j: nat :: !Delivers(net, run(j), run(j + 1))
  {
    var height, hashes := BoundsExist(run(0));
    StopsAfter(net, run, 0, height, hashes);
  }
}

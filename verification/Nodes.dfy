/** One node (src/net/node.cpp): every handler runs under one mutex, so each is one step from one
    state to the next. Blocks and messages are arbitrary here unless a lemma says otherwise. */
module Nodes {
  import opened Common
  import opened Records
  import opened Ledger
  import opened Ordering
  import opened Pools
  import opened Chains
  import opened Stores

  const BLOCK_LIMIT := 100

  datatype Config = Config(
    crypto: Suite,
    keys: KeyPair,
    authorities: seq<Address>,
    allocations: map<Address, U64>,
    genesisKeys: KeyPair,
    persistent: bool)

  datatype NodeState = NodeState(chain: seq<Block>, accounts: Accounts, pool: Pool, db: Db)

  datatype Message =
    | Ping
    | Pong
    | NewBlock(block: Block)
    | NewTx(tx: Transaction)
    | GetBlocks(start: nat)
    | Blocks(blocks: seq<Block>)

  /** The next state, the storage writes that led there, messages to the sender of the handled message
      and messages to all other peers. */
  datatype Outcome = Outcome(node: NodeState, writes: seq<Write>, reply: seq<Message>, forward: seq<Message>)

  function NodeAddress(g: Config): Address
  {
    DeriveAddress(g.crypto, g.keys.publicKey)
  }

  function Genesis(g: Config): Block
  {
    CreateGenesisBlock(g.crypto, g.genesisKeys)
  }

  function StateOf(g: Config, chain: seq<Block>): Accounts
  {
    Replay(GenesisAccounts(g.allocations), chain)
  }

  predicate Runs(g: Config, n: NodeState)
  {
    g.authorities != [] && n.chain != []
  }

  predicate Takes(g: Config, n: NodeState, b: Block)
    requires Runs(g, n)
  {
    Extends(g.crypto, Some(g.authorities), n.chain, b)
  }

  // ---------------------------------------------------------------- the steps

  /** A block that passed addBlock: apply it, clean up the pool, persist. */
  ghost function Accept(g: Config, n: NodeState, b: Block): NodeState
  {
    var s := ApplyOrKeep(n.accounts, b.transactions);
    NodeState(n.chain + [b], s, Revalidated(g.crypto, s, Remove(n.pool, b.transactions)),
         Written(n.db, AcceptWrites(g, n, b)))
  }

  ghost function AcceptWrites(g: Config, n: NodeState, b: Block): seq<Write>
  {
    if g.persistent
    then BlockWrites(g.crypto, ApplyOrKeep(n.accounts, b.transactions), |n.chain| + 1, b)
    else []
  }

  function OwnTurn(g: Config, n: NodeState): bool
    requires Runs(g, n)
  {
    Producer(g.authorities, |n.chain|) == NodeAddress(g)
  }

  /** The block the node would make now. */
  ghost function Draft(g: Config, n: NodeState, now: U64): Block
    requires Runs(g, n)
  {
    CreateBlock(g.crypto, g.keys, n.chain[|n.chain| - 1], Selected(n.pool, BLOCK_LIMIT), now)
  }

  ghost function Produce(g: Config, n: NodeState, now: U64): Outcome
    requires Runs(g, n)
  {
    var b := Draft(g, n, now);
    if OwnTurn(g, n) && Takes(g, n, b)
    then Outcome(Accept(g, n, b), AcceptWrites(g, n, b), [], [NewBlock(b)])
    else Outcome(n, [], [], [])
  }

  function Submit(g: Config, n: NodeState, tx: Transaction): Outcome
  {
    if Accepts(g.crypto, n.accounts, n.pool, tx)
    then Outcome(n.(pool := Add(g.crypto, n.accounts, n.pool, tx)), [], [], [NewTx(tx)])
    else Outcome(n, [], [], [])
  }

  function OnNewTx(g: Config, n: NodeState, tx: Transaction): Outcome
  {
    if tx.hash in n.pool.pending then Outcome(n, [], [], []) else Submit(g, n, tx)
  }

  ghost function OnNewBlock(g: Config, n: NodeState, b: Block): Outcome
    requires Runs(g, n)
  {
    if b.index > |n.chain| then Outcome(n, [], [GetBlocks(|n.chain|)], [])
    else if b.index < |n.chain| || !Takes(g, n, b) then Outcome(n, [], [], [])
    else Outcome(Accept(g, n, b), AcceptWrites(g, n, b), [], [NewBlock(b)])
  }

  function OnGetBlocks(n: NodeState, start: nat): Message
  {
    if start >= |n.chain| then Blocks([]) else Blocks(n.chain[start..])
  }

  /** A new session: ask the peer for everything from one's own height on. */
  function OnPeerConnected(n: NodeState): Outcome
  {
    Outcome(n, [], [GetBlocks(|n.chain|)], [])
  }

  ghost function OnBlocks(g: Config, n: NodeState, blocks: seq<Block>): (r: NodeState)
    requires Runs(g, n)
    ensures Runs(g, r)
    decreases |blocks|
  {
    if blocks == [] then n
    else if blocks[0].index < |n.chain| then OnBlocks(g, n, blocks[1..])
    else if blocks[0].index != |n.chain| || !Takes(g, n, blocks[0]) then n
    else OnBlocks(g, Accept(g, n, blocks[0]), blocks[1..])
  }

  ghost function OnBlocksWrites(g: Config, n: NodeState, blocks: seq<Block>): seq<Write>
    requires Runs(g, n)
    decreases |blocks|
  {
    if blocks == [] then []
    else if blocks[0].index < |n.chain| then OnBlocksWrites(g, n, blocks[1..])
    else if blocks[0].index != |n.chain| || !Takes(g, n, blocks[0]) then []
    else AcceptWrites(g, n, blocks[0]) + OnBlocksWrites(g, Accept(g, n, blocks[0]), blocks[1..])
  }

  ghost function Handle(g: Config, n: NodeState, m: Message): Outcome
    requires Runs(g, n)
  {
    match m
    case Ping => Outcome(n, [], [Pong], [])
    case Pong => Outcome(n, [], [], [])
    case NewBlock(b) => OnNewBlock(g, n, b)
    case NewTx(tx) => OnNewTx(g, n, tx)
    case GetBlocks(start) => Outcome(n, [], [OnGetBlocks(n, start)], [])
    case Blocks(blocks) => Outcome(OnBlocks(g, n, blocks), OnBlocksWrites(g, n, blocks), [], [])
  }

  /** recoverFromStorage: load, check and replay blocks i, i + 1, ... below the stored height. */
  function Recovered(g: Config, db: Db, chain: seq<Block>, s: Accounts, i: nat): (seq<Block>, Accounts)
    requires g.authorities != [] && chain != []
    decreases StoredHeight(db) - i
  {
    if i >= StoredHeight(db) || StoredBlock(db, i) == None
       || !Extends(g.crypto, Some(g.authorities), chain, StoredBlock(db, i).value)
    then (chain, s)
    else
      var b := StoredBlock(db, i).value;
      Recovered(g, db, chain + [b], ApplyOrKeep(s, b.transactions), i + 1)
  }

  /** A starting process: everything in memory is rebuilt from storage, the pool is empty. */
  function Boot(g: Config, db: Db): NodeState
    requires g.authorities != []
  {
    var (chain, s) := Recovered(g, db, [Genesis(g)], GenesisAccounts(g.allocations), 1);
    NodeState(chain, s, EMPTY, db)
  }

  // ---------------------------------------------------------------- the invariant

  ghost predicate ConfigOk(g: Config)
  {
    && g.authorities != []
    && SignsFor(g.crypto, g.keys)
    && SignsFor(g.crypto, g.genesisKeys)
    && Supply(GenesisAccounts(g.allocations)) <= MAX_U64
  }

  ghost predicate ChainOk(g: Config, chain: seq<Block>)
  {
    && g.authorities != []
    && ValidChain(g.crypto, Some(g.authorities), chain)
    && chain[0] == Genesis(g)
  }

  /** Storage holds the chain: height and every block after genesis. */
  ghost predicate DbHolds(db: Db, chain: seq<Block>)
  {
    && (StoredHeight(db) == |chain| || (StoredHeight(db) == 0 && |chain| == 1))
    && forall i :: 1 <= i < |chain| ==> StoredBlock(db, i) == Some(chain[i])
  }

  /** What holds whenever the lock is free. */
  ghost predicate NodeOk(g: Config, n: NodeState)
  {
    && ChainOk(g, n.chain)
    && n.accounts == StateOf(g, n.chain)
    && PoolOk(g.crypto, n.accounts, n.pool)
    && (g.persistent ==> DbHolds(n.db, n.chain))
  }

  /** The hypothesis that no account's nonce reaches 2^64 - 1: should the pool accept this transaction, it
      does not use up the last nonce. A transaction that the pool rejects may carry any nonce. */
  ghost predicate NonceFits(g: Config, n: NodeState, tx: Transaction)
  {
    Accepts(g.crypto, n.accounts, n.pool, tx) ==> tx.nonce < MAX_U64
  }

  lemma NodeHasGenesis(g: Config, n: NodeState)
    requires NodeOk(g, n)
    ensures Runs(g, n)
  {
    hide PoolOk, LinkedAt, DbHolds;
  }

  lemma ReplayExtends(s: Accounts, chain: seq<Block>, b: Block)
    requires chain != []
    ensures Replay(s, chain + [b]) == ApplyOrKeep(Replay(s, chain), b.transactions)
  {
    assert (chain + [b])[..|chain|] == chain;
  }

  lemma EmptyPoolOk(c: Suite, s: Accounts)
    ensures PoolOk(c, s, EMPTY)
  {
    assert EMPTY.pending.Values == {};
    ListingSize(Order({}), {});
    forall a: Address ensures RunnableFor(s, Order({}), a) && IndexedFor(s, EMPTY, Order({}), a) {
    }
  }

  lemma AcceptKeepsChain(g: Config, n: NodeState, b: Block)
    requires NodeOk(g, n) && Takes(g, n, b)
    ensures ChainOk(g, n.chain + [b])
  {
    AppendKeepsValid(g.crypto, Some(g.authorities), n.chain, b);
  }

  /** Accepting any block that passes addBlock, whether or not its transactions apply. */
  lemma AcceptKeepsOk(g: Config, n: NodeState, b: Block)
    requires NodeOk(g, n) && Takes(g, n, b)
    ensures NodeOk(g, Accept(g, n, b))
  {
    AcceptKeepsChain(g, n, b);
    ReplayExtends(GenesisAccounts(g.allocations), n.chain, b);
    RemoveKeepsSortable(g.crypto, n.pool, b.transactions);
    RevalidateOk(g.crypto, Accept(g, n, b).accounts, Remove(n.pool, b.transactions));
    if g.persistent {
      assert AcceptWrites(g, n, b)[..|AcceptWrites(g, n, b)|] == AcceptWrites(g, n, b);
      CrashDuringAccept(g, n, b, |AcceptWrites(g, n, b)|);
    }
  }

  // ---------------------------------------------------------------- storage

  ghost predicate AccountsOnly(writes: seq<Write>)
  {
    forall w, k :: w in writes && k in w ==> k != "" && k[0] == 'a'
  }

  lemma AccountWriteOnly(s: Accounts, a: Address)
    ensures AccountsOnly(AccountWrite(s, a))
  {
    assert AccountKey(a)[0] == 'a';
  }

  lemma {:induction false} AccountWritesOnly(c: Suite, s: Accounts, txs: seq<Transaction>)
    ensures AccountsOnly(AccountWrites(c, s, txs))
  {
    if txs != [] {
      var tx := txs[|txs| - 1];
      AccountWritesOnly(c, s, txs[..|txs| - 1]);
      AccountWriteOnly(s, DeriveAddress(c, tx.senderPublicKey));
      AccountWriteOnly(s, tx.recipient);
    }
  }

  lemma {:induction false} AccountsOnlyKeeps(db: Db, writes: seq<Write>, key: string)
    requires AccountsOnly(writes) && key != "" && key[0] != 'a'
    ensures key in Written(db, writes) <==> key in db
    ensures key in db ==> Written(db, writes)[key] == db[key]
  {
    if writes != [] {
      var n := |writes| - 1;
      assert writes == writes[..n] + [writes[n]];
      AccountsOnlyKeeps(db, writes[..n], key);
      assert writes[n] in writes;
    }
  }

  lemma AccountsOnlyHolds(db: Db, writes: seq<Write>, chain: seq<Block>)
    requires AccountsOnly(writes) && DbHolds(db, chain)
    ensures DbHolds(Written(db, writes), chain)
  {
    assert |HEIGHT_KEY| == 8 && HEIGHT_KEY[0] == 'm';
    AccountsOnlyKeeps(db, writes, HEIGHT_KEY);
    forall i | 1 <= i < |chain| ensures StoredBlock(Written(db, writes), i) == Some(chain[i]) {
      assert StoredBlock(db, i) == Some(chain[i]);
      assert BlockKey(i)[0] == 'b';
      AccountsOnlyKeeps(db, writes, BlockKey(i));
    }
  }

  lemma BlockWriteHolds(db: Db, chain: seq<Block>, b: Block)
    requires DbHolds(db, chain) && b.index == |chain|
    ensures DbHolds(db + BlockWrite(b), chain)
    ensures DbHolds(db + BlockWrite(b) + HeightWrite(|chain| + 1), chain + [b])
  {
    var one := db + BlockWrite(b);
    var two := one + HeightWrite(|chain| + 1);
    forall i | 1 <= i <= |chain|
      ensures i < |chain| ==> StoredBlock(one, i) == Some(chain[i])
      ensures StoredBlock(two, i) == Some((chain + [b])[i])
    {
      KeysApart(i, b.index, b.hash, b.hash, ZeroAddress(), ZeroAddress());
      KeysApart(b.index, i, b.hash, b.hash, ZeroAddress(), ZeroAddress());
      assert i < |chain| ==> StoredBlock(db, i) == Some(chain[i]);
    }
    KeysApart(b.index, b.index, b.hash, b.hash, ZeroAddress(), ZeroAddress());
  }

  lemma WrittenOnce(db: Db, w: Write)
    ensures Written(db, [w]) == db + w
  {
    assert [w][..0] == [];
  }

  lemma WrittenTwice(db: Db, v: Write, w: Write)
    ensures Written(db, [v, w]) == db + v + w
  {
    assert [v, w][..1] == [v];
    WrittenOnce(db, v);
  }

  lemma AccountsOnlyPrefix(writes: seq<Write>, k: nat)
    requires AccountsOnly(writes) && k <= |writes|
    ensures AccountsOnly(writes[..k])
  {
  }

  /** A crash after j of the writes for one block leaves storage holding the old chain or the new one. */
  lemma CrashDuringAccept(g: Config, n: NodeState, b: Block, j: nat)
    requires g.persistent && DbHolds(n.db, n.chain) && b.index == |n.chain|
    requires j <= |AcceptWrites(g, n, b)|
    ensures DbHolds(Written(n.db, AcceptWrites(g, n, b)[..j]), if j < 2 then n.chain else n.chain + [b])
  {
    hide DbHolds, ApplyOrKeep, BlockWrite, HeightWrite, AccountWrites, AccountsOnly;
    var writes := AcceptWrites(g, n, b);
    var first := [BlockWrite(b), HeightWrite(|n.chain| + 1)];
    var rest := AccountWrites(g.crypto, ApplyOrKeep(n.accounts, b.transactions), b.transactions);
    assert writes == first + rest;
    BlockWriteHolds(n.db, n.chain, b);
    if j == 0 {
      assert writes[..j] == [];
    } else if j == 1 {
      assert writes[..1] == [BlockWrite(b)];
      WrittenOnce(n.db, BlockWrite(b));
    } else {
      assert writes[..j] == first + rest[..j - 2];
      WrittenConcat(n.db, first, rest[..j - 2]);
      WrittenTwice(n.db, BlockWrite(b), HeightWrite(|n.chain| + 1));
      AccountWritesOnly(g.crypto, ApplyOrKeep(n.accounts, b.transactions), b.transactions);
      AccountsOnlyPrefix(rest, j - 2);
      AccountsOnlyHolds(n.db + BlockWrite(b) + HeightWrite(|n.chain| + 1), rest[..j - 2], n.chain + [b]);
    }
  }

  /** Each block of a good chain passes addBlock on the part before it. */
  lemma NextExtends(g: Config, chain: seq<Block>, k: nat)
    requires ChainOk(g, chain) && 1 <= k < |chain|
    ensures Extends(g.crypto, Some(g.authorities), chain[..k], chain[k])
  {
    assert chain[..k][k - 1] == chain[k - 1];
    assert LinkedAt(g.crypto, chain, k) && Scheduled(Some(g.authorities), chain[k]);
  }

  lemma RecoveredStep(g: Config, db: Db, chain: seq<Block>, s: Accounts, i: nat, b: Block)
    requires g.authorities != [] && chain != []
    requires i < StoredHeight(db) && StoredBlock(db, i) == Some(b)
    requires Extends(g.crypto, Some(g.authorities), chain, b)
    ensures Recovered(g, db, chain, s, i)
            == Recovered(g, db, chain + [b], ApplyOrKeep(s, b.transactions), i + 1)
  {
  }

  lemma {:induction false} RecoveredFrom(g: Config, db: Db, chain: seq<Block>, k: nat)
    requires ChainOk(g, chain) && DbHolds(db, chain) && 1 <= k <= |chain|
    ensures Recovered(g, db, chain[..k], StateOf(g, chain[..k]), k) == (chain, StateOf(g, chain))
    decreases |chain| - k
  {
    hide Extends, ValidChain, ApplyOrKeep, Replay;
    if k == |chain| {
      assert chain[..k] == chain;
    } else {
      assert StoredBlock(db, k) == Some(chain[k]);
      NextExtends(g, chain, k);
      assert chain[..k + 1] == chain[..k] + [chain[k]];
      ReplayExtends(GenesisAccounts(g.allocations), chain[..k], chain[k]);
      RecoveredStep(g, db, chain[..k], StateOf(g, chain[..k]), k, chain[k]);
      RecoveredFrom(g, db, chain, k + 1);
    }
  }

  /** Starting on storage that holds a chain rebuilds exactly that chain and its replayed state. */
  lemma BootRestores(g: Config, db: Db, chain: seq<Block>)
    requires ChainOk(g, chain) && DbHolds(db, chain)
    ensures Boot(g, db) == NodeState(chain, StateOf(g, chain), EMPTY, db)
    ensures NodeOk(g, Boot(g, db))
  {
    assert chain[..1] == [Genesis(g)];
    RecoveredFrom(g, db, chain, 1);
    EmptyPoolOk(g.crypto, StateOf(g, chain));
  }

  /** Crash recovery: whatever the write after which the process dies while it handles an accepted block,
      the restarted node has the pre-crash chain or that chain without its last block, with exactly the
      state that chain determines. */
  lemma {:induction false} CrashRecovery(g: Config, n: NodeState, b: Block, j: nat)
    requires g.persistent && NodeOk(g, n) && Takes(g, n, b)
    requires j <= |AcceptWrites(g, n, b)|
    ensures var r := Boot(g, Written(n.db, AcceptWrites(g, n, b)[..j]));
            && r.chain == (if j < 2 then n.chain else Accept(g, n, b).chain)
            && r.accounts == StateOf(g, r.chain)
            && NodeOk(g, r)
  {
    CrashDuringAccept(g, n, b, j);
    AcceptKeepsChain(g, n, b);
    BootRestores(g, Written(n.db, AcceptWrites(g, n, b)[..j]), if j < 2 then n.chain else n.chain + [b]);
  }

  // ---------------------------------------------------------------- every handler keeps the invariant

  lemma {:induction false} OnBlocksKeepsOk(g: Config, n: NodeState, blocks: seq<Block>)
    requires NodeOk(g, n)
    ensures NodeOk(g, OnBlocks(g, n, blocks))
    ensures n.chain <= OnBlocks(g, n, blocks).chain
    decreases |blocks|
  {
    hide PoolOk, LinkedAt, VerifyBlock;
    if blocks != [] {
      if blocks[0].index < |n.chain| {
        OnBlocksKeepsOk(g, n, blocks[1..]);
      } else if blocks[0].index == |n.chain| && Takes(g, n, blocks[0]) {
        AcceptKeepsOk(g, n, blocks[0]);
        OnBlocksKeepsOk(g, Accept(g, n, blocks[0]), blocks[1..]);
      }
    }
  }

  /** Replay invariant: whatever message arrives, arbitrary blocks included, the handler keeps the node
      consistent - in particular its accounts are the replay of its chain - and its chain only grows. */
  lemma {:induction false} HandleKeepsOk(g: Config, n: NodeState, m: Message)
    requires NodeOk(g, n) && (m.NewTx? ==> NonceFits(g, n, m.tx))
    ensures NodeOk(g, Handle(g, n, m).node)
    ensures n.chain <= Handle(g, n, m).node.chain
  {
    match m
    case NewBlock(b) =>
      if b.index == |n.chain| && Takes(g, n, b) {
        AcceptKeepsOk(g, n, b);
      }
    case NewTx(tx) => AddKeepsPoolOk(g.crypto, n.accounts, n.pool, tx);
    case Blocks(blocks) => OnBlocksKeepsOk(g, n, blocks);
    case _ =>
  }

  lemma {:induction false} SubmitKeepsOk(g: Config, n: NodeState, tx: Transaction)
    requires NodeOk(g, n) && NonceFits(g, n, tx)
    ensures NodeOk(g, Submit(g, n, tx).node)
  {
    AddKeepsPoolOk(g.crypto, n.accounts, n.pool, tx);
  }

  // ---------------------------------------------------------------- production

  lemma {:induction false} ChainSupply(g: Config, n: NodeState)
    requires ConfigOk(g) && NodeOk(g, n)
    ensures Supply(n.accounts) <= MAX_U64
  {
    ReplaySupply(GenesisAccounts(g.allocations), n.chain);
  }

  /** On its turn a node's draft passes the four checks of addBlock and applies to confirmed state. */
  lemma {:induction false} DraftIsTaken(g: Config, n: NodeState, now: U64)
    requires ConfigOk(g) && NodeOk(g, n) && OwnTurn(g, n)
    ensures Takes(g, n, Draft(g, n, now))
    ensures ApplyAll(n.accounts, Draft(g, n, now).transactions).Some?
  {
    ChainSupply(g, n);
    var sel := Selected(n.pool, BLOCK_LIMIT);
    SelectionApplies(g.crypto, n.accounts, n.pool, BLOCK_LIMIT);
    VerifyEachMeans(g.crypto, sel);
    CreatedBlockExtends(g.crypto, g.authorities, n.chain, g.keys, sel, now);
  }

  lemma SelectedSize(c: Suite, p: Pool, maxCount: nat)
    requires Sortable(c, p)
    ensures |Selected(p, maxCount)| == if |p.pending| > maxCount then maxCount else |p.pending|
  {
    SortableHolds(c, p);
  }

  lemma {:induction false} DraftEvictsNothing(g: Config, n: NodeState, now: U64)
    requires ConfigOk(g) && NodeOk(g, n)
    ensures Order(Accept(g, n, Draft(g, n, now)).pool.pending.Values) == Unselected(n.pool, BLOCK_LIMIT)
    ensures |Accept(g, n, Draft(g, n, now)).pool.pending|
            == if |n.pool.pending| > BLOCK_LIMIT then |n.pool.pending| - BLOCK_LIMIT else 0
  {
    hide VerifyBlock, VerifyTransaction, LinkedAt, Carried, Sortable, NoncesBelowMax, Runnable, Indexed, ValidChain;
    ChainSupply(g, n);
    SelectedSize(g.crypto, n.pool, BLOCK_LIMIT);
    OwnBlockEvictsNothing(g.crypto, n.accounts, n.pool, BLOCK_LIMIT);
  }

  /** So production always succeeds, and afterwards the pool holds exactly what was not selected. */
  lemma {:induction false} ProduceSucceeds(g: Config, n: NodeState, now: U64)
    requires ConfigOk(g) && NodeOk(g, n) && OwnTurn(g, n)
    ensures NodeOk(g, Produce(g, n, now).node)
    ensures Produce(g, n, now).node.chain == n.chain + [Draft(g, n, now)]
    ensures Order(Produce(g, n, now).node.pool.pending.Values) == Unselected(n.pool, BLOCK_LIMIT)
    ensures |Produce(g, n, now).node.pool.pending|
            == if |n.pool.pending| > BLOCK_LIMIT then |n.pool.pending| - BLOCK_LIMIT else 0
  {
    hide Takes, PoolOk, LinkedAt, Draft, OwnTurn, Unselected;
    DraftIsTaken(g, n, now);
    AcceptKeepsOk(g, n, Draft(g, n, now));
    DraftEvictsNothing(g, n, now);
  }

  /** produceBlock called again and again, with these clock readings. */
  ghost function ProduceRepeatedly(g: Config, n: NodeState, clock: seq<U64>): (r: NodeState)
    requires Runs(g, n)
    ensures Runs(g, r)
  {
    if clock == [] then n
    else Produce(g, ProduceRepeatedly(g, n, clock[..|clock| - 1]), clock[|clock| - 1]).node
  }

  lemma LoneTurn(g: Config, n: NodeState)
    requires g.authorities == [NodeAddress(g)] && n.chain != []
    ensures OwnTurn(g, n)
  {
    assert |n.chain| % 1 == 0;
  }

  /** A lone authority drains m pooled transactions in exactly ceil(m / 100) blocks. */
  lemma {:induction false} LoneAuthorityDrains(g: Config, n: NodeState, clock: seq<U64>)
    requires ConfigOk(g) && NodeOk(g, n) && g.authorities == [NodeAddress(g)]
    ensures NodeOk(g, ProduceRepeatedly(g, n, clock))
    ensures |ProduceRepeatedly(g, n, clock).chain| == |n.chain| + |clock|
    ensures |ProduceRepeatedly(g, n, clock).pool.pending|
            == if |n.pool.pending| > 100 * |clock| then |n.pool.pending| - 100 * |clock| else 0
  {
    hide Produce, ConfigOk, PoolOk, LinkedAt, Selected, StateOf;
    if clock != [] {
      var k := |clock| - 1;
      var before := ProduceRepeatedly(g, n, clock[..k]);
      LoneAuthorityDrains(g, n, clock[..k]);
      LoneTurn(g, before);
      ProduceSucceeds(g, before, clock[k]);
    }
  }

  // ---------------------------------------------------------------- synchronisation

  ghost predicate Comparable(a: seq<Block>, b: seq<Block>)
  {
    a <= b || b <= a
  }

  lemma SkipsKnown(g: Config, n: NodeState, r: seq<Block>, start: nat)
    requires Runs(g, n) && start < |r| && start < |n.chain| && r[start].index == start
    ensures OnBlocks(g, n, r[start..]) == OnBlocks(g, n, r[start + 1..])
  {
    assert r[start..][1..] == r[start + 1..];
  }

  lemma {:induction false} TakesNext(g: Config, n: NodeState, r: seq<Block>)
    requires Runs(g, n) && ChainOk(g, r) && n.chain < r
    ensures Takes(g, n, r[|n.chain|])
    ensures Accept(g, n, r[|n.chain|]).chain == r[..|n.chain| + 1]
    ensures OnBlocks(g, n, r[|n.chain|..]) == OnBlocks(g, Accept(g, n, r[|n.chain|]), r[|n.chain| + 1..])
  {
    hide VerifyBlock;
    var k := |n.chain|;
    assert r[k..][1..] == r[k + 1..] && n.chain == r[..k];
    NextExtends(g, r, k);
  }

  /** Handling the tail of a good chain r that extends, or is extended by, one's own. */
  lemma {:induction false} OnBlocksFollows(g: Config, n: NodeState, r: seq<Block>, start: nat)
    requires NodeOk(g, n) && ChainOk(g, r) && Comparable(n.chain, r)
    requires start <= |n.chain| && start <= |r|
    ensures OnBlocks(g, n, r[start..]).chain == if |n.chain| >= |r| then n.chain else r
    decreases |r| - start
  {
    hide PoolOk, VerifyBlock, Extends, DbHolds, Accept;
    if start < |r| {
      assert LinkedAt(g.crypto, r, start);
      if start < |n.chain| {
        SkipsKnown(g, n, r, start);
        OnBlocksFollows(g, n, r, start + 1);
      } else {
        TakesNext(g, n, r);
        AcceptKeepsOk(g, n, r[start]);
        OnBlocksFollows(g, Accept(g, n, r[start]), r, start + 1);
      }
    }
  }

  /** One sync round catches up: the requester asked from `start`, the responder's chain was r when it
      replied, and the requester may have advanced since. It ends at least as high as the responder was,
      with the responder's blocks and the state they determine. */
  lemma SyncRoundCatchesUp(g: Config, n: NodeState, responder: NodeState, start: nat)
    requires NodeOk(g, n) && ChainOk(g, responder.chain) && Comparable(n.chain, responder.chain)
    requires start <= |n.chain|
    ensures var after := Handle(g, n, OnGetBlocks(responder, start)).node;
            && responder.chain <= after.chain
            && NodeOk(g, after)
            && (|n.chain| <= |responder.chain| ==>
                  after.chain == responder.chain && after.accounts == StateOf(g, responder.chain))
  {
    hide PoolOk, VerifyBlock, LinkedAt, DbHolds;
    HandleKeepsOk(g, n, OnGetBlocks(responder, start));
    if start < |responder.chain| {
      OnBlocksFollows(g, n, responder.chain, start);
    } else {
      assert |responder.chain| <= |n.chain|;
    }
  }

  /** Connecting brings a node up to its peer: the request sent on connection, answered at any later time by
      a peer with a comparable chain, and the answer handled at any later time still, leave the node with the
      peer's chain as it was when it answered as a prefix of its own. */
  lemma ConnectRoundCatchesUp(g: Config, asked: NodeState, n: NodeState, h: Config, peer: NodeState,
                              request: Message, answer: Message)
    requires NodeOk(g, n) && asked.chain <= n.chain
    requires peer.chain != [] && h.authorities != []
    requires ChainOk(g, peer.chain) && Comparable(n.chain, peer.chain)
    requires request in OnPeerConnected(asked).reply && answer in Handle(h, peer, request).reply
    ensures peer.chain <= Handle(g, n, answer).node.chain && NodeOk(g, Handle(g, n, answer).node)
  {
    hide NodeOk, ChainOk;
    SyncRoundCatchesUp(g, n, peer, |asked.chain|);
  }

  // ---------------------------------------------------------------- crashes inside a handler

  lemma {:induction false} OnBlocksDb(g: Config, n: NodeState, blocks: seq<Block>)
    requires Runs(g, n)
    ensures OnBlocks(g, n, blocks).db == Written(n.db, OnBlocksWrites(g, n, blocks))
    decreases |blocks|
  {
    if blocks != [] {
      if blocks[0].index < |n.chain| {
        OnBlocksDb(g, n, blocks[1..]);
      } else if blocks[0].index == |n.chain| && Takes(g, n, blocks[0]) {
        var next := Accept(g, n, blocks[0]);
        OnBlocksDb(g, next, blocks[1..]);
        WrittenConcat(n.db, AcceptWrites(g, n, blocks[0]), OnBlocksWrites(g, next, blocks[1..]));
      }
    }
  }

  /** The write list of an outcome is what leads from the old database to the new one, for every message ... */
  lemma HandleDb(g: Config, n: NodeState, m: Message)
    requires Runs(g, n)
    ensures Handle(g, n, m).node.db == Written(n.db, Handle(g, n, m).writes)
  {
    if m.Blocks? {
      OnBlocksDb(g, n, m.blocks);
    }
  }

  /** ... and for production. */
  lemma ProduceDb(g: Config, n: NodeState, now: U64)
    requires Runs(g, n)
    ensures Produce(g, n, now).node.db == Written(n.db, Produce(g, n, now).writes)
  {
    hide Draft, Takes, OwnTurn;
  }

  lemma TakeOfConcat(xs: seq<Write>, ys: seq<Write>, j: nat)
    requires j <= |xs| + |ys|
    ensures (xs + ys)[..j] == if j <= |xs| then xs[..j] else xs + ys[..j - |xs|]
  {
  }

  /** The chain in memory at the moment of the j-th write of a BLOCKS message. */
  ghost function MemoryAt(g: Config, n: NodeState, blocks: seq<Block>, j: nat): seq<Block>
    requires Runs(g, n)
    decreases |blocks|
  {
    if blocks == [] then n.chain
    else if blocks[0].index < |n.chain| then MemoryAt(g, n, blocks[1..], j)
    else if blocks[0].index != |n.chain| || !Takes(g, n, blocks[0]) then n.chain
    else if j <= |AcceptWrites(g, n, blocks[0])| then n.chain + [blocks[0]]
    else MemoryAt(g, Accept(g, n, blocks[0]), blocks[1..], j - |AcceptWrites(g, n, blocks[0])|)
  }

  /** What survives a crash after j writes of a BLOCKS message. */
  ghost predicate Survives(g: Config, n: NodeState, blocks: seq<Block>, j: nat, survivor: seq<Block>)
    requires Runs(g, n) && j <= |OnBlocksWrites(g, n, blocks)|
  {
    && n.chain <= survivor <= OnBlocks(g, n, blocks).chain
    && survivor <= MemoryAt(g, n, blocks, j) && |MemoryAt(g, n, blocks, j)| <= |survivor| + 1
    && ChainOk(g, survivor)
    && DbHolds(Written(n.db, OnBlocksWrites(g, n, blocks)[..j]), survivor)
  }

  lemma CrashInFirst(g: Config, n: NodeState, blocks: seq<Block>, j: nat) returns (survivor: seq<Block>)
    requires g.persistent && NodeOk(g, n)
    requires blocks != [] && blocks[0].index == |n.chain| && Takes(g, n, blocks[0])
    requires j <= |AcceptWrites(g, n, blocks[0])|
    ensures j <= |OnBlocksWrites(g, n, blocks)| && Survives(g, n, blocks, j, survivor)
  {
    hide PoolOk, Acceptable, LinkedAt, AcceptWrites, DbHolds, StateOf;
    var b := blocks[0];
    survivor := if j < 2 then n.chain else n.chain + [b];
    AcceptKeepsOk(g, n, b);
    OnBlocksKeepsOk(g, Accept(g, n, b), blocks[1..]);
    CrashDuringAccept(g, n, b, j);
    TakeOfConcat(AcceptWrites(g, n, b), OnBlocksWrites(g, Accept(g, n, b), blocks[1..]), j);
  }

  lemma CrashInRest(g: Config, n: NodeState, blocks: seq<Block>, j: nat, survivor: seq<Block>)
    requires g.persistent && NodeOk(g, n)
    requires blocks != [] && blocks[0].index == |n.chain| && Takes(g, n, blocks[0])
    requires |AcceptWrites(g, n, blocks[0])| < j <= |OnBlocksWrites(g, n, blocks)|
    requires Survives(g, Accept(g, n, blocks[0]), blocks[1..], j - |AcceptWrites(g, n, blocks[0])|, survivor)
    ensures Survives(g, n, blocks, j, survivor)
  {
    hide PoolOk, Acceptable, LinkedAt, AcceptWrites, DbHolds, StateOf, ChainOk;
    var first := AcceptWrites(g, n, blocks[0]);
    var rest := OnBlocksWrites(g, Accept(g, n, blocks[0]), blocks[1..]);
    TakeOfConcat(first, rest, j);
    WrittenConcat(n.db, first, rest[..j - |first|]);
  }

  /** A crash after j writes of a BLOCKS message: storage holds a chain between the one before the
      message and the one the message leads to, at most one block short of what memory held. */
  lemma {:induction false} CrashDuringBlocks(g: Config, n: NodeState, blocks: seq<Block>, j: nat)
      returns (survivor: seq<Block>)
    requires g.persistent && NodeOk(g, n) && j <= |OnBlocksWrites(g, n, blocks)|
    ensures Survives(g, n, blocks, j, survivor)
    decreases |blocks|
  {
    hide PoolOk, Acceptable, LinkedAt, AcceptWrites, DbHolds, StateOf;
    if blocks != [] && blocks[0].index < |n.chain| {
      survivor := CrashDuringBlocks(g, n, blocks[1..], j);
    } else if blocks != [] && blocks[0].index == |n.chain| && Takes(g, n, blocks[0]) {
      var b := blocks[0];
      if j <= |AcceptWrites(g, n, b)| {
        survivor := CrashInFirst(g, n, blocks, j);
      } else {
        AcceptKeepsOk(g, n, b);
        survivor := CrashDuringBlocks(g, Accept(g, n, b), blocks[1..], j - |AcceptWrites(g, n, b)|);
        CrashInRest(g, n, blocks, j, survivor);
      }
    } else {
      survivor := n.chain;
      assert OnBlocksWrites(g, n, blocks)[..j] == [];
    }
  }

  /** Crash recovery for every message: whatever write the process dies after, the restarted node is
      consistent and its chain lies between the one before the message and the one the message leads to. */
  lemma {:induction false} CrashDuringHandle(g: Config, n: NodeState, m: Message, j: nat)
    requires g.persistent && NodeOk(g, n) && j <= |Handle(g, n, m).writes|
    ensures NodeOk(g, Boot(g, Written(n.db, Handle(g, n, m).writes[..j])))
    ensures n.chain <= Boot(g, Written(n.db, Handle(g, n, m).writes[..j])).chain <= Handle(g, n, m).node.chain
  {
    hide PoolOk, VerifyBlock, LinkedAt, DbHolds, Recovered;
    if m.NewBlock? && m.block.index == |n.chain| && Takes(g, n, m.block) {
      CrashRecovery(g, n, m.block, j);
    } else if m.Blocks? {
      var survivor := CrashDuringBlocks(g, n, m.blocks, j);
      BootRestores(g, Written(n.db, Handle(g, n, m).writes[..j]), survivor);
    } else {
      assert Handle(g, n, m).writes[..j] == [];
      BootRestores(g, n.db, n.chain);
    }
  }
}
